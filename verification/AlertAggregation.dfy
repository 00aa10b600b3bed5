/** Alert aggregation: one window per fingerprint, with suppression inside it. */
module AlertAggregation {
  import opened Options
  import opened IntegerFacts

  type Fingerprint = nat

  datatype Alert = Alert(fingerprint: Fingerprint, alertId: nat, suppressionCount: nat)

  datatype Config = Config(windowDuration: nat, minCount: nat, maxSuppression: nat)

  datatype Entry = Entry(alert: Alert, count: nat, firstSeen: nat)

  datatype Arrival = Arrival(alert: Alert, now: nat)

  type Windows = map<Fingerprint, Entry>

  // ---------- The aggregator ----------

  function Cleanup(cfg: Config, windows: Windows, now: nat): Windows {
    map f | f in windows && SaturatingSub(now, windows[f].firstSeen) < cfg.windowDuration :: windows[f]
  }

  function Aggregated(e: Entry): Alert { e.alert.(suppressionCount := e.count) }

  /** The window of one fingerprint after an arrival, given the window it met. */
  function WindowAfter(cfg: Config, w: Option<Entry>, a: Arrival): Option<Entry> {
    if w.None? then Some(Entry(a.alert, 1, a.now))
    else if w.value.count + 1 > cfg.maxSuppression then None
    else Some(w.value.(count := w.value.count + 1))
  }

  function Emits(cfg: Config, w: Option<Entry>, a: Arrival): Option<Alert> {
    if w.None? then Some(a.alert)
    else if w.value.count + 1 > cfg.maxSuppression then Some(Aggregated(w.value.(count := w.value.count + 1)))
    else None
  }

  function Find(windows: Windows, f: Fingerprint): Option<Entry> {
    if f in windows then Some(windows[f]) else None
  }

  function Put(windows: Windows, f: Fingerprint, w: Option<Entry>): Windows {
    if w.Some? then windows[f := w.value] else windows - {f}
  }

  function Process(cfg: Config, windows: Windows, a: Arrival): Windows {
    var live := Cleanup(cfg, windows, a.now);
    Put(live, a.alert.fingerprint, WindowAfter(cfg, Find(live, a.alert.fingerprint), a))
  }

  function Emission(cfg: Config, windows: Windows, a: Arrival): Option<Alert> {
    Emits(cfg, Find(Cleanup(cfg, windows, a.now), a.alert.fingerprint), a)
  }

  // ---------- Runs ----------

  function Run(cfg: Config, run: seq<Arrival>): Windows {
    if run == [] then map[] else Process(cfg, Run(cfg, run[..|run| - 1]), run[|run| - 1])
  }

  function Clock(run: seq<Arrival>): nat { if run == [] then 0 else run[|run| - 1].now }

  ghost predicate Monotone(run: seq<Arrival>) {
    run != [] ==> Monotone(run[..|run| - 1]) && Clock(run[..|run| - 1]) <= Clock(run)
  }

  /** Alerts with fingerprint `f` that a run emits. */
  function EmittedFor(cfg: Config, run: seq<Arrival>, f: Fingerprint): seq<Alert> {
    if run == [] then []
    else
      var front, a := run[..|run| - 1], run[|run| - 1];
      var e := Emission(cfg, Run(cfg, front), a);
      EmittedFor(cfg, front, f) + if e.Some? && e.value.fingerprint == f then [e.value] else []
  }

  // ---------- One fingerprint on its own ----------

  predicate Open(cfg: Config, w: Option<Entry>, now: nat) {
    w.Some? && SaturatingSub(now, w.value.firstSeen) < cfg.windowDuration
  }

  /** The latest window of `f`, computed from its own arrivals only. */
  function OwnWindow(cfg: Config, run: seq<Arrival>, f: Fingerprint): Option<Entry> {
    if run == [] then None
    else
      var w, a := OwnWindow(cfg, run[..|run| - 1], f), run[|run| - 1];
      if a.alert.fingerprint != f then w
      else WindowAfter(cfg, if Open(cfg, w, a.now) then w else None, a)
  }

  function OwnEmitted(cfg: Config, run: seq<Arrival>, f: Fingerprint): seq<Alert> {
    if run == [] then []
    else
      var front, a := run[..|run| - 1], run[|run| - 1];
      var w := OwnWindow(cfg, front, f);
      if a.alert.fingerprint != f then OwnEmitted(cfg, front, f)
      else
        var e := Emits(cfg, if Open(cfg, w, a.now) then w else None, a);
        OwnEmitted(cfg, front, f) + if e.Some? then [e.value] else []
  }

  /** The window kept for `f` is its own window, unless that has expired and been cleaned up. */
  ghost predicate Agrees(cfg: Config, kept: Option<Entry>, own: Option<Entry>, now: nat) {
    if kept.Some? then own == kept else !Open(cfg, own, now)
  }

  ghost predicate EntriesMatch(windows: Windows) {
    forall f | f in windows :: windows[f].alert.fingerprint == f
  }

  lemma CleanupAgrees(cfg: Config, windows: Windows, f: Fingerprint, own: Option<Entry>, now: nat, now': nat)
    requires now <= now' && Agrees(cfg, Find(windows, f), own, now)
    ensures Find(Cleanup(cfg, windows, now'), f) == if Open(cfg, own, now') then own else None
  {
  }

  /** Other fingerprints' arrivals, and the cleanups they trigger, change nothing for `f`. */
  lemma {:induction false} RunAgrees(cfg: Config, run: seq<Arrival>, f: Fingerprint)
    requires Monotone(run)
    ensures EntriesMatch(Run(cfg, run))
    ensures Agrees(cfg, Find(Run(cfg, run), f), OwnWindow(cfg, run, f), Clock(run))
    ensures EmittedFor(cfg, run, f) == OwnEmitted(cfg, run, f)
  {
    if run != [] {
      var front, a := run[..|run| - 1], run[|run| - 1];
      RunAgrees(cfg, front, f);
      CleanupAgrees(cfg, Run(cfg, front), f, OwnWindow(cfg, front, f), Clock(front), a.now);
      EmissionFingerprint(cfg, Run(cfg, front), a);
    }
  }

  lemma EmissionFingerprint(cfg: Config, windows: Windows, a: Arrival)
    requires EntriesMatch(windows)
    ensures EntriesMatch(Process(cfg, windows, a))
    ensures var e := Emission(cfg, windows, a); e.Some? ==> e.value.fingerprint == a.alert.fingerprint
  {
  }

  // ---------- How many alerts come out ----------

  /** Alerts per full window: a limit of zero acts as one. */
  function Cycle(cfg: Config): nat { (if cfg.maxSuppression == 0 then 1 else cfg.maxSuppression) + 1 }

  function Received(run: seq<Arrival>, f: Fingerprint): nat {
    if run == [] then 0
    else Received(run[..|run| - 1], f) + if run[|run| - 1].alert.fingerprint == f then 1 else 0
  }

  /** Every arrival of `f` comes less than a window after `first`, and none before it. */
  ghost predicate WithinWindow(cfg: Config, run: seq<Arrival>, f: Fingerprint, first: nat) {
    forall i | 0 <= i < |run| && run[i].alert.fingerprint == f ::
      first <= run[i].now && run[i].now - first < cfg.windowDuration
  }

  /** The window after `n` arrivals, when none of them is late. */
  ghost predicate CycleState(cfg: Config, w: Option<Entry>, n: nat, first: nat) {
    if n % Cycle(cfg) == 0 then w.None? else w.Some? && w.value.count == n % Cycle(cfg) && w.value.firstSeen >= first
  }

  lemma CycleStep(cfg: Config, w: Option<Entry>, n: nat, first: nat, a: Arrival)
    requires CycleState(cfg, w, n, first) && first <= a.now && a.now - first < cfg.windowDuration
    ensures var met := if Open(cfg, w, a.now) then w else None;
            && CycleState(cfg, WindowAfter(cfg, met, a), n + 1, first)
            && (Emits(cfg, met, a).Some? <==> n % Cycle(cfg) == 0 || (n + 1) % Cycle(cfg) == 0)
  {
    QuotientStep(n, Cycle(cfg));
  }

  function EmittedCount(n: nat, cycle: nat): nat
    requires cycle > 0
  {
    2 * (n / cycle) + if n % cycle == 0 then 0 else 1
  }

  lemma {:induction false} OwnCount(cfg: Config, run: seq<Arrival>, f: Fingerprint, first: nat)
    requires WithinWindow(cfg, run, f, first)
    ensures CycleState(cfg, OwnWindow(cfg, run, f), Received(run, f), first)
    ensures |OwnEmitted(cfg, run, f)| == EmittedCount(Received(run, f), Cycle(cfg))
  {
    if run != [] {
      var front, a := run[..|run| - 1], run[|run| - 1];
      OwnCount(cfg, front, f, first);
      if a.alert.fingerprint == f {
        CycleStep(cfg, OwnWindow(cfg, front, f), Received(front, f), first, a);
        QuotientStep(Received(front, f), Cycle(cfg));
      }
    }
  }

  /** The first alert and the aggregate of each full window, and the first of an unfinished one. */
  lemma EmittedPerFingerprint(cfg: Config, run: seq<Arrival>, f: Fingerprint, first: nat)
    requires Monotone(run) && WithinWindow(cfg, run, f, first)
    ensures |EmittedFor(cfg, run, f)| == EmittedCount(Received(run, f), Cycle(cfg))
  {
    RunAgrees(cfg, run, f);
    OwnCount(cfg, run, f, first);
  }

  ghost predicate CountsBelowCycle(cfg: Config, windows: Windows) {
    forall f | f in windows :: 1 <= windows[f].count < Cycle(cfg)
  }

  /** Does the arrival join the window with these members, neither full nor over? */
  predicate Joins(cfg: Config, members: seq<Arrival>, a: Arrival) {
    members != [] && |members| < Cycle(cfg) && SaturatingSub(a.now, members[0].now) < cfg.windowDuration
  }

  /** The arrivals in the latest window of `f`, first one first. */
  function WindowMembers(cfg: Config, run: seq<Arrival>, f: Fingerprint): seq<Arrival> {
    if run == [] then []
    else
      var members, a := WindowMembers(cfg, run[..|run| - 1], f), run[|run| - 1];
      if a.alert.fingerprint != f then members
      else if Joins(cfg, members, a) then members + [a]
      else [a]
  }

  /** What the arrival should bring out: itself, the report of the window it fills, or nothing. */
  function Reported(cfg: Config, members: seq<Arrival>, a: Arrival): Option<Alert> {
    if !Joins(cfg, members, a) then Some(a.alert)
    else if |members| + 1 == Cycle(cfg) then Some(members[0].alert.(suppressionCount := Cycle(cfg)))
    else None
  }

  lemma {:induction false} WindowIsMembers(cfg: Config, run: seq<Arrival>, f: Fingerprint)
    ensures var members := WindowMembers(cfg, run, f);
            && |members| <= Cycle(cfg)
            && OwnWindow(cfg, run, f)
               == if members == [] || |members| == Cycle(cfg) then None
                  else Some(Entry(members[0].alert, |members|, members[0].now))
  {
    if run != [] {
      WindowIsMembers(cfg, run[..|run| - 1], f);
    }
  }

  lemma EmissionByMembers(cfg: Config, run: seq<Arrival>, a: Arrival)
    requires Monotone(run) && Clock(run) <= a.now
    ensures Emission(cfg, Run(cfg, run), a) == Reported(cfg, WindowMembers(cfg, run, a.alert.fingerprint), a)
  {
    var f := a.alert.fingerprint;
    RunAgrees(cfg, run, f);
    CleanupAgrees(cfg, Run(cfg, run), f, OwnWindow(cfg, run, f), Clock(run), a.now);
    WindowIsMembers(cfg, run, f);
  }

  lemma {:induction false} CountsStayBelowCycle(cfg: Config, run: seq<Arrival>)
    ensures CountsBelowCycle(cfg, Run(cfg, run))
  {
    if run != [] {
      CountsStayBelowCycle(cfg, run[..|run| - 1]);
    }
  }

  /**
   * On every run an emitted alert is the one that arrived, or reports a full window. While the clock
   * does not go back, it is the arrival exactly when that opens a window, and the report carries the
   * first alert of the window it closes.
   */
  lemma AggregatesReportFullWindows(cfg: Config, run: seq<Arrival>, a: Arrival)
    ensures var e := Emission(cfg, Run(cfg, run), a);
            e.Some? ==> e.value == a.alert || e.value.suppressionCount == Cycle(cfg)
    ensures Monotone(run) && Clock(run) <= a.now ==>
              Emission(cfg, Run(cfg, run), a) == Reported(cfg, WindowMembers(cfg, run, a.alert.fingerprint), a)
  {
    CountsStayBelowCycle(cfg, run);
    if Monotone(run) && Clock(run) <= a.now {
      EmissionByMembers(cfg, run, a);
    }
  }

  // ---------- Flushing ----------

  /** The fingerprints a flush reports. */
  function Flushed(cfg: Config, windows: Windows): set<Fingerprint> {
    set f | f in windows && windows[f].count >= cfg.minCount
  }

  lemma {:induction false} KeptWindowsAreOpen(cfg: Config, run: seq<Arrival>)
    requires cfg.windowDuration > 0 && Monotone(run)
    ensures forall f | f in Run(cfg, run) :: Open(cfg, Some(Run(cfg, run)[f]), Clock(run))
  {
    if run != [] {
      KeptWindowsAreOpen(cfg, run[..|run| - 1]);
    }
  }

  /**
   * A flush reports `f` exactly when its window has enough alerts and was still open when the
   * latest alert of any fingerprint arrived.
   */
  lemma FlushReportsIff(cfg: Config, run: seq<Arrival>, f: Fingerprint)
    requires cfg.windowDuration > 0 && Monotone(run)
    ensures var own := OwnWindow(cfg, run, f);
            f in Flushed(cfg, Run(cfg, run)) <==> Open(cfg, own, Clock(run)) && own.value.count >= cfg.minCount
  {
    RunAgrees(cfg, run, f);
    KeptWindowsAreOpen(cfg, run);
  }

  predicate ReportsWindow(x: Alert, members: seq<Arrival>) {
    members != [] && x == members[0].alert.(suppressionCount := |members|)
  }

  /** What a flush reports for `f`: the first alert of its window, with the number of its members. */
  lemma FlushReportsMembers(cfg: Config, run: seq<Arrival>, f: Fingerprint)
    requires cfg.windowDuration > 0 && Monotone(run) && f in Flushed(cfg, Run(cfg, run))
    ensures var members := WindowMembers(cfg, run, f);
            && members != [] && |members| >= cfg.minCount
            && Aggregated(Run(cfg, run)[f]) == members[0].alert.(suppressionCount := |members|)
  {
    RunAgrees(cfg, run, f);
    WindowIsMembers(cfg, run, f);
  }

  /** So, unlike `Process`, a flush depends on the others: an unrelated late alert hides a window. */
  lemma FlushSeesOthers()
    ensures var cfg := Config(10, 2, 100);
            var mine := [Arrival(Alert(1, 0, 0), 0), Arrival(Alert(1, 1, 0), 1)];
            var run := mine + [Arrival(Alert(2, 2, 0), 50)];
            && Monotone(mine) && Monotone(run)
            && OwnWindow(cfg, mine, 1) == OwnWindow(cfg, run, 1)
            && 1 in Flushed(cfg, Run(cfg, mine)) && 1 !in Flushed(cfg, Run(cfg, run))
  {
    var cfg := Config(10, 2, 100);
    var a, b, c := Arrival(Alert(1, 0, 0), 0), Arrival(Alert(1, 1, 0), 1), Arrival(Alert(2, 2, 0), 50);
    var mine := [a, b];
    var run := mine + [c];
    assert [a][..0] == [] && mine[..1] == [a] && run[..2] == mine;
    assert Monotone([]) && Monotone([a]) && Monotone(mine) && Monotone(run);
    assert OwnWindow(cfg, [a], 1) == Some(Entry(a.alert, 1, 0));
    assert OwnWindow(cfg, mine, 1) == Some(Entry(a.alert, 2, 0));
    FlushReportsIff(cfg, mine, 1);
    FlushReportsIff(cfg, run, 1);
  }

  // ---------- The program ----------

  class Aggregator {
    const cfg: Config
    var windows: Windows

    ghost var run: seq<Arrival>  // every alert since the start or the last flush

    ghost predicate Valid()
      reads this
    {
      windows == Run(cfg, run)
    }

    constructor (cfg: Config)
      ensures Valid() && this.cfg == cfg && run == []
    {
      this.cfg := cfg;
      windows, run := map[], [];
    }

    method ProcessAlert(alert: Alert, now: nat) returns (emitted: Option<Alert>)
      requires Valid()
      modifies this
      ensures Valid() && run == old(run) + [Arrival(alert, now)]
      ensures emitted == Emission(cfg, Run(cfg, old(run)), Arrival(alert, now))
      ensures Monotone(run) ==>
                emitted == Reported(cfg, WindowMembers(cfg, old(run), alert.fingerprint), Arrival(alert, now))
    {
      AggregatesReportFullWindows(cfg, run, Arrival(alert, now));
      assert (run + [Arrival(alert, now)])[..|run|] == run;
      run := run + [Arrival(alert, now)];
      var f := alert.fingerprint;
      windows := Cleanup(cfg, windows, now);
      if f in windows {
        var entry := windows[f];
        entry := entry.(count := entry.count + 1);
        windows := windows[f := entry];
        if entry.count > cfg.maxSuppression {
          windows := windows - {f};
          return Some(Aggregated(entry));
        }
        return None;
      } else {
        windows := windows[f := Entry(alert, 1, now)];
        return Some(alert);
      }
    }

    /** Reports every window with enough alerts, in whatever order the map yields them, and clears all. */
    method Flush() returns (alerts: seq<Alert>)
      requires Valid()
      modifies this
      ensures Valid() && run == []
      ensures var flushed := Flushed(cfg, old(windows));
              |alerts| == |flushed|
              && forall x :: x in alerts <==> exists f :: f in flushed && x == Aggregated(old(windows)[f])
      ensures cfg.windowDuration > 0 && Monotone(old(run)) ==>
                forall x | x in alerts ::
                  exists f :: f in Flushed(cfg, old(windows))
                              && ReportsWindow(x, WindowMembers(cfg, old(run), f))
    {
      if cfg.windowDuration > 0 && Monotone(run) {
        forall f | f in Flushed(cfg, windows)
          ensures ReportsWindow(Aggregated(windows[f]), WindowMembers(cfg, run, f))
        {
          FlushReportsMembers(cfg, run, f);
        }
      }
      alerts := CollectFlushed(cfg, windows);
      windows, run := map[], [];
    }
  }

  /** The alerts are the reports of these windows, one each. */
  ghost predicate Reports(windows: Windows, done: set<Fingerprint>, alerts: seq<Alert>)
    requires done <= windows.Keys
  {
    |alerts| == |done| && forall x :: x in alerts <==> exists f :: f in done && x == Aggregated(windows[f])
  }

  lemma ReportsOneMore(windows: Windows, done: set<Fingerprint>, alerts: seq<Alert>, f: Fingerprint)
    requires done <= windows.Keys && f in windows && f !in done && Reports(windows, done, alerts)
    ensures Reports(windows, done + {f}, alerts + [Aggregated(windows[f])])
  {
    var done', alerts' := done + {f}, alerts + [Aggregated(windows[f])];
    forall x ensures x in alerts' <==> exists g :: g in done' && x == Aggregated(windows[g]) {
      if x in alerts {
        var g :| g in done && x == Aggregated(windows[g]);
        assert g in done';
      } else if x == Aggregated(windows[f]) {
        assert f in done';
      }
    }
  }

  method CollectFlushed(cfg: Config, windows: Windows) returns (alerts: seq<Alert>)
    ensures Reports(windows, Flushed(cfg, windows), alerts)
  {
    alerts := [];
    var todo := windows.Keys;
    ghost var done: set<Fingerprint> := {};
    while todo != {}
      invariant todo <= windows.Keys
      invariant done == Flushed(cfg, windows) - todo && Reports(windows, done, alerts)
    {
      var f :| f in todo;
      todo := todo - {f};
      if windows[f].count >= cfg.minCount {
        ReportsOneMore(windows, done, alerts, f);
        alerts := alerts + [Aggregated(windows[f])];
        done := done + {f};
      }
      assert done == Flushed(cfg, windows) - todo;
    }
    assert done == Flushed(cfg, windows);
  }
}
