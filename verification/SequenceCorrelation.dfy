/** Sequence correlation over one session: the single pass with gap resets. */
module SequenceCorrelation {
  import opened Collections
  import opened Options

  datatype Event = Event(eventId: nat)

  /** A rule condition, left abstract: any test on events. */
  type Condition = Event -> bool

  /** An event of the session, with the alert raised for it and the clock reading in nanoseconds. */
  datatype SessionEvent = SessionEvent(event: Event, alert: Option<string>, timestamp: nat)

  datatype Rule = Rule(stages: seq<Condition>, maxGapSeconds: nat)

  function Seconds(later: nat, earlier: nat): nat {
    if later < earlier then 0 else (later - earlier) / 1_000_000_000
  }

  /** Whole seconds, rounded down. */
  lemma SecondsRoundDown(later: nat, earlier: nat)
    requires earlier <= later
    ensures var n := Seconds(later, earlier); n * 1_000_000_000 <= later - earlier < (n + 1) * 1_000_000_000
  {
  }

  // ---------- What a match is ----------

  /**
   * One stage of a match: its event satisfies the stage, and comes after the event of the stage
   * before, by at most the permitted number of whole seconds.
   */
  ghost predicate StageOk(rule: Rule, session: seq<SessionEvent>, pos: seq<nat>, i: nat) {
    && i < |pos| && i < |rule.stages| && pos[i] < |session|
    && rule.stages[i](session[pos[i]].event)
    && (i > 0 ==>
          && pos[i - 1] < pos[i]
          && Seconds(session[pos[i]].timestamp, session[pos[i - 1]].timestamp) <= rule.maxGapSeconds)
  }

  /** The positions match the first stages of the rule, in order and without too long a pause. */
  ghost predicate PartialMatch(rule: Rule, session: seq<SessionEvent>, pos: seq<nat>) {
    |pos| <= |rule.stages| && forall i | 0 <= i < |pos| :: StageOk(rule, session, pos, i)
  }

  ghost predicate Match(rule: Rule, session: seq<SessionEvent>, pos: seq<nat>) {
    PartialMatch(rule, session, pos) && |pos| == |rule.stages|
  }

  ghost predicate HasMatch(rule: Rule, session: seq<SessionEvent>) {
    exists pos :: Match(rule, session, pos)
  }

  // ---------- The pass ----------

  /** Positions matched since the last reset; the time of the latest match survives resets. */
  datatype Progress = Progress(positions: seq<nat>, lastMatch: Option<nat>)

  predicate GapTooLarge(rule: Rule, p: Progress, now: nat) {
    p.lastMatch.Some? && Seconds(now, p.lastMatch.value) > rule.maxGapSeconds
  }

  function Advance(rule: Rule, p: Progress, at: nat, e: SessionEvent): Progress {
    if |p.positions| >= |rule.stages| then p
    else
      var q := if GapTooLarge(rule, p, e.timestamp) then p.(positions := []) else p;
      if rule.stages[|q.positions|](e.event) then Progress(q.positions + [at], Some(e.timestamp)) else q
  }

  function Scan(rule: Rule, session: seq<SessionEvent>, n: nat): Progress
    requires n <= |session|
  {
    if n == 0 then Progress([], None) else Advance(rule, Scan(rule, session, n - 1), n - 1, session[n - 1])
  }

  function Check(rule: Rule, session: seq<SessionEvent>): Option<seq<nat>> {
    if |session| < |rule.stages| then None
    else
      var p := Scan(rule, session, |session|);
      if |p.positions| == |rule.stages| then Some(p.positions) else None
  }

  // ---------- Soundness ----------

  /** The last matched position lies before `n`, and its time is the one remembered. */
  ghost predicate LastOk(session: seq<SessionEvent>, n: nat, p: Progress) {
    p.positions != [] ==>
      var last := p.positions[|p.positions| - 1];
      last < n && last < |session| && p.lastMatch == Some(session[last].timestamp)
  }

  ghost predicate ProgressOk(rule: Rule, session: seq<SessionEvent>, n: nat, p: Progress) {
    PartialMatch(rule, session, p.positions) && LastOk(session, n, p)
  }

  lemma ExtendMatch(rule: Rule, session: seq<SessionEvent>, pos: seq<nat>, at: nat)
    requires PartialMatch(rule, session, pos) && |pos| < |rule.stages|
    requires at < |session| && rule.stages[|pos|](session[at].event)
    requires pos != [] ==>
               pos[|pos| - 1] < at
               && Seconds(session[at].timestamp, session[pos[|pos| - 1]].timestamp) <= rule.maxGapSeconds
    ensures PartialMatch(rule, session, pos + [at])
  {
    forall i | 0 <= i < |pos + [at]| ensures StageOk(rule, session, pos + [at], i) {
      if i < |pos| {
        assert StageOk(rule, session, pos, i);
      }
    }
  }

  lemma AdvanceOk(rule: Rule, session: seq<SessionEvent>, n: nat, p: Progress)
    requires n < |session| && ProgressOk(rule, session, n, p)
    ensures ProgressOk(rule, session, n + 1, Advance(rule, p, n, session[n]))
  {
    var e := session[n];
    if |p.positions| < |rule.stages| {
      var q := if GapTooLarge(rule, p, e.timestamp) then p.(positions := []) else p;
      assert PartialMatch(rule, session, q.positions);
      if rule.stages[|q.positions|](e.event) {
        ExtendMatch(rule, session, q.positions, n);
      }
    }
  }

  lemma {:induction false} ScanOk(rule: Rule, session: seq<SessionEvent>, n: nat)
    requires n <= |session|
    ensures ProgressOk(rule, session, n, Scan(rule, session, n))
  {
    if n > 0 {
      ScanOk(rule, session, n - 1);
      AdvanceOk(rule, session, n - 1, Scan(rule, session, n - 1));
    }
  }

  /** Whatever the pass returns is a match, for every rule and every session, ordered or not. */
  lemma CheckSound(rule: Rule, session: seq<SessionEvent>)
    requires Check(rule, session).Some?
    ensures Match(rule, session, Check(rule, session).value)
  {
    ScanOk(rule, session, |session|);
  }

  // ---------- Completeness ----------

  ghost predicate Ordered(session: seq<SessionEvent>) {
    forall i, j | 0 <= i < j < |session| :: session[i].timestamp <= session[j].timestamp
  }

  /** Being at most `gap` apart carries over: close to close is close. */
  ghost predicate ClosenessTransitive(session: seq<SessionEvent>, gap: nat) {
    forall i, j, k | 0 <= i < j < k < |session|
                     && Seconds(session[j].timestamp, session[i].timestamp) <= gap
                     && Seconds(session[k].timestamp, session[j].timestamp) <= gap ::
      Seconds(session[k].timestamp, session[i].timestamp) <= gap
  }

  /** What is close to event `j` is close to event `k`. */
  ghost predicate Carries(session: seq<SessionEvent>, gap: nat, j: nat, k: nat)
    requires j < k < |session|
  {
    forall i | 0 <= i < j && Seconds(session[j].timestamp, session[i].timestamp) <= gap ::
      Seconds(session[k].timestamp, session[i].timestamp) <= gap
  }

  lemma TransitiveCarries(session: seq<SessionEvent>, gap: nat, j: nat, k: nat)
    requires ClosenessTransitive(session, gap) && j < k < |session|
    requires Seconds(session[k].timestamp, session[j].timestamp) <= gap
    ensures Carries(session, gap, j, k)
  {
  }

  lemma SecondsMonotone(a: nat, b: nat, c: nat)
    requires a <= b <= c
    ensures Seconds(c, b) <= Seconds(c, a) && Seconds(b, a) <= Seconds(c, a)
  {
  }

  /** The pass is done, or has at least `stages` matched and its latest match is close to event `k`. */
  ghost predicate OnTrack(rule: Rule, session: seq<SessionEvent>, p: Progress, stages: nat, k: nat)
    requires k < |session|
  {
    || |p.positions| == |rule.stages|
    || (&& |p.positions| >= stages
        && p.positions != []
        && (var last := p.positions[|p.positions| - 1];
            last < |session| && Seconds(session[k].timestamp, session[last].timestamp) <= rule.maxGapSeconds))
  }

  /** Between two stages of a match no reset can happen. */
  lemma {:induction false} NoResetBetween(rule: Rule, session: seq<SessionEvent>, stages: nat, j: nat, k: nat, n: nat)
    requires Ordered(session) && j < n <= k < |session| && stages > 0
    requires Seconds(session[k].timestamp, session[j].timestamp) <= rule.maxGapSeconds
    requires OnTrack(rule, session, Scan(rule, session, j + 1), stages, k)
    ensures OnTrack(rule, session, Scan(rule, session, n), stages, k)
    decreases n
  {
    if n > j + 1 {
      NoResetBetween(rule, session, stages, j, k, n - 1);
      ScanOk(rule, session, n - 1);
      var p, e := Scan(rule, session, n - 1), session[n - 1];
      if |p.positions| < |rule.stages| {
        var last := p.positions[|p.positions| - 1];
        assert session[n - 1].timestamp <= session[k].timestamp;
        SecondsMonotone(session[last].timestamp, e.timestamp, session[k].timestamp);
        SecondsMonotone(session[j].timestamp, e.timestamp, session[k].timestamp);
        assert !GapTooLarge(rule, p, e.timestamp);
      }
    }
  }

  /** At an event that satisfies stage `s`, a pass that has got to `s` gets to `s + 1`. */
  lemma StageTaken(rule: Rule, session: seq<SessionEvent>, p: Progress, s: nat, k: nat)
    requires k < |session| && ProgressOk(rule, session, k, p)
    requires s < |rule.stages| && rule.stages[s](session[k].event)
    requires s > 0 ==> OnTrack(rule, session, p, s, k)
    ensures OnTrack(rule, session, Advance(rule, p, k, session[k]), s + 1, k)
  {
    assert Seconds(session[k].timestamp, session[k].timestamp) == 0;
  }

  lemma ScanTakesStage(rule: Rule, session: seq<SessionEvent>, s: nat, k: nat)
    requires k < |session| && s < |rule.stages| && rule.stages[s](session[k].event)
    requires s > 0 ==> OnTrack(rule, session, Scan(rule, session, k), s, k)
    ensures OnTrack(rule, session, Scan(rule, session, k + 1), s + 1, k)
  {
    ScanOk(rule, session, k);
    StageTaken(rule, session, Scan(rule, session, k), s, k);
  }

  /** Whatever is close to the event of the stage before is close to the event of this stage. */
  ghost predicate CarriesAt(session: seq<SessionEvent>, gap: nat, pos: seq<nat>, s: nat) {
    0 < s < |pos| && pos[s - 1] < pos[s] < |session| ==> Carries(session, gap, pos[s - 1], pos[s])
  }

  /** After the `s`-th position of a match, the pass has got at least as far. */
  lemma {:induction false} KeepsUp(rule: Rule, session: seq<SessionEvent>, pos: seq<nat>, s: nat)
    requires Ordered(session) && s < |pos|
    requires forall k | 0 <= k < |pos| :: StageOk(rule, session, pos, k)
    requires forall k | 0 <= k < |pos| :: CarriesAt(session, rule.maxGapSeconds, pos, k)
    ensures pos[s] < |session| && OnTrack(rule, session, Scan(rule, session, pos[s] + 1), s + 1, pos[s])
  {
    assert StageOk(rule, session, pos, s);
    if s > 0 {
      KeepsUp(rule, session, pos, s - 1);
      assert CarriesAt(session, rule.maxGapSeconds, pos, s);
      BetweenStages(rule, session, s, pos[s - 1], pos[s]);
    }
    ScanTakesStage(rule, session, s, pos[s]);
  }

  lemma BetweenStages(rule: Rule, session: seq<SessionEvent>, s: nat, j: nat, k: nat)
    requires Ordered(session) && s > 0 && j < k < |session| && Carries(session, rule.maxGapSeconds, j, k)
    requires Seconds(session[k].timestamp, session[j].timestamp) <= rule.maxGapSeconds
    requires OnTrack(rule, session, Scan(rule, session, j + 1), s, j)
    ensures OnTrack(rule, session, Scan(rule, session, k), s, k)
  {
    ScanOk(rule, session, j + 1);
    CarriesOver(rule, session, Scan(rule, session, j + 1), s, j, k);
    NoResetBetween(rule, session, s, j, k, k);
  }

  lemma CarriesOver(rule: Rule, session: seq<SessionEvent>, p: Progress, stages: nat, j: nat, k: nat)
    requires j < k < |session| && ProgressOk(rule, session, j + 1, p)
    requires Carries(session, rule.maxGapSeconds, j, k)
    requires Seconds(session[k].timestamp, session[j].timestamp) <= rule.maxGapSeconds
    requires OnTrack(rule, session, p, stages, j)
    ensures OnTrack(rule, session, p, stages, k)
  {
  }

  lemma {:induction false} DoneKeepsPositions(rule: Rule, session: seq<SessionEvent>, m: nat, n: nat)
    requires m <= n <= |session| && |Scan(rule, session, m).positions| >= |rule.stages|
    ensures Scan(rule, session, n) == Scan(rule, session, m)
    decreases n
  {
    if m < n {
      DoneKeepsPositions(rule, session, m, n - 1);
    }
  }

  lemma {:induction false} MatchFits(rule: Rule, session: seq<SessionEvent>, pos: seq<nat>, s: nat)
    requires s < |pos| && forall k | 0 <= k < |pos| :: StageOk(rule, session, pos, k)
    ensures s <= pos[s] < |session|
  {
    assert StageOk(rule, session, pos, s);
    if s > 0 {
      MatchFits(rule, session, pos, s - 1);
    }
  }

  lemma MatchFound(rule: Rule, session: seq<SessionEvent>, pos: seq<nat>)
    requires Ordered(session) && Match(rule, session, pos)
    requires forall k | 0 <= k < |pos| :: CarriesAt(session, rule.maxGapSeconds, pos, k)
    ensures Check(rule, session).Some?
  {
    if pos == [] {
      DoneKeepsPositions(rule, session, 0, |session|);
    } else {
      var s := |pos| - 1;
      MatchFits(rule, session, pos, s);
      KeepsUp(rule, session, pos, s);
      ScanOk(rule, session, pos[s] + 1);
      DoneKeepsPositions(rule, session, pos[s] + 1, |session|);
    }
  }

  lemma CheckComplete(rule: Rule, session: seq<SessionEvent>)
    requires Ordered(session) && ClosenessTransitive(session, rule.maxGapSeconds) && HasMatch(rule, session)
    ensures Check(rule, session).Some?
  {
    var pos: seq<nat> :| Match(rule, session, pos);
    forall k | 0 <= k < |pos| ensures CarriesAt(session, rule.maxGapSeconds, pos, k) {
      assert StageOk(rule, session, pos, k);
      if k > 0 {
        TransitiveCarries(session, rule.maxGapSeconds, pos[k - 1], pos[k]);
      }
    }
    MatchFound(rule, session, pos);
  }

  // ---------- Exactly when the pass is complete ----------

  ghost predicate SameTimes(session: seq<SessionEvent>, other: seq<SessionEvent>) {
    |session| == |other| && forall i | 0 <= i < |session| :: session[i].timestamp == other[i].timestamp
  }

  /** The same clock readings with events told apart by their position. */
  function Numbered(session: seq<SessionEvent>): (r: seq<SessionEvent>)
    ensures SameTimes(session, r)
  {
    seq(|session|, i requires 0 <= i < |session| => session[i].(event := Event(i)))
  }

  /** Two stages: the first satisfied at `i` and `j`, the second at `k` only. */
  function TrapRule(i: nat, j: nat, k: nat, gap: nat): Rule {
    Rule([(e: Event) => e.eventId == i || e.eventId == j, (e: Event) => e.eventId == k], gap)
  }

  /** The pass holds on to the match at `i` until it is too old, and has then passed `j`. */
  lemma {:induction false} TrapHolds(session: seq<SessionEvent>, i: nat, j: nat, k: nat, gap: nat, n: nat)
    requires Ordered(session) && i < j < k < |session| && n <= |session|
    requires Seconds(session[j].timestamp, session[i].timestamp) <= gap
    requires Seconds(session[k].timestamp, session[i].timestamp) > gap
    ensures var p := Scan(TrapRule(i, j, k, gap), Numbered(session), n);
            && (n <= i ==> p == Progress([], None))
            && (i < n <= j + 1 ==> p == Progress([i], Some(session[i].timestamp)))
            && (j < n ==> p.lastMatch == Some(session[i].timestamp) && (p.positions == [i] || p.positions == []))
            && (k < n ==> p.positions == [])
  {
    if n > 0 {
      TrapHolds(session, i, j, k, gap, n - 1);
      if i < n - 1 <= j {
        SecondsMonotone(session[i].timestamp, session[n - 1].timestamp, session[j].timestamp);
      }
    }
  }

  lemma TrapMisses(session: seq<SessionEvent>, i: nat, j: nat, k: nat, gap: nat)
    requires Ordered(session) && i < j < k < |session|
    requires Seconds(session[j].timestamp, session[i].timestamp) <= gap
    requires Seconds(session[k].timestamp, session[j].timestamp) <= gap
    requires Seconds(session[k].timestamp, session[i].timestamp) > gap
    ensures HasMatch(TrapRule(i, j, k, gap), Numbered(session))
    ensures Check(TrapRule(i, j, k, gap), Numbered(session)).None?
  {
    TrapHolds(session, i, j, k, gap, |session|);
    var rule, other := TrapRule(i, j, k, gap), Numbered(session);
    assert StageOk(rule, other, [j, k], 0) && StageOk(rule, other, [j, k], 1);
    assert Match(rule, other, [j, k]);
  }

  /** On sessions with these clock readings the pass finds a match for every rule that has one. */
  ghost predicate CompleteFor(session: seq<SessionEvent>, gap: nat) {
    forall other: seq<SessionEvent>, rule: Rule ::
      SameTimes(session, other) && rule.maxGapSeconds == gap && HasMatch(rule, other) ==> Check(rule, other).Some?
  }

  /**
   * The pass is complete for all rules and events exactly when closeness is transitive among the
   * session's clock readings; otherwise it misses matches, because it never retries a later first stage.
   */
  lemma CompleteIffTransitive(session: seq<SessionEvent>, gap: nat)
    requires Ordered(session)
    ensures CompleteFor(session, gap) <==> ClosenessTransitive(session, gap)
  {
    if ClosenessTransitive(session, gap) {
      forall other: seq<SessionEvent>, rule: Rule
        | SameTimes(session, other) && rule.maxGapSeconds == gap && HasMatch(rule, other)
        ensures Check(rule, other).Some?
      {
        CheckComplete(rule, other);
      }
    } else {
      var i, j, k :| 0 <= i < j < k < |session|
                     && Seconds(session[j].timestamp, session[i].timestamp) <= gap
                     && Seconds(session[k].timestamp, session[j].timestamp) <= gap
                     && Seconds(session[k].timestamp, session[i].timestamp) > gap;
      TrapMisses(session, i, j, k, gap);
    }
  }

  /** A session no longer than one gap is always decided exactly. */
  lemma ShortSessionExact(rule: Rule, session: seq<SessionEvent>)
    requires Ordered(session)
    requires session != [] ==>
               Seconds(session[|session| - 1].timestamp, session[0].timestamp) <= rule.maxGapSeconds
    ensures Check(rule, session).Some? <==> HasMatch(rule, session)
  {
    forall i, k | 0 <= i < k < |session|
      ensures Seconds(session[k].timestamp, session[i].timestamp) <= rule.maxGapSeconds
    {
      var first, last := session[0].timestamp, session[|session| - 1].timestamp;
      assert first <= session[i].timestamp && session[k].timestamp <= last;
      SecondsMonotone(first, session[i].timestamp, last);
      SecondsMonotone(session[i].timestamp, session[k].timestamp, last);
    }
    if HasMatch(rule, session) {
      CheckComplete(rule, session);
    }
    if Check(rule, session).Some? {
      CheckSound(rule, session);
    }
  }

  // ---------- The program ----------

  datatype Stage = Stage(number: nat, alertIds: seq<string>, eventIds: seq<nat>)

  /** The stages reported are numbered from 1 and name the events at the matched positions and their alerts. */
  ghost predicate Reports(stages: seq<Stage>, session: seq<SessionEvent>, pos: seq<nat>) {
    |stages| == |pos| && forall i | 0 <= i < |pos| :: pos[i] < |session| && ReportsAt(stages[i], i, session[pos[i]])
  }

  predicate ReportsAt(stage: Stage, i: nat, e: SessionEvent) {
    && stage.number == i + 1 && stage.eventIds == [e.event.eventId]
    && (e.alert.None? ==> stage.alertIds == []) && (e.alert.Some? ==> stage.alertIds == [e.alert.value])
  }

  method CheckCorrelationRule(rule: Rule, session: seq<SessionEvent>) returns (chain: Option<seq<Stage>>)
    ensures chain.Some? <==> Check(rule, session).Some?
    ensures chain.Some? ==> exists pos :: Match(rule, session, pos) && Reports(chain.value, session, pos)
    ensures Ordered(session) && ClosenessTransitive(session, rule.maxGapSeconds) && HasMatch(rule, session) ==>
              chain.Some?
  {
    if Ordered(session) && ClosenessTransitive(session, rule.maxGapSeconds) && HasMatch(rule, session) {
      CheckComplete(rule, session);
    }
    if |session| < |rule.stages| {
      return None;
    }
    var stages, seqIdx := MatchStages(rule, session);
    if seqIdx == |rule.stages| {
      CheckSound(rule, session);
      return Some(stages);
    }
    return None;
  }

  /** The loop itself: stages matched since the last reset. */
  method MatchStages(rule: Rule, session: seq<SessionEvent>) returns (stages: seq<Stage>, seqIdx: nat)
    ensures var p := Scan(rule, session, |session|);
            seqIdx == |p.positions| && Reports(stages, session, p.positions)
  {
    stages, seqIdx := [], 0;
    var lastMatch: Option<nat> := None;
    ghost var p := Progress([], None);
    for n := 0 to |session|
      invariant p == Scan(rule, session, n) && seqIdx == |p.positions| && lastMatch == p.lastMatch
      invariant Reports(stages, session, p.positions)
    {
      if seqIdx >= |rule.stages| {
        DoneKeepsPositions(rule, session, n, |session|);
        break;
      }
      p := Advance(rule, p, n, session[n]);
      if lastMatch.Some? && Seconds(session[n].timestamp, lastMatch.value) > rule.maxGapSeconds {
        seqIdx := 0;
        stages := [];
      }
      if rule.stages[seqIdx](session[n].event) {
        var alertIds := if session[n].alert.Some? then [session[n].alert.value] else [];
        stages := stages + [Stage(seqIdx + 1, alertIds, [session[n].event.eventId])];
        lastMatch := Some(session[n].timestamp);
        seqIdx := seqIdx + 1;
      }
    }
  }

  // ---------- The session ----------

  const MAX_SESSION_EVENTS := 1000

  /** The part of a key's events that the session still holds. */
  function Latest(events: seq<SessionEvent>): seq<SessionEvent> { LastUpTo(events, MAX_SESSION_EVENTS) }

  class Session {
    var events: seq<SessionEvent>
    ghost var received: seq<SessionEvent>  // every event since the session began

    /** The session holds the latest events, in time order when the clock did not go back. */
    ghost predicate Valid()
      reads this
    {
      events == Latest(received) && (Ordered(received) ==> Ordered(events))
    }

    constructor ()
      ensures Valid() && received == []
    {
      events, received := [], [];
    }

    method UpdateSession(e: SessionEvent)
      requires Valid()
      modifies this
      ensures Valid() && received == old(received) + [e]
    {
      events := events + [e];
      received := received + [e];
      while |events| > MAX_SESSION_EVENTS
        invariant received == old(received) + [e]
        invariant |Latest(received)| <= |events| <= |received| && events == received[|received| - |events|..]
      {
        events := events[1..];
      }
      assert events == Latest(received);
    }

    method FindChain(rule: Rule) returns (chain: Option<seq<Stage>>)
      requires Valid()
      ensures chain.Some? ==> HasMatch(rule, Latest(received))
      ensures Ordered(received) && ClosenessTransitive(Latest(received), rule.maxGapSeconds) ==>
                (chain.Some? <==> HasMatch(rule, Latest(received)))
    {
      chain := CheckCorrelationRule(rule, events);
    }
  }
}
