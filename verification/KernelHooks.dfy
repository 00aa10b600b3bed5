/** The process hooks of the kernel programs: exec, exit and fork, over shared maps and a ring buffer. */
module KernelHooks {
  import opened Counting
  import opened IntegerFacts
  import RateLimit = KernelRateLimit

  type Pid = RateLimit.Pid

  /** Events per second and process let through by the exec hooks. */
  const EXEC_LIMIT: nat := 100

  datatype KernelEvent = ProcessExec(pid: Pid, at: nat) | ProcessExit(pid: Pid) | ProcessFork(pid: Pid)

  /** The maps the hooks share, the statistics, and the events submitted so far. */
  datatype State = State(rate: map<Pid, RateLimit.Entry>, active: map<Pid, nat>, creds: set<Pid>,
                         generated: nat, dropped: nat, rateLimited: nat, log: seq<KernelEvent>)

  function Start(): State { State(map[], map[], {}, 0, 0, 0, []) }

  /**
   * What happens: hook calls with the outside conditions they meet (monitoring on, process filtered,
   * room in the ring buffer, insertion successful), checks by other hooks, and evictions by the
   * bounded maps.
   */
  datatype Op =
    | Exec(pid: Pid, now: nat, enabled: bool, filtered: bool, room: bool, stored: bool)
    | Exit(pid: Pid, enabled: bool, room: bool)
    | Fork(pid: Pid, enabled: bool, room: bool)
    | OtherCheck(pid: Pid, limit: nat, now: nat)
    | RecordCreds(pid: Pid)
    | EvictActive(pid: Pid)
    | EvictRate(pid: Pid)

  function Checked(s: State, pid: Pid, limit: nat, now: nat): State {
    var entry := RateLimit.Find(s.rate, pid);
    s.(rate := s.rate[pid := RateLimit.EntryAfter(entry, limit, now)],
       rateLimited := s.rateLimited + if RateLimit.Allowed(entry, limit, now) then 0 else 1)
  }

  /** Reserve, fill and submit; a full ring buffer counts a drop instead. */
  function Submitted(s: State, room: bool, e: KernelEvent): State {
    if room then s.(log := s.log + [e], generated := s.generated + 1) else s.(dropped := s.dropped + 1)
  }

  /** Does the exec call get as far as the ring buffer? */
  predicate ExecReserves(s: State, op: Op) {
    op.Exec? && op.enabled && !op.filtered && RateLimit.Allowed(RateLimit.Find(s.rate, op.pid), EXEC_LIMIT, op.now)
  }

  predicate Reserves(s: State, op: Op) {
    match op
    case Exec(_, _, _, _, _, _) => ExecReserves(s, op)
    case Exit(pid, enabled, _) => enabled && pid in s.active
    case Fork(_, enabled, _) => enabled
    case _ => false
  }

  function Step(s: State, op: Op): State {
    match op
    case Exec(pid, now, enabled, filtered, room, stored) =>
      if !enabled || filtered then s
      else
        var s1 := Checked(s, pid, EXEC_LIMIT, now);
        if !ExecReserves(s, op) then s1
        else
          var s2 := Submitted(s1, room, ProcessExec(pid, now));
          if room && stored then s2.(active := s2.active[pid := now]) else s2
    case Exit(pid, enabled, room) =>
      if !Reserves(s, op) then s
      else
        var s1 := Submitted(s, room, ProcessExit(pid));
        if room then s1.(active := s1.active - {pid}, creds := s1.creds - {pid}) else s1
    case Fork(pid, enabled, room) => if enabled then Submitted(s, room, ProcessFork(pid)) else s
    case OtherCheck(pid, limit, now) => Checked(s, pid, limit, now)
    case RecordCreds(pid) => s.(creds := s.creds + {pid})
    case EvictActive(pid) => s.(active := s.active - {pid})
    case EvictRate(pid) => s.(rate := s.rate - {pid})
  }

  function Run(ops: seq<Op>): State {
    if ops == [] then Start() else Step(Run(ops[..|ops| - 1]), ops[|ops| - 1])
  }

  lemma RunAppend(ops: seq<Op>, op: Op)
    ensures Run(ops + [op]) == Step(Run(ops), op)
  {
    assert (ops + [op])[..|ops|] == ops;
  }

  // ---------- Every exit follows an exec ----------

  /** Position `j` holds an exec of `pid`, and no exit of it lies between there and `end`. */
  ghost predicate ExecSince(log: seq<KernelEvent>, pid: Pid, j: nat, end: nat) {
    && j < end <= |log|
    && log[j].ProcessExec? && log[j].pid == pid
    && forall k | j < k < end :: log[k] != ProcessExit(pid)
  }

  ghost predicate ExitsFollowExecs(log: seq<KernelEvent>) {
    forall i | 0 <= i < |log| && log[i].ProcessExit? :: exists j: nat :: ExecSince(log, log[i].pid, j, i)
  }

  ghost predicate ActiveHaveExec(s: State) {
    forall pid | pid in s.active :: exists j: nat :: ExecSince(s.log, pid, j, |s.log|)
  }

  lemma AppendKeepsExits(log: seq<KernelEvent>, e: KernelEvent)
    requires ExitsFollowExecs(log)
    requires e.ProcessExit? ==> exists j: nat :: ExecSince(log, e.pid, j, |log|)
    ensures ExitsFollowExecs(log + [e])
  {
    var log' := log + [e];
    forall i | 0 <= i < |log'| && log'[i].ProcessExit?
      ensures exists j: nat :: ExecSince(log', log'[i].pid, j, i)
    {
      var j: nat :| ExecSince(log, log'[i].pid, j, i);
      assert ExecSince(log', log'[i].pid, j, i);
    }
  }

  /** A process stays covered by its exec when something other than its exit is appended. */
  lemma AppendKeepsCover(log: seq<KernelEvent>, e: KernelEvent, pid: Pid)
    requires (exists j: nat :: ExecSince(log, pid, j, |log|)) && e != ProcessExit(pid)
    ensures exists j: nat :: ExecSince(log + [e], pid, j, |log + [e]|)
  {
    var j: nat :| ExecSince(log, pid, j, |log|);
    assert ExecSince(log + [e], pid, j, |log + [e]|);
  }

  lemma ExecStep(s: State, op: Op)
    requires op.Exec? && ActiveHaveExec(s) && ExitsFollowExecs(s.log)
    ensures ActiveHaveExec(Step(s, op)) && ExitsFollowExecs(Step(s, op).log)
  {
    var s', e := Step(s, op), ProcessExec(op.pid, op.now);
    if ExecReserves(s, op) && op.room {
      assert s'.log == s.log + [e];
      AppendKeepsExits(s.log, e);
      forall pid | pid in s'.active ensures exists j: nat :: ExecSince(s'.log, pid, j, |s'.log|) {
        if pid == op.pid {
          assert ExecSince(s'.log, pid, |s.log|, |s'.log|);
        } else {
          AppendKeepsCover(s.log, e, pid);
        }
      }
    }
  }

  lemma ExitStep(s: State, op: Op)
    requires op.Exit? && ActiveHaveExec(s) && ExitsFollowExecs(s.log)
    ensures ActiveHaveExec(Step(s, op)) && ExitsFollowExecs(Step(s, op).log)
  {
    var s', e := Step(s, op), ProcessExit(op.pid);
    if Reserves(s, op) && op.room {
      assert s'.log == s.log + [e];
      AppendKeepsExits(s.log, e);
      forall pid | pid in s'.active ensures exists j: nat :: ExecSince(s'.log, pid, j, |s'.log|) {
        AppendKeepsCover(s.log, e, pid);
      }
    }
  }

  lemma ForkStep(s: State, op: Op)
    requires op.Fork? && ActiveHaveExec(s) && ExitsFollowExecs(s.log)
    ensures ActiveHaveExec(Step(s, op)) && ExitsFollowExecs(Step(s, op).log)
  {
    var s', e := Step(s, op), ProcessFork(op.pid);
    if op.enabled && op.room {
      AppendKeepsExits(s.log, e);
      forall pid | pid in s'.active ensures exists j: nat :: ExecSince(s'.log, pid, j, |s'.log|) {
        AppendKeepsCover(s.log, e, pid);
      }
    }
  }

  /**
   * In every trace each emitted exit is preceded by an exec of the same process, with no other exit
   * of it in between: full buffers, rate limits, failed insertions and evictions only lose events.
   */
  lemma {:induction false} EveryExitFollowsExec(ops: seq<Op>)
    ensures ExitsFollowExecs(Run(ops).log)
    ensures ActiveHaveExec(Run(ops))
  {
    if ops != [] {
      var front, op := ops[..|ops| - 1], ops[|ops| - 1];
      EveryExitFollowsExec(front);
      match op
      case Exec(_, _, _, _, _, _) => ExecStep(Run(front), op);
      case Exit(_, _, _) => ExitStep(Run(front), op);
      case Fork(_, _, _) => ForkStep(Run(front), op);
      case _ =>
        assert Run(ops).log == Run(front).log && Run(ops).active.Keys <= Run(front).active.Keys;
    }
  }

  // ---------- Accounting ----------

  function Reservations(ops: seq<Op>): nat {
    if ops == [] then 0
    else Reservations(ops[..|ops| - 1]) + if Reserves(Run(ops[..|ops| - 1]), ops[|ops| - 1]) then 1 else 0
  }

  /** One operation: an attempt to reserve space counts once, as generated or as dropped; nothing else counts. */
  lemma StepAccounted(s: State, op: Op)
    ensures var s' := Step(s, op);
            && (!Reserves(s, op) ==> s'.generated == s.generated && s'.dropped == s.dropped && s'.log == s.log)
            && (Reserves(s, op) ==>
                  || (s'.generated == s.generated + 1 && s'.dropped == s.dropped && |s'.log| == |s.log| + 1)
                  || (s'.generated == s.generated && s'.dropped == s.dropped + 1 && s'.log == s.log))
  {
  }

  /** Each attempt to reserve space counts as generated or as dropped, once, and generated events are the log. */
  lemma {:induction false} ReservationsAccounted(ops: seq<Op>)
    ensures Run(ops).generated + Run(ops).dropped == Reservations(ops)
    ensures Run(ops).generated == |Run(ops).log|
  {
    if ops != [] {
      ReservationsAccounted(ops[..|ops| - 1]);
      StepAccounted(Run(ops[..|ops| - 1]), ops[|ops| - 1]);
    }
  }

  // ---------- Exec events per second ----------

  /** The rate-limiter operations that a hook operation performs. */
  function RateOp(op: Op): seq<RateLimit.Op> {
    match op
    case Exec(pid, now, enabled, filtered, _, _) =>
      if enabled && !filtered then [RateLimit.Check(pid, EXEC_LIMIT, now)] else []
    case OtherCheck(pid, limit, now) => [RateLimit.Check(pid, limit, now)]
    case EvictRate(pid) => [RateLimit.Evict(pid)]
    case _ => []
  }

  function RateOps(ops: seq<Op>): seq<RateLimit.Op> {
    if ops == [] then [] else RateOps(ops[..|ops| - 1]) + RateOp(ops[|ops| - 1])
  }

  /** Times of the exec events of `pid` in the log. */
  function ExecTimes(log: seq<KernelEvent>, pid: Pid): seq<nat> {
    if log == [] then []
    else
      var e := log[|log| - 1];
      var times := ExecTimes(log[..|log| - 1], pid);
      if e.ProcessExec? && e.pid == pid then times + [e.at] else times
  }

  lemma ExecTimesSnoc(log: seq<KernelEvent>, e: KernelEvent, pid: Pid)
    ensures ExecTimes(log + [e], pid)
         == if e.ProcessExec? && e.pid == pid then ExecTimes(log, pid) + [e.at] else ExecTimes(log, pid)
  {
    assert (log + [e])[..|log|] == log;
  }

  /** The limiter's table and acceptances after one more limiter operation. */
  lemma RateSnoc(rops: seq<RateLimit.Op>, rop: RateLimit.Op, pid: Pid)
    ensures RateLimit.Table(rops + [rop]) == match rop {
              case Check(p, limit, now) =>
                RateLimit.Table(rops)[p := RateLimit.EntryAfter(RateLimit.Find(RateLimit.Table(rops), p), limit, now)]
              case Evict(p) => RateLimit.Table(rops) - {p}
            }
    ensures RateLimit.Accepted(rops + [rop], pid, EXEC_LIMIT)
         == if rop.Check? && rop.pid == pid && rop.limit <= EXEC_LIMIT
               && RateLimit.Allowed(RateLimit.Find(RateLimit.Table(rops), pid), rop.limit, rop.now)
            then RateLimit.Accepted(rops, pid, EXEC_LIMIT) + [rop.now] else RateLimit.Accepted(rops, pid, EXEC_LIMIT)
  {
    assert (rops + [rop])[..|rops|] == rops;
  }

  lemma CountSnoc(times: seq<nat>, t: nat, lo: nat, hi: nat)
    ensures CountIn(times + [t], lo, hi) == CountIn(times, lo, hi) + if lo <= t <= hi then 1 else 0
  {
    assert (times + [t])[..|times|] == times;
  }

  lemma RateStep(s: State, rops: seq<RateLimit.Op>, op: Op)
    requires s.rate == RateLimit.Table(rops)
    ensures Step(s, op).rate == RateLimit.Table(rops + RateOp(op))
  {
    match op
    case Exec(pid, now, enabled, filtered, _, _) =>
      if enabled && !filtered {
        RateSnoc(rops, RateLimit.Check(pid, EXEC_LIMIT, now), pid);
      } else {
        assert rops + RateOp(op) == rops;
      }
    case OtherCheck(pid, limit, now) => RateSnoc(rops, RateLimit.Check(pid, limit, now), pid);
    case EvictRate(pid) => RateSnoc(rops, RateLimit.Evict(pid), pid);
    case _ =>
      assert rops + RateOp(op) == rops;
  }

  /** The hooks' rate map is the limiter's table. */
  lemma {:induction false} RateMapIsTable(ops: seq<Op>)
    ensures Run(ops).rate == RateLimit.Table(RateOps(ops))
  {
    if ops != [] {
      var front, op := ops[..|ops| - 1], ops[|ops| - 1];
      RateMapIsTable(front);
      RateStep(Run(front), RateOps(front), op);
    }
  }

  lemma ExecCounted(s: State, rops: seq<RateLimit.Op>, op: Op, pid: Pid, lo: nat, hi: nat)
    requires op.Exec? && op.enabled && !op.filtered && s.rate == RateLimit.Table(rops)
    requires CountIn(ExecTimes(s.log, pid), lo, hi) <= CountIn(RateLimit.Accepted(rops, pid, EXEC_LIMIT), lo, hi)
    ensures CountIn(ExecTimes(Step(s, op).log, pid), lo, hi)
         <= CountIn(RateLimit.Accepted(rops + [RateLimit.Check(op.pid, EXEC_LIMIT, op.now)], pid, EXEC_LIMIT), lo, hi)
  {
    RateSnoc(rops, RateLimit.Check(op.pid, EXEC_LIMIT, op.now), pid);
    ExecTimesSnoc(s.log, ProcessExec(op.pid, op.now), pid);
    CountSnoc(ExecTimes(s.log, pid), op.now, lo, hi);
    CountSnoc(RateLimit.Accepted(rops, pid, EXEC_LIMIT), op.now, lo, hi);
  }

  lemma OthersLogNoExec(s: State, op: Op, pid: Pid)
    requires !op.Exec?
    ensures ExecTimes(Step(s, op).log, pid) == ExecTimes(s.log, pid)
  {
    if op.Exit? {
      ExecTimesSnoc(s.log, ProcessExit(op.pid), pid);
    } else if op.Fork? {
      ExecTimesSnoc(s.log, ProcessFork(op.pid), pid);
    }
  }

  lemma AcceptedOnlyGrows(rops: seq<RateLimit.Op>, more: seq<RateLimit.Op>, pid: Pid, lo: nat, hi: nat)
    requires |more| <= 1
    ensures CountIn(RateLimit.Accepted(rops, pid, EXEC_LIMIT), lo, hi)
         <= CountIn(RateLimit.Accepted(rops + more, pid, EXEC_LIMIT), lo, hi)
  {
    if more == [] {
      assert rops + more == rops;
    } else {
      assert more == [more[0]];
      RateSnoc(rops, more[0], pid);
      if more[0].Check? {
        CountSnoc(RateLimit.Accepted(rops, pid, EXEC_LIMIT), more[0].now, lo, hi);
      }
    }
  }

  /** Every logged exec passed the limiter at its time. */
  lemma {:induction false} ExecsWereAllowed(ops: seq<Op>, pid: Pid, lo: nat, hi: nat)
    ensures CountIn(ExecTimes(Run(ops).log, pid), lo, hi)
         <= CountIn(RateLimit.Accepted(RateOps(ops), pid, EXEC_LIMIT), lo, hi)
  {
    if ops != [] {
      var front, op := ops[..|ops| - 1], ops[|ops| - 1];
      ExecsWereAllowed(front, pid, lo, hi);
      if op.Exec? && op.enabled && !op.filtered {
        RateMapIsTable(front);
        ExecCounted(Run(front), RateOps(front), op, pid, lo, hi);
      } else {
        if !op.Exec? {
          OthersLogNoExec(Run(front), op, pid);
        }
        AcceptedOnlyGrows(RateOps(front), RateOp(op), pid, lo, hi);
      }
    }
  }

  /** Exec events of a process in the second from `lo` on, both ends included. */
  function ExecsInSecond(log: seq<KernelEvent>, pid: Pid, lo: nat): nat {
    CountIn(ExecTimes(log, pid), lo, lo + RateLimit.SECOND)
  }

  /** Exec events of one process number at most 199 in every second, whatever limits other hooks use on its entry. */
  lemma ExecEventsPerSecond(ops: seq<Op>, pid: Pid, lo: nat)
    requires RateLimit.UndisturbedSince(RateOps(ops), pid, EXEC_LIMIT, lo)
    ensures ExecsInSecond(Run(ops).log, pid, lo) <= 2 * EXEC_LIMIT - 1
  {
    ExecsWereAllowed(ops, pid, lo, lo + RateLimit.SECOND);
    RateLimit.FewerThanTwiceLimitPerSecond(RateOps(ops), pid, EXEC_LIMIT, lo);
  }

  /** Exec calls that make exactly these checks, with monitoring on and room in the ring buffer. */
  lemma {:induction false} ExecsForChecks(rops: seq<RateLimit.Op>, pid: Pid) returns (ops: seq<Op>)
    requires RateLimit.OnlyChecks(rops, EXEC_LIMIT)
    ensures RateOps(ops) == rops && ExecTimes(Run(ops).log, pid) == RateLimit.Accepted(rops, pid, EXEC_LIMIT)
  {
    if rops == [] {
      ops := [];
    } else {
      var front, rop := rops[..|rops| - 1], rops[|rops| - 1];
      var before := ExecsForChecks(front, pid);
      var op := Exec(rop.pid, rop.now, true, false, true, true);
      ops := before + [op];
      assert front + [rop] == rops && ops[..|before|] == before;
      RateMapIsTable(before);
      ExecLogged(Run(before), front, op, pid);
    }
  }

  lemma ExecLogged(s: State, rops: seq<RateLimit.Op>, op: Op, pid: Pid)
    requires op.Exec? && op.enabled && !op.filtered && op.room && s.rate == RateLimit.Table(rops)
    requires ExecTimes(s.log, pid) == RateLimit.Accepted(rops, pid, EXEC_LIMIT)
    ensures ExecTimes(Step(s, op).log, pid)
         == RateLimit.Accepted(rops + [RateLimit.Check(op.pid, EXEC_LIMIT, op.now)], pid, EXEC_LIMIT)
  {
    RateSnoc(rops, RateLimit.Check(op.pid, EXEC_LIMIT, op.now), pid);
    ExecTimesSnoc(s.log, ProcessExec(op.pid, op.now), pid);
  }

  /** The bound is the best one: some trace logs exactly 199 exec events of a process in a second. */
  lemma ExecBoundIsReached()
    ensures exists ops :: RateLimit.UndisturbedSince(RateOps(ops), 0, EXEC_LIMIT, 1)
                          && ExecsInSecond(Run(ops).log, 0, 1) == 2 * EXEC_LIMIT - 1
  {
    var rops := RateLimit.ReachingRun(EXEC_LIMIT);
    var ops := ExecsForChecks(rops, 0);
    RateLimit.UndisturbedAlways(rops, 0, EXEC_LIMIT, 1);
  }

  // ---------- What each call submits, by the calls alone ----------

  /** The limiter, given all earlier checks and evictions, lets this exec call through. */
  predicate Admitted(ops: seq<Op>, op: Op) {
    && op.Exec? && op.enabled && !op.filtered
    && RateLimit.Allowed(RateLimit.Find(RateLimit.Table(RateOps(ops)), op.pid), EXEC_LIMIT, op.now)
  }

  /** Call `i` submitted an exec of `pid` and entered it among the tracked processes. */
  predicate StoredExec(ops: seq<Op>, pid: Pid, i: nat) {
    i < |ops| && Admitted(ops[..i], ops[i]) && ops[i].pid == pid && ops[i].room && ops[i].stored
  }

  /** An exit call that is not ignored and finds room, or the loss of the entry. */
  predicate EndsTracking(op: Op, pid: Pid) {
    (op.Exit? && op.pid == pid && op.enabled && op.room) || op == EvictActive(pid)
  }

  ghost predicate TrackedSince(ops: seq<Op>, pid: Pid, i: nat) {
    StoredExec(ops, pid, i) && forall j | i < j < |ops| :: !EndsTracking(ops[j], pid)
  }

  ghost predicate Tracked(ops: seq<Op>, pid: Pid) { exists i: nat :: TrackedSince(ops, pid, i) }

  lemma AdmittedIffReserves(ops: seq<Op>, op: Op)
    ensures Admitted(ops, op) <==> ExecReserves(Run(ops), op)
  {
    RateMapIsTable(ops);
  }

  lemma TrackedSinceStep(ops: seq<Op>, op: Op, pid: Pid, i: nat)
    requires i < |ops|
    ensures TrackedSince(ops + [op], pid, i) <==> TrackedSince(ops, pid, i) && !EndsTracking(op, pid)
  {
    var all := ops + [op];
    assert all[..i] == ops[..i] && all[i] == ops[i] && all[|ops|] == op;
    assert forall j | 0 <= j < |ops| :: all[j] == ops[j];
    if TrackedSince(all, pid, i) {
      assert !EndsTracking(all[|ops|], pid);
      forall j | i < j < |ops| ensures !EndsTracking(ops[j], pid) {
        assert !EndsTracking(all[j], pid);
      }
    }
  }

  /** Tracking after one more call. */
  lemma TrackedStep(ops: seq<Op>, op: Op, pid: Pid)
    ensures Tracked(ops + [op], pid)
       <==> || (Admitted(ops, op) && op.pid == pid && op.room && op.stored)
            || (Tracked(ops, pid) && !EndsTracking(op, pid))
  {
    var all := ops + [op];
    assert all[..|ops|] == ops && all[|ops|] == op;
    if Tracked(all, pid) {
      var i: nat :| TrackedSince(all, pid, i);
      if i < |ops| {
        TrackedSinceStep(ops, op, pid, i);
      }
    }
    if Admitted(ops, op) && op.pid == pid && op.room && op.stored {
      assert TrackedSince(all, pid, |ops|);
    } else if Tracked(ops, pid) && !EndsTracking(op, pid) {
      var i: nat :| TrackedSince(ops, pid, i);
      TrackedSinceStep(ops, op, pid, i);
      assert TrackedSince(all, pid, i);
    }
  }

  lemma ActiveStep(s: State, op: Op, pid: Pid)
    ensures pid in Step(s, op).active
       <==> || (ExecReserves(s, op) && op.pid == pid && op.room && op.stored)
            || (pid in s.active && !EndsTracking(op, pid))
  {
  }

  /** The tracked processes are those with a stored exec that nothing has ended since. */
  lemma {:induction false} ActiveIffTracked(ops: seq<Op>, pid: Pid)
    ensures pid in Run(ops).active <==> Tracked(ops, pid)
  {
    if ops != [] {
      var front, op := ops[..|ops| - 1], ops[|ops| - 1];
      assert front + [op] == ops;
      ActiveIffTracked(front, pid);
      AdmittedIffReserves(front, op);
      TrackedStep(front, op, pid);
      ActiveStep(Run(front), op, pid);
    }
  }

  /** What a call submits when there is room. */
  ghost function Wanted(ops: seq<Op>, op: Op): seq<KernelEvent> {
    match op
    case Exec(pid, now, _, _, _, _) => if Admitted(ops, op) then [ProcessExec(pid, now)] else []
    case Exit(pid, enabled, _) => if enabled && Tracked(ops, pid) then [ProcessExit(pid)] else []
    case Fork(pid, enabled, _) => if enabled then [ProcessFork(pid)] else []
    case _ => []
  }

  predicate HasRoom(op: Op) { (op.Exec? || op.Exit? || op.Fork?) && op.room }

  /** A call submits exactly the event it is for: an exit exactly when its process is tracked. */
  lemma CallSubmits(ops: seq<Op>, op: Op)
    ensures var s, s' := Run(ops), Run(ops + [op]);
            var wanted := Wanted(ops, op);
            && s'.log == s.log + (if HasRoom(op) then wanted else [])
            && s'.dropped == s.dropped + (if HasRoom(op) then 0 else |wanted|)
  {
    RunAppend(ops, op);
    AdmittedIffReserves(ops, op);
    if op.Exit? {
      ActiveIffTracked(ops, op.pid);
    }
  }

  /** The check that a call makes, and the count of those refused. */
  lemma RefusalsCounted(ops: seq<Op>, op: Op)
    ensures Run(ops + [op]).rateLimited
         == Run(ops).rateLimited
            + if RateOp(op) != [] && RateOp(op)[0].Check?
                 && !RateLimit.Allowed(RateLimit.Find(RateLimit.Table(RateOps(ops)), op.pid),
                                       RateOp(op)[0].limit, RateOp(op)[0].now)
              then 1 else 0
  {
    RunAppend(ops, op);
    RateMapIsTable(ops);
  }

  /** Credentials are kept from their recording to the submitted exit of the process. */
  lemma CredentialsStep(ops: seq<Op>, op: Op, pid: Pid)
    ensures pid in Run(ops + [op]).creds
       <==> || op == RecordCreds(pid)
            || (pid in Run(ops).creds && !(HasRoom(op) && Wanted(ops, op) == [ProcessExit(pid)]))
  {
    RunAppend(ops, op);
    if op.Exit? {
      ActiveIffTracked(ops, op.pid);
    }
  }

  /** The bound on exec events, for one process and one second. */
  ghost predicate ExecsBounded(ops: seq<Op>, log: seq<KernelEvent>, pid: Pid, lo: nat) {
    RateLimit.UndisturbedSince(RateOps(ops), pid, EXEC_LIMIT, lo) ==> ExecsInSecond(log, pid, lo) <= 2 * EXEC_LIMIT - 1
  }

  lemma RunBounded(ops: seq<Op>, pid: Pid, lo: nat)
    ensures ExecsBounded(ops, Run(ops).log, pid, lo)
  {
    if RateLimit.UndisturbedSince(RateOps(ops), pid, EXEC_LIMIT, lo) {
      ExecEventsPerSecond(ops, pid, lo);
    }
  }

  /** What holds of the hooks' state after any trace. */
  ghost predicate Sound(ops: seq<Op>, s: State) {
    && ExitsFollowExecs(s.log)
    && s.generated + s.dropped == Reservations(ops) && s.generated == |s.log|
    && (forall pid: Pid :: pid in s.active <==> Tracked(ops, pid))
    && forall pid: Pid, lo: nat :: ExecsBounded(ops, s.log, pid, lo)
  }

  lemma RunSound(ops: seq<Op>)
    ensures Sound(ops, Run(ops))
  {
    EveryExitFollowsExec(ops);
    ReservationsAccounted(ops);
    forall pid: Pid ensures pid in Run(ops).active <==> Tracked(ops, pid) {
      ActiveIffTracked(ops, pid);
    }
    forall pid: Pid, lo: nat ensures ExecsBounded(ops, Run(ops).log, pid, lo) {
      RunBounded(ops, pid, lo);
    }
  }

  // ---------- The program ----------

  class Monitor {
    var rate: map<Pid, RateLimit.Entry>
    var active: map<Pid, nat>
    var creds: set<Pid>
    var generated: nat
    var dropped: nat
    var rateLimited: nat
    var log: seq<KernelEvent>

    ghost var ops: seq<Op>  // everything that happened so far

    ghost function View(): State
      reads this
    {
      State(rate, active, creds, generated, dropped, rateLimited, log)
    }

    /** The maps and counters are those of the model after the same trace. */
    ghost predicate Valid()
      reads this
    {
      View() == Run(ops)
    }

    constructor ()
      ensures Valid() && ops == []
    {
      rate, active, creds := map[], map[], {};
      generated, dropped, rateLimited, log := 0, 0, 0, [];
      ops := [];
    }

    /** Enter an operation whose effect is already in the fields. */
    ghost method Record(op: Op)
      requires View() == Step(Run(ops), op)
      modifies this`ops
      ensures Valid() && ops == old(ops) + [op] && Sound(ops, View())
      ensures log == Run(old(ops)).log + if HasRoom(op) then Wanted(old(ops), op) else []
    {
      RunAppend(ops, op);
      CallSubmits(ops, op);
      ops := ops + [op];
      RunSound(ops);
    }

    method CheckRateLimit(pid: Pid, eventsPerSecond: nat, now: nat) returns (allowed: bool)
      modifies this`rate, this`rateLimited
      ensures allowed == RateLimit.Allowed(RateLimit.Find(old(rate), pid), eventsPerSecond, now)
      ensures View() == Checked(old(View()), pid, eventsPerSecond, now)
    {
      if pid in rate {
        var entry := rate[pid];
        if WrappingSub(now, entry.windowStart) > RateLimit.SECOND {
          rate := rate[pid := RateLimit.Entry(1, now)];
          return true;
        }
        if entry.count < eventsPerSecond {
          rate := rate[pid := entry.(count := entry.count + 1)];
          return true;
        }
        rateLimited := rateLimited + 1;
        assert rate[pid := entry] == rate;
        return false;
      }
      rate := rate[pid := RateLimit.Entry(1, now)];
      return true;
    }

    method SchedProcessExec(pid: Pid, now: nat, enabled: bool, filtered: bool, room: bool, stored: bool)
      requires Valid()
      modifies this
      ensures Valid() && ops == old(ops) + [Exec(pid, now, enabled, filtered, room, stored)] && Sound(ops, View())
      ensures log == old(log) + if room then Wanted(old(ops), Exec(pid, now, enabled, filtered, room, stored)) else []
    {
      HandleExec(pid, now, enabled, filtered, room, stored);
      Record(Exec(pid, now, enabled, filtered, room, stored));
    }

    method HandleExec(pid: Pid, now: nat, enabled: bool, filtered: bool, room: bool, stored: bool)
      modifies this
      ensures View() == Step(old(View()), Exec(pid, now, enabled, filtered, room, stored)) && ops == old(ops)
    {
      if !enabled || filtered {
        return;
      }
      var allowed := CheckRateLimit(pid, EXEC_LIMIT, now);
      if !allowed {
        return;
      }
      if !room {
        dropped := dropped + 1;
        return;
      }
      log := log + [ProcessExec(pid, now)];
      generated := generated + 1;
      if stored {
        active := active[pid := now];
      }
    }

    method SchedProcessExit(pid: Pid, enabled: bool, room: bool)
      requires Valid()
      modifies this
      ensures Valid() && ops == old(ops) + [Exit(pid, enabled, room)] && Sound(ops, View())
      ensures log == old(log) + if room then Wanted(old(ops), Exit(pid, enabled, room)) else []
    {
      if enabled && pid in active {
        if room {
          log := log + [ProcessExit(pid)];
          generated := generated + 1;
          active := active - {pid};
          creds := creds - {pid};
        } else {
          dropped := dropped + 1;
        }
      }
      Record(Exit(pid, enabled, room));
    }

    method SchedProcessFork(pid: Pid, enabled: bool, room: bool)
      requires Valid()
      modifies this
      ensures Valid() && ops == old(ops) + [Fork(pid, enabled, room)] && Sound(ops, View())
      ensures log == old(log) + if room then Wanted(old(ops), Fork(pid, enabled, room)) else []
    {
      if enabled {
        if room {
          log := log + [ProcessFork(pid)];
          generated := generated + 1;
        } else {
          dropped := dropped + 1;
        }
      }
      Record(Fork(pid, enabled, room));
    }

    /** The rate-limit check of any other hook, with the limit of its own call site. */
    method OtherHookCheck(pid: Pid, eventsPerSecond: nat, now: nat) returns (allowed: bool)
      requires Valid()
      modifies this
      ensures Valid() && ops == old(ops) + [OtherCheck(pid, eventsPerSecond, now)] && Sound(ops, View())
      ensures allowed == RateLimit.Allowed(RateLimit.Find(old(rate), pid), eventsPerSecond, now)
    {
      allowed := CheckRateLimit(pid, eventsPerSecond, now);
      Record(OtherCheck(pid, eventsPerSecond, now));
    }

    method RecordCredentials(pid: Pid)
      requires Valid()
      modifies this
      ensures Valid() && ops == old(ops) + [RecordCreds(pid)] && Sound(ops, View())
    {
      creds := creds + {pid};
      Record(RecordCreds(pid));
    }

    /** The bounded maps may forget any entry at any time. */
    method Evict(pid: Pid, tracked: bool)
      requires Valid()
      modifies this
      ensures Valid() && Sound(ops, View())
      ensures ops == old(ops) + [if tracked then EvictActive(pid) else EvictRate(pid)]
    {
      if tracked {
        active := active - {pid};
        Record(EvictActive(pid));
      } else {
        rate := rate - {pid};
        Record(EvictRate(pid));
      }
    }
  }
}
