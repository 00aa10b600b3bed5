/** The per-process event limiter of the kernel programs. */
module KernelRateLimit {
  import opened Counting
  import opened IntegerFacts
  import opened Options

  type Pid = nat

  /** One second, in nanoseconds. */
  const SECOND: nat := 1_000_000_000

  datatype Entry = Entry(count: nat, windowStart: nat)

  function Allowed(entry: Option<Entry>, limit: nat, now: nat): bool {
    entry.None? || WrappingSub(now, entry.value.windowStart) > SECOND || entry.value.count < limit
  }

  function EntryAfter(entry: Option<Entry>, limit: nat, now: nat): Entry {
    if entry.None? || WrappingSub(now, entry.value.windowStart) > SECOND then Entry(1, now)
    else if entry.value.count < limit then Entry(entry.value.count + 1, entry.value.windowStart)
    else entry.value
  }

  // ---------- Runs over all processes ----------

  /** A check by some call site, or the eviction of an entry by the bounded map. */
  datatype Op = Check(pid: Pid, limit: nat, now: nat) | Evict(pid: Pid)

  function Find(table: map<Pid, Entry>, pid: Pid): Option<Entry> {
    if pid in table then Some(table[pid]) else None
  }

  function Table(ops: seq<Op>): map<Pid, Entry> {
    if ops == [] then map[]
    else
      var table := Table(ops[..|ops| - 1]);
      match ops[|ops| - 1]
      case Check(pid, limit, now) => table[pid := EntryAfter(Find(table, pid), limit, now)]
      case Evict(pid) => table - {pid}
  }

  /** Times at which `pid` was let through by call sites whose own limit is at most `most`. */
  function Accepted(ops: seq<Op>, pid: Pid, most: nat): seq<nat> {
    if ops == [] then []
    else
      var front, op := ops[..|ops| - 1], ops[|ops| - 1];
      if op.Check? && op.pid == pid && op.limit <= most && Allowed(Find(Table(front), pid), op.limit, op.now)
      then Accepted(front, pid, most) + [op.now]
      else Accepted(front, pid, most)
  }

  /** Latest reading of the clock by a check for `pid`. */
  function Clock(ops: seq<Op>, pid: Pid): nat {
    if ops == [] then 0
    else
      var op := ops[|ops| - 1];
      if op.Check? && op.pid == pid then op.now else Clock(ops[..|ops| - 1], pid)
  }

  /** For `pid`: no eviction and a clock that does not go back. */
  ghost predicate Undisturbed(ops: seq<Op>, pid: Pid) {
    ops != [] ==>
      var front, op := ops[..|ops| - 1], ops[|ops| - 1];
      && Undisturbed(front, pid)
      && (op.pid == pid ==> op.Check? && Clock(front, pid) <= op.now)
  }

  /** No call site checks `pid` against a larger limit. */
  ghost predicate LimitsAtMost(ops: seq<Op>, pid: Pid, most: nat) {
    forall i | 0 <= i < |ops| && ops[i].Check? && ops[i].pid == pid :: ops[i].limit <= most
  }

  // ---------- Windows ----------

  ghost predicate AllWithin(a: seq<nat>, lo: nat, hi: nat) {
    forall i | 0 <= i < |a| :: lo <= a[i] <= hi
  }

  /** The accepted times by window; the check that opens a window passes whatever its limit. */
  datatype Split = Split(older: seq<nat>, before: nat, previous: seq<nat>, opener: seq<nat>, rest: seq<nat>)

  /**
   * `opener` and `rest` are the accepted times of the current window, `previous` those of the window
   * opened at `before` except its opening check, and `older` all earlier ones.
   */
  ghost predicate SplitsInto(times: seq<nat>, entry: Entry, now: nat, most: nat, s: Split) {
    && times == s.older + s.previous + s.opener + s.rest
    && entry.windowStart <= now
    && |s.opener| <= 1 && AllWithin(s.opener, entry.windowStart, entry.windowStart)
    && |s.rest| <= most - 1 && |s.rest| + 1 <= entry.count && AllWithin(s.rest, entry.windowStart, now)
    && |s.previous| <= most - 1
    && (s.older + s.previous != [] ==>
          && s.before + SECOND < entry.windowStart
          && AllWithin(s.older, 0, s.before) && AllWithin(s.previous, s.before, s.before + SECOND))
  }

  /** Every acceptance of the current window is among the times. */
  ghost predicate Whole(entry: Entry, s: Split) { |s.opener| + |s.rest| == entry.count }

  lemma CheckSplits(times: seq<nat>, entry: Entry, clock: nat, most: nat, op: Op, s: Split) returns (s': Split)
    requires most >= 1 && op.Check? && clock <= op.now && SplitsInto(times, entry, clock, most, s)
    requires AllWithin(s.rest, entry.windowStart, entry.windowStart + SECOND)
    ensures var passes := op.limit <= most && Allowed(Some(entry), op.limit, op.now);
            var entry' := EntryAfter(Some(entry), op.limit, op.now);
            && SplitsInto(if passes then times + [op.now] else times, entry', op.now, most, s')
            && AllWithin(s'.rest, entry'.windowStart, entry'.windowStart + SECOND)
            && (Whole(entry, s) && op.limit <= most ==> Whole(entry', s'))
  {
    var added: seq<nat> := if op.limit <= most then [op.now] else [];
    if WrappingSub(op.now, entry.windowStart) > SECOND {
      s' := Split(s.older + s.previous + s.opener, entry.windowStart, s.rest, added, []);
      assert times + added == s'.older + s'.previous + s'.opener + s'.rest;
      assert times + [] == times;
    } else if entry.count < op.limit {
      s' := s.(rest := s.rest + added);
      assert times + added == s'.older + s'.previous + s'.opener + s'.rest;
      assert times + [] == times;
    } else {
      s' := s;
    }
  }

  lemma {:induction false} RunSplits(ops: seq<Op>, pid: Pid, most: nat) returns (s: Split)
    requires most >= 1 && Undisturbed(ops, pid)
    ensures pid !in Table(ops) ==> Accepted(ops, pid, most) == []
    ensures pid in Table(ops) ==>
              var entry := Table(ops)[pid];
              && SplitsInto(Accepted(ops, pid, most), entry, Clock(ops, pid), most, s)
              && AllWithin(s.rest, entry.windowStart, entry.windowStart + SECOND)
              && (LimitsAtMost(ops, pid, most) ==> Whole(entry, s))
  {
    s := Split([], 0, [], [], []);
    if ops != [] {
      var front, op := ops[..|ops| - 1], ops[|ops| - 1];
      s := RunSplits(front, pid, most);
      if op.pid == pid {
        var entry := Find(Table(front), pid);
        if entry.None? {
          s := Split([], 0, [], if op.limit <= most then [op.now] else [], []);
        } else {
          s := CheckSplits(Accepted(front, pid, most), entry.value, Clock(front, pid), most, op, s);
        }
      }
    }
  }

  lemma CountParts(s: Split, lo: nat, hi: nat)
    ensures CountIn(s.older + s.previous + s.opener + s.rest, lo, hi)
         == CountIn(s.older, lo, hi) + CountIn(s.previous, lo, hi) + CountIn(s.opener, lo, hi) + CountIn(s.rest, lo, hi)
  {
    CountConcat(s.older + s.previous + s.opener, s.rest, lo, hi);
    CountConcat(s.older + s.previous, s.opener, lo, hi);
    CountConcat(s.older, s.previous, lo, hi);
  }

  /** Bound at the moment an event is let through, for an interval that reaches it. */
  lemma BoundAtAcceptance(times: seq<nat>, entry: Entry, now: nat, most: nat, s: Split, lo: nat)
    requires most >= 1 && SplitsInto(times, entry, now, most, s) && entry.windowStart <= lo + SECOND
    ensures CountIn(times, lo, lo + SECOND) <= 2 * most - 1
  {
    CountParts(s, lo, lo + SECOND);
    CountNone(s.older, lo, lo + SECOND);
  }

  lemma {:induction false} BoundFromEmpty(ops: seq<Op>, pid: Pid, most: nat, lo: nat)
    requires most >= 1 && Undisturbed(ops, pid)
    ensures CountIn(Accepted(ops, pid, most), lo, lo + SECOND) <= 2 * most - 1
  {
    if ops != [] {
      var front, op := ops[..|ops| - 1], ops[|ops| - 1];
      BoundFromEmpty(front, pid, most, lo);
      var times := Accepted(front, pid, most);
      if Accepted(ops, pid, most) != times {
        assert (times + [op.now])[..|times|] == times;
        if op.now <= lo + SECOND {
          var s := RunSplits(ops, pid, most);
          BoundAtAcceptance(Accepted(ops, pid, most), Table(ops)[pid], op.now, most, s, lo);
        }
      }
    }
  }

  /** After `k` operations `pid` has no entry, and from there on it is undisturbed; it passed only before `lo`. */
  ghost predicate FreshAt(ops: seq<Op>, pid: Pid, most: nat, lo: nat, k: nat) {
    && k <= |ops| && pid !in Table(ops[..k]) && Undisturbed(ops[k..], pid)
    && forall i | 0 <= i < |Accepted(ops[..k], pid, most)| :: Accepted(ops[..k], pid, most)[i] < lo
  }

  /** Evictions of `pid`, and a clock that goes back, lie before time `lo`. */
  ghost predicate UndisturbedSince(ops: seq<Op>, pid: Pid, most: nat, lo: nat) {
    exists k: nat :: FreshAt(ops, pid, most, lo, k)
  }

  lemma UndisturbedAlways(ops: seq<Op>, pid: Pid, most: nat, lo: nat)
    requires Undisturbed(ops, pid)
    ensures UndisturbedSince(ops, pid, most, lo)
  {
    assert ops[..0] == [] && ops[0..] == ops;
    assert FreshAt(ops, pid, most, lo, 0);
  }

  /** What one more operation means for one process. */
  lemma StepFor(ops: seq<Op>, op: Op, pid: Pid, most: nat)
    ensures Find(Table(ops + [op]), pid)
         == if op.pid != pid then Find(Table(ops), pid)
            else if op.Check? then Some(EntryAfter(Find(Table(ops), pid), op.limit, op.now))
            else None
    ensures Accepted(ops + [op], pid, most)
         == Accepted(ops, pid, most)
            + if op.Check? && op.pid == pid && op.limit <= most && Allowed(Find(Table(ops), pid), op.limit, op.now)
              then [op.now] else []
  {
    assert (ops + [op])[..|ops|] == ops;
  }

  lemma {:induction false} EntryFromEmpty(a: seq<Op>, b: seq<Op>, pid: Pid)
    requires pid !in Table(a)
    ensures Find(Table(a + b), pid) == Find(Table(b), pid)
  {
    if b == [] {
      assert a + b == a;
    } else {
      var b', op := b[..|b| - 1], b[|b| - 1];
      assert b == b' + [op] && a + b == (a + b') + [op];
      EntryFromEmpty(a, b', pid);
      StepFor(b', op, pid, 0);
      StepFor(a + b', op, pid, 0);
    }
  }

  /** A process without an entry is treated as if nothing had happened before. */
  lemma {:induction false} RestartsFromEmpty(a: seq<Op>, b: seq<Op>, pid: Pid, most: nat)
    requires pid !in Table(a)
    ensures Accepted(a + b, pid, most) == Accepted(a, pid, most) + Accepted(b, pid, most)
  {
    if b == [] {
      assert a + b == a;
    } else {
      var b', op := b[..|b| - 1], b[|b| - 1];
      assert b == b' + [op] && a + b == (a + b') + [op];
      RestartsFromEmpty(a, b', pid, most);
      EntryFromEmpty(a, b', pid);
      StepFor(b', op, pid, most);
      StepFor(a + b', op, pid, most);
    }
  }

  /**
   * In any closed second the call sites with limits of at most `most` let fewer than twice `most`
   * through, whatever larger limits others use on the same entry, whatever happens to other
   * processes, and whatever was evicted before that second.
   */
  lemma FewerThanTwiceLimitPerSecond(ops: seq<Op>, pid: Pid, most: nat, lo: nat)
    requires most >= 1 && UndisturbedSince(ops, pid, most, lo)
    ensures CountIn(Accepted(ops, pid, most), lo, lo + SECOND) <= 2 * most - 1
  {
    var k: nat :| FreshAt(ops, pid, most, lo, k);
    var a, b := ops[..k], ops[k..];
    assert a + b == ops;
    RestartsFromEmpty(a, b, pid, most);
    CountConcat(Accepted(a, pid, most), Accepted(b, pid, most), lo, lo + SECOND);
    CountNone(Accepted(a, pid, most), lo, lo + SECOND);
    BoundFromEmpty(b, pid, most, lo);
  }

  /**
   * The current window lets at most `most` through for those call sites; when there are no others,
   * the entry's count is the number of events it let through.
   */
  lemma AtMostLimitPerWindow(ops: seq<Op>, pid: Pid, most: nat)
    requires most >= 1 && Undisturbed(ops, pid) && pid in Table(ops)
    ensures var entry, inWindow := Table(ops)[pid],
              CountIn(Accepted(ops, pid, most), Table(ops)[pid].windowStart, Clock(ops, pid));
            inWindow <= most && inWindow <= entry.count
            && (LimitsAtMost(ops, pid, most) ==> inWindow == entry.count)
  {
    var s := RunSplits(ops, pid, most);
    var lo, hi := Table(ops)[pid].windowStart, Clock(ops, pid);
    CountParts(s, lo, hi);
    CountNone(s.older, lo, hi);
    CountNone(s.previous, lo, hi);
    CountAll(s.opener, lo, hi);
    CountAll(s.rest, lo, hi);
  }

  /** A check is refused only when the window it falls into has let its limit through. */
  lemma RefusedOnlyWhenFull(ops: seq<Op>, pid: Pid, most: nat, limit: nat, now: nat)
    requires most >= 1 && Undisturbed(ops, pid) && LimitsAtMost(ops, pid, most) && Clock(ops, pid) <= now
    requires !Allowed(Find(Table(ops), pid), limit, now)
    ensures CountIn(Accepted(ops, pid, most), SaturatingSub(now, SECOND), now) >= limit
  {
    var start := Table(ops)[pid].windowStart;
    AtMostLimitPerWindow(ops, pid, most);
    var s := RunSplits(ops, pid, most);
    CountGrows(Accepted(ops, pid, most), start, Clock(ops, pid), now);
    CountWidens(Accepted(ops, pid, most), start, SaturatingSub(now, SECOND), now);
  }

  // ---------- The bound is reached ----------

  /** A check that passes, at the end of a run. */
  lemma PassingCheck(ops: seq<Op>, limit: nat, t: nat, all: seq<Op>)
    requires all == ops + [Check(0, limit, t)]
    requires Allowed(Find(Table(ops), 0), limit, t) && Clock(ops, 0) <= t && Undisturbed(ops, 0)
    ensures Find(Table(all), 0) == Some(EntryAfter(Find(Table(ops), 0), limit, t))
    ensures Accepted(all, 0, limit) == Accepted(ops, 0, limit) + [t]
    ensures Undisturbed(all, 0)
    ensures Clock(all, 0) == t
  {
    assert all[..|all| - 1] == ops && all[|all| - 1] == Check(0, limit, t);
  }

  lemma {:induction false} RepeatedChecksPass(ops: seq<Op>, limit: nat, t: nat, n: nat, all: seq<Op>)
    requires all == ops + Repeat(Check(0, limit, t), n)
    requires 0 in Table(ops) && Clock(ops, 0) <= t && Undisturbed(ops, 0)
    requires WrappingSub(t, Table(ops)[0].windowStart) <= SECOND && Table(ops)[0].count + n <= limit
    ensures Find(Table(all), 0) == Some(Entry(Table(ops)[0].count + n, Table(ops)[0].windowStart))
    ensures Accepted(all, 0, limit) == Accepted(ops, 0, limit) + Repeat<nat>(t, n)
    ensures Undisturbed(all, 0)
    ensures Clock(all, 0) <= t
  {
    if n == 0 {
      assert all == ops;
    } else {
      var shorter := ops + Repeat(Check(0, limit, t), n - 1);
      RepeatOnceMore(ops, Check(0, limit, t), n);
      RepeatOnceMore<nat>(Accepted(ops, 0, limit), t, n);
      RepeatedChecksPass(ops, limit, t, n - 1, shorter);
      PassingCheck(shorter, limit, t, all);
    }
  }

  /** Nothing happens but checks of process 0 against this limit. */
  ghost predicate OnlyChecks(ops: seq<Op>, limit: nat) {
    forall i | 0 <= i < |ops| :: ops[i].Check? && ops[i].pid == 0 && ops[i].limit == limit
  }

  lemma OnlyChecksAppend(ops: seq<Op>, limit: nat, t: nat, n: nat)
    requires OnlyChecks(ops, limit)
    ensures OnlyChecks(ops + Repeat(Check(0, limit, t), n), limit)
  {
    RepeatIsConstant(Check(0, limit, t), n);
  }

  /** A full window whose later events all come at its very end. */
  lemma LateWindow(limit: nat) returns (late: seq<Op>)
    requires limit >= 1
    ensures Undisturbed(late, 0) && Clock(late, 0) <= SECOND && OnlyChecks(late, limit)
    ensures Find(Table(late), 0) == Some(Entry(limit, 0))
    ensures Accepted(late, 0, limit) == [0] + Repeat<nat>(SECOND, limit - 1)
  {
    var first := [Check(0, limit, 0)];
    assert first == [] + [Check(0, limit, 0)];
    PassingCheck([], limit, 0, first);
    assert Accepted(first, 0, limit) == [0];
    late := first + Repeat(Check(0, limit, SECOND), limit - 1);
    RepeatedChecksPass(first, limit, SECOND, limit - 1, late);
    OnlyChecksAppend(first, limit, SECOND, limit - 1);
  }

  /** Followed by a full window right after it. */
  lemma LateThenEarly(limit: nat) returns (ops: seq<Op>)
    requires limit >= 1
    ensures Undisturbed(ops, 0) && OnlyChecks(ops, limit)
    ensures Accepted(ops, 0, limit)
         == [0] + Repeat<nat>(SECOND, limit - 1) + [SECOND + 1] + Repeat<nat>(SECOND + 1, limit - 1)
  {
    var late := LateWindow(limit);
    var next := late + [Check(0, limit, SECOND + 1)];
    PassingCheck(late, limit, SECOND + 1, next);
    ops := next + Repeat(Check(0, limit, SECOND + 1), limit - 1);
    RepeatedChecksPass(next, limit, SECOND + 1, limit - 1, ops);
    OnlyChecksAppend(next, limit, SECOND + 1, limit - 1);
  }

  lemma ReachingRun(limit: nat) returns (ops: seq<Op>)
    requires limit >= 1
    ensures Undisturbed(ops, 0) && OnlyChecks(ops, limit)
    ensures CountIn(Accepted(ops, 0, limit), 1, 1 + SECOND) == 2 * limit - 1
  {
    ops := LateThenEarly(limit);
    CountReached(limit - 1);
  }

  /** For every limit some run of checks against it lets exactly that many through in one second. */
  lemma BoundIsReached(limit: nat)
    requires limit >= 1
    ensures exists ops :: Undisturbed(ops, 0) && OnlyChecks(ops, limit)
                          && CountIn(Accepted(ops, 0, limit), 1, 1 + SECOND) == 2 * limit - 1
  {
    var ops := ReachingRun(limit);
  }

  lemma CountReached(n: nat)
    ensures var times := [0] + Repeat<nat>(SECOND, n) + [SECOND + 1] + Repeat<nat>(SECOND + 1, n);
            CountIn(times, 1, 1 + SECOND) == 2 * n + 1
  {
    var a: seq<nat>, b: seq<nat>, c: seq<nat> := Repeat<nat>(SECOND, n), [SECOND + 1], Repeat<nat>(SECOND + 1, n);
    CountConcat([0] + a + b, c, 1, 1 + SECOND);
    CountConcat([0] + a, b, 1, 1 + SECOND);
    CountConcat([0], a, 1, 1 + SECOND);
    RepeatIsConstant<nat>(SECOND, n);
    RepeatIsConstant<nat>(SECOND + 1, n);
    CountAll(a, 1, 1 + SECOND);
    CountAll(b, 1, 1 + SECOND);
    CountAll(c, 1, 1 + SECOND);
    CountNone([0], 1, 1 + SECOND);
  }
}
