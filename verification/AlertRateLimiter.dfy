/** The sliding-window limiter on emitted alerts. */
module AlertRateLimiter {
  import opened IntegerFacts
  import opened Counting

  /** Sixty seconds, in nanoseconds. */
  const WINDOW: nat := 60_000_000_000

  type Alert = nat

  datatype Batch = Batch(now: nat, alerts: seq<Alert>)

  // ---------- The limiter ----------

  function DropOld(limiter: seq<nat>, now: nat): seq<nat> {
    if limiter != [] && SaturatingSub(now, limiter[0]) > WINDOW then DropOld(limiter[1..], now) else limiter
  }

  function ToTake(limit: nat, used: nat, n: nat): nat {
    var remaining := SaturatingSub(limit, used);
    if remaining < n then remaining else n
  }

  function Admitted(limit: nat, limiter: seq<nat>, b: Batch): nat {
    ToTake(limit, |DropOld(limiter, b.now)|, |b.alerts|)
  }

  function After(limit: nat, limiter: seq<nat>, b: Batch): seq<nat> {
    DropOld(limiter, b.now) + Repeat(b.now, Admitted(limit, limiter, b))
  }

  // ---------- Runs ----------

  /** The limiter after a run of batches. */
  function LimiterAfter(limit: nat, run: seq<Batch>): seq<nat> {
    if run == [] then [] else After(limit, LimiterAfter(limit, run[..|run| - 1]), run[|run| - 1])
  }

  /** Times of all alerts admitted in the run, with no window and no forgetting. */
  function History(limit: nat, run: seq<Batch>): seq<nat> {
    if run == [] then []
    else
      var front, b := run[..|run| - 1], run[|run| - 1];
      History(limit, front) + Repeat(b.now, Admitted(limit, LimiterAfter(limit, front), b))
  }

  ghost predicate Monotone(run: seq<Batch>) {
    forall i, j | 0 <= i < j < |run| :: run[i].now <= run[j].now
  }

  ghost predicate Sorted(s: seq<nat>) {
    forall i, j | 0 <= i < j < |s| :: s[i] <= s[j]
  }

  /** `limiter` is the recent end of `history`: everything in it is in the window, everything before is not. */
  ghost predicate RecentEnd(history: seq<nat>, limiter: seq<nat>, now: nat, dropped: seq<nat>) {
    && history == dropped + limiter
    && Sorted(history)
    && (forall i | 0 <= i < |history| :: history[i] <= now)
    && (forall i | 0 <= i < |dropped| :: now - dropped[i] > WINDOW)
    && (forall i | 0 <= i < |limiter| :: now - limiter[i] <= WINDOW)
  }

  lemma {:induction false} DropKeepsRecent(history: seq<nat>, limiter: seq<nat>, now: nat, dropped: seq<nat>)
    returns (dropped': seq<nat>)
    requires history == dropped + limiter && Sorted(history) && forall i | 0 <= i < |history| :: history[i] <= now
    requires forall i | 0 <= i < |dropped| :: now - dropped[i] > WINDOW
    ensures RecentEnd(history, DropOld(limiter, now), now, dropped')
    decreases |limiter|
  {
    if limiter != [] && SaturatingSub(now, limiter[0]) > WINDOW {
      assert history == (dropped + [limiter[0]]) + limiter[1..];
      dropped' := DropKeepsRecent(history, limiter[1..], now, dropped + [limiter[0]]);
    } else {
      dropped' := dropped;
      forall i | 0 <= i < |limiter| ensures now - limiter[i] <= WINDOW {
        assert history[|dropped|] == limiter[0] && history[|dropped| + i] == limiter[i];
      }
    }
  }

  lemma AppendKeepsRecent(history: seq<nat>, limiter: seq<nat>, now: nat, dropped: seq<nat>, n: nat)
    requires RecentEnd(history, limiter, now, dropped)
    ensures RecentEnd(history + Repeat(now, n), limiter + Repeat(now, n), now, dropped)
  {
    RepeatIsConstant(now, n);
    var more := Repeat(now, n);
    assert history + more == dropped + (limiter + more);
  }

  /** On every run the limiter is the part of the history within a minute of the latest batch. */
  lemma {:induction false} LimiterIsRecentHistory(limit: nat, run: seq<Batch>) returns (dropped: seq<nat>)
    requires Monotone(run) && run != []
    ensures RecentEnd(History(limit, run), LimiterAfter(limit, run), run[|run| - 1].now, dropped)
  {
    var front, b := run[..|run| - 1], run[|run| - 1];
    var before: seq<nat> := [];
    if front != [] {
      before := LimiterIsRecentHistory(limit, front);
      assert run[|front| - 1].now <= b.now;
    }
    dropped := DropKeepsRecent(History(limit, front), LimiterAfter(limit, front), b.now, before);
    AppendKeepsRecent(History(limit, front), DropOld(LimiterAfter(limit, front), b.now), b.now, dropped,
                      Admitted(limit, LimiterAfter(limit, front), b));
  }

  lemma CountRecent(history: seq<nat>, recent: seq<nat>, now: nat, dropped: seq<nat>)
    requires RecentEnd(history, recent, now, dropped)
    ensures CountIn(history, SaturatingSub(now, WINDOW), now) == |recent|
  {
    var lo := SaturatingSub(now, WINDOW);
    CountConcat(dropped, recent, lo, now);
    CountNone(dropped, lo, now);
    forall i | 0 <= i < |recent| ensures lo <= recent[i] <= now {
      assert recent[i] == history[|dropped| + i];
    }
    CountAll(recent, lo, now);
  }

  /** In any closed minute of any run at most `limit` alerts are admitted. */
  lemma {:induction false} AtMostLimitPerMinute(limit: nat, run: seq<Batch>, lo: nat)
    requires Monotone(run)
    ensures CountIn(History(limit, run), lo, lo + WINDOW) <= limit
  {
    if run != [] {
      var front, b := run[..|run| - 1], run[|run| - 1];
      var taken := Admitted(limit, LimiterAfter(limit, front), b);
      AtMostLimitPerMinute(limit, front, lo);
      RepeatIsConstant(b.now, taken);
      CountConcat(History(limit, front), Repeat(b.now, taken), lo, lo + WINDOW);
      if taken == 0 {
      } else if lo + WINDOW < b.now {
        CountNone(Repeat(b.now, taken), lo, lo + WINDOW);
      } else {
        var dropped := LimiterIsRecentHistory(limit, run);
        CountConcat(dropped, LimiterAfter(limit, run), lo, lo + WINDOW);
        CountNone(dropped, lo, lo + WINDOW);
      }
    }
  }

  lemma OneMoreBatch(limit: nat, run: seq<Batch>, b: Batch)
    ensures (run + [b])[..|run|] == run
    ensures LimiterAfter(limit, run + [b]) == After(limit, LimiterAfter(limit, run), b)
    ensures History(limit, run + [b])
         == History(limit, run) + Repeat(b.now, Admitted(limit, LimiterAfter(limit, run), b))
  {
    assert (run + [b])[..|run|] == run;
  }

  /** Alerts admitted before a batch in the minute that ends with it. */
  function Used(limit: nat, before: seq<Batch>, now: nat): nat {
    CountIn(History(limit, before), SaturatingSub(now, WINDOW), now)
  }

  lemma RoomIsMeasured(limit: nat, run: seq<Batch>)
    requires Monotone(run) && run != []
    ensures var front, b := run[..|run| - 1], run[|run| - 1];
            |DropOld(LimiterAfter(limit, front), b.now)| == Used(limit, front, b.now)
  {
    var front, b := run[..|run| - 1], run[|run| - 1];
    var before: seq<nat> := [];
    if front != [] {
      before := LimiterIsRecentHistory(limit, front);
      assert run[|front| - 1].now <= b.now;
    }
    var recent := DropOld(LimiterAfter(limit, front), b.now);
    var dropped := DropKeepsRecent(History(limit, front), LimiterAfter(limit, front), b.now, before);
    CountRecent(History(limit, front), recent, b.now, dropped);
  }

  lemma UsedWithinLimit(limit: nat, before: seq<Batch>, now: nat)
    requires Monotone(before)
    ensures Used(limit, before, now) <= limit
  {
    var lo := SaturatingSub(now, WINDOW);
    AtMostLimitPerMinute(limit, before, lo);
    CountGrows(History(limit, before), lo, now, lo + WINDOW);
  }

  /** The batch is never cut while there is room in the minute that ends with it, and always where there is none. */
  lemma AdmitsWhatFits(limit: nat, run: seq<Batch>)
    requires Monotone(run) && run != []
    ensures var front, b := run[..|run| - 1], run[|run| - 1];
            var used, taken := Used(limit, front, b.now), Admitted(limit, LimiterAfter(limit, front), b);
            && taken <= |b.alerts|
            && used + taken <= limit
            && (taken < |b.alerts| ==> used + taken == limit)
  {
    var front := run[..|run| - 1];
    assert Monotone(front);
    RoomIsMeasured(limit, run);
    UsedWithinLimit(limit, front, run[|run| - 1].now);
  }

  // ---------- The program ----------

  class RateLimiter {
    const limit: nat
    var limiter: seq<nat>

    ghost var run: seq<Batch>  // every batch so far

    ghost predicate Valid()
      reads this
    {
      limiter == LimiterAfter(limit, run)
    }

    constructor (limit: nat)
      ensures Valid() && this.limit == limit && run == []
    {
      this.limit := limit;
      limiter, run := [], [];
    }

    /** The first alerts of the batch pass, as many as fit. */
    method ApplyRateLimit(now: nat, alerts: seq<Alert>) returns (kept: seq<Alert>)
      requires Valid()
      modifies this
      ensures Valid() && run == old(run) + [Batch(now, alerts)]
      ensures kept <= alerts && History(limit, run) == History(limit, old(run)) + Repeat(now, |kept|)
      ensures Monotone(run) ==>
                var used := Used(limit, old(run), now);
                used + |kept| <= limit && (|kept| < |alerts| ==> used + |kept| == limit)
    {
      ghost var b := Batch(now, alerts);
      OneMoreBatch(limit, run, b);
      if Monotone(run + [b]) {
        AdmitsWhatFits(limit, run + [b]);
      }
      RemoveOld(now);
      var remaining := SaturatingSub(limit, |limiter|);
      var toTake := if remaining < |alerts| then remaining else |alerts|;
      Append(now, toTake);
      kept := alerts[..toTake];
      run := run + [b];
    }

    method RemoveOld(now: nat)
      modifies this`limiter
      ensures limiter == DropOld(old(limiter), now)
    {
      while limiter != [] && SaturatingSub(now, limiter[0]) > WINDOW
        invariant DropOld(limiter, now) == DropOld(old(limiter), now)
        decreases |limiter|
      {
        limiter := limiter[1..];
      }
    }

    method Append(now: nat, n: nat)
      modifies this`limiter
      ensures limiter == old(limiter) + Repeat(now, n)
    {
      for i := 0 to n
        invariant limiter == old(limiter) + Repeat(now, i)
      {
        limiter := limiter + [now];
      }
    }
  }
}
