/** Per-process risk: factors add to a capped score that decays with time. */
module RiskScore {
  import opened IntegerFacts
  import opened RealFacts
  import opened Subsequences

  const HOUR_MS: real := 3600000.0
  const DAY_MS: nat := 86400000

  /** A reading of the wall clock, in milliseconds; nothing keeps it from going back. */
  type Time = t: nat | t < TWO_64

  datatype Factor = Factor(name: string, score: real, timestamp: Time)

  datatype Risk = Risk(score: real, lastUpdate: Time, factors: seq<Factor>)

  function AddFactor(r: Risk, name: string, score: real, now: Time): Risk {
    Risk(Min(r.score + score, 100.0), now, r.factors + [Factor(name, score, now)])
  }

  function Recent(factors: seq<Factor>, cutoff: int): seq<Factor> {
    if factors == [] then []
    else
      var kept, f := Recent(factors[..|factors| - 1], cutoff), factors[|factors| - 1];
      if f.timestamp > cutoff then kept + [f] else kept
  }

  function DecayAmount(ratePerHour: real, from: Time, to: Time): real {
    ratePerHour * (WrappingSub(to, from) as real / HOUR_MS)
  }

  function Cutoff(now: Time): Time { WrappingSub(now, DAY_MS) }

  function ApplyDecay(r: Risk, ratePerHour: real, now: Time): Risk {
    Risk(Max(r.score - DecayAmount(ratePerHour, r.lastUpdate, now), 0.0), now, Recent(r.factors, Cutoff(now)))
  }

  // ---------- Decay composes ----------

  lemma DecaySign(rate: real, a: Time, b: Time)
    ensures rate >= 0.0 ==> DecayAmount(rate, a, b) >= 0.0
    ensures rate < 0.0 ==> DecayAmount(rate, a, b) <= 0.0
  {
    var x := WrappingSub(b, a) as real / HOUR_MS;
    if rate >= 0.0 {
      ProductNonNegative(rate, x);
    } else {
      ProductNonNegative(-rate, x);
      assert (-rate) * x == -(rate * x);
    }
  }

  lemma DecayAdds(rate: real, a: Time, b: Time, c: Time)
    requires a <= b <= c
    ensures DecayAmount(rate, a, b) + DecayAmount(rate, b, c) == DecayAmount(rate, a, c)
  {
    var x, y, z := (b - a) as real / HOUR_MS, (c - b) as real / HOUR_MS, (c - a) as real / HOUR_MS;
    assert x + y == z;
    assert rate * x + rate * y == rate * (x + y);
  }

  lemma {:induction false} RecentTwice(factors: seq<Factor>, c: int, c': int)
    ensures Recent(Recent(factors, c), c') == Recent(factors, if c <= c' then c' else c)
  {
    if factors != [] {
      var front, f := factors[..|factors| - 1], factors[|factors| - 1];
      RecentTwice(front, c, c');
      if f.timestamp > c {
        var kept := Recent(front, c);
        assert (kept + [f])[..|kept|] == kept;
      }
    }
  }

  /** What is kept is later than the cutoff, what is not is not, and the order stays. */
  lemma {:induction false} RecentExact(factors: seq<Factor>, cutoff: int)
    ensures forall f :: f in Recent(factors, cutoff) <==> f in factors && f.timestamp > cutoff
    ensures IsSubsequence(Recent(factors, cutoff), factors)
  {
    if factors == [] {
      EmptyIsSubsequence<Factor>([]);
    } else {
      var front, f := factors[..|factors| - 1], factors[|factors| - 1];
      assert factors == front + [f];
      RecentExact(front, cutoff);
      if f.timestamp > cutoff {
        Extend(Recent(front, cutoff), front, f);
      } else {
        Weaken(Recent(front, cutoff), front, f);
      }
    }
  }

  /** Two cutoffs keep the same factors exactly when none lies between them. */
  lemma {:induction false} SameRecent(factors: seq<Factor>, low: int, high: int)
    requires low <= high
    ensures |Recent(factors, high)| <= |Recent(factors, low)|
    ensures Recent(factors, high) == Recent(factors, low)
            <==> forall f | f in factors && f.timestamp > low :: f.timestamp > high
  {
    if factors != [] {
      var front, f := factors[..|factors| - 1], factors[|factors| - 1];
      assert factors == front + [f];
      SameRecent(front, low, high);
      if f.timestamp > high {
        var kept, kept' := Recent(front, low), Recent(front, high);
        assert (kept + [f])[..|kept|] == kept && (kept' + [f])[..|kept'|] == kept';
      }
    }
  }

  function DecayAt(r: Risk, rate: real, ticks: seq<Time>): Risk {
    if ticks == [] then r else ApplyDecay(DecayAt(r, rate, ticks[..|ticks| - 1]), rate, ticks[|ticks| - 1])
  }

  /** The largest cutoff of any tick. */
  function HighestCutoff(ticks: seq<Time>): int {
    if ticks == [] then -1
    else
      var before, c := HighestCutoff(ticks[..|ticks| - 1]), Cutoff(ticks[|ticks| - 1]);
      if before <= c then c else before
  }

  ghost predicate TicksInOrder(start: Time, ticks: seq<Time>) {
    && (forall i | 0 <= i < |ticks| :: start <= ticks[i])
    && (forall i, j | 0 <= i < j < |ticks| :: ticks[i] <= ticks[j])
  }

  lemma {:induction false} ScheduleScore(r: Risk, rate: real, ticks: seq<Time>)
    requires r.score >= 0.0 && ticks != [] && TicksInOrder(r.lastUpdate, ticks)
    ensures var last := ticks[|ticks| - 1];
            && DecayAt(r, rate, ticks).score == ApplyDecay(r, rate, last).score
            && DecayAt(r, rate, ticks).lastUpdate == last
            && DecayAt(r, rate, ticks).factors == Recent(r.factors, HighestCutoff(ticks))
            && HighestCutoff(ticks) >= Cutoff(last)
            && (DAY_MS <= ticks[0] ==> HighestCutoff(ticks) == Cutoff(last))
  {
    var front, t := ticks[..|ticks| - 1], ticks[|ticks| - 1];
    if front == [] {
      assert DecayAt(r, rate, front) == r;
    } else {
      ScheduleScore(r, rate, front);
      var t' := front[|front| - 1];
      RecentTwice(r.factors, HighestCutoff(front), Cutoff(t));
      DecayAdds(rate, r.lastUpdate, t', t);
      DecaySign(rate, r.lastUpdate, t');
      DecaySign(rate, t', t);
    }
  }

  /**
   * Any schedule of ordered decay ticks leaves the score that its last tick alone would leave. It
   * also leaves the same factors exactly when none of those is older than some tick's cutoff, which
   * can only happen to ticks in the clock's first day, where the cutoff wraps around.
   */
  lemma ScheduleDoesNotMatter(r: Risk, rate: real, ticks: seq<Time>)
    requires r.score >= 0.0 && ticks != [] && TicksInOrder(r.lastUpdate, ticks)
    ensures var once := ApplyDecay(r, rate, ticks[|ticks| - 1]);
            && DecayAt(r, rate, ticks).score == once.score
            && (DecayAt(r, rate, ticks) == once
                <==> forall f | f in r.factors && f.timestamp > Cutoff(ticks[|ticks| - 1]) ::
                       f.timestamp > HighestCutoff(ticks))
            && (DAY_MS <= ticks[0] ==> DecayAt(r, rate, ticks) == once)
  {
    ScheduleScore(r, rate, ticks);
    SameRecent(r.factors, Cutoff(ticks[|ticks| - 1]), HighestCutoff(ticks));
  }

  lemma RecentOne(f: Factor, cutoff: int)
    ensures Recent([f], cutoff) == if f.timestamp > cutoff then [f] else []
  {
    assert [f][..0] == [];
  }

  lemma CutoffOfTwo(t: Time, t': Time)
    ensures HighestCutoff([t, t']) == if Cutoff(t) <= Cutoff(t') then Cutoff(t') else Cutoff(t)
  {
    assert [t, t'][..1] == [t] && [t][..0] == [];
    assert HighestCutoff([t]) == Cutoff(t);
  }

  lemma TwoTicks(r: Risk, rate: real, t: Time, t': Time)
    requires r.score >= 0.0 && r.lastUpdate <= t <= t'
    ensures TicksInOrder(r.lastUpdate, [t, t'])
    ensures DecayAt(r, rate, [t, t']).factors
         == Recent(r.factors, if Cutoff(t) <= Cutoff(t') then Cutoff(t') else Cutoff(t))
  {
    ScheduleScore(r, rate, [t, t']);
    CutoffOfTwo(t, t');
  }

  /** The factor a tick in the clock's first day drops although the last tick alone would keep it. */
  lemma FirstDayDropsFactor()
    ensures var r, ticks := Risk(10.0, 1000, [Factor("f", 10.0, 1000)]), [2000, DAY_MS + 500];
            && TicksInOrder(r.lastUpdate, ticks)
            && DecayAt(r, 1.0, ticks).factors == [] && ApplyDecay(r, 1.0, DAY_MS + 500).factors == r.factors
  {
    var f := Factor("f", 10.0, 1000);
    TwoTicks(Risk(10.0, 1000, [f]), 1.0, 2000, DAY_MS + 500);
    RecentOne(f, Cutoff(2000));
    RecentOne(f, Cutoff(DAY_MS + 500));
  }

  // ---------- A clock that steps back ----------

  /** The decay that is due for the time passed: none when no time has. */
  function Owed(ratePerHour: real, from: Time, to: Time): real {
    if to < from then 0.0 else ratePerHour * ((to - from) as real / HOUR_MS)
  }

  /** Decay takes off what is due exactly when the clock has not gone back, or there is nothing to take off. */
  lemma DecayIsOwedIff(r: Risk, rate: real, now: Time)
    requires r.score >= 0.0
    ensures ApplyDecay(r, rate, now).score == Max(r.score - Owed(rate, r.lastUpdate, now), 0.0)
            <==> now >= r.lastUpdate || rate == 0.0 || (rate > 0.0 && r.score == 0.0)
  {
    if now < r.lastUpdate {
      var hours := WrappingSub(now, r.lastUpdate) as real / HOUR_MS;
      if rate > 0.0 {
        ProductPositive(rate, hours);
      } else if rate < 0.0 {
        ProductPositive(-rate, hours);
        assert (-rate) * hours == -(rate * hours);
      }
    }
  }

  lemma LongDecay(rate: real, hours: real)
    requires rate >= 0.001 && hours >= 1000000.0
    ensures rate * hours >= 100.0
  {
    ProductNonNegative(rate - 0.001, hours);
    assert (rate - 0.001) * hours == rate * hours - 0.001 * hours;
  }

  /** A clock that steps back, from any plausible reading, erases the score even at a thousandth per hour. */
  lemma StepBackErases(r: Risk, rate: real, now: Time)
    requires now < r.lastUpdate < TWO_64 / 2 && rate >= 0.001 && r.score <= 100.0
    ensures ApplyDecay(r, rate, now).score == 0.0
  {
    LongDecay(rate, WrappingSub(now, r.lastUpdate) as real / HOUR_MS);
  }

  // ---------- Runs ----------

  datatype Op = Add(name: string, score: real, now: Time) | Decay(rate: real, now: Time)

  function Step(r: Risk, op: Op): Risk {
    match op
    case Add(name, score, now) => AddFactor(r, name, score, now)
    case Decay(rate, now) => ApplyDecay(r, rate, now)
  }

  function NewRisk(now: Time): Risk { Risk(0.0, now, []) }

  function Run(start: Time, ops: seq<Op>): Risk {
    if ops == [] then NewRisk(start) else Step(Run(start, ops[..|ops| - 1]), ops[|ops| - 1])
  }

  ghost predicate NonNegative(ops: seq<Op>) {
    forall i | 0 <= i < |ops| ::
      match ops[i]
      case Add(_, score, _) => score >= 0.0
      case Decay(rate, _) => rate >= 0.0
  }

  /** On every run, whatever the clock does, the score stays between 0 and 100. */
  lemma {:induction false} ScoreInRange(start: Time, ops: seq<Op>)
    requires NonNegative(ops)
    ensures 0.0 <= Run(start, ops).score <= 100.0
  {
    if ops != [] {
      var front, op := ops[..|ops| - 1], ops[|ops| - 1];
      assert forall i | 0 <= i < |front| :: front[i] == ops[i];
      ScoreInRange(start, front);
      if op.Decay? {
        DecaySign(op.rate, Run(start, front).lastUpdate, op.now);
      }
    }
  }

  ghost predicate OnlyAdditions(ops: seq<Op>) {
    forall i | 0 <= i < |ops| :: ops[i].Add? && ops[i].score >= 0.0
  }

  function AddedScore(ops: seq<Op>): real {
    if ops == [] then 0.0
    else AddedScore(ops[..|ops| - 1]) + if ops[|ops| - 1].Add? then ops[|ops| - 1].score else 0.0
  }

  /** Without decay the score is the sum of what was added, cut off at 100. */
  lemma {:induction false} AdditionsAddUp(start: Time, ops: seq<Op>)
    requires OnlyAdditions(ops)
    ensures Run(start, ops).score == Min(AddedScore(ops), 100.0) && AddedScore(ops) >= 0.0
  {
    if ops != [] {
      AdditionsAddUp(start, ops[..|ops| - 1]);
      assert ops[|ops| - 1].Add?;
    }
  }

  /** An hour costs the hourly rate, and factors are kept for 24 of them. */
  lemma HourCostsRate(r: Risk, rate: real, now: Time)
    requires now == r.lastUpdate + 3600000 && r.score >= rate
    ensures ApplyDecay(r, rate, now).score == r.score - rate && DAY_MS == 24 * 3600000
  {
    assert 3600000 as real / HOUR_MS == 1.0;
  }

  function Additions(ops: seq<Op>): seq<Factor> {
    if ops == [] then []
    else
      var added, op := Additions(ops[..|ops| - 1]), ops[|ops| - 1];
      if op.Add? then added + [Factor(op.name, op.score, op.now)] else added
  }

  /** A day before the latest decay. */
  function LatestCutoff(ops: seq<Op>): int {
    if ops == [] then -1
    else if ops[|ops| - 1].Decay? then ops[|ops| - 1].now - DAY_MS
    else LatestCutoff(ops[..|ops| - 1])
  }

  function Latest(start: Time, ops: seq<Op>): Time { if ops == [] then start else ops[|ops| - 1].now }

  ghost predicate InOrder(start: Time, ops: seq<Op>) {
    ops != [] ==>
      InOrder(start, ops[..|ops| - 1]) && Latest(start, ops[..|ops| - 1]) <= Latest(start, ops)
  }

  lemma RecentAppend(factors: seq<Factor>, f: Factor, cutoff: int)
    ensures Recent(factors + [f], cutoff) == Recent(factors, cutoff) + if f.timestamp > cutoff then [f] else []
  {
    assert (factors + [f])[..|factors|] == factors;
  }

  /** The factors alone, without the score. */
  function Held(ops: seq<Op>): seq<Factor> {
    if ops == [] then []
    else
      var held := Held(ops[..|ops| - 1]);
      match ops[|ops| - 1]
      case Add(name, score, now) => held + [Factor(name, score, now)]
      case Decay(_, now) => Recent(held, Cutoff(now))
  }

  lemma {:induction false} RunHolds(start: Time, ops: seq<Op>)
    ensures Run(start, ops).factors == Held(ops)
  {
    if ops != [] {
      RunHolds(start, ops[..|ops| - 1]);
    }
  }

  lemma {:induction false} CutoffIsEarlier(start: Time, ops: seq<Op>)
    requires DAY_MS <= start && InOrder(start, ops)
    ensures start <= Latest(start, ops) && LatestCutoff(ops) <= Latest(start, ops) - DAY_MS
  {
    if ops != [] {
      CutoffIsEarlier(start, ops[..|ops| - 1]);
    }
  }

  lemma HeldAfterAdd(ops: seq<Op>, front: seq<Op>)
    requires ops != [] && front == ops[..|ops| - 1] && ops[|ops| - 1].Add?
    requires Held(front) == Recent(Additions(front), LatestCutoff(front))
    requires LatestCutoff(front) < ops[|ops| - 1].now
    ensures Held(ops) == Recent(Additions(ops), LatestCutoff(ops))
  {
    var op := ops[|ops| - 1];
    RecentAppend(Additions(front), Factor(op.name, op.score, op.now), LatestCutoff(front));
  }

  lemma HeldAfterDecay(ops: seq<Op>, front: seq<Op>)
    requires ops != [] && front == ops[..|ops| - 1] && ops[|ops| - 1].Decay?
    requires Held(front) == Recent(Additions(front), LatestCutoff(front))
    requires LatestCutoff(front) <= ops[|ops| - 1].now - DAY_MS && DAY_MS <= ops[|ops| - 1].now
    ensures Held(ops) == Recent(Additions(ops), LatestCutoff(ops))
  {
    RecentTwice(Additions(front), LatestCutoff(front), ops[|ops| - 1].now - DAY_MS);
  }

  lemma {:induction false} HeldAreRecent(start: Time, ops: seq<Op>)
    requires DAY_MS <= start && InOrder(start, ops)
    ensures Held(ops) == Recent(Additions(ops), LatestCutoff(ops))
  {
    if ops != [] {
      var front := ops[..|ops| - 1];
      CutoffIsEarlier(start, front);
      HeldAreRecent(start, front);
      if ops[|ops| - 1].Add? {
        HeldAfterAdd(ops, front);
      } else {
        HeldAfterDecay(ops, front);
      }
    }
  }

  /** On every ordered run the factors held are the additions later than a day before the latest decay, in order. */
  lemma FactorsAreRecentAdditions(start: Time, ops: seq<Op>)
    requires DAY_MS <= start && InOrder(start, ops)
    ensures Run(start, ops).factors == Recent(Additions(ops), LatestCutoff(ops))
  {
    RunHolds(start, ops);
    HeldAreRecent(start, ops);
  }

  // ---------- The decay an addition skips ----------

  /** What a score kept up to date at the addition would be. */
  function DecayedFirst(r: Risk, rate: real, name: string, score: real, t: Time, end: Time): Risk {
    ApplyDecay(AddFactor(ApplyDecay(r, rate, t), name, score, t), rate, end)
  }

  /**
   * An addition moves the clock without decaying, so the score can only come out higher than if
   * decay had been applied first. The two agree exactly when there was nothing to decay, when the
   * cap hides it, or when the later decay removes everything anyway.
   */
  lemma AdditionSkipsDecay(r: Risk, rate: real, name: string, score: real, t: Time, end: Time)
    requires rate >= 0.0 && 0.0 <= r.score <= 100.0 && score >= 0.0
    ensures var actual := ApplyDecay(AddFactor(r, name, score, t), rate, end);
            var ideal := DecayedFirst(r, rate, name, score, t, end);
            var owed := Min(DecayAmount(rate, r.lastUpdate, t), r.score);
            && actual.score >= ideal.score
            && (actual.score == ideal.score
                <==> owed == 0.0
                     || r.score - owed + score >= 100.0
                     || Min(r.score + score, 100.0) <= DecayAmount(rate, t, end))
  {
    DecaySign(rate, r.lastUpdate, t);
    DecaySign(rate, t, end);
    SkippedArithmetic(r.score, score, DecayAmount(rate, r.lastUpdate, t), DecayAmount(rate, t, end));
  }

  lemma SkippedArithmetic(s: real, f: real, d1: real, d2: real)
    requires 0.0 <= s <= 100.0 && f >= 0.0 && d1 >= 0.0 && d2 >= 0.0
    ensures var actual := Max(Min(s + f, 100.0) - d2, 0.0);
            var ideal := Max(Min(Max(s - d1, 0.0) + f, 100.0) - d2, 0.0);
            var owed := Min(d1, s);
            && actual >= ideal
            && (actual == ideal <==> owed == 0.0 || s - owed + f >= 100.0 || Min(s + f, 100.0) <= d2)
  {
  }

  // ---------- The program ----------

  class Score {
    var score: real
    var lastUpdate: Time
    var factors: seq<Factor>

    ghost var start: Time  // the time of creation
    ghost var ops: seq<Op>  // every addition and decay since

    ghost function View(): Risk
      reads this
    {
      Risk(score, lastUpdate, factors)
    }

    /** The object is in the state the model reaches by the same operations. */
    ghost predicate Valid()
      reads this
    {
      View() == Run(start, ops)
    }

    /** What the history guarantees of the score and of the factors held. */
    ghost predicate Sound()
      reads this
    {
      && (NonNegative(ops) ==> 0.0 <= score <= 100.0)
      && (DAY_MS <= start && InOrder(start, ops) ==> factors == Recent(Additions(ops), LatestCutoff(ops)))
    }

    constructor (now: Time)
      ensures Valid() && start == now && ops == []
    {
      score, lastUpdate, factors := 0.0, now, [];
      start, ops := now, [];
    }

    /** Enter an operation whose effect is already in the fields. */
    ghost method Record(op: Op)
      requires View() == Step(Run(start, ops), op)
      modifies this`ops
      ensures Valid() && Sound() && ops == old(ops) + [op]
    {
      assert (ops + [op])[..|ops|] == ops;
      ops := ops + [op];
      if NonNegative(ops) {
        ScoreInRange(start, ops);
      }
      if DAY_MS <= start && InOrder(start, ops) {
        FactorsAreRecentAdditions(start, ops);
      }
    }

    method Add(name: string, amount: real, now: Time)
      requires Valid()
      modifies this
      ensures Valid() && Sound() && start == old(start) && ops == old(ops) + [Op.Add(name, amount, now)]
    {
      factors := factors + [Factor(name, amount, now)];
      score := Min(score + amount, 100.0);
      lastUpdate := now;
      Record(Op.Add(name, amount, now));
    }

    method Decay(ratePerHour: real, now: Time)
      requires Valid()
      modifies this
      ensures Valid() && Sound() && start == old(start) && ops == old(ops) + [Op.Decay(ratePerHour, now)]
    {
      score := Max(score - DecayAmount(ratePerHour, lastUpdate, now), 0.0);
      lastUpdate := now;
      factors := RetainRecent(factors, WrappingSub(now, DAY_MS));
      Record(Op.Decay(ratePerHour, now));
    }
  }

  method RetainRecent(factors: seq<Factor>, cutoff: Time) returns (kept: seq<Factor>)
    ensures kept == Recent(factors, cutoff)
  {
    kept := [];
    for i := 0 to |factors|
      invariant kept == Recent(factors[..i], cutoff)
    {
      assert factors[..i + 1][..i] == factors[..i];
      if factors[i].timestamp > cutoff {
        kept := kept + [factors[i]];
      }
    }
    assert factors[..|factors|] == factors;
  }
}
