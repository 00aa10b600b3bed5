/** The resource governor: target pressure from usage, and hysteresis before the level moves. */
module ResourceGovernor {
  import opened Collections
  import opened RealFacts

  datatype PressureLevel = Normal | Light | Moderate | Heavy | Critical
  {
    function AsU8(): (n: nat)
      ensures n <= 4 && FromU8(n) == this
    {
      match this
      case Normal => 0
      case Light => 1
      case Moderate => 2
      case Heavy => 3
      case Critical => 4
    }

    function Multiplier(): nat {
      match this
      case Normal => 1
      case Light => 2
      case Moderate => 4
      case Heavy => 8
      case Critical => 16
    }
  }

  function FromU8(v: nat): PressureLevel {
    match v
    case 0 => Normal
    case 1 => Light
    case 2 => Moderate
    case 3 => Heavy
    case _ => Critical
  }

  /** Each level is one above the last and doubles the multiplier. */
  lemma LevelsDouble(v: nat)
    requires v < 4
    ensures FromU8(v).AsU8() == v && FromU8(v + 1).AsU8() == v + 1
    ensures FromU8(0).Multiplier() == 1 && FromU8(v + 1).Multiplier() == 2 * FromU8(v).Multiplier()
  {
  }

  datatype Config = Config(
    cpuLight: real, cpuModerate: real, cpuHeavy: real, cpuCritical: real,
    escalationSamples: nat, deEscalationSamples: nat,
    memorySoftMb: nat, memoryHardMb: nat, diskQuotaMb: nat)

  // ---------- Hysteresis ----------

  datatype Hysteresis = Hysteresis(level: PressureLevel, above: nat, below: nat, published: nat)

  function InitialHysteresis(): Hysteresis { Hysteresis(Normal, 0, 0, 0) }

  function Observe(cfg: Config, s: Hysteresis, target: PressureLevel): Hysteresis {
    if target.AsU8() > s.level.AsU8() then
      if s.above + 1 >= cfg.escalationSamples then Hysteresis(target, 0, 0, target.AsU8())
      else s.(above := s.above + 1, below := 0)
    else if target.AsU8() < s.level.AsU8() then
      if s.below + 1 >= cfg.deEscalationSamples then Hysteresis(target, 0, 0, target.AsU8())
      else s.(above := 0, below := s.below + 1)
    else s.(above := 0, below := 0)
  }

  function RunFrom(cfg: Config, s: Hysteresis, targets: seq<PressureLevel>): Hysteresis {
    if targets == [] then s
    else Observe(cfg, RunFrom(cfg, s, targets[..|targets| - 1]), targets[|targets| - 1])
  }

  function Run(cfg: Config, targets: seq<PressureLevel>): Hysteresis {
    RunFrom(cfg, InitialHysteresis(), targets)
  }

  function LevelAfter(cfg: Config, targets: seq<PressureLevel>): PressureLevel { Run(cfg, targets).level }

  /** One direction of change: `up` looks at samples above the level, otherwise below. */
  predicate Beyond(up: bool, target: PressureLevel, level: PressureLevel) {
    if up then target.AsU8() > level.AsU8() else target.AsU8() < level.AsU8()
  }

  function Counter(up: bool, s: Hysteresis): nat { if up then s.above else s.below }

  /** Samples needed to move: a configured zero acts as one. */
  function Needed(up: bool, cfg: Config): nat {
    var n := if up then cfg.escalationSamples else cfg.deEscalationSamples;
    if n == 0 then 1 else n
  }

  /** The last `m` samples all pointed the same way from `level`, which was the level throughout. */
  ghost predicate Steady(cfg: Config, targets: seq<PressureLevel>, up: bool, m: nat, level: PressureLevel) {
    && m <= |targets|
    && forall i | |targets| - m <= i < |targets| ::
         Beyond(up, targets[i], level) && LevelAfter(cfg, targets[..i]) == level
  }

  lemma {:induction false} PublishedIsLevel(cfg: Config, targets: seq<PressureLevel>)
    ensures var s := Run(cfg, targets);
            && s.published == s.level.AsU8()
            && FromU8(s.published) == s.level
            && (s.above == 0 || s.below == 0)
            && s.above < Needed(true, cfg) && s.below < Needed(false, cfg)
  {
    if targets != [] {
      PublishedIsLevel(cfg, targets[..|targets| - 1]);
    }
  }

  lemma SteadyPrefix(cfg: Config, targets: seq<PressureLevel>, up: bool, m: nat, level: PressureLevel)
    requires targets != [] && m > 0
    ensures var n := |targets| - 1;
            Steady(cfg, targets, up, m, level)
            <==> Beyond(up, targets[n], level) && LevelAfter(cfg, targets[..n]) == level
                 && Steady(cfg, targets[..n], up, m - 1, level)
  {
    var n := |targets| - 1;
    assert forall i | 0 <= i < n :: targets[..n][..i] == targets[..i];
  }

  /** The counter is the length of a steady stretch of samples ending now. */
  lemma {:induction false} CounterIsSteady(cfg: Config, targets: seq<PressureLevel>, up: bool)
    ensures Steady(cfg, targets, up, Counter(up, Run(cfg, targets)), LevelAfter(cfg, targets))
  {
    if targets != [] {
      var front := targets[..|targets| - 1];
      CounterIsSteady(cfg, front, up);
      var c := Counter(up, Run(cfg, targets));
      if c > 0 {
        SteadyPrefix(cfg, targets, up, c, LevelAfter(cfg, targets));
      }
    }
  }

  /** A steady stretch that has not moved the level is all in the counter. */
  lemma {:induction false} SteadyFillsCounter(cfg: Config, targets: seq<PressureLevel>, up: bool, m: nat)
    requires Steady(cfg, targets, up, m, LevelAfter(cfg, targets))
    ensures Counter(up, Run(cfg, targets)) >= m
    decreases m
  {
    if m > 0 {
      var front := targets[..|targets| - 1];
      SteadyPrefix(cfg, targets, up, m, LevelAfter(cfg, targets));
      SteadyFillsCounter(cfg, front, up, m - 1);
    }
  }

  /**
   * The level moves up (down) at a sample exactly when that sample ends a steady stretch of the
   * configured number of samples above (below) it, and it moves to that sample's target.
   */
  lemma LevelMovesIff(cfg: Config, targets: seq<PressureLevel>, up: bool)
    requires targets != []
    ensures var n := |targets| - 1;
            var level := LevelAfter(cfg, targets[..n]);
            && (Beyond(up, LevelAfter(cfg, targets), level)
                <==> Steady(cfg, targets, up, Needed(up, cfg), level))
            && (LevelAfter(cfg, targets) == level || LevelAfter(cfg, targets) == targets[n])
  {
    var n := |targets| - 1;
    var front := targets[..n];
    var level := LevelAfter(cfg, front);
    var needed := Needed(up, cfg);
    PublishedIsLevel(cfg, front);
    SteadyPrefix(cfg, targets, up, needed, level);
    CounterIsSteady(cfg, front, up);
    if Steady(cfg, targets, up, needed, level) {
      SteadyFillsCounter(cfg, front, up, needed - 1);
    }
  }

  /** From any state, enough samples with one target settle on it. */
  lemma {:induction false} Settles(cfg: Config, s: Hysteresis, targets: seq<PressureLevel>, target: PressureLevel)
    requires forall i | 0 <= i < |targets| :: targets[i] == target
    ensures var r := RunFrom(cfg, s, targets);
            || r.level == target
            || (Beyond(true, target, r.level) && r.above >= |targets| && |targets| < Needed(true, cfg))
            || (Beyond(false, target, r.level) && r.below >= |targets| && |targets| < Needed(false, cfg))
  {
    if targets != [] {
      Settles(cfg, s, targets[..|targets| - 1], target);
    }
  }

  lemma {:induction false} RunFromConcat(cfg: Config, s: Hysteresis, a: seq<PressureLevel>, b: seq<PressureLevel>)
    ensures RunFrom(cfg, s, a + b) == RunFrom(cfg, RunFrom(cfg, s, a), b)
  {
    if b == [] {
      assert a + b == a;
    } else {
      assert (a + b)[..|a + b| - 1] == a + b[..|b| - 1];
      RunFromConcat(cfg, s, a, b[..|b| - 1]);
    }
  }

  /** After any history, the larger of the two sample counts with one target ends at that target. */
  lemma ConstantTargetReached(cfg: Config, history: seq<PressureLevel>, tail: seq<PressureLevel>, target: PressureLevel)
    requires |tail| >= Needed(true, cfg) && |tail| >= Needed(false, cfg)
    requires forall i | 0 <= i < |tail| :: tail[i] == target
    ensures LevelAfter(cfg, history + tail) == target
  {
    RunFromConcat(cfg, InitialHysteresis(), history, tail);
    Settles(cfg, Run(cfg, history), tail, target);
  }

  function Changes(cfg: Config, targets: seq<PressureLevel>): nat {
    if targets == [] then 0
    else
      var front := targets[..|targets| - 1];
      Changes(cfg, front) + if LevelAfter(cfg, targets) != LevelAfter(cfg, front) then 1 else 0
  }

  /** No flapping: every change of level uses up as many samples as the smaller setting demands. */
  lemma {:induction false} ChangesAreSpaced(cfg: Config, targets: seq<PressureLevel>, spacing: nat)
    requires spacing <= Needed(true, cfg) && spacing <= Needed(false, cfg)
    ensures Changes(cfg, targets) * spacing + Run(cfg, targets).above + Run(cfg, targets).below <= |targets|
  {
    if targets != [] {
      var front := targets[..|targets| - 1];
      ChangesAreSpaced(cfg, front, spacing);
      PublishedIsLevel(cfg, front);
      assert (Changes(cfg, front) + 1) * spacing == Changes(cfg, front) * spacing + spacing;
    }
  }

  // ---------- The target ----------

  function Worse(a: PressureLevel, b: PressureLevel): PressureLevel { if a.AsU8() > b.AsU8() then a else b }

  function CpuTarget(cfg: Config, avg: real): PressureLevel {
    if avg >= cfg.cpuCritical then Critical
    else if avg >= cfg.cpuHeavy then Heavy
    else if avg >= cfg.cpuModerate then Moderate
    else if avg >= cfg.cpuLight then Light
    else Normal
  }

  function MemoryTarget(cfg: Config, memMb: nat): PressureLevel {
    if memMb >= cfg.memoryHardMb then Heavy else if memMb >= cfg.memorySoftMb then Moderate else Normal
  }

  function DiskTarget(cfg: Config, sizeMb: nat): PressureLevel {
    if cfg.diskQuotaMb == 0 then Normal
    else
      var percent := sizeMb as real / cfg.diskQuotaMb as real * 100.0;
      if percent >= 95.0 then Heavy else if percent >= 80.0 then Moderate
      else if percent >= 60.0 then Light else Normal
  }

  function Target(cfg: Config, averageCpu: real, memMb: nat, diskMb: nat): PressureLevel {
    Worse(CpuTarget(cfg, averageCpu), Worse(MemoryTarget(cfg, memMb), DiskTarget(cfg, diskMb)))
  }

  /** The queue takes up at least this many percent of its quota, if it has one. */
  predicate QuotaUsed(cfg: Config, diskMb: nat, percent: nat) {
    cfg.diskQuotaMb > 0 && 100 * diskMb >= percent * cfg.diskQuotaMb
  }

  lemma DiskThreshold(diskMb: nat, quotaMb: nat, percent: nat)
    requires quotaMb > 0
    ensures diskMb as real / quotaMb as real * 100.0 >= percent as real <==> 100 * diskMb >= percent * quotaMb
  {
    var used := diskMb as real / quotaMb as real;
    QuotientAtLeast(diskMb as real, quotaMb as real, percent as real / 100.0);
    assert used * 100.0 >= percent as real <==> used >= percent as real / 100.0;
    assert percent as real / 100.0 * quotaMb as real == (percent * quotaMb) as real / 100.0;
  }

  /** When the target is at least each level, by the three readings. */
  lemma TargetAtLeast(cfg: Config, cpu: real, mem: nat, disk: nat)
    ensures var target := Target(cfg, cpu, mem, disk).AsU8();
            var heavy := cpu >= cfg.cpuHeavy || mem >= cfg.memoryHardMb || QuotaUsed(cfg, disk, 95);
            var moderate := cpu >= cfg.cpuModerate || mem >= cfg.memorySoftMb || QuotaUsed(cfg, disk, 80);
            var light := cpu >= cfg.cpuLight || QuotaUsed(cfg, disk, 60);
            && (target >= 4 <==> cpu >= cfg.cpuCritical)
            && (target >= 3 <==> cpu >= cfg.cpuCritical || heavy)
            && (target >= 2 <==> cpu >= cfg.cpuCritical || heavy || moderate)
            && (target >= 1 <==> cpu >= cfg.cpuCritical || heavy || moderate || light)
  {
    if cfg.diskQuotaMb > 0 {
      DiskThreshold(disk, cfg.diskQuotaMb, 95);
      DiskThreshold(disk, cfg.diskQuotaMb, 80);
      DiskThreshold(disk, cfg.diskQuotaMb, 60);
    }
  }

  lemma DiskMonotone(cfg: Config, disk: nat, disk': nat)
    requires disk <= disk'
    ensures DiskTarget(cfg, disk).AsU8() <= DiskTarget(cfg, disk').AsU8()
  {
    if cfg.diskQuotaMb > 0 {
      QuotientMonotone(disk as real, disk' as real, cfg.diskQuotaMb as real);
    }
  }

  /** More load, memory or disk use never lowers the target. */
  lemma TargetMonotone(cfg: Config, cpu: real, mem: nat, disk: nat, cpu': real, mem': nat, disk': nat)
    requires cpu <= cpu' && mem <= mem' && disk <= disk'
    ensures Target(cfg, cpu, mem, disk).AsU8() <= Target(cfg, cpu', mem', disk').AsU8()
  {
    DiskMonotone(cfg, disk, disk');
  }

  // ---------- The program ----------

  /** The cell shared with the collectors. */
  class PressureCell {
    var value: nat

    constructor ()
      ensures value == 0
    {
      value := 0;
    }
  }

  class Governor {
    const cfg: Config
    const cell: PressureCell
    var cpuSamples: seq<real>
    var aboveCount: nat
    var belowCount: nat
    var currentLevel: PressureLevel

    ghost var targets: seq<PressureLevel>  // every target so far
    ghost var loads: seq<real>  // every processor sample so far

    ghost function View(): Hysteresis
      reads this, cell
    {
      Hysteresis(currentLevel, aboveCount, belowCount, cell.value)
    }

    /** The object is in the state the model reaches on the same samples. */
    ghost predicate Valid()
      reads this, cell
    {
      View() == Run(cfg, targets) && cpuSamples == LastUpTo(loads, 8)
    }

    constructor (cfg: Config)
      ensures Valid() && this.cfg == cfg && fresh(cell) && targets == [] && loads == []
    {
      this.cfg := cfg;
      cell := new PressureCell();
      cpuSamples, aboveCount, belowCount, currentLevel := [], 0, 0, Normal;
      targets, loads := [], [];
    }

    method SetLevel(level: PressureLevel)
      requires cell.value == currentLevel.AsU8()
      modifies this`currentLevel, cell
      ensures currentLevel == level && cell.value == level.AsU8()
    {
      if level != currentLevel {
        currentLevel := level;
        cell.value := level.AsU8();
      }
    }

    /** One sample: smooth the processor load over the last eight, take the worst target, apply hysteresis. */
    method Sample(cpu: real, rssBytes: nat, diskMb: nat) returns (target: PressureLevel)
      requires Valid()
      modifies this, cell
      ensures Valid() && targets == old(targets) + [target] && loads == old(loads) + [cpu]
      ensures var recent := LastUpTo(loads, 8);
              target == Target(cfg, Sum(recent) / |recent| as real, rssBytes / 1048576, diskMb)
      ensures cell.value == currentLevel.AsU8()
    {
      PublishedIsLevel(cfg, targets);
      var average := Smooth(cpu);
      target := Worse(CpuTarget(cfg, average),
                      Worse(MemoryTarget(cfg, rssBytes / 1048576), DiskTarget(cfg, diskMb)));
      ApplyHysteresis(target);
      assert (targets + [target])[..|targets|] == targets;
      targets := targets + [target];
    }

    /** The mean of the last eight processor samples, this one included. */
    method Smooth(cpu: real) returns (average: real)
      requires cpuSamples == LastUpTo(loads, 8)
      modifies this`cpuSamples, this`loads
      ensures loads == old(loads) + [cpu] && cpuSamples == LastUpTo(loads, 8) != []
      ensures average == Sum(cpuSamples) / |cpuSamples| as real
    {
      LastUpToAfter(loads, cpu, 8);
      cpuSamples := cpuSamples + [cpu];
      if |cpuSamples| > 8 {
        cpuSamples := cpuSamples[1..];
      }
      loads := loads + [cpu];
      average := Sum(cpuSamples) / |cpuSamples| as real;
    }

    method ApplyHysteresis(target: PressureLevel)
      requires cell.value == currentLevel.AsU8()
      modifies this`currentLevel, this`aboveCount, this`belowCount, cell
      ensures View() == Observe(cfg, old(View()), target)
      ensures cell.value == currentLevel.AsU8()
    {
      if target.AsU8() > currentLevel.AsU8() {
        belowCount := 0;
        aboveCount := aboveCount + 1;
        if aboveCount >= cfg.escalationSamples {
          SetLevel(target);
          aboveCount := 0;
        }
      } else if target.AsU8() < currentLevel.AsU8() {
        aboveCount := 0;
        belowCount := belowCount + 1;
        if belowCount >= cfg.deEscalationSamples {
          SetLevel(target);
          belowCount := 0;
        }
      } else {
        aboveCount := 0;
        belowCount := 0;
      }
    }

    /** What a collector reads through the shared cell. */
    method PressureLevelNow() returns (level: PressureLevel)
      requires Valid()
      ensures level == LevelAfter(cfg, targets)
    {
      PublishedIsLevel(cfg, targets);
      level := FromU8(cell.value);
    }
  }
}
