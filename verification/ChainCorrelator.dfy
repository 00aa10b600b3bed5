/** Behavioral chain correlation: every event joins a live chain or starts one. */
module ChainCorrelator {
  import opened Collections
  import opened IntegerFacts
  import opened Options
  import opened ChainPatterns
  import opened ProcessAncestry
  import opened RealFacts

  const MAX_ACTIVE_CHAINS := 1000

  /** Chain ids stand for the random ids of the program: never issued twice. */
  type ChainId = nat

  datatype Event = Event(timestamp: nat, pid: Pid, parentPid: Pid, eventType: EventType, technique: Option<string>)

  datatype Chain = Chain(
    events: seq<Event>, processes: set<Pid>, techniques: seq<string>, tactics: seq<Tactic>,
    createdAt: nat, lastEventAt: nat,
    confidence: real, matched: Option<Pattern>, severity: Severity)

  datatype Config = Config(patterns: seq<Pattern>, windowMs: nat)

  datatype State = State(chains: map<ChainId, Chain>, buffer: seq<Event>, ancestry: map<Pid, Pid>, nextId: ChainId)

  // ---------- One chain ----------

  function AddOnce<T(==)>(xs: seq<T>, x: T): seq<T> { if x in xs then xs else xs + [x] }

  function NewChain(e: Event): Chain {
    Chain([e], {e.pid}, if e.technique.Some? then [e.technique.value] else [], [e.eventType.MitreTactic()],
          e.timestamp, e.timestamp, 0.1, None, Low)
  }

  /** Confidence of a chain that matches no pattern. */
  function FallbackConfidence(tactics: nat, events: nat, processes: nat): real {
    Min(Min(tactics as real / 5.0, 1.0) * 0.5 + Min(events as real / 10.0, 1.0) * 0.3
        + Min(processes as real / 5.0, 1.0) * 0.2, 0.7)
  }

  function AtMost(n: nat, most: nat): real { if n <= most then n as real else most as real }

  /** A tenth for each of five tactics, 0.03 for each of ten events, 0.04 for each of five processes; 0.7 in all. */
  lemma FallbackShares(tactics: nat, events: nat, processes: nat)
    ensures var sum := 0.1 * AtMost(tactics, 5) + 0.03 * AtMost(events, 10) + 0.04 * AtMost(processes, 5);
            FallbackConfidence(tactics, events, processes) == if sum <= 0.7 then sum else 0.7
  {
  }

  function Types(es: seq<Event>): (ts: seq<EventType>)
    ensures |ts| == |es| && forall i | 0 <= i < |es| :: ts[i] == es[i].eventType
  {
    seq(|es|, i requires 0 <= i < |es| => es[i].eventType)
  }

  /** An earlier match is left standing when no pattern matches now. */
  function UpdateChainAnalysis(patterns: seq<Pattern>, c: Chain): Chain {
    var best := BestMatch(patterns, Types(c.events));
    var matched := if best.Some? then Some(best.value.pattern) else c.matched;
    var confidence := if best.Some? then best.value.confidence
                      else FallbackConfidence(|c.tactics|, |c.events|, |c.processes|);
    c.(matched := matched, confidence := confidence, severity := SeverityFromConfidence(confidence, |c.tactics|))
  }

  function JoinChain(patterns: seq<Pattern>, c: Chain, e: Event): Chain {
    UpdateChainAnalysis(patterns, c.(
      events := c.events + [e],
      processes := c.processes + {e.pid},
      lastEventAt := e.timestamp,
      techniques := if e.technique.Some? then AddOnce(c.techniques, e.technique.value) else c.techniques,
      tactics := AddOnce(c.tactics, e.eventType.MitreTactic())))
  }

  // ---------- What a chain says about its events ----------

  /** Elements in order of first occurrence. */
  function Distinct<T(==)>(xs: seq<T>): seq<T> {
    if xs == [] then [] else AddOnce(Distinct(xs[..|xs| - 1]), xs[|xs| - 1])
  }

  lemma {:induction false} DistinctMeaning<T>(xs: seq<T>)
    ensures forall x :: x in Distinct(xs) <==> x in xs
    ensures forall i, j | 0 <= i < j < |Distinct(xs)| :: Distinct(xs)[i] != Distinct(xs)[j]
  {
    if xs != [] {
      DistinctMeaning(xs[..|xs| - 1]);
      assert xs == xs[..|xs| - 1] + [xs[|xs| - 1]];
    }
  }

  function Pids(es: seq<Event>): set<Pid> { set e | e in es :: e.pid }

  function Tactics(es: seq<Event>): (ts: seq<Tactic>)
    ensures |ts| == |es| && forall i | 0 <= i < |es| :: ts[i] == es[i].eventType.MitreTactic()
  {
    seq(|es|, i requires 0 <= i < |es| => es[i].eventType.MitreTactic())
  }

  function Techniques(es: seq<Event>): seq<string> {
    if es == [] then []
    else
      var t := es[|es| - 1].technique;
      Techniques(es[..|es| - 1]) + if t.Some? then [t.value] else []
  }

  /** The verdict fields are those of the whole event list; a one-event chain is not analysed. */
  ghost predicate VerdictOf(patterns: seq<Pattern>, c: Chain) {
    var best := BestMatch(patterns, Types(c.events));
    if |c.events| == 1 then c.confidence == 0.1 && c.matched == None && c.severity == Low
    else
      && c.severity == SeverityFromConfidence(c.confidence, |c.tactics|)
      && if best.Some? then c.matched == Some(best.value.pattern) && c.confidence == best.value.confidence
         else c.matched == None && c.confidence == FallbackConfidence(|c.tactics|, |c.events|, |c.processes|)
  }

  /** Every field of the chain is determined by the events in it. */
  ghost predicate Describes(patterns: seq<Pattern>, c: Chain, es: seq<Event>) {
    && es != [] && c.events == es
    && c.processes == Pids(es)
    && c.techniques == Distinct(Techniques(es))
    && c.tactics == Distinct(Tactics(es))
    && c.createdAt == es[0].timestamp
    && c.lastEventAt == es[|es| - 1].timestamp
    && VerdictOf(patterns, c)
  }

  lemma NewChainDescribes(patterns: seq<Pattern>, e: Event)
    ensures Describes(patterns, NewChain(e), [e])
  {
    assert Tactics([e]) == [e.eventType.MitreTactic()];
    assert Techniques([]) == [];
    assert [e][..0] == [];
    var t := Techniques([e]);
    assert t == if e.technique.Some? then [e.technique.value] else [];
    if e.technique.Some? {
      assert t[..0] == [];
    }
    var u := Tactics([e]);
    assert u[..0] == [];
  }

  lemma DistinctSnoc<T>(xs: seq<T>, x: T)
    ensures Distinct(xs + [x]) == AddOnce(Distinct(xs), x)
  {
    assert (xs + [x])[..|xs|] == xs;
  }

  lemma JoinKeepsTechniques(patterns: seq<Pattern>, c: Chain, es: seq<Event>, e: Event)
    requires c.techniques == Distinct(Techniques(es))
    ensures JoinChain(patterns, c, e).techniques == Distinct(Techniques(es + [e]))
  {
    assert (es + [e])[..|es|] == es;
    if e.technique.Some? {
      DistinctSnoc(Techniques(es), e.technique.value);
    } else {
      assert Techniques(es + [e]) == Techniques(es);
    }
  }

  lemma JoinKeepsTactics(patterns: seq<Pattern>, c: Chain, es: seq<Event>, e: Event)
    requires c.tactics == Distinct(Tactics(es))
    ensures JoinChain(patterns, c, e).tactics == Distinct(Tactics(es + [e]))
  {
    assert Tactics(es + [e]) == Tactics(es) + [e.eventType.MitreTactic()];
    DistinctSnoc(Tactics(es), e.eventType.MitreTactic());
  }

  lemma JoinKeepsPids(patterns: seq<Pattern>, c: Chain, es: seq<Event>, e: Event)
    requires c.processes == Pids(es)
    ensures JoinChain(patterns, c, e).processes == Pids(es + [e])
  {
  }

  lemma JoinKeepsVerdict(patterns: seq<Pattern>, c: Chain, e: Event)
    requires NonNegative(patterns) && c.events != [] && VerdictOf(patterns, c)
    ensures VerdictOf(patterns, JoinChain(patterns, c, e))
  {
    assert Types(c.events + [e]) == Types(c.events) + [e.eventType];
    if BestMatch(patterns, Types(c.events)).Some? {
      BestMonotone(patterns, Types(c.events), e.eventType);
    }
  }

  /** Joining keeps the chain in agreement with its events: the stale match is never kept wrongly. */
  lemma JoinDescribes(patterns: seq<Pattern>, c: Chain, es: seq<Event>, e: Event)
    requires NonNegative(patterns) && Describes(patterns, c, es)
    ensures Describes(patterns, JoinChain(patterns, c, e), es + [e])
  {
    JoinKeepsPids(patterns, c, es, e);
    JoinKeepsTechniques(patterns, c, es, e);
    JoinKeepsTactics(patterns, c, es, e);
    JoinKeepsVerdict(patterns, c, e);
  }

  // ---------- One step of the analyzer ----------

  /** Same process family, or close enough in time to the chain's latest event. */
  predicate Joins(cfg: Config, related: set<Pid>, c: Chain, e: Event) {
    || c.processes * related != {}
    || SaturatingSub(e.timestamp, c.lastEventAt) < cfg.windowMs
  }

  function AncestryAfter(s: State, e: Event): map<Pid, Pid> {
    if e.parentPid != 0 then s.ancestry[e.pid := e.parentPid] else s.ancestry
  }

  function Trim(buffer: seq<Event>, cutoff: nat): seq<Event> {
    if buffer != [] && buffer[0].timestamp < cutoff then Trim(buffer[1..], cutoff) else buffer
  }

  function Touch(cfg: Config, s: State, e: Event, id: ChainId): map<ChainId, Chain> {
    s.chains[id := if id in s.chains then JoinChain(cfg.patterns, s.chains[id], e) else NewChain(e)]
  }

  function Retain(chains: map<ChainId, Chain>, cutoff: nat): map<ChainId, Chain> {
    map id | id in chains && chains[id].lastEventAt >= cutoff :: chains[id]
  }

  /** Outcomes of removing a chain with the earliest last event until the limit is met. */
  ghost predicate Capped(before: map<ChainId, Chain>, after: map<ChainId, Chain>) {
    && after.Keys <= before.Keys
    && (forall id | id in after :: after[id] == before[id])
    && |after| == (if |before| <= MAX_ACTIVE_CHAINS then |before| else MAX_ACTIVE_CHAINS)
    && forall x, y | x in before && x !in after && y in after :: before[x].lastEventAt <= after[y].lastEventAt
  }

  /** Which chain the event goes to, when the maps are visited in some order. */
  ghost predicate Chooses(cfg: Config, s: State, e: Event, order: seq<Pid>, touched: ChainId) {
    var parents := AncestryAfter(s, e);
    && Enumerates(order, parents.Keys)
    && var related := RelatedProcesses(parents, e.pid, order);
       if exists id :: id in s.chains && Joins(cfg, related, s.chains[id], e)
       then touched in s.chains && Joins(cfg, related, s.chains[touched], e)
       else touched == s.nextId
  }

  /** Outcomes for the chain map once the event went to `touched`: expiry, then the limit. */
  ghost predicate Prunes(cfg: Config, e: Event, touchedMap: map<ChainId, Chain>, after: map<ChainId, Chain>) {
    Capped(Retain(touchedMap, SaturatingSub(e.timestamp, cfg.windowMs * 2)), after)
  }

  /** `s` may become `s'` on event `e`, which goes to chain `touched`. */
  ghost predicate Step(cfg: Config, s: State, e: Event, touched: ChainId, s': State) {
    && (exists order :: Chooses(cfg, s, e, order, touched))
    && s'.nextId == (if touched in s.chains then s.nextId else s.nextId + 1)
    && s'.ancestry == AncestryAfter(s, e)
    && s'.buffer == Trim(s.buffer + [e], SaturatingSub(e.timestamp, cfg.windowMs))
    && Prunes(cfg, e, Touch(cfg, s, e, touched), s'.chains)
  }

  function InitialState(): State { State(map[], [], map[], 0) }

  // ---------- Runs ----------

  /** A run with its history: each event, the chain it went to, and the state it led to. */
  datatype Run = Start | After(before: Run, event: Event, owner: ChainId, state: State)
  {
    function Final(): State { if Start? then InitialState() else state }

    function Events(): seq<Event> { if Start? then [] else before.Events() + [event] }

    /** The events that went to one chain, in order. */
    function Owned(id: ChainId): seq<Event> {
      if Start? then [] else before.Owned(id) + if owner == id then [event] else []
    }

    /** Every step is one the analyzer may take. */
    ghost predicate Valid(cfg: Config) {
      After? ==> before.Valid(cfg) && Step(cfg, before.Final(), event, owner, state)
    }

    /** Timestamps do not go back. */
    predicate Ordered() {
      After? ==> before.Ordered() && (before.After? ==> before.event.timestamp <= event.timestamp)
    }

    /** `this` is an earlier stage of `later`. */
    predicate PrefixOf(later: Run)
      decreases later
    {
      this == later || (later.After? && PrefixOf(later.before))
    }
  }

  ghost predicate Nondecreasing(es: seq<Event>) {
    forall i, j | 0 <= i < j < |es| :: es[i].timestamp <= es[j].timestamp
  }

  ghost predicate CreatedApart(chains: map<ChainId, Chain>, gap: nat) {
    forall i, j | i in chains && j in chains && i < j :: chains[i].createdAt + gap <= chains[j].createdAt
  }

  ghost predicate SplitsAt(es: seq<Event>, cutoff: nat, k: nat) {
    && k <= |es|
    && (forall i | 0 <= i < k :: es[i].timestamp < cutoff)
    && (forall i | k <= i < |es| :: es[i].timestamp >= cutoff)
  }

  /** The buffer is the part of the history inside the window. */
  ghost predicate BufferIsWindow(es: seq<Event>, buffer: seq<Event>, cutoff: nat) {
    exists k: nat :: SplitsAt(es, cutoff, k) && buffer == es[k..]
  }

  /** Ids not yet handed out name no chain and own no event. */
  ghost predicate IdsOk(run: Run) {
    var s := run.Final();
    && (forall id | id >= s.nextId :: run.Owned(id) == [])
    && (forall id | id in s.chains :: id < s.nextId)
  }

  /** Each live chain holds exactly the events that went to it. */
  ghost predicate ChainsMatchHistory(cfg: Config, run: Run) {
    forall id | id in run.Final().chains :: Describes(cfg.patterns, run.Final().chains[id], run.Owned(id))
  }

  /** Ages of the live chains at time `now`. */
  ghost predicate TimesOk(windowMs: nat, now: nat, chains: map<ChainId, Chain>) {
    && CreatedApart(chains, windowMs)
    && |chains| <= MAX_ACTIVE_CHAINS
    && forall id | id in chains ::
         SaturatingSub(now, windowMs * 2) <= chains[id].lastEventAt <= now
         && chains[id].createdAt <= chains[id].lastEventAt
  }

  /** The chain touched last is live and no chain is out of date. */
  ghost predicate AgesOk(cfg: Config, run: Run) {
    var s := run.Final();
    && (forall id | id in s.chains :: id < s.nextId)
    && if run.Start? then s.chains == map[]
    else
      && TimesOk(cfg.windowMs, run.event.timestamp, s.chains)
      && run.owner in s.chains && s.chains[run.owner].lastEventAt == run.event.timestamp
  }

  /** A chain is started only when every live chain has been silent for the whole window. */
  lemma NewChainNeedsSilence(cfg: Config, s: State, e: Event, order: seq<Pid>, touched: ChainId)
    requires Chooses(cfg, s, e, order, touched) && touched !in s.chains
    ensures Silent(s.chains, e.timestamp, cfg.windowMs)
  {
    var related := RelatedProcesses(AncestryAfter(s, e), e.pid, order);
    forall id | id in s.chains ensures SaturatingSub(e.timestamp, s.chains[id].lastEventAt) >= cfg.windowMs {
      assert !Joins(cfg, related, s.chains[id], e);
    }
  }

  lemma {:induction false} FreshIds(cfg: Config, run: Run)
    requires run.Valid(cfg)
    ensures IdsOk(run)
  {
    if run.After? {
      FreshIds(cfg, run.before);
      var all := Touch(cfg, run.before.Final(), run.event, run.owner);
      assert run.state.chains.Keys <= all.Keys;
    }
  }

  lemma TouchedDescribes(cfg: Config, run: Run)
    requires NonNegative(cfg.patterns) && run.After? && run.Valid(cfg) && ChainsMatchHistory(cfg, run.before)
    requires IdsOk(run.before)
    ensures var all := Touch(cfg, run.before.Final(), run.event, run.owner);
            Describes(cfg.patterns, all[run.owner], run.Owned(run.owner))
  {
    var s := run.before.Final();
    if run.owner in s.chains {
      JoinDescribes(cfg.patterns, s.chains[run.owner], run.before.Owned(run.owner), run.event);
    } else {
      NewChainDescribes(cfg.patterns, run.event);
      assert [] + [run.event] == [run.event];
    }
  }

  lemma UntouchedDescribes(cfg: Config, run: Run, id: ChainId)
    requires run.After? && run.Valid(cfg) && ChainsMatchHistory(cfg, run.before)
    requires id in run.state.chains && id != run.owner
    ensures Describes(cfg.patterns, run.state.chains[id], run.Owned(id))
  {
    var s := run.before.Final();
    assert run.state.chains[id] == Touch(cfg, s, run.event, run.owner)[id] == s.chains[id];
    assert run.Owned(id) == run.before.Owned(id);
  }

  lemma StepDescribes(cfg: Config, run: Run, id: ChainId)
    requires NonNegative(cfg.patterns) && run.After? && run.Valid(cfg) && ChainsMatchHistory(cfg, run.before)
    requires IdsOk(run.before) && id in run.state.chains
    ensures Describes(cfg.patterns, run.state.chains[id], run.Owned(id))
  {
    if id == run.owner {
      TouchedDescribes(cfg, run);
      assert run.state.chains[id] == Touch(cfg, run.before.Final(), run.event, run.owner)[id];
    } else {
      UntouchedDescribes(cfg, run, id);
    }
  }

  /** What the touch does to the chain map, leaving out the contents of the touched chain. */
  ghost predicate Touches(chains: map<ChainId, Chain>, touched: ChainId, now: nat, all: map<ChainId, Chain>) {
    && all.Keys == chains.Keys + {touched}
    && (forall id | id in chains && id != touched :: all[id] == chains[id])
    && all[touched].lastEventAt == now
    && all[touched].createdAt == (if touched in chains then chains[touched].createdAt else now)
  }

  /** Every chain has been silent for the whole window. */
  ghost predicate Silent(chains: map<ChainId, Chain>, now: nat, windowMs: nat) {
    forall id | id in chains :: SaturatingSub(now, chains[id].lastEventAt) >= windowMs
  }

  /** Only a new chain can bring the number over the limit. */
  lemma OverflowMeansNew(chains: map<ChainId, Chain>, touched: ChainId,
                         all: map<ChainId, Chain>, kept: map<ChainId, Chain>)
    requires |chains| <= MAX_ACTIVE_CHAINS && all.Keys == chains.Keys + {touched} && kept.Keys <= all.Keys
    requires |kept| > MAX_ACTIVE_CHAINS
    ensures touched !in chains
  {
    SubmapSize(kept, all);
    assert touched in chains ==> all.Keys == chains.Keys;
  }

  /** The chain just touched survives expiry and the limit. */
  lemma TouchedSurvives(cfg: Config, chains: map<ChainId, Chain>, e: Event, touched: ChainId,
                        all: map<ChainId, Chain>, after: map<ChainId, Chain>)
    requires cfg.windowMs > 0 && |chains| <= MAX_ACTIVE_CHAINS
    requires Touches(chains, touched, e.timestamp, all) && Prunes(cfg, e, all, after)
    requires touched !in chains ==> Silent(chains, e.timestamp, cfg.windowMs)
    ensures touched in after && |after| <= MAX_ACTIVE_CHAINS
  {
    var kept := Retain(all, SaturatingSub(e.timestamp, cfg.windowMs * 2));
    assert touched in kept;
    if |kept| > MAX_ACTIVE_CHAINS {
      OverflowMeansNew(chains, touched, all, kept);
      assert after.Keys != {};
      var other :| other in after;
    } else {
      SubmapSize(after, kept);
    }
  }

  /** `after` holds some of the chains of `all`, none of them silent since `cutoff`. */
  ghost predicate KeepsRecent(all: map<ChainId, Chain>, cutoff: nat, after: map<ChainId, Chain>) {
    forall id | id in after :: id in all && after[id] == all[id] && after[id].lastEventAt >= cutoff
  }

  lemma PruneKeepsRecent(cfg: Config, e: Event, all: map<ChainId, Chain>, after: map<ChainId, Chain>)
    requires Prunes(cfg, e, all, after)
    ensures KeepsRecent(all, SaturatingSub(e.timestamp, cfg.windowMs * 2), after)
  {
  }

  lemma ApartAfter(windowMs: nat, chains: map<ChainId, Chain>, now: nat, touched: ChainId,
                   all: map<ChainId, Chain>, after: map<ChainId, Chain>)
    requires CreatedApart(chains, windowMs) && Touches(chains, touched, now, all) && KeepsRecent(all, 0, after)
    requires forall id | id in chains :: chains[id].createdAt <= chains[id].lastEventAt <= now
    requires touched !in chains ==> Silent(chains, now, windowMs) && forall id | id in chains :: id < touched
    ensures CreatedApart(after, windowMs)
  {
    forall i, j | i in after && j in after && i < j ensures after[i].createdAt + windowMs <= after[j].createdAt {
      if touched in chains {
        assert all[i].createdAt == chains[i].createdAt && all[j].createdAt == chains[j].createdAt;
      } else if j == touched {
        assert chains[i].createdAt <= chains[i].lastEventAt;
      }
    }
  }

  lemma AgeAfter(cutoff: nat, now: nat, chains: map<ChainId, Chain>, touched: ChainId,
                 all: map<ChainId, Chain>, after: map<ChainId, Chain>, id: ChainId)
    requires forall i | i in chains :: chains[i].createdAt <= chains[i].lastEventAt <= now
    requires Touches(chains, touched, now, all) && KeepsRecent(all, cutoff, after) && id in after
    ensures cutoff <= after[id].lastEventAt <= now && after[id].createdAt <= after[id].lastEventAt
  {
    assert after[id] == all[id];
    if id != touched {
      assert all[id] == chains[id];
    }
  }

  lemma TimesAfter(windowMs: nat, now: nat, chains: map<ChainId, Chain>, now': nat, touched: ChainId,
                   all: map<ChainId, Chain>, after: map<ChainId, Chain>)
    requires TimesOk(windowMs, now, chains) && now <= now' && |after| <= MAX_ACTIVE_CHAINS
    requires Touches(chains, touched, now', all) && KeepsRecent(all, SaturatingSub(now', windowMs * 2), after)
    requires touched !in chains ==> Silent(chains, now', windowMs) && forall id | id in chains :: id < touched
    ensures TimesOk(windowMs, now', after)
  {
    ApartAfter(windowMs, chains, now', touched, all, after);
    var cutoff := SaturatingSub(now', windowMs * 2);
    forall id | id in after
      ensures cutoff <= after[id].lastEventAt <= now' && after[id].createdAt <= after[id].lastEventAt
    {
      AgeAfter(cutoff, now', chains, touched, all, after, id);
    }
  }

  lemma {:induction false} TrimIsWindow(es: seq<Event>, k: nat, cutoff: nat) returns (k': nat)
    requires k <= |es| && Nondecreasing(es)
    ensures k <= k' <= |es| && Trim(es[k..], cutoff) == es[k'..]
    ensures forall i | k <= i < k' :: es[i].timestamp < cutoff
    ensures forall i | k' <= i < |es| :: es[i].timestamp >= cutoff
    decreases |es| - k
  {
    if k < |es| && es[k].timestamp < cutoff {
      assert es[k..][1..] == es[k + 1..];
      k' := TrimIsWindow(es, k + 1, cutoff);
    } else {
      k' := k;
    }
  }

  lemma TrimKeepsWindow(es: seq<Event>, e: Event, buffer: seq<Event>, earlier: nat, cutoff: nat)
    requires Nondecreasing(es + [e]) && earlier <= cutoff && BufferIsWindow(es, buffer, earlier)
    ensures BufferIsWindow(es + [e], Trim(buffer + [e], cutoff), cutoff)
  {
    var all := es + [e];
    var k: nat :| SplitsAt(es, earlier, k) && buffer == es[k..];
    assert buffer + [e] == all[k..];
    assert forall i | 0 <= i < k :: all[i] == es[i];
    var k' := TrimIsWindow(all, k, cutoff);
    assert SplitsAt(all, cutoff, k');
  }

  lemma TouchTouches(cfg: Config, s: State, e: Event, touched: ChainId)
    ensures Touches(s.chains, touched, e.timestamp, Touch(cfg, s, e, touched))
  {
  }

  /** The chain map of one step, without the contents of the touched chain. */
  ghost predicate ChainStep(cfg: Config, chains: map<ChainId, Chain>, e: Event, touched: ChainId,
                            all: map<ChainId, Chain>, after: map<ChainId, Chain>) {
    && Touches(chains, touched, e.timestamp, all)
    && Prunes(cfg, e, all, after)
    && (touched !in chains ==> Silent(chains, e.timestamp, cfg.windowMs) && forall id | id in chains :: id < touched)
  }

  lemma StepIsChainStep(cfg: Config, s: State, e: Event, touched: ChainId, s': State)
    requires Step(cfg, s, e, touched, s') && forall id | id in s.chains :: id < s.nextId
    ensures ChainStep(cfg, s.chains, e, touched, Touch(cfg, s, e, touched), s'.chains)
    ensures forall id | id in s'.chains :: id < s'.nextId
  {
    TouchTouches(cfg, s, e, touched);
    if touched !in s.chains {
      var order :| Chooses(cfg, s, e, order, touched);
      NewChainNeedsSilence(cfg, s, e, order, touched);
    }
  }

  lemma ChainStepKeepsAges(cfg: Config, now: nat, chains: map<ChainId, Chain>, e: Event, touched: ChainId,
                           all: map<ChainId, Chain>, after: map<ChainId, Chain>)
    requires cfg.windowMs > 0 && TimesOk(cfg.windowMs, now, chains) && now <= e.timestamp
    requires ChainStep(cfg, chains, e, touched, all, after)
    ensures TimesOk(cfg.windowMs, e.timestamp, after)
    ensures touched in after && after[touched] == all[touched]
    ensures forall id | id in after && id != touched :: id in chains && after[id] == chains[id]
  {
    TouchedSurvives(cfg, chains, e, touched, all, after);
    PruneKeepsRecent(cfg, e, all, after);
    TimesAfter(cfg.windowMs, now, chains, e.timestamp, touched, all, after);
  }

  /** One step keeps the ages right, keeps the touched chain and changes no other. */
  lemma StepKeepsAges(cfg: Config, run: Run)
    requires cfg.windowMs > 0 && run.After? && run.Valid(cfg) && run.Ordered() && AgesOk(cfg, run.before)
    ensures AgesOk(cfg, run)
    ensures run.state.chains[run.owner] == Touch(cfg, run.before.Final(), run.event, run.owner)[run.owner]
    ensures forall id | id in run.state.chains && id != run.owner ::
              id in run.before.Final().chains && run.state.chains[id] == run.before.Final().chains[id]
  {
    var s, e := run.before.Final(), run.event;
    StepIsChainStep(cfg, s, e, run.owner, run.state);
    var now := if run.before.Start? then e.timestamp else run.before.event.timestamp;
    ChainStepKeepsAges(cfg, now, s.chains, e, run.owner, Touch(cfg, s, e, run.owner), run.state.chains);
  }

  lemma {:induction false} OrderedEvents(run: Run)
    requires run.Ordered()
    ensures Nondecreasing(run.Events())
    ensures run.After? ==> forall i | 0 <= i < |run.Events()| :: run.Events()[i].timestamp <= run.event.timestamp
  {
    if run.After? {
      OrderedEvents(run.before);
    }
  }

  // ---------- Theorems over runs ----------

  /** After every run, whatever the iteration orders were: every live chain is the record of its own events. */
  lemma {:induction false} ChainsRecordTheirEvents(cfg: Config, run: Run)
    requires NonNegative(cfg.patterns) && run.Valid(cfg)
    ensures ChainsMatchHistory(cfg, run)
  {
    if run.After? {
      ChainsRecordTheirEvents(cfg, run.before);
      FreshIds(cfg, run.before);
      forall id | id in run.state.chains ensures Describes(cfg.patterns, run.state.chains[id], run.Owned(id)) {
        StepDescribes(cfg, run, id);
      }
    }
  }

  /** After every run in time order: at most 1000 live chains, none expired, created a window or more apart. */
  lemma {:induction false} LiveChainsBounded(cfg: Config, run: Run)
    requires cfg.windowMs > 0 && run.Valid(cfg) && run.Ordered()
    ensures AgesOk(cfg, run)
  {
    if run.After? {
      LiveChainsBounded(cfg, run.before);
      StepKeepsAges(cfg, run);
    }
  }

  /** The event buffer always is the stretch of history not older than the window. */
  lemma {:induction false} BufferInvariant(cfg: Config, run: Run)
    requires run.Valid(cfg) && run.Ordered()
    ensures run.Start? ==> run.Final().buffer == []
    ensures run.After? ==>
              BufferIsWindow(run.Events(), run.state.buffer, SaturatingSub(run.event.timestamp, cfg.windowMs))
  {
    if run.After? {
      BufferInvariant(cfg, run.before);
      OrderedEvents(run);
      var earlier := if run.before.Start? then 0 else SaturatingSub(run.before.event.timestamp, cfg.windowMs);
      if run.before.Start? {
        assert SplitsAt([], 0, 0);
      }
      TrimKeepsWindow(run.before.Events(), run.event, run.before.Final().buffer, earlier,
                      SaturatingSub(run.event.timestamp, cfg.windowMs));
    }
  }

  /** Each event goes to exactly one chain, which stays live; no other live chain changes. */
  lemma EveryEventHasOneChain(cfg: Config, run: Run)
    requires cfg.windowMs > 0 && run.Valid(cfg) && run.Ordered() && run.After?
    ensures var s, s', owner := run.before.Final(), run.state, run.owner;
            && owner in s'.chains
            && s'.chains[owner].events == (if owner in s.chains then s.chains[owner].events else []) + [run.event]
            && forall id | id in s'.chains && id != owner :: id in s.chains && s'.chains[id] == s.chains[id]
  {
    LiveChainsBounded(cfg, run.before);
    StepKeepsAges(cfg, run);
    TouchAppends(cfg, run.before.Final(), run.event, run.owner);
  }

  lemma TouchAppends(cfg: Config, s: State, e: Event, id: ChainId)
    ensures Touch(cfg, s, e, id)[id].events == (if id in s.chains then s.chains[id].events else []) + [e]
    ensures Touch(cfg, s, e, id)[id].processes == (if id in s.chains then s.chains[id].processes else {}) + {e.pid}
  {
  }

  /** A chain is created only by an event at least a window later than the one before it. */
  lemma CreationNeedsQuietWindow(cfg: Config, run: Run)
    requires cfg.windowMs > 0 && run.Valid(cfg) && run.Ordered()
    requires run.After? && run.before.After? && run.owner !in run.before.state.chains
    ensures run.event.timestamp >= run.before.event.timestamp + cfg.windowMs
  {
    LiveChainsBounded(cfg, run.before);
    var order :| Chooses(cfg, run.before.state, run.event, order, run.owner);
    NewChainNeedsSilence(cfg, run.before.state, run.event, order, run.owner);
    assert run.before.owner in run.before.state.chains;
  }

  /** The chains heard of within two windows of the event, the one it goes to included. */
  function HeardOf(windowMs: nat, chains: map<ChainId, Chain>, now: nat, touched: ChainId): set<ChainId> {
    (set id | id in chains && chains[id].lastEventAt + windowMs * 2 >= now) + {touched}
  }

  lemma RetainedAreHeardOf(cfg: Config, chains: map<ChainId, Chain>, e: Event, touched: ChainId,
                           all: map<ChainId, Chain>)
    requires Touches(chains, touched, e.timestamp, all)
    ensures Retain(all, SaturatingSub(e.timestamp, cfg.windowMs * 2)).Keys
         == HeardOf(cfg.windowMs, chains, e.timestamp, touched)
  {
  }

  /**
   * After an event the live chains are exactly those heard of within two windows. Only beyond the
   * limit some of these go, as many as it takes, and none before an older one.
   */
  lemma LiveAfterEvent(cfg: Config, run: Run)
    requires run.After? && run.Valid(cfg)
    ensures var chains, live := run.before.Final().chains, run.state.chains;
            var heard := HeardOf(cfg.windowMs, chains, run.event.timestamp, run.owner);
            && live.Keys <= heard
            && (|heard| <= MAX_ACTIVE_CHAINS ==> live.Keys == heard)
            && (|heard| > MAX_ACTIVE_CHAINS ==> |live| == MAX_ACTIVE_CHAINS)
            && forall x, y | x in heard && x !in live && y in live && x in chains && x != run.owner ::
                 chains[x].lastEventAt <= live[y].lastEventAt
  {
    var s, e := run.before.Final(), run.event;
    var all := Touch(cfg, s, e, run.owner);
    TouchTouches(cfg, s, e, run.owner);
    RetainedAreHeardOf(cfg, s.chains, e, run.owner, all);
    var kept := Retain(all, SaturatingSub(e.timestamp, cfg.windowMs * 2));
    assert |kept| == |kept.Keys| && |run.state.chains| == |run.state.chains.Keys|;
    SubmapSize(run.state.chains, kept);
  }

  // ---------- Parents, as the events record them ----------

  /** Event `i` is the last one to name a parent of `pid`. */
  ghost predicate LastRecord(es: seq<Event>, pid: Pid, i: nat) {
    && i < |es| && es[i].pid == pid && es[i].parentPid != 0
    && forall j | i < j < |es| && es[j].pid == pid :: es[j].parentPid == 0
  }

  /** `parents` gives every process the parent last recorded for it, and no process another. */
  ghost predicate Records(es: seq<Event>, parents: map<Pid, Pid>) {
    && (forall pid: Pid, i: nat | LastRecord(es, pid, i) :: pid in parents && parents[pid] == es[i].parentPid)
    && (forall pid | pid in parents :: exists i: nat :: LastRecord(es, pid, i))
  }

  lemma RecordsAgree(es: seq<Event>, parents: map<Pid, Pid>, parents': map<Pid, Pid>)
    requires Records(es, parents) && Records(es, parents')
    ensures parents == parents'
  {
    forall pid | pid in parents ensures pid in parents' && parents[pid] == parents'[pid] {
      var i: nat :| LastRecord(es, pid, i);
    }
    forall pid | pid in parents' ensures pid in parents {
      var i: nat :| LastRecord(es, pid, i);
    }
  }

  lemma OtherRecordStays(es: seq<Event>, e: Event, pid: Pid, i: nat)
    requires e.pid != pid || e.parentPid == 0
    ensures LastRecord(es + [e], pid, i) <==> LastRecord(es, pid, i)
  {
    var all := es + [e];
    assert all[|es|] == e && forall j | 0 <= j < |es| :: all[j] == es[j];
    if LastRecord(all, pid, i) {
      assert i < |es| && forall j | i < j < |es| && es[j].pid == pid :: all[j].parentPid == 0;
    }
  }

  lemma RecordOneMore(es: seq<Event>, e: Event, s: State)
    requires Records(es, s.ancestry)
    ensures Records(es + [e], AncestryAfter(s, e))
  {
    var all, parents := es + [e], AncestryAfter(s, e);
    forall pid: Pid, i: nat | LastRecord(all, pid, i) ensures pid in parents && parents[pid] == all[i].parentPid {
      if e.pid == pid && e.parentPid != 0 {
        assert all[|es|] == e;
      } else {
        OtherRecordStays(es, e, pid, i);
      }
    }
    forall pid | pid in parents ensures exists i: nat :: LastRecord(all, pid, i) {
      if e.pid == pid && e.parentPid != 0 {
        assert LastRecord(all, pid, |es|);
      } else {
        var i: nat :| LastRecord(es, pid, i);
        OtherRecordStays(es, e, pid, i);
      }
    }
  }

  /** After every run the analyzer knows for each process the parent last recorded for it, and nothing else. */
  lemma {:induction false} AncestryIsRecorded(cfg: Config, run: Run)
    requires run.Valid(cfg)
    ensures Records(run.Events(), run.Final().ancestry)
  {
    if run.After? {
      AncestryIsRecorded(cfg, run.before);
      RecordOneMore(run.before.Events(), run.event, run.before.Final());
    }
  }

  lemma ParentsAtStep(cfg: Config, run: Run, parents: map<Pid, Pid>)
    requires run.After? && run.Valid(cfg) && Records(run.Events(), parents)
    ensures parents == AncestryAfter(run.before.Final(), run.event)
  {
    AncestryIsRecorded(cfg, run);
    RecordsAgree(run.Events(), parents, run.state.ancestry);
  }

  /** An event never starts a chain while a live chain holds its process, an ancestor or an ancestor's child. */
  lemma KinNeverFork(cfg: Config, run: Run, parents: map<Pid, Pid>, id: ChainId, p: Pid)
    requires run.After? && run.Valid(cfg) && Records(run.Events(), parents)
    requires id in run.before.Final().chains && p in run.before.Final().chains[id].processes
    requires IsNear(parents, run.event.pid, p)
    ensures run.owner in run.before.Final().chains
  {
    var s, e := run.before.Final(), run.event;
    ParentsAtStep(cfg, run, parents);
    var order :| Chooses(cfg, s, e, order, run.owner);
    RelatedForEveryOrder(parents, e.pid, order);
    assert p in s.chains[id].processes * RelatedProcesses(parents, e.pid, order);
    assert Joins(cfg, RelatedProcesses(parents, e.pid, order), s.chains[id], e);
  }

  /** No process of the chain descends from the process or one of its ancestors. */
  ghost predicate Stranger(parents: map<Pid, Pid>, pid: Pid, processes: set<Pid>) {
    forall p, a | p in processes && IsAncestor(parents, pid, a) :: !DescendsFrom(parents, p, a)
  }

  lemma StrangerNotRelated(parents: map<Pid, Pid>, pid: Pid, order: seq<Pid>, processes: set<Pid>)
    requires Enumerates(order, parents.Keys) && Stranger(parents, pid, processes)
    ensures processes * RelatedProcesses(parents, pid, order) == {}
  {
    RelatedForEveryOrder(parents, pid, order);
  }

  /** An event joins only a chain that was active within the window or that holds kin of its process. */
  lemma JoinHasReason(cfg: Config, run: Run, parents: map<Pid, Pid>)
    requires run.After? && run.Valid(cfg) && Records(run.Events(), parents)
    requires run.owner in run.before.Final().chains
    ensures var c := run.before.Final().chains[run.owner];
            || run.event.timestamp < c.lastEventAt + cfg.windowMs
            || !Stranger(parents, run.event.pid, c.processes)
  {
    var s, e := run.before.Final(), run.event;
    var c := s.chains[run.owner];
    ParentsAtStep(cfg, run, parents);
    FreshIds(cfg, run.before);
    var order :| Chooses(cfg, s, e, order, run.owner);
    if Stranger(parents, e.pid, c.processes) {
      StrangerNotRelated(parents, e.pid, order, c.processes);
      assert Joins(cfg, RelatedProcesses(parents, e.pid, order), c, e);
    }
  }

  /** A process that is no kin of any live chain starts a chain when it comes after a whole quiet window. */
  lemma QuietStrangerStartsChain(cfg: Config, run: Run, parents: map<Pid, Pid>)
    requires cfg.windowMs > 0 && run.Valid(cfg) && run.Ordered() && run.After? && run.before.After?
    requires Records(run.Events(), parents)
    requires run.event.timestamp >= run.before.event.timestamp + cfg.windowMs
    requires forall id | id in run.before.state.chains ::
               Stranger(parents, run.event.pid, run.before.state.chains[id].processes)
    ensures run.owner !in run.before.state.chains
  {
    LiveChainsBounded(cfg, run.before);
    if run.owner in run.before.state.chains {
      JoinHasReason(cfg, run, parents);
    }
  }

  // ---------- Verdicts over runs ----------

  lemma {:induction false} OwnedGrows(early: Run, late: Run, id: ChainId)
    requires early.PrefixOf(late)
    ensures early.Owned(id) <= late.Owned(id)
    decreases late
  {
    if early != late {
      OwnedGrows(early, late.before, id);
    }
  }

  lemma {:induction false} PrefixIsRun(cfg: Config, early: Run, late: Run)
    requires early.PrefixOf(late) && late.Valid(cfg)
    ensures early.Valid(cfg)
    decreases late
  {
    if early != late {
      PrefixIsRun(cfg, early, late.before);
    }
  }

  lemma {:induction false} DistinctGrows<T>(xs: seq<T>, i: nat)
    requires i <= |xs|
    ensures |Distinct(xs[..i])| <= |Distinct(xs)|
  {
    if i < |xs| {
      DistinctGrows(xs[..|xs| - 1], i);
      assert xs[..|xs| - 1][..i] == xs[..i];
    } else {
      assert xs[..i] == xs;
    }
  }

  lemma {:induction false} BestGrows(patterns: seq<Pattern>, es: seq<EventType>, i: nat)
    requires NonNegative(patterns) && i <= |es| && BestMatch(patterns, es[..i]).Some?
    ensures BestMatch(patterns, es).Some?
    ensures BestMatch(patterns, es).value.confidence >= BestMatch(patterns, es[..i]).value.confidence
    decreases |es|
  {
    if i < |es| {
      var front := es[..|es| - 1];
      assert front[..i] == es[..i] && es == front + [es[|es| - 1]];
      BestGrows(patterns, front, i);
      BestMonotone(patterns, front, es[|es| - 1]);
    } else {
      assert es[..i] == es;
    }
  }

  /** Two descriptions of one chain, the second after more events. */
  lemma VerdictGrows(patterns: seq<Pattern>, c: Chain, es: seq<Event>, c': Chain, es': seq<Event>)
    requires NonNegative(patterns) && Describes(patterns, c, es) && Describes(patterns, c', es')
    requires es <= es' && c.matched.Some?
    ensures c'.matched.Some? && c'.confidence >= c.confidence && c'.severity.Rank() >= c.severity.Rank()
  {
    var n := |es|;
    assert Types(es')[..n] == Types(es) && Tactics(es')[..n] == Tactics(es);
    BestGrows(patterns, Types(es'), n);
    DistinctGrows(Tactics(es'), n);
  }

  /** Once a chain matches a pattern it always does, and its confidence and severity never fall. */
  lemma VerdictsOnlyRise(cfg: Config, early: Run, late: Run, id: ChainId)
    requires NonNegative(cfg.patterns) && late.Valid(cfg) && early.PrefixOf(late)
    requires id in early.Final().chains && id in late.Final().chains && early.Final().chains[id].matched.Some?
    ensures var c, c' := early.Final().chains[id], late.Final().chains[id];
            && c.events <= c'.events
            && c'.matched.Some?
            && c'.confidence >= c.confidence
            && c'.severity.Rank() >= c.severity.Rank()
  {
    PrefixIsRun(cfg, early, late);
    ChainsRecordTheirEvents(cfg, early);
    ChainsRecordTheirEvents(cfg, late);
    OwnedGrows(early, late, id);
    VerdictGrows(cfg.patterns, early.Final().chains[id], early.Owned(id), late.Final().chains[id], late.Owned(id));
  }

  lemma CountsGrow(patterns: seq<Pattern>, c: Chain, e: Event)
    requires c.events != []
    ensures var c' := JoinChain(patterns, c, e);
            |c.tactics| <= |c'.tactics| && 1 <= |c'.tactics| && |c'.events| == |c.events| + 1
            && |c.processes| <= |c'.processes| && 1 <= |c'.processes|
  {
    var c' := JoinChain(patterns, c, e);
    assert e.pid in c'.processes;
    if e.pid !in c.processes {
      assert |c'.processes| == |c.processes| + 1;
    } else {
      assert c'.processes == c.processes;
    }
  }

  lemma FallbackMonotone(t: nat, n: nat, p: nat, t': nat, n': nat, p': nat)
    requires t <= t' && n <= n' && p <= p' && 1 <= t' && 2 <= n' && 1 <= p'
    ensures FallbackConfidence(t, n, p) <= FallbackConfidence(t', n', p')
    ensures FallbackConfidence(t', n', p') >= 0.1
  {
  }

  /** While nothing matches, more events never lower the verdict. */
  lemma FallbackRises(patterns: seq<Pattern>, c: Chain, es: seq<Event>, e: Event)
    requires NonNegative(patterns) && Describes(patterns, c, es)
    requires c.matched.None? && BestMatch(patterns, Types(es + [e])).None?
    ensures var c' := JoinChain(patterns, c, e);
            c'.confidence >= c.confidence && c'.severity.Rank() >= c.severity.Rank()
  {
    var c' := JoinChain(patterns, c, e);
    CountsGrow(patterns, c, e);
    FallbackMonotone(|c.tactics|, |c.events|, |c.processes|, |c'.tactics|, |c'.events|, |c'.processes|);
  }

  /** A join lowers the confidence exactly when it brings the chain's first match and that scores less. */
  lemma ConfidenceFallsIff(patterns: seq<Pattern>, c: Chain, es: seq<Event>, e: Event)
    requires NonNegative(patterns) && Describes(patterns, c, es)
    ensures var best := BestMatch(patterns, Types(es + [e]));
            JoinChain(patterns, c, e).confidence < c.confidence
            <==> c.matched.None? && best.Some? && best.value.confidence < c.confidence
  {
    if c.matched.Some? {
      JoinDescribes(patterns, c, es, e);
      VerdictGrows(patterns, c, es, JoinChain(patterns, c, e), es + [e]);
    } else if BestMatch(patterns, Types(es + [e])).None? {
      FallbackRises(patterns, c, es, e);
    }
  }

  /** A join lowers the severity exactly when the first match and the tactics both fall short of the old one. */
  lemma SeverityFallsIff(patterns: seq<Pattern>, c: Chain, es: seq<Event>, e: Event)
    requires NonNegative(patterns) && Describes(patterns, c, es)
    ensures var best := BestMatch(patterns, Types(es + [e]));
            JoinChain(patterns, c, e).severity.Rank() < c.severity.Rank()
            <==> && c.matched.None? && best.Some? && !c.severity.Low?
                 && best.value.confidence < c.severity.ConfidenceFloor()
                 && |Distinct(Tactics(es + [e]))| < c.severity.TacticFloor()
  {
    JoinDescribes(patterns, c, es, e);
    if c.matched.Some? {
      VerdictGrows(patterns, c, es, JoinChain(patterns, c, e), es + [e]);
    } else if BestMatch(patterns, Types(es + [e])).None? {
      FallbackRises(patterns, c, es, e);
    } else {
      var confidence := BestMatch(patterns, Types(es + [e])).value.confidence;
      SeverityAtLeast(confidence, |Distinct(Tactics(es + [e]))|, c.severity);
    }
  }

  lemma DescribedInRange(patterns: seq<Pattern>, c: Chain)
    requires UnitConfidence(patterns) && VerdictOf(patterns, c)
    ensures 0.0 <= c.confidence <= 1.0
  {
    if BestMatch(patterns, Types(c.events)).Some? {
      BestInRange(patterns, Types(c.events));
    }
  }

  /** On every run the confidence of every live chain lies in [0, 1]. */
  lemma ConfidenceInRange(cfg: Config, run: Run, id: ChainId)
    requires UnitConfidence(cfg.patterns) && run.Valid(cfg) && id in run.Final().chains
    ensures 0.0 <= run.Final().chains[id].confidence <= 1.0
  {
    ChainsRecordTheirEvents(cfg, run);
    DescribedInRange(cfg.patterns, run.Final().chains[id]);
  }
}
