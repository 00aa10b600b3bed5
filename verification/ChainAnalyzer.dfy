/** The behavioral chain analyzer as an object: fields updated in place, every call a step of the model. */
module ChainAnalyzer {
  import opened IntegerFacts
  import opened Options
  import opened ChainPatterns
  import opened ProcessAncestry
  import opened ChainCorrelator

  /** Analysis of one chain: the loop over the patterns keeps the first best. */
  method AnalyzeChain(patterns: seq<Pattern>, c: Chain) returns (analysed: Chain)
    ensures analysed == UpdateChainAnalysis(patterns, c)
  {
    var types := Types(c.events);
    var best: Option<Best> := None;
    for i := 0 to |patterns|
      invariant best == BestMatch(patterns[..i], types)
    {
      assert patterns[..i + 1][..i] == patterns[..i];
      var score := MatchPattern(patterns[i], types);
      if score.Some? && (best.None? || score.value > best.value.confidence) {
        best := Some(Best(patterns[i], score.value));
      }
    }
    assert patterns[..|patterns|] == patterns;
    analysed := c;
    if best.Some? {
      analysed := analysed.(matched := Some(best.value.pattern), confidence := best.value.confidence);
    } else {
      analysed := analysed.(confidence := FallbackConfidence(|c.tactics|, |c.events|, |c.processes|));
    }
    analysed := analysed.(severity := SeverityFromConfidence(analysed.confidence, |c.tactics|));
  }

  /** A chain with the earliest last event; among several, whichever the iteration meets first. */
  method OldestChain(chains: map<ChainId, Chain>) returns (oldest: ChainId)
    requires chains != map[]
    ensures oldest in chains
    ensures forall id | id in chains :: chains[oldest].lastEventAt <= chains[id].lastEventAt
  {
    assert chains.Keys != {};
    oldest :| oldest in chains;
    var todo := chains.Keys - {oldest};
    while todo != {}
      invariant todo <= chains.Keys && oldest in chains
      invariant forall id | id in chains.Keys - todo :: chains[oldest].lastEventAt <= chains[id].lastEventAt
    {
      var id :| id in todo;
      todo := todo - {id};
      if chains[id].lastEventAt < chains[oldest].lastEventAt {
        oldest := id;
      }
    }
  }

  method LimitChains(chains: map<ChainId, Chain>) returns (limited: map<ChainId, Chain>)
    ensures Capped(chains, limited)
  {
    limited := chains;
    while |limited| > MAX_ACTIVE_CHAINS
      invariant limited.Keys <= chains.Keys
      invariant forall id | id in limited :: limited[id] == chains[id]
      invariant |limited| <= |chains|
      invariant |limited| < |chains| ==> |limited| >= MAX_ACTIVE_CHAINS
      invariant |limited| == |chains| ==> limited == chains
      invariant forall x, y | x in chains && x !in limited && y in limited ::
                  chains[x].lastEventAt <= limited[y].lastEventAt
    {
      var oldest := OldestChain(limited);
      var smaller := limited - {oldest};
      assert smaller.Keys == limited.Keys - {oldest};
      limited := smaller;
    }
  }

  /** The outcome of the search is one of the choices the model allows. */
  lemma SearchChooses(cfg: Config, s: State, e: Event, related: set<Pid>, order: seq<Pid>,
                      matched: Option<ChainId>, touched: ChainId)
    requires Enumerates(order, AncestryAfter(s, e).Keys)
    requires related == RelatedProcesses(AncestryAfter(s, e), e.pid, order)
    requires matched.Some? ==>
               touched == matched.value && touched in s.chains && Joins(cfg, related, s.chains[touched], e)
    requires matched.None? ==>
               touched == s.nextId && forall id | id in s.chains :: !Joins(cfg, related, s.chains[id], e)
    ensures Chooses(cfg, s, e, order, touched)
  {
  }

  class Analyzer {
    const cfg: Config
    var chains: map<ChainId, Chain>
    var buffer: seq<Event>
    var ancestry: map<Pid, Pid>
    var nextId: ChainId

    ghost function View(): State
      reads this
    {
      State(chains, buffer, ancestry, nextId)
    }

    ghost var run: Run  // every event so far

    /** The object is in a state the model reaches on its events. */
    ghost predicate Valid()
      reads this
    {
      NonNegative(cfg.patterns) && run.Valid(cfg) && run.Final() == View()
    }

    constructor (windowMs: nat)
      ensures Valid() && run == Start
      ensures cfg == Config(LoadAttackPatterns(), windowMs)
    {
      cfg := Config(LoadAttackPatterns(), windowMs);
      chains, buffer, ancestry, nextId, run := map[], [], map[], 0, Start;
    }

    method AddEvent(e: Event) returns (ghost touched: ChainId)
      requires Valid()
      modifies this
      ensures Valid() && run == After(old(run), e, touched, View())
      ensures Records(run.Events(), ancestry) && ChainsMatchHistory(cfg, run)
      ensures cfg.windowMs > 0 && run.Ordered() ==> AgesOk(cfg, run)
    {
      FreshIds(cfg, run);
      touched := TakeStep(e);
      run := After(run, e, touched, View());
      AncestryIsRecorded(cfg, run);
      ChainsRecordTheirEvents(cfg, run);
      if cfg.windowMs > 0 && run.Ordered() {
        LiveChainsBounded(cfg, run);
      }
    }

    /** Ancestry, buffer, then correlation. */
    method TakeStep(e: Event) returns (ghost touched: ChainId)
      requires FreshNext()
      modifies this`chains, this`buffer, this`ancestry, this`nextId
      ensures Step(cfg, old(View()), e, touched, View())
    {
      if e.parentPid != 0 {
        ancestry := ancestry[e.pid := e.parentPid];
      }
      TrimBuffer(e);
      touched := CorrelateEvent(e, old(View()));
    }

    method TrimBuffer(e: Event)
      modifies this`buffer
      ensures buffer == Trim(old(buffer) + [e], SaturatingSub(e.timestamp, cfg.windowMs))
    {
      buffer := buffer + [e];
      var cutoff := SaturatingSub(e.timestamp, cfg.windowMs);
      while buffer != [] && buffer[0].timestamp < cutoff
        invariant Trim(buffer, cutoff) == Trim(old(buffer) + [e], cutoff)
        decreases |buffer|
      {
        buffer := buffer[1..];
      }
    }

    /** Ids are handed out in order, so the next one is not in use. */
    ghost predicate FreshNext()
      reads this
    {
      forall id | id in chains :: id < nextId
    }

    /** Puts the event into the first chain that takes it, or a new one; then expiry and the limit. */
    method CorrelateEvent(e: Event, ghost before: State) returns (ghost touched: ChainId)
      requires FreshNext() && chains == before.chains && nextId == before.nextId && ancestry == AncestryAfter(before, e)
      modifies this`chains, this`nextId
      ensures exists order :: Chooses(cfg, before, e, order, touched)
      ensures nextId == if touched in before.chains then before.nextId else before.nextId + 1
      ensures Prunes(cfg, e, Touch(cfg, before, e, touched), chains)
    {
      var all;
      all, touched := PlaceEvent(e, before);
      var retained := Retain(all, SaturatingSub(e.timestamp, cfg.windowMs * 2));
      chains := LimitChains(retained);
    }

    /** The chain map with the event in it, and the choice that put it there. */
    method PlaceEvent(e: Event, ghost before: State) returns (all: map<ChainId, Chain>, ghost touched: ChainId)
      requires FreshNext() && chains == before.chains && nextId == before.nextId && ancestry == AncestryAfter(before, e)
      modifies this`nextId
      ensures exists order :: Chooses(cfg, before, e, order, touched)
      ensures nextId == if touched in before.chains then before.nextId else before.nextId + 1
      ensures all == Touch(cfg, before, e, touched)
      ensures forall id | id in all :: id < nextId
    {
      var matched;
      matched, touched := ChooseChain(e, before);
      if matched.Some? {
        all := JoinAt(matched.value, e);
      } else {
        all := chains[nextId := NewChain(e)];
        nextId := nextId + 1;
      }
    }

    /** The search over the live chains, for the process family of the event. */
    method ChooseChain(e: Event, ghost before: State) returns (matched: Option<ChainId>, ghost touched: ChainId)
      requires chains == before.chains && nextId == before.nextId && ancestry == AncestryAfter(before, e)
      ensures exists order :: Chooses(cfg, before, e, order, touched)
      ensures touched == if matched.Some? then matched.value else nextId
      ensures matched.Some? ==> matched.value in chains
    {
      var related, order := GetRelatedProcesses(ancestry, e.pid);
      matched := FindChain(related, e);
      touched := if matched.Some? then matched.value else nextId;
      SearchChooses(cfg, before, e, related, order, matched, touched);
    }

    method FindChain(related: set<Pid>, e: Event) returns (matched: Option<ChainId>)
      ensures matched.Some? ==> matched.value in chains && Joins(cfg, related, chains[matched.value], e)
      ensures matched.None? ==> forall id | id in chains :: !Joins(cfg, related, chains[id], e)
    {
      matched := None;
      var todo := chains.Keys;
      while todo != {}
        invariant todo <= chains.Keys
        invariant forall id | id in chains.Keys - todo :: !Joins(cfg, related, chains[id], e)
      {
        var id :| id in todo;
        todo := todo - {id};
        if Joins(cfg, related, chains[id], e) {
          return Some(id);
        }
      }
    }

    method JoinAt(id: ChainId, e: Event) returns (all: map<ChainId, Chain>)
      requires id in chains
      ensures all == chains[id := JoinChain(cfg.patterns, chains[id], e)]
    {
      var c := chains[id];
      c := c.(events := c.events + [e], processes := c.processes + {e.pid}, lastEventAt := e.timestamp);
      if e.technique.Some? && e.technique.value !in c.techniques {
        c := c.(techniques := c.techniques + [e.technique.value]);
      }
      var tactic := e.eventType.MitreTactic();
      if tactic !in c.tactics {
        c := c.(tactics := c.tactics + [tactic]);
      }
      c := AnalyzeChain(cfg.patterns, c);
      all := chains[id := c];
    }
  }
}
