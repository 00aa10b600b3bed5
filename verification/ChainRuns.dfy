/** Runs of the chain analyzer that reach its limits, and one that it has no limit for. */
module ChainRuns {
  import opened Collections
  import opened Counting
  import opened IntegerFacts
  import opened Options
  import opened ChainPatterns
  import opened ProcessAncestry
  import opened ChainCorrelator

  /** An event of a process with no known parent. */
  function Lone(timestamp: nat, pid: Pid, eventType: EventType): Event {
    Event(timestamp, pid, 0, eventType, None)
  }

  /** An event of a child of process 1. */
  function OfChild(timestamp: nat, pid: Pid, eventType: EventType): Event {
    Event(timestamp, pid, 1, eventType, None)
  }

  /** The state after one more event, when there is nothing to prune. */
  function NextState(cfg: Config, s: State, e: Event, id: ChainId): State {
    State(Touch(cfg, s, e, id), Trim(s.buffer + [e], SaturatingSub(e.timestamp, cfg.windowMs)), AncestryAfter(s, e),
          if id in s.chains then s.nextId else s.nextId + 1)
  }

  lemma NoFamily(pid: Pid)
    ensures RelatedProcesses(map[], pid, []) == {pid}
  {
  }

  lemma NothingToPrune(cfg: Config, e: Event, all: map<ChainId, Chain>)
    requires |all| <= MAX_ACTIVE_CHAINS
    requires forall id | id in all :: all[id].lastEventAt >= SaturatingSub(e.timestamp, cfg.windowMs * 2)
    ensures Prunes(cfg, e, all, all)
  {
    assert Retain(all, SaturatingSub(e.timestamp, cfg.windowMs * 2)) == all;
  }

  lemma RunExtends(cfg: Config, before: Run, e: Event, id: ChainId, s': State) returns (run: Run)
    requires before.Valid(cfg) && before.Ordered() && Step(cfg, before.Final(), e, id, s')
    requires before.After? ==> before.event.timestamp <= e.timestamp
    ensures run == After(before, e, id, s') && run.Valid(cfg) && run.Ordered() && run.Final() == s'
  {
    run := After(before, e, id, s');
  }

  // ---------- One chain for a burst of events ----------

  /** An event of process 1 or of a child of it. */
  predicate OfFamily(e: Event) { (e.pid == 1 && e.parentPid == 0) || e.parentPid == 1 }

  /** All events come at the same time from the family of process 1, which comes first. */
  ghost predicate Burst(es: seq<Event>, now: nat) {
    && (forall i | 0 <= i < |es| :: es[i].timestamp == now && OfFamily(es[i]))
    && (es != [] ==> es[0].pid == 1)
  }

  /** One chain, number 0, holds all events so far. */
  ghost predicate OneChain(s: State, es: seq<Event>, now: nat) {
    if es == [] then s.chains == map[] && s.nextId == 0
    else
      && s.chains.Keys == {0} && s.nextId == 1
      && s.chains[0].lastEventAt == now && s.chains[0].events == es && 1 in s.chains[0].processes
  }

  /** Whatever the window, the family's next event goes to that chain. */
  lemma BurstChooses(cfg: Config, s: State, es: seq<Event>, e: Event)
    requires OfFamily(e) && OneChain(s, es, e.timestamp)
    ensures exists order :: Chooses(cfg, s, e, order, 0)
  {
    var parents := AncestryAfter(s, e);
    var order := Listing(parents.Keys);
    if es != [] {
      var path := if e.pid == 1 then [e.pid] else [e.pid, 1];
      assert Climbs(parents, path) && path[|path| - 1] == 1 && 0 !in path[1..];
      assert IsAncestor(parents, e.pid, 1);
      RelatedForEveryOrder(parents, e.pid, order);
      assert 1 in s.chains[0].processes * RelatedProcesses(parents, e.pid, order);
      assert Joins(cfg, RelatedProcesses(parents, e.pid, order), s.chains[0], e);
    }
    assert Chooses(cfg, s, e, order, 0);
  }

  lemma BurstMap(cfg: Config, s: State, es: seq<Event>, e: Event)
    requires OneChain(s, es, e.timestamp) && (es == [] ==> e.pid == 1)
    ensures var all := Touch(cfg, s, e, 0);
            && all.Keys == {0} && |all| == 1
            && all[0].lastEventAt == e.timestamp && all[0].events == es + [e] && 1 in all[0].processes
  {
    TouchTouches(cfg, s, e, 0);
    TouchAppends(cfg, s, e, 0);
    var all := Touch(cfg, s, e, 0);
    assert all.Keys == {0};
    assert |all| == |all.Keys|;
  }

  lemma BurstStep(cfg: Config, s: State, es: seq<Event>, e: Event) returns (s': State)
    requires OfFamily(e) && OneChain(s, es, e.timestamp) && (es == [] ==> e.pid == 1)
    ensures Step(cfg, s, e, 0, s') && OneChain(s', es + [e], e.timestamp)
  {
    BurstMap(cfg, s, es, e);
    BurstChooses(cfg, s, es, e);
    NothingToPrune(cfg, e, Touch(cfg, s, e, 0));
    s' := NextState(cfg, s, e, 0);
  }

  /** A run of a burst that one more event of it can extend. */
  ghost predicate IsBurstRun(cfg: Config, run: Run, es: seq<Event>, now: nat) {
    && run.Valid(cfg) && run.Ordered() && OneChain(run.Final(), es, now)
    && (run.After? ==> run.event.timestamp == now)
  }

  lemma BurstExtends(cfg: Config, before: Run, es: seq<Event>, e: Event) returns (run: Run)
    requires OfFamily(e) && IsBurstRun(cfg, before, es, e.timestamp) && (es == [] ==> e.pid == 1)
    ensures IsBurstRun(cfg, run, es + [e], e.timestamp) && run.After? && run.before == before
  {
    var s' := BurstStep(cfg, before.Final(), es, e);
    run := RunExtends(cfg, before, e, 0, s');
  }

  /** A burst ends up in one chain. */
  lemma {:induction false} BurstRun(cfg: Config, es: seq<Event>, now: nat) returns (run: Run)
    requires Burst(es, now)
    ensures IsBurstRun(cfg, run, es, now)
  {
    if es == [] {
      run := Start;
    } else {
      var front, e := es[..|es| - 1], es[|es| - 1];
      assert front + [e] == es;
      var before := BurstRun(cfg, front, now);
      run := BurstExtends(cfg, before, front, e);
    }
  }

  /** The constant that names a maximum of events per chain is not enforced: chains of every length occur. */
  lemma ChainsOfEveryLength(cfg: Config, n: nat)
    requires n > 0
    ensures exists run: Run ::
              run.Valid(cfg) && run.Ordered() && 0 in run.Final().chains && |run.Final().chains[0].events| == n
  {
    var es := Repeat(Lone(0, 1, SuspiciousActivity), n);
    RepeatIsConstant(Lone(0, 1, SuspiciousActivity), n);
    var run := BurstRun(cfg, es, 0);
  }

  // ---------- Any number of chains up to the limit ----------

  /** Chains 0 to n-1, each of one process of its own; those from `k` on were last active at `now`. */
  ghost predicate Fleet(chains: map<ChainId, Chain>, n: nat, k: nat, earlier: nat, now: nat) {
    && (forall id: ChainId :: id in chains <==> id < n)
    && forall id | id in chains ::
         chains[id].processes == {id + 1} && chains[id].lastEventAt == if id < k then earlier else now
  }

  ghost predicate FleetState(s: State, n: nat, k: nat, earlier: nat, now: nat) {
    s.ancestry == map[] && s.nextId == n && Fleet(s.chains, n, k, earlier, now)
  }

  lemma {:induction false} FleetSize(chains: map<ChainId, Chain>, n: nat)
    requires forall id: ChainId :: id in chains <==> id < n
    ensures |chains| == n
  {
    if n == 0 {
      assert chains.Keys == {};
    } else {
      var fewer := chains - {n - 1};
      FleetSize(fewer, n - 1);
      assert chains.Keys == fewer.Keys + {n - 1};
    }
  }

  lemma FleetChooses(cfg: Config, s: State, n: nat, k: nat, earlier: nat, now: nat, id: ChainId)
    requires FleetState(s, n, k, earlier, now)
    requires id < n || (id == n == k && now >= earlier + cfg.windowMs)
    ensures Chooses(cfg, s, Lone(now, id + 1, SuspiciousActivity), [], id)
  {
    var e := Lone(now, id + 1, SuspiciousActivity);
    NoFamily(e.pid);
    if id < n {
      assert e.pid in s.chains[id].processes * RelatedProcesses(map[], e.pid, []);
      assert Joins(cfg, RelatedProcesses(map[], e.pid, []), s.chains[id], e);
    }
  }

  lemma FleetTouched(chains: map<ChainId, Chain>, n: nat, k: nat, earlier: nat, now: nat, id: ChainId,
                     all: map<ChainId, Chain>)
    requires Fleet(chains, n, k, earlier, now) && (id + 1 == k <= n || id == n == k)
    requires Touches(chains, id, now, all) && all[id].processes == {id + 1}
    ensures Fleet(all, if id == n then n + 1 else n, id, earlier, now)
  {
  }

  lemma FleetPrunes(cfg: Config, e: Event, all: map<ChainId, Chain>, n: nat, k: nat, earlier: nat)
    requires Fleet(all, n, k, earlier, e.timestamp) && n <= MAX_ACTIVE_CHAINS
    requires e.timestamp == earlier + cfg.windowMs
    ensures Prunes(cfg, e, all, all)
  {
    FleetSize(all, n);
    NothingToPrune(cfg, e, all);
  }

  lemma FleetMap(cfg: Config, s: State, n: nat, k: nat, earlier: nat, now: nat, id: ChainId)
    requires FleetState(s, n, k, earlier, now) && (id + 1 == k <= n || id == n == k)
    ensures var all := Touch(cfg, s, Lone(now, id + 1, SuspiciousActivity), id);
            Fleet(all, if id == n then n + 1 else n, id, earlier, now)
  {
    var e := Lone(now, id + 1, SuspiciousActivity);
    TouchTouches(cfg, s, e, id);
    TouchAppends(cfg, s, e, id);
    FleetTouched(s.chains, n, k, earlier, now, id, Touch(cfg, s, e, id));
  }

  /** An event of process id+1 goes to chain `id`, which may be a new one. */
  lemma FleetStep(cfg: Config, s: State, n: nat, k: nat, earlier: nat, now: nat, id: ChainId) returns (s': State)
    requires FleetState(s, n, k, earlier, now) && now == earlier + cfg.windowMs
    requires id + 1 == k <= n <= MAX_ACTIVE_CHAINS || id == n == k < MAX_ACTIVE_CHAINS
    ensures Step(cfg, s, Lone(now, id + 1, SuspiciousActivity), id, s')
    ensures FleetState(s', if id == n then n + 1 else n, id, earlier, now)
  {
    var e := Lone(now, id + 1, SuspiciousActivity);
    FleetChooses(cfg, s, n, k, earlier, now, id);
    FleetMap(cfg, s, n, k, earlier, now, id);
    FleetPrunes(cfg, e, Touch(cfg, s, e, id), if id == n then n + 1 else n, id, earlier);
    s' := NextState(cfg, s, e, id);
  }

  /** A run that ends at `now` with such a fleet. */
  ghost predicate FleetAt(cfg: Config, run: Run, n: nat, k: nat, earlier: nat, now: nat) {
    && run.Valid(cfg) && run.Ordered() && FleetState(run.Final(), n, k, earlier, now)
    && (run.After? ==> run.event.timestamp <= now)
  }

  lemma FleetExtends(cfg: Config, before: Run, n: nat, k: nat, earlier: nat, now: nat, id: ChainId)
    returns (run: Run)
    requires FleetAt(cfg, before, n, k, earlier, now) && now == earlier + cfg.windowMs
    requires id + 1 == k <= n <= MAX_ACTIVE_CHAINS || id == n == k < MAX_ACTIVE_CHAINS
    ensures FleetAt(cfg, run, if id == n then n + 1 else n, id, earlier, now)
  {
    var s' := FleetStep(cfg, before.Final(), n, k, earlier, now, id);
    run := RunExtends(cfg, before, Lone(now, id + 1, SuspiciousActivity), id, s');
  }

  /** Every chain that was not yet active at `now` gets an event then. */
  lemma {:induction false} TouchRest(cfg: Config, before: Run, n: nat, k: nat, earlier: nat, now: nat)
    returns (run: Run)
    requires FleetAt(cfg, before, n, k, earlier, now) && now == earlier + cfg.windowMs
    requires k <= n <= MAX_ACTIVE_CHAINS
    ensures FleetAt(cfg, run, n, 0, earlier, now)
    decreases k
  {
    run := before;
    if k > 0 {
      run := FleetExtends(cfg, before, n, k, earlier, now, k - 1);
      run := TouchRest(cfg, run, n, k - 1, earlier, now);
    }
  }

  lemma WindowPasses(cfg: Config, run: Run, n: nat, earlier: nat, now: nat)
    requires FleetAt(cfg, run, n, 0, earlier, now)
    ensures FleetAt(cfg, run, n, n, now, now + cfg.windowMs)
  {
  }

  /** One chain more than before, and all of them active at the same time. */
  lemma {:induction false} FleetRun(cfg: Config, n: nat) returns (run: Run, now: nat)
    requires n <= MAX_ACTIVE_CHAINS
    ensures FleetAt(cfg, run, n, n, now, now + cfg.windowMs)
  {
    if n == 0 {
      run, now := Start, 0;
    } else {
      var earlier;
      run, earlier := FleetRun(cfg, n - 1);
      now := earlier + cfg.windowMs;
      run := FleetExtends(cfg, run, n - 1, n - 1, earlier, now, n - 1);
      run := TouchRest(cfg, run, n, n - 1, earlier, now);
      WindowPasses(cfg, run, n, earlier, now);
    }
  }

  /** The limit on live chains is reached, and so is every number below it. */
  lemma EveryNumberOfChains(cfg: Config, n: nat)
    requires n <= MAX_ACTIVE_CHAINS
    ensures exists run: Run :: run.Valid(cfg) && run.Ordered() && |run.Final().chains| == n
  {
    var run, now := FleetRun(cfg, n);
    FleetSize(run.Final().chains, n);
  }

  // ---------- A first match that lowers the verdict ----------

  lemma {:induction false} NothingMatches(stages: seq<EventType>, events: seq<EventType>)
    requires forall x | x in events :: x !in stages
    ensures MatchCount(stages, events) == 0
  {
    if events != [] {
      assert events[|events| - 1] in events && (stages != [] ==> stages[0] in stages);
      NothingMatches(stages, events[..|events| - 1]);
    }
  }

  lemma {:induction false} IdleEvents(stages: seq<EventType>, events: seq<EventType>, x: EventType, n: nat)
    requires x !in stages
    ensures MatchCount(stages, events + Repeat(x, n)) == MatchCount(stages, events)
  {
    if n == 0 {
      assert events + Repeat(x, n) == events;
    } else {
      var shorter := events + Repeat(x, n - 1);
      assert (events + Repeat(x, n))[..|shorter|] == shorter;
      IdleEvents(stages, events, x, n - 1);
    }
  }

  /** One use of a system tool and nine scans of the network: many events, no pattern. */
  function Scan(): seq<EventType> { [LolbinExecution] + Repeat(NetworkEnumeration, 9) }

  function LivingOffTheLand(): Pattern {
    Pattern("Living-off-the-Land Chain", [LolbinExecution, LolbinExecution, LolbinExecution], 3, 0.75)
  }

  lemma OtherPatternsIdle(p: Pattern, events: seq<EventType>)
    requires p in LoadAttackPatterns() && p != LivingOffTheLand()
    requires forall x | x in events :: x == LolbinExecution || x == NetworkEnumeration
    ensures PatternScore(p, events).None?
  {
    assert forall x | x in p.sequence :: x != LolbinExecution && x != NetworkEnumeration;
    NothingMatches(p.sequence, events);
    ScoreThreshold(p, events);
  }

  lemma ScanCounts()
    ensures |Scan()| == 10 && forall x | x in Scan() :: x == LolbinExecution || x == NetworkEnumeration
    ensures MatchCount(LivingOffTheLand().sequence, Scan()) == 1
    ensures MatchCount(LivingOffTheLand().sequence, Scan() + [LolbinExecution]) == 2
  {
    var stages := LivingOffTheLand().sequence;
    RepeatIsConstant(NetworkEnumeration, 9);
    IdleEvents(stages, [LolbinExecution], NetworkEnumeration, 9);
    assert [LolbinExecution][..0] == [];
    assert MatchCount(stages, [LolbinExecution]) == 1;
    assert (Scan() + [LolbinExecution])[..10] == Scan();
  }

  lemma ScanMatchesNothing()
    ensures BestMatch(LoadAttackPatterns(), Scan()).None?
  {
    ScanCounts();
    forall p | p in LoadAttackPatterns() ensures PatternScore(p, Scan()).None? {
      if p == LivingOffTheLand() {
        ScoreThreshold(p, Scan());
      } else {
        OtherPatternsIdle(p, Scan());
      }
    }
    BestMatchIsMaximum(LoadAttackPatterns(), Scan());
  }

  lemma SecondToolMatches()
    ensures var best := BestMatch(LoadAttackPatterns(), Scan() + [LolbinExecution]);
            best.Some? && best.value.confidence == 0.5
  {
    var events, patterns := Scan() + [LolbinExecution], LoadAttackPatterns();
    ScanCounts();
    assert patterns[5] == LivingOffTheLand();
    assert PatternScore(LivingOffTheLand(), events) == Some(0.5);
    BestMatchIsMaximum(patterns, events);
    var p := BestMatch(patterns, events).value.pattern;
    if p != LivingOffTheLand() {
      OtherPatternsIdle(p, events);
    }
  }

  /** Those events, from a process and four children. */
  function ScanEvents(): seq<Event> { FirstFive() + Repeat(Lone(0, 1, NetworkEnumeration), 5) }

  function FirstFive(): seq<Event> {
    [ Lone(0, 1, LolbinExecution), OfChild(0, 2, NetworkEnumeration), OfChild(0, 3, NetworkEnumeration),
      OfChild(0, 4, NetworkEnumeration), OfChild(0, 5, NetworkEnumeration) ]
  }

  lemma DistinctSize<T>(xs: seq<T>, s: set<T>)
    requires forall x :: x in xs <==> x in s
    ensures |Distinct(xs)| == |s|
  {
    DistinctMeaning(xs);
    NoRepeatsSize(Distinct(xs), s);
  }

  lemma ScanTypes()
    ensures Types(ScanEvents()) == Scan()
  {
    RepeatIsConstant(Lone(0, 1, NetworkEnumeration), 5);
    RepeatIsConstant(NetworkEnumeration, 9);
  }

  lemma ScanTactics(es: seq<Event>)
    requires ScanEvents() <= es && forall e | e in es :: e.eventType.MitreTactic() in {TA0002, TA0007}
    ensures |Distinct(Tactics(es))| == 2
  {
    var ts := Tactics(es);
    assert es[0] == FirstFive()[0] && es[1] == FirstFive()[1];
    assert ts[0] == TA0002 && ts[1] == TA0007;
    forall t | t in ts ensures t in {TA0002, TA0007} {
      var i :| 0 <= i < |ts| && ts[i] == t;
      assert es[i] in es;
    }
    DistinctSize(ts, {TA0002, TA0007});
  }

  lemma ScanEventTactics(e: Event)
    requires e in ScanEvents()
    ensures e.eventType.MitreTactic() in {TA0002, TA0007}
  {
    RepeatIsConstant(Lone(0, 1, NetworkEnumeration), 5);
  }

  lemma PidsConcat(a: seq<Event>, b: seq<Event>)
    ensures Pids(a + b) == Pids(a) + Pids(b)
  {
    assert forall e :: e in a + b <==> e in a || e in b;
  }

  lemma FivePids()
    ensures Pids(FirstFive()) == {1, 2, 3, 4, 5} && |Pids(FirstFive())| == 5
  {
    var es := FirstFive();
    assert es[0] in es && es[1] in es && es[2] in es && es[3] in es && es[4] in es;
    assert Pids(es) == {1, 2, 3, 4, 5};
  }

  lemma ScanProcesses()
    ensures |Pids(ScanEvents())| == 5
  {
    var rest := Repeat(Lone(0, 1, NetworkEnumeration), 5);
    RepeatIsConstant(Lone(0, 1, NetworkEnumeration), 5);
    PidsConcat(FirstFive(), rest);
    FivePids();
    assert Pids(rest) <= {1};
    assert Pids(FirstFive()) + Pids(rest) == Pids(FirstFive());
  }

  lemma ScanIsBurst()
    ensures Burst(ScanEvents(), 0) && |ScanEvents()| == 10
  {
    RepeatIsConstant(Lone(0, 1, NetworkEnumeration), 5);
  }

  lemma UnmatchedVerdict(patterns: seq<Pattern>, c: Chain, es: seq<Event>)
    requires Describes(patterns, c, es) && BestMatch(patterns, Types(es)).None?
    requires |Distinct(Tactics(es))| == 2 && |es| == 10 && |Pids(es)| == 5
    ensures c.confidence == 0.7 && c.severity == High
  {
    assert c.confidence == FallbackConfidence(2, 10, 5);
  }

  lemma MatchedVerdict(patterns: seq<Pattern>, c: Chain, es: seq<Event>)
    requires Describes(patterns, c, es) && |es| > 1 && |Distinct(Tactics(es))| == 2
    requires BestMatch(patterns, Types(es)).Some? && BestMatch(patterns, Types(es)).value.confidence == 0.5
    ensures c.confidence == 0.5 && c.severity == Medium
  {
  }

  /** The run's last event takes chain 0 from high to medium severity. */
  ghost predicate LowersVerdict(cfg: Config, run: Run) {
    && run.Valid(cfg) && run.Ordered() && run.After?
    && 0 in run.before.Final().chains && 0 in run.state.chains
    && run.before.Final().chains[0].confidence == 0.7 && run.before.Final().chains[0].severity == High
    && run.state.chains[0].confidence == 0.5 && run.state.chains[0].severity == Medium
  }

  lemma BurstLowersVerdict(cfg: Config, es: seq<Event>, e: Event) returns (run: Run)
    requires NonNegative(cfg.patterns) && Burst(es, e.timestamp) && OfFamily(e)
    requires BestMatch(cfg.patterns, Types(es)).None?
    requires |Distinct(Tactics(es))| == 2 && |es| == 10 && |Pids(es)| == 5
    requires var best := BestMatch(cfg.patterns, Types(es + [e])); best.Some? && best.value.confidence == 0.5
    requires |Distinct(Tactics(es + [e]))| == 2
    ensures LowersVerdict(cfg, run)
  {
    var before := BurstRun(cfg, es, e.timestamp);
    run := BurstExtends(cfg, before, es, e);
    ChainsRecordTheirEvents(cfg, before);
    ChainsRecordTheirEvents(cfg, run);
    UnmatchedVerdict(cfg.patterns, before.Final().chains[0], es);
    MatchedVerdict(cfg.patterns, run.Final().chains[0], es + [e]);
  }

  lemma TwoTactics()
    ensures |Distinct(Tactics(ScanEvents()))| == 2
    ensures |Distinct(Tactics(ScanEvents() + [Lone(0, 1, LolbinExecution)]))| == 2
  {
    var es, e := ScanEvents(), Lone(0, 1, LolbinExecution);
    forall x | x in es ensures x.eventType.MitreTactic() in {TA0002, TA0007} {
      ScanEventTactics(x);
    }
    ScanTactics(es);
    ScanTactics(es + [e]);
  }

  /** Ten events that match nothing and an eleventh that brings the first match. */
  lemma ScanExample() returns (patterns: seq<Pattern>, es: seq<Event>, e: Event)
    ensures patterns == LoadAttackPatterns() && Burst(es, e.timestamp) && OfFamily(e)
    ensures BestMatch(patterns, Types(es)).None?
    ensures |Distinct(Tactics(es))| == 2 && |es| == 10 && |Pids(es)| == 5
    ensures var best := BestMatch(patterns, Types(es + [e])); best.Some? && best.value.confidence == 0.5
    ensures |Distinct(Tactics(es + [e]))| == 2
  {
    patterns, es, e := LoadAttackPatterns(), ScanEvents(), Lone(0, 1, LolbinExecution);
    ScanTypes();
    TwoTactics();
    ScanProcesses();
    ScanIsBurst();
    ScanMatchesNothing();
    SecondToolMatches();
    assert Types(es + [e]) == Scan() + [LolbinExecution];
  }

  /** With the built-in patterns a chain of high severity can fall to medium severity by its first match. */
  lemma FirstMatchLowersVerdict(windowMs: nat)
    ensures exists run: Run :: LowersVerdict(Config(LoadAttackPatterns(), windowMs), run)
  {
    var patterns, es, e := ScanExample();
    var run := BurstLowersVerdict(Config(patterns, windowMs), es, e);
  }
}
