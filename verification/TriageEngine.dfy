/** The triage engine as an object. */
module TriageEngine {
  import opened IntegerFacts
  import opened Options
  import opened EventTriage
  import opened Subsequences

  class Engine {
    const cfg: Config
    var table: map<Key, DedupEntry>
    var stats: Stats
    var sampleCounter: nat
    var lastFlush: nat

    ghost var start: nat  // the time of creation
    ghost var ops: seq<Op>  // everything that happened since

    ghost function View(): State
      reads this
    {
      State(table, stats, sampleCounter, lastFlush)
    }

    /** The object is in the state the model reaches on the same history. */
    ghost predicate Valid()
      reads this
    {
      UsableConfig(cfg) && View() == RunFrom(cfg, Start(start), ops)
    }

    constructor (cfg: Config, now: nat)
      requires UsableConfig(cfg)
      ensures Valid() && this.cfg == cfg && start == now && ops == []
    {
      this.cfg := cfg;
      start, ops := now, [];
      table, stats, sampleCounter, lastFlush := map[], Stats(0, 0, 0, 0, 0, 0), 0, now;
    }

    /** A batch: every event in turn, then the flush check. */
    method FilterBatch(batch: seq<Arrival>, flushNow: nat) returns (output: seq<Event>)
      requires Valid()
      modifies this
      ensures Valid() && start == old(start) && Sound(cfg, start, ops, View())
      ensures ops == if cfg.enabled then old(ops) + Arrivals(batch) + [FlushCheck(flushNow)] else old(ops)
      ensures output == if cfg.enabled then Output(cfg, old(View()), batch) else Inputs(batch)
      ensures IsSubsequence(StrippedAll(output), StrippedAll(Inputs(batch)))
      ensures UrgentOnly(output) == UrgentOnly(Inputs(batch))
    {
      if !cfg.enabled {
        RunSound(cfg, start, ops);
        IsItsOwnSubsequence(StrippedAll(Inputs(batch)));
        return Inputs(batch);
      }
      OutputIsSubsequence(cfg, View(), batch);
      output := ReceiveAll(batch);
      MaybeFlushDedup(flushNow);
    }

    /** The batch loop. */
    method ReceiveAll(batch: seq<Arrival>) returns (output: seq<Event>)
      requires Valid()
      modifies this`table, this`stats, this`sampleCounter, this`ops
      ensures Valid() && ops == old(ops) + Arrivals(batch)
      ensures output == Output(cfg, old(View()), batch)
    {
      output := [];
      for i := 0 to |batch|
        invariant Valid() && ops == old(ops) + Arrivals(batch[..i])
        invariant View() == RunFrom(cfg, old(View()), Arrivals(batch[..i]))
        invariant output == Output(cfg, old(View()), batch[..i])
      {
        ArrivalsAppend(batch, i);
        var passed := ReceiveEvent(batch[i], old(View()), batch[..i]);
        if passed.Some? {
          output := output + [passed.value];
        }
      }
      assert batch[..|batch|] == batch;
    }

    /** One turn of the batch loop, after the events `before` of the batch that began in state `s`. */
    method ReceiveEvent(a: Arrival, ghost s: State, ghost before: seq<Arrival>) returns (passed: Option<Event>)
      requires Valid() && View() == RunFrom(cfg, s, Arrivals(before))
      modifies this`table, this`stats, this`sampleCounter, this`ops
      ensures Valid() && ops == old(ops) + [Arrive(a)]
      ensures View() == RunFrom(cfg, s, Arrivals(before + [a]))
      ensures Output(cfg, s, before + [a])
           == Output(cfg, s, before) + if passed.Some? then [passed.value] else []
      ensures MustPass(a.event) ==> passed == Some(a.event)
    {
      PassedIsInput(cfg, View(), a);
      BatchAppend(cfg, s, before, a);
      RunAppend(cfg, Start(start), ops, Arrive(a));
      passed := CountEvent(a);
      ops := ops + [Arrive(a)];
    }

    /** Process one event and count it as received, and as passed if it passes. */
    method CountEvent(a: Arrival) returns (passed: Option<Event>)
      requires UsableConfig(cfg)
      modifies this`table, this`stats, this`sampleCounter
      ensures View() == Receive(cfg, old(View()), a)
      ensures var v := Judge(cfg, old(View()), a); passed == if v.Passed? then Some(v.event) else None
    {
      stats := stats.(received := stats.received + 1);
      passed := ProcessEvent(a);
      if passed.Some? {
        stats := stats.(passed := stats.passed + 1);
      }
    }

    /** One event; the counts of received and passed events belong to the caller. */
    method ProcessEvent(a: Arrival) returns (passed: Option<Event>)
      requires UsableConfig(cfg)
      modifies this`table, this`stats, this`sampleCounter
      ensures var v := Judge(cfg, old(View()), a);
              && passed == (if v.Passed? then Some(v.event) else None)
              && stats == Count(old(stats), v).(received := old(stats.received), passed := old(stats.passed))
              && table == Receive(cfg, old(View()), a).table
              && sampleCounter == Receive(cfg, old(View()), a).sampleCounter
    {
      var priority := Classify(a.event);
      if priority.Noise? {
        stats := stats.(noise := stats.noise + 1);
        return None;
      }
      if priority.Urgent() {
        return Some(a.event);
      }
      var event := a.event;
      var duplicate;
      duplicate, event := Deduplicate(a);
      if duplicate {
        stats := stats.(deduplicated := stats.deduplicated + 1);
        return None;
      }
      if priority.Low? {
        var rate := if a.pressure.Some? then cfg.lowSampleRate * a.pressure.value.Multiplier() else cfg.lowSampleRate;
        sampleCounter := sampleCounter + 1;
        if sampleCounter % rate != 0 {
          stats := stats.(sampledOut := stats.sampledOut + 1);
          return None;
        }
      }
      if priority.Medium? && a.pressure.Some? && a.pressure.value.AsU8() >= 2 {
        var level := a.pressure.value.AsU8();
        var rate := if level == 2 then 3 else if level == 3 then 5 else 10;
        sampleCounter := sampleCounter + 1;
        if sampleCounter % rate != 0 {
          stats := stats.(sampledOut := stats.sampledOut + 1);
          return None;
        }
      }
      return Some(event);
    }

    /** The dedup stage: merge into an open window, or open one. */
    method Deduplicate(a: Arrival) returns (duplicate: bool, event: Event)
      modifies this`table
      ensures duplicate == InWindow(cfg, old(table), a)
      ensures event == if duplicate then a.event else Opened(cfg, old(table), a)
      ensures table == TableAfter(cfg, old(table), a)
    {
      event := a.event;
      var key := cfg.keyOf(event);
      if key in table {
        var entry := table[key];
        if SaturatingSub(a.now, entry.createdAt) < cfg.window {
          table := table[key := entry.(count := entry.count + 1, lastSeen := a.now)];
          return true, event;
        }
        if entry.count > 1 {
          event := event.(metadata := event.metadata[PREVIOUS_COUNT := Decimal(entry.count)]);
        }
        table := table[key := DedupEntry(1, a.now, a.now)];
      } else if |table| < cfg.maxEntries {
        table := table[key := DedupEntry(1, a.now, a.now)];
      }
      return false, event;
    }

    /** Expired entries go; no window that a later arrival could still fall into is lost, and none reopens. */
    method MaybeFlushDedup(now: nat)
      requires Valid()
      modifies this`table, this`stats, this`lastFlush, this`ops
      ensures Valid() && ops == old(ops) + [FlushCheck(now)] && Sound(cfg, start, ops, View())
      ensures Monotone(start, old(ops)) ==>
                forall a: Arrival | now <= a.now :: InWindow(cfg, table, a) <==> InWindow(cfg, old(table), a)
      ensures SaturatingSub(now, old(lastFlush)) < cfg.window ==> table == old(table) && lastFlush == old(lastFlush)
      ensures SaturatingSub(now, old(lastFlush)) >= cfg.window ==>
                && lastFlush == now && stats.tableSize == |table|
                && forall k :: k in table <==>
                     k in old(table) && SaturatingSub(now, old(table)[k].lastSeen) < cfg.window
    {
      ghost var s := View();
      if Monotone(start, ops) {
        forall a: Arrival | now <= a.now
          ensures InWindow(cfg, Flush(cfg, s, now).table, a) <==> InWindow(cfg, s.table, a)
        {
          FlushKeepsWindows(cfg, start, ops, now, a);
        }
      }
      if SaturatingSub(now, lastFlush) >= cfg.window {
        lastFlush := now;
        table := Fresh(cfg, table, now);
        stats := stats.(tableSize := |table|);
      }
      RunAppend(cfg, Start(start), ops, FlushCheck(now));
      ops := ops + [FlushCheck(now)];
      RunSound(cfg, start, ops);
    }

    /** The counters restart at zero and in balance; no later arrival is judged differently. */
    method ResetCounters()
      requires Valid()
      modifies this`stats, this`ops
      ensures Valid() && ops == old(ops) + [Reset] && Sound(cfg, start, ops, View())
      ensures stats == Stats(0, 0, 0, 0, 0, |table|)
      ensures forall a :: Judge(cfg, View(), a) == Judge(cfg, old(View()), a)
    {
      stats := Stats(0, 0, 0, 0, 0, |table|);
      RunAppend(cfg, Start(start), ops, Reset);
      ops := ops + [Reset];
      RunSound(cfg, start, ops);
    }
  }
}
