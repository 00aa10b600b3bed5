/** Event triage: priority, deduplication windows, sampling and counters. */
module EventTriage {
  import opened Collections
  import opened Options
  import opened IntegerFacts
  import opened Subsequences
  import Governor = ResourceGovernor

  // ---------- Events and priorities ----------

  datatype Severity = Info | LowSeverity | MediumSeverity | HighSeverity | CriticalSeverity

  datatype EventType =
    | ProcessInject | ProcessHollowing | MemoryPermissionChange | UnbackedThreadStart | ModuleStomping
    | TransactedHollowing | ThreadHijacking | ProcessDoppelganging | HoneyfileAccess | DecoyServiceAccess
    | FileExecuteBlocked | DriverLoad | ResponseAction
    | ProcessCreate | ProcessTerminate | AuthLogin | AuthFailed | RegistryCreate | RegistrySetValue
    | RegistryDelete | MemoryScan | ForensicCollection | FileExecute | CertificateAnomaly | NetworkAnomaly
    | NetworkFingerprint
    | FileCreate | FileModify | FileDelete | FileRename | DnsQuery | NetworkConnect | NetworkClose | ModuleLoad
    | FileIntegrity | WmiActivity
    | NetworkListen | AuthLogout
    | OtherType

  datatype Event = Event(eventType: EventType, severity: Severity, detections: seq<string>, payload: string,
                         metadata: map<string, string>)

  datatype Priority = Noise | Low | Medium | High | Critical
  {
    predicate Urgent() { High? || Critical? }
  }

  function Classify(e: Event): Priority {
    if e.detections != [] then Critical
    else if e.severity.CriticalSeverity? then Critical
    else if e.severity.HighSeverity? then High
    else
      match e.eventType
      case ProcessInject | ProcessHollowing | MemoryPermissionChange | UnbackedThreadStart | ModuleStomping
         | TransactedHollowing | ThreadHijacking | ProcessDoppelganging | HoneyfileAccess | DecoyServiceAccess
         | FileExecuteBlocked | DriverLoad | ResponseAction => Critical
      case ProcessCreate | ProcessTerminate | AuthLogin | AuthFailed | RegistryCreate | RegistrySetValue
         | RegistryDelete | MemoryScan | ForensicCollection | FileExecute | CertificateAnomaly | NetworkAnomaly
         | NetworkFingerprint => High
      case NetworkListen | AuthLogout => Low
      case _ => Medium
  }

  /** The event types that stand for active threats. */
  predicate CriticalType(t: EventType) {
    || t.ProcessInject? || t.ProcessHollowing? || t.MemoryPermissionChange? || t.UnbackedThreadStart?
    || t.ModuleStomping? || t.TransactedHollowing? || t.ThreadHijacking? || t.ProcessDoppelganging?
    || t.HoneyfileAccess? || t.DecoyServiceAccess? || t.FileExecuteBlocked? || t.DriverLoad? || t.ResponseAction?
  }

  /** Further types that are always sent. */
  predicate HighType(t: EventType) {
    || t.ProcessCreate? || t.ProcessTerminate? || t.AuthLogin? || t.AuthFailed? || t.RegistryCreate?
    || t.RegistrySetValue? || t.RegistryDelete? || t.MemoryScan? || t.ForensicCollection? || t.FileExecute?
    || t.CertificateAnomaly? || t.NetworkAnomaly? || t.NetworkFingerprint?
  }

  predicate LowType(t: EventType) { t.NetworkListen? || t.AuthLogout? }

  /** By its own fields: a detection, high or critical severity, or a type that is always sent. */
  predicate MustPass(e: Event) {
    || e.detections != [] || e.severity.HighSeverity? || e.severity.CriticalSeverity?
    || CriticalType(e.eventType) || HighType(e.eventType)
  }

  /** Which priority an event gets, by its fields; none is ever taken for noise. */
  lemma PriorityByFields(e: Event)
    ensures Classify(e).Urgent() <==> MustPass(e)
    ensures Classify(e).Critical? <==> e.detections != [] || e.severity.CriticalSeverity?
                                       || (!e.severity.HighSeverity? && CriticalType(e.eventType))
    ensures Classify(e).Low? <==> !MustPass(e) && LowType(e.eventType)
    ensures Classify(e).Medium? <==> !MustPass(e) && !LowType(e.eventType)
    ensures Dedupable(e) <==> !MustPass(e)
  {
  }

  // ---------- State ----------

  type Key = nat

  /** `keyOf` stands for the hash of the event type and the start of the payload. */
  datatype Config = Config(enabled: bool, window: nat, maxEntries: nat, lowSampleRate: nat, keyOf: Event -> Key)

  datatype DedupEntry = DedupEntry(count: nat, createdAt: nat, lastSeen: nat)

  datatype Stats = Stats(received: nat, passed: nat, deduplicated: nat, sampledOut: nat, noise: nat, tableSize: nat)

  datatype State = State(table: map<Key, DedupEntry>, stats: Stats, sampleCounter: nat, lastFlush: nat)

  /** An event with the clock reading and the governor level it is processed under. */
  datatype Arrival = Arrival(event: Event, now: nat, pressure: Option<Governor.PressureLevel>)

  // ---------- One event ----------

  function Decimal(n: nat): string {
    if n < 10 then ["0123456789"[n]] else Decimal(n / 10) + ["0123456789"[n % 10]]
  }

  function FromDecimal(s: string): nat {
    if s == [] then 0 else FromDecimal(s[..|s| - 1]) * 10 + DigitValue(s[|s| - 1])
  }

  function DigitValue(c: char): nat { if '0' <= c <= '9' then (c - '0') as nat else 0 }

  /** The annotation can be read back as the number, and has no leading zero. */
  lemma {:induction false} DecimalReadsBack(n: nat)
    ensures Decimal(n) != [] && FromDecimal(Decimal(n)) == n
    ensures n > 0 ==> Decimal(n)[0] != '0'
  {
    if n >= 10 {
      DecimalReadsBack(n / 10);
      var s := Decimal(n / 10);
      assert (s + ["0123456789"[n % 10]])[..|s|] == s;
    } else {
      assert Decimal(n)[..0] == [];
    }
  }

  const PREVIOUS_COUNT := "dedup_prev_count"

  /** The event opening a new window carries the size of the one before, if that had repeats. */
  function Annotated(e: Event, count: nat): Event {
    if count > 1 then e.(metadata := e.metadata[PREVIOUS_COUNT := Decimal(count)]) else e
  }

  predicate InWindow(cfg: Config, table: map<Key, DedupEntry>, a: Arrival) {
    var key := cfg.keyOf(a.event);
    key in table && SaturatingSub(a.now, table[key].createdAt) < cfg.window
  }

  /** The event as it leaves the dedup stage, when it is not a duplicate. */
  function Opened(cfg: Config, table: map<Key, DedupEntry>, a: Arrival): Event {
    var key := cfg.keyOf(a.event);
    if key in table then Annotated(a.event, table[key].count) else a.event
  }

  function TableAfter(cfg: Config, table: map<Key, DedupEntry>, a: Arrival): map<Key, DedupEntry> {
    var key := cfg.keyOf(a.event);
    if InWindow(cfg, table, a) then table[key := table[key].(count := table[key].count + 1, lastSeen := a.now)]
    else if key in table || |table| < cfg.maxEntries then
      table[key := DedupEntry(1, a.now, a.now)]
    else table
  }

  /** One in how many events of this priority is kept; none means all. */
  function SampleRate(cfg: Config, p: Priority, pressure: Option<Governor.PressureLevel>): Option<nat> {
    match p
    case Low =>
      Some(if pressure.Some? then cfg.lowSampleRate * pressure.value.Multiplier() else cfg.lowSampleRate)
    case Medium =>
      if pressure.None? then None
      else
        (match pressure.value
         case Moderate => Some(3)
         case Heavy => Some(5)
         case Critical => Some(10)
         case _ => None)
    case _ => None
  }

  /** A sample rate of zero would divide by zero. */
  predicate UsableConfig(cfg: Config) { cfg.lowSampleRate >= 1 }

  datatype Verdict = Passed(event: Event) | Duplicate | SampledOut | DroppedNoise

  function Judge(cfg: Config, s: State, a: Arrival): Verdict
    requires UsableConfig(cfg)
  {
    var p := Classify(a.event);
    if p.Noise? then DroppedNoise
    else if p.Urgent() then Passed(a.event)
    else if InWindow(cfg, s.table, a) then Duplicate
    else
      var rate := SampleRate(cfg, p, a.pressure);
      if rate.Some? && (s.sampleCounter + 1) % rate.value != 0 then SampledOut
      else Passed(Opened(cfg, s.table, a))
  }

  function Count(st: Stats, v: Verdict): Stats {
    var st := st.(received := st.received + 1);
    match v
    case Passed(_) => st.(passed := st.passed + 1)
    case Duplicate => st.(deduplicated := st.deduplicated + 1)
    case SampledOut => st.(sampledOut := st.sampledOut + 1)
    case DroppedNoise => st.(noise := st.noise + 1)
  }

  predicate Dedupable(e: Event) {
    var p := Classify(e);
    !p.Noise? && !p.Urgent()
  }

  function Receive(cfg: Config, s: State, a: Arrival): State
    requires UsableConfig(cfg)
  {
    var v := Judge(cfg, s, a);
    if !Dedupable(a.event) then s.(stats := Count(s.stats, v))
    else
      var sampled := !v.Duplicate? && SampleRate(cfg, Classify(a.event), a.pressure).Some?;
      s.(stats := Count(s.stats, v), table := TableAfter(cfg, s.table, a),
         sampleCounter := s.sampleCounter + if sampled then 1 else 0)
  }

  function Fresh(cfg: Config, table: map<Key, DedupEntry>, now: nat): map<Key, DedupEntry> {
    map k | k in table && SaturatingSub(now, table[k].lastSeen) < cfg.window :: table[k]
  }

  function Flush(cfg: Config, s: State, now: nat): State {
    if SaturatingSub(now, s.lastFlush) < cfg.window then s
    else
      var table := Fresh(cfg, s.table, now);
      s.(table := table, lastFlush := now, stats := s.stats.(tableSize := |table|))
  }

  function ResetStats(s: State): State { s.(stats := Stats(0, 0, 0, 0, 0, |s.table|)) }

  // ---------- Runs ----------

  /** What happens to the engine: arrivals, the flush check after a batch, and statistics resets. */
  datatype Op = Arrive(arrival: Arrival) | FlushCheck(now: nat) | Reset

  function Step(cfg: Config, s: State, op: Op): State
    requires UsableConfig(cfg)
  {
    match op
    case Arrive(a) => Receive(cfg, s, a)
    case FlushCheck(now) => Flush(cfg, s, now)
    case Reset => ResetStats(s)
  }

  function Start(now: nat): State { State(map[], Stats(0, 0, 0, 0, 0, 0), 0, now) }

  function RunFrom(cfg: Config, s: State, ops: seq<Op>): State
    requires UsableConfig(cfg)
  {
    if ops == [] then s else Step(cfg, RunFrom(cfg, s, ops[..|ops| - 1]), ops[|ops| - 1])
  }

  lemma RunAppend(cfg: Config, s: State, ops: seq<Op>, op: Op)
    requires UsableConfig(cfg)
    ensures RunFrom(cfg, s, ops + [op]) == Step(cfg, RunFrom(cfg, s, ops), op)
  {
    assert (ops + [op])[..|ops|] == ops;
  }

  // ---------- The dedup table against the history ----------

  predicate ArrivesFor(cfg: Config, op: Op, key: Key) {
    op.Arrive? && Dedupable(op.arrival.event) && cfg.keyOf(op.arrival.event) == key
  }

  /** Start of the latest window for a key, from the arrivals alone: no table, no flushes. */
  function WindowStart(cfg: Config, ops: seq<Op>, key: Key): Option<nat> {
    if ops == [] then None
    else
      var w, op := WindowStart(cfg, ops[..|ops| - 1], key), ops[|ops| - 1];
      if !ArrivesFor(cfg, op, key) then w
      else if w.Some? && SaturatingSub(op.arrival.now, w.value) < cfg.window then w
      else Some(op.arrival.now)
  }

  /** Number of arrivals in that window. */
  function WindowSize(cfg: Config, ops: seq<Op>, key: Key): nat {
    if ops == [] then 0
    else
      var front, op := ops[..|ops| - 1], ops[|ops| - 1];
      var w := WindowStart(cfg, front, key);
      if !ArrivesFor(cfg, op, key) then WindowSize(cfg, front, key)
      else if w.Some? && SaturatingSub(op.arrival.now, w.value) < cfg.window then WindowSize(cfg, front, key) + 1
      else 1
  }

  /** Clock readings do not go back; `Clock` is the latest one. */
  function Clock(start: nat, ops: seq<Op>): nat {
    if ops == [] then start
    else
      match ops[|ops| - 1]
      case Arrive(a) => a.now
      case FlushCheck(now) => now
      case Reset => Clock(start, ops[..|ops| - 1])
  }

  ghost predicate Monotone(start: nat, ops: seq<Op>) {
    ops != [] ==>
      Monotone(start, ops[..|ops| - 1]) && Clock(start, ops[..|ops| - 1]) <= Clock(start, ops)
  }

  /** No arrival of this key found the table full and the key absent. */
  ghost predicate KeyNeverRefused(cfg: Config, start: nat, ops: seq<Op>, key: Key)
    requires UsableConfig(cfg)
  {
    ops != [] ==>
      var front, op := ops[..|ops| - 1], ops[|ops| - 1];
      && KeyNeverRefused(cfg, start, front, key)
      && (ArrivesFor(cfg, op, key) ==>
            var table := RunFrom(cfg, Start(start), front).table;
            key in table || |table| < cfg.maxEntries)
  }

  /** One key of the table agrees with the history: present with the window's data, or absent and expired. */
  ghost predicate KeyAgrees(cfg: Config, table: map<Key, DedupEntry>, w: Option<nat>, size: nat, now: nat, key: Key) {
    if key in table then
      var entry := table[key];
      w == Some(entry.createdAt) && entry.count == size && entry.createdAt <= entry.lastSeen <= now
    else w.Some? ==> SaturatingSub(now, w.value) >= cfg.window
  }

  lemma ArrivalKeepsAgreement(cfg: Config, table: map<Key, DedupEntry>, a: Arrival, now: nat,
                              w: Option<nat>, size: nat, key: Key)
    requires now <= a.now && KeyAgrees(cfg, table, w, size, now, key)
    requires cfg.keyOf(a.event) == key ==> key in table || |table| < cfg.maxEntries
    ensures var mine := cfg.keyOf(a.event) == key;
            var continues := w.Some? && SaturatingSub(a.now, w.value) < cfg.window;
            var w' := if mine && !continues then Some(a.now) else w;
            var size' := if !mine then size else if continues then size + 1 else 1;
            KeyAgrees(cfg, TableAfter(cfg, table, a), w', size', a.now, key)
  {
  }

  lemma FlushKeepsAgreement(cfg: Config, table: map<Key, DedupEntry>, now: nat, now': nat,
                            w: Option<nat>, size: nat, key: Key)
    requires now <= now' && KeyAgrees(cfg, table, w, size, now, key)
    ensures KeyAgrees(cfg, table, w, size, now', key)
    ensures KeyAgrees(cfg, Fresh(cfg, table, now'), w, size, now', key)
  {
  }

  /** For a key that is never refused, table and history agree, whatever happens to others and whenever flushes run. */
  lemma {:induction false} TableAgrees(cfg: Config, start: nat, ops: seq<Op>, key: Key)
    requires UsableConfig(cfg) && Monotone(start, ops) && KeyNeverRefused(cfg, start, ops, key)
    ensures KeyAgrees(cfg, RunFrom(cfg, Start(start), ops).table, WindowStart(cfg, ops, key), WindowSize(cfg, ops, key),
                      Clock(start, ops), key)
  {
    if ops != [] {
      var front, op := ops[..|ops| - 1], ops[|ops| - 1];
      TableAgrees(cfg, start, front, key);
      var table := RunFrom(cfg, Start(start), front).table;
      var w, size := WindowStart(cfg, front, key), WindowSize(cfg, front, key);
      match op
      case Arrive(a) =>
        if Dedupable(a.event) {
          ArrivalKeepsAgreement(cfg, table, a, Clock(start, front), w, size, key);
        } else {
          FlushKeepsAgreement(cfg, table, Clock(start, front), a.now, w, size, key);
        }
      case FlushCheck(now) =>
        FlushKeepsAgreement(cfg, table, Clock(start, front), now, w, size, key);
      case Reset =>
    }
  }

  /** The latest window of the arrival's key is still open. */
  predicate WindowOpen(cfg: Config, ops: seq<Op>, a: Arrival) {
    var w := WindowStart(cfg, ops, cfg.keyOf(a.event));
    w.Some? && SaturatingSub(a.now, w.value) < cfg.window
  }

  /** An event is a duplicate exactly when the latest window of its key is still open. */
  lemma DuplicateIffWindowOpen(cfg: Config, start: nat, ops: seq<Op>, a: Arrival)
    requires UsableConfig(cfg) && Monotone(start, ops) && Clock(start, ops) <= a.now
    requires KeyNeverRefused(cfg, start, ops, cfg.keyOf(a.event))
    ensures Judge(cfg, RunFrom(cfg, Start(start), ops), a).Duplicate?
            <==> Dedupable(a.event) && WindowOpen(cfg, ops, a)
  {
    TableAgrees(cfg, start, ops, cfg.keyOf(a.event));
  }

  /**
   * An event passes with the size of its key's previous window if the table still knows that window
   * and it had repeats, and otherwise as it came.
   */
  lemma AnnotationIsWindowSize(cfg: Config, start: nat, ops: seq<Op>, a: Arrival)
    requires UsableConfig(cfg) && Monotone(start, ops) && Clock(start, ops) <= a.now
    requires KeyNeverRefused(cfg, start, ops, cfg.keyOf(a.event))
    requires !MustPass(a.event) && Judge(cfg, RunFrom(cfg, Start(start), ops), a).Passed?
    ensures var s, key := RunFrom(cfg, Start(start), ops), cfg.keyOf(a.event);
            var size := WindowSize(cfg, ops, key);
            Judge(cfg, s, a).event
            == if key in s.table && size > 1
               then a.event.(metadata := a.event.metadata[PREVIOUS_COUNT := Decimal(size)])
               else a.event
  {
    PriorityByFields(a.event);
    TableAgrees(cfg, start, ops, cfg.keyOf(a.event));
  }

  /** Once an arrival is refused, its own immediate repeat is let through. */
  lemma RefusalForgets(cfg: Config, start: nat, ops: seq<Op>, a: Arrival)
    requires UsableConfig(cfg) && cfg.window > 0 && Dedupable(a.event)
    requires var table := RunFrom(cfg, Start(start), ops).table;
             cfg.keyOf(a.event) !in table && |table| >= cfg.maxEntries
    ensures var ops' := ops + [Arrive(a)];
            !Judge(cfg, RunFrom(cfg, Start(start), ops'), a).Duplicate? && WindowOpen(cfg, ops', a)
  {
    assert (ops + [Arrive(a)])[..|ops|] == ops;
  }

  /** Whatever arrives next for the key is called a duplicate exactly when the window is open. */
  ghost predicate JudgedByWindow(cfg: Config, start: nat, ops: seq<Op>, key: Key)
    requires UsableConfig(cfg)
  {
    forall a: Arrival | Dedupable(a.event) && cfg.keyOf(a.event) == key && Clock(start, ops) <= a.now ::
      Judge(cfg, RunFrom(cfg, Start(start), ops), a).Duplicate? <==> WindowOpen(cfg, ops, a)
  }

  /** The same at every moment of the run. */
  ghost predicate AlwaysJudgedByWindow(cfg: Config, start: nat, ops: seq<Op>, key: Key)
    requires UsableConfig(cfg)
  {
    JudgedByWindow(cfg, start, ops, key)
    && (ops != [] ==> AlwaysJudgedByWindow(cfg, start, ops[..|ops| - 1], key))
  }

  lemma {:induction false} NeverRefusedIsExact(cfg: Config, start: nat, ops: seq<Op>, key: Key)
    requires UsableConfig(cfg) && Monotone(start, ops)
    requires cfg.window == 0 || KeyNeverRefused(cfg, start, ops, key)
    ensures AlwaysJudgedByWindow(cfg, start, ops, key)
  {
    if cfg.window > 0 {
      TableAgrees(cfg, start, ops, key);
    }
    if ops != [] {
      NeverRefusedIsExact(cfg, start, ops[..|ops| - 1], key);
    }
  }

  lemma {:induction false} ExactIsNeverRefused(cfg: Config, start: nat, ops: seq<Op>, key: Key)
    requires UsableConfig(cfg) && Monotone(start, ops) && cfg.window > 0
    requires AlwaysJudgedByWindow(cfg, start, ops, key)
    ensures KeyNeverRefused(cfg, start, ops, key)
  {
    if ops != [] {
      var front, op := ops[..|ops| - 1], ops[|ops| - 1];
      ExactIsNeverRefused(cfg, start, front, key);
      var table := RunFrom(cfg, Start(start), front).table;
      assert front + [op] == ops;
      if ArrivesFor(cfg, op, key) && key !in table && |table| >= cfg.maxEntries {
        RefusalForgets(cfg, start, front, op.arrival);
      }
    }
  }

  /** Windows of a key are kept exactly on every run in which it is never refused, and on no other. */
  lemma ExactIffNeverRefused(cfg: Config, start: nat, ops: seq<Op>, key: Key)
    requires UsableConfig(cfg) && Monotone(start, ops)
    ensures AlwaysJudgedByWindow(cfg, start, ops, key)
            <==> cfg.window == 0 || KeyNeverRefused(cfg, start, ops, key)
  {
    if cfg.window == 0 || KeyNeverRefused(cfg, start, ops, key) {
      NeverRefusedIsExact(cfg, start, ops, key);
    } else if AlwaysJudgedByWindow(cfg, start, ops, key) {
      ExactIsNeverRefused(cfg, start, ops, key);
    }
  }

  // ---------- What flushes and resets change ----------

  ghost predicate Ordered(table: map<Key, DedupEntry>, now: nat) {
    forall k | k in table :: table[k].createdAt <= table[k].lastSeen <= now
  }

  lemma ArrivalKeepsOrder(cfg: Config, table: map<Key, DedupEntry>, a: Arrival, now: nat)
    requires Ordered(table, now) && now <= a.now
    ensures Ordered(table, a.now) && Ordered(TableAfter(cfg, table, a), a.now)
  {
  }

  /** On every ordered run an entry's window opens no later than its last arrival. */
  lemma {:induction false} EntriesOrdered(cfg: Config, start: nat, ops: seq<Op>)
    requires UsableConfig(cfg) && Monotone(start, ops)
    ensures Ordered(RunFrom(cfg, Start(start), ops).table, Clock(start, ops))
  {
    if ops != [] {
      var front, op := ops[..|ops| - 1], ops[|ops| - 1];
      EntriesOrdered(cfg, start, front);
      if op.Arrive? {
        ArrivalKeepsOrder(cfg, RunFrom(cfg, Start(start), front).table, op.arrival, Clock(start, front));
      }
    }
  }

  /** Time of the latest arrival for a key. */
  function LastArrival(cfg: Config, ops: seq<Op>, key: Key): Option<nat> {
    if ops == [] then None
    else if ArrivesFor(cfg, ops[|ops| - 1], key) then Some(ops[|ops| - 1].arrival.now)
    else LastArrival(cfg, ops[..|ops| - 1], key)
  }

  /** On every run, what counts for a flush is the time of the key's latest arrival. */
  lemma {:induction false} LastSeenIsLastArrival(cfg: Config, start: nat, ops: seq<Op>, key: Key)
    requires UsableConfig(cfg)
    ensures var table := RunFrom(cfg, Start(start), ops).table;
            key in table ==> Some(table[key].lastSeen) == LastArrival(cfg, ops, key)
  {
    if ops != [] {
      LastSeenIsLastArrival(cfg, start, ops[..|ops| - 1], key);
    }
  }

  /** A flush never reopens or closes a window: later arrivals are duplicates with it exactly as without. */
  lemma FlushKeepsWindows(cfg: Config, start: nat, ops: seq<Op>, now: nat, a: Arrival)
    requires UsableConfig(cfg) && Monotone(start, ops) && now <= a.now
    ensures var s := RunFrom(cfg, Start(start), ops);
            InWindow(cfg, Flush(cfg, s, now).table, a) <==> InWindow(cfg, s.table, a)
  {
    EntriesOrdered(cfg, start, ops);
  }

  // ---------- Capacity ----------

  function KeysSeen(cfg: Config, ops: seq<Op>): set<Key> {
    if ops == [] then {}
    else
      var op := ops[|ops| - 1];
      KeysSeen(cfg, ops[..|ops| - 1])
      + if op.Arrive? && Dedupable(op.arrival.event) then {cfg.keyOf(op.arrival.event)} else {}
  }

  lemma TableSteps(cfg: Config, s: State, op: Op)
    requires UsableConfig(cfg) && |s.table| <= cfg.maxEntries
    ensures |Step(cfg, s, op).table| <= cfg.maxEntries
    ensures Step(cfg, s, op).table.Keys
         <= s.table.Keys + if op.Arrive? && Dedupable(op.arrival.event) then {cfg.keyOf(op.arrival.event)} else {}
  {
    match op
    case Arrive(a) =>
      if cfg.keyOf(a.event) in s.table {
        assert s.table.Keys + {cfg.keyOf(a.event)} == s.table.Keys;
        assert Dedupable(a.event) ==> Step(cfg, s, op).table.Keys == s.table.Keys;
        assert |Step(cfg, s, op).table| == |Step(cfg, s, op).table.Keys|;
      }
    case FlushCheck(now) =>
      SubsetSize(Step(cfg, s, op).table.Keys, s.table.Keys);
    case Reset =>
  }

  /** On every run the table stays within its limit and holds only keys that arrived. */
  lemma {:induction false} TableBounded(cfg: Config, start: nat, ops: seq<Op>)
    requires UsableConfig(cfg)
    ensures |RunFrom(cfg, Start(start), ops).table| <= cfg.maxEntries
    ensures RunFrom(cfg, Start(start), ops).table.Keys <= KeysSeen(cfg, ops)
  {
    if ops != [] {
      var front, op := ops[..|ops| - 1], ops[|ops| - 1];
      TableBounded(cfg, start, front);
      TableSteps(cfg, RunFrom(cfg, Start(start), front), op);
    }
  }

  /** No key is refused while the run has no more distinct keys than the table has places. */
  lemma {:induction false} FewKeysNeverRefused(cfg: Config, start: nat, ops: seq<Op>, key: Key)
    requires UsableConfig(cfg) && |KeysSeen(cfg, ops)| <= cfg.maxEntries
    ensures KeyNeverRefused(cfg, start, ops, key)
  {
    if ops != [] {
      var front, op := ops[..|ops| - 1], ops[|ops| - 1];
      SubsetSize(KeysSeen(cfg, front), KeysSeen(cfg, ops));
      FewKeysNeverRefused(cfg, start, front, key);
      TableBounded(cfg, start, front);
      var table := RunFrom(cfg, Start(start), front).table;
      if ArrivesFor(cfg, op, key) && key !in table {
        SubsetSize(table.Keys + {key}, KeysSeen(cfg, ops));
        assert |table.Keys + {key}| == |table.Keys| + 1;
      }
    }
  }

  // ---------- Conservation ----------

  /** On every run, across batches and resets, each received event is counted under exactly one outcome. */
  lemma {:induction false} CountsBalance(cfg: Config, start: nat, ops: seq<Op>)
    requires UsableConfig(cfg)
    ensures var st := RunFrom(cfg, Start(start), ops).stats;
            st.received == st.passed + st.deduplicated + st.sampledOut + st.noise && st.noise == 0
  {
    if ops != [] {
      CountsBalance(cfg, start, ops[..|ops| - 1]);
    }
  }

  datatype Outcome = WasPassed | WasDuplicate | WasSampledOut | WasNoise

  predicate Has(v: Verdict, o: Outcome) {
    match o
    case WasPassed => v.Passed?
    case WasDuplicate => v.Duplicate?
    case WasSampledOut => v.SampledOut?
    case WasNoise => v.DroppedNoise?
  }

  /** Arrivals with this outcome since the start or the last reset. */
  function OutcomeCount(cfg: Config, start: nat, ops: seq<Op>, o: Outcome): nat
    requires UsableConfig(cfg)
  {
    if ops == [] then 0
    else
      var front := ops[..|ops| - 1];
      match ops[|ops| - 1]
      case Arrive(a) =>
        OutcomeCount(cfg, start, front, o) + if Has(Judge(cfg, RunFrom(cfg, Start(start), front), a), o) then 1 else 0
      case FlushCheck(_) => OutcomeCount(cfg, start, front, o)
      case Reset => 0
  }

  /** Each counter counts its own outcome. */
  lemma {:induction false} CountersCountOutcomes(cfg: Config, start: nat, ops: seq<Op>)
    requires UsableConfig(cfg)
    ensures var st := RunFrom(cfg, Start(start), ops).stats;
            && st.passed == OutcomeCount(cfg, start, ops, WasPassed)
            && st.deduplicated == OutcomeCount(cfg, start, ops, WasDuplicate)
            && st.sampledOut == OutcomeCount(cfg, start, ops, WasSampledOut)
            && st.noise == OutcomeCount(cfg, start, ops, WasNoise)
  {
    if ops != [] {
      CountersCountOutcomes(cfg, start, ops[..|ops| - 1]);
    }
  }

  /** What holds of the engine after any history: bounded table, balanced counters, windows kept per key. */
  ghost predicate Sound(cfg: Config, start: nat, ops: seq<Op>, s: State)
    requires UsableConfig(cfg)
  {
    && |s.table| <= cfg.maxEntries
    && s.stats.received == s.stats.passed + s.stats.deduplicated + s.stats.sampledOut
    && s.stats.passed == OutcomeCount(cfg, start, ops, WasPassed)
    && s.stats.deduplicated == OutcomeCount(cfg, start, ops, WasDuplicate)
    && (Monotone(start, ops) ==>
          forall key | KeyNeverRefused(cfg, start, ops, key) ::
            KeyAgrees(cfg, s.table, WindowStart(cfg, ops, key), WindowSize(cfg, ops, key), Clock(start, ops), key))
  }

  lemma RunSound(cfg: Config, start: nat, ops: seq<Op>)
    requires UsableConfig(cfg)
    ensures Sound(cfg, start, ops, RunFrom(cfg, Start(start), ops))
  {
    TableBounded(cfg, start, ops);
    CountsBalance(cfg, start, ops);
    CountersCountOutcomes(cfg, start, ops);
    if Monotone(start, ops) {
      forall key | KeyNeverRefused(cfg, start, ops, key)
        ensures KeyAgrees(cfg, RunFrom(cfg, Start(start), ops).table, WindowStart(cfg, ops, key),
                          WindowSize(cfg, ops, key), Clock(start, ops), key)
      {
        TableAgrees(cfg, start, ops, key);
      }
    }
  }

  // ---------- What comes out ----------

  function Arrivals(batch: seq<Arrival>): (ops: seq<Op>)
    ensures |ops| == |batch| && forall i | 0 <= i < |batch| :: ops[i] == Arrive(batch[i])
  {
    seq(|batch|, i requires 0 <= i < |batch| => Arrive(batch[i]))
  }

  lemma ArrivalsAppend(batch: seq<Arrival>, i: nat)
    requires i < |batch|
    ensures batch[..i + 1] == batch[..i] + [batch[i]]
    ensures Arrivals(batch[..i + 1]) == Arrivals(batch[..i]) + [Arrive(batch[i])]
  {
  }

  function Output(cfg: Config, s: State, batch: seq<Arrival>): seq<Event>
    requires UsableConfig(cfg)
  {
    if batch == [] then []
    else
      var front, a := batch[..|batch| - 1], batch[|batch| - 1];
      var v := Judge(cfg, RunFrom(cfg, s, Arrivals(front)), a);
      Output(cfg, s, front) + if v.Passed? then [v.event] else []
  }

  lemma BatchAppend(cfg: Config, s: State, batch: seq<Arrival>, a: Arrival)
    requires UsableConfig(cfg)
    ensures var s' := RunFrom(cfg, s, Arrivals(batch));
            var v := Judge(cfg, s', a);
            && RunFrom(cfg, s, Arrivals(batch + [a])) == Receive(cfg, s', a)
            && Output(cfg, s, batch + [a]) == Output(cfg, s, batch) + if v.Passed? then [v.event] else []
  {
    assert (batch + [a])[..|batch|] == batch;
    assert Arrivals(batch + [a]) == Arrivals(batch) + [Arrive(a)];
    RunAppend(cfg, s, Arrivals(batch), Arrive(a));
  }

  /** An event without the one annotation triage may add. */
  function Stripped(e: Event): Event { e.(metadata := e.metadata - {PREVIOUS_COUNT}) }

  function StrippedAll(es: seq<Event>): seq<Event> {
    if es == [] then [] else StrippedAll(es[..|es| - 1]) + [Stripped(es[|es| - 1])]
  }

  function Inputs(batch: seq<Arrival>): seq<Event> {
    if batch == [] then [] else Inputs(batch[..|batch| - 1]) + [batch[|batch| - 1].event]
  }

  function UrgentOnly(es: seq<Event>): seq<Event> {
    if es == [] then []
    else UrgentOnly(es[..|es| - 1]) + if MustPass(es[|es| - 1]) then [es[|es| - 1]] else []
  }

  lemma AppendedLists(es: seq<Event>, e: Event)
    ensures StrippedAll(es + [e]) == StrippedAll(es) + [Stripped(e)]
    ensures UrgentOnly(es + [e]) == UrgentOnly(es) + if MustPass(e) then [e] else []
  {
    assert (es + [e])[..|es|] == es;
  }

  lemma PassedIsInput(cfg: Config, s: State, a: Arrival)
    requires UsableConfig(cfg)
    ensures MustPass(a.event) ==> Judge(cfg, s, a) == Passed(a.event)
    ensures var v := Judge(cfg, s, a);
            v.Passed? ==> Stripped(v.event) == Stripped(a.event) && MustPass(v.event) == MustPass(a.event)
  {
    PriorityByFields(a.event);
    var v := Judge(cfg, s, a);
    if v.Passed? && v.event != a.event {
      assert v.event.metadata - {PREVIOUS_COUNT} == a.event.metadata - {PREVIOUS_COUNT};
    }
  }

  /** The output keeps the input's order and contents; the events that must pass all do, untouched. */
  lemma {:induction false} OutputIsSubsequence(cfg: Config, s: State, batch: seq<Arrival>)
    requires UsableConfig(cfg)
    ensures IsSubsequence(StrippedAll(Output(cfg, s, batch)), StrippedAll(Inputs(batch)))
    ensures UrgentOnly(Output(cfg, s, batch)) == UrgentOnly(Inputs(batch))
  {
    if batch == [] {
      EmptyIsSubsequence<Event>([]);
    } else {
      var front, a := batch[..|batch| - 1], batch[|batch| - 1];
      OutputIsSubsequence(cfg, s, front);
      var s' := RunFrom(cfg, s, Arrivals(front));
      PassedIsInput(cfg, s', a);
      AppendedLists(Inputs(front), a.event);
      var v := Judge(cfg, s', a);
      if v.Passed? {
        AppendedLists(Output(cfg, s, front), v.event);
        Extend(StrippedAll(Output(cfg, s, front)), StrippedAll(Inputs(front)), Stripped(a.event));
      } else {
        assert Output(cfg, s, batch) == Output(cfg, s, front);
        Weaken(StrippedAll(Output(cfg, s, front)), StrippedAll(Inputs(front)), Stripped(a.event));
      }
    }
  }

  // ---------- Sampling ----------

  /** The operation is an arrival that reaches the sampling stage. */
  predicate IsSampled(cfg: Config, s: State, op: Op) {
    && op.Arrive? && Dedupable(op.arrival.event) && !InWindow(cfg, s.table, op.arrival)
    && SampleRate(cfg, Classify(op.arrival.event), op.arrival.pressure).Some?
  }

  function SampledCount(cfg: Config, s: State, ops: seq<Op>): nat
    requires UsableConfig(cfg)
  {
    if ops == [] then 0
    else
      var front, op := ops[..|ops| - 1], ops[|ops| - 1];
      SampledCount(cfg, s, front) + if IsSampled(cfg, RunFrom(cfg, s, front), op) then 1 else 0
  }

  /** Those of them that pass. */
  function KeptCount(cfg: Config, s: State, ops: seq<Op>): nat
    requires UsableConfig(cfg)
  {
    if ops == [] then 0
    else
      var front, op := ops[..|ops| - 1], ops[|ops| - 1];
      var s' := RunFrom(cfg, s, front);
      KeptCount(cfg, s, front) + if IsSampled(cfg, s', op) && Judge(cfg, s', op.arrival).Passed? then 1 else 0
  }

  /** All arrivals that reach the sampling stage are sampled at this rate. */
  ghost predicate OneRate(cfg: Config, s: State, ops: seq<Op>, rate: nat)
    requires UsableConfig(cfg)
  {
    ops != [] ==>
      var front, op := ops[..|ops| - 1], ops[|ops| - 1];
      && OneRate(cfg, s, front, rate)
      && (IsSampled(cfg, RunFrom(cfg, s, front), op) ==>
            SampleRate(cfg, Classify(op.arrival.event), op.arrival.pressure) == Some(rate))
  }

  /**
   * What is dropped by sampling: of the low types all but one in the configured rate, times a factor that
   * doubles with each level of pressure; of the others nothing below moderate pressure, and from there
   * on all but one in three, five or ten.
   */
  lemma SampledOutIff(cfg: Config, s: State, a: Arrival)
    requires UsableConfig(cfg)
    ensures var level := if a.pressure.Some? then a.pressure.value.AsU8() else 0;
            var n := s.sampleCounter + 1;
            Judge(cfg, s, a).SampledOut?
            <==> && !MustPass(a.event) && !InWindow(cfg, s.table, a)
                 && if LowType(a.event.eventType) then n % (cfg.lowSampleRate * [1, 2, 4, 8, 16][level]) != 0
                    else level >= 2 && n % [1, 1, 3, 5, 10][level] != 0
  {
    PriorityByFields(a.event);
  }

  /** Multiples of `rate` among the `k` counter values after `c`. */
  function Multiples(c: nat, k: nat, rate: nat): int
    requires rate > 0
  {
    (c + k) / rate - c / rate
  }

  lemma MultiplesStep(c: nat, k: nat, rate: nat)
    requires rate > 0
    ensures Multiples(c, k + 1, rate) == Multiples(c, k, rate) + if (c + k + 1) % rate == 0 then 1 else 0
  {
    QuotientStep(c + k, rate);
  }

  /** From any state and over any operations, the counter counts the sampled arrivals and nothing else. */
  lemma {:induction false} CounterCountsSampled(cfg: Config, s: State, ops: seq<Op>)
    requires UsableConfig(cfg)
    ensures RunFrom(cfg, s, ops).sampleCounter == s.sampleCounter + SampledCount(cfg, s, ops)
  {
    if ops != [] {
      CounterCountsSampled(cfg, s, ops[..|ops| - 1]);
    }
  }

  /**
   * Whatever else happens in between, the arrivals sampled at one rate keep exactly the multiples
   * of the rate that the counter passes: one in `rate`, give or take one.
   */
  lemma {:induction false} SamplingKeepsMultiples(cfg: Config, s: State, ops: seq<Op>, rate: nat)
    requires UsableConfig(cfg) && rate > 0 && OneRate(cfg, s, ops, rate)
    ensures KeptCount(cfg, s, ops) == Multiples(s.sampleCounter, SampledCount(cfg, s, ops), rate)
    ensures SampledCount(cfg, s, ops) / rate <= KeptCount(cfg, s, ops) <= SampledCount(cfg, s, ops) / rate + 1
  {
    QuotientOfSum(s.sampleCounter, SampledCount(cfg, s, ops), rate);
    if ops != [] {
      var front := ops[..|ops| - 1];
      SamplingKeepsMultiples(cfg, s, front, rate);
      CounterCountsSampled(cfg, s, front);
      MultiplesStep(s.sampleCounter, SampledCount(cfg, s, front), rate);
    }
  }
}
