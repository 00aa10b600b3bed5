/** The bounded cache of recorded processes, with oldest-first eviction. */
module ProcessCache {
  import opened Collections

  type Pid = nat

  datatype Entry = Entry(name: string, path: string, cmdline: string, parentPid: Pid, createdAt: nat)

  type Cache = map<Pid, Entry>

  // ---------- The model ----------

  function Smaller(x: nat, y: nat): nat { if x < y then x else y }

  /** `after` is `before` without `count` of its entries, none of them younger than a survivor. */
  ghost predicate EvictsOldest(before: Cache, count: nat, after: Cache) {
    && after.Keys <= before.Keys
    && (forall p | p in after :: after[p] == before[p])
    && |after| == |before| - Smaller(count, |before|)
    && forall x, y | x in before && x !in after && y in after :: before[x].createdAt <= after[y].createdAt
  }

  datatype Operation =
    | Record(pid: Pid, entry: Entry, excluded: bool)
    | Remove(pid: Pid)
    | CollectDead(live: set<Pid>, ttl: nat, now: nat)

  function Survivors(c: Cache, live: set<Pid>, ttl: nat, now: nat): Cache {
    map p | p in c && p in live && now - c[p].createdAt <= ttl :: c[p]
  }

  /** Eviction runs before an insertion into a full cache, also when the pid is already cached. */
  ghost predicate MakesRoom(maxSize: nat, c: Cache, room: Cache) {
    if |c| >= maxSize then EvictsOldest(c, maxSize / 10, room) else room == c
  }

  ghost predicate Step(maxSize: nat, c: Cache, op: Operation, c': Cache) {
    match op
    case Record(pid, entry, excluded) =>
      if excluded then c' == c
      else exists room :: MakesRoom(maxSize, c, room) && c' == room[pid := entry]
    case Remove(pid) => c' == c - {pid}
    case CollectDead(live, ttl, now) => c' == Survivors(c, live, ttl, now)
  }

  datatype Run = Start | After(before: Run, op: Operation, cache: Cache)
  {
    function Final(): Cache { if Start? then map[] else cache }

    ghost predicate Valid(maxSize: nat) {
      After? ==> before.Valid(maxSize) && Step(maxSize, before.Final(), op, cache)
    }
  }

  // ---------- The bound ----------

  lemma InsertSize(c: Cache, pid: Pid, entry: Entry)
    ensures |c[pid := entry]| <= |c| + 1
  {
    assert c[pid := entry].Keys == c.Keys + {pid};
  }

  lemma StepKeepsBound(maxSize: nat, c: Cache, op: Operation, c': Cache)
    requires maxSize >= 10 && |c| <= maxSize && Step(maxSize, c, op, c')
    ensures |c'| <= maxSize
  {
    match op
    case Record(pid, entry, excluded) =>
      if !excluded {
        var room :| MakesRoom(maxSize, c, room) && c' == room[pid := entry];
        InsertSize(room, pid, entry);
      }
    case Remove(pid) => SubmapSize(c', c);
    case CollectDead(live, ttl, now) => SubmapSize(c', c);
  }

  lemma {:induction false} RunKeepsBound(maxSize: nat, run: Run)
    requires maxSize >= 10 && run.Valid(maxSize)
    ensures |run.Final()| <= maxSize
  {
    if run.After? {
      RunKeepsBound(maxSize, run.before);
      StepKeepsBound(maxSize, run.before.Final(), run.op, run.cache);
    }
  }

  /** Every eviction of every run meets a cache that is exactly full, and frees a tenth of it. */
  lemma EvictionFreesTenth(maxSize: nat, run: Run, room: Cache)
    requires maxSize >= 10 && run.Valid(maxSize)
    requires |run.Final()| >= maxSize && MakesRoom(maxSize, run.Final(), room)
    ensures |run.Final()| == maxSize && |room| == maxSize - maxSize / 10
  {
    RunKeepsBound(maxSize, run);
  }

  function Filler(): Entry { Entry("", "", "", 0, 0) }

  /** Records `n` different processes. */
  function Fill(n: nat): Run {
    if n == 0 then Start
    else After(Fill(n - 1), Record(n, Filler(), false), Fill(n - 1).Final()[n := Filler()])
  }

  lemma {:induction false} FillOverflows(maxSize: nat, n: nat)
    requires maxSize < 10
    ensures Fill(n).Valid(maxSize) && |Fill(n).Final()| == n
    ensures forall p | p in Fill(n).Final() :: p <= n
  {
    if n > 0 {
      FillOverflows(maxSize, n - 1);
      var c := Fill(n - 1).Final();
      assert EvictsOldest(c, 0, c);
      assert MakesRoom(maxSize, c, c);
      assert n !in c;
    }
  }

  /** The configured size bounds the cache on every run exactly when it is at least ten. */
  lemma BoundedIffAtLeastTen(maxSize: nat)
    ensures (forall run: Run | run.Valid(maxSize) :: |run.Final()| <= maxSize) <==> maxSize >= 10
  {
    if maxSize >= 10 {
      forall run: Run | run.Valid(maxSize) ensures |run.Final()| <= maxSize {
        RunKeepsBound(maxSize, run);
      }
    } else {
      FillOverflows(maxSize, maxSize + 1);
      assert Fill(maxSize + 1).Valid(maxSize);
    }
  }

  // ---------- The program ----------

  datatype Stamp = Stamp(pid: Pid, createdAt: nat)

  ghost predicate Sorted(s: seq<Stamp>) {
    forall i, j | 0 <= i < j < |s| :: s[i].createdAt <= s[j].createdAt
  }

  ghost predicate DistinctPids(s: seq<Stamp>) {
    forall i, j | 0 <= i < j < |s| :: s[i].pid != s[j].pid
  }

  /** `s` lists the cache: every entry once, with its creation time. */
  ghost predicate Lists(s: seq<Stamp>, c: Cache) {
    && DistinctPids(s)
    && (forall i | 0 <= i < |s| :: s[i].pid in c && s[i].createdAt == c[s[i].pid].createdAt)
    && (forall p | p in c :: Stamp(p, c[p].createdAt) in s)
  }

  /** Stable insertion behind the elements not younger than `x`. */
  method InsertByAge(s: seq<Stamp>, x: Stamp) returns (r: seq<Stamp>, ghost at: nat)
    requires Sorted(s)
    ensures at <= |s| && r == s[..at] + [x] + s[at..]
    ensures Sorted(r)
  {
    var i := |s|;
    while i > 0 && s[i - 1].createdAt > x.createdAt
      invariant 0 <= i <= |s|
      invariant forall k | i <= k < |s| :: s[k].createdAt > x.createdAt
    {
      i := i - 1;
    }
    at := i;
    r := s[..i] + [x] + s[i..];
  }

  lemma InsertedIn(s: seq<Stamp>, x: Stamp, at: nat)
    requires at <= |s| && DistinctPids(s) && forall y | y in s :: y.pid != x.pid
    ensures var r := s[..at] + [x] + s[at..];
            DistinctPids(r) && forall y :: y in r <==> y in s || y == x
  {
    var r := s[..at] + [x] + s[at..];
    forall y | y in s ensures y in r {
      var k :| 0 <= k < |s| && s[k] == y;
      assert r[if k < at then k else k + 1] == y;
    }
    assert r[at] == x;
  }

  method SortByAge(s: seq<Stamp>) returns (r: seq<Stamp>)
    requires DistinctPids(s)
    ensures Sorted(r) && DistinctPids(r)
    ensures forall x :: x in r <==> x in s
  {
    r := [];
    for i := 0 to |s|
      invariant Sorted(r) && DistinctPids(r)
      invariant forall x :: x in r <==> x in s[..i]
    {
      ghost var r0 := r;
      ghost var at;
      r, at := InsertByAge(r, s[i]);
      InsertedIn(r0, s[i], at);
      assert s[..i + 1] == s[..i] + [s[i]];
    }
    assert s[..|s|] == s;
  }

  lemma {:induction false} ListedPids(s: seq<Stamp>, n: nat) returns (pids: set<Pid>)
    requires DistinctPids(s) && n <= |s|
    ensures pids == set i | 0 <= i < n :: s[i].pid
    ensures |pids| == n
  {
    if n == 0 {
      pids := {};
    } else {
      var fewer := ListedPids(s, n - 1);
      assert s[n - 1].pid !in fewer;
      pids := fewer + {s[n - 1].pid};
    }
  }

  lemma ListedAreKeys(c: Cache, s: seq<Stamp>)
    requires Lists(s, c)
    ensures c.Keys == set i | 0 <= i < |s| :: s[i].pid
  {
    var all := set i | 0 <= i < |s| :: s[i].pid;
    forall p | p in c ensures p in all {
      var i :| 0 <= i < |s| && s[i] == Stamp(p, c[p].createdAt);
      assert s[i].pid in all;
    }
  }

  /** A pid left after removing the first `n` stands later in the listing. */
  lemma SurvivorStandsLater(c: Cache, s: seq<Stamp>, n: nat, gone: set<Pid>, p: Pid) returns (j: nat)
    requires Lists(s, c) && n <= |s| && gone == (set i | 0 <= i < n :: s[i].pid) && p in c && p !in gone
    ensures n <= j < |s| && s[j] == Stamp(p, c[p].createdAt)
  {
    j :| 0 <= j < |s| && s[j] == Stamp(p, c[p].createdAt);
  }

  /** Removing the first `n` of an age-sorted listing evicts the oldest. */
  lemma PrefixRemovalEvicts(c: Cache, s: seq<Stamp>, n: nat, after: Cache, count: nat)
    requires Sorted(s) && Lists(s, c) && n == Smaller(count, |s|)
    requires after == c - set i | 0 <= i < n :: s[i].pid
    ensures EvictsOldest(c, count, after)
  {
    var all := ListedPids(s, |s|);
    var gone := ListedPids(s, n);
    ListedAreKeys(c, s);
    assert |after| == |c| - n by {
      assert after.Keys == c.Keys - gone;
      assert |after.Keys| == |c.Keys| - |gone|;
    }
    forall x, y | x in c && x !in after && y in after ensures c[x].createdAt <= after[y].createdAt {
      var i :| 0 <= i < n && s[i].pid == x;
      var j := SurvivorStandsLater(c, s, n, gone, y);
    }
  }

  /** The cache's entries, in whatever order the map yields them. */
  method CollectStamps(c: Cache) returns (entries: seq<Stamp>)
    ensures Lists(entries, c)
  {
    entries := [];
    var todo := c.Keys;
    while todo != {}
      invariant todo <= c.Keys
      invariant DistinctPids(entries)
      invariant forall x :: x in entries <==> x.pid in c.Keys - todo && x.createdAt == c[x.pid].createdAt
    {
      var p :| p in todo;
      todo := todo - {p};
      entries := entries + [Stamp(p, c[p].createdAt)];
    }
  }

  method EvictOldestEntries(c: Cache, count: nat) returns (after: Cache)
    ensures EvictsOldest(c, count, after)
  {
    var entries := CollectStamps(c);
    var sorted := SortByAge(entries);
    assert Lists(sorted, c) by {
      assert forall i | 0 <= i < |sorted| :: sorted[i] in entries;
    }
    var n := Smaller(count, |sorted|);
    after := c;
    for i := 0 to n
      invariant after == c - set k | 0 <= k < i :: sorted[k].pid
    {
      after := after - {sorted[i].pid};
    }
    PrefixRemovalEvicts(c, sorted, n, after, count);
  }

  method MakeRoom(maxSize: nat, c: Cache) returns (room: Cache)
    ensures MakesRoom(maxSize, c, room)
    ensures room.Keys <= c.Keys && forall p | p in room :: room[p] == c[p]
    ensures |c| < maxSize ==> room == c
    ensures forall x, y | x in c && x !in room && y in room :: c[x].createdAt <= room[y].createdAt
  {
    room := c;
    if |c| >= maxSize {
      room := EvictOldestEntries(c, maxSize / 10);
    }
  }

  class Detector {
    const maxCacheSize: nat
    var cache: Cache
    var recorded: nat
    ghost var run: Run  // every operation so far

    ghost predicate Valid()
      reads this
    {
      run.Valid(maxCacheSize) && run.Final() == cache
    }

    constructor (maxCacheSize: nat)
      ensures Valid() && this.maxCacheSize == maxCacheSize && run == Start && recorded == 0
    {
      this.maxCacheSize := maxCacheSize;
      cache, recorded, run := map[], 0, Start;
    }

    method RecordCreation(pid: Pid, entry: Entry, excluded: bool)
      requires Valid()
      modifies this
      ensures Valid() && run == After(old(run), Record(pid, entry, excluded), cache)
      ensures recorded == old(recorded) + if excluded then 0 else 1
      ensures excluded ==> cache == old(cache)
      ensures !excluded ==> pid in cache && cache[pid] == entry
      ensures forall p | p in cache && p != pid :: p in old(cache) && cache[p] == old(cache)[p]
      ensures !excluded && |old(cache)| < maxCacheSize ==> cache.Keys == old(cache).Keys + {pid}
      ensures forall x, y | x in old(cache) && x !in cache && y in cache && y != pid ::
                old(cache)[x].createdAt <= cache[y].createdAt
      ensures maxCacheSize >= 10 ==> |cache| <= maxCacheSize
    {
      if !excluded {
        var room := MakeRoom(maxCacheSize, cache);
        cache := room[pid := entry];
        recorded := recorded + 1;
      }
      run := After(run, Record(pid, entry, excluded), cache);
      if maxCacheSize >= 10 {
        RunKeepsBound(maxCacheSize, run);
      }
    }

    method RemoveProcess(pid: Pid)
      requires Valid()
      modifies this`cache, this`run
      ensures Valid() && run == After(old(run), Remove(pid), cache)
      ensures cache.Keys == old(cache).Keys - {pid} && forall p | p in cache :: cache[p] == old(cache)[p]
    {
      cache := cache - {pid};
      run := After(run, Remove(pid), cache);
    }

    method GcDeadProcesses(live: set<Pid>, ttl: nat, now: nat)
      requires Valid()
      modifies this`cache, this`run
      ensures Valid() && run == After(old(run), CollectDead(live, ttl, now), cache)
      ensures forall p :: p in cache <==> p in old(cache) && p in live && now <= old(cache)[p].createdAt + ttl
      ensures forall p | p in cache :: cache[p] == old(cache)[p]
    {
      var dead := set p | p in cache && p !in live;
      cache := cache - dead;
      var expired := set p | p in cache && now - cache[p].createdAt > ttl;
      cache := cache - expired;
      run := After(run, CollectDead(live, ttl, now), cache);
    }
  }
}
