/** Process ancestry: the walk over a child-to-parent map that may hold cycles. */
module ProcessAncestry {
  import opened Collections

  type Pid = nat

  /** `path` follows parent links from its first element to its last. */
  ghost predicate Climbs(parents: map<Pid, Pid>, path: seq<Pid>) {
    && path != []
    && forall i | 0 <= i < |path| - 1 :: path[i] in parents && parents[path[i]] == path[i + 1]
  }

  /** `a` is `pid` or is reached from it by parent links none of which leads to pid 0. */
  ghost predicate IsAncestor(parents: map<Pid, Pid>, pid: Pid, a: Pid) {
    exists path :: Climbs(parents, path) && path[0] == pid && path[|path| - 1] == a && 0 !in path[1..]
  }

  /** `x` is `root` or reaches it by parent links. */
  ghost predicate DescendsFrom(parents: map<Pid, Pid>, x: Pid, root: Pid) {
    exists path :: Climbs(parents, path) && path[0] == x && path[|path| - 1] == root
  }

  // ---------- The two passes, as functions ----------

  function AncestorWalk(parents: map<Pid, Pid>, current: Pid, seen: set<Pid>): set<Pid>
    decreases parents.Values - seen
  {
    if current in parents && parents[current] != 0 && parents[current] !in seen then
      var parent := parents[current];
      assert parent in parents.Values - seen && parent !in parents.Values - (seen + {parent});
      AncestorWalk(parents, parent, seen + {parent})
    else seen
  }

  function Ancestors(parents: map<Pid, Pid>, pid: Pid): set<Pid> {
    AncestorWalk(parents, pid, {pid})
  }

  /** The second pass visits the map's keys in the given order and grows the set as it goes. */
  function ChildPass(parents: map<Pid, Pid>, order: seq<Pid>, related: set<Pid>): set<Pid>
    requires forall c | c in order :: c in parents
  {
    if order == [] then related
    else
      var before, child := order[..|order| - 1], order[|order| - 1];
      var r := ChildPass(parents, before, related);
      if parents[child] in r then r + {child} else r
  }

  /** `order` is an iteration order of the map: every key once, no other element. */
  ghost predicate Enumerates(order: seq<Pid>, keys: set<Pid>) {
    NoRepeats(order) && forall c :: c in order <==> c in keys
  }

  function RelatedProcesses(parents: map<Pid, Pid>, pid: Pid, order: seq<Pid>): set<Pid>
    requires forall c | c in order :: c in parents
  {
    ChildPass(parents, order, Ancestors(parents, pid))
  }

  // ---------- What the first pass finds ----------

  lemma {:induction false} WalkSound(parents: map<Pid, Pid>, pid: Pid, current: Pid, seen: set<Pid>)
    requires current in seen && forall x | x in seen :: IsAncestor(parents, pid, x)
    ensures forall x | x in AncestorWalk(parents, current, seen) :: IsAncestor(parents, pid, x)
    decreases parents.Values - seen
  {
    if current in parents && parents[current] != 0 && parents[current] !in seen {
      var parent := parents[current];
      var path :| Climbs(parents, path) && path[0] == pid && path[|path| - 1] == current && 0 !in path[1..];
      var longer := path + [parent];
      assert Climbs(parents, longer) && longer[1..] == path[1..] + [parent];
      assert parent in parents.Values - seen && parent !in parents.Values - (seen + {parent});
      WalkSound(parents, pid, parent, seen + {parent});
    }
  }

  ghost predicate ClosedUpward(parents: map<Pid, Pid>, s: set<Pid>, except: set<Pid>) {
    forall x | x in s && x !in except && x in parents && parents[x] != 0 :: parents[x] in s
  }

  lemma {:induction false} WalkClosed(parents: map<Pid, Pid>, current: Pid, seen: set<Pid>)
    requires ClosedUpward(parents, seen, {current})
    ensures seen <= AncestorWalk(parents, current, seen)
    ensures current in seen ==> ClosedUpward(parents, AncestorWalk(parents, current, seen), {})
    decreases parents.Values - seen
  {
    if current in parents && parents[current] != 0 && parents[current] !in seen {
      var parent := parents[current];
      assert parent in parents.Values - seen && parent !in parents.Values - (seen + {parent});
      WalkClosed(parents, parent, seen + {parent});
    }
  }

  lemma {:induction false} ClosedHoldsPath(parents: map<Pid, Pid>, s: set<Pid>, path: seq<Pid>, k: nat)
    requires Climbs(parents, path) && 0 !in path[1..] && path[0] in s && ClosedUpward(parents, s, {})
    requires k < |path|
    ensures path[k] in s
  {
    if k > 0 {
      ClosedHoldsPath(parents, s, path, k - 1);
      assert path[k] == path[1..][k - 1];
    }
  }

  /** On every map, cyclic or not, the walk finds exactly the process and its ancestors. */
  lemma AncestorsExact(parents: map<Pid, Pid>, pid: Pid)
    ensures forall x :: x in Ancestors(parents, pid) <==> IsAncestor(parents, pid, x)
  {
    assert Climbs(parents, [pid]) && [pid][1..] == [];
    WalkSound(parents, pid, pid, {pid});
    WalkClosed(parents, pid, {pid});
    forall x | IsAncestor(parents, pid, x) ensures x in Ancestors(parents, pid) {
      var path :| Climbs(parents, path) && path[0] == pid && path[|path| - 1] == x && 0 !in path[1..];
      ClosedHoldsPath(parents, Ancestors(parents, pid), path, |path| - 1);
    }
  }

  // ---------- What the second pass may add ----------

  lemma {:induction false} ChildPassFindsChildren(parents: map<Pid, Pid>, order: seq<Pid>, roots: set<Pid>)
    requires forall c | c in order :: c in parents
    ensures roots <= ChildPass(parents, order, roots)
    ensures forall c | c in order && parents[c] in roots :: c in ChildPass(parents, order, roots)
  {
    if order != [] {
      var before, child := order[..|order| - 1], order[|order| - 1];
      assert order == before + [child];
      ChildPassFindsChildren(parents, before, roots);
    }
  }

  ghost predicate DescendsFromAny(parents: map<Pid, Pid>, x: Pid, roots: set<Pid>) {
    exists r :: r in roots && DescendsFrom(parents, x, r)
  }

  lemma ChildDescends(parents: map<Pid, Pid>, child: Pid, roots: set<Pid>)
    requires child in parents && DescendsFromAny(parents, parents[child], roots)
    ensures DescendsFromAny(parents, child, roots)
  {
    var r :| r in roots && DescendsFrom(parents, parents[child], r);
    var path :| Climbs(parents, path) && path[0] == parents[child] && path[|path| - 1] == r;
    assert Climbs(parents, [child] + path);
    assert DescendsFrom(parents, child, r);
  }

  lemma {:induction false} ChildPassFindsDescendants(parents: map<Pid, Pid>, order: seq<Pid>, roots: set<Pid>)
    requires forall c | c in order :: c in parents
    ensures forall x | x in ChildPass(parents, order, roots) :: DescendsFromAny(parents, x, roots)
  {
    if order == [] {
      forall x | x in roots ensures DescendsFromAny(parents, x, roots) {
        assert Climbs(parents, [x]);
        assert DescendsFrom(parents, x, x);
      }
    } else {
      var before, child := order[..|order| - 1], order[|order| - 1];
      ChildPassFindsDescendants(parents, before, roots);
      if parents[child] in ChildPass(parents, before, roots) {
        ChildDescends(parents, child, roots);
      }
    }
  }

  /**
   * For every iteration order: the ancestors and the direct children of each are found,
   * and everything found descends from an ancestor.
   */
  lemma RelatedForEveryOrder(parents: map<Pid, Pid>, pid: Pid, order: seq<Pid>)
    requires Enumerates(order, parents.Keys)
    ensures var related := RelatedProcesses(parents, pid, order);
            && (forall a | IsAncestor(parents, pid, a) :: a in related)
            && (forall c | c in parents && IsAncestor(parents, pid, parents[c]) :: c in related)
            && (forall x | x in related :: exists a :: IsAncestor(parents, pid, a) && DescendsFrom(parents, x, a))
  {
    AncestorsExact(parents, pid);
    var roots := Ancestors(parents, pid);
    ChildPassFindsChildren(parents, order, roots);
    ChildPassFindsDescendants(parents, order, roots);
    var related := RelatedProcesses(parents, pid, order);
    forall x | x in related ensures exists a :: IsAncestor(parents, pid, a) && DescendsFrom(parents, x, a) {
      assert DescendsFromAny(parents, x, roots);
      var r :| r in roots && DescendsFrom(parents, x, r);
      assert IsAncestor(parents, pid, r);
    }
  }

  // ---------- When the order matters ----------

  /** `x` is the process, one of its ancestors, or a child of one. */
  ghost predicate IsNear(parents: map<Pid, Pid>, pid: Pid, x: Pid) {
    IsAncestor(parents, pid, x) || (x in parents && IsAncestor(parents, pid, parents[x]))
  }

  /** No process has a near parent without being near itself. */
  ghost predicate FamilyClosed(parents: map<Pid, Pid>, pid: Pid) {
    forall c | c in parents && IsNear(parents, pid, parents[c]) :: IsNear(parents, pid, c)
  }

  ghost predicate OrderIndependent(parents: map<Pid, Pid>, pid: Pid) {
    forall o, o' | Enumerates(o, parents.Keys) && Enumerates(o', parents.Keys) ::
      RelatedProcesses(parents, pid, o) == RelatedProcesses(parents, pid, o')
  }

  lemma {:induction false} ChildPassStaysNear(parents: map<Pid, Pid>, pid: Pid, order: seq<Pid>)
    requires FamilyClosed(parents, pid) && forall c | c in order :: c in parents
    ensures forall x | x in RelatedProcesses(parents, pid, order) :: IsNear(parents, pid, x)
  {
    AncestorsExact(parents, pid);
    if order != [] {
      ChildPassStaysNear(parents, pid, order[..|order| - 1]);
    }
  }

  /** On a closed family every order finds the near processes and no other. */
  lemma ClosedFamilyExact(parents: map<Pid, Pid>, pid: Pid, order: seq<Pid>)
    requires FamilyClosed(parents, pid) && Enumerates(order, parents.Keys)
    ensures forall x :: x in RelatedProcesses(parents, pid, order) <==> IsNear(parents, pid, x)
  {
    ChildPassStaysNear(parents, pid, order);
    RelatedForEveryOrder(parents, pid, order);
  }

  lemma {:induction false} ChildPassConcat(parents: map<Pid, Pid>, first: seq<Pid>, second: seq<Pid>, roots: set<Pid>)
    requires forall c | c in first + second :: c in parents
    ensures ChildPass(parents, first + second, roots) == ChildPass(parents, second, ChildPass(parents, first, roots))
  {
    if second == [] {
      assert first + second == first;
    } else {
      var n := |second| - 1;
      assert (first + second)[..|first| + n] == first + second[..n];
      ChildPassConcat(parents, first, second[..n], roots);
    }
  }

  /** A pass over processes that are no children of the roots adds nothing. */
  lemma {:induction false} ChildPassIdle(parents: map<Pid, Pid>, order: seq<Pid>, roots: set<Pid>)
    requires forall c | c in order :: c in parents && (parents[c] in roots ==> c in roots)
    ensures ChildPass(parents, order, roots) == roots
  {
    if order != [] {
      ChildPassIdle(parents, order[..|order| - 1], roots);
    }
  }

  lemma {:induction false} ChildPassAddsOnly(parents: map<Pid, Pid>, order: seq<Pid>, roots: set<Pid>)
    requires forall c | c in order :: c in parents
    ensures forall x | x in ChildPass(parents, order, roots) :: x in roots || x in order
  {
    if order != [] {
      ChildPassAddsOnly(parents, order[..|order| - 1], roots);
    }
  }

  /** The children of ancestors, and the other processes, each listed once. */
  lemma Families(parents: map<Pid, Pid>, pid: Pid) returns (children: seq<Pid>, others: seq<Pid>)
    ensures forall c :: c in children <==> c in parents && IsAncestor(parents, pid, parents[c])
    ensures forall c :: c in others <==> c in parents && !IsAncestor(parents, pid, parents[c])
    ensures Enumerates(children + others, parents.Keys) && Enumerates(others + children, parents.Keys)
  {
    AncestorsExact(parents, pid);
    var roots := Ancestors(parents, pid);
    children := Listing(set c | c in parents && parents[c] in roots);
    others := Listing(set c | c in parents && parents[c] !in roots);
    NoRepeatsConcat(children, others);
    NoRepeatsConcat(others, children);
  }

  /** Visiting the ancestors' children last finds the near processes and no other. */
  lemma ChildrenLast(parents: map<Pid, Pid>, pid: Pid, children: seq<Pid>, others: seq<Pid>)
    requires forall c | c in children + others :: c in parents
    requires forall c | c in children :: IsAncestor(parents, pid, parents[c])
    requires forall c | c in others :: !IsAncestor(parents, pid, parents[c])
    requires forall c | c in others + children :: c in parents
    ensures forall x | x in RelatedProcesses(parents, pid, others + children) :: IsNear(parents, pid, x)
  {
    AncestorsExact(parents, pid);
    var roots := Ancestors(parents, pid);
    ChildPassIdle(parents, others, roots);
    ChildPassConcat(parents, others, children, roots);
    ChildPassAddsOnly(parents, children, roots);
  }

  /** Visiting them first also finds their children. */
  lemma ChildrenFirst(parents: map<Pid, Pid>, pid: Pid, children: seq<Pid>, others: seq<Pid>, c: Pid)
    requires forall x | x in children + others :: x in parents
    requires forall x | x in parents && IsAncestor(parents, pid, parents[x]) :: x in children
    requires c in others && IsNear(parents, pid, parents[c])
    ensures c in RelatedProcesses(parents, pid, children + others)
  {
    AncestorsExact(parents, pid);
    var roots := Ancestors(parents, pid);
    ChildPassFindsChildren(parents, children, roots);
    ChildPassConcat(parents, children, others, roots);
    ChildPassFindsChildren(parents, others, ChildPass(parents, children, roots));
  }

  lemma ClosedFamilyIndependent(parents: map<Pid, Pid>, pid: Pid)
    requires FamilyClosed(parents, pid)
    ensures OrderIndependent(parents, pid)
  {
    forall o, o' | Enumerates(o, parents.Keys) && Enumerates(o', parents.Keys)
      ensures RelatedProcesses(parents, pid, o) == RelatedProcesses(parents, pid, o')
    {
      ClosedFamilyExact(parents, pid, o);
      ClosedFamilyExact(parents, pid, o');
    }
  }

  /** Two orders that disagree on a process whose parent is near while it is not. */
  lemma OpenFamilyDepends(parents: map<Pid, Pid>, pid: Pid, c: Pid) returns (o: seq<Pid>, o': seq<Pid>)
    requires c in parents && IsNear(parents, pid, parents[c]) && !IsNear(parents, pid, c)
    ensures Enumerates(o, parents.Keys) && Enumerates(o', parents.Keys)
    ensures c in RelatedProcesses(parents, pid, o) && c !in RelatedProcesses(parents, pid, o')
  {
    var children, others := Families(parents, pid);
    o, o' := children + others, others + children;
    ChildrenLast(parents, pid, children, others);
    ChildrenFirst(parents, pid, children, others, c);
  }

  /** The result is the same for every iteration order exactly when the family is closed. */
  lemma OrderIndependentIff(parents: map<Pid, Pid>, pid: Pid)
    ensures OrderIndependent(parents, pid) <==> FamilyClosed(parents, pid)
  {
    if FamilyClosed(parents, pid) {
      ClosedFamilyIndependent(parents, pid);
    } else {
      var c :| c in parents && IsNear(parents, pid, parents[c]) && !IsNear(parents, pid, c);
      var o, o' := OpenFamilyDepends(parents, pid, c);
    }
  }

  /** The smallest open family: whether the grandchild is found depends on the order. */
  lemma OrderMatters()
    ensures var parents := map[2 := 1, 3 := 2];
            && Enumerates([2, 3], parents.Keys) && Enumerates([3, 2], parents.Keys)
            && RelatedProcesses(parents, 1, [2, 3]) == {1, 2, 3}
            && RelatedProcesses(parents, 1, [3, 2]) == {1, 2}
  {
    var parents := map[2 := 1, 3 := 2];
    assert parents.Keys == {2, 3};
    assert forall c :: c in [2, 3] <==> c in {2, 3};
    assert forall c :: c in [3, 2] <==> c in {2, 3};
    assert Ancestors(parents, 1) == {1};
    ChildPassConcat(parents, [2], [3], {1});
    ChildPassConcat(parents, [3], [2], {1});
    assert [2] + [3] == [2, 3] && [3] + [2] == [3, 2];
    assert ChildPass(parents, [2], {1}) == {1, 2};
    assert ChildPass(parents, [3], {1}) == {1};
    assert ChildPass(parents, [3], {1, 2}) == {1, 2, 3};
  }

  // ---------- The program ----------

  /** The walk as performed: the choice of `child` stands for the map's unspecified iteration order. */
  method GetRelatedProcesses(parents: map<Pid, Pid>, pid: Pid) returns (related: set<Pid>, ghost order: seq<Pid>)
    ensures Enumerates(order, parents.Keys)
    ensures related == RelatedProcesses(parents, pid, order)
    ensures forall a | IsAncestor(parents, pid, a) :: a in related
    ensures forall c | c in parents && IsAncestor(parents, pid, parents[c]) :: c in related
    ensures forall x | x in related :: exists a :: IsAncestor(parents, pid, a) && DescendsFrom(parents, x, a)
  {
    related := {pid};
    var current := pid;
    while current in parents && parents[current] != 0 && parents[current] !in related
      invariant AncestorWalk(parents, current, related) == Ancestors(parents, pid)
      decreases parents.Values - related
    {
      var parent := parents[current];
      assert parent in parents.Values - related && parent !in parents.Values - (related + {parent});
      related := related + {parent};
      current := parent;
    }
    order := [];
    var todo := parents.Keys;
    while todo != {}
      invariant todo <= parents.Keys
      invariant NoRepeats(order) && forall c :: c in order <==> c in parents.Keys - todo
      invariant related == ChildPass(parents, order, Ancestors(parents, pid))
    {
      var child :| child in todo;
      todo := todo - {child};
      assert (order + [child])[..|order|] == order;
      NoRepeatsConcat(order, [child]);
      order := order + [child];
      if parents[child] in related {
        related := related + {child};
      }
    }
    RelatedForEveryOrder(parents, pid, order);
  }
}
