/**
 Flattening of the process table into a depth-annotated listing (tools/process.go).

 The table maps a pid to its parent pid and name.  Child lists are built by one loop over
 the table and walked depth first by a recursive closure that keeps no visited set.  A call of
 the closure that returns is a finite tree of calls; `Forest` is that tree, and
 `Calls(v, f, pids)` says that `f` is the tree of calls made by walking `pids` one after the
 other.  So "the walk terminates" is "some forest satisfies Calls".
 */
module ProcessTree {
  import opened MapOrder
  import opened Sequences
  import opened Wrappers

  datatype Proc = Proc(ppid: Pid, name: string)

  type Table = map<Pid, Proc>

  datatype Node = Node(pid: Pid, ppid: Pid, name: string, depth: int, isLeaf: bool)

  /** The calls of a walk: first call, the calls it makes, the calls made after it. */
  datatype Forest = Empty | Cons(pid: Pid, kids: Forest, rest: Forest)

  /** What childrenMap is built from: the table, the order it is ranged over, and the pid left out. */
  datatype View = View(procs: Table, order: seq<Pid>, excluded: Pid) {
    ghost predicate Valid() {
      Enumerates(order, procs.Keys)
    }
  }

  /** childrenMap[parent] after ranging over `order`. */
  function Kids(procs: Table, order: seq<Pid>, excluded: Pid, parent: Pid): (r: seq<Pid>)
    requires forall p :: p in order ==> p in procs
    ensures forall c :: c in r <==> c in order && c != excluded && procs[c].ppid == parent
  {
    if order == [] then []
    else
      var n := |order| - 1;
      var last := order[n];
      var before := Kids(procs, order[..n], excluded, parent);
      assert order == order[..n] + [last] && last in order;
      if last != excluded && procs[last].ppid == parent then before + [last] else before
  }

  ghost function KidsOf(v: View, parent: Pid): (r: seq<Pid>)
    requires v.Valid()
    ensures forall c :: c in r <==> c in v.procs && c != v.excluded && v.procs[c].ppid == parent
  {
    Kids(v.procs, v.order, v.excluded, parent)
  }

  /** The roots of a full listing, in iteration order. */
  function Roots(procs: Table, order: seq<Pid>): (r: seq<Pid>)
    requires forall p :: p in order ==> p in procs
    ensures forall c :: c in r <==> c in order && (procs[c].ppid == 0 || procs[c].ppid == c)
  {
    if order == [] then []
    else
      var n := |order| - 1;
      var last := order[n];
      var before := Roots(procs, order[..n]);
      assert order == order[..n] + [last] && last in order;
      if procs[last].ppid == 0 || procs[last].ppid == last then before + [last] else before
  }

  /** The pids at positions `idx` of the order. */
  ghost predicate PickedAt(pids: seq<Pid>, order: seq<Pid>, idx: seq<nat>) {
    Increasing(idx, |order|) && |idx| == |pids| && forall k :: 0 <= k < |idx| ==> pids[k] == order[idx[k]]
  }

  ghost predicate IsKid(procs: Table, excluded: Pid, parent: Pid, p: Pid) {
    p != excluded && p in procs && procs[p].ppid == parent
  }

  ghost predicate ChildrenAt(kids: seq<Pid>, procs: Table, order: seq<Pid>, excluded: Pid, parent: Pid, idx: seq<nat>) {
    && PickedAt(kids, order, idx)
    && forall i: nat :: i < |order| ==> (i in idx <==> IsKid(procs, excluded, parent, order[i]))
  }

  /** The children of `parent` in iteration order, each as often as the order has it. */
  ghost predicate ChildrenInOrder(kids: seq<Pid>, procs: Table, order: seq<Pid>, excluded: Pid, parent: Pid) {
    exists idx :: ChildrenAt(kids, procs, order, excluded, parent, idx)
  }

  lemma PickNext(pids: seq<Pid>, order: seq<Pid>, before: seq<nat>, keep: bool) returns (idx: seq<nat>)
    requires order != [] && PickedAt(pids, order[..|order| - 1], before)
    ensures PickedAt(if keep then pids + [order[|order| - 1]] else pids, order, idx)
    ensures forall i: nat :: i < |order| ==> (i in idx <==> if i < |order| - 1 then i in before else keep)
  {
    var n := |order| - 1;
    idx := Grow(before, n, keep);
    assert n !in before;
  }

  lemma {:induction false} KidsInOrder(procs: Table, order: seq<Pid>, excluded: Pid, parent: Pid)
    returns (idx: seq<nat>)
    requires forall p :: p in order ==> p in procs
    ensures ChildrenAt(Kids(procs, order, excluded, parent), procs, order, excluded, parent, idx)
  {
    idx := [];
    if order != [] {
      var n := |order| - 1;
      var last: Pid := order[n];
      assert order == order[..n] + [last] && last in order;
      var before := KidsInOrder(procs, order[..n], excluded, parent);
      idx := PickNext(Kids(procs, order[..n], excluded, parent), order, before, IsKid(procs, excluded, parent, last));
      assert forall i :: 0 <= i < n ==> order[..n][i] == order[i];
    }
  }

  ghost predicate IsRoot(procs: Table, p: Pid) {
    p in procs && (procs[p].ppid == 0 || procs[p].ppid == p)
  }

  /** The roots, too, are walked in iteration order. */
  lemma {:induction false} RootsInOrder(procs: Table, order: seq<Pid>) returns (idx: seq<nat>)
    requires forall p :: p in order ==> p in procs
    ensures PickedAt(Roots(procs, order), order, idx)
    ensures forall i: nat :: i < |order| ==> (i in idx <==> IsRoot(procs, order[i]))
  {
    idx := [];
    if order != [] {
      var n := |order| - 1;
      var last: Pid := order[n];
      assert order == order[..n] + [last] && last in order;
      var before := RootsInOrder(procs, order[..n]);
      idx := PickNext(Roots(procs, order[..n]), order, before, IsRoot(procs, last));
      assert forall i :: 0 <= i < n ==> order[..n][i] == order[i];
    }
  }

  /** `f` is the finite tree of calls made by walking `pids` in turn. */
  ghost predicate Calls(v: View, f: Forest, pids: seq<Pid>)
    requires v.Valid()
  {
    match f
    case Empty => pids == []
    case Cons(p, kids, rest) =>
      && pids != [] && p == pids[0] && p in v.procs
      && Calls(v, kids, KidsOf(v, p))
      && Calls(v, rest, pids[1..])
  }

  /** The entry of one process; a pid missing from the table reads as the zero record. */
  function Entry(procs: Table, p: Pid, depth: int, isLeaf: bool): Node {
    var info := if p in procs then procs[p] else Proc(0, "");
    Node(p, info.ppid, info.name, depth, isLeaf)
  }

  /** The entries appended by the calls of `f`, started at `depth`. */
  function Flat(procs: Table, f: Forest, depth: int): seq<Node> {
    match f
    case Empty => []
    case Cons(p, kids, rest) =>
      [Entry(procs, p, depth, kids == Empty)] + Flat(procs, kids, depth + 1) + Flat(procs, rest, depth)
  }

  /** How often `p` is listed. */
  function Count(f: Forest, p: Pid): nat {
    match f
    case Empty => 0
    case Cons(q, kids, rest) => (if p == q then 1 else 0) + Count(kids, p) + Count(rest, p)
  }

  function Append(f: Forest, g: Forest): Forest {
    match f
    case Empty => g
    case Cons(p, kids, rest) => Cons(p, kids, Append(rest, g))
  }

  // ---------------------------------------------------------------- ancestry

  /** The ancestor `k` parent links above `p`; every process passed through must be in the table. */
  function Up(procs: Table, p: Pid, k: nat): Option<Pid>
    decreases k
  {
    if k == 0 then Some(p)
    else if p in procs then Up(procs, procs[p].ppid, k - 1)
    else None
  }

  ghost predicate Descends(procs: Table, p: Pid, ancestor: Pid) {
    exists k: nat :: Up(procs, p, k) == Some(ancestor)
  }

  ghost predicate ReachesZero(procs: Table, p: Pid) {
    exists k: nat :: k > 0 && Up(procs, p, k) == Some(0)
  }

  lemma {:induction false} UpStep(procs: Table, p: Pid, k: nat)
    requires Up(procs, p, k).Some?
    ensures Up(procs, p, k + 1) ==
            if Up(procs, p, k).value in procs then Some(procs[Up(procs, p, k).value].ppid) else None
    decreases k
  {
    if k > 0 {
      UpStep(procs, procs[p].ppid, k - 1);
    }
  }

  /** A walk may start at the excluded pid, or at a process whose parent is the excluded pid. */
  ghost predicate Start(v: View, r: Pid) {
    r in v.procs && (r == v.excluded || v.procs[r].ppid == v.excluded)
  }

  /** The parent chain of `p` first meets `r` after `d` links, and meets no excluded pid before. */
  ghost predicate AtLevel(v: View, r: Pid, p: Pid, d: nat)
    decreases d
  {
    if d == 0 then p == r
    else p in v.procs && p != r && p != v.excluded && AtLevel(v, r, v.procs[p].ppid, d - 1)
  }

  ghost predicate Below(v: View, r: Pid, p: Pid) {
    exists d: nat :: AtLevel(v, r, p, d)
  }

  lemma {:induction false} LevelUnique(v: View, r: Pid, p: Pid, d: nat, e: nat)
    requires AtLevel(v, r, p, d) && AtLevel(v, r, p, e)
    ensures d == e
    decreases d
  {
    if d > 0 && e > 0 {
      LevelUnique(v, r, v.procs[p].ppid, d - 1, e - 1);
    }
  }

  lemma {:induction false} LevelUp(v: View, r: Pid, p: Pid, d: nat)
    requires AtLevel(v, r, p, d)
    ensures Up(v.procs, p, d) == Some(r)
    decreases d
  {
    if d > 0 {
      LevelUp(v, r, v.procs[p].ppid, d - 1);
    }
  }

  /** The processes on the chain from `p` up to `r`. */
  ghost function Chain(v: View, r: Pid, p: Pid, d: nat): set<Pid>
    requires AtLevel(v, r, p, d)
    decreases d
  {
    if d == 0 then {p} else {p} + Chain(v, r, v.procs[p].ppid, d - 1)
  }

  lemma {:induction false} ChainLevels(v: View, r: Pid, p: Pid, d: nat, q: Pid)
    requires AtLevel(v, r, p, d) && q in Chain(v, r, p, d)
    ensures exists e: nat :: e <= d && AtLevel(v, r, q, e)
    decreases d
  {
    if q == p {
      assert AtLevel(v, r, q, d);
    } else {
      ChainLevels(v, r, v.procs[p].ppid, d - 1, q);
    }
  }

  lemma {:induction false} ChainSize(v: View, r: Pid, p: Pid, d: nat)
    requires AtLevel(v, r, p, d) && r in v.procs
    ensures |Chain(v, r, p, d)| == d + 1 && Chain(v, r, p, d) <= v.procs.Keys
    decreases d
  {
    if d > 0 {
      var q := v.procs[p].ppid;
      ChainSize(v, r, q, d - 1);
      if p in Chain(v, r, q, d - 1) {
        ChainLevels(v, r, q, d - 1, p);
        var e: nat :| e <= d - 1 && AtLevel(v, r, p, e);
        LevelUnique(v, r, p, d, e);
        assert false;
      }
    }
  }

  lemma SubsetSize<T>(a: set<T>, b: set<T>)
    requires a <= b
    ensures |a| <= |b|
  {
    assert b == a + (b - a);
  }

  /** No chain is longer than the table: this bounds the recursion depth. */
  lemma LevelBound(v: View, r: Pid, p: Pid, d: nat)
    requires AtLevel(v, r, p, d) && r in v.procs
    ensures d < |v.procs|
  {
    ChainSize(v, r, p, d);
    SubsetSize(Chain(v, r, p, d), v.procs.Keys);
  }

  /** A pid the walk from `r` may visit at depth `d`. */
  ghost predicate Visits(v: View, r: Pid, p: Pid, d: nat) {
    p in v.procs && (p == r || p != v.excluded) && AtLevel(v, r, p, d)
  }

  /** A child is one level deeper: in particular it is never the start of the walk again. */
  lemma ChildrenLevel(v: View, r: Pid, p: Pid, d: nat)
    requires v.Valid() && Start(v, r) && Visits(v, r, p, d)
    ensures forall c :: c in KidsOf(v, p) ==> Visits(v, r, c, d + 1)
  {
    forall c | c in KidsOf(v, p) ensures Visits(v, r, c, d + 1) {
      assert c != r;
    }
  }

  // ---------------------------------------------------------------- termination

  /** What flattenTree walks: the requested process if it exists, or all roots. */
  function Walked(procs: Table, order: seq<Pid>, rootPID: Pid): seq<Pid>
    requires forall p :: p in order ==> p in procs
  {
    if rootPID != 0 then (if rootPID in procs then [rootPID] else []) else Roots(procs, order)
  }

  /** `f` is the call tree of flattenTree(procs, rootPID); the two map loops may use different orders. */
  ghost predicate Flattens(procs: Table, order1: seq<Pid>, order2: seq<Pid>, rootPID: Pid, f: Forest)
    requires Enumerates(order1, procs.Keys) && Enumerates(order2, procs.Keys)
  {
    Calls(View(procs, order1, rootPID), f, Walked(procs, order2, rootPID))
  }

  /** Some process other than pid 0 is its own parent. */
  ghost predicate HasSelfParent(procs: Table) {
    exists p :: p in procs && p != 0 && procs[p].ppid == p
  }

  lemma {:induction false} WalkEnds(v: View, r: Pid, pids: seq<Pid>, d: nat) returns (f: Forest)
    requires v.Valid() && Start(v, r) && forall p :: p in pids ==> Visits(v, r, p, d)
    ensures Calls(v, f, pids)
    decreases |v.procs| - d, |pids|
  {
    if pids == [] {
      f := Empty;
    } else {
      var p: Pid := pids[0];
      assert p in pids;
      LevelBound(v, r, p, d);
      ChildrenLevel(v, r, p, d);
      var kids := WalkEnds(v, r, KidsOf(v, p), d + 1);
      var rest := WalkEnds(v, r, pids[1..], d);
      f := Cons(p, kids, rest);
    }
  }

  lemma {:induction false} StartsEnd(v: View, rs: seq<Pid>) returns (f: Forest)
    requires v.Valid() && forall r :: r in rs ==> Start(v, r)
    ensures Calls(v, f, rs)
  {
    if rs == [] {
      f := Empty;
    } else {
      var r: Pid := rs[0];
      assert r in rs;
      assert Visits(v, r, r, 0);
      var one := WalkEnds(v, r, [r], 0);
      var rest := StartsEnd(v, rs[1..]);
      f := Cons(r, one.kids, rest);
    }
  }

  lemma {:induction false} SelfParentDiverges(v: View, f: Forest, pids: seq<Pid>, p: Pid)
    requires v.Valid() && p in pids && p in v.procs && p != v.excluded && v.procs[p].ppid == p
    ensures !Calls(v, f, pids)
  {
    if Calls(v, f, pids) {
      if f.pid == p {
        SelfParentDiverges(v, f.kids, KidsOf(v, p), p);
      } else {
        SelfParentDiverges(v, f.rest, pids[1..], p);
      }
    }
  }

  /** A walked pid is a legal start, unless it is its own parent. */
  lemma WalkedStarts(procs: Table, order1: seq<Pid>, order2: seq<Pid>, rootPID: Pid)
    requires Enumerates(order1, procs.Keys) && Enumerates(order2, procs.Keys)
    requires rootPID != 0 || !HasSelfParent(procs)
    ensures forall r :: r in Walked(procs, order2, rootPID) ==> Start(View(procs, order1, rootPID), r)
  {
  }

  /**
   flattenTree returns exactly when a subtree is asked for, or no process other than pid 0 is its
   own parent.  A subtree listing ends even when the parent links contain cycles.
   */
  lemma FlattenEndsIff(procs: Table, order1: seq<Pid>, order2: seq<Pid>, rootPID: Pid)
    requires Enumerates(order1, procs.Keys) && Enumerates(order2, procs.Keys)
    ensures (exists f :: Flattens(procs, order1, order2, rootPID, f)) <==> rootPID != 0 || !HasSelfParent(procs)
  {
    var v := View(procs, order1, rootPID);
    if rootPID != 0 || !HasSelfParent(procs) {
      WalkedStarts(procs, order1, order2, rootPID);
      var f := StartsEnd(v, Walked(procs, order2, rootPID));
      assert Flattens(procs, order1, order2, rootPID, f);
    } else {
      var p :| p in procs && p != 0 && procs[p].ppid == p;
      forall f ensures !Flattens(procs, order1, order2, rootPID, f) {
        SelfParentDiverges(v, f, Walked(procs, order2, rootPID), p);
      }
    }
  }

  lemma {:induction false} CallsUnique(v: View, f: Forest, g: Forest, pids: seq<Pid>)
    requires v.Valid() && Calls(v, f, pids) && Calls(v, g, pids)
    ensures f == g
  {
    match f
    case Empty =>
    case Cons(p, kids, rest) =>
      CallsUnique(v, kids, g.kids, KidsOf(v, p));
      CallsUnique(v, rest, g.rest, pids[1..]);
  }

  // ---------------------------------------------------------------- the code

  lemma {:induction false} AppendCalls(v: View, f: Forest, g: Forest, a: seq<Pid>, b: seq<Pid>)
    requires v.Valid() && Calls(v, f, a) && Calls(v, g, b)
    ensures Calls(v, Append(f, g), a + b)
  {
    match f
    case Empty => assert a + b == b;
    case Cons(p, kids, rest) =>
      AppendCalls(v, rest, g, a[1..], b);
      assert (a + b)[1..] == a[1..] + b;
  }

  lemma {:induction false} AppendFlat(procs: Table, f: Forest, g: Forest, d: int)
    ensures Flat(procs, Append(f, g), d) == Flat(procs, f, d) + Flat(procs, g, d)
  {
    match f
    case Empty =>
    case Cons(p, kids, rest) =>
      AppendFlat(procs, rest, g, d);
      var a := [Entry(procs, p, d, kids == Empty)] + Flat(procs, kids, d + 1);
      assert a + (Flat(procs, rest, d) + Flat(procs, g, d)) == a + Flat(procs, rest, d) + Flat(procs, g, d);
  }

  /** One more iteration of a loop that walks `pids` in turn. */
  lemma WalkNext(v: View, f: Forest, g: Forest, pids: seq<Pid>, i: nat, d: int, before: seq<Node>) returns (h: Forest)
    requires v.Valid() && i < |pids| && Calls(v, f, pids[..i]) && Calls(v, g, [pids[i]])
    ensures Calls(v, h, pids[..i + 1])
    ensures Flat(v.procs, h, d) == Flat(v.procs, f, d) + Flat(v.procs, g, d)
    ensures before + Flat(v.procs, h, d) == before + Flat(v.procs, f, d) + Flat(v.procs, g, d)
  {
    h := Append(f, g);
    AppendCalls(v, f, g, pids[..i], [pids[i]]);
    AppendFlat(v.procs, f, g, d);
    assert pids[..i] + [pids[i]] == pids[..i + 1];
  }

  lemma OneCall(v: View, p: Pid, kids: Forest)
    requires v.Valid() && p in v.procs && Calls(v, kids, KidsOf(v, p))
    ensures Calls(v, Cons(p, kids, Empty), [p])
  {
    assert [p][1..] == [] && Calls(v, Empty, []);
  }

  /** The loop over the children is done: the call for `p` returns. */
  lemma WalkReturns(v: View, p: Pid, kids: Forest, d: int, before: seq<Node>) returns (f: Forest)
    requires v.Valid() && p in v.procs && Calls(v, kids, KidsOf(v, p))
    ensures Calls(v, f, [p])
    ensures before + Flat(v.procs, f, d)
            == before + [Entry(v.procs, p, d, |KidsOf(v, p)| == 0)] + Flat(v.procs, kids, d + 1)
  {
    f := Cons(p, kids, Empty);
    OneCall(v, p, kids);
    assert kids == Empty <==> |KidsOf(v, p)| == 0;
  }

  /** A missing key of childrenMap reads as the empty list. */
  function Children(m: map<Pid, seq<Pid>>, q: Pid): seq<Pid> {
    if q in m then m[q] else []
  }

  ghost predicate MapsKids(m: map<Pid, seq<Pid>>, procs: Table, order: seq<Pid>, excluded: Pid)
    requires forall p :: p in order ==> p in procs
  {
    forall q :: Children(m, q) == Kids(procs, order, excluded, q)
  }

  /** The loop that inverts the parent links. */
  method BuildChildrenMap(procs: Table, order: seq<Pid>, rootPID: Pid) returns (childrenMap: map<Pid, seq<Pid>>)
    requires Enumerates(order, procs.Keys)
    ensures MapsKids(childrenMap, procs, order, rootPID)
    ensures forall q :: ChildrenInOrder(Children(childrenMap, q), procs, order, rootPID, q)
  {
    childrenMap := map[];
    for i := 0 to |order|
      invariant MapsKids(childrenMap, procs, order[..i], rootPID)
    {
      var pid: Pid := order[i];
      assert pid in order;
      assert order[..i + 1][..i] == order[..i];
      if pid != rootPID {
        var ppid := procs[pid].ppid;
        childrenMap := childrenMap[ppid := Children(childrenMap, ppid) + [pid]];
      }
    }
    assert order[..|order|] == order;
    forall q ensures ChildrenInOrder(Children(childrenMap, q), procs, order, rootPID, q) {
      var idx := KidsInOrder(procs, order, rootPID, q);
      assert Children(childrenMap, q) == Kids(procs, order, rootPID, q);
    }
  }

  /** The variables that flattenTree's recursive closure captures; it only writes `nodes`. */
  class Walker {
    const procs: Table
    const childrenMap: map<Pid, seq<Pid>>
    var nodes: seq<Node>
    ghost const view: View

    ghost predicate Valid() {
      view.Valid() && view.procs == procs && MapsKids(childrenMap, procs, view.order, view.excluded)
    }

    constructor (procs: Table, childrenMap: map<Pid, seq<Pid>>, ghost order: seq<Pid>, ghost rootPID: Pid)
      requires Enumerates(order, procs.Keys) && MapsKids(childrenMap, procs, order, rootPID)
      ensures Valid() && nodes == []
      ensures this.procs == procs && view == View(procs, order, rootPID)
    {
      this.procs := procs;
      this.childrenMap := childrenMap;
      nodes := [];
      view := View(procs, order, rootPID);
    }

    /** The recursive closure: appends the entries of one call tree, and calls itself finitely often. */
    method Walk(pid: Pid, depth: int, ghost r: Pid, ghost d: nat) returns (ghost f: Forest)
      requires Valid() && Start(view, r) && Visits(view, r, pid, d)
      modifies this`nodes
      ensures Calls(view, f, [pid])
      ensures nodes == old(nodes) + Flat(procs, f, depth)
      decreases |procs| - d, 1
    {
      ChildrenLevel(view, r, pid, d);
      var info := procs[pid];
      var children := Children(childrenMap, pid);
      assert children == KidsOf(view, pid);
      nodes := nodes + [Node(pid, info.ppid, info.name, depth, |children| == 0)];
      ghost var kids := WalkChildren(pid, children, depth, r, d);
      f := WalkReturns(view, pid, kids, depth, old(nodes));
    }

    /** The loop at the end of the closure. */
    method WalkChildren(ghost pid: Pid, children: seq<Pid>, depth: int, ghost r: Pid, ghost d: nat)
      returns (ghost kids: Forest)
      requires Valid() && Start(view, r) && Visits(view, r, pid, d)
      requires forall c :: c in children ==> Visits(view, r, c, d + 1)
      modifies this`nodes
      ensures Calls(view, kids, children)
      ensures nodes == old(nodes) + Flat(procs, kids, depth + 1)
      decreases |procs| - d, 0
    {
      LevelBound(view, r, pid, d);
      kids := Empty;
      for i := 0 to |children|
        invariant Calls(view, kids, children[..i])
        invariant nodes == old(nodes) + Flat(procs, kids, depth + 1)
      {
        var child: Pid := children[i];
        assert child in children;
        ghost var g := Walk(child, depth + 1, r, d + 1);
        kids := WalkNext(view, kids, g, children, i, depth + 1, old(nodes));
      }
      assert children[..|children|] == children;
    }
  }

  /** flattenTree, called where it returns at all. */
  method FlattenTree(procs: Table, order1: seq<Pid>, order2: seq<Pid>, rootPID: Pid)
    returns (nodes: seq<Node>)
    requires Enumerates(order1, procs.Keys) && Enumerates(order2, procs.Keys)
    requires rootPID != 0 || !HasSelfParent(procs)
    ensures exists f :: Flattens(procs, order1, order2, rootPID, f)
    ensures forall f :: Flattens(procs, order1, order2, rootPID, f) ==> nodes == Flat(procs, f, 0)
  {
    var childrenMap := BuildChildrenMap(procs, order1, rootPID);
    var w := new Walker(procs, childrenMap, order1, rootPID);
    ghost var v := w.view;
    WalkedStarts(procs, order1, order2, rootPID);
    ghost var f := Empty;
    if rootPID != 0 {
      if rootPID in procs {
        f := w.Walk(rootPID, 0, rootPID, 0);
      }
    } else {
      var roots := [];
      for i := 0 to |order2|
        invariant roots == Roots(procs, order2[..i])
        invariant w.nodes == [] && w.Valid()
      {
        var pid := order2[i];
        assert pid in order2;
        assert order2[..i + 1][..i] == order2[..i];
        var info := procs[pid];
        if info.ppid == 0 || info.ppid == pid {
          roots := roots + [pid];
        }
      }
      assert order2[..|order2|] == order2;
      for i := 0 to |roots|
        invariant w.Valid() && Calls(v, f, roots[..i])
        invariant w.nodes == Flat(procs, f, 0)
      {
        var root: Pid := roots[i];
        assert root in roots;
        ghost var g := w.Walk(root, 0, root, 0);
        f := WalkNext(v, f, g, roots, i, 0, []);
      }
      assert roots[..|roots|] == roots;
    }
    nodes := w.nodes;
    assert Flattens(procs, order1, order2, rootPID, f);
    forall g | Flattens(procs, order1, order2, rootPID, g) ensures nodes == Flat(procs, g, 0) {
      CallsUnique(v, f, g, Walked(procs, order2, rootPID));
    }
  }
}
