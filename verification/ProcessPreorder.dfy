/** The shape of a listing: it encodes the call tree, contains subtree listings, and does not depend on map order. */
module ProcessPreorder {
  import opened MapOrder
  import opened Wrappers
  import opened ProcessTree
  import opened ProcessListing

  // ---------------------------------------------------------------- lossless encoding

  /** The PID and Depth columns. */
  datatype Row = Row(pid: Pid, depth: int)

  function Rows(nodes: seq<Node>): seq<Row> {
    seq(|nodes|, i requires 0 <= i < |nodes| => Row(nodes[i].pid, nodes[i].depth))
  }

  /** The length of the leading run of rows deeper than `d`. */
  function RunDeeper(rows: seq<Row>, d: int): (n: nat)
    ensures n <= |rows|
  {
    if rows == [] || rows[0].depth <= d then 0 else 1 + RunDeeper(rows[1..], d)
  }

  /** Reads a forest back: the rows deeper than the first one, up to the next that is not, are its children. */
  function Rebuild(rows: seq<Row>): Forest
    decreases |rows|
  {
    if rows == [] then Empty
    else
      var n := RunDeeper(rows[1..], rows[0].depth);
      Cons(rows[0].pid, Rebuild(rows[1..1 + n]), Rebuild(rows[1 + n..]))
  }

  lemma {:induction false} RunDeeperConcat(a: seq<Row>, b: seq<Row>, d: int)
    requires forall i :: 0 <= i < |a| ==> a[i].depth > d
    requires b == [] || b[0].depth <= d
    ensures RunDeeper(a + b, d) == |a|
  {
    if a == [] {
      assert a + b == b;
    } else {
      assert (a + b)[1..] == a[1..] + b;
      RunDeeperConcat(a[1..], b, d);
    }
  }

  lemma {:induction false} FlatDeep(procs: Table, f: Forest, d: int)
    ensures forall i :: 0 <= i < |Flat(procs, f, d)| ==> Flat(procs, f, d)[i].depth >= d
    ensures f.Cons? ==> Flat(procs, f, d) != [] && Flat(procs, f, d)[0] == Entry(procs, f.pid, d, f.kids == Empty)
  {
    if f.Cons? {
      FlatDeep(procs, f.kids, d + 1);
      FlatDeep(procs, f.rest, d);
    }
  }

  lemma RebuildNode(n: Node, under: seq<Node>, after: seq<Node>)
    requires forall i :: 0 <= i < |under| ==> under[i].depth > n.depth
    requires after == [] || after[0].depth <= n.depth
    ensures Rebuild(Rows([n] + under + after)) == Cons(n.pid, Rebuild(Rows(under)), Rebuild(Rows(after)))
  {
    var all := Rows([n] + under + after);
    assert all[1..] == Rows(under) + Rows(after);
    RunDeeperConcat(Rows(under), Rows(after), n.depth);
    assert all[1..1 + |under|] == Rows(under);
    assert all[1 + |under|..] == Rows(after);
  }

  /** The listing is a lossless encoding: the whole call tree can be read back from PID and Depth alone. */
  lemma {:induction false} RebuildListing(procs: Table, f: Forest, d: int)
    ensures Rebuild(Rows(Flat(procs, f, d))) == f
  {
    match f
    case Empty =>
    case Cons(p, kids, rest) =>
      FlatDeep(procs, kids, d + 1);
      FlatDeep(procs, rest, d);
      RebuildNode(Entry(procs, p, d, kids == Empty), Flat(procs, kids, d + 1), Flat(procs, rest, d));
      RebuildListing(procs, kids, d + 1);
      RebuildListing(procs, rest, d);
  }

  // ---------------------------------------------------------------- row by row

  /** Row `j` is the last row before `i` that is one level up, and its PID is row i's PPID. */
  ghost predicate ParentRow(nodes: seq<Node>, j: int, i: int)
    requires 0 <= j < i < |nodes|
  {
    && nodes[j].depth == nodes[i].depth - 1
    && nodes[j].pid == nodes[i].ppid
    && forall k :: j < k < i ==> nodes[k].depth >= nodes[i].depth
  }

  ghost predicate HasParentRow(nodes: seq<Node>, i: int)
    requires 0 <= i < |nodes|
  {
    exists j :: 0 <= j < i && ParentRow(nodes, j, i)
  }

  ghost predicate LeafRow(nodes: seq<Node>, i: int)
    requires 0 <= i < |nodes|
  {
    nodes[i].isLeaf <==> i + 1 == |nodes| || nodes[i + 1].depth <= nodes[i].depth
  }

  ghost predicate DepthRow(nodes: seq<Node>, i: int)
    requires 0 < i < |nodes|
  {
    nodes[i].depth <= nodes[i - 1].depth + 1
  }

  ghost predicate DepthLaw(nodes: seq<Node>, d: int) {
    && (nodes != [] ==> nodes[0].depth == d)
    && (forall i :: 0 <= i < |nodes| ==> nodes[i].depth >= d)
    && (forall i :: 0 < i < |nodes| ==> DepthRow(nodes, i))
  }

  ghost predicate LeafLaw(nodes: seq<Node>) {
    forall i :: 0 <= i < |nodes| ==> LeafRow(nodes, i)
  }

  ghost predicate ParentLaw(nodes: seq<Node>, d: int) {
    forall i :: 0 <= i < |nodes| && nodes[i].depth > d ==> HasParentRow(nodes, i)
  }

  /** The laws a reader of a listing relies on, for a listing whose top level is `d`. */
  ghost predicate Preorder(nodes: seq<Node>, d: int) {
    DepthLaw(nodes, d) && LeafLaw(nodes) && ParentLaw(nodes, d)
  }

  lemma ParentRowLeft(a: seq<Node>, b: seq<Node>, i: int)
    requires 0 <= i < |a| && HasParentRow(a, i)
    ensures HasParentRow(a + b, i)
  {
    var j :| 0 <= j < i && ParentRow(a, j, i);
    assert ParentRow(a + b, j, i);
  }

  lemma ParentRowRight(a: seq<Node>, b: seq<Node>, i: int)
    requires 0 <= i < |b| && HasParentRow(b, i)
    ensures HasParentRow(a + b, |a| + i)
  {
    var j :| 0 <= j < i && ParentRow(b, j, i);
    forall k | |a| + j < k < |a| + i ensures (a + b)[k].depth >= b[i].depth {
      assert (a + b)[k] == b[k - |a|];
    }
    assert ParentRow(a + b, |a| + j, |a| + i);
  }

  lemma LeafConcat(a: seq<Node>, b: seq<Node>, d: int)
    requires DepthLaw(a, d) && DepthLaw(b, d) && LeafLaw(a) && LeafLaw(b)
    ensures LeafLaw(a + b)
  {
    forall i | 0 <= i < |a + b| ensures LeafRow(a + b, i) {
      if i < |a| {
        assert LeafRow(a, i);
      } else {
        assert LeafRow(b, i - |a|);
      }
    }
  }

  lemma ParentConcat(a: seq<Node>, b: seq<Node>, d: int)
    requires ParentLaw(a, d) && ParentLaw(b, d)
    ensures ParentLaw(a + b, d)
  {
    forall i | 0 <= i < |a + b| && (a + b)[i].depth > d ensures HasParentRow(a + b, i) {
      if i < |a| {
        assert (a + b)[i] == a[i];
        ParentRowLeft(a, b, i);
      } else {
        assert (a + b)[i] == b[i - |a|];
        ParentRowRight(a, b, i - |a|);
      }
    }
  }

  lemma LeafUnder(n: Node, a: seq<Node>, d: int)
    requires n.depth == d && (n.isLeaf <==> a == []) && DepthLaw(a, d + 1) && LeafLaw(a)
    ensures LeafLaw([n] + a)
  {
    forall i | 0 <= i < |[n] + a| ensures LeafRow([n] + a, i) {
      if i > 0 {
        assert LeafRow(a, i - 1);
      }
    }
  }

  lemma ParentUnder(n: Node, a: seq<Node>, d: int)
    requires n.depth == d && DepthLaw(a, d + 1) && ParentLaw(a, d + 1)
    requires forall i :: 0 <= i < |a| && a[i].depth == d + 1 ==> a[i].ppid == n.pid
    ensures ParentLaw([n] + a, d)
  {
    var s := [n] + a;
    forall i | 0 <= i < |s| && s[i].depth > d ensures HasParentRow(s, i) {
      if s[i].depth == d + 1 {
        assert ParentRow(s, 0, i);
      } else {
        assert s[i] == a[i - 1];
        ParentRowRight([n], a, i - 1);
      }
    }
  }

  lemma DepthConcat(a: seq<Node>, b: seq<Node>, d: int)
    requires DepthLaw(a, d) && DepthLaw(b, d)
    ensures DepthLaw(a + b, d)
  {
    var s := a + b;
    forall i | 0 < i < |s| ensures DepthRow(s, i) {
      if i < |a| {
        assert DepthRow(a, i);
      } else if i == |a| {
        assert s[i - 1] == a[i - 1] && s[i] == b[0];
      } else {
        assert DepthRow(b, i - |a|);
      }
    }
  }

  lemma DepthUnder(n: Node, a: seq<Node>, d: int)
    requires n.depth == d && DepthLaw(a, d + 1)
    ensures DepthLaw([n] + a, d)
  {
    var s := [n] + a;
    forall i | 0 < i < |s| ensures DepthRow(s, i) {
      if i > 1 {
        assert DepthRow(a, i - 1);
      }
    }
  }

  lemma PreorderNode(n: Node, a: seq<Node>, b: seq<Node>, d: int)
    requires n.depth == d && (n.isLeaf <==> a == []) && Preorder(a, d + 1) && Preorder(b, d)
    requires forall i :: 0 <= i < |a| && a[i].depth == d + 1 ==> a[i].ppid == n.pid
    ensures Preorder([n] + a + b, d)
  {
    LeafUnder(n, a, d);
    ParentUnder(n, a, d);
    DepthUnder(n, a, d);
    DepthConcat([n] + a, b, d);
    LeafConcat([n] + a, b, d);
    ParentConcat([n] + a, b, d);
  }

  lemma {:induction false} TopRows(v: View, f: Forest, pids: seq<Pid>, d: int, i: int)
    requires v.Valid() && Calls(v, f, pids) && 0 <= i < |Flat(v.procs, f, d)|
    ensures var n := Flat(v.procs, f, d)[i];
            n.depth == d ==> n.pid in pids && n.pid in v.procs && n.ppid == v.procs[n.pid].ppid
    decreases f
  {
    var under, after := Flat(v.procs, f.kids, d + 1), Flat(v.procs, f.rest, d);
    FlatDeep(v.procs, f.kids, d + 1);
    if i == 0 {
      FlatDeep(v.procs, f, d);
    } else if i <= |under| {
      assert Flat(v.procs, f, d)[i] == under[i - 1];
    } else {
      assert Flat(v.procs, f, d)[i] == after[i - 1 - |under|];
      TopRows(v, f.rest, pids[1..], d, i - 1 - |under|);
    }
  }

  /**
   In every listing depth rises by at most one per row, the parent of a row below the top level is
   the last earlier row one level up, and a row is a leaf exactly when the next one is not deeper.
   */
  lemma {:induction false} ListingIsPreorder(v: View, f: Forest, pids: seq<Pid>, d: int)
    requires v.Valid() && Calls(v, f, pids)
    ensures Preorder(Flat(v.procs, f, d), d)
    decreases f
  {
    match f
    case Empty =>
    case Cons(p, kids, rest) =>
      var n, under := Entry(v.procs, p, d, kids == Empty), Flat(v.procs, kids, d + 1);
      ListingIsPreorder(v, kids, KidsOf(v, p), d + 1);
      ListingIsPreorder(v, rest, pids[1..], d);
      FlatDeep(v.procs, kids, d + 1);
      forall i | 0 <= i < |under| && under[i].depth == d + 1 ensures under[i].ppid == p {
        TopRows(v, kids, KidsOf(v, p), d + 1, i);
      }
      PreorderNode(n, under, Flat(v.procs, rest, d), d);
  }

  // ---------------------------------------------------------------- subtree listings are blocks

  function Size(f: Forest): nat {
    match f
    case Empty => 0
    case Cons(_, kids, rest) => 1 + Size(kids) + Size(rest)
  }

  /** A listing moved `e` levels down. */
  function Shift(nodes: seq<Node>, e: int): seq<Node> {
    seq(|nodes|, i requires 0 <= i < |nodes| => nodes[i].(depth := nodes[i].depth + e))
  }

  lemma ShiftConcat(a: seq<Node>, b: seq<Node>, e: int)
    ensures Shift(a + b, e) == Shift(a, e) + Shift(b, e)
  {
  }

  lemma {:induction false} ShiftFlat(procs: Table, f: Forest, d: int, e: int)
    ensures Shift(Flat(procs, f, d), e) == Flat(procs, f, d + e)
  {
    match f
    case Empty =>
    case Cons(p, kids, rest) =>
      ShiftFlat(procs, kids, d + 1, e);
      ShiftFlat(procs, rest, d, e);
      var head, under, after := [Entry(procs, p, d, kids == Empty)], Flat(procs, kids, d + 1), Flat(procs, rest, d);
      ShiftConcat(head, under, e);
      ShiftConcat(head + under, after, e);
  }

  lemma Nest(a: seq<Node>, pre: seq<Node>, x: seq<Node>, post: seq<Node>, b: seq<Node>)
    ensures a + (pre + x + post) + b == (a + pre) + x + (post + b)
  {
  }

  /** The calls made by the first call for `p`, and the depth of that call. */
  function Find(f: Forest, p: Pid): Forest {
    if f == Empty then Empty
    else if p == f.pid then f.kids
    else if Count(f.kids, p) > 0 then Find(f.kids, p)
    else Find(f.rest, p)
  }

  function FindDepth(f: Forest, d: int, p: Pid): int {
    if f == Empty || p == f.pid then d
    else if Count(f.kids, p) > 0 then FindDepth(f.kids, d + 1, p)
    else FindDepth(f.rest, d, p)
  }

  lemma {:induction false} FindCalls(v: View, f: Forest, pids: seq<Pid>, p: Pid)
    requires v.Valid() && Calls(v, f, pids) && Count(f, p) > 0
    ensures p in v.procs && Calls(v, Find(f, p), KidsOf(v, p)) && Size(Find(f, p)) < Size(f)
    decreases f
  {
    if p != f.pid {
      if Count(f.kids, p) > 0 {
        FindCalls(v, f.kids, KidsOf(v, f.pid), p);
      } else {
        FindCalls(v, f.rest, pids[1..], p);
      }
    }
  }

  /** The entries of the first call for `p`, at their depth in the listing. */
  ghost function BlockOf(procs: Table, f: Forest, d: int, p: Pid): seq<Node> {
    Flat(procs, Cons(p, Find(f, p), Empty), FindDepth(f, d, p))
  }

  lemma BlockOnTop(procs: Table, f: Forest, d: int)
    requires f.Cons?
    ensures Flat(procs, f, d) == BlockOf(procs, f, d, f.pid) + Flat(procs, f.rest, d)
  {
  }

  lemma BlockInKids(procs: Table, f: Forest, d: int, p: Pid, pre: seq<Node>, post: seq<Node>)
    requires f.Cons? && p != f.pid && Count(f.kids, p) > 0
    requires Flat(procs, f.kids, d + 1) == pre + BlockOf(procs, f.kids, d + 1, p) + post
    ensures Flat(procs, f, d) == [Entry(procs, f.pid, d, f.kids == Empty)] + pre + BlockOf(procs, f, d, p)
                                 + (post + Flat(procs, f.rest, d))
  {
    Nest([Entry(procs, f.pid, d, f.kids == Empty)], pre, BlockOf(procs, f.kids, d + 1, p), post,
         Flat(procs, f.rest, d));
  }

  lemma BlockInRest(procs: Table, f: Forest, d: int, p: Pid, pre: seq<Node>, post: seq<Node>)
    requires f.Cons? && p != f.pid && Count(f.kids, p) == 0
    requires Flat(procs, f.rest, d) == pre + BlockOf(procs, f.rest, d, p) + post
    ensures Flat(procs, f, d) == [Entry(procs, f.pid, d, f.kids == Empty)] + Flat(procs, f.kids, d + 1) + pre
                                 + BlockOf(procs, f, d, p) + post
  {
    Nest([Entry(procs, f.pid, d, f.kids == Empty)] + Flat(procs, f.kids, d + 1), pre,
         BlockOf(procs, f.rest, d, p), post, []);
  }

  /** The call for a listed `p` fills one contiguous block, followed by a row that is not deeper. */
  lemma {:induction false} FindBlock(procs: Table, f: Forest, d: int, p: Pid) returns (pre: seq<Node>, post: seq<Node>)
    requires Count(f, p) > 0
    ensures FindDepth(f, d, p) >= d
    ensures Flat(procs, f, d) == pre + BlockOf(procs, f, d, p) + post
    ensures post == [] || post[0].depth <= FindDepth(f, d, p)
    decreases f
  {
    var head := [Entry(procs, f.pid, d, f.kids == Empty)];
    FlatDeep(procs, f.rest, d);
    if p == f.pid {
      BlockOnTop(procs, f, d);
      pre, post := [], Flat(procs, f.rest, d);
    } else if Count(f.kids, p) > 0 {
      pre, post := FindBlock(procs, f.kids, d + 1, p);
      BlockInKids(procs, f, d, p, pre, post);
      pre, post := head + pre, post + Flat(procs, f.rest, d);
    } else {
      pre, post := FindBlock(procs, f.rest, d, p);
      BlockInRest(procs, f, d, p, pre, post);
      pre := head + Flat(procs, f.kids, d + 1) + pre;
    }
  }

  /** A listed process reaches one of the walked pids through parent links. */
  lemma {:induction false} ListedUp(v: View, f: Forest, pids: seq<Pid>, p: Pid) returns (i: nat)
    requires v.Valid() && Calls(v, f, pids) && Count(f, p) > 0
    ensures p in v.procs && Up(v.procs, p, i).Some? && Up(v.procs, p, i).value in pids
    decreases f
  {
    if p == f.pid {
      i := 0;
    } else if Count(f.kids, p) > 0 {
      i := ListedUp(v, f.kids, KidsOf(v, f.pid), p);
      UpStep(v.procs, p, i);
      i := i + 1;
      assert f.pid in pids;
    } else {
      i := ListedUp(v, f.rest, pids[1..], p);
    }
  }

  lemma {:induction false} KidListed(v: View, f: Forest, pids: seq<Pid>, p: Pid)
    requires v.Valid() && Calls(v, f, pids) && p in pids
    ensures Count(f, p) > 0
    decreases f
  {
    if p != f.pid {
      KidListed(v, f.rest, pids[1..], p);
    }
  }

  /** A finite call for `p` never calls `p` again. */
  lemma NoReturn(v: View, kids: Forest, p: Pid, q: Pid)
    requires v.Valid() && p in v.procs && Calls(v, kids, KidsOf(v, p)) && (q == p || Count(kids, q) > 0)
    ensures p !in KidsOf(v, q)
  {
    if p in KidsOf(v, q) {
      var below := kids;
      if q != p {
        FindCalls(v, kids, KidsOf(v, p), q);
        below := Find(kids, q);
      }
      KidListed(v, below, KidsOf(v, q), p);
      FindCalls(v, below, KidsOf(v, q), p);
      CallsUnique(v, Find(below, p), kids, KidsOf(v, p));
      assert false;
    }
  }

  lemma {:induction false} SameKids(procs: Table, order: seq<Pid>, x: Pid, y: Pid, q: Pid)
    requires forall p :: p in order ==> p in procs
    requires x in procs ==> procs[x].ppid != q
    requires y in procs ==> procs[y].ppid != q
    ensures Kids(procs, order, x, q) == Kids(procs, order, y, q)
  {
    if order != [] {
      var n := |order| - 1;
      var last: Pid := order[n];
      assert order == order[..n] + [last] && last in order;
      SameKids(procs, order[..n], x, y, q);
    }
  }

  lemma {:induction false} SameCalls(v: View, w: View, f: Forest, pids: seq<Pid>)
    requires v.Valid() && w.Valid() && v.procs == w.procs && Calls(v, f, pids)
    requires forall q :: Count(f, q) > 0 ==> KidsOf(v, q) == KidsOf(w, q)
    ensures Calls(w, f, pids)
    decreases f
  {
    if f.Cons? {
      assert Count(f, f.pid) > 0;
      assert forall q :: Count(f.kids, q) > 0 ==> Count(f, q) > 0;
      assert forall q :: Count(f.rest, q) > 0 ==> Count(f, q) > 0;
      SameCalls(v, w, f.kids, KidsOf(v, f.pid));
      SameCalls(v, w, f.rest, pids[1..]);
    }
  }

  /** If the excluded pid does not descend from `p`, excluding `p` instead leaves p's call unchanged. */
  lemma SubtreeCalls(v: View, kids: Forest, p: Pid)
    requires v.Valid() && p in v.procs && Calls(v, kids, KidsOf(v, p))
    requires p == v.excluded || !Descends(v.procs, v.excluded, p)
    ensures var w := v.(excluded := p); KidsOf(v, p) == KidsOf(w, p) && Calls(w, kids, KidsOf(w, p))
  {
    var w := v.(excluded := p);
    if p != v.excluded {
      forall q | q == p || Count(kids, q) > 0 ensures KidsOf(v, q) == KidsOf(w, q) {
        NoReturn(v, kids, p, q);
        assert v.procs[p].ppid != q;
        var i := 0;
        if q != p {
          i := ListedUp(v, kids, KidsOf(v, p), q);
          UpStep(v.procs, q, i);
          i := i + 1;
        }
        assert Up(v.procs, q, i) == Some(p);
        assert Up(v.procs, v.excluded, i + 1) != Some(p);
        SameKids(v.procs, v.order, v.excluded, p, q);
      }
      SameCalls(v, w, kids, KidsOf(v, p));
    }
  }

  /** The excluded pid is listed at the top level or not at all. */
  lemma {:induction false} ExcludedOnTop(v: View, f: Forest, pids: seq<Pid>, d: int, n: Node)
    requires v.Valid() && Calls(v, f, pids) && n in Flat(v.procs, f, d) && n.pid == v.excluded
    ensures n.depth == d
    decreases f
  {
    if n in Flat(v.procs, f.kids, d + 1) {
      ExcludedNotKid(v, f.kids, KidsOf(v, f.pid), d + 1, n);
      assert false;
    } else if n in Flat(v.procs, f.rest, d) {
      ExcludedOnTop(v, f.rest, pids[1..], d, n);
    }
  }

  lemma {:induction false} ExcludedNotKid(v: View, f: Forest, pids: seq<Pid>, d: int, n: Node)
    requires v.Valid() && Calls(v, f, pids) && v.excluded !in pids && n in Flat(v.procs, f, d)
    ensures n.pid != v.excluded
    decreases f
  {
    assert f.pid in pids;
    if n in Flat(v.procs, f.kids, d + 1) {
      ExcludedNotKid(v, f.kids, KidsOf(v, f.pid), d + 1, n);
    } else if n in Flat(v.procs, f.rest, d) {
      ExcludedNotKid(v, f.rest, pids[1..], d, n);
    }
  }

  lemma {:induction false} TimesWitness(nodes: seq<Node>, p: Pid) returns (i: nat)
    requires Times(nodes, p) > 0
    ensures i < |nodes| && nodes[i].pid == p
  {
    if nodes[0].pid == p {
      i := 0;
    } else {
      i := TimesWitness(nodes[1..], p);
      i := i + 1;
    }
  }

  ghost predicate IsBlock(block: seq<Node>, nodes: seq<Node>, pre: seq<Node>, e: int, post: seq<Node>) {
    nodes == pre + Shift(block, e) + post
  }

  /** The call tree of the subtree listing is the call for `p` in the larger listing. */
  lemma SubtreeTree(v: View, f: Forest, pids: seq<Pid>, p: Pid, g: Forest)
    requires v.Valid() && Calls(v, f, pids) && Count(f, p) > 0
    requires p == v.excluded || !Descends(v.procs, v.excluded, p)
    requires Calls(v.(excluded := p), g, [p])
    ensures g == Cons(p, Find(f, p), Empty)
  {
    var w := v.(excluded := p);
    FindCalls(v, f, pids, p);
    SubtreeCalls(v, Find(f, p), p);
    OneCall(w, p, Find(f, p));
    CallsUnique(w, g, Cons(p, Find(f, p), Empty), [p]);
  }

  lemma CallIsBlock(procs: Table, f: Forest, p: Pid, g: Forest)
    requires Count(f, p) > 0 && g == Cons(p, Find(f, p), Empty)
    ensures exists pre, e, post :: IsBlock(Flat(procs, g, 0), Flat(procs, f, 0), pre, e, post)
  {
    var e := FindDepth(f, 0, p);
    var pre, post := FindBlock(procs, f, 0, p);
    ShiftFlat(procs, g, 0, e);
    assert IsBlock(Flat(procs, g, 0), Flat(procs, f, 0), pre, e, post);
  }

  lemma BlockIfOutside(procs: Table, order1: seq<Pid>, order2: seq<Pid>, rootPID: Pid, f: Forest, p: Pid, g: Forest)
    requires Enumerates(order1, procs.Keys) && Enumerates(order2, procs.Keys) && p != 0
    requires Flattens(procs, order1, order2, rootPID, f) && Count(f, p) > 0
    requires Flattens(procs, order1, order2, p, g)
    requires p == rootPID || !Descends(procs, rootPID, p)
    ensures exists pre, e, post :: IsBlock(Flat(procs, g, 0), Flat(procs, f, 0), pre, e, post)
  {
    FindCalls(View(procs, order1, rootPID), f, Walked(procs, order2, rootPID), p);
    SubtreeTree(View(procs, order1, rootPID), f, Walked(procs, order2, rootPID), p, g);
    CallIsBlock(procs, f, p, g);
  }

  /** Where a block would put a row of the subtree listing. */
  lemma BlockRow(block: seq<Node>, nodes: seq<Node>, pre: seq<Node>, e: int, post: seq<Node>, i: nat)
    requires IsBlock(block, nodes, pre, e, post) && i < |block|
    ensures |pre| + i < |nodes| && nodes[|pre| + i] == block[i].(depth := block[i].depth + e)
  {
    assert nodes[|pre| + i] == Shift(block, e)[i];
  }

  lemma NoBlockIfInside(procs: Table, order1: seq<Pid>, order2: seq<Pid>, rootPID: Pid, f: Forest, p: Pid, g: Forest,
                        pre: seq<Node>, e: int, post: seq<Node>)
    requires Enumerates(order1, procs.Keys) && Enumerates(order2, procs.Keys) && p != 0 && p in procs
    requires Flattens(procs, order1, order2, rootPID, f) && Flattens(procs, order1, order2, p, g)
    requires p != rootPID && Descends(procs, rootPID, p)
    ensures !IsBlock(Flat(procs, g, 0), Flat(procs, f, 0), pre, e, post)
  {
    var sub, all := Flat(procs, g, 0), Flat(procs, f, 0);
    SubtreeListing(procs, order1, order2, p, g, rootPID);
    var i := TimesWitness(sub, rootPID);
    FlatDeep(procs, f, 0);
    FlatDeep(procs, g, 0);
    SubtreeEntries(procs, order1, order2, p, g, sub[i]);
    assert sub[i].depth > 0;
    if IsBlock(sub, all, pre, e, post) {
      BlockRow(sub, all, pre, e, post, 0);
      BlockRow(sub, all, pre, e, post, i);
      ExcludedOnTop(View(procs, order1, rootPID), f, Walked(procs, order2, rootPID), 0, all[|pre| + i]);
    }
  }

  /**
   The listing of a listed process's subtree is a contiguous block of the larger listing, moved to the
   block's depth, exactly when the larger listing's start is that process or does not descend from it.
   */
  lemma SubtreeIsBlockIff(procs: Table, order1: seq<Pid>, order2: seq<Pid>, rootPID: Pid, f: Forest, p: Pid, g: Forest)
    requires Enumerates(order1, procs.Keys) && Enumerates(order2, procs.Keys) && p != 0
    requires Flattens(procs, order1, order2, rootPID, f) && Times(Flat(procs, f, 0), p) > 0
    requires Flattens(procs, order1, order2, p, g)
    ensures (exists pre, e, post :: IsBlock(Flat(procs, g, 0), Flat(procs, f, 0), pre, e, post))
            <==> p == rootPID || !Descends(procs, rootPID, p)
  {
    TimesFlat(procs, f, 0, p);
    if p == rootPID || !Descends(procs, rootPID, p) {
      BlockIfOutside(procs, order1, order2, rootPID, f, p, g);
    } else {
      var i := ListedUp(View(procs, order1, rootPID), f, Walked(procs, order2, rootPID), p);
      forall pre, e, post ensures !IsBlock(Flat(procs, g, 0), Flat(procs, f, 0), pre, e, post) {
        NoBlockIfInside(procs, order1, order2, rootPID, f, p, g, pre, e, post);
      }
    }
  }

  // ---------------------------------------------------------------- map order does not matter

  lemma {:induction false} DistinctOnce(s: seq<Pid>, p: Pid)
    requires Distinct(s)
    ensures multiset(s)[p] == if p in s then 1 else 0
  {
    if s != [] {
      assert s == [s[0]] + s[1..];
      DistinctOnce(s[1..], p);
    }
  }

  lemma SameElements(a: seq<Pid>, b: seq<Pid>)
    requires Distinct(a) && Distinct(b) && forall p :: p in a <==> p in b
    ensures multiset(a) == multiset(b)
  {
    forall p: Pid ensures multiset(a)[p] == multiset(b)[p] {
      DistinctOnce(a, p);
      DistinctOnce(b, p);
    }
  }

  /** The entries of a listing, regardless of order. */
  function Bag(procs: Table, f: Forest, d: int): multiset<Node> {
    match f
    case Empty => multiset{}
    case Cons(p, kids, rest) =>
      multiset{Entry(procs, p, d, kids == Empty)} + Bag(procs, kids, d + 1) + Bag(procs, rest, d)
  }

  lemma {:induction false} BagIsFlat(procs: Table, f: Forest, d: int)
    ensures Bag(procs, f, d) == multiset(Flat(procs, f, d))
  {
    if f.Cons? {
      BagIsFlat(procs, f.kids, d + 1);
      BagIsFlat(procs, f.rest, d);
    }
  }

  function Width(g: Forest): nat {
    if g == Empty then 0 else 1 + Width(g.rest)
  }

  /** The j-th call, the calls it makes, and the forest without it. */
  function PidAt(g: Forest, j: nat): Pid
    requires j < Width(g)
  {
    if j == 0 then g.pid else PidAt(g.rest, j - 1)
  }

  function KidsAt(g: Forest, j: nat): Forest {
    if g == Empty then Empty else if j == 0 then g.kids else KidsAt(g.rest, j - 1)
  }

  function Without(g: Forest, j: nat): Forest {
    if g == Empty then Empty else if j == 0 then g.rest else Cons(g.pid, g.kids, Without(g.rest, j - 1))
  }

  lemma {:induction false} WithoutCalls(w: View, g: Forest, b: seq<Pid>, j: nat)
    requires w.Valid() && Calls(w, g, b) && j < |b|
    ensures j < Width(g) && PidAt(g, j) == b[j] && b[j] in w.procs
    ensures Calls(w, KidsAt(g, j), KidsOf(w, b[j]))
    ensures Calls(w, Without(g, j), b[..j] + b[j + 1..])
  {
    if j == 0 {
      assert b[..0] + b[1..] == b[1..];
    } else {
      WithoutCalls(w, g.rest, b[1..], j - 1);
      var less, rest := b[..j] + b[j + 1..], b[1..][..j - 1] + b[1..][j..];
      assert less[0] == b[0] && less[1..] == rest;
    }
  }

  lemma BagMove(e: multiset<Node>, k: multiset<Node>, e2: multiset<Node>, k2: multiset<Node>, r: multiset<Node>)
    ensures e + k + (e2 + k2 + r) == e2 + k2 + (e + k + r)
  {
  }

  lemma {:induction false} WithoutBag(procs: Table, g: Forest, j: nat, d: int)
    requires j < Width(g)
    ensures Bag(procs, g, d) == multiset{Entry(procs, PidAt(g, j), d, KidsAt(g, j) == Empty)}
                                + Bag(procs, KidsAt(g, j), d + 1) + Bag(procs, Without(g, j), d)
  {
    if j > 0 {
      WithoutBag(procs, g.rest, j - 1, d);
      BagMove(multiset{Entry(procs, g.pid, d, g.kids == Empty)}, Bag(procs, g.kids, d + 1),
              multiset{Entry(procs, PidAt(g, j), d, KidsAt(g, j) == Empty)}, Bag(procs, KidsAt(g, j), d + 1),
              Bag(procs, Without(g.rest, j - 1), d));
    }
  }

  lemma WithoutOne(a: seq<Pid>, b: seq<Pid>, j: nat)
    requires a != [] && j < |b| && b[j] == a[0] && multiset(a) == multiset(b)
    ensures multiset(a[1..]) == multiset(b[..j] + b[j + 1..])
  {
    assert a == [a[0]] + a[1..];
    assert b == b[..j] + [b[j]] + b[j + 1..];
    assert multiset(a[1..]) == multiset(a) - multiset{a[0]};
    assert multiset(b[..j] + b[j + 1..]) == multiset(b) - multiset{b[j]};
  }

  lemma KidsPermuted(v: View, w: View, p: Pid)
    requires v.Valid() && w.Valid() && v.procs == w.procs && v.excluded == w.excluded
    ensures multiset(KidsOf(v, p)) == multiset(KidsOf(w, p))
    ensures KidsOf(v, p) == [] <==> KidsOf(w, p) == []
  {
    KidsDistinct(v.procs, v.order, v.excluded, p);
    KidsDistinct(w.procs, w.order, w.excluded, p);
    SameElements(KidsOf(v, p), KidsOf(w, p));
    assert |multiset(KidsOf(v, p))| == |KidsOf(v, p)| && |multiset(KidsOf(w, p))| == |KidsOf(w, p)|;
  }

  lemma {:induction false} PermutedWalk(v: View, w: View, f: Forest, g: Forest, a: seq<Pid>, b: seq<Pid>, d: int)
    requires v.Valid() && w.Valid() && v.procs == w.procs && v.excluded == w.excluded
    requires Calls(v, f, a) && Calls(w, g, b) && multiset(a) == multiset(b)
    ensures Bag(v.procs, f, d) == Bag(w.procs, g, d)
    decreases f
  {
    match f
    case Empty => assert |multiset(b)| == |b|;
    case Cons(p, kids, rest) =>
      assert p in multiset(a);
      var j :| 0 <= j < |b| && b[j] == p;
      WithoutCalls(w, g, b, j);
      WithoutBag(w.procs, g, j, d);
      WithoutOne(a, b, j);
      PermutedWalk(v, w, rest, Without(g, j), a[1..], b[..j] + b[j + 1..], d);
      KidsPermuted(v, w, p);
      PermutedWalk(v, w, kids, KidsAt(g, j), KidsOf(v, p), KidsOf(w, p), d + 1);
  }

  /** Any two map iteration orders give the same entries, each the same number of times. */
  lemma OrderIndependent(procs: Table, order1: seq<Pid>, order2: seq<Pid>, order3: seq<Pid>, order4: seq<Pid>,
                         rootPID: Pid, f: Forest, g: Forest)
    requires Enumerates(order1, procs.Keys) && Enumerates(order2, procs.Keys)
    requires Enumerates(order3, procs.Keys) && Enumerates(order4, procs.Keys)
    requires Flattens(procs, order1, order2, rootPID, f) && Flattens(procs, order3, order4, rootPID, g)
    ensures multiset(Flat(procs, f, 0)) == multiset(Flat(procs, g, 0))
  {
    if rootPID == 0 {
      RootsDistinct(procs, order2);
      RootsDistinct(procs, order4);
      SameElements(Roots(procs, order2), Roots(procs, order4));
    }
    PermutedWalk(View(procs, order1, rootPID), View(procs, order3, rootPID), f, g,
                 Walked(procs, order2, rootPID), Walked(procs, order4, rootPID), 0);
    BagIsFlat(procs, f, 0);
    BagIsFlat(procs, g, 0);
  }
}
