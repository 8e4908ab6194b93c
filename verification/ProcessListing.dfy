/** Which processes a listing holds, how often, and at which depth (tools/process.go:405-456). */
module ProcessListing {
  import opened MapOrder
  import opened Wrappers
  import opened ProcessTree

  // ---------------------------------------------------------------- chains

  /** Along the chain from `p` to `r`, the ancestor `i` links up is `i` levels closer to `r`. */
  lemma {:induction false} LevelAlong(v: View, r: Pid, p: Pid, d: nat, i: nat)
    requires AtLevel(v, r, p, d) && i <= d
    ensures Up(v.procs, p, i).Some? && AtLevel(v, r, Up(v.procs, p, i).value, d - i)
    decreases i
  {
    if i > 0 {
      LevelAlong(v, r, v.procs[p].ppid, d - 1, i - 1);
    }
  }

  lemma {:induction false} KidsDistinct(procs: Table, order: seq<Pid>, excluded: Pid, parent: Pid)
    requires forall p :: p in order ==> p in procs
    requires Distinct(order)
    ensures Distinct(Kids(procs, order, excluded, parent))
  {
    if order != [] {
      var n := |order| - 1;
      var last: Pid := order[n];
      assert order == order[..n] + [last] && last in order;
      KidsDistinct(procs, order[..n], excluded, parent);
      assert last !in order[..n];
    }
  }

  lemma {:induction false} RootsDistinct(procs: Table, order: seq<Pid>)
    requires forall p :: p in order ==> p in procs
    requires Distinct(order)
    ensures Distinct(Roots(procs, order))
  {
    if order != [] {
      var n := |order| - 1;
      var last: Pid := order[n];
      assert order == order[..n] + [last] && last in order;
      RootsDistinct(procs, order[..n]);
      assert last !in order[..n];
    }
  }

  // ---------------------------------------------------------------- occurrences

  /** The walk of one level: siblings at level `e` below `r`. */
  ghost predicate Siblings(v: View, r: Pid, f: Forest, pids: seq<Pid>, e: nat) {
    && v.Valid() && Start(v, r)
    && (forall a :: a in pids ==> Visits(v, r, a, e))
    && Calls(v, f, pids)
  }

  lemma SiblingsStep(v: View, r: Pid, f: Forest, pids: seq<Pid>, e: nat)
    requires Siblings(v, r, f, pids, e) && f.Cons?
    ensures f.pid in pids && f.pid == pids[0] && f.pid in v.procs
    ensures Siblings(v, r, f.kids, KidsOf(v, f.pid), e + 1)
    ensures Siblings(v, r, f.rest, pids[1..], e)
  {
    var a: Pid := pids[0];
    assert a in pids;
    ChildrenLevel(v, r, a, e);
    assert forall b :: b in pids[1..] ==> b in pids;
  }

  /** Everything listed hangs below one of the siblings, along a chain of parent links. */
  lemma {:induction false} ListedHangs(v: View, r: Pid, f: Forest, pids: seq<Pid>, e: nat, p: Pid) returns (i: nat)
    requires Siblings(v, r, f, pids, e) && Count(f, p) > 0
    ensures Visits(v, r, p, e + i) && Up(v.procs, p, i).Some? && Up(v.procs, p, i).value in pids
    decreases f
  {
    SiblingsStep(v, r, f, pids, e);
    if p == f.pid {
      i := 0;
    } else if Count(f.kids, p) > 0 {
      i := ListedHangs(v, r, f.kids, KidsOf(v, f.pid), e + 1, p);
      UpStep(v.procs, p, i);
      i := i + 1;
    } else {
      i := ListedHangs(v, r, f.rest, pids[1..], e, p);
    }
  }

  /** Everything hanging below one of the siblings is listed. */
  lemma {:induction false} HangingListed(v: View, r: Pid, f: Forest, pids: seq<Pid>, e: nat, p: Pid, i: nat)
    requires Siblings(v, r, f, pids, e) && AtLevel(v, r, p, e + i)
    requires Up(v.procs, p, i).Some? && Up(v.procs, p, i).value in pids
    ensures Count(f, p) > 0
    decreases f
  {
    SiblingsStep(v, r, f, pids, e);
    if Up(v.procs, p, i).value != f.pid {
      HangingListed(v, r, f.rest, pids[1..], e, p, i);
    } else if i > 0 {
      LevelAlong(v, r, p, e + i, i - 1);
      UpStep(v.procs, p, i - 1);
      var c := Up(v.procs, p, i - 1).value;
      assert c in KidsOf(v, f.pid);
      HangingListed(v, r, f.kids, KidsOf(v, f.pid), e + 1, p, i - 1);
    }
  }

  /** A process below one sibling is neither that sibling nor below another. */
  lemma KidsApart(v: View, r: Pid, f: Forest, pids: seq<Pid>, e: nat, p: Pid)
    requires Siblings(v, r, f, pids, e) && f.Cons? && Distinct(pids) && Count(f.kids, p) > 0
    ensures p != f.pid && Count(f.rest, p) == 0
  {
    SiblingsStep(v, r, f, pids, e);
    var i := ListedHangs(v, r, f.kids, KidsOf(v, f.pid), e + 1, p);
    UpStep(v.procs, p, i);
    if p == f.pid {
      LevelUnique(v, r, p, e + 1 + i, e);
    }
    if Count(f.rest, p) > 0 {
      var j := ListedHangs(v, r, f.rest, pids[1..], e, p);
      LevelUnique(v, r, p, e + 1 + i, e + j);
    }
  }

  /** A sibling is not below another sibling. */
  lemma SiblingApart(v: View, r: Pid, f: Forest, pids: seq<Pid>, e: nat)
    requires Siblings(v, r, f, pids, e) && f.Cons? && Distinct(pids)
    ensures Count(f.rest, f.pid) == 0
  {
    SiblingsStep(v, r, f, pids, e);
    if Count(f.rest, f.pid) > 0 {
      var j := ListedHangs(v, r, f.rest, pids[1..], e, f.pid);
      LevelUnique(v, r, f.pid, e + j, e);
    }
  }

  lemma {:induction false} ListedOnce(v: View, r: Pid, f: Forest, pids: seq<Pid>, e: nat, p: Pid)
    requires Siblings(v, r, f, pids, e) && Distinct(pids)
    ensures Count(f, p) <= 1
    decreases f
  {
    if f.Cons? {
      SiblingsStep(v, r, f, pids, e);
      KidsDistinct(v.procs, v.order, v.excluded, f.pid);
      ListedOnce(v, r, f.kids, KidsOf(v, f.pid), e + 1, p);
      ListedOnce(v, r, f.rest, pids[1..], e, p);
      SiblingApart(v, r, f, pids, e);
      if Count(f.kids, p) > 0 {
        KidsApart(v, r, f, pids, e, p);
      }
    }
  }

  /** One walk lists exactly the processes below its start, each once. */
  lemma WalkCount(v: View, r: Pid, f: Forest, p: Pid)
    requires v.Valid() && Start(v, r) && Calls(v, f, [r])
    ensures Count(f, p) == if Below(v, r, p) then 1 else 0
  {
    assert Siblings(v, r, f, [r], 0);
    ListedOnce(v, r, f, [r], 0, p);
    if Below(v, r, p) {
      var d: nat :| AtLevel(v, r, p, d);
      LevelUp(v, r, p, d);
      HangingListed(v, r, f, [r], 0, p, d);
    } else if Count(f, p) > 0 {
      var i := ListedHangs(v, r, f, [r], 0, p);
      assert Below(v, r, p);
    }
  }

  /** If the excluded pid is the start itself, "below" is "descends from". */
  lemma {:induction false} BelowIfDescends(v: View, r: Pid, p: Pid, k: nat)
    requires r == v.excluded && Up(v.procs, p, k) == Some(r)
    ensures Below(v, r, p)
    decreases k
  {
    if p == r {
      assert AtLevel(v, r, p, 0);
    } else {
      BelowIfDescends(v, r, v.procs[p].ppid, k - 1);
      var d: nat :| AtLevel(v, r, v.procs[p].ppid, d);
      assert AtLevel(v, r, p, d + 1);
    }
  }

  lemma BelowIffDescends(v: View, r: Pid, p: Pid)
    requires r == v.excluded
    ensures Below(v, r, p) <==> Descends(v.procs, p, r)
  {
    if Below(v, r, p) {
      var d: nat :| AtLevel(v, r, p, d);
      LevelUp(v, r, p, d);
    }
    if Descends(v.procs, p, r) {
      var k: nat :| Up(v.procs, p, k) == Some(r);
      BelowIfDescends(v, r, p, k);
    }
  }

  // ---------------------------------------------------------------- entries

  /** How often `p` occurs in the PID column. */
  function Times(nodes: seq<Node>, p: Pid): nat {
    if nodes == [] then 0 else (if nodes[0].pid == p then 1 else 0) + Times(nodes[1..], p)
  }

  lemma {:induction false} TimesConcat(a: seq<Node>, b: seq<Node>, p: Pid)
    ensures Times(a + b, p) == Times(a, p) + Times(b, p)
  {
    if a == [] {
      assert a + b == b;
    } else {
      assert (a + b)[1..] == a[1..] + b;
      TimesConcat(a[1..], b, p);
    }
  }

  lemma {:induction false} TimesFlat(procs: Table, f: Forest, d: int, p: Pid)
    ensures Times(Flat(procs, f, d), p) == Count(f, p)
  {
    match f
    case Empty =>
    case Cons(q, kids, rest) =>
      var head := [Entry(procs, q, d, kids == Empty)];
      TimesFlat(procs, kids, d + 1, p);
      TimesFlat(procs, rest, d, p);
      TimesConcat(head, Flat(procs, kids, d + 1), p);
      TimesConcat(head + Flat(procs, kids, d + 1), Flat(procs, rest, d), p);
  }

  /**
   A subtree listing holds the requested process and its descendants, each exactly once, whatever
   the iteration order and even when parent links are cyclic; an unknown pid gives an empty listing.
   */
  lemma SubtreeListing(procs: Table, order1: seq<Pid>, order2: seq<Pid>, rootPID: Pid, f: Forest, p: Pid)
    requires Enumerates(order1, procs.Keys) && Enumerates(order2, procs.Keys) && rootPID != 0
    requires Flattens(procs, order1, order2, rootPID, f)
    ensures Times(Flat(procs, f, 0), p) == if rootPID in procs && Descends(procs, p, rootPID) then 1 else 0
  {
    TimesFlat(procs, f, 0, p);
    var v := View(procs, order1, rootPID);
    if rootPID in procs {
      WalkCount(v, rootPID, f, p);
      BelowIffDescends(v, rootPID, p);
    }
  }

  // ---------------------------------------------------------------- the full listing

  /** The walks whose listing holds `p`. */
  ghost function Over(v: View, roots: seq<Pid>, p: Pid): set<Pid> {
    set r | r in roots && Below(v, r, p)
  }

  lemma {:induction false} CountRoots(v: View, f: Forest, roots: seq<Pid>, p: Pid)
    requires v.Valid() && (forall r :: r in roots ==> Start(v, r)) && Calls(v, f, roots)
    requires Distinct(roots)
    ensures Count(f, p) == |Over(v, roots, p)|
    decreases f
  {
    if f.Cons? {
      var r: Pid := roots[0];
      assert r in roots;
      OneCall(v, r, f.kids);
      WalkCount(v, r, Cons(r, f.kids, Empty), p);
      CountRoots(v, f.rest, roots[1..], p);
      assert r !in Over(v, roots[1..], p);
      if Below(v, r, p) {
        assert Over(v, roots, p) == {r} + Over(v, roots[1..], p);
      } else {
        assert Over(v, roots, p) == Over(v, roots[1..], p);
      }
    }
  }

  /** From a chain that reaches ppid 0, the root it hangs below. */
  lemma {:induction false} TopOf(v: View, p: Pid, k: nat) returns (r: Pid)
    requires v.excluded == 0 && p != 0 && k > 0 && Up(v.procs, p, k) == Some(0)
    ensures r != 0 && r in v.procs && v.procs[r].ppid == 0 && Below(v, r, p)
    decreases k
  {
    var q := v.procs[p].ppid;
    if q == 0 {
      r := p;
      assert AtLevel(v, r, p, 0);
    } else {
      r := TopOf(v, q, k - 1);
      var d: nat :| AtLevel(v, r, q, d);
      assert AtLevel(v, r, p, d + 1);
    }
  }

  /** Two different roots cannot both be above `p`, unless one of them is pid 0. */
  lemma {:induction false} TopUnique(v: View, r: Pid, s: Pid, p: Pid, d: nat, e: nat)
    requires v.excluded == 0 && r != 0 && s != 0
    requires r in v.procs && v.procs[r].ppid == 0 && s in v.procs && v.procs[s].ppid == 0
    requires AtLevel(v, r, p, d) && AtLevel(v, s, p, e)
    ensures r == s
    decreases d
  {
    if d > 0 && e > 0 {
      TopUnique(v, r, s, v.procs[p].ppid, d - 1, e - 1);
    }
  }

  /** Whether pid 0 is itself a root of the full listing. */
  ghost predicate ZeroIsRoot(procs: Table) {
    0 in procs && procs[0].ppid == 0
  }

  /** How often the full listing shows `p`. */
  ghost function FullTimes(procs: Table, p: Pid): nat {
    if p == 0 then (if ZeroIsRoot(procs) then 1 else 0)
    else if !ReachesZero(procs, p) then 0
    else if ZeroIsRoot(procs) then 2
    else 1
  }

  lemma OverZero(v: View, roots: seq<Pid>, p: Pid)
    requires v.Valid() && v.excluded == 0 && !HasSelfParent(v.procs)
    requires forall r :: r in roots <==> r in v.procs && (v.procs[r].ppid == 0 || v.procs[r].ppid == r)
    ensures 0 in Over(v, roots, p) <==> ZeroIsRoot(v.procs) && (p == 0 || ReachesZero(v.procs, p))
  {
    BelowIffDescends(v, 0, p);
    if p == 0 {
      assert Up(v.procs, p, 0) == Some(0);
    } else if Descends(v.procs, p, 0) {
      var k: nat :| Up(v.procs, p, k) == Some(0);
      assert k > 0;
    }
  }

  lemma OverNonzero(v: View, roots: seq<Pid>, p: Pid)
    requires v.Valid() && v.excluded == 0 && !HasSelfParent(v.procs)
    requires forall r :: r in roots <==> r in v.procs && (v.procs[r].ppid == 0 || v.procs[r].ppid == r)
    ensures |Over(v, roots, p) - {0}| == if p != 0 && ReachesZero(v.procs, p) then 1 else 0
  {
    var s := Over(v, roots, p) - {0};
    if p != 0 && ReachesZero(v.procs, p) {
      var k: nat :| k > 0 && Up(v.procs, p, k) == Some(0);
      var top := TopOf(v, p, k);
      forall r | r in s ensures r == top {
        var d: nat :| AtLevel(v, r, p, d);
        var e: nat :| AtLevel(v, top, p, e);
        TopUnique(v, r, top, p, d, e);
      }
      assert s == {top};
    } else {
      forall r | r in s ensures false {
        var d: nat :| AtLevel(v, r, p, d);
        LevelUp(v, r, p, d);
        UpStep(v.procs, p, d);
      }
      assert s == {};
    }
  }

  lemma OverSize(v: View, roots: seq<Pid>, p: Pid)
    requires v.Valid() && v.excluded == 0 && !HasSelfParent(v.procs)
    requires forall r :: r in roots <==> r in v.procs && (v.procs[r].ppid == 0 || v.procs[r].ppid == r)
    ensures |Over(v, roots, p)| == FullTimes(v.procs, p)
  {
    OverZero(v, roots, p);
    OverNonzero(v, roots, p);
    var all := Over(v, roots, p);
    if 0 in all {
      assert all == (all - {0}) + {0};
    } else {
      assert all == all - {0};
    }
  }

  /** The full listing, for every table on which it ends: the exact number of times each pid occurs. */
  lemma FullListing(procs: Table, order1: seq<Pid>, order2: seq<Pid>, f: Forest, p: Pid)
    requires Enumerates(order1, procs.Keys) && Enumerates(order2, procs.Keys) && !HasSelfParent(procs)
    requires Flattens(procs, order1, order2, 0, f)
    ensures Times(Flat(procs, f, 0), p) == FullTimes(procs, p)
  {
    TimesFlat(procs, f, 0, p);
    var v, roots := View(procs, order1, 0), Roots(procs, order2);
    WalkedStarts(procs, order1, order2, 0);
    RootsDistinct(procs, order2);
    CountRoots(v, f, roots, p);
    OverSize(v, roots, p);
  }

  ghost predicate ZeroHasChild(procs: Table) {
    exists q :: q in procs && q != 0 && procs[q].ppid == 0
  }

  lemma FullTimesAtMostOnce(procs: Table)
    ensures (forall p :: FullTimes(procs, p) <= 1) <==> !ZeroIsRoot(procs) || !ZeroHasChild(procs)
  {
    if ZeroHasChild(procs) {
      var q :| q in procs && q != 0 && procs[q].ppid == 0;
      assert Up(procs, 0, 0) == Some(0) && Up(procs, q, 1) == Some(0);
      assert FullTimes(procs, q) == if ZeroIsRoot(procs) then 2 else 1;
    } else {
      forall p ensures FullTimes(procs, p) <= 1 {
        if p != 0 && ReachesZero(procs, p) {
          var k: nat :| k > 0 && Up(procs, p, k) == Some(0);
          var top := TopOf(View(procs, [], 0), p, k);
        }
      }
    }
  }

  /** A listing never repeats a process, except a full listing when pid 0 is its own parent and has a child. */
  lemma NoDuplicatesIff(procs: Table, order1: seq<Pid>, order2: seq<Pid>, rootPID: Pid, f: Forest)
    requires Enumerates(order1, procs.Keys) && Enumerates(order2, procs.Keys)
    requires Flattens(procs, order1, order2, rootPID, f)
    ensures (forall p :: Times(Flat(procs, f, 0), p) <= 1)
            <==> rootPID != 0 || !ZeroIsRoot(procs) || !ZeroHasChild(procs)
  {
    if rootPID != 0 {
      forall p ensures Times(Flat(procs, f, 0), p) <= 1 {
        SubtreeListing(procs, order1, order2, rootPID, f, p);
      }
    } else {
      FlattenEndsIff(procs, order1, order2, rootPID);
      FullTimesAtMostOnce(procs);
      if p :| FullTimes(procs, p) > 1 {
        FullListing(procs, order1, order2, f, p);
      } else {
        forall p ensures Times(Flat(procs, f, 0), p) <= 1 {
          FullListing(procs, order1, order2, f, p);
        }
      }
    }
  }

  // ---------------------------------------------------------------- depth and fields

  lemma {:induction false} EntriesOf(v: View, r: Pid, f: Forest, pids: seq<Pid>, e: nat, n: Node)
    requires Siblings(v, r, f, pids, e) && n in Flat(v.procs, f, e)
    ensures n.depth >= 0 && Visits(v, r, n.pid, n.depth)
    ensures n == Entry(v.procs, n.pid, n.depth, KidsOf(v, n.pid) == [])
    decreases f
  {
    SiblingsStep(v, r, f, pids, e);
    if n in Flat(v.procs, f.kids, e + 1) {
      EntriesOf(v, r, f.kids, KidsOf(v, f.pid), e + 1, n);
    } else if n in Flat(v.procs, f.rest, e) {
      EntriesOf(v, r, f.rest, pids[1..], e, n);
    } else {
      assert n == Entry(v.procs, f.pid, e, f.kids == Empty);
    }
  }

  /**
   Every entry of a subtree listing carries the table's parent and name; its depth is the least
   number of parent links up to the requested process and stays below the table size; it is marked
   a leaf exactly when no process other than the requested one has it as parent.
   */
  lemma SubtreeEntries(procs: Table, order1: seq<Pid>, order2: seq<Pid>, rootPID: Pid, f: Forest, n: Node)
    requires Enumerates(order1, procs.Keys) && Enumerates(order2, procs.Keys) && rootPID != 0
    requires Flattens(procs, order1, order2, rootPID, f) && n in Flat(procs, f, 0)
    ensures n.pid in procs && n.ppid == procs[n.pid].ppid && n.name == procs[n.pid].name
    ensures 0 <= n.depth < |procs| && Up(procs, n.pid, n.depth) == Some(rootPID)
    ensures forall k: nat :: k < n.depth ==> Up(procs, n.pid, k) != Some(rootPID)
    ensures n.isLeaf <==> forall c :: c in procs && c != rootPID ==> procs[c].ppid != n.pid
  {
    var v := View(procs, order1, rootPID);
    assert Siblings(v, rootPID, f, [rootPID], 0);
    EntriesOf(v, rootPID, f, [rootPID], 0, n);
    LevelBound(v, rootPID, n.pid, n.depth);
    LevelUp(v, rootPID, n.pid, n.depth);
    forall k: nat | k < n.depth ensures Up(procs, n.pid, k) != Some(rootPID) {
      LevelAlong(v, rootPID, n.pid, n.depth, k);
    }
    LeafMeans(v, n.pid);
  }

  /** An entry of several walks in turn belongs to one of them. */
  lemma {:induction false} EntryOfWalk(v: View, f: Forest, roots: seq<Pid>, n: Node) returns (r: Pid)
    requires v.Valid() && (forall r :: r in roots ==> Start(v, r)) && Calls(v, f, roots) && n in Flat(v.procs, f, 0)
    ensures r in roots && n.depth >= 0 && Visits(v, r, n.pid, n.depth)
    ensures n == Entry(v.procs, n.pid, n.depth, KidsOf(v, n.pid) == [])
    decreases f
  {
    if n in Flat(v.procs, f.rest, 0) {
      r := EntryOfWalk(v, f.rest, roots[1..], n);
    } else {
      r := roots[0];
      assert r in roots;
      OneCall(v, r, f.kids);
      var one := Cons(r, f.kids, Empty);
      assert n in Flat(v.procs, one, 0);
      assert Siblings(v, r, one, [r], 0);
      EntriesOf(v, r, one, [r], 0, n);
    }
  }

  /**
   Every entry of a full listing carries the table's parent and name; its depth is the number of parent
   links up to the root it hangs below, fewer links reaching neither that root nor pid 0; it is marked a
   leaf exactly when no process other than pid 0 has it as parent.
   */
  lemma FullEntries(procs: Table, order1: seq<Pid>, order2: seq<Pid>, f: Forest, n: Node) returns (root: Pid)
    requires Enumerates(order1, procs.Keys) && Enumerates(order2, procs.Keys) && !HasSelfParent(procs)
    requires Flattens(procs, order1, order2, 0, f) && n in Flat(procs, f, 0)
    ensures n.pid in procs && n.ppid == procs[n.pid].ppid && n.name == procs[n.pid].name
    ensures root in procs && procs[root].ppid == 0
    ensures 0 <= n.depth < |procs| && Up(procs, n.pid, n.depth) == Some(root)
    ensures forall k: nat :: k < n.depth ==> Up(procs, n.pid, k) != Some(root) && Up(procs, n.pid, k) != Some(0)
    ensures n.isLeaf <==> forall c :: c in procs && c != 0 ==> procs[c].ppid != n.pid
  {
    var v := View(procs, order1, 0);
    WalkedStarts(procs, order1, order2, 0);
    root := EntryOfWalk(v, f, Roots(procs, order2), n);
    LevelBound(v, root, n.pid, n.depth);
    LevelUp(v, root, n.pid, n.depth);
    forall k: nat | k < n.depth ensures Up(procs, n.pid, k) != Some(root) && Up(procs, n.pid, k) != Some(0) {
      LevelAlong(v, root, n.pid, n.depth, k);
    }
    LeafMeans(v, n.pid);
  }

  lemma LeafMeans(v: View, p: Pid)
    requires v.Valid()
    ensures KidsOf(v, p) == [] <==> forall c :: c in v.procs && c != v.excluded ==> v.procs[c].ppid != p
  {
    if KidsOf(v, p) != [] {
      var c: Pid := KidsOf(v, p)[0];
      assert c in KidsOf(v, p);
    } else {
      forall c | c in v.procs && c != v.excluded ensures v.procs[c].ppid != p {
        assert c !in KidsOf(v, p);
      }
    }
  }
}
