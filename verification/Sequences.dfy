/** Concatenating what a function makes of each element of a sequence, and picking elements in order. */
module Sequences {

  /** Concatenates `f` over a sequence. */
  function FlatMap<A, B>(f: A -> seq<B>, s: seq<A>): seq<B> {
    if s == [] then [] else FlatMap(f, s[..|s| - 1]) + f(s[|s| - 1])
  }

  lemma {:induction false} FlatMapConcat<A, B>(f: A -> seq<B>, a: seq<A>, b: seq<A>)
    ensures FlatMap(f, a + b) == FlatMap(f, a) + FlatMap(f, b)
  {
    if b == [] {
      assert a + b == a;
    } else {
      assert (a + b)[..|a + b| - 1] == a + b[..|b| - 1];
      FlatMapConcat(f, a, b[..|b| - 1]);
    }
  }

  lemma FlatMapLast<A, B>(f: A -> seq<B>, s: seq<A>, x: A)
    ensures FlatMap(f, s + [x]) == FlatMap(f, s) + f(x)
  {
    assert (s + [x])[..|s|] == s;
  }

  lemma {:induction false} FlatMapPermuted<A, B>(f: A -> seq<B>, a: seq<A>, b: seq<A>)
    requires multiset(a) == multiset(b)
    ensures multiset(FlatMap(f, a)) == multiset(FlatMap(f, b))
  {
    if a == [] {
      assert |multiset(b)| == |b|;
    } else {
      var x := a[|a| - 1];
      assert a == a[..|a| - 1] + [x];
      assert x in multiset(b);
      var j :| 0 <= j < |b| && b[j] == x;
      var rest := b[..j] + b[j + 1..];
      assert b == b[..j] + [x] + b[j + 1..];
      assert multiset(rest) == multiset(b) - multiset{x};
      assert multiset(a[..|a| - 1]) == multiset(a) - multiset{x};
      FlatMapPermuted(f, a[..|a| - 1], rest);
      FlatMapConcat(f, b[..j], b[j + 1..]);
      FlatMapLast(f, b[..j], x);
      FlatMapConcat(f, b[..j] + [x], b[j + 1..]);
    }
  }

  /** Elementwise equal images concatenate to the same sequence. */
  lemma {:induction false} FlatMapSame<A, B, C>(f: A -> seq<C>, g: B -> seq<C>, a: seq<A>, b: seq<B>)
    requires |a| == |b| && forall i :: 0 <= i < |a| ==> f(a[i]) == g(b[i])
    ensures FlatMap(f, a) == FlatMap(g, b)
  {
    if a != [] {
      FlatMapSame(f, g, a[..|a| - 1], b[..|b| - 1]);
    }
  }

  // ---------------------------------------------------------------- picking

  /** `idx` lists positions below `n` in increasing order: which elements of a sequence are kept. */
  ghost predicate Increasing(idx: seq<nat>, n: nat) {
    && (forall k :: 0 <= k < |idx| ==> idx[k] < n)
    && forall j, k :: 0 <= j < k < |idx| ==> idx[j] < idx[k]
  }

  /** The next position is kept or not. */
  ghost function Grow(idx: seq<nat>, n: nat, keep: bool): (next: seq<nat>)
    requires Increasing(idx, n)
    ensures Increasing(next, n + 1) && forall i: nat :: i in next <==> i in idx || (keep && i == n)
  {
    if keep then idx + [n] else idx
  }

  /** `r` holds the images of the positions that have one, in order. */
  ghost predicate Images<A, B>(f: A -> seq<B>, s: seq<A>, r: seq<B>, idx: seq<nat>) {
    && Increasing(idx, |s|) && |idx| == |r|
    && (forall k :: 0 <= k < |idx| ==> f(s[idx[k]]) == [r[k]])
    && forall i: nat :: i < |s| ==> (i in idx <==> f(s[i]) != [])
  }

  lemma ImagesNext<A, B>(f: A -> seq<B>, s: seq<A>, r: seq<B>, before: seq<nat>)
    requires s != [] && |f(s[|s| - 1])| <= 1 && Images(f, s[..|s| - 1], r, before)
    ensures Images(f, s, r + f(s[|s| - 1]), Grow(before, |s| - 1, f(s[|s| - 1]) != []))
  {
    var n := |s| - 1;
    var idx := Grow(before, n, f(s[n]) != []);
    assert n !in before;
    forall i: nat | i < |s| ensures i in idx <==> f(s[i]) != [] {
      if i < n {
        assert s[..n][i] == s[i];
      }
    }
  }

  /** If each image has at most one element, the images are those of the positions with an image, in order. */
  lemma {:induction false} FlatMapPicks<A, B>(f: A -> seq<B>, s: seq<A>) returns (idx: seq<nat>)
    requires forall x :: x in s ==> |f(x)| <= 1
    ensures Images(f, s, FlatMap(f, s), idx)
  {
    idx := [];
    if s != [] {
      var n := |s| - 1;
      assert s[n] in s;
      var before := FlatMapPicks(f, s[..n]);
      ImagesNext(f, s, FlatMap(f, s[..n]), before);
      idx := Grow(before, n, f(s[n]) != []);
    }
  }
}
