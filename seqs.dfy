/** Sequence filtering: the shape shared by `filter(pred, s)` and by a list
    comprehension with an `if` clause. */
module Seqs {

  /** The elements of `s` that satisfy `p`, in their original order. */
  function Filter<T>(p: T -> bool, s: seq<T>): (r: seq<T>)
    ensures |r| <= |s|
    ensures forall i :: 0 <= i < |r| ==> p(r[i])
  {
    if s == [] then [] else (if p(s[0]) then [s[0]] else []) + Filter(p, s[1..])
  }

  /** `idx` lists, in strictly increasing order, positions of `s` that hold
      the elements of `r` one by one: `r` is a subsequence of `s`. */
  ghost predicate IsEmbedding<T>(r: seq<T>, s: seq<T>, idx: seq<nat>)
  {
    |idx| == |r| &&
    (forall k :: 0 <= k < |idx| ==> idx[k] < |s| && s[idx[k]] == r[k]) &&
    (forall k, l :: 0 <= k < l < |idx| ==> idx[k] < idx[l])
  }

  /** Every position moved one place to the right. */
  function Shift(idx: seq<nat>): (r: seq<nat>)
    ensures |r| == |idx|
    ensures forall k :: 0 <= k < |idx| ==> r[k] == idx[k] + 1
  {
    seq(|idx|, k requires 0 <= k < |idx| => idx[k] + 1)
  }

  lemma ShiftMember(idx: seq<nat>, i: nat)
    ensures i + 1 in Shift(idx) <==> i in idx
  {
    if i in idx {
      var k :| 0 <= k < |idx| && idx[k] == i;
      assert Shift(idx)[k] == i + 1;
    }
  }

  /** An embedding of `r` into the tail of `s` is, shifted, an embedding of
      `r` into `s` that avoids position 0. */
  lemma ShiftEmbedding<T>(r: seq<T>, s: seq<T>, idx: seq<nat>)
    requires s != [] && IsEmbedding(r, s[1..], idx)
    ensures IsEmbedding(r, s, Shift(idx)) && 0 !in Shift(idx)
  {
  }

  /** Position 0 put in front of an embedding that avoids it embeds one
      more element, the head of `s`. */
  lemma ConsEmbedding<T>(r: seq<T>, s: seq<T>, idx: seq<nat>)
    requires s != [] && IsEmbedding(r, s, idx) && 0 !in idx
    ensures IsEmbedding([s[0]] + r, s, [0] + idx)
  {
    forall k | 0 <= k < |idx| ensures 0 < idx[k] {
      assert idx[k] in idx;
    }
  }

  /** Shifting carries "the kept positions of the tail of `s`" over to the
      positions 1.. of `s`. */
  lemma ShiftPositions<T>(p: T -> bool, s: seq<T>, tail: seq<nat>)
    requires s != []
    requires forall i :: 0 <= i < |s| - 1 ==> (i in tail <==> p(s[1..][i]))
    ensures forall i :: 1 <= i < |s| ==> (i in Shift(tail) <==> p(s[i]))
  {
    forall i | 1 <= i < |s| ensures i in Shift(tail) <==> p(s[i]) {
      ShiftMember(tail, i - 1);
      assert s[1..][i - 1] == s[i];
    }
  }

  /** The positions of `s` whose element satisfies `p` are exactly those in `idx`. */
  ghost predicate KeepsExactly<T>(p: T -> bool, s: seq<T>, idx: seq<nat>)
  {
    forall i :: 0 <= i < |s| ==> (i in idx <==> p(s[i]))
  }

  /** One step of the induction: from the tail's embedding to the whole's. */
  lemma FilterEmbeddingStep<T>(p: T -> bool, s: seq<T>, tail: seq<nat>) returns (idx: seq<nat>)
    requires s != []
    requires IsEmbedding(Filter(p, s[1..]), s[1..], tail) && KeepsExactly(p, s[1..], tail)
    ensures IsEmbedding(Filter(p, s), s, idx) && KeepsExactly(p, s, idx)
  {
    var shifted := Shift(tail);
    ShiftEmbedding(Filter(p, s[1..]), s, tail);
    ShiftPositions(p, s, tail);
    if p(s[0]) {
      idx := [0] + shifted;
      assert Filter(p, s) == [s[0]] + Filter(p, s[1..]);
      ConsEmbedding(Filter(p, s[1..]), s, shifted);
      assert forall i :: 1 <= i < |s| ==> (i in idx <==> i in shifted);
    } else {
      idx := shifted;
      assert Filter(p, s) == Filter(p, s[1..]);
    }
  }

  /** Filtering keeps exactly the positions whose element satisfies `p`, in
      order: the result is `s` with every element failing `p` removed. */
  lemma {:induction false} FilterEmbedding<T>(p: T -> bool, s: seq<T>) returns (idx: seq<nat>)
    ensures IsEmbedding(Filter(p, s), s, idx)
    ensures forall i :: 0 <= i < |s| ==> (i in idx <==> p(s[i]))
  {
    if s == [] {
      idx := [];
    } else {
      var tail := FilterEmbedding(p, s[1..]);
      idx := FilterEmbeddingStep(p, s, tail);
    }
  }

  /** An element is kept exactly when it occurs in `s` and satisfies `p`. */
  lemma FilterMembers<T>(p: T -> bool, s: seq<T>, x: T)
    ensures x in Filter(p, s) <==> x in s && p(x)
  {
    var idx := FilterEmbedding(p, s);
    var r := Filter(p, s);
    if x in r {
      var k :| 0 <= k < |r| && r[k] == x;
      assert s[idx[k]] == x;
    }
    if x in s && p(x) {
      var i :| 0 <= i < |s| && s[i] == x;
      assert i in idx;
      var k :| 0 <= k < |idx| && idx[k] == i;
      assert r[k] == x;
    }
  }

  /** Filtering distributes over concatenation. */
  lemma {:induction false} FilterAppend<T>(p: T -> bool, a: seq<T>, b: seq<T>)
    ensures Filter(p, a + b) == Filter(p, a) + Filter(p, b)
  {
    if a == [] {
      assert a + b == b;
    } else {
      assert (a + b)[0] == a[0];
      assert (a + b)[1..] == a[1..] + b;
      FilterAppend(p, a[1..], b);
    }
  }

  /** Filtering leaves `s` unchanged exactly when every element satisfies `p`. */
  lemma {:induction false} FilterIdentity<T>(p: T -> bool, s: seq<T>)
    ensures Filter(p, s) == s <==> forall i :: 0 <= i < |s| ==> p(s[i])
  {
    if s != [] && forall i :: 0 <= i < |s| ==> p(s[i]) {
      assert forall i :: 0 <= i < |s| - 1 ==> p(s[1..][i]) by {
        forall i | 0 <= i < |s| - 1 ensures p(s[1..][i]) {
          assert s[1..][i] == s[i + 1];
        }
      }
      FilterIdentity(p, s[1..]);
      assert s == [s[0]] + s[1..];
    }
  }

  /** Filtering twice with the same predicate is filtering once. */
  lemma FilterIdempotent<T>(p: T -> bool, s: seq<T>)
    ensures Filter(p, Filter(p, s)) == Filter(p, s)
  {
    FilterIdentity(p, Filter(p, s));
  }
}
