/** Order-preserving selection from a sequence, the shape of a boolean row mask. */
module Seqs {

  predicate Distinct<T(==)>(s: seq<T>) {
    forall i, j :: 0 <= i < j < |s| ==> s[i] != s[j]
  }

  /** The elements of `s` that satisfy `p`, in their original order. */
  function Filter<T>(s: seq<T>, p: T -> bool): (r: seq<T>)
    ensures |r| <= |s|
    ensures forall k :: 0 <= k < |r| ==> r[k] in s && p(r[k])
    ensures forall i :: 0 <= i < |s| && p(s[i]) ==> s[i] in r
  {
    if |s| == 0 then []
    else
      assert forall i :: 1 <= i < |s| ==> s[i] == s[1..][i - 1];
      (if p(s[0]) then [s[0]] else []) + Filter(s[1..], p)
  }

  /** The number of elements of `s` that satisfy `p`. */
  function Count<T>(s: seq<T>, p: T -> bool): nat {
    if |s| == 0 then 0 else (if p(s[0]) then 1 else 0) + Count(s[1..], p)
  }

  predicate StrictlyIncreasing(idx: seq<nat>) {
    forall i, j :: 0 <= i < j < |idx| ==> idx[i] < idx[j]
  }

  /** The indices `i` from `from` on with `p(s[i])`, in increasing order. */
  function PositionsFrom<T>(s: seq<T>, p: T -> bool, from: nat): (idx: seq<nat>)
    requires from <= |s|
    ensures forall k :: 0 <= k < |idx| ==> from <= idx[k] < |s| && p(s[idx[k]])
    ensures forall i :: from <= i < |s| && p(s[i]) ==> i in idx
    ensures StrictlyIncreasing(idx)
    decreases |s| - from
  {
    if from == |s| then []
    else
      var rest := PositionsFrom(s, p, from + 1);
      if p(s[from]) then
        var idx := [from] + rest;
        assert forall k :: 1 <= k < |idx| ==> idx[k] == rest[k - 1];
        idx
      else rest
  }

  /** Where the selected elements come from: a strictly increasing choice of exactly
      the indices whose element satisfies `p`. */
  function Positions<T>(s: seq<T>, p: T -> bool): (idx: seq<nat>)
    ensures forall k :: 0 <= k < |idx| ==> idx[k] < |s| && p(s[idx[k]])
    ensures forall i :: 0 <= i < |s| && p(s[i]) ==> i in idx
    ensures StrictlyIncreasing(idx)
  {
    PositionsFrom(s, p, 0)
  }

  lemma {:induction false} FilterFromLength<T>(s: seq<T>, p: T -> bool, from: nat)
    requires from <= |s|
    ensures |Filter(s[from..], p)| == |PositionsFrom(s, p, from)|
    decreases |s| - from
  {
    if from < |s| {
      FilterFromLength(s, p, from + 1);
      FilterFromStep(s, p, from);
    }
  }

  lemma {:induction false} FilterFrom<T>(s: seq<T>, p: T -> bool, from: nat)
    requires from <= |s|
    ensures |Filter(s[from..], p)| == |PositionsFrom(s, p, from)|
    ensures forall k :: 0 <= k < |PositionsFrom(s, p, from)| ==>
      Filter(s[from..], p)[k] == s[PositionsFrom(s, p, from)[k]]
    decreases |s| - from
  {
    FilterFromLength(s, p, from);
    if from < |s| {
      FilterFrom(s, p, from + 1);
      FilterFromStep(s, p, from);
      var f, f' := Filter(s[from..], p), Filter(s[from + 1..], p);
      var idx, idx' := PositionsFrom(s, p, from), PositionsFrom(s, p, from + 1);
      forall k | 0 <= k < |idx|
        ensures f[k] == s[idx[k]]
      {
        if !p(s[from]) {
          assert f[k] == f'[k] && idx[k] == idx'[k];
        } else if k > 0 {
          assert f[k] == f'[k - 1] && idx[k] == idx'[k - 1];
        }
      }
    }
  }

  /** One element of `s[from..]`: both `Filter` and `PositionsFrom` take it or skip it. */
  lemma FilterFromStep<T>(s: seq<T>, p: T -> bool, from: nat)
    requires from < |s|
    ensures p(s[from]) ==> Filter(s[from..], p) == [s[from]] + Filter(s[from + 1..], p)
    ensures p(s[from]) ==> PositionsFrom(s, p, from) == [from] + PositionsFrom(s, p, from + 1)
    ensures !p(s[from]) ==> Filter(s[from..], p) == Filter(s[from + 1..], p)
    ensures !p(s[from]) ==> PositionsFrom(s, p, from) == PositionsFrom(s, p, from + 1)
  {
    var t := s[from..];
    assert t[0] == s[from] && t[1..] == s[from + 1..];
  }

  /** `Filter` is selection at `Positions`: it keeps exactly the satisfying elements,
      in their original relative order. */
  lemma FilterAtPositions<T>(s: seq<T>, p: T -> bool)
    ensures |Filter(s, p)| == |Positions(s, p)| == Count(s, p)
    ensures forall k :: 0 <= k < |Positions(s, p)| ==> Filter(s, p)[k] == s[Positions(s, p)[k]]
  {
    assert s[0..] == s;
    FilterFrom(s, p, 0);
    FilterCount(s, p);
  }

  lemma {:induction false} FilterCount<T>(s: seq<T>, p: T -> bool)
    ensures |Filter(s, p)| == Count(s, p)
  {
    if |s| > 0 {
      FilterCount(s[1..], p);
    }
  }

  /** Selection distributes over concatenation. */
  lemma {:induction false} FilterAppend<T>(a: seq<T>, b: seq<T>, p: T -> bool)
    ensures Filter(a + b, p) == Filter(a, p) + Filter(b, p)
  {
    if |a| == 0 {
      assert a + b == b;
    } else {
      assert (a + b)[0] == a[0];
      assert (a + b)[1..] == a[1..] + b;
      FilterAppend(a[1..], b, p);
    }
  }
}
