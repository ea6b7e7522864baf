/** The `Array.prototype` operations the catalog uses: `filter` and `slice(0, n)`. */
module JsArray {

  function Min(a: int, b: int): int
  {
    if a <= b then a else b
  }

  /** `s.filter(p)`: the elements that satisfy `p`, front to back. */
  function Filter<T>(s: seq<T>, p: T -> bool): (r: seq<T>)
    ensures |r| <= |s|
  {
    if |s| == 0 then [] else (if p(s[0]) then [s[0]] else []) + Filter(s[1..], p)
  }

  /** Every position moved one place to the right. */
  function Shift(xs: seq<nat>): (r: seq<nat>)
    ensures |r| == |xs|
    ensures forall k :: 0 <= k < |xs| ==> r[k] == xs[k] + 1
    ensures forall i: nat :: i in r <==> i > 0 && i - 1 in xs
  {
    seq(|xs|, k requires 0 <= k < |xs| => xs[k] + 1)
  }

  /**
   * The positions in `s` that `Filter(s, p)` keeps, increasing, with the kept
   * elements in that order.
   */
  function KeptIndices<T>(s: seq<T>, p: T -> bool): (idx: seq<nat>)
    ensures |idx| == |Filter(s, p)|
    ensures forall k :: 0 <= k < |idx| ==> idx[k] < |s| && Filter(s, p)[k] == s[idx[k]]
    ensures forall k, l :: 0 <= k < l < |idx| ==> idx[k] < idx[l]
  {
    if |s| == 0 then []
    else
      var head: seq<nat> := if p(s[0]) then [0] else [];
      assert Filter(s, p) == (if p(s[0]) then [s[0]] else []) + Filter(s[1..], p);
      head + Shift(KeptIndices(s[1..], p))
  }

  /** `Filter` keeps a position exactly when its element satisfies `p`. */
  lemma {:induction false} KeptIndicesExact<T>(s: seq<T>, p: T -> bool)
    ensures forall i :: 0 <= i < |s| ==> (p(s[i]) <==> i in KeptIndices(s, p))
  {
    if |s| > 0 {
      KeptIndicesExact(s[1..], p);
      var rest := KeptIndices(s[1..], p);
      assert KeptIndices(s, p) == (if p(s[0]) then [0] else []) + Shift(rest);
      forall i | 0 < i < |s| ensures p(s[i]) <==> i in KeptIndices(s, p) {
        assert s[i] == s[1..][i - 1];
        assert i in KeptIndices(s, p) <==> i - 1 in rest;
      }
    }
  }

  /** An element is kept exactly when it is an element of `s` that satisfies `p`. */
  lemma {:induction false} FilterMembers<T>(s: seq<T>, p: T -> bool)
    ensures forall x :: x in Filter(s, p) ==> x in s && p(x)
    ensures forall i :: 0 <= i < |s| && p(s[i]) ==> s[i] in Filter(s, p)
  {
    if |s| > 0 {
      FilterMembers(s[1..], p);
      assert Filter(s, p) == (if p(s[0]) then [s[0]] else []) + Filter(s[1..], p);
      forall i | 0 < i < |s| && p(s[i]) ensures s[i] in Filter(s, p) {
        assert s[i] == s[1..][i - 1];
      }
    }
  }

  /** `s.slice(0, n)`. */
  function Take<T>(s: seq<T>, n: nat): (r: seq<T>)
    ensures |r| == Min(n, |s|)
    ensures multiset(r) <= multiset(s)
    ensures forall i :: 0 <= i < |r| ==> r[i] == s[i]
  {
    var r := s[..Min(n, |s|)];
    assert s == r + s[Min(n, |s|)..];
    r
  }
}
