/** Sequence operations shared by the models: order-preserving filtering,
    first-match search and concatenation of a sequence of sequences. */
module Seqs {
  import opened Outcomes

  /** The items of `xs` that satisfy `p`, in their original order
      (a boolean mask applied to a table, or a list comprehension with `if`). */
  function Filter<T>(xs: seq<T>, p: T -> bool): (r: seq<T>)
    ensures |r| <= |xs|
  {
    if xs == [] then []
    else (if p(xs[0]) then [xs[0]] else []) + Filter(xs[1..], p)
  }

  /** Filtering keeps exactly the items that satisfy `p`. */
  lemma {:induction false} FilterMembers<T>(xs: seq<T>, p: T -> bool)
    ensures forall i :: 0 <= i < |Filter(xs, p)| ==> Filter(xs, p)[i] in xs && p(Filter(xs, p)[i])
    ensures forall i :: 0 <= i < |xs| && p(xs[i]) ==> xs[i] in Filter(xs, p)
  {
    if xs != [] {
      FilterMembers(xs[1..], p);
      var head := if p(xs[0]) then [xs[0]] else [];
      assert Filter(xs, p) == head + Filter(xs[1..], p);
      forall i | 0 <= i < |Filter(xs, p)|
        ensures Filter(xs, p)[i] in xs && p(Filter(xs, p)[i])
      {
        if i >= |head| {
          assert Filter(xs, p)[i] == Filter(xs[1..], p)[i - |head|];
        }
      }
      forall i | 0 <= i < |xs| && p(xs[i])
        ensures xs[i] in Filter(xs, p)
      {
        if i > 0 {
          assert xs[i] == xs[1..][i - 1];
        }
      }
    }
  }

  /** Filtering commutes with concatenation: kept items stay in input order. */
  lemma {:induction false} FilterAppend<T>(a: seq<T>, b: seq<T>, p: T -> bool)
    ensures Filter(a + b, p) == Filter(a, p) + Filter(b, p)
  {
    if a == [] {
      assert a + b == b;
    } else {
      var head := if p(a[0]) then [a[0]] else [];
      assert (a + b)[0] == a[0];
      assert (a + b)[1..] == a[1..] + b;
      assert Filter(a + b, p) == head + Filter(a[1..] + b, p);
      FilterAppend(a[1..], b, p);
      assert Filter(a, p) == head + Filter(a[1..], p);
    }
  }

  /** An item of `a` keeps its index in `a + b`. */
  lemma PrefixAt<T>(a: seq<T>, b: seq<T>, i: nat)
    requires i < |a|
    ensures (a + b)[i] == a[i]
  {
  }

  /** Item `i` of `b` sits at index `|a| + i` of `a + b`. */
  lemma SuffixAt<T>(a: seq<T>, b: seq<T>, i: nat)
    requires i < |b|
    ensures |a| + i < |a + b| && (a + b)[|a| + i] == b[i]
  {
  }

  /** The index of the first item of `xs` that satisfies `p`, if any. */
  function FirstIndex<T>(xs: seq<T>, p: T -> bool): (r: Option<nat>)
    ensures r.Some? ==> r.value < |xs| && p(xs[r.value])
    ensures r.Some? ==> forall j :: 0 <= j < r.value ==> !p(xs[j])
    ensures r.None? <==> forall j :: 0 <= j < |xs| ==> !p(xs[j])
  {
    if xs == [] then None
    else if p(xs[0]) then Some(0)
    else match FirstIndex(xs[1..], p)
      case None => None
      case Some(k) => Some(k + 1)
  }

  /** A satisfying position with no satisfying position before it is the
      one `FirstIndex` finds. */
  lemma FirstIndexAt<T>(xs: seq<T>, p: T -> bool, i: nat)
    requires i < |xs| && p(xs[i])
    requires forall j :: 0 <= j < i ==> !p(xs[j])
    ensures FirstIndex(xs, p) == Some(i)
  {
  }

  /** The filtered sequence starts with the first satisfying element, and
      is empty exactly when there is none. */
  lemma {:induction false} FilterFirst<T>(xs: seq<T>, p: T -> bool)
    ensures Filter(xs, p) == [] <==> FirstIndex(xs, p).None?
    ensures FirstIndex(xs, p).Some? ==> Filter(xs, p)[0] == xs[FirstIndex(xs, p).value]
  {
    if xs != [] && !p(xs[0]) {
      FilterFirst(xs[1..], p);
      var r := FirstIndex(xs[1..], p);
      if r.Some? {
        assert FirstIndex(xs, p) == Some(r.value + 1);
      }
    }
  }

  /** Concatenation of the inner sequences, in order. */
  function Flatten<T>(xss: seq<seq<T>>): seq<T>
  {
    if xss == [] then [] else xss[0] + Flatten(xss[1..])
  }

  lemma {:induction false} FlattenSnoc<T>(xss: seq<seq<T>>, ys: seq<T>)
    ensures Flatten(xss + [ys]) == Flatten(xss) + ys
  {
    if xss != [] {
      assert (xss + [ys])[1..] == xss[1..] + [ys];
      FlattenSnoc(xss[1..], ys);
    }
  }

  /** One more row of width `c` moves an offset by `c`. */
  lemma MulSucc(a: nat, c: nat)
    ensures (a + 1) * c == a * c + c
  {
  }

  /** When every inner sequence has length `e`, the concatenation has
      `e` elements per inner sequence. */
  lemma {:induction false} FlattenUniformLength<T>(xss: seq<seq<T>>, e: nat)
    requires forall i :: 0 <= i < |xss| ==> |xss[i]| == e
    ensures |Flatten(xss)| == |xss| * e
  {
    if xss != [] {
      FlattenUniformLength(xss[1..], e);
      MulSucc(|xss| - 1, e);
    }
  }

  /** Offset of element `x` of row `j` when every row has `e` elements. */
  function Offset(j: nat, x: nat, e: nat): nat
  {
    j * e + x
  }

  /** When every inner sequence has length `e`, element `x` of inner
      sequence `j` sits at offset `j * e + x` of the concatenation. */
  lemma {:induction false} FlattenUniformAt<T>(xss: seq<seq<T>>, e: nat, j: nat, x: nat)
    requires forall i :: 0 <= i < |xss| ==> |xss[i]| == e
    requires j < |xss| && x < e
    ensures Offset(j, x, e) < |Flatten(xss)| && Flatten(xss)[Offset(j, x, e)] == xss[j][x]
  {
    FlattenUniformLength(xss[1..], e);
    if j > 0 {
      FlattenUniformAt(xss[1..], e, j - 1, x);
      MulSucc(j - 1, e);
    }
  }
}
