/**
 * Shapes of arrays and the row-major correspondence between multi-indices
 * and flat positions, plus the abstract values (element kind + shape) and
 * reference types that the tracer attaches to every variable.
 */
module Shapes {

  type Shape = seq<nat>

  /** Number of elements of an array of shape `s`. */
  function Product(s: Shape): nat
  {
    if s == [] then 1 else s[0] * Product(s[1..])
  }

  /** `i` is a multi-index that addresses an element of shape `s`. */
  predicate InBounds(s: Shape, i: seq<nat>)
  {
    |i| == |s| && forall d :: 0 <= d < |s| ==> i[d] < s[d]
  }

  /** Row-major flat position of the multi-index `i` in shape `s`. */
  function Offset(s: Shape, i: seq<nat>): nat
    requires |i| == |s|
  {
    if s == [] then 0 else i[0] * Product(s[1..]) + Offset(s[1..], i[1..])
  }

  /** The multi-index whose row-major flat position in shape `s` is `k`. */
  function Unflatten(s: Shape, k: nat): (i: seq<nat>)
    requires k < Product(s)
    ensures InBounds(s, i)
  {
    if s == [] then []
    else
      var p := Product(s[1..]);
      DivBound(k, s[0], p);
      [k / p] + Unflatten(s[1..], k % p)
  }

  lemma DivBound(k: nat, a: nat, p: nat)
    requires k < a * p
    ensures p > 0 && k / p < a && k % p < p
  {
    MulZero(a, p);
    MulMono(a, k / p, p);
  }

  lemma MulZero(a: nat, p: nat)
    ensures p == 0 ==> a * p == 0
  {
  }

  lemma MulMono(a: nat, b: nat, p: nat)
    ensures a <= b ==> a * p <= b * p
  {
  }

  lemma MulSucc(a: nat, p: nat)
    ensures (a + 1) * p == a * p + p
  {
  }

  lemma MulAssoc(a: nat, b: nat, c: nat)
    ensures a * (b * c) == (a * b) * c
  {
  }

  /** The number of elements of a concatenation is the product of the parts. */
  lemma {:induction false} ProductAppend(a: Shape, b: Shape)
    ensures Product(a + b) == Product(a) * Product(b)
  {
    if a == [] {
      assert a + b == b;
    } else {
      assert (a + b)[0] == a[0] && (a + b)[1..] == a[1..] + b;
      ProductAppend(a[1..], b);
      MulAssoc(a[0], Product(a[1..]), Product(b));
    }
  }

  /** A flat position computed from an in-bounds multi-index is in range. */
  lemma {:induction false} OffsetBound(s: Shape, i: seq<nat>)
    requires InBounds(s, i)
    ensures Offset(s, i) < Product(s)
  {
    if s != [] {
      var p := Product(s[1..]);
      OffsetBound(s[1..], i[1..]);
      MulMono(i[0] + 1, s[0], p);
      MulSucc(i[0], p);
      assert Offset(s, i) == i[0] * p + Offset(s[1..], i[1..]);
      assert Product(s) == s[0] * p;
    }
  }

  /** Flattening undoes unflattening. */
  lemma {:induction false} OffsetUnflatten(s: Shape, k: nat)
    requires k < Product(s)
    ensures Offset(s, Unflatten(s, k)) == k
  {
    if s != [] {
      var p := Product(s[1..]);
      DivBound(k, s[0], p);
      OffsetUnflatten(s[1..], k % p);
    }
  }

  /** Unflattening undoes flattening, so `Offset` is injective on in-bounds indices. */
  lemma {:induction false} UnflattenOffset(s: Shape, i: seq<nat>)
    requires InBounds(s, i)
    ensures Offset(s, i) < Product(s) && Unflatten(s, Offset(s, i)) == i
  {
    OffsetBound(s, i);
    if s != [] {
      var p := Product(s[1..]);
      var rest := Offset(s[1..], i[1..]);
      OffsetBound(s[1..], i[1..]);
      DivMod(i[0], p, rest);
      UnflattenOffset(s[1..], i[1..]);
      assert i == [i[0]] + i[1..];
    }
  }

  lemma DivMod(q: nat, p: nat, r: nat)
    requires r < p
    ensures (q * p + r) / p == q && (q * p + r) % p == r
  {
    var n := q * p + r;
    var q', r' := n / p, n % p;
    MulMono(q + 1, q', p);
    MulMono(q' + 1, q, p);
  }

  lemma SmallDiv(k: nat, p: nat)
    requires k < p
    ensures k / p == 0 && k % p == k
  {
    DivMod(0, p, k);
    assert 0 * p + k == k;
  }

  /** Element kinds of arrays. */
  datatype DType = Int32 | Int64 | Float32 | Float64 | Bool

  /** Abstract value of an array: its shape and element kind. */
  datatype Aval = ShapedArray(shape: Shape, dtype: DType)

  /**
   * Type of a variable: an ordinary array value, or a reference that wraps
   * the abstract value it holds.
   */
  datatype Type = Value(aval: Aval) | Ref(inner: Aval)
}
