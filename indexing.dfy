/**
 * The indexing algebra: index tuples made of whole-dimension slices and
 * integer (array) index operands, their normalisation against a reference's
 * rank, the split into "non-slice operands + indexed-dimension flags" and back,
 * and the rule that computes the shape of the selected slice.
 */
module Indexing {
  import opened Wrappers
  import opened Shapes

  /** One entry of an index tuple: a whole-dimension slice `:`, or an integer / integer-array operand. */
  datatype Entry<T> = Full | Idx(operand: T)

  /** What stands between the brackets: `...`, or a tuple of entries (`()` is the empty tuple). */
  datatype Indexer<T> = Ellipsis | Tuple(entries: seq<Entry<T>>)

  datatype IndexError = TooManyIndices | MismatchedIndexShapes

  /** `n` whole-dimension slices. */
  function Fulls<T>(n: nat): (r: seq<Entry<T>>)
    ensures |r| == n && forall d :: 0 <= d < n ==> r[d] == Full
  {
    seq(n, _ => Full)
  }

  /**
   * Normalises an indexer against a reference of rank `rank`: `...` and `()`
   * select everything, and a short tuple is completed with trailing slices.
   */
  function Expand<T>(rank: nat, idx: Indexer<T>): (r: Result<seq<Entry<T>>, IndexError>)
    ensures r.Ok? <==> (idx.Ellipsis? || |idx.entries| <= rank)
    ensures r.Ok? ==> |r.value| == rank
    ensures r.Ok? && idx.Tuple? ==> r.value[..|idx.entries|] == idx.entries
    ensures r.Ok? && idx.Tuple? ==> forall d :: |idx.entries| <= d < rank ==> r.value[d] == Full
    ensures r.Ok? && idx.Ellipsis? ==> forall d :: 0 <= d < rank ==> r.value[d] == Full
  {
    match idx
    case Ellipsis => Ok(Fulls(rank))
    case Tuple(es) =>
      if |es| > rank then Err(TooManyIndices)
      else
        var r := es + Fulls(rank - |es|);
        assert r[..|es|] == es;
        Ok(r)
  }

  /** Number of `true` flags. */
  function CountTrue(dims: seq<bool>): nat
  {
    if dims == [] then 0 else (if dims[0] then 1 else 0) + CountTrue(dims[1..])
  }

  /** An index tuple split into its non-slice operands and its indexed-dimension flags. */
  datatype Unpacked<T> = Unpacked(nonSlice: seq<T>, dims: seq<bool>)

  /** Splits an index tuple: one flag per entry, and the operands of the flagged entries in order. */
  function Unpack<T>(idx: seq<Entry<T>>): (u: Unpacked<T>)
    ensures |u.dims| == |idx| && |u.nonSlice| == CountTrue(u.dims)
    ensures forall d :: 0 <= d < |idx| ==> (u.dims[d] <==> idx[d].Idx?)
  {
    if idx == [] then Unpacked([], [])
    else
      var rest := Unpack(idx[1..]);
      match idx[0]
      case Full => Unpacked(rest.nonSlice, [false] + rest.dims)
      case Idx(x) => Unpacked([x] + rest.nonSlice, [true] + rest.dims)
  }

  /** Why packing failed: an operand was missing for a flagged dimension, or operands were left over. */
  datatype PackError = Exhausted | Leftover

  /**
   * Rebuilds an index tuple from non-slice operands and indexed-dimension
   * flags: it succeeds exactly when there is one operand per flag, and then
   * has one entry per flag, an operand exactly where the flag is set.
   */
  function Pack<T>(nonSlice: seq<T>, dims: seq<bool>): (r: Result<seq<Entry<T>>, PackError>)
    ensures r.Ok? <==> |nonSlice| == CountTrue(dims)
    ensures r.Ok? ==> |r.value| == |dims| && forall d :: 0 <= d < |dims| ==> (r.value[d].Idx? <==> dims[d])
  {
    if dims == [] then
      if nonSlice == [] then Ok([]) else Err(Leftover)
    else if dims[0] then
      if nonSlice == [] then Err(Exhausted)
      else Prepend([Idx(nonSlice[0])], Pack(nonSlice[1..], dims[1..]))
    else Prepend([Full], Pack(nonSlice, dims[1..]))
  }

  function Prepend<T>(pre: seq<Entry<T>>, r: Result<seq<Entry<T>>, PackError>): Result<seq<Entry<T>>, PackError>
  {
    match r
    case Ok(es) => Ok(pre + es)
    case Err(e) => Err(e)
  }

  lemma PrependNil<T>(r: Result<seq<Entry<T>>, PackError>)
    ensures Prepend([], r) == r
  {
    if r.Ok? {
      assert [] + r.value == r.value;
    }
  }

  lemma PrependPrepend<T>(a: seq<Entry<T>>, b: seq<Entry<T>>, r: Result<seq<Entry<T>>, PackError>)
    ensures Prepend(a, Prepend(b, r)) == Prepend(a + b, r)
  {
    if r.Ok? {
      assert a + (b + r.value) == (a + b) + r.value;
    }
  }

  /**
   * Packing consumes the operands one flagged dimension at a time and then
   * checks that none is left over.
   */
  method PackIdx<T>(nonSlice: seq<T>, dims: seq<bool>) returns (r: Result<seq<Entry<T>>, PackError>)
    ensures r == Pack(nonSlice, dims)
  {
    var used := 0;
    var acc: seq<Entry<T>> := [];
    var i := 0;
    assert nonSlice[0..] == nonSlice && dims[0..] == dims;
    PrependNil(Pack(nonSlice, dims));
    while i < |dims|
      invariant 0 <= i <= |dims| && used <= |nonSlice|
      invariant Pack(nonSlice, dims) == Prepend(acc, Pack(nonSlice[used..], dims[i..]))
    {
      if dims[i] {
        if used == |nonSlice| {
          return Err(Exhausted);
        }
        assert nonSlice[used..][1..] == nonSlice[used + 1..];
        PrependPrepend(acc, [Idx(nonSlice[used])], Pack(nonSlice[used + 1..], dims[i + 1..]));
        acc := acc + [Idx(nonSlice[used])];
        used := used + 1;
      } else {
        assert dims[i..][1..] == dims[i + 1..];
        PrependPrepend(acc, [Full], Pack(nonSlice[used..], dims[i + 1..]));
        acc := acc + [Full];
      }
      assert dims[i..][1..] == dims[i + 1..];
      i := i + 1;
    }
    if used < |nonSlice| {
      return Err(Leftover);
    }
    assert nonSlice[used..] == [] && acc + [] == acc;
    r := Ok(acc);
  }

  /** Any index tuple is rebuilt exactly from its unpacked form. */
  lemma {:induction false} PackUnpack<T>(idx: seq<Entry<T>>)
    ensures Pack(Unpack(idx).nonSlice, Unpack(idx).dims) == Ok(idx)
  {
    if idx != [] {
      PackUnpack(idx[1..]);
      assert idx == [idx[0]] + idx[1..];
    }
  }

  /** Packing succeeds exactly when there is one operand per flagged dimension, and then unpacking gives the inputs back. */
  lemma {:induction false} UnpackPack<T>(nonSlice: seq<T>, dims: seq<bool>)
    ensures Pack(nonSlice, dims).Ok? <==> |nonSlice| == CountTrue(dims)
    ensures CountTrue(dims) < |nonSlice| ==> Pack(nonSlice, dims) == Err(Leftover)
    ensures CountTrue(dims) > |nonSlice| ==> Pack(nonSlice, dims) == Err(Exhausted)
    ensures Pack(nonSlice, dims).Ok? ==> Unpack(Pack(nonSlice, dims).value) == Unpacked(nonSlice, dims)
  {
    if dims != [] {
      if dims[0] {
        if nonSlice != [] {
          UnpackPack(nonSlice[1..], dims[1..]);
          var p := Pack(nonSlice[1..], dims[1..]);
          if p.Ok? {
            var es := [Idx(nonSlice[0])] + p.value;
            assert es[1..] == p.value;
            assert nonSlice == [nonSlice[0]] + nonSlice[1..];
            assert dims == [true] + dims[1..];
          }
        }
      } else {
        UnpackPack(nonSlice, dims[1..]);
        var p := Pack(nonSlice, dims[1..]);
        if p.Ok? {
          var es := [Full] + p.value;
          assert es[1..] == p.value;
          assert dims == [false] + dims[1..];
        }
      }
    }
  }

  /** The reference dimensions that are not indexed, in their original order. */
  function Unindexed(refShape: Shape, dims: seq<bool>): Shape
    requires |dims| == |refShape|
  {
    if dims == [] then []
    else (if dims[0] then [] else [refShape[0]]) + Unindexed(refShape[1..], dims[1..])
  }

  /** All shapes in the list are the same. */
  predicate AllSame(shapes: seq<Shape>)
  {
    forall i, j :: 0 <= i < |shapes| && 0 <= j < |shapes| ==> shapes[i] == shapes[j]
  }

  /**
   * Shape of the slice that an index tuple (already expanded to the
   * reference's rank) selects: the common shape of the index operands
   * followed by the un-indexed dimensions. With no index operand the
   * prefix is empty.
   */
  function SliceShape(refShape: Shape, idx: seq<Entry<Shape>>): Result<Shape, IndexError>
    requires |idx| == |refShape|
  {
    var u := Unpack(idx);
    if !AllSame(u.nonSlice) then Err(MismatchedIndexShapes)
    else
      var prefix := if u.nonSlice == [] then [] else u.nonSlice[0];
      Ok(prefix + Unindexed(refShape, u.dims))
  }

  lemma {:induction false} UnindexedLength(refShape: Shape, dims: seq<bool>)
    requires |dims| == |refShape|
    ensures |Unindexed(refShape, dims)| == |refShape| - CountTrue(dims)
  {
    if dims != [] {
      UnindexedLength(refShape[1..], dims[1..]);
    }
  }

  lemma {:induction false} UnindexedNone(refShape: Shape, dims: seq<bool>)
    requires |dims| == |refShape| && CountTrue(dims) == 0
    ensures Unindexed(refShape, dims) == refShape
  {
    if dims != [] {
      UnindexedNone(refShape[1..], dims[1..]);
      assert refShape == [refShape[0]] + refShape[1..];
    }
  }

  /**
   * The result-shape law: the slice is well defined exactly when all index
   * operands have one shape `s`; with no indexed dimension it is the whole
   * reference shape, otherwise `s` followed by the un-indexed dimensions in
   * their original order, so gathered dimensions always come first.
   */
  lemma SliceShapeLaw(refShape: Shape, idx: seq<Entry<Shape>>)
    requires |idx| == |refShape|
    ensures SliceShape(refShape, idx).Ok? <==> AllSame(Unpack(idx).nonSlice)
    ensures SliceShape(refShape, idx).Ok? && CountTrue(Unpack(idx).dims) == 0 ==>
              SliceShape(refShape, idx).value == refShape
    ensures SliceShape(refShape, idx).Ok? && CountTrue(Unpack(idx).dims) > 0 ==>
              var s := Unpack(idx).nonSlice[0];
              SliceShape(refShape, idx).value == s + Unindexed(refShape, Unpack(idx).dims) &&
              |SliceShape(refShape, idx).value| == |s| + |refShape| - CountTrue(Unpack(idx).dims)
  {
    var u := Unpack(idx);
    UnindexedLength(refShape, u.dims);
    if CountTrue(u.dims) == 0 {
      UnindexedNone(refShape, u.dims);
    }
  }

  /** The fully expanded index `()` or `...` selects the whole reference. */
  lemma WholeIndexShape(refShape: Shape)
    ensures SliceShape(refShape, Fulls(|refShape|)) == Ok(refShape)
  {
    var u := Unpack(Fulls<Shape>(|refShape|));
    NoneIndexed(Fulls<Shape>(|refShape|));
    UnindexedNone(refShape, u.dims);
    assert [] + Unindexed(refShape, u.dims) == refShape;
  }

  lemma {:induction false} NoneIndexed<T>(idx: seq<Entry<T>>)
    requires forall d :: 0 <= d < |idx| ==> idx[d] == Full
    ensures CountTrue(Unpack(idx).dims) == 0 && Unpack(idx).nonSlice == []
  {
    if idx != [] {
      NoneIndexed(idx[1..]);
    }
  }

  /**
   * The index tuple the tests build from indexed-dimension flags: each flagged
   * dimension gets an operand of shape `idxShape`, the others a slice.
   */
  function FlaggedIndex(dims: seq<bool>, idxShape: Shape): (r: seq<Entry<Shape>>)
    ensures |r| == |dims|
  {
    if dims == [] then []
    else [if dims[0] then Idx(idxShape) else Full] + FlaggedIndex(dims[1..], idxShape)
  }

  /** The tests' own statement of the expected slice shape. */
  function TestOutShape(refShape: Shape, dims: seq<bool>, idxShape: Shape): Shape
    requires |dims| == |refShape|
  {
    if CountTrue(dims) > 0 then idxShape + Unindexed(refShape, dims) else refShape
  }

  /** The slice-shape rule agrees with the tests' formula for every flag pattern and index shape. */
  lemma TestRuleAgrees(refShape: Shape, dims: seq<bool>, idxShape: Shape)
    requires |dims| == |refShape|
    ensures SliceShape(refShape, FlaggedIndex(dims, idxShape)) == Ok(TestOutShape(refShape, dims, idxShape))
  {
    var idx := FlaggedIndex(dims, idxShape);
    FlaggedUnpack(dims, idxShape);
    if CountTrue(dims) == 0 {
      UnindexedNone(refShape, dims);
      assert Unpack(idx).nonSlice == [];
      assert [] + Unindexed(refShape, dims) == refShape;
    }
  }

  lemma {:induction false} FlaggedUnpack(dims: seq<bool>, idxShape: Shape)
    ensures Unpack(FlaggedIndex(dims, idxShape)).dims == dims
    ensures forall i :: 0 <= i < |Unpack(FlaggedIndex(dims, idxShape)).nonSlice| ==>
              Unpack(FlaggedIndex(dims, idxShape)).nonSlice[i] == idxShape
  {
    if dims != [] {
      FlaggedUnpack(dims[1..], idxShape);
      assert FlaggedIndex(dims, idxShape)[1..] == FlaggedIndex(dims[1..], idxShape);
    }
  }

  /**
   * Inserts `val` at position `idx` when there is one (a batch axis of a
   * given size inserted into a shape); `None` leaves the tuple alone.
   */
  function MaybeInsert<T>(t: seq<T>, idx: Option<nat>, val: T): (r: seq<T>)
    requires idx.Some? ==> idx.value <= |t|
    ensures idx.None? ==> r == t
    ensures idx.Some? ==> |r| == |t| + 1 && r[idx.value] == val
    ensures idx.Some? ==> forall j :: 0 <= j < |t| ==> t[j] == r[if j < idx.value then j else j + 1]
  {
    match idx
    case None => t
    case Some(i) => t[..i] + [val] + t[i..]
  }

  /** Removes position `i`: the inverse of inserting there. */
  function RemoveAt<T>(r: seq<T>, i: nat): (t: seq<T>)
    requires i < |r|
    ensures |t| == |r| - 1
  {
    r[..i] + r[i + 1..]
  }

  lemma InsertRemove<T>(t: seq<T>, i: nat, val: T)
    requires i <= |t|
    ensures RemoveAt(MaybeInsert(t, Some(i), val), i) == t
  {
    var r := MaybeInsert(t, Some(i), val);
    assert r[..i] == t[..i];
    assert r[i + 1..] == t[i..];
    assert t == t[..i] + t[i..];
  }
}
