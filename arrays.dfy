/**
 * Concrete array values (flat row-major integer contents plus a shape) and
 * the slice read / slice write / slice accumulate operations that an index
 * tuple performs on them.
 */
module Arrays {
  import opened Wrappers
  import opened Shapes
  import opened Indexing

  datatype ArrayRep = ArrayRep(shape: Shape, data: seq<int>)

  /** An array value: its flat contents hold exactly one element per position of its shape. */
  type Array = a: ArrayRep | |a.data| == Product(a.shape) witness ArrayRep([], [0])

  function Scalar(v: int): Array
  {
    ArrayRep([], [v])
  }

  /** The shapes of the operands of a concrete index tuple. */
  function OperandShapes(idx: seq<Entry<Array>>): (r: seq<Entry<Shape>>)
    ensures |r| == |idx|
    ensures forall d :: 0 <= d < |idx| ==> (r[d].Idx? <==> idx[d].Idx?)
    ensures forall d :: 0 <= d < |idx| && idx[d].Idx? ==> r[d].operand == idx[d].operand.shape
  {
    if idx == [] then []
    else
      [match idx[0] case Full => Full case Idx(a) => Idx(a.shape)] + OperandShapes(idx[1..])
  }

  /** Every element of every index operand addresses its dimension, negative values counting from the end. */
  predicate ValuesInRange(refShape: Shape, idx: seq<Entry<Array>>)
    requires |idx| == |refShape|
  {
    forall d, j :: 0 <= d < |idx| && idx[d].Idx? && 0 <= j < |idx[d].operand.data| ==>
      -(refShape[d] as int) <= idx[d].operand.data[j] < refShape[d]
  }

  /** A possibly negative index value, counted from the end when negative. */
  function Wrap(v: int, n: nat): (r: nat)
    requires -(n as int) <= v < n
    ensures r < n
  {
    if v < 0 then v + n else v
  }

  /**
   * The reference multi-index selected by gather position `b` and by the
   * multi-index `r` over the un-indexed dimensions.
   */
  function Source(refShape: Shape, idx: seq<Entry<Array>>, b: nat, r: seq<nat>): (src: seq<nat>)
    requires |idx| == |refShape| && |r| == |Unindexed(refShape, Unpack(idx).dims)|
    requires forall d :: 0 <= d < |idx| && idx[d].Idx? ==> b < |idx[d].operand.data|
    requires ValuesInRange(refShape, idx)
    ensures |src| == |refShape|
  {
    if idx == [] then []
    else match idx[0]
      case Full => [r[0]] + Source(refShape[1..], idx[1..], b, r[1..])
      case Idx(a) => [Wrap(a.data[b], refShape[0])] + Source(refShape[1..], idx[1..], b, r)
  }

  lemma {:induction false} SourceInBounds(refShape: Shape, idx: seq<Entry<Array>>, b: nat, r: seq<nat>)
    requires |idx| == |refShape| && InBounds(Unindexed(refShape, Unpack(idx).dims), r)
    requires forall d :: 0 <= d < |idx| && idx[d].Idx? ==> b < |idx[d].operand.data|
    requires ValuesInRange(refShape, idx)
    ensures InBounds(refShape, Source(refShape, idx, b, r))
  {
    if idx != [] {
      SourceTail(refShape, idx, b);
      var r' := if idx[0].Full? then r[1..] else r;
      assert InBounds(Unindexed(refShape[1..], Unpack(idx[1..]).dims), r') by {
        if idx[0].Full? {
          assert forall d :: 0 <= d < |r'| ==> r'[d] == r[d + 1];
        }
      }
      SourceInBounds(refShape[1..], idx[1..], b, r');
      var tail := Source(refShape[1..], idx[1..], b, r');
      var x := if idx[0].Full? then r[0] else Wrap(idx[0].operand.data[b], refShape[0]);
      assert x < refShape[0];
      assert Source(refShape, idx, b, r) == [x] + tail;
      InBoundsCons(refShape, x, tail);
    }
  }

  lemma InBoundsCons(s: Shape, x: nat, i: seq<nat>)
    requires |s| > 0 && x < s[0] && InBounds(s[1..], i)
    ensures InBounds(s, [x] + i)
  {
    assert forall d :: 1 <= d < |s| ==> ([x] + i)[d] == i[d - 1] && s[d] == s[1..][d - 1];
  }

  /** What the recursion over the dimensions of `Source` needs to know about the remaining dimensions. */
  lemma SourceTail(refShape: Shape, idx: seq<Entry<Array>>, b: nat)
    requires |idx| == |refShape| > 0
    requires forall d :: 0 <= d < |idx| && idx[d].Idx? ==> b < |idx[d].operand.data|
    requires ValuesInRange(refShape, idx)
    ensures forall d :: 0 <= d < |idx[1..]| && idx[1..][d].Idx? ==> b < |idx[1..][d].operand.data|
    ensures ValuesInRange(refShape[1..], idx[1..])
    ensures Unindexed(refShape, Unpack(idx).dims) ==
            (if idx[0].Full? then [refShape[0]] else []) + Unindexed(refShape[1..], Unpack(idx[1..]).dims)
  {
    assert forall d :: 0 <= d < |idx[1..]| ==> idx[1..][d] == idx[d + 1] && refShape[1..][d] == refShape[d + 1];
    assert Unpack(idx).dims[1..] == Unpack(idx[1..]).dims;
  }

  /** The gather and the un-indexed multi-index are recovered from the reference multi-index. */
  lemma {:induction false} SourceInjective(refShape: Shape, idx: seq<Entry<Array>>, b: nat, r1: seq<nat>, r2: seq<nat>)
    requires |idx| == |refShape|
    requires |r1| == |Unindexed(refShape, Unpack(idx).dims)| == |r2|
    requires forall d :: 0 <= d < |idx| && idx[d].Idx? ==> b < |idx[d].operand.data|
    requires ValuesInRange(refShape, idx)
    requires Source(refShape, idx, b, r1) == Source(refShape, idx, b, r2)
    ensures r1 == r2
  {
    if idx != [] {
      var s1, s2 := Source(refShape, idx, b, r1), Source(refShape, idx, b, r2);
      if idx[0].Full? {
        assert s1[1..] == Source(refShape[1..], idx[1..], b, r1[1..]);
        assert s2[1..] == Source(refShape[1..], idx[1..], b, r2[1..]);
        SourceInjective(refShape[1..], idx[1..], b, r1[1..], r2[1..]);
        assert r1 == [r1[0]] + r1[1..] && r2 == [r2[0]] + r2[1..];
      } else {
        assert s1[1..] == Source(refShape[1..], idx[1..], b, r1);
        assert s2[1..] == Source(refShape[1..], idx[1..], b, r2);
        SourceInjective(refShape[1..], idx[1..], b, r1, r2);
      }
    }
  }

  /** With no index operand, the reference multi-index is the un-indexed one. */
  lemma {:induction false} SourceWhole(refShape: Shape, idx: seq<Entry<Array>>, b: nat, r: seq<nat>)
    requires |idx| == |refShape| && forall d :: 0 <= d < |idx| ==> idx[d] == Full
    requires |r| == |Unindexed(refShape, Unpack(idx).dims)|
    ensures ValuesInRange(refShape, idx) && Source(refShape, idx, b, r) == r
  {
    if idx != [] {
      SourceWhole(refShape[1..], idx[1..], b, r[1..]);
      assert r == [r[0]] + r[1..];
    }
  }

  /** The common shape of the index operands: the shape of the first one, or the empty shape when there is none. */
  function GatherShape(idx: seq<Entry<Array>>): Shape
  {
    var ns := Unpack(OperandShapes(idx)).nonSlice;
    if ns == [] then [] else ns[0]
  }

  lemma DimsAgree(idx: seq<Entry<Array>>)
    ensures Unpack(OperandShapes(idx)).dims == Unpack(idx).dims
  {
  }

  /** The position, among the non-slice operands, of the operand of dimension `d`. */
  lemma {:induction false} OperandPosition(idx: seq<Entry<Array>>, d: nat) returns (i: nat)
    requires d < |idx| && idx[d].Idx?
    ensures i < |Unpack(OperandShapes(idx)).nonSlice| && Unpack(OperandShapes(idx)).nonSlice[i] == idx[d].operand.shape
  {
    var os := OperandShapes(idx);
    assert os[1..] == OperandShapes(idx[1..]);
    var tail := Unpack(OperandShapes(idx[1..])).nonSlice;
    var head: seq<Shape> := if idx[0].Idx? then [idx[0].operand.shape] else [];
    assert Unpack(os).nonSlice == head + tail;
    if d == 0 {
      i := 0;
    } else {
      var j := OperandPosition(idx[1..], d - 1);
      i := |head| + j;
      assert (head + tail)[i] == tail[j];
    }
  }

  /** When the slice shape is defined, every index operand has the gather shape. */
  lemma OperandsShaped(refShape: Shape, idx: seq<Entry<Array>>)
    requires |idx| == |refShape| && SliceShape(refShape, OperandShapes(idx)).Ok?
    ensures forall d :: 0 <= d < |idx| && idx[d].Idx? ==> idx[d].operand.shape == GatherShape(idx)
    ensures SliceShape(refShape, OperandShapes(idx)).value == GatherShape(idx) + Unindexed(refShape, Unpack(idx).dims)
  {
    DimsAgree(idx);
    forall d | 0 <= d < |idx| && idx[d].Idx?
      ensures idx[d].operand.shape == GatherShape(idx)
    {
      var i := OperandPosition(idx, d);
    }
  }

  /** The flat reference position of element `k` of the selected slice. */
  function Location(refShape: Shape, idx: seq<Entry<Array>>, k: nat): (loc: nat)
    requires |idx| == |refShape| && SliceShape(refShape, OperandShapes(idx)).Ok? && ValuesInRange(refShape, idx)
    requires k < Product(SliceShape(refShape, OperandShapes(idx)).value)
    ensures loc < Product(refShape)
  {
    OperandsShaped(refShape, idx);
    var g := GatherShape(idx);
    var rest := Unindexed(refShape, Unpack(idx).dims);
    var pr := Product(rest);
    ProductAppend(g, rest);
    DivBound(k, Product(g), pr);
    var src := Source(refShape, idx, k / pr, Unflatten(rest, k % pr));
    SourceInBounds(refShape, idx, k / pr, Unflatten(rest, k % pr));
    OffsetBound(refShape, src);
    Offset(refShape, src)
  }

  /**
   * The flat reference position of every element of the selected slice, in
   * row-major order of the slice; `None` when the operands disagree in shape
   * or an index value is out of range.
   */
  function Locations(refShape: Shape, idx: seq<Entry<Array>>): (r: Option<seq<nat>>)
    requires |idx| == |refShape|
    ensures r.Some? <==> SliceShape(refShape, OperandShapes(idx)).Ok? && ValuesInRange(refShape, idx)
    ensures r.Some? ==> |r.value| == Product(SliceShape(refShape, OperandShapes(idx)).value)
    ensures r.Some? ==> forall k :: 0 <= k < |r.value| ==> r.value[k] == Location(refShape, idx, k)
  {
    var ss := SliceShape(refShape, OperandShapes(idx));
    if ss.Err? || !ValuesInRange(refShape, idx) then None
    else Some(seq(Product(ss.value), k requires 0 <= k < Product(ss.value) => Location(refShape, idx, k)))
  }

  /** The index that selects everything: it has no operand, selects the whole shape and addresses positions in order. */
  lemma {:induction false} WholeSetup(refShape: Shape)
    ensures OperandShapes(Fulls<Array>(|refShape|)) == Fulls(|refShape|)
    ensures SliceShape(refShape, OperandShapes(Fulls<Array>(|refShape|))) == Ok(refShape)
    ensures ValuesInRange(refShape, Fulls(|refShape|))
    ensures GatherShape(Fulls(|refShape|)) == []
    ensures Unindexed(refShape, Unpack(Fulls<Array>(|refShape|)).dims) == refShape
  {
    var idx := Fulls<Array>(|refShape|);
    OperandShapesWhole(idx);
    NoneIndexed(idx);
    NoneIndexed(Fulls<Shape>(|refShape|));
    WholeIndexShape(refShape);
    UnindexedNone(refShape, Unpack(idx).dims);
  }

  lemma LocationWhole(refShape: Shape, k: nat)
    requires k < Product(refShape)
    ensures SliceShape(refShape, OperandShapes(Fulls<Array>(|refShape|))) == Ok(refShape)
    ensures ValuesInRange(refShape, Fulls(|refShape|))
    ensures Location(refShape, Fulls(|refShape|), k) == k
  {
    WholeSetup(refShape);
    var idx := Fulls<Array>(|refShape|);
    SmallDiv(k, Product(refShape));
    SourceWhole(refShape, idx, 0, Unflatten(refShape, k));
    OffsetUnflatten(refShape, k);
  }

  /** The index that selects everything addresses every position once, in order. */
  lemma WholeLocations(refShape: Shape)
    ensures Locations(refShape, Fulls(|refShape|)) == Some(seq(Product(refShape), k => k))
  {
    WholeSetup(refShape);
    var locs := Locations(refShape, Fulls(|refShape|)).value;
    var ids := seq(Product(refShape), k => k);
    assert |locs| == |ids|;
    forall k | 0 <= k < Product(refShape)
      ensures locs[k] == ids[k]
    {
      LocationWhole(refShape, k);
    }
    assert locs == ids;
  }

  lemma OperandShapesWhole(idx: seq<Entry<Array>>)
    requires forall d :: 0 <= d < |idx| ==> idx[d] == Full
    ensures OperandShapes(idx) == Fulls(|idx|)
  {
  }

  /** When every index operand is a scalar, distinct slice positions address distinct reference positions. */
  lemma ScalarLocationsDistinct(refShape: Shape, idx: seq<Entry<Array>>)
    requires |idx| == |refShape| && Locations(refShape, idx).Some?
    requires forall d :: 0 <= d < |idx| && idx[d].Idx? ==> idx[d].operand.shape == []
    ensures Distinct(Locations(refShape, idx).value)
  {
    var locs := Locations(refShape, idx).value;
    forall k1, k2 | 0 <= k1 < |locs| && 0 <= k2 < |locs| && locs[k1] == locs[k2]
      ensures k1 == k2
    {
      var rest := Unindexed(refShape, Unpack(idx).dims);
      var r1 := ScalarLocation(refShape, idx, k1);
      var r2 := ScalarLocation(refShape, idx, k2);
      SourceOffsetInjective(refShape, idx, r1, r2);
      OffsetUnflatten(rest, k1);
      OffsetUnflatten(rest, k2);
    }
  }

  lemma SourceOffsetInjective(refShape: Shape, idx: seq<Entry<Array>>, r1: seq<nat>, r2: seq<nat>)
    requires |idx| == |refShape|
    requires |r1| == |Unindexed(refShape, Unpack(idx).dims)| == |r2|
    requires forall d :: 0 <= d < |idx| && idx[d].Idx? ==> 0 < |idx[d].operand.data|
    requires ValuesInRange(refShape, idx)
    requires InBounds(refShape, Source(refShape, idx, 0, r1)) && InBounds(refShape, Source(refShape, idx, 0, r2))
    requires Offset(refShape, Source(refShape, idx, 0, r1)) == Offset(refShape, Source(refShape, idx, 0, r2))
    ensures r1 == r2
  {
    UnflattenOffset(refShape, Source(refShape, idx, 0, r1));
    UnflattenOffset(refShape, Source(refShape, idx, 0, r2));
    SourceInjective(refShape, idx, 0, r1, r2);
  }

  /** With scalar operands only, slice element `k` is the un-indexed multi-index `Unflatten(rest, k)`. */
  lemma ScalarLocation(refShape: Shape, idx: seq<Entry<Array>>, k: nat) returns (r: seq<nat>)
    requires |idx| == |refShape| && SliceShape(refShape, OperandShapes(idx)).Ok? && ValuesInRange(refShape, idx)
    requires forall d :: 0 <= d < |idx| && idx[d].Idx? ==> idx[d].operand.shape == []
    requires k < Product(SliceShape(refShape, OperandShapes(idx)).value)
    ensures k < Product(Unindexed(refShape, Unpack(idx).dims))
    ensures r == Unflatten(Unindexed(refShape, Unpack(idx).dims), k)
    ensures forall d :: 0 <= d < |idx| && idx[d].Idx? ==> 0 < |idx[d].operand.data|
    ensures InBounds(refShape, Source(refShape, idx, 0, r))
    ensures Location(refShape, idx, k) == Offset(refShape, Source(refShape, idx, 0, r))
  {
    OperandsShaped(refShape, idx);
    var rest := Unindexed(refShape, Unpack(idx).dims);
    assert GatherShape(idx) == [] by {
      var ns := Unpack(OperandShapes(idx)).nonSlice;
      if ns != [] {
        var d := FirstOperand(idx);
      }
    }
    assert [] + rest == rest;
    SmallDiv(k, Product(rest));
    r := Unflatten(rest, k);
    SourceInBounds(refShape, idx, 0, r);
  }

  /** The first non-slice operand comes from some indexed dimension. */
  lemma {:induction false} FirstOperand(idx: seq<Entry<Array>>) returns (d: nat)
    requires Unpack(OperandShapes(idx)).nonSlice != []
    ensures d < |idx| && idx[d].Idx? && idx[d].operand.shape == Unpack(OperandShapes(idx)).nonSlice[0]
  {
    assert OperandShapes(idx)[1..] == OperandShapes(idx[1..]);
    if idx[0].Idx? {
      d := 0;
    } else {
      var e := FirstOperand(idx[1..]);
      d := e + 1;
    }
  }

  predicate Distinct(s: seq<nat>)
  {
    forall i, j :: 0 <= i < |s| && 0 <= j < |s| && s[i] == s[j] ==> i == j
  }

  /** Sequential element writes: the later of two writes to one position wins. */
  function ScatterSet(d: seq<int>, locs: seq<nat>, vals: seq<int>): (r: seq<int>)
    requires |locs| == |vals| && forall k :: 0 <= k < |locs| ==> locs[k] < |d|
    ensures |r| == |d|
    decreases |locs|
  {
    if locs == [] then d else ScatterSet(d[locs[0] := vals[0]], locs[1..], vals[1..])
  }

  /** Sequential element accumulations: every value is added into its position. */
  function ScatterAdd(d: seq<int>, locs: seq<nat>, vals: seq<int>): (r: seq<int>)
    requires |locs| == |vals| && forall k :: 0 <= k < |locs| ==> locs[k] < |d|
    ensures |r| == |d|
    decreases |locs|
  {
    if locs == [] then d else ScatterAdd(d[locs[0] := d[locs[0]] + vals[0]], locs[1..], vals[1..])
  }

  /** A position that no location names keeps its contents. */
  lemma {:induction false} ScatterSetUntouched(d: seq<int>, locs: seq<nat>, vals: seq<int>, j: nat)
    requires |locs| == |vals| && forall k :: 0 <= k < |locs| ==> locs[k] < |d|
    requires j < |d| && j !in locs
    ensures ScatterSet(d, locs, vals)[j] == d[j]
    decreases |locs|
  {
    if locs != [] {
      ScatterSetUntouched(d[locs[0] := vals[0]], locs[1..], vals[1..], j);
    }
  }

  /** With distinct locations, each location ends up holding its value, whatever it held before. */
  lemma {:induction false} ScatterSetWritten(d: seq<int>, locs: seq<nat>, vals: seq<int>, k: nat)
    requires |locs| == |vals| && forall i :: 0 <= i < |locs| ==> locs[i] < |d|
    requires Distinct(locs) && k < |locs|
    ensures ScatterSet(d, locs, vals)[locs[k]] == vals[k]
    decreases |locs|
  {
    var d' := d[locs[0] := vals[0]];
    if k == 0 {
      assert locs[0] !in locs[1..] by {
        forall i | 0 <= i < |locs[1..]| ensures locs[1..][i] != locs[0] {
          assert locs[1..][i] == locs[i + 1];
        }
      }
      ScatterSetUntouched(d', locs[1..], vals[1..], locs[0]);
    } else {
      assert Distinct(locs[1..]) by {
        forall i, j | 0 <= i < |locs[1..]| && 0 <= j < |locs[1..]| && locs[1..][i] == locs[1..][j]
          ensures i == j
        {
          assert locs[i + 1] == locs[j + 1];
        }
      }
      ScatterSetWritten(d', locs[1..], vals[1..], k - 1);
    }
  }

  /** Sum of the values whose location is `j`. */
  function SumAt(locs: seq<nat>, vals: seq<int>, j: nat): int
    requires |locs| == |vals|
  {
    if locs == [] then 0 else (if locs[0] == j then vals[0] else 0) + SumAt(locs[1..], vals[1..], j)
  }

  /** Accumulation adds into every position the sum of the values aimed at it. */
  lemma {:induction false} ScatterAddAt(d: seq<int>, locs: seq<nat>, vals: seq<int>, j: nat)
    requires |locs| == |vals| && forall k :: 0 <= k < |locs| ==> locs[k] < |d|
    requires j < |d|
    ensures ScatterAdd(d, locs, vals)[j] == d[j] + SumAt(locs, vals, j)
    decreases |locs|
  {
    if locs != [] {
      ScatterAddAt(d[locs[0] := d[locs[0]] + vals[0]], locs[1..], vals[1..], j);
    }
  }

  /** The slice of `a` that `idx` selects; `None` when the index does not fit `a`. */
  function ReadSlice(a: Array, idx: seq<Entry<Array>>): (r: Option<Array>)
    ensures r.Some? <==> |idx| == |a.shape| && Locations(a.shape, idx).Some?
    ensures r.Some? ==> r.value.shape == SliceShape(a.shape, OperandShapes(idx)).value
    ensures r.Some? ==> forall k :: 0 <= k < |r.value.data| ==>
              r.value.data[k] == a.data[Locations(a.shape, idx).value[k]]
  {
    if |idx| != |a.shape| then None
    else
      match Locations(a.shape, idx)
      case None => None
      case Some(locs) =>
        var s := SliceShape(a.shape, OperandShapes(idx)).value;
        assert forall k :: 0 <= k < |locs| ==> locs[k] < |a.data|;
        Some(ArrayRep(s, Gather(a.data, locs)))
  }

  /** The elements of `data` at positions `locs`, in order. */
  function Gather(data: seq<int>, locs: seq<nat>): (r: seq<int>)
    requires forall k :: 0 <= k < |locs| ==> locs[k] < |data|
    ensures |r| == |locs| && forall k :: 0 <= k < |locs| ==> r[k] == data[locs[k]]
  {
    seq(|locs|, k requires 0 <= k < |locs| => data[locs[k]])
  }

  /** `a` with the slice that `idx` selects replaced by `v`; `None` when the index does not fit or `v` has the wrong shape. */
  function WriteSlice(a: Array, idx: seq<Entry<Array>>, v: Array): (r: Option<Array>)
    ensures r.Some? <==> |idx| == |a.shape| && Locations(a.shape, idx).Some? &&
                         v.shape == SliceShape(a.shape, OperandShapes(idx)).value
    ensures r.Some? ==> r.value.shape == a.shape
  {
    if |idx| != |a.shape| then None
    else
      match Locations(a.shape, idx)
      case None => None
      case Some(locs) =>
        if v.shape != SliceShape(a.shape, OperandShapes(idx)).value then None
        else Some(ArrayRep(a.shape, ScatterSet(a.data, locs, v.data)))
  }

  /** `a` with `v` added into the slice that `idx` selects; `None` when the index does not fit or `v` has the wrong shape. */
  function AddSlice(a: Array, idx: seq<Entry<Array>>, v: Array): (r: Option<Array>)
    ensures r.Some? <==> |idx| == |a.shape| && Locations(a.shape, idx).Some? &&
                         v.shape == SliceShape(a.shape, OperandShapes(idx)).value
    ensures r.Some? ==> r.value.shape == a.shape
  {
    if |idx| != |a.shape| then None
    else
      match Locations(a.shape, idx)
      case None => None
      case Some(locs) =>
        if v.shape != SliceShape(a.shape, OperandShapes(idx)).value then None
        else Some(ArrayRep(a.shape, ScatterAdd(a.data, locs, v.data)))
  }

  /**
   * Writing a slice leaves every position outside the slice as it was, and,
   * when the slice's positions are distinct, puts each element of `v` at its
   * own position.
   */
  lemma WriteSliceContents(a: Array, idx: seq<Entry<Array>>, v: Array)
    requires WriteSlice(a, idx, v).Some?
    ensures forall j :: 0 <= j < |a.data| && j !in Locations(a.shape, idx).value ==>
              WriteSlice(a, idx, v).value.data[j] == a.data[j]
    ensures Distinct(Locations(a.shape, idx).value) ==>
              forall k :: 0 <= k < |Locations(a.shape, idx).value| ==>
                WriteSlice(a, idx, v).value.data[Locations(a.shape, idx).value[k]] == v.data[k]
  {
    var locs := Locations(a.shape, idx).value;
    var w := WriteSlice(a, idx, v).value;
    assert w.data == ScatterSet(a.data, locs, v.data);
    forall j | 0 <= j < |a.data| && j !in locs ensures w.data[j] == a.data[j] {
      ScatterSetUntouched(a.data, locs, v.data, j);
    }
    if Distinct(locs) {
      forall k | 0 <= k < |locs| ensures w.data[locs[k]] == v.data[k] {
        ScatterSetWritten(a.data, locs, v.data, k);
      }
    }
  }

  /** Accumulating into a slice adds to every position the sum of the elements of `v` aimed at it; positions outside the slice gain nothing. */
  lemma AddSliceContents(a: Array, idx: seq<Entry<Array>>, v: Array)
    requires AddSlice(a, idx, v).Some?
    ensures forall j :: 0 <= j < |a.data| ==>
              AddSlice(a, idx, v).value.data[j] == a.data[j] + SumAt(Locations(a.shape, idx).value, v.data, j)
  {
    var locs := Locations(a.shape, idx).value;
    var w := AddSlice(a, idx, v).value;
    assert w.data == ScatterAdd(a.data, locs, v.data);
    forall j | 0 <= j < |a.data| ensures w.data[j] == a.data[j] + SumAt(locs, v.data, j) {
      ScatterAddAt(a.data, locs, v.data, j);
    }
  }

  /** Reading with the whole-reference index is an identity copy. */
  lemma ReadWhole(a: Array)
    ensures ReadSlice(a, Fulls(|a.shape|)) == Some(a)
  {
    WholeLocations(a.shape);
    WholeSetup(a.shape);
    var r := ReadSlice(a, Fulls(|a.shape|)).value;
    assert |r.data| == |a.data|;
    forall k | 0 <= k < |r.data| ensures r.data[k] == a.data[k] {
    }
    assert r.data == a.data;
  }

  /** Writing with the whole-reference index replaces the contents, whatever they were. */
  lemma WriteWhole(a: Array, v: Array)
    requires v.shape == a.shape
    ensures WriteSlice(a, Fulls(|a.shape|), v) == Some(v)
  {
    WholeLocations(a.shape);
    WholeSetup(a.shape);
    var locs := seq(Product(a.shape), k => k);
    var r := ScatterSet(a.data, locs, v.data);
    assert WriteSlice(a, Fulls(|a.shape|), v) == Some(ArrayRep(a.shape, r));
    assert Distinct(locs);
    forall j | 0 <= j < |r| ensures r[j] == v.data[j] {
      ScatterSetWritten(a.data, locs, v.data, j);
    }
    assert r == v.data;
  }

  /** Accumulating with the whole-reference index adds elementwise. */
  lemma AddWhole(a: Array, v: Array)
    requires v.shape == a.shape
    ensures AddSlice(a, Fulls(|a.shape|), v).Some?
    ensures forall j :: 0 <= j < |a.data| ==> AddSlice(a, Fulls(|a.shape|), v).value.data[j] == a.data[j] + v.data[j]
  {
    WholeLocations(a.shape);
    WholeSetup(a.shape);
    var locs := seq(Product(a.shape), k => k);
    var r := ScatterAdd(a.data, locs, v.data);
    assert AddSlice(a, Fulls(|a.shape|), v) == Some(ArrayRep(a.shape, r));
    forall j | 0 <= j < |a.data|
      ensures r[j] == a.data[j] + v.data[j]
    {
      ScatterAddAt(a.data, locs, v.data, j);
      SumAtIdentity(|a.data|, 0, v.data, j);
      assert locs == seq(|a.data| - 0, k => 0 + k);
    }
  }

  /** In the identity locations starting at `from`, position `j` is hit once, by value `j - from`. */
  lemma {:induction false} SumAtIdentity(n: nat, from: nat, vals: seq<int>, j: nat)
    requires from <= n && |vals| == n - from && from <= j < n
    ensures SumAt(seq(n - from, k => from + k), vals, j) == vals[j - from]
    decreases n - from
  {
    var locs := seq(n - from, k => from + k);
    if j == from {
      var _ := SumAtZero(locs[1..], vals[1..], j);
    } else {
      assert locs[1..] == seq(n - (from + 1), k => from + 1 + k);
      SumAtIdentity(n, from + 1, vals[1..], j);
    }
  }

  /** No location in `locs` is `j`, so nothing is added there. */
  lemma {:induction false} SumAtZero(locs: seq<nat>, vals: seq<int>, j: nat) returns (ok: bool)
    requires |locs| == |vals| && forall k :: 0 <= k < |locs| ==> locs[k] > j
    ensures ok && SumAt(locs, vals, j) == 0
  {
    ok := true;
    if locs != [] {
      ok := SumAtZero(locs[1..], vals[1..], j);
    }
  }

  /** Reading back a slice that was just written gives the written value, when its positions are distinct. */
  lemma ReadAfterWrite(a: Array, idx: seq<Entry<Array>>, v: Array)
    requires WriteSlice(a, idx, v).Some? && Distinct(Locations(a.shape, idx).value)
    ensures ReadSlice(WriteSlice(a, idx, v).value, idx) == Some(v)
  {
    var w := WriteSlice(a, idx, v).value;
    var locs := Locations(a.shape, idx).value;
    assert w.data == ScatterSet(a.data, locs, v.data);
    var r := ReadSlice(w, idx).value;
    assert |r.data| == |v.data|;
    forall k | 0 <= k < |r.data| ensures r.data[k] == v.data[k] {
      ScatterSetWritten(a.data, locs, v.data, k);
    }
    assert r.data == v.data;
  }
}
