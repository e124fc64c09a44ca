/**
 * Abstract evaluation of the three state operators: what `get`, `swap` and
 * `addupdate` demand of their operands, the abstract values they produce
 * and the effect each one has on the reference it names.
 */
module Primitives {
  import opened Wrappers
  import opened Shapes
  import opened Indexing
  import opened Arrays
  import opened Program

  /** Why an operator rejects its operands. */
  datatype BindError =
    | NotARef                       // the first operand is a plain array, not a reference
    | BadIndex(reason: IndexError)  // too many index entries, or index operands of different shapes
    | ShapeMismatch                 // the value's shape is not the shape of the selected slice
    | DtypeMismatch                 // the value's element kind is not the reference's

  /** The abstract values an operator returns and the effects it has. */
  datatype Typed = Typed(outs: seq<Aval>, effects: set<Effect>)

  /** The shapes of the index operands. */
  function IndexShapes(idx: seq<Entry<Aval>>): (r: seq<Entry<Shape>>)
    ensures |r| == |idx|
    ensures forall d :: 0 <= d < |idx| ==> (r[d].Idx? <==> idx[d].Idx?)
    ensures forall d :: 0 <= d < |idx| && idx[d].Idx? ==> r[d].operand == idx[d].operand.shape
  {
    seq(|idx|, d requires 0 <= d < |idx| => match idx[d] case Full => Full case Idx(a) => Idx(a.shape))
  }

  /** The abstract value of the slice of reference `ref` that `idx` selects. */
  function SliceAval(ref: Type, idx: Indexer<Aval>): Result<Aval, BindError>
  {
    if !ref.Ref? then Err(NotARef)
    else
      match Expand(|ref.inner.shape|, idx)
      case Err(e) => Err(BadIndex(e))
      case Ok(full) =>
        match SliceShape(ref.inner.shape, IndexShapes(full))
        case Err(e) => Err(BadIndex(e))
        case Ok(s) => Ok(ShapedArray(s, ref.inner.dtype))
  }

  /**
   * `get` of the reference at parameter position `p`: one output, the slice's
   * value. A plain array, too many index entries and index operands of
   * different shapes are each rejected with their own reason.
   */
  function BindGet(p: nat, ref: Type, idx: Indexer<Aval>): (r: Result<Typed, BindError>)
    ensures !ref.Ref? ==> r == Err(NotARef)
    ensures ref.Ref? && Expand(|ref.inner.shape|, idx).Err? ==> r == Err(BadIndex(TooManyIndices))
    ensures ref.Ref? && Expand(|ref.inner.shape|, idx).Ok? && !IndexFits(ref, idx) ==> r == Err(BadIndex(MismatchedIndexShapes))
    ensures ref.Ref? && IndexFits(ref, idx) ==> r == Ok(Typed([ShapedArray(Selects(ref, idx), ref.inner.dtype)], {Read(p)}))
  {
    var a :- SliceAval(ref, idx);
    Ok(Typed([a], {Read(p)}))
  }

  /** The value stored by `swap` or `addupdate` must have the slice's shape and the reference's element kind. */
  function CheckValue(a: Aval, val: Aval): Result<Aval, BindError>
  {
    if val.shape != a.shape then Err(ShapeMismatch)
    else if val.dtype != a.dtype then Err(DtypeMismatch)
    else Ok(a)
  }

  /**
   * `swap`: stores `val` into the slice and returns the slice's old value. It
   * rejects what `get` rejects, then a value whose shape is not the slice's,
   * then a value whose element kind is not the reference's.
   */
  function BindSwap(p: nat, ref: Type, idx: Indexer<Aval>, val: Aval): (r: Result<Typed, BindError>)
    ensures !ref.Ref? ==> r == Err(NotARef)
    ensures ref.Ref? && Expand(|ref.inner.shape|, idx).Err? ==> r == Err(BadIndex(TooManyIndices))
    ensures ref.Ref? && Expand(|ref.inner.shape|, idx).Ok? && !IndexFits(ref, idx) ==> r == Err(BadIndex(MismatchedIndexShapes))
    ensures ref.Ref? && IndexFits(ref, idx) && val.shape != Selects(ref, idx) ==> r == Err(ShapeMismatch)
    ensures ref.Ref? && IndexFits(ref, idx) && val.shape == Selects(ref, idx) && val.dtype != ref.inner.dtype ==>
              r == Err(DtypeMismatch)
    ensures ref.Ref? && IndexFits(ref, idx) && val.shape == Selects(ref, idx) && val.dtype == ref.inner.dtype ==>
              r == Ok(Typed([ShapedArray(Selects(ref, idx), ref.inner.dtype)], {Write(p)}))
  {
    var a :- SliceAval(ref, idx);
    var _ :- CheckValue(a, val);
    Ok(Typed([a], {Write(p)}))
  }

  /** `addupdate`: adds `val` into the slice and returns nothing; it rejects exactly what `swap` rejects. */
  function BindAddUpdate(p: nat, ref: Type, idx: Indexer<Aval>, val: Aval): (r: Result<Typed, BindError>)
    ensures !ref.Ref? ==> r == Err(NotARef)
    ensures ref.Ref? && Expand(|ref.inner.shape|, idx).Err? ==> r == Err(BadIndex(TooManyIndices))
    ensures ref.Ref? && Expand(|ref.inner.shape|, idx).Ok? && !IndexFits(ref, idx) ==> r == Err(BadIndex(MismatchedIndexShapes))
    ensures ref.Ref? && IndexFits(ref, idx) && val.shape != Selects(ref, idx) ==> r == Err(ShapeMismatch)
    ensures ref.Ref? && IndexFits(ref, idx) && val.shape == Selects(ref, idx) && val.dtype != ref.inner.dtype ==>
              r == Err(DtypeMismatch)
    ensures ref.Ref? && IndexFits(ref, idx) && val.shape == Selects(ref, idx) && val.dtype == ref.inner.dtype ==>
              r == Ok(Typed([], {Accum(p)}))
  {
    var a :- SliceAval(ref, idx);
    var _ :- CheckValue(a, val);
    Ok(Typed([], {Accum(p)}))
  }

  /* ---------------------------------------------------------------- */
  /* Laws                                                              */

  /**
   * The index fits the reference: it has no more entries than the reference
   * has dimensions, and its index operands all have one shape.
   */
  predicate IndexFits(ref: Type, idx: Indexer<Aval>): (b: bool)
    requires ref.Ref?
    ensures b <==> Expand(|ref.inner.shape|, idx).Ok? &&
                   AllSame(Unpack(IndexShapes(Expand(|ref.inner.shape|, idx).value)).nonSlice)
  {
    match Expand(|ref.inner.shape|, idx)
    case Err(_) => false
    case Ok(full) =>
      SliceShapeLaw(ref.inner.shape, IndexShapes(full));
      SliceShape(ref.inner.shape, IndexShapes(full)).Ok?
  }

  /**
   * The shape of the slice a fitting index selects, in closed form: the
   * reference's shape when nothing is indexed, otherwise the common shape of
   * the index operands followed by the dimensions left un-indexed, in order.
   */
  function Selects(ref: Type, idx: Indexer<Aval>): (s: Shape)
    requires ref.Ref? && IndexFits(ref, idx)
    ensures var u := Unpack(IndexShapes(Expand(|ref.inner.shape|, idx).value));
            s == if CountTrue(u.dims) == 0 then ref.inner.shape else u.nonSlice[0] + Unindexed(ref.inner.shape, u.dims)
  {
    var full := Expand(|ref.inner.shape|, idx).value;
    SliceShapeLaw(ref.inner.shape, IndexShapes(full));
    SliceShape(ref.inner.shape, IndexShapes(full)).value
  }

  /** All three operators reject a first operand that is not a reference. */
  lemma RejectsNonRef(p: nat, ref: Type, idx: Indexer<Aval>, val: Aval)
    requires !ref.Ref?
    ensures BindGet(p, ref, idx) == Err(NotARef)
    ensures BindSwap(p, ref, idx, val) == Err(NotARef)
    ensures BindAddUpdate(p, ref, idx, val) == Err(NotARef)
  {
  }

  /** `get` succeeds exactly on a reference with a fitting index, returns one value of the slice shape and the reference's element kind, and only reads. */
  lemma GetLaw(p: nat, ref: Type, idx: Indexer<Aval>)
    ensures BindGet(p, ref, idx).Ok? <==> ref.Ref? && IndexFits(ref, idx)
    ensures BindGet(p, ref, idx).Ok? ==>
              BindGet(p, ref, idx).value.outs == [ShapedArray(Selects(ref, idx), ref.inner.dtype)] &&
              BindGet(p, ref, idx).value.effects == {Read(p)}
  {
  }

  /** `swap` succeeds exactly when `get` would and the value matches the slice in shape and element kind; it returns the slice's value and only writes. */
  lemma SwapLaw(p: nat, ref: Type, idx: Indexer<Aval>, val: Aval)
    ensures BindSwap(p, ref, idx, val).Ok? <==>
              ref.Ref? && IndexFits(ref, idx) && val.shape == Selects(ref, idx) && val.dtype == ref.inner.dtype
    ensures BindSwap(p, ref, idx, val).Ok? ==>
              BindSwap(p, ref, idx, val).value.outs == [ShapedArray(Selects(ref, idx), ref.inner.dtype)] &&
              BindSwap(p, ref, idx, val).value.effects == {Write(p)}
  {
  }

  /** `addupdate` accepts exactly what `swap` accepts, returns nothing, and only accumulates. */
  lemma AddUpdateLaw(p: nat, ref: Type, idx: Indexer<Aval>, val: Aval)
    ensures BindAddUpdate(p, ref, idx, val).Ok? <==> BindSwap(p, ref, idx, val).Ok?
    ensures BindAddUpdate(p, ref, idx, val).Ok? ==>
              BindAddUpdate(p, ref, idx, val).value.outs == [] &&
              BindAddUpdate(p, ref, idx, val).value.effects == {Accum(p)}
  {
  }

  /** A value of the right shape but another element kind is rejected as such, and a shape mismatch is reported first. */
  lemma ValueErrors(p: nat, ref: Type, idx: Indexer<Aval>, val: Aval)
    requires ref.Ref? && IndexFits(ref, idx)
    ensures val.shape != Selects(ref, idx) ==>
              BindSwap(p, ref, idx, val) == Err(ShapeMismatch) && BindAddUpdate(p, ref, idx, val) == Err(ShapeMismatch)
    ensures val.shape == Selects(ref, idx) && val.dtype != ref.inner.dtype ==>
              BindSwap(p, ref, idx, val) == Err(DtypeMismatch) && BindAddUpdate(p, ref, idx, val) == Err(DtypeMismatch)
  {
  }

  /** The effect each operator reports is the effect its equation has in a program. */
  lemma EffectsAgree(p: nat, ref: Type, idx: Indexer<Aval>, val: Aval, out: nat, iv: seq<Entry<Atom>>, v: Atom)
    ensures BindGet(p, ref, idx).Ok? ==> BindGet(p, ref, idx).value.effects == EqnEffects(Get(out, p, iv))
    ensures BindSwap(p, ref, idx, val).Ok? ==> BindSwap(p, ref, idx, val).value.effects == EqnEffects(Swap(Some(out), p, iv, v))
    ensures BindAddUpdate(p, ref, idx, val).Ok? ==> BindAddUpdate(p, ref, idx, val).value.effects == EqnEffects(AddUpdate(p, iv, v))
  {
  }

  /**
   * Abstract evaluation agrees with running the operators: for contents of
   * the reference's shape and index operands of the declared shapes, a read
   * that succeeds returns a value of the shape `get` declares, and a write
   * or accumulation is accepted at run time exactly when its value has the
   * shape `swap` and `addupdate` demand and the index values are in range.
   */
  lemma Sound(p: nat, ref: Type, idx: Indexer<Aval>, a: Array, iv: seq<Entry<Array>>, v: Array)
    requires ref.Ref? && a.shape == ref.inner.shape
    requires Expand(|a.shape|, idx).Ok? && OperandShapes(iv) == IndexShapes(Expand(|a.shape|, idx).value)
    ensures ReadSlice(a, iv).Some? ==>
              BindGet(p, ref, idx).Ok? && BindGet(p, ref, idx).value.outs == [ShapedArray(ReadSlice(a, iv).value.shape, ref.inner.dtype)]
    ensures WriteSlice(a, iv, v).Some? <==>
              BindSwap(p, ref, idx, ShapedArray(v.shape, ref.inner.dtype)).Ok? && ValuesInRange(a.shape, iv)
    ensures AddSlice(a, iv, v).Some? <==>
              BindAddUpdate(p, ref, idx, ShapedArray(v.shape, ref.inner.dtype)).Ok? && ValuesInRange(a.shape, iv)
  {
    assert |iv| == |a.shape|;
  }

  /** With `()` or `...`, the slice is the whole reference. */
  lemma WholeRef(ref: Type)
    requires ref.Ref?
    ensures IndexFits(ref, Ellipsis) && Selects(ref, Ellipsis) == ref.inner.shape
    ensures IndexFits(ref, Tuple([])) && Selects(ref, Tuple([])) == ref.inner.shape
  {
    var n := |ref.inner.shape|;
    var e: Indexer<Aval>, t: Indexer<Aval> := Ellipsis, Tuple([]);
    assert Expand(n, e).value == Fulls(n);
    assert Expand(n, t).value == Fulls(n);
    assert IndexShapes(Fulls<Aval>(n)) == Fulls(n);
    WholeIndexShape(ref.inner.shape);
  }
}
