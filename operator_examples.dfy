/**
 * The concrete operand checks the repository's tests make: the shape and
 * element kind `get`, `swap` and `addupdate` give or demand for each index
 * form, the operands they reject, and the printed form of each operator.
 */
module OperatorExamples {
  import opened Wrappers
  import opened Shapes
  import opened Indexing
  import opened Program
  import opened Primitives
  import opened Render

  const I32: Aval := ShapedArray([], Int32)
  const Pair: Aval := ShapedArray([2], Int32)

  function F32(s: Shape): Aval
  {
    ShapedArray(s, Float32)
  }

  function F32Ref(s: Shape): Type
  {
    Ref(F32(s))
  }

  /** With a slice of known value, the three operators' results. */
  lemma OperatorsOn(p: nat, ref: Type, idx: Indexer<Aval>, a: Aval, val: Aval)
    requires SliceAval(ref, idx) == Ok(a)
    ensures BindGet(p, ref, idx) == Ok(Typed([a], {Read(p)}))
    ensures BindSwap(p, ref, idx, val) ==
              if val.shape != a.shape then Err(ShapeMismatch)
              else if val.dtype != a.dtype then Err(DtypeMismatch)
              else Ok(Typed([a], {Write(p)}))
    ensures BindAddUpdate(p, ref, idx, val) ==
              if val.shape != a.shape then Err(ShapeMismatch)
              else if val.dtype != a.dtype then Err(DtypeMismatch)
              else Ok(Typed([], {Accum(p)}))
  {
  }

  /** `()` on a `(1, 2)` reference: the whole reference. */
  lemma WholeCase(t: DType)
    ensures SliceAval(Ref(ShapedArray([1, 2], t)), Tuple([])) == Ok(ShapedArray([1, 2], t))
  {
    WholeRef(Ref(ShapedArray([1, 2], t)));
  }

  /** The slice a fitting index selects, by the tests' own result-shape formula. */
  lemma SliceByRule(shape: Shape, t: DType, idx: Indexer<Aval>, full: seq<Entry<Aval>>, dims: seq<bool>, idxShape: Shape, out: Shape)
    requires |dims| == |shape|
    requires Expand(|shape|, idx) == Ok(full) && IndexShapes(full) == FlaggedIndex(dims, idxShape)
    requires TestOutShape(shape, dims, idxShape) == out
    ensures SliceAval(Ref(ShapedArray(shape, t)), idx) == Ok(ShapedArray(out, t))
  {
    TestRuleAgrees(shape, dims, idxShape);
  }

  /** `(:,)` on a `(1, 2)` reference: completed with a trailing slice, still the whole reference. */
  lemma SliceCase(t: DType)
    ensures SliceAval(Ref(ShapedArray([1, 2], t)), Tuple([Full])) == Ok(ShapedArray([1, 2], t))
  {
    var full: seq<Entry<Aval>> := [Full, Full];
    assert [Full] + Fulls<Aval>(1) == full;
    SliceByRule([1, 2], t, Tuple([Full]), full, [false, false], [], [1, 2]);
  }

  /** `(0,)` on a `(1, 2)` reference: `(2,)`. */
  lemma IndexCase(t: DType)
    ensures SliceAval(Ref(ShapedArray([1, 2], t)), Tuple([Idx(I32)])) == Ok(ShapedArray([2], t))
  {
    var full: seq<Entry<Aval>> := [Idx(I32), Full];
    assert [Idx(I32)] + Fulls<Aval>(1) == full;
    SliceByRule([1, 2], t, Tuple([Idx(I32)]), full, [true, false], [], [2]);
  }

  /** `(:, 0)` on a `(1, 2)` reference: `(1,)`. */
  lemma NonleadingCase(t: DType)
    ensures SliceAval(Ref(ShapedArray([1, 2], t)), Tuple([Full, Idx(I32)])) == Ok(ShapedArray([1], t))
  {
    var full: seq<Entry<Aval>> := [Full, Idx(I32)];
    assert full + Fulls<Aval>(0) == full;
    SliceByRule([1, 2], t, Tuple(full), full, [false, true], [], [1]);
  }

  /** `([0, 1],)` on a `(1, 2, 3, 4)` reference: `(2, 2, 3, 4)`. */
  lemma ArrayCase(t: DType)
    ensures SliceAval(Ref(ShapedArray([1, 2, 3, 4], t)), Tuple([Idx(Pair)])) == Ok(ShapedArray([2, 2, 3, 4], t))
  {
    var full: seq<Entry<Aval>> := [Idx(Pair), Full, Full, Full];
    assert [Idx(Pair)] + Fulls<Aval>(3) == full;
    SliceByRule([1, 2, 3, 4], t, Tuple([Idx(Pair)]), full, [true, false, false, false], [2], [2, 2, 3, 4]);
  }

  /** `([0, 1], [0, 1])` on a `(1, 3, 2, 4)` reference: `(2, 2, 4)`. */
  lemma TwoArrayCase(t: DType)
    ensures SliceAval(Ref(ShapedArray([1, 3, 2, 4], t)), Tuple([Idx(Pair), Idx(Pair)])) == Ok(ShapedArray([2, 2, 4], t))
  {
    var full: seq<Entry<Aval>> := [Idx(Pair), Idx(Pair), Full, Full];
    assert [Idx(Pair), Idx(Pair)] + Fulls<Aval>(2) == full;
    SliceByRule([1, 3, 2, 4], t, Tuple([Idx(Pair), Idx(Pair)]), full, [true, true, false, false], [2], [2, 2, 4]);
  }

  /** `(:, [0, 1], :, [0, 1])` on a `(1, 3, 2, 4)` reference: the index shape goes first, `(2, 1, 2)`. */
  lemma SplitArrayCase(t: DType)
    ensures SliceAval(Ref(ShapedArray([1, 3, 2, 4], t)), Tuple([Full, Idx(Pair), Full, Idx(Pair)])) == Ok(ShapedArray([2, 1, 2], t))
  {
    var full: seq<Entry<Aval>> := [Full, Idx(Pair), Full, Idx(Pair)];
    assert full + Fulls<Aval>(0) == full;
    SliceByRule([1, 3, 2, 4], t, Tuple(full), full, [false, true, false, true], [2], [2, 1, 2]);
  }

  /* ---------------------------------------------------------------- */
  /* The operator tables                                               */

  /** `get`: the shape of the slice for each index form, with the reference's element kind and one read effect. */
  lemma GetCases()
    ensures BindGet(0, F32Ref([1, 2]), Tuple([])) == Ok(Typed([F32([1, 2])], {Read(0)}))
    ensures BindGet(0, F32Ref([1, 2]), Tuple([Idx(I32)])) == Ok(Typed([F32([2])], {Read(0)}))
    ensures BindGet(0, F32Ref([1, 2]), Tuple([Full, Idx(I32)])) == Ok(Typed([F32([1])], {Read(0)}))
    ensures BindGet(0, F32Ref([1, 2, 3, 4]), Tuple([Idx(Pair)])) == Ok(Typed([F32([2, 2, 3, 4])], {Read(0)}))
    ensures BindGet(0, F32Ref([1, 3, 2, 4]), Tuple([Idx(Pair), Idx(Pair)])) == Ok(Typed([F32([2, 2, 4])], {Read(0)}))
    ensures BindGet(0, F32Ref([1, 3, 2, 4]), Tuple([Full, Idx(Pair), Full, Idx(Pair)])) == Ok(Typed([F32([2, 1, 2])], {Read(0)}))
  {
    var v := F32([]);
    WholeCase(Float32);
    OperatorsOn(0, F32Ref([1, 2]), Tuple([]), F32([1, 2]), v);
    IndexCase(Float32);
    OperatorsOn(0, F32Ref([1, 2]), Tuple([Idx(I32)]), F32([2]), v);
    NonleadingCase(Float32);
    OperatorsOn(0, F32Ref([1, 2]), Tuple([Full, Idx(I32)]), F32([1]), v);
    ArrayCase(Float32);
    OperatorsOn(0, F32Ref([1, 2, 3, 4]), Tuple([Idx(Pair)]), F32([2, 2, 3, 4]), v);
    TwoArrayCase(Float32);
    OperatorsOn(0, F32Ref([1, 3, 2, 4]), Tuple([Idx(Pair), Idx(Pair)]), F32([2, 2, 4]), v);
    SplitArrayCase(Float32);
    OperatorsOn(0, F32Ref([1, 3, 2, 4]), Tuple([Full, Idx(Pair), Full, Idx(Pair)]), F32([2, 1, 2]), v);
  }

  /** `swap` and `addupdate` reject a value whose shape is not the slice's, and a value of another element kind. */
  lemma RejectedValues()
    ensures BindSwap(0, F32Ref([1, 2]), Tuple([]), F32([2])) == Err(ShapeMismatch)
    ensures BindAddUpdate(0, F32Ref([1, 2]), Tuple([]), F32([2])) == Err(ShapeMismatch)
    ensures BindSwap(0, F32Ref([1, 2]), Tuple([Full]), F32([2])) == Err(ShapeMismatch)
    ensures BindAddUpdate(0, F32Ref([1, 2]), Tuple([Full]), F32([2])) == Err(ShapeMismatch)
    ensures BindSwap(0, Ref(ShapedArray([1, 2], Int32)), Tuple([]), F32([1, 2])) == Err(DtypeMismatch)
    ensures BindAddUpdate(0, Ref(ShapedArray([1, 2], Int32)), Tuple([]), F32([1, 2])) == Err(DtypeMismatch)
    ensures BindSwap(0, F32Ref([1, 2]), Tuple([Full, Idx(I32)]), F32([2])) == Err(ShapeMismatch)
    ensures BindAddUpdate(0, F32Ref([1, 2]), Tuple([Full, Idx(I32)]), F32([2])) == Err(ShapeMismatch)
  {
    WholeCase(Float32);
    OperatorsOn(0, F32Ref([1, 2]), Tuple([]), F32([1, 2]), F32([2]));
    SliceCase(Float32);
    OperatorsOn(0, F32Ref([1, 2]), Tuple([Full]), F32([1, 2]), F32([2]));
    WholeCase(Int32);
    OperatorsOn(0, Ref(ShapedArray([1, 2], Int32)), Tuple([]), ShapedArray([1, 2], Int32), F32([1, 2]));
    NonleadingCase(Float32);
    OperatorsOn(0, F32Ref([1, 2]), Tuple([Full, Idx(I32)]), F32([1]), F32([2]));
  }

  /** `swap` accepts a value of the slice's shape and returns the slice's old value, with one write effect. */
  lemma SwapCases()
    ensures BindSwap(0, F32Ref([1, 2]), Tuple([]), F32([1, 2])) == Ok(Typed([F32([1, 2])], {Write(0)}))
    ensures BindSwap(0, F32Ref([1, 2]), Tuple([Idx(I32)]), F32([2])) == Ok(Typed([F32([2])], {Write(0)}))
    ensures BindSwap(0, F32Ref([1, 2]), Tuple([Full, Idx(I32)]), F32([1])) == Ok(Typed([F32([1])], {Write(0)}))
    ensures BindSwap(0, F32Ref([1, 2, 3, 4]), Tuple([Idx(Pair)]), F32([2, 2, 3, 4])) == Ok(Typed([F32([2, 2, 3, 4])], {Write(0)}))
    ensures BindSwap(0, F32Ref([1, 3, 2, 4]), Tuple([Idx(Pair), Idx(Pair)]), F32([2, 2, 4])) == Ok(Typed([F32([2, 2, 4])], {Write(0)}))
    ensures BindSwap(0, F32Ref([1, 3, 2, 4]), Tuple([Full, Idx(Pair), Full, Idx(Pair)]), F32([2, 1, 2])) ==
              Ok(Typed([F32([2, 1, 2])], {Write(0)}))
  {
    WholeCase(Float32);
    OperatorsOn(0, F32Ref([1, 2]), Tuple([]), F32([1, 2]), F32([1, 2]));
    IndexCase(Float32);
    OperatorsOn(0, F32Ref([1, 2]), Tuple([Idx(I32)]), F32([2]), F32([2]));
    NonleadingCase(Float32);
    OperatorsOn(0, F32Ref([1, 2]), Tuple([Full, Idx(I32)]), F32([1]), F32([1]));
    ArrayCase(Float32);
    OperatorsOn(0, F32Ref([1, 2, 3, 4]), Tuple([Idx(Pair)]), F32([2, 2, 3, 4]), F32([2, 2, 3, 4]));
    TwoArrayCase(Float32);
    OperatorsOn(0, F32Ref([1, 3, 2, 4]), Tuple([Idx(Pair), Idx(Pair)]), F32([2, 2, 4]), F32([2, 2, 4]));
    SplitArrayCase(Float32);
    OperatorsOn(0, F32Ref([1, 3, 2, 4]), Tuple([Full, Idx(Pair), Full, Idx(Pair)]), F32([2, 1, 2]), F32([2, 1, 2]));
  }

  /** `addupdate` accepts the same values, returns nothing, and has one accumulation effect. */
  lemma AddUpdateCases()
    ensures BindAddUpdate(0, F32Ref([1, 2]), Tuple([]), F32([1, 2])) == Ok(Typed([], {Accum(0)}))
    ensures BindAddUpdate(0, F32Ref([1, 2]), Tuple([Idx(I32)]), F32([2])) == Ok(Typed([], {Accum(0)}))
    ensures BindAddUpdate(0, F32Ref([1, 2]), Tuple([Full, Idx(I32)]), F32([1])) == Ok(Typed([], {Accum(0)}))
    ensures BindAddUpdate(0, F32Ref([1, 2, 3, 4]), Tuple([Idx(Pair)]), F32([2, 2, 3, 4])) == Ok(Typed([], {Accum(0)}))
    ensures BindAddUpdate(0, F32Ref([1, 3, 2, 4]), Tuple([Idx(Pair), Idx(Pair)]), F32([2, 2, 4])) == Ok(Typed([], {Accum(0)}))
    ensures BindAddUpdate(0, F32Ref([1, 3, 2, 4]), Tuple([Full, Idx(Pair), Full, Idx(Pair)]), F32([2, 1, 2])) ==
              Ok(Typed([], {Accum(0)}))
  {
    WholeCase(Float32);
    OperatorsOn(0, F32Ref([1, 2]), Tuple([]), F32([1, 2]), F32([1, 2]));
    IndexCase(Float32);
    OperatorsOn(0, F32Ref([1, 2]), Tuple([Idx(I32)]), F32([2]), F32([2]));
    NonleadingCase(Float32);
    OperatorsOn(0, F32Ref([1, 2]), Tuple([Full, Idx(I32)]), F32([1]), F32([1]));
    ArrayCase(Float32);
    OperatorsOn(0, F32Ref([1, 2, 3, 4]), Tuple([Idx(Pair)]), F32([2, 2, 3, 4]), F32([2, 2, 3, 4]));
    TwoArrayCase(Float32);
    OperatorsOn(0, F32Ref([1, 3, 2, 4]), Tuple([Idx(Pair), Idx(Pair)]), F32([2, 2, 4]), F32([2, 2, 4]));
    SplitArrayCase(Float32);
    OperatorsOn(0, F32Ref([1, 3, 2, 4]), Tuple([Full, Idx(Pair), Full, Idx(Pair)]), F32([2, 1, 2]), F32([2, 1, 2]));
  }

  /** A plain `()`-shaped array in the reference position is rejected by all three operators. */
  lemma NotARefCases()
    ensures BindGet(0, Value(F32([])), Tuple([])) == Err(NotARef)
    ensures BindSwap(0, Value(F32([])), Tuple([]), F32([])) == Err(NotARef)
    ensures BindAddUpdate(0, Value(F32([])), Tuple([]), F32([])) == Err(NotARef)
  {
    RejectsNonRef(0, Value(F32([])), Tuple([]), F32([]));
  }

  /* ---------------------------------------------------------------- */
  /* Printed forms                                                     */

  const ColumnZero: seq<Entry<Atom>> := [Full, Idx(Lit(0, Int32))]

  lemma FirstNames()
    ensures VarName(0) == "a" && VarName(1) == "b" && VarName(2) == "c"
  {
  }

  lemma Indices()
    ensures RenderIndex([]) == "[]"
    ensures RenderIndex(ColumnZero) == "[:,0]"
  {
    assert EntryStrings([]) == [];
    assert IntToString(0) == "0";
    assert EntryStrings(ColumnZero) == [":", "0"];
    assert Join([":", "0"], ',') == ":" + [','] + "0";
  }

  lemma Avals()
    ensures RenderAval(ShapedArray([], Int32)) == "i32[]"
    ensures RenderAval(ShapedArray([1], Int32)) == "i32[1]"
  {
    assert NatToString(1) == "1";
    assert seq(1, d requires 0 <= d < 1 => NatToString([1][d])) == ["1"];
  }

  lemma Decls()
    ensures Decl(1, map[1 := ShapedArray([], Int32)]) == "b:i32[]"
    ensures Decl(1, map[1 := ShapedArray([1], Int32)]) == "b:i32[1]"
    ensures Decl(2, map[2 := ShapedArray([1], Int32)]) == "c:i32[1]"
  {
    FirstNames();
    Avals();
  }

  lemma Slices()
    ensures RefSlice(0, []) == "a[]" && RefSlice(0, ColumnZero) == "a[:,0]"
  {
    FirstNames();
    Indices();
  }

  /** `get`: `b:i32[] <- a[]` and `b:i32[1] <- a[:,0]`. */
  lemma GetPrinted()
    ensures RenderStateEqn(Get(1, 0, []), map[1 := ShapedArray([], Int32)]) == "b:i32[] <- a[]"
    ensures RenderStateEqn(Get(1, 0, ColumnZero), map[1 := ShapedArray([1], Int32)]) == "b:i32[1] <- a[:,0]"
  {
    Decls();
    Slices();
  }

  /** A write whose old value is dropped: `a[] <- 2` and `a[:,0] <- b`. */
  lemma SetPrinted()
    ensures RenderStateEqn(Swap(None, 0, [], Lit(2, Int32)), map[]) == "a[] <- 2"
    ensures RenderStateEqn(Swap(None, 0, ColumnZero, Var(1)), map[]) == "a[:,0] <- b"
  {
    FirstNames();
    Slices();
    assert IntToString(2) == "2";
  }

  /** `swap` on a scalar reference: `b:i32[], a[] <- a[], 2`. */
  lemma SwapPrinted()
    ensures RenderStateEqn(Swap(Some(1), 0, [], Lit(2, Int32)), map[1 := ShapedArray([], Int32)]) == "b:i32[], a[] <- a[], 2"
  {
    Decls();
    Slices();
    assert IntToString(2) == "2";
  }

  /** `swap` on a column: `c:i32[1], a[:,0] <- a[:,0], b`. */
  lemma SwapColumnPrinted()
    ensures RenderStateEqn(Swap(Some(2), 0, ColumnZero, Var(1)), map[2 := ShapedArray([1], Int32)]) == "c:i32[1], a[:,0] <- a[:,0], b"
  {
    FirstNames();
    Decls();
    Slices();
  }

  /** `addupdate`: `a[] += 2` and `a[:,0] += b`. */
  lemma AddUpdatePrinted()
    ensures RenderStateEqn(AddUpdate(0, [], Lit(2, Int32)), map[]) == "a[] += 2"
    ensures RenderStateEqn(AddUpdate(0, ColumnZero, Var(1)), map[]) == "a[:,0] += b"
  {
    FirstNames();
    Slices();
    assert IntToString(2) == "2";
  }
}
