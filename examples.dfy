/**
 * The concrete cases the repository's tests check, stated on the model:
 * result shapes and rejected operands of the three operators, runs of small
 * programs before and after discharge, `run_state` with conditionals, and the
 * printed form of each operator.
 */
module Examples {
  import opened Wrappers
  import opened Shapes
  import opened Indexing
  import opened Arrays
  import opened Program
  import opened Discharge
  import opened DischargeProof
  import opened StateRun
  import opened Primitives
  import opened Render

  /* ---------------------------------------------------------------- */
  /* Steps on scalar references, indexed with `()`                     */

  lemma GetStep(o: nat, r: nat, st: State, st': State)
    requires r in st.heap && st.heap[r].shape == []
    requires st' == State(st.env[o := st.heap[r]], st.heap)
    ensures ExecEqn(Get(o, r, []), st) == Some(st')
  {
    ReadWhole(st.heap[r]);
    assert Fulls<Array>(0) == [];
  }

  lemma SetStep(r: nat, v: Atom, x: int, st: State, st': State)
    requires r in st.heap && st.heap[r].shape == [] && EvalAtom(st.env, v) == Some(Scalar(x))
    requires st' == State(st.env, st.heap[r := Scalar(x)])
    ensures ExecEqn(Swap(None, r, [], v), st) == Some(st')
  {
    ReadWhole(st.heap[r]);
    WriteWhole(st.heap[r], Scalar(x));
    assert Fulls<Array>(0) == [];
  }

  lemma AddStep(r: nat, v: Atom, c: int, x: int, st: State, st': State)
    requires r in st.heap && st.heap[r] == Scalar(c) && EvalAtom(st.env, v) == Some(Scalar(x))
    requires st' == State(st.env, st.heap[r := Scalar(c + x)])
    ensures ExecEqn(AddUpdate(r, [], v), st) == Some(st')
  {
    ScalarAdd(c, x);
    WholeAddForm(r, v, Scalar(x), Scalar(c + x), st);
  }

  lemma ScalarAdd(c: int, x: int)
    ensures AddSlice(Scalar(c), [], Scalar(x)) == Some(Scalar(c + x))
  {
    AddWhole(Scalar(c), Scalar(x));
    assert Fulls<Array>(0) == [];
    var w := AddSlice(Scalar(c), [], Scalar(x)).value;
    assert w.data == [c + x];
  }

  lemma WholeAddForm(r: nat, v: Atom, x: Array, w: Array, st: State)
    requires r in st.heap && EvalAtom(st.env, v) == Some(x) && AddSlice(st.heap[r], [], x) == Some(w)
    ensures ExecEqn(AddUpdate(r, [], v), st) == Some(State(st.env, st.heap[r := w]))
  { }

  lemma BinStep(o: nat, op: BinOp, x: Atom, y: Atom, a: int, b: int, st: State, st': State)
    requires EvalAtom(st.env, x) == Some(Scalar(a)) && EvalAtom(st.env, y) == Some(Scalar(b))
    requires st' == State(st.env[o := Scalar(ApplyOp(op, a, b))], st.heap)
    ensures ExecEqn(Binary(o, op, x, y), st) == Some(st')
  {
    var r := ApplyBinary(op, Scalar(a), Scalar(b)).value;
    assert r.data == [ApplyOp(op, a, b)];
  }

  /** Running a list of equations through the given intermediate states, one per step. */
  lemma {:induction false} ExecSteps(es: seq<Eqn>, sts: seq<State>)
    requires |sts| == |es| + 1
    requires forall i :: 0 <= i < |es| ==> ExecEqn(es[i], sts[i]) == Some(sts[i + 1])
    ensures ExecEqns(es, sts[0]) == Some(sts[|es|])
  {
    if es != [] {
      assert forall i :: 0 <= i < |es[1..]| ==> es[1..][i] == es[i + 1] && sts[1..][i] == sts[i + 1];
      ExecSteps(es[1..], sts[1..]);
    }
  }

  lemma ExecTwo(e0: Eqn, e1: Eqn, s0: State, s1: State, s2: State)
    requires ExecEqn(e0, s0) == Some(s1) && ExecEqn(e1, s1) == Some(s2)
    ensures ExecEqns([e0, e1], s0) == Some(s2)
  {
    ExecSteps([e0, e1], [s0, s1, s2]);
  }

  lemma ExecThree(e0: Eqn, e1: Eqn, e2: Eqn, s0: State, s1: State, s2: State, s3: State)
    requires ExecEqn(e0, s0) == Some(s1) && ExecEqn(e1, s1) == Some(s2) && ExecEqn(e2, s2) == Some(s3)
    ensures ExecEqns([e0, e1, e2], s0) == Some(s3)
  {
    ExecTwo(e0, e1, s0, s1, s2);
    ExecOne(e2, s2, s3);
    ExecAppend([e0, e1], [e2], s0);
    assert [e0, e1] + [e2] == [e0, e1, e2];
  }

  lemma ExecFour(e0: Eqn, e1: Eqn, e2: Eqn, e3: Eqn, s0: State, s1: State, s2: State, s3: State, s4: State)
    requires ExecEqn(e0, s0) == Some(s1) && ExecEqn(e1, s1) == Some(s2)
    requires ExecEqn(e2, s2) == Some(s3) && ExecEqn(e3, s3) == Some(s4)
    ensures ExecEqns([e0, e1, e2, e3], s0) == Some(s4)
  {
    ExecTwo(e0, e1, s0, s1, s2);
    ExecTwo(e2, e3, s2, s3, s4);
    ExecAppend([e0, e1], [e2, e3], s0);
    assert [e0, e1] + [e2, e3] == [e0, e1, e2, e3];
  }

  /** Two pieces run one after the other. */
  lemma ExecThen(a: seq<Eqn>, b: seq<Eqn>, s0: State, s1: State, s2: State)
    requires ExecEqns(a, s0) == Some(s1) && ExecEqns(b, s1) == Some(s2)
    ensures ExecEqns(a + b, s0) == Some(s2)
  {
    ExecAppend(a, b, s0);
  }

  lemma WfAppend(a: seq<Eqn>, b: seq<Eqn>, n: nat, refs: set<nat>)
    requires WfEqns(a, n, refs) && WfEqns(b, n, refs)
    ensures WfEqns(a + b, n, refs)
  {
    assert forall k :: 0 <= k < |a + b| ==> (a + b)[k] == if k < |a| then a[k] else b[k - |a|];
  }

  /** A run, from its initial state, its equations' final state and its outputs there. */
  lemma RunIs(p: Jaxpr, args: seq<Array>, s0: State, s1: State, outs: seq<Array>)
    requires |args| == |p.params| && InitState(p.params, args) == s0
    requires ExecEqns(p.eqns, s0) == Some(s1) && EvalAtoms(s1.env, p.outs) == Some(outs)
    ensures Run(p, args) == Some(Outcome(outs, s1.heap))
  {
  }

  /** Initial states for the parameter lists of the examples. */
  lemma InitRef(t: Aval, a: Array)
    ensures InitState([Ref(t)], [a]) == State(map[], map[0 := a])
  {
  }

  lemma InitRefs(t: Aval, u: Aval, a: Array, b: Array)
    ensures InitState([Ref(t), Ref(u)], [a, b]) == State(map[], map[0 := a, 1 := b])
  {
  }

  lemma InitValueRef(t: Aval, u: Aval, a: Array, b: Array)
    ensures InitState([Value(t), Ref(u)], [a, b]) == State(map[0 := a], map[1 := b])
  {
  }

  lemma InitValueRefs(t: Aval, u: Aval, a: Array, b: Array, c: Array)
    ensures InitState([Value(t), Ref(u), Ref(u)], [a, b, c]) == State(map[0 := a], map[1 := b, 2 := c])
  {
  }

  lemma InitValueThreeRefs(t: Aval, u: Aval, a: Array, b: Array, c: Array, d: Array)
    ensures InitState([Value(t), Ref(u), Ref(u), Ref(u)], [a, b, c, d]) == State(map[0 := a], map[1 := b, 2 := c, 3 := d])
  {
  }

  lemma InitRefValue(t: Aval, u: Aval, a: Array, b: Array)
    ensures InitState([Ref(t), Value(u)], [a, b]) == State(map[1 := b], map[0 := a])
  {
  }

  /** A branch that runs to `s1` and returns `vals`. */
  lemma BranchRun(b: Branch, st: State, s1: State, vals: seq<Array>)
    requires ExecEqns(b.eqns, st) == Some(s1) && EvalAtoms(s1.env, b.results) == Some(vals)
    ensures ExecBranch(b, st) == Some((s1, vals))
  {
  }

  /** A conditional on a scalar predicate runs the chosen branch and binds its results around it. */
  lemma CondStep(pred: Atom, outs: seq<nat>, tb: Branch, eb: Branch, st: State, c: int, s1: State, vals: seq<Array>, st': State)
    requires EvalAtom(st.env, pred) == Some(Scalar(c)) && |vals| == |outs|
    requires ExecBranch(if c != 0 then tb else eb, st) == Some((s1, vals))
    requires st' == State(BindAll(st.env, outs, vals), s1.heap)
    ensures ExecEqn(Cond(pred, outs, tb, eb), st) == Some(st')
  {
  }

  lemma ExecOne(e: Eqn, s0: State, s1: State)
    requires ExecEqn(e, s0) == Some(s1)
    ensures ExecEqns([e], s0) == Some(s1)
  {
    ExecSteps([e], [s0, s1]);
  }

  lemma BindOne(env: Env, o: nat, v: Array)
    ensures BindAll(env, [o], [v]) == env[o := v]
  {
    assert [o][1..] == [] && [v][1..] == [];
  }

  lemma EvalNone(env: Env)
    ensures EvalAtoms(env, []) == Some([])
  {
  }

  lemma EvalOne(env: Env, a: Atom, x: Array)
    requires EvalAtom(env, a) == Some(x)
    ensures EvalAtoms(env, [a]) == Some([x])
  {
    assert [a][1..] == [];
    assert EvalAtoms(env, []) == Some([]);
    assert [x] + [] == [x];
  }

  /** What the discharged program returns, from a run of the original. */
  lemma Discharged(p: Jaxpr, sel: seq<bool>, args: seq<Array>, outs: seq<Array>, heap: map<nat, Array>)
    requires WellFormed(p) && Run(p, args) == Some(Outcome(outs, heap))
    ensures Run(DischargeState(p, sel), args) ==
              Some(Outcome(outs + Finals(heap, Selected(p, sel)), heap - (set d | d in Selected(p, sel))))
  {
    DischargeCorrect(p, sel, args);
  }

  /** What `run_state` returns, from a run of its body. */
  lemma RunStateOf(p: Jaxpr, args: seq<Array>, h: map<nat, Array>, all: seq<Array>)
    requires WellFormed(p) && Run(p, args) == Some(Outcome([], h)) && Finals(h, Selected(p, AllRefs(p))) == all
    ensures RunState(p, args) == Some(all)
  {
    RunStateCorrect(p, args);
    assert [] + all == all;
  }

  lemma FinalsOne(h: map<nat, Array>, d: nat)
    requires d in h
    ensures Finals(h, [d]) == [h[d]]
  {
  }

  lemma FinalsTwo(h: map<nat, Array>, d0: nat, d1: nat)
    requires d0 in h && d1 in h
    ensures Finals(h, [d0, d1]) == [h[d0], h[d1]]
  {
    var r := Finals(h, [d0, d1]);
    assert |r| == 2 && r[0] == h[d0] && r[1] == h[d1];
  }

  lemma FinalsThree(h: map<nat, Array>, d0: nat, d1: nat, d2: nat)
    requires d0 in h && d1 in h && d2 in h
    ensures Finals(h, [d0, d1, d2]) == [h[d0], h[d1], h[d2]]
  {
    var r := Finals(h, [d0, d1, d2]);
    assert |r| == 3 && r[0] == h[d0] && r[1] == h[d1] && r[2] == h[d2];
  }

  const F32Scalar := ShapedArray([], Float32)
  const BoolScalar := ShapedArray([], Bool)
  const I32Scalar := ShapedArray([], Int32)

  /* ---------------------------------------------------------------- */
  /* Discharging a read: `a = a_ref[()]; return [a + 1]`, from 1       */

  function GetProgram(): Jaxpr
  {
    Jaxpr([Ref(F32Scalar)], [Get(1, 0, []), Binary(2, AddOp, Var(1), Lit(1, Float32))], [Var(2)])
  }

  lemma GetRun(x: int)
    ensures Run(GetProgram(), [Scalar(x)]) == Some(Outcome([Scalar(x + 1)], map[0 := Scalar(x)]))
  {
    var p := GetProgram();
    var s0 := State(map[], map[0 := Scalar(x)]);
    InitRef(F32Scalar, Scalar(x));
    var s1 := State(s0.env[1 := Scalar(x)], s0.heap);
    GetStep(1, 0, s0, s1);
    var s2 := State(s1.env[2 := Scalar(x + 1)], s0.heap);
    BinStep(2, AddOp, Var(1), Lit(1, Float32), x, 1, s1, s2);
    ExecTwo(Get(1, 0, []), Binary(2, AddOp, Var(1), Lit(1, Float32)), s0, s1, s2);
    EvalOne(s2.env, Var(2), Scalar(x + 1));
    RunIs(p, [Scalar(x)], s0, s2, [Scalar(x + 1)]);
  }

  lemma GetWellFormed()
    ensures WellFormed(GetProgram())
  {
  }

  lemma GetSelected()
    ensures Selected(GetProgram(), [true]) == [0]
  {
  }

  /** One value parameter in, the result and the final contents out. */
  lemma DischargeGetSignature()
    ensures DischargeState(GetProgram(), [true]).params == [Value(F32Scalar)]
    ensures |DischargeState(GetProgram(), [true]).outs| == 2
  {
    GetSelected();
    DischargeSignature(GetProgram(), [true]);
  }

  lemma Two<T>(a: T, b: T)
    ensures [a] + [b] == [a, b]
  {
  }

  /** Discharging the one reference of a program: its final contents become one more output. */
  lemma DischargedOne(p: Jaxpr, sel: seq<bool>, args: seq<Array>, outs: seq<Array>, d: nat, v: Array, all: seq<Array>)
    requires WellFormed(p) && Run(p, args) == Some(Outcome(outs, map[d := v])) && Selected(p, sel) == [d] && all == outs + [v]
    ensures Run(DischargeState(p, sel), args) == Some(Outcome(all, map[]))
  {
    DischargeCorrect(p, sel, args);
    assert Finals(map[d := v], [d]) == [v];
    assert map[d := v] - {d} == map[];
  }

  /** Discharging the read gives a program of one value parameter that returns the incremented value and the unchanged contents (from 1: `[2, 1]`). */
  lemma DischargeGetExample(x: int)
    ensures Run(DischargeState(GetProgram(), [true]), [Scalar(x)]) == Some(Outcome([Scalar(x + 1), Scalar(x)], map[]))
  {
    GetSelected();
    GetWellFormed();
    GetRun(x);
    Two(Scalar(x + 1), Scalar(x));
    DischargedOne(GetProgram(), [true], [Scalar(x)], [Scalar(x + 1)], 0, Scalar(x), [Scalar(x + 1), Scalar(x)]);
  }

  /* ---------------------------------------------------------------- */
  /* Discharging a write: `a_ref[()] = b + 1`                          */

  function SetProgram(): Jaxpr
  {
    Jaxpr([Ref(F32Scalar), Value(F32Scalar)], [Binary(2, AddOp, Var(1), Lit(1, Float32)), Swap(None, 0, [], Var(2))], [])
  }

  lemma SetRun(x: int, y: int)
    ensures Run(SetProgram(), [Scalar(x), Scalar(y)]) == Some(Outcome([], map[0 := Scalar(y + 1)]))
  {
    var p := SetProgram();
    var s0 := State(map[1 := Scalar(y)], map[0 := Scalar(x)]);
    InitRefValue(F32Scalar, F32Scalar, Scalar(x), Scalar(y));
    var s1 := State(s0.env[2 := Scalar(y + 1)], s0.heap);
    BinStep(2, AddOp, Var(1), Lit(1, Float32), y, 1, s0, s1);
    var s2 := State(s1.env, map[0 := Scalar(y + 1)]);
    Replace(0, Scalar(x), Scalar(y + 1));
    SetStep(0, Var(2), y + 1, s1, s2);
    ExecTwo(Binary(2, AddOp, Var(1), Lit(1, Float32)), Swap(None, 0, [], Var(2)), s0, s1, s2);
    RunIs(p, [Scalar(x), Scalar(y)], s0, s2, []);
  }

  lemma SetWellFormed()
    ensures WellFormed(SetProgram())
  {
  }

  lemma SetSelected()
    ensures Selected(SetProgram(), [true, true]) == [0]
  {
  }

  /** Two value parameters in, one output: the final contents of the reference. */
  lemma DischargeSetSignature()
    ensures DischargeState(SetProgram(), [true, true]).params == [Value(F32Scalar), Value(F32Scalar)]
    ensures |DischargeState(SetProgram(), [true, true]).outs| == 1
  {
    SetSelected();
    DischargeSignature(SetProgram(), [true, true]);
  }

  /** The discharged write ignores the old contents and returns `b + 1` (from `0, 1` and from `2, 1`: `2`). */
  lemma DischargeSetExample(x: int, y: int)
    ensures Run(DischargeState(SetProgram(), [true, true]), [Scalar(x), Scalar(y)]) == Some(Outcome([Scalar(y + 1)], map[]))
  {
    SetSelected();
    SetWellFormed();
    SetRun(x, y);
    DischargedOne(SetProgram(), [true, true], [Scalar(x), Scalar(y)], [], 0, Scalar(y + 1), [Scalar(y + 1)]);
  }

  /* ---------------------------------------------------------------- */
  /* Discharging an accumulation: `ref_addupdate(a_ref, (), b + 1)`    */

  function AddProgram(): Jaxpr
  {
    Jaxpr([Ref(F32Scalar), Value(F32Scalar)], [Binary(2, AddOp, Var(1), Lit(1, Float32)), AddUpdate(0, [], Var(2))], [])
  }

  lemma AddEqns(x: int, y: int)
    ensures ExecEqns(AddProgram().eqns, State(map[1 := Scalar(y)], map[0 := Scalar(x)])) ==
              Some(State(map[1 := Scalar(y), 2 := Scalar(y + 1)], map[0 := Scalar(x + (y + 1))]))
  {
    var s0 := State(map[1 := Scalar(y)], map[0 := Scalar(x)]);
    var s1 := State(map[1 := Scalar(y), 2 := Scalar(y + 1)], s0.heap);
    var s2 := State(s1.env, map[0 := Scalar(x + (y + 1))]);
    assert ExecEqn(Binary(2, AddOp, Var(1), Lit(1, Float32)), s0) == Some(s1) by {
      BinStep(2, AddOp, Var(1), Lit(1, Float32), y, 1, s0, s1);
    }
    assert ExecEqn(AddUpdate(0, [], Var(2)), s1) == Some(s2) by {
      Replace(0, Scalar(x), Scalar(x + (y + 1)));
      AddStep(0, Var(2), x, y + 1, s1, s2);
    }
    ExecTwo(Binary(2, AddOp, Var(1), Lit(1, Float32)), AddUpdate(0, [], Var(2)), s0, s1, s2);
  }

  lemma AddRun(x: int, y: int)
    ensures Run(AddProgram(), [Scalar(x), Scalar(y)]) == Some(Outcome([], map[0 := Scalar(x + (y + 1))]))
  {
    InitRefValue(F32Scalar, F32Scalar, Scalar(x), Scalar(y));
    AddEqns(x, y);
    RunIs(AddProgram(), [Scalar(x), Scalar(y)], State(map[1 := Scalar(y)], map[0 := Scalar(x)]),
          State(map[1 := Scalar(y), 2 := Scalar(y + 1)], map[0 := Scalar(x + (y + 1))]), []);
  }

  lemma AddWellFormed()
    ensures WellFormed(AddProgram())
  {
  }

  lemma AddSelected()
    ensures Selected(AddProgram(), [true, true]) == [0]
  {
  }

  lemma DischargeAddSignature()
    ensures DischargeState(AddProgram(), [true, true]).params == [Value(F32Scalar), Value(F32Scalar)]
    ensures |DischargeState(AddProgram(), [true, true]).outs| == 1
  {
    AddSelected();
    DischargeSignature(AddProgram(), [true, true]);
  }

  /** The discharged accumulation returns `a + b + 1` (from `0, 1`: `2`; from `2, 1`: `4`). */
  lemma DischargeAddExample(x: int, y: int)
    ensures Run(DischargeState(AddProgram(), [true, true]), [Scalar(x), Scalar(y)]) == Some(Outcome([Scalar(x + y + 1)], map[]))
  {
    AddSelected();
    AddWellFormed();
    AddRun(x, y);
    DischargedOne(AddProgram(), [true, true], [Scalar(x), Scalar(y)], [], 0, Scalar(x + (y + 1)), [Scalar(x + y + 1)]);
  }

  /* ---------------------------------------------------------------- */
  /* `run_state` of a body that reads and writes two references:       */
  /* `x = x_ref[...] * y_ref[...]; y_ref[...] = x * 2;                 */
  /*  x_ref[...] = y_ref[...] + x_ref[...]`                           */

  function ReadBoth(): seq<Eqn>
  {
    [Get(2, 0, []), Get(3, 1, []), Binary(4, MulOp, Var(2), Var(3))]
  }

  function WriteY(): seq<Eqn>
  {
    [Binary(5, MulOp, Var(4), Lit(2, Int32)), Swap(None, 1, [], Var(5)), Get(6, 1, [])]
  }

  function WriteX(): seq<Eqn>
  {
    [Get(7, 0, []), Binary(8, AddOp, Var(6), Var(7)), Swap(None, 0, [], Var(8))]
  }

  function TwoRefProgram(): Jaxpr
  {
    Jaxpr([Ref(I32Scalar), Ref(I32Scalar)], ReadBoth() + WriteY() + WriteX(), [])
  }

  /** Overwriting the one entry of a map. */
  lemma Replace(k: nat, a: Array, c: Array)
    ensures map[k := a][k := c] == map[k := c]
  {
  }

  /** Overwriting one of two entries. */
  lemma Overwrite(k: nat, j: nat, a: Array, b: Array, c: Array)
    requires k != j
    ensures map[k := a, j := b][k := c] == map[k := c, j := b]
  {
  }

  lemma OverwriteSecond(j: nat, k: nat, b: Array, a: Array, c: Array)
    requires k != j
    ensures map[j := b, k := a][k := c] == map[j := b, k := c]
  {
  }

  /** The state of the two-reference body after `k` of its three parts. */
  function TwoRefState(x: int, y: int, k: nat): State
  {
    if k == 0 then State(map[], map[0 := Scalar(x), 1 := Scalar(y)])
    else if k == 1 then State(map[2 := Scalar(x), 3 := Scalar(y), 4 := Scalar(x * y)], map[0 := Scalar(x), 1 := Scalar(y)])
    else if k == 2 then
      State(map[2 := Scalar(x), 3 := Scalar(y), 4 := Scalar(x * y), 5 := Scalar(x * y * 2), 6 := Scalar(x * y * 2)],
            map[0 := Scalar(x), 1 := Scalar(x * y * 2)])
    else
      State(map[2 := Scalar(x), 3 := Scalar(y), 4 := Scalar(x * y), 5 := Scalar(x * y * 2), 6 := Scalar(x * y * 2),
                7 := Scalar(x), 8 := Scalar(x * y * 2 + x)],
            map[0 := Scalar(x * y * 2 + x), 1 := Scalar(x * y * 2)])
  }

  lemma ReadBothRun(x: int, y: int)
    ensures ExecEqns(ReadBoth(), TwoRefState(x, y, 0)) == Some(TwoRefState(x, y, 1))
  {
    var s0 := TwoRefState(x, y, 0);
    var s1 := State(s0.env[2 := Scalar(x)], s0.heap);
    var s2 := State(s1.env[3 := Scalar(y)], s0.heap);
    var s3 := State(s2.env[4 := Scalar(x * y)], s0.heap);
    GetStep(2, 0, s0, s1);
    GetStep(3, 1, s1, s2);
    BinStep(4, MulOp, Var(2), Var(3), x, y, s2, s3);
    ExecThree(Get(2, 0, []), Get(3, 1, []), Binary(4, MulOp, Var(2), Var(3)), s0, s1, s2, s3);
    assert s3 == TwoRefState(x, y, 1);
  }

  lemma WriteYRun(x: int, y: int)
    ensures ExecEqns(WriteY(), TwoRefState(x, y, 1)) == Some(TwoRefState(x, y, 2))
  {
    var s0 := TwoRefState(x, y, 1);
    var s1 := State(s0.env[5 := Scalar(x * y * 2)], s0.heap);
    var s2 := State(s1.env, map[0 := Scalar(x), 1 := Scalar(x * y * 2)]);
    var s3 := State(s1.env[6 := Scalar(x * y * 2)], s2.heap);
    BinStep(5, MulOp, Var(4), Lit(2, Int32), x * y, 2, s0, s1);
    OverwriteSecond(0, 1, Scalar(x), Scalar(y), Scalar(x * y * 2));
    SetStep(1, Var(5), x * y * 2, s1, s2);
    GetStep(6, 1, s2, s3);
    ExecThree(Binary(5, MulOp, Var(4), Lit(2, Int32)), Swap(None, 1, [], Var(5)), Get(6, 1, []), s0, s1, s2, s3);
    assert s3 == TwoRefState(x, y, 2);
  }

  lemma WriteXRun(x: int, y: int)
    ensures ExecEqns(WriteX(), TwoRefState(x, y, 2)) == Some(TwoRefState(x, y, 3))
  {
    var s0 := TwoRefState(x, y, 2);
    var s1 := State(s0.env[7 := Scalar(x)], s0.heap);
    var s2 := State(s1.env[8 := Scalar(x * y * 2 + x)], s0.heap);
    var s3 := State(s2.env, map[0 := Scalar(x * y * 2 + x), 1 := Scalar(x * y * 2)]);
    GetStep(7, 0, s0, s1);
    BinStep(8, AddOp, Var(6), Var(7), x * y * 2, x, s1, s2);
    Overwrite(0, 1, Scalar(x), Scalar(x * y * 2), Scalar(x * y * 2 + x));
    SetStep(0, Var(8), x * y * 2 + x, s2, s3);
    ExecThree(Get(7, 0, []), Binary(8, AddOp, Var(6), Var(7)), Swap(None, 0, [], Var(8)), s0, s1, s2, s3);
    assert s3 == TwoRefState(x, y, 3);
  }

  lemma TwoRefRun(x: int, y: int)
    ensures Run(TwoRefProgram(), [Scalar(x), Scalar(y)]) == Some(Outcome([], TwoRefState(x, y, 3).heap))
  {
    InitRefs(I32Scalar, I32Scalar, Scalar(x), Scalar(y));
    ReadBothRun(x, y);
    WriteYRun(x, y);
    WriteXRun(x, y);
    ExecThen(ReadBoth(), WriteY(), TwoRefState(x, y, 0), TwoRefState(x, y, 1), TwoRefState(x, y, 2));
    ExecThen(ReadBoth() + WriteY(), WriteX(), TwoRefState(x, y, 0), TwoRefState(x, y, 2), TwoRefState(x, y, 3));
    RunIs(TwoRefProgram(), [Scalar(x), Scalar(y)], TwoRefState(x, y, 0), TwoRefState(x, y, 3), []);
  }

  lemma TwoRefWellFormed()
    ensures WellFormed(TwoRefProgram())
  {
    var refs := RefParams(TwoRefProgram().params);
    assert refs == {0, 1};
    assert WfEqns(ReadBoth(), 2, refs);
    assert WfEqns(WriteY(), 2, refs);
    assert WfEqns(WriteX(), 2, refs);
    WfAppend(ReadBoth(), WriteY(), 2, refs);
    WfAppend(ReadBoth() + WriteY(), WriteX(), 2, refs);
  }

  lemma TwoRefSelected()
    ensures Selected(TwoRefProgram(), AllRefs(TwoRefProgram())) == [0, 1]
  {
  }

  /** `run_state` returns `x + x * y * 2` and `x * y * 2` (from 2 and 3: 14 and 12). */
  lemma TwoRefRunState(x: int, y: int)
    ensures RunState(TwoRefProgram(), [Scalar(x), Scalar(y)]) == Some([Scalar(x + x * y * 2), Scalar(x * y * 2)])
  {
    var h := TwoRefState(x, y, 3).heap;
    TwoRefRun(x, y);
    TwoRefWellFormed();
    TwoRefSelected();
    FinalsTwo(h, 0, 1);
    assert x * y * 2 + x == x + x * y * 2;
    RunStateOf(TwoRefProgram(), [Scalar(x), Scalar(y)], h, [Scalar(x + x * y * 2), Scalar(x * y * 2)]);
  }

  /* ---------------------------------------------------------------- */
  /* `run_state` around a conditional that writes in one branch only   */

  function CondSetProgram(): Jaxpr
  {
    Jaxpr([Value(BoolScalar), Ref(F32Scalar)],
          [Cond(Var(0), [], Branch([Swap(None, 1, [], Lit(1, Float32))], []), Branch([], []))], [])
  }

  lemma CondSetRun(c: int, x: int)
    ensures Run(CondSetProgram(), [Scalar(c), Scalar(x)]) ==
              Some(Outcome([], map[1 := Scalar(x)][1 := Scalar(if c != 0 then 1 else x)]))
  {
    var p := CondSetProgram();
    var s0 := State(map[0 := Scalar(c)], map[1 := Scalar(x)]);
    InitValueRef(BoolScalar, F32Scalar, Scalar(c), Scalar(x));
    var s1 := State(s0.env, s0.heap[1 := Scalar(if c != 0 then 1 else x)]);
    EvalNone(s0.env);
    if c != 0 {
      SetStep(1, Lit(1, Float32), 1, s0, s1);
      ExecOne(Swap(None, 1, [], Lit(1, Float32)), s0, s1);
    } else {
      Replace(1, Scalar(x), Scalar(x));
    }
    BranchRun(if c != 0 then p.eqns[0].thenB else p.eqns[0].elseB, s0, s1, []);
    CondStep(Var(0), [], p.eqns[0].thenB, p.eqns[0].elseB, s0, c, s1, [], s1);
    ExecOne(p.eqns[0], s0, s1);
    RunIs(p, [Scalar(c), Scalar(x)], s0, s1, []);
  }

  lemma CondSetWellFormed()
    ensures WellFormed(CondSetProgram())
  {
  }

  lemma CondSetSelected()
    ensures Selected(CondSetProgram(), AllRefs(CondSetProgram())) == [1]
  {
  }

  /** The branch that writes sets the reference; the other passes its contents through (`True`: 1, `False`: 0). */
  lemma CondSetRunState(c: int, x: int)
    ensures RunState(CondSetProgram(), [Scalar(c), Scalar(x)]) == Some([Scalar(if c != 0 then 1 else x)])
    ensures Effects(DischargeState(CondSetProgram(), AllRefs(CondSetProgram()))) == {}
  {
    var h := map[1 := Scalar(x)][1 := Scalar(if c != 0 then 1 else x)];
    CondSetRun(c, x);
    CondSetWellFormed();
    CondSetSelected();
    FinalsOne(h, 1);
    RunStateOf(CondSetProgram(), [Scalar(c), Scalar(x)], h, [Scalar(if c != 0 then 1 else x)]);
    RunStatePure(CondSetProgram());
  }

  /* ---------------------------------------------------------------- */
  /* A conditional that returns a value, stored after the conditional  */

  function CondReturnProgram(): Jaxpr
  {
    Jaxpr([Value(BoolScalar), Ref(F32Scalar), Ref(F32Scalar)],
          [Cond(Var(0), [3], Branch([Swap(None, 1, [], Lit(1, Float32))], [Lit(4, Float32)]), Branch([], [Lit(5, Float32)])),
           Swap(None, 2, [], Var(3))], [])
  }

  /** The contents of `x_ref` after the conditional. */
  function XAfter(c: int, x: int): int
  {
    if c != 0 then 1 else x
  }

  /** The value the conditional returns. */
  function Returned(c: int): int
  {
    if c != 0 then 4 else 5
  }

  lemma CondReturnBranch(c: int, x: int, y: int)
    ensures ExecEqn(CondReturnProgram().eqns[0], State(map[0 := Scalar(c)], map[1 := Scalar(x), 2 := Scalar(y)])) ==
              Some(State(map[0 := Scalar(c)][3 := Scalar(Returned(c))], map[1 := Scalar(x), 2 := Scalar(y)][1 := Scalar(XAfter(c, x))]))
  {
    var e := CondReturnProgram().eqns[0];
    var s0 := State(map[0 := Scalar(c)], map[1 := Scalar(x), 2 := Scalar(y)]);
    var s1 := State(s0.env, s0.heap[1 := Scalar(XAfter(c, x))]);
    var vals := [Scalar(Returned(c))];
    EvalOne(s0.env, if c != 0 then Lit(4, Float32) else Lit(5, Float32), Scalar(Returned(c)));
    if c != 0 {
      SetStep(1, Lit(1, Float32), 1, s0, s1);
      ExecOne(Swap(None, 1, [], Lit(1, Float32)), s0, s1);
    } else {
      assert s0.heap[1 := Scalar(x)] == s0.heap;
    }
    BranchRun(if c != 0 then e.thenB else e.elseB, s0, s1, vals);
    BindOne(s0.env, 3, Scalar(Returned(c)));
    CondStep(Var(0), [3], e.thenB, e.elseB, s0, c, s1, vals, State(s0.env[3 := Scalar(Returned(c))], s1.heap));
  }

  lemma CondReturnRun(c: int, x: int, y: int)
    ensures Run(CondReturnProgram(), [Scalar(c), Scalar(x), Scalar(y)]) ==
              Some(Outcome([], map[1 := Scalar(x), 2 := Scalar(y)][1 := Scalar(XAfter(c, x))][2 := Scalar(Returned(c))]))
  {
    var p := CondReturnProgram();
    var s0 := State(map[0 := Scalar(c)], map[1 := Scalar(x), 2 := Scalar(y)]);
    InitValueRefs(BoolScalar, F32Scalar, Scalar(c), Scalar(x), Scalar(y));
    var s1 := State(s0.env[3 := Scalar(Returned(c))], s0.heap[1 := Scalar(XAfter(c, x))]);
    var s2 := State(s1.env, s1.heap[2 := Scalar(Returned(c))]);
    CondReturnBranch(c, x, y);
    SetStep(2, Var(3), Returned(c), s1, s2);
    ExecTwo(p.eqns[0], p.eqns[1], s0, s1, s2);
    RunIs(p, [Scalar(c), Scalar(x), Scalar(y)], s0, s2, []);
  }

  lemma CondReturnWellFormed()
    ensures WellFormed(CondReturnProgram())
  {
  }

  lemma CondReturnSelected()
    ensures Selected(CondReturnProgram(), AllRefs(CondReturnProgram())) == [1, 2]
  {
  }

  /** `True` gives `(1, 4)`, `False` gives `(0, 5)` from zero contents: the returned value reaches `y_ref`. */
  lemma CondReturnRunState(c: int, x: int, y: int)
    ensures RunState(CondReturnProgram(), [Scalar(c), Scalar(x), Scalar(y)]) ==
              Some([Scalar(if c != 0 then 1 else x), Scalar(if c != 0 then 4 else 5)])
    ensures Effects(DischargeState(CondReturnProgram(), AllRefs(CondReturnProgram()))) == {}
  {
    var h := map[1 := Scalar(x), 2 := Scalar(y)][1 := Scalar(XAfter(c, x))][2 := Scalar(Returned(c))];
    CondReturnRun(c, x, y);
    CondReturnWellFormed();
    CondReturnSelected();
    FinalsTwo(h, 1, 2);
    RunStateOf(CondReturnProgram(), [Scalar(c), Scalar(x), Scalar(y)], h, [Scalar(XAfter(c, x)), Scalar(Returned(c))]);
    RunStatePure(CondReturnProgram());
  }

  /* ---------------------------------------------------------------- */
  /* Both branches write the same reference                            */

  function CondReuseProgram(): Jaxpr
  {
    Jaxpr([Value(BoolScalar), Ref(F32Scalar)],
          [Cond(Var(0), [], Branch([Swap(None, 1, [], Lit(1, Float32))], []), Branch([Swap(None, 1, [], Lit(2, Float32))], []))], [])
  }

  lemma CondReuseRun(c: int, x: int)
    ensures Run(CondReuseProgram(), [Scalar(c), Scalar(x)]) ==
              Some(Outcome([], map[1 := Scalar(x)][1 := Scalar(if c != 0 then 1 else 2)]))
  {
    var p := CondReuseProgram();
    var v := if c != 0 then 1 else 2;
    var s0 := State(map[0 := Scalar(c)], map[1 := Scalar(x)]);
    InitValueRef(BoolScalar, F32Scalar, Scalar(c), Scalar(x));
    var s1 := State(s0.env, s0.heap[1 := Scalar(v)]);
    var w := Swap(None, 1, [], Lit(v, Float32));
    var b := if c != 0 then p.eqns[0].thenB else p.eqns[0].elseB;
    assert b == Branch([w], []);
    SetStep(1, Lit(v, Float32), v, s0, s1);
    ExecOne(w, s0, s1);
    EvalNone(s1.env);
    BranchRun(b, s0, s1, []);
    CondStep(Var(0), [], p.eqns[0].thenB, p.eqns[0].elseB, s0, c, s1, [], s1);
    ExecOne(p.eqns[0], s0, s1);
    RunIs(p, [Scalar(c), Scalar(x)], s0, s1, []);
  }

  lemma CondReuseWellFormed()
    ensures WellFormed(CondReuseProgram())
  {
  }

  lemma CondReuseSelected()
    ensures Selected(CondReuseProgram(), AllRefs(CondReuseProgram())) == [1]
  {
  }

  /** `True` gives 1, `False` gives 2. */
  lemma CondReuseRunState(c: int, x: int)
    ensures RunState(CondReuseProgram(), [Scalar(c), Scalar(x)]) == Some([Scalar(if c != 0 then 1 else 2)])
    ensures Effects(DischargeState(CondReuseProgram(), AllRefs(CondReuseProgram()))) == {}
  {
    var h := map[1 := Scalar(x)][1 := Scalar(if c != 0 then 1 else 2)];
    CondReuseRun(c, x);
    CondReuseWellFormed();
    CondReuseSelected();
    FinalsOne(h, 1);
    RunStateOf(CondReuseProgram(), [Scalar(c), Scalar(x)], h, [Scalar(if c != 0 then 1 else 2)]);
    RunStatePure(CondReuseProgram());
  }

  /* ---------------------------------------------------------------- */
  /* Three references, each branch writing some of them, with          */
  /* constants computed inside the branches                            */

  function MultiThen(): Branch
  {
    Branch([Binary(4, MulOp, Lit(1, Float32), Lit(2, Float32)), Swap(None, 1, [], Var(4)), Swap(None, 2, [], Lit(1, Float32))], [])
  }

  function MultiElse(): Branch
  {
    Branch([Swap(None, 3, [], Lit(1, Float32)), Swap(None, 1, [], Lit(2, Float32)),
            Binary(5, MulOp, Lit(2, Float32), Lit(2, Float32)), Swap(None, 1, [], Var(5))], [])
  }

  function MultiProgram(): Jaxpr
  {
    Jaxpr([Value(BoolScalar), Ref(F32Scalar), Ref(F32Scalar), Ref(F32Scalar)], [Cond(Var(0), [], MultiThen(), MultiElse())], [])
  }

  lemma MultiThenRun(st: State, x: int, y: int, z: int)
    requires st.heap == map[1 := Scalar(x), 2 := Scalar(y), 3 := Scalar(z)]
    ensures ExecBranch(MultiThen(), st) == Some((State(st.env[4 := Scalar(2)], st.heap[1 := Scalar(2)][2 := Scalar(1)]), []))
  {
    var s1 := State(st.env[4 := Scalar(2)], st.heap);
    var s2 := State(s1.env, st.heap[1 := Scalar(2)]);
    var s3 := State(s1.env, s2.heap[2 := Scalar(1)]);
    BinStep(4, MulOp, Lit(1, Float32), Lit(2, Float32), 1, 2, st, s1);
    SetStep(1, Var(4), 2, s1, s2);
    SetStep(2, Lit(1, Float32), 1, s2, s3);
    ExecThree(MultiThen().eqns[0], MultiThen().eqns[1], MultiThen().eqns[2], st, s1, s2, s3);
    EvalNone(s3.env);
    BranchRun(MultiThen(), st, s3, []);
  }

  lemma MultiElseRun(st: State, x: int, y: int, z: int)
    requires st.heap == map[1 := Scalar(x), 2 := Scalar(y), 3 := Scalar(z)]
    ensures ExecBranch(MultiElse(), st) ==
              Some((State(st.env[5 := Scalar(4)], st.heap[3 := Scalar(1)][1 := Scalar(2)][1 := Scalar(4)]), []))
  {
    var s1 := State(st.env, st.heap[3 := Scalar(1)]);
    var s2 := State(st.env, s1.heap[1 := Scalar(2)]);
    var s3 := State(st.env[5 := Scalar(4)], s2.heap);
    var s4 := State(s3.env, s2.heap[1 := Scalar(4)]);
    SetStep(3, Lit(1, Float32), 1, st, s1);
    SetStep(1, Lit(2, Float32), 2, s1, s2);
    BinStep(5, MulOp, Lit(2, Float32), Lit(2, Float32), 2, 2, s2, s3);
    SetStep(1, Var(5), 4, s3, s4);
    ExecFour(MultiElse().eqns[0], MultiElse().eqns[1], MultiElse().eqns[2], MultiElse().eqns[3], st, s1, s2, s3, s4);
    EvalNone(s4.env);
    BranchRun(MultiElse(), st, s4, []);
  }

  /** The contents after the conditional, as a map. */
  function MultiHeap(c: int, x: int, y: int, z: int): map<nat, Array>
  {
    var h := map[1 := Scalar(x), 2 := Scalar(y), 3 := Scalar(z)];
    if c != 0 then h[1 := Scalar(2)][2 := Scalar(1)] else h[3 := Scalar(1)][1 := Scalar(2)][1 := Scalar(4)]
  }

  lemma MultiFinals(c: int, x: int, y: int, z: int)
    ensures Finals(MultiHeap(c, x, y, z), [1, 2, 3]) ==
              if c != 0 then [Scalar(2), Scalar(1), Scalar(z)] else [Scalar(4), Scalar(y), Scalar(1)]
  {
    var h := MultiHeap(c, x, y, z);
    FinalsThree(h, 1, 2, 3);
  }

  lemma MultiRun(c: int, x: int, y: int, z: int)
    ensures Run(MultiProgram(), [Scalar(c), Scalar(x), Scalar(y), Scalar(z)]) == Some(Outcome([], MultiHeap(c, x, y, z)))
  {
    var p := MultiProgram();
    var s0 := State(map[0 := Scalar(c)], map[1 := Scalar(x), 2 := Scalar(y), 3 := Scalar(z)]);
    InitValueThreeRefs(BoolScalar, F32Scalar, Scalar(c), Scalar(x), Scalar(y), Scalar(z));
    var env := if c != 0 then s0.env[4 := Scalar(2)] else s0.env[5 := Scalar(4)];
    var s1 := State(env, MultiHeap(c, x, y, z));
    if c != 0 {
      MultiThenRun(s0, x, y, z);
    } else {
      MultiElseRun(s0, x, y, z);
    }
    var s2 := State(s0.env, MultiHeap(c, x, y, z));
    CondStep(Var(0), [], MultiThen(), MultiElse(), s0, c, s1, [], s2);
    ExecOne(p.eqns[0], s0, s2);
    RunIs(p, [Scalar(c), Scalar(x), Scalar(y), Scalar(z)], s0, s2, []);
  }

  lemma MultiWellFormed()
    ensures WellFormed(MultiProgram())
  {
    var refs := RefParams(MultiProgram().params);
    assert refs == {1, 2, 3};
    MultiBranchesWellFormed(refs);
  }

  lemma MultiBranchesWellFormed(refs: set<nat>)
    requires refs == {1, 2, 3}
    ensures WfEqns(MultiThen().eqns, 4, refs) && WfEqns(MultiElse().eqns, 4, refs)
  {
  }

  lemma MultiSelected()
    ensures Selected(MultiProgram(), AllRefs(MultiProgram())) == [1, 2, 3]
  {
    var ps := [Value(BoolScalar), Ref(F32Scalar), Ref(F32Scalar), Ref(F32Scalar)];
    assert MultiProgram().params == ps;
    MultiSelectFrom(ps, AllRefs(MultiProgram()));
  }

  lemma MultiSelectFrom(ps: seq<Type>, sel: seq<bool>)
    requires ps == [Value(BoolScalar), Ref(F32Scalar), Ref(F32Scalar), Ref(F32Scalar)]
    requires sel == seq(4, i => true)
    ensures SelectFrom(ps, sel, 0) == [1, 2, 3]
  {
    assert SelectFrom(ps, sel, 4) == [];
    assert SelectFrom(ps, sel, 3) == [3];
    assert SelectFrom(ps, sel, 2) == [2, 3];
    assert SelectFrom(ps, sel, 1) == [1, 2, 3];
  }

  /** `True` gives `(2, 1, 0)` and `False` gives `(4, 0, 1)` from zero contents. */
  lemma MultiRunState(c: int, x: int, y: int, z: int)
    ensures RunState(MultiProgram(), [Scalar(c), Scalar(x), Scalar(y), Scalar(z)]) ==
              Some(if c != 0 then [Scalar(2), Scalar(1), Scalar(z)] else [Scalar(4), Scalar(y), Scalar(1)])
    ensures Effects(DischargeState(MultiProgram(), AllRefs(MultiProgram()))) == {}
  {
    MultiRun(c, x, y, z);
    MultiWellFormed();
    MultiSelected();
    MultiFinals(c, x, y, z);
    RunStateOf(MultiProgram(), [Scalar(c), Scalar(x), Scalar(y), Scalar(z)], MultiHeap(c, x, y, z),
               if c != 0 then [Scalar(2), Scalar(1), Scalar(z)] else [Scalar(4), Scalar(y), Scalar(1)]);
    RunStatePure(MultiProgram());
  }

  // -------------------------------------------------------------------------
  // run_state of a body that does nothing returns the initial contents

  function NoopOne(): Jaxpr
  {
    Jaxpr([Ref(I32Scalar)], [], [])
  }

  function NoopTwo(): Jaxpr
  {
    Jaxpr([Ref(I32Scalar), Ref(I32Scalar)], [], [])
  }

  lemma NoopOneSelected()
    ensures Selected(NoopOne(), AllRefs(NoopOne())) == [0]
  {
  }

  lemma NoopTwoSelected()
    ensures Selected(NoopTwo(), AllRefs(NoopTwo())) == [0, 1]
  {
  }

  /** `run_state` of a no-op body on one reference returns its initial contents (`1` gives `1`). */
  lemma NoopRunState(a: Array)
    ensures RunState(NoopOne(), [a]) == Some([a])
  {
    NoopOneSelected();
    RunStateNoop(NoopOne(), [a]);
    var r := RunState(NoopOne(), [a]).value;
    assert r[0] == a;
    assert r == [a];
  }

  /** With two references the contents come back in order (`(1, 2)` gives `1, 2`). */
  lemma NoopRunStateTwo(a: Array, b: Array)
    ensures RunState(NoopTwo(), [a, b]) == Some([a, b])
  {
    NoopTwoSelected();
    RunStateNoop(NoopTwo(), [a, b]);
    var r := RunState(NoopTwo(), [a, b]).value;
    assert r[0] == a && r[1] == b;
    assert r == [a, b];
  }

  // -------------------------------------------------------------------------
  // Discharging only some references keeps the others as references

  const F32Vector := ShapedArray([4], Float32)

  /** `a_ref[()] = ones(4); b_ref[()] = ones(4)`, with scalar literals standing in for `ones(4)`. */
  function PartialProgram(): Jaxpr
  {
    Jaxpr([Ref(F32Vector), Ref(F32Vector)],
          [Swap(None, 0, [], Lit(1, Float32)), Swap(None, 1, [], Lit(1, Float32))], [])
  }

  lemma PartialSelected()
    ensures Selected(PartialProgram(), [false, true]) == [1]
  {
  }

  lemma PartialEffects()
    ensures Effects(PartialProgram()) == {Write(0), Write(1)}
  {
    var es := PartialProgram().eqns;
    assert es[1..] == [Swap(None, 1, [], Lit(1, Float32))];
    assert es[1..][1..] == [];
  }

  /** Discharging only `b_ref`: `a_ref` stays a reference, `b_ref` becomes a value and its final contents are the one output. */
  lemma PartialSignature()
    ensures DischargeState(PartialProgram(), [false, true]).params == [Ref(F32Vector), Value(F32Vector)]
    ensures |DischargeState(PartialProgram(), [false, true]).outs| == 1
  {
    PartialSelected();
    DischargeSignature(PartialProgram(), [false, true]);
  }

  /** Effects of a discharged program, from the effects of the original and the selected set. */
  lemma DischargedEffectsAre(p: Jaxpr, sel: seq<bool>, effs: set<Effect>, keys: set<nat>, left: set<Effect>)
    requires Effects(p) == effs
    requires (set d | d in Selected(p, sel)) == keys
    requires Residual(effs, keys) == left
    ensures Effects(DischargeState(p, sel)) == left
  {
    DischargeEffects(p, sel);
  }

  lemma PartialResidual()
    ensures Residual({Write(0), Write(1)}, {1}) == {Write(0)}
  {
    assert Write(1) !in Residual({Write(0), Write(1)}, {1});
  }

  lemma PartialKeys()
    ensures (set d | d in Selected(PartialProgram(), [false, true])) == {1}
  {
    PartialSelected();
    assert (set d | d in [1]) == {1};
  }

  /** The write to `a_ref` is the one effect left. */
  lemma PartialDischargeEffects()
    ensures Effects(DischargeState(PartialProgram(), [false, true])) == {Write(0)}
  {
    PartialEffects();
    PartialKeys();
    PartialResidual();
    DischargedEffectsAre(PartialProgram(), [false, true], {Write(0), Write(1)}, {1}, {Write(0)});
  }
}
