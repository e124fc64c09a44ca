/**
 * Stateful programs: equations over numbered variables, where the first
 * variables are the program's parameters and some parameters are references
 * (mutable arrays). The three state operators read, swap and accumulate into
 * a slice of a reference; the remaining equations are the pure operations
 * that appear once state has been discharged (slice, update-slice,
 * accumulate-slice), elementwise arithmetic, and a two-way conditional.
 */
module Program {
  import opened Wrappers
  import opened Shapes
  import opened Indexing
  import opened Arrays

  /** An operand: a variable, or an integer literal of some element kind. */
  datatype Atom = Var(id: nat) | Lit(value: int, dtype: DType)

  datatype BinOp = AddOp | MulOp

  datatype Eqn =
      /** `out <- ref[idx]` */
    | Get(out: nat, ref: nat, idx: seq<Entry<Atom>>)
      /** `out, ref[idx] <- ref[idx], val`; without `out` this is a plain slice assignment */
    | Swap(dst: Option<nat>, ref: nat, idx: seq<Entry<Atom>>, val: Atom)
      /** `ref[idx] += val` */
    | AddUpdate(ref: nat, idx: seq<Entry<Atom>>, val: Atom)
    | Binary(out: nat, op: BinOp, x: Atom, y: Atom)
      /** `out <- src[idx]` on an array value */
    | Slice(out: nat, src: nat, idx: seq<Entry<Atom>>)
      /** `out <- src` with the slice `idx` replaced by `val` */
    | Update(out: nat, src: nat, idx: seq<Entry<Atom>>, val: Atom)
      /** `out <- src` with `val` added into the slice `idx` */
    | Accumulate(out: nat, src: nat, idx: seq<Entry<Atom>>, val: Atom)
      /** runs one branch, chosen by the scalar `pred` (non-zero is true), and binds its results to `outs` */
    | Cond(pred: Atom, outs: seq<nat>, thenB: Branch, elseB: Branch)

  /** A branch body: equations, then the atoms it returns. */
  datatype Branch = Branch(eqns: seq<Eqn>, results: seq<Atom>)

  /** A program; parameter `i` is variable `i`. */
  datatype Jaxpr = Jaxpr(params: seq<Type>, eqns: seq<Eqn>, outs: seq<Atom>)

  /** Side effects, each naming the variable of the reference parameter it touches. */
  datatype Effect = Read(ref: nat) | Write(ref: nat) | Accum(ref: nat)

  function EqnEffects(e: Eqn): set<Effect>
    decreases e
  {
    match e
    case Get(_, r, _) => {Read(r)}
    case Swap(_, r, _, _) => {Write(r)}
    case AddUpdate(r, _, _) => {Accum(r)}
    case Cond(_, _, tb, eb) => EqnsEffects(tb.eqns) + EqnsEffects(eb.eqns)
    case _ => {}
  }

  function EqnsEffects(es: seq<Eqn>): set<Effect>
    decreases es
  {
    if es == [] then {} else EqnEffects(es[0]) + EqnsEffects(es[1..])
  }

  function Effects(p: Jaxpr): set<Effect>
  {
    EqnsEffects(p.eqns)
  }

  lemma {:induction false} EffectsAppend(a: seq<Eqn>, b: seq<Eqn>)
    ensures EqnsEffects(a + b) == EqnsEffects(a) + EqnsEffects(b)
  {
    if a != [] {
      assert (a + b)[1..] == a[1..] + b;
      EffectsAppend(a[1..], b);
    } else {
      assert a + b == b;
    }
  }

  /* ---------------------------------------------------------------- */
  /* Evaluation                                                        */

  type Env = map<nat, Array>

  /** Variable values, and the contents of each reference parameter. */
  datatype State = State(env: Env, heap: map<nat, Array>)

  function EvalAtom(env: Env, a: Atom): Option<Array>
  {
    match a
    case Var(v) => if v in env then Some(env[v]) else None
    case Lit(x, _) => Some(Scalar(x))
  }

  function EvalAtoms(env: Env, atoms: seq<Atom>): (r: Option<seq<Array>>)
    ensures r.Some? ==> |r.value| == |atoms|
  {
    if atoms == [] then Some([])
    else
      var x :- EvalAtom(env, atoms[0]);
      var xs :- EvalAtoms(env, atoms[1..]);
      Some([x] + xs)
  }

  function EvalIndex(env: Env, idx: seq<Entry<Atom>>): (r: Option<seq<Entry<Array>>>)
    ensures r.Some? ==> |r.value| == |idx|
  {
    if idx == [] then Some([])
    else
      var e :- match idx[0]
        case Full => Some(Full)
        case Idx(a) => (match EvalAtom(env, a) case None => None case Some(v) => Some(Idx(v)));
      var es :- EvalIndex(env, idx[1..]);
      Some([e] + es)
  }

  function ApplyOp(op: BinOp, x: int, y: int): int
  {
    match op
    case AddOp => x + y
    case MulOp => x * y
  }

  /** Elementwise arithmetic on equal shapes, or with a scalar broadcast against an array. */
  function ApplyBinary(op: BinOp, x: Array, y: Array): (r: Option<Array>)
    ensures r.Some? <==> x.shape == y.shape || x.shape == [] || y.shape == []
    ensures r.Some? && x.shape == y.shape ==>
              (r.value.shape == x.shape && forall i :: 0 <= i < |x.data| ==> r.value.data[i] == ApplyOp(op, x.data[i], y.data[i]))
  {
    if x.shape == y.shape then
      Some(ArrayRep(x.shape, seq(|x.data|, i requires 0 <= i < |x.data| => ApplyOp(op, x.data[i], y.data[i]))))
    else if x.shape == [] then
      Some(ArrayRep(y.shape, seq(|y.data|, i requires 0 <= i < |y.data| => ApplyOp(op, x.data[0], y.data[i]))))
    else if y.shape == [] then
      Some(ArrayRep(x.shape, seq(|x.data|, i requires 0 <= i < |x.data| => ApplyOp(op, x.data[i], y.data[0]))))
    else None
  }

  /** Binds `vars[i]` to `vals[i]` in order; a later binding of the same variable wins. */
  function BindAll(env: Env, vars: seq<nat>, vals: seq<Array>): Env
    requires |vars| == |vals|
    decreases |vars|
  {
    if vars == [] then env else BindAll(env[vars[0] := vals[0]], vars[1..], vals[1..])
  }

  function ExecEqns(es: seq<Eqn>, st: State): Option<State>
    decreases es
  {
    if es == [] then Some(st)
    else
      var st1 :- ExecEqn(es[0], st);
      ExecEqns(es[1..], st1)
  }

  function ExecBranch(b: Branch, st: State): Option<(State, seq<Array>)>
    decreases b
  {
    var st1 :- ExecEqns(b.eqns, st);
    var vals :- EvalAtoms(st1.env, b.results);
    Some((st1, vals))
  }

  /** One equation; `None` when it gets stuck (unbound variable, unknown reference, bad shape or index). */
  function ExecEqn(e: Eqn, st: State): Option<State>
    decreases e
  {
    match e
    case Get(out, r, idx) =>
      if r !in st.heap then None
      else
        var iv :- EvalIndex(st.env, idx);
        var v :- ReadSlice(st.heap[r], iv);
        Some(State(st.env[out := v], st.heap))
    case Swap(dst, r, idx, val) =>
      if r !in st.heap then None
      else
        var iv :- EvalIndex(st.env, idx);
        var x :- EvalAtom(st.env, val);
        var old_ :- ReadSlice(st.heap[r], iv);
        var new_ :- WriteSlice(st.heap[r], iv, x);
        var env := match dst case None => st.env case Some(o) => st.env[o := old_];
        Some(State(env, st.heap[r := new_]))
    case AddUpdate(r, idx, val) =>
      if r !in st.heap then None
      else
        var iv :- EvalIndex(st.env, idx);
        var x :- EvalAtom(st.env, val);
        var new_ :- AddSlice(st.heap[r], iv, x);
        Some(State(st.env, st.heap[r := new_]))
    case Binary(out, op, x, y) =>
      var a :- EvalAtom(st.env, x);
      var b :- EvalAtom(st.env, y);
      var v :- ApplyBinary(op, a, b);
      Some(State(st.env[out := v], st.heap))
    case Slice(out, src, idx) =>
      if src !in st.env then None
      else
        var iv :- EvalIndex(st.env, idx);
        var v :- ReadSlice(st.env[src], iv);
        Some(State(st.env[out := v], st.heap))
    case Update(out, src, idx, val) =>
      if src !in st.env then None
      else
        var iv :- EvalIndex(st.env, idx);
        var x :- EvalAtom(st.env, val);
        var v :- WriteSlice(st.env[src], iv, x);
        Some(State(st.env[out := v], st.heap))
    case Accumulate(out, src, idx, val) =>
      if src !in st.env then None
      else
        var iv :- EvalIndex(st.env, idx);
        var x :- EvalAtom(st.env, val);
        var v :- AddSlice(st.env[src], iv, x);
        Some(State(st.env[out := v], st.heap))
    case Cond(pred, outs, tb, eb) =>
      var c :- EvalAtom(st.env, pred);
      if c.shape != [] then None
      else
        BindBranch(st, outs, if c.data[0] != 0 then ExecBranch(tb, st) else ExecBranch(eb, st))
  }

  /**
   * Finishes a conditional: the branch's results are bound to `outs` in the
   * scope around the conditional (bindings made inside the branch are not
   * visible afterwards), and the branch's writes to references persist.
   */
  function BindBranch(st: State, outs: seq<nat>, r: Option<(State, seq<Array>)>): Option<State>
  {
    match r
    case None => None
    case Some((st1, vals)) =>
      if |vals| != |outs| then None else Some(State(BindAll(st.env, outs, vals), st1.heap))
  }

  /** Initial state: value parameters are bound, reference parameters hold their initial contents. */
  function InitState(params: seq<Type>, args: seq<Array>): State
    requires |args| == |params|
  {
    State(map i | 0 <= i < |params| && params[i].Value? :: args[i],
          map i | 0 <= i < |params| && params[i].Ref? :: args[i])
  }

  /** Output values, and the final contents of the reference parameters. */
  datatype Outcome = Outcome(outs: seq<Array>, heap: map<nat, Array>)

  function Run(p: Jaxpr, args: seq<Array>): Option<Outcome>
  {
    if |args| != |p.params| then None
    else
      var st :- ExecEqns(p.eqns, InitState(p.params, args));
      var outs :- EvalAtoms(st.env, p.outs);
      Some(Outcome(outs, st.heap))
  }

  /** Running a concatenation runs the first part, then the second from where it left off. */
  lemma {:induction false} ExecAppend(a: seq<Eqn>, b: seq<Eqn>, st: State)
    ensures ExecEqns(a + b, st) == match ExecEqns(a, st) case None => None case Some(st1) => ExecEqns(b, st1)
  {
    if a != [] {
      assert (a + b)[0] == a[0] && (a + b)[1..] == a[1..] + b;
      match ExecEqn(a[0], st)
      case None =>
      case Some(st1) => ExecAppend(a[1..], b, st1);
    } else {
      assert a + b == b;
    }
  }

  /** Evaluation never adds or removes references: only their contents change. */
  /**
   * A run of equations keeps the set of references, and a reference that no
   * equation writes or accumulates into keeps its contents.
   */
  lemma {:induction false} ExecEqnsFrame(es: seq<Eqn>, st: State)
    ensures ExecEqns(es, st).Some? ==> ExecEqns(es, st).value.heap.Keys == st.heap.Keys
    ensures ExecEqns(es, st).Some? ==>
              forall k :: k in st.heap && Write(k) !in EqnsEffects(es) && Accum(k) !in EqnsEffects(es) ==>
                ExecEqns(es, st).value.heap[k] == st.heap[k]
    decreases es
  {
    if es != [] {
      ExecEqnFrame(es[0], st);
      if ExecEqn(es[0], st).Some? {
        ExecEqnsFrame(es[1..], ExecEqn(es[0], st).value);
      }
    }
  }

  /**
   * One equation never adds or drops a reference, and changes only the
   * references its effects say it writes or accumulates into.
   */
  lemma {:induction false} ExecEqnFrame(e: Eqn, st: State)
    ensures ExecEqn(e, st).Some? ==> ExecEqn(e, st).value.heap.Keys == st.heap.Keys
    ensures ExecEqn(e, st).Some? ==>
              forall k :: k in st.heap && Write(k) !in EqnEffects(e) && Accum(k) !in EqnEffects(e) ==>
                ExecEqn(e, st).value.heap[k] == st.heap[k]
    decreases e
  {
    match e
    case Cond(pred, outs, tb, eb) =>
      ExecEqnsFrame(tb.eqns, st);
      ExecEqnsFrame(eb.eqns, st);
    case Get(out, r, idx) => GetFrame(out, r, idx, st);
    case Swap(dst, r, idx, val) => SwapFrame(dst, r, idx, val, st);
    case AddUpdate(r, idx, val) => AddUpdateFrame(r, idx, val, st);
    case Binary(_, _, _, _) => ValueFrame(e, st);
    case Slice(_, _, _) => ValueFrame(e, st);
    case Update(_, _, _, _) => ValueFrame(e, st);
    case Accumulate(_, _, _, _) => ValueFrame(e, st);
  }

  lemma GetFrame(out: nat, r: nat, idx: seq<Entry<Atom>>, st: State)
    ensures ExecEqn(Get(out, r, idx), st).Some? ==> ExecEqn(Get(out, r, idx), st).value.heap == st.heap
  {
  }

  /** `swap` changes the contents of its own reference only. */
  lemma SwapFrame(dst: Option<nat>, r: nat, idx: seq<Entry<Atom>>, val: Atom, st: State)
    ensures ExecEqn(Swap(dst, r, idx, val), st).Some? ==>
              r in st.heap && ExecEqn(Swap(dst, r, idx, val), st).value.heap.Keys == st.heap.Keys &&
              forall k :: k in st.heap && k != r ==> ExecEqn(Swap(dst, r, idx, val), st).value.heap[k] == st.heap[k]
  {
    if ExecEqn(Swap(dst, r, idx, val), st).Some? {
      var iv := EvalIndex(st.env, idx).value;
      var x := EvalAtom(st.env, val).value;
      var a := WriteSlice(st.heap[r], iv, x).value;
      assert ExecEqn(Swap(dst, r, idx, val), st).value.heap == st.heap[r := a];
    }
  }

  /** `addupdate` changes the contents of its own reference only. */
  lemma AddUpdateFrame(r: nat, idx: seq<Entry<Atom>>, val: Atom, st: State)
    ensures ExecEqn(AddUpdate(r, idx, val), st).Some? ==>
              r in st.heap && ExecEqn(AddUpdate(r, idx, val), st).value.heap.Keys == st.heap.Keys &&
              forall k :: k in st.heap && k != r ==> ExecEqn(AddUpdate(r, idx, val), st).value.heap[k] == st.heap[k]
  {
    if ExecEqn(AddUpdate(r, idx, val), st).Some? {
      var iv := EvalIndex(st.env, idx).value;
      var x := EvalAtom(st.env, val).value;
      var a := AddSlice(st.heap[r], iv, x).value;
      assert ExecEqn(AddUpdate(r, idx, val), st).value.heap == st.heap[r := a];
    }
  }

  /** The equations on array values leave every reference alone. */
  lemma ValueFrame(e: Eqn, st: State)
    requires e.Binary? || e.Slice? || e.Update? || e.Accumulate?
    ensures ExecEqn(e, st).Some? ==> ExecEqn(e, st).value.heap == st.heap
  {
  }

  /* ---------------------------------------------------------------- */
  /* Well-formedness                                                   */

  /** The atom does not name a reference: references appear only in reference position. */
  predicate ValueAtom(a: Atom, refs: set<nat>)
  {
    a.Var? ==> a.id !in refs
  }

  predicate ValueIndex(idx: seq<Entry<Atom>>, refs: set<nat>)
  {
    forall k :: 0 <= k < |idx| && idx[k].Idx? ==> ValueAtom(idx[k].operand, refs)
  }

  /**
   * Every variable the equation binds is not a parameter, every reference
   * position names a reference parameter, and no value position does.
   */
  predicate WfEqn(e: Eqn, n: nat, refs: set<nat>)
    decreases e
  {
    match e
    case Get(out, r, idx) => out >= n && r in refs && ValueIndex(idx, refs)
    case Swap(dst, r, idx, val) => (dst.Some? ==> dst.value >= n) && r in refs && ValueIndex(idx, refs) && ValueAtom(val, refs)
    case AddUpdate(r, idx, val) => r in refs && ValueIndex(idx, refs) && ValueAtom(val, refs)
    case Binary(out, _, x, y) => out >= n && ValueAtom(x, refs) && ValueAtom(y, refs)
    case Slice(out, src, idx) => out >= n && src !in refs && ValueIndex(idx, refs)
    case Update(out, src, idx, val) => out >= n && src !in refs && ValueIndex(idx, refs) && ValueAtom(val, refs)
    case Accumulate(out, src, idx, val) => out >= n && src !in refs && ValueIndex(idx, refs) && ValueAtom(val, refs)
    case Cond(pred, outs, tb, eb) =>
      ValueAtom(pred, refs) && (forall k :: 0 <= k < |outs| ==> outs[k] >= n) &&
      WfEqns(tb.eqns, n, refs) && (forall k :: 0 <= k < |tb.results| ==> ValueAtom(tb.results[k], refs)) &&
      WfEqns(eb.eqns, n, refs) && (forall k :: 0 <= k < |eb.results| ==> ValueAtom(eb.results[k], refs))
  }

  predicate WfEqns(es: seq<Eqn>, n: nat, refs: set<nat>)
    decreases es
  {
    forall k :: 0 <= k < |es| ==> WfEqn(es[k], n, refs)
  }

  /** Variables of reference type among the parameters. */
  function RefParams(params: seq<Type>): set<nat>
  {
    set i | 0 <= i < |params| && params[i].Ref?
  }

  predicate WellFormed(p: Jaxpr)
  {
    WfEqns(p.eqns, |p.params|, RefParams(p.params)) &&
    forall k :: 0 <= k < |p.outs| ==> ValueAtom(p.outs[k], RefParams(p.params))
  }

  /** In a well-formed program every effect names a reference parameter. */
  lemma {:induction false} EqnsEffectsOnRefs(es: seq<Eqn>, n: nat, refs: set<nat>)
    requires WfEqns(es, n, refs)
    ensures forall x :: x in EqnsEffects(es) ==> x.ref in refs
    decreases es
  {
    if es != [] {
      assert WfEqn(es[0], n, refs);
      assert WfEqns(es[1..], n, refs) by {
        forall k | 0 <= k < |es[1..]| ensures WfEqn(es[1..][k], n, refs) {
          assert es[1..][k] == es[k + 1];
        }
      }
      EqnEffectsOnRefs(es[0], n, refs);
      EqnsEffectsOnRefs(es[1..], n, refs);
    }
  }

  lemma {:induction false} EqnEffectsOnRefs(e: Eqn, n: nat, refs: set<nat>)
    requires WfEqn(e, n, refs)
    ensures forall x :: x in EqnEffects(e) ==> x.ref in refs
    decreases e
  {
    match e
    case Cond(pred, outs, tb, eb) =>
      EqnsEffectsOnRefs(tb.eqns, n, refs);
      EqnsEffectsOnRefs(eb.eqns, n, refs);
    case _ =>
  }

  /* ---------------------------------------------------------------- */
  /* Variables                                                         */

  function AtomMax(a: Atom): nat
  {
    if a.Var? then a.id else 0
  }

  function AtomsMax(atoms: seq<Atom>): nat
  {
    if atoms == [] then 0 else Max(AtomMax(atoms[0]), AtomsMax(atoms[1..]))
  }

  function IndexMax(idx: seq<Entry<Atom>>): nat
  {
    if idx == [] then 0 else Max(if idx[0].Idx? then AtomMax(idx[0].operand) else 0, IndexMax(idx[1..]))
  }

  function NatsMax(s: seq<nat>): nat
  {
    if s == [] then 0 else Max(s[0], NatsMax(s[1..]))
  }

  function Max(a: nat, b: nat): nat
  {
    if a < b then b else a
  }

  /** The largest variable an equation mentions (0 when none). */
  function EqnMax(e: Eqn): nat
    decreases e
  {
    match e
    case Get(out, r, idx) => Max(Max(out, r), IndexMax(idx))
    case Swap(dst, r, idx, val) => Max(Max(if dst.Some? then dst.value else 0, r), Max(IndexMax(idx), AtomMax(val)))
    case AddUpdate(r, idx, val) => Max(r, Max(IndexMax(idx), AtomMax(val)))
    case Binary(out, _, x, y) => Max(out, Max(AtomMax(x), AtomMax(y)))
    case Slice(out, src, idx) => Max(Max(out, src), IndexMax(idx))
    case Update(out, src, idx, val) => Max(Max(out, src), Max(IndexMax(idx), AtomMax(val)))
    case Accumulate(out, src, idx, val) => Max(Max(out, src), Max(IndexMax(idx), AtomMax(val)))
    case Cond(pred, outs, tb, eb) =>
      Max(Max(AtomMax(pred), NatsMax(outs)),
          Max(Max(EqnsMax(tb.eqns), AtomsMax(tb.results)), Max(EqnsMax(eb.eqns), AtomsMax(eb.results))))
  }

  function EqnsMax(es: seq<Eqn>): nat
    decreases es
  {
    if es == [] then 0 else Max(EqnMax(es[0]), EqnsMax(es[1..]))
  }

  /** A variable no parameter and no equation of `p` uses: the first one discharge may allocate. */
  function FreshBase(p: Jaxpr): nat
  {
    Max(|p.params|, Max(EqnsMax(p.eqns), AtomsMax(p.outs)) + 1)
  }

  lemma {:induction false} AtomsMaxBound(atoms: seq<Atom>)
    ensures forall k :: 0 <= k < |atoms| ==> AtomMax(atoms[k]) <= AtomsMax(atoms)
  {
    if atoms != [] {
      AtomsMaxBound(atoms[1..]);
      assert forall k :: 1 <= k < |atoms| ==> atoms[k] == atoms[1..][k - 1];
    }
  }

  lemma {:induction false} IndexMaxBound(idx: seq<Entry<Atom>>)
    ensures forall k :: 0 <= k < |idx| && idx[k].Idx? ==> AtomMax(idx[k].operand) <= IndexMax(idx)
  {
    if idx != [] {
      IndexMaxBound(idx[1..]);
      assert forall k :: 1 <= k < |idx| ==> idx[k] == idx[1..][k - 1];
    }
  }

  lemma {:induction false} NatsMaxBound(s: seq<nat>)
    ensures forall k :: 0 <= k < |s| ==> s[k] <= NatsMax(s)
  {
    if s != [] {
      NatsMaxBound(s[1..]);
      assert forall k :: 1 <= k < |s| ==> s[k] == s[1..][k - 1];
    }
  }

  /* ---------------------------------------------------------------- */
  /* Binding several variables                                         */

  /** A variable outside `vars` keeps its binding, or stays unbound. */
  lemma {:induction false} BindAllOutside(env: Env, vars: seq<nat>, vals: seq<Array>, v: nat)
    requires |vars| == |vals| && v !in vars
    ensures (v in BindAll(env, vars, vals) <==> v in env)
    ensures v in env ==> BindAll(env, vars, vals)[v] == env[v]
    decreases |vars|
  {
    if vars != [] {
      assert v !in vars[1..];
      BindAllOutside(env[vars[0] := vals[0]], vars[1..], vals[1..], v);
    }
  }

  /** Two environments that agree on `v` still agree on `v` after the same bindings. */
  lemma {:induction false} BindAllAgree(env1: Env, env2: Env, vars: seq<nat>, vals: seq<Array>, v: nat)
    requires |vars| == |vals|
    requires (v in env1 <==> v in env2) && (v in env1 ==> env1[v] == env2[v])
    ensures (v in BindAll(env1, vars, vals) <==> v in BindAll(env2, vars, vals))
    ensures v in BindAll(env1, vars, vals) ==> BindAll(env1, vars, vals)[v] == BindAll(env2, vars, vals)[v]
    decreases |vars|
  {
    if vars != [] {
      BindAllAgree(env1[vars[0] := vals[0]], env2[vars[0] := vals[0]], vars[1..], vals[1..], v);
    }
  }

  lemma {:induction false} BindAllAppend(env: Env, a: seq<nat>, b: seq<nat>, x: seq<Array>, y: seq<Array>)
    requires |a| == |x| && |b| == |y|
    ensures BindAll(env, a + b, x + y) == BindAll(BindAll(env, a, x), b, y)
    decreases |a|
  {
    if a == [] {
      assert a + b == b && x + y == y;
    } else {
      assert (a + b)[0] == a[0] && (a + b)[1..] == a[1..] + b;
      assert (x + y)[0] == x[0] && (x + y)[1..] == x[1..] + y;
      BindAllAppend(env[a[0] := x[0]], a[1..], b, x[1..], y);
    }
  }

  /** With distinct variables, each one ends up bound to its own value. */
  lemma {:induction false} BindAllDistinct(env: Env, vars: seq<nat>, vals: seq<Array>, i: nat)
    requires |vars| == |vals| && Distinct(vars) && i < |vars|
    ensures vars[i] in BindAll(env, vars, vals) && BindAll(env, vars, vals)[vars[i]] == vals[i]
    decreases |vars|
  {
    if i == 0 {
      assert vars[0] !in vars[1..] by {
        forall k | 0 <= k < |vars[1..]| ensures vars[1..][k] != vars[0] {
          assert vars[k + 1] == vars[1..][k];
        }
      }
      BindAllOutside(env[vars[0] := vals[0]], vars[1..], vals[1..], vars[0]);
    } else {
      assert Distinct(vars[1..]) by {
        forall a, b | 0 <= a < |vars[1..]| && 0 <= b < |vars[1..]| && vars[1..][a] == vars[1..][b]
          ensures a == b
        {
          assert vars[a + 1] == vars[b + 1];
        }
      }
      BindAllDistinct(env[vars[0] := vals[0]], vars[1..], vals[1..], i - 1);
    }
  }
}
