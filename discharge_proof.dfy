/**
 * Correctness of discharge: running the discharged program gives the
 * original outputs followed by the final contents of the selected
 * references, and leaves the other references exactly as the original run
 * leaves them.
 */
module DischargeProof {
  import opened Wrappers
  import opened Shapes
  import opened Indexing
  import opened Arrays
  import opened Program
  import opened Discharge

  /** The final contents of the references `ds` that the heap holds, in order. */
  function Finals(heap: map<nat, Array>, ds: seq<nat>): (r: seq<Array>)
    ensures (forall d :: d in ds ==> d in heap) ==>
              |r| == |ds| && forall i :: 0 <= i < |ds| ==> r[i] == heap[ds[i]]
  {
    if ds == [] then []
    else
      var rest := Finals(heap, ds[1..]);
      assert forall d :: d in ds[1..] ==> d in ds;
      (if ds[0] in heap then [heap[ds[0]]] else []) + rest
  }

  /** What the discharged program is expected to produce from an outcome of the original. */
  function Expected(o: Option<Outcome>, ds: seq<nat>): Option<Outcome>
  {
    match o
    case None => None
    case Some(x) => Some(Outcome(x.outs + Finals(x.heap, ds), x.heap - (set d | d in ds)))
  }

  /**
   * Simulation between an original state `s` and a discharged state `t`:
   * each selected reference `d` is held by variable `cur[d]` (the parameter
   * itself, or a variable at or above `N` and below `f`), every other
   * variable below `N` has the same value on both sides, and the heaps agree
   * except that the discharged one no longer holds the selected references.
   */
  ghost predicate Inv(s: State, t: State, cur: map<nat, nat>, n: nat, N: nat, f: nat, refs: set<nat>)
  {
    n <= N <= f && cur.Keys <= refs &&
    (forall d :: d in cur ==> d < n && (cur[d] == d || N <= cur[d] < f)) &&
    (forall d :: d in cur ==> d in s.heap && cur[d] in t.env && t.env[cur[d]] == s.heap[d]) &&
    (forall v :: v < N && v !in cur ==> (v in s.env <==> v in t.env)) &&
    (forall v :: v < N && v !in cur && v in s.env ==> t.env[v] == s.env[v]) &&
    t.heap == s.heap - cur.Keys
  }

  /** Both runs get stuck, or both finish in related states. */
  ghost predicate Corr(o: Option<State>, o': Option<State>, cur: map<nat, nat>, n: nat, N: nat, f: nat, refs: set<nat>)
  {
    (o.None? <==> o'.None?) && (o.Some? ==> Inv(o.value, o'.value, cur, n, N, f, refs))
  }

  /* ---------------------------------------------------------------- */
  /* Operands evaluate alike                                           */

  lemma AtomAgree(s: State, t: State, cur: map<nat, nat>, n: nat, N: nat, f: nat, refs: set<nat>, a: Atom)
    requires Inv(s, t, cur, n, N, f, refs) && ValueAtom(a, refs) && AtomMax(a) < N
    ensures EvalAtom(s.env, a) == EvalAtom(t.env, a)
  {
  }

  lemma {:induction false} IndexAgree(s: State, t: State, cur: map<nat, nat>, n: nat, N: nat, f: nat, refs: set<nat>, idx: seq<Entry<Atom>>)
    requires Inv(s, t, cur, n, N, f, refs) && ValueIndex(idx, refs) && IndexMax(idx) < N
    ensures EvalIndex(s.env, idx) == EvalIndex(t.env, idx)
  {
    if idx != [] {
      assert forall k :: 1 <= k < |idx| ==> idx[k] == idx[1..][k - 1];
      IndexAgree(s, t, cur, n, N, f, refs, idx[1..]);
      if idx[0].Idx? {
        AtomAgree(s, t, cur, n, N, f, refs, idx[0].operand);
      }
    }
  }

  lemma {:induction false} AtomsAgree(s: State, t: State, cur: map<nat, nat>, n: nat, N: nat, f: nat, refs: set<nat>, atoms: seq<Atom>)
    requires Inv(s, t, cur, n, N, f, refs) && AtomsMax(atoms) < N
    requires forall k :: 0 <= k < |atoms| ==> ValueAtom(atoms[k], refs)
    ensures EvalAtoms(s.env, atoms) == EvalAtoms(t.env, atoms)
  {
    if atoms != [] {
      assert forall k :: 1 <= k < |atoms| ==> atoms[k] == atoms[1..][k - 1];
      AtomsAgree(s, t, cur, n, N, f, refs, atoms[1..]);
      AtomAgree(s, t, cur, n, N, f, refs, atoms[0]);
    }
  }

  lemma {:induction false} EvalAtomsAppend(env: Env, a: seq<Atom>, b: seq<Atom>)
    ensures EvalAtoms(env, a + b) ==
            match (EvalAtoms(env, a), EvalAtoms(env, b))
            case (Some(x), Some(y)) => Some(x + y)
            case _ => None
  {
    if a == [] {
      assert a + b == b;
      match EvalAtoms(env, b)
      case Some(y) => assert [] + y == y;
      case None =>
    } else {
      assert (a + b)[0] == a[0] && (a + b)[1..] == a[1..] + b;
      EvalAtomsAppend(env, a[1..], b);
      match (EvalAtom(env, a[0]), EvalAtoms(env, a[1..]), EvalAtoms(env, b))
      case (Some(x), Some(xs), Some(y)) =>
        assert [x] + (xs + y) == ([x] + xs) + y;
      case _ =>
    }
  }

  /** The current-value atoms evaluate to the final contents of the selected references. */
  lemma {:induction false} CurrentAgree(s: State, t: State, cur: map<nat, nat>, n: nat, N: nat, f: nat, refs: set<nat>, ds: seq<nat>)
    requires Inv(s, t, cur, n, N, f, refs) && cur.Keys == set d | d in ds
    ensures EvalAtoms(t.env, CurrentAtoms(ds, cur)) == Some(Finals(s.heap, ds))
  {
    if ds != [] {
      assert CurrentAtoms(ds, cur)[1..] == CurrentAtoms(ds[1..], cur);
      assert ds[0] in cur;
      CurrentAgreeTail(s, t, cur, n, N, f, refs, ds[1..]);
    }
  }

  lemma {:induction false} CurrentAgreeTail(s: State, t: State, cur: map<nat, nat>, n: nat, N: nat, f: nat, refs: set<nat>, ds: seq<nat>)
    requires Inv(s, t, cur, n, N, f, refs) && (set d | d in ds) <= cur.Keys
    ensures EvalAtoms(t.env, CurrentAtoms(ds, cur)) == Some(Finals(s.heap, ds))
  {
    if ds != [] {
      assert CurrentAtoms(ds, cur)[1..] == CurrentAtoms(ds[1..], cur);
      assert ds[0] in cur;
      assert (set d | d in ds[1..]) <= cur.Keys by {
        forall d | d in ds[1..] ensures d in cur.Keys {
          assert d in ds;
        }
      }
      CurrentAgreeTail(s, t, cur, n, N, f, refs, ds[1..]);
    }
  }

  /* ---------------------------------------------------------------- */
  /* State updates keep the simulation                                 */

  /** Both sides bind the same original variable to the same value. */
  lemma BindOriginal(s: State, t: State, cur: map<nat, nat>, n: nat, N: nat, f: nat, refs: set<nat>, out: nat, v: Array)
    requires Inv(s, t, cur, n, N, f, refs) && n <= out < N
    ensures Inv(State(s.env[out := v], s.heap), State(t.env[out := v], t.heap), cur, n, N, f, refs)
  {
  }

  /** The discharged side binds a variable that is not in use yet. */
  lemma BindFresh(s: State, t: State, cur: map<nat, nat>, n: nat, N: nat, f: nat, refs: set<nat>, w: nat, v: Array)
    requires Inv(s, t, cur, n, N, f, refs) && f <= w
    ensures Inv(s, State(t.env[w := v], t.heap), cur, n, N, f, refs)
  {
  }

  /** A write to a selected reference: the variable `w` becomes its current value. */
  lemma Commit(s: State, t: State, cur: map<nat, nat>, n: nat, N: nat, f: nat, refs: set<nat>, r: nat, w: nat, val: Array)
    requires Inv(s, t, cur, n, N, f, refs) && r in cur && f <= w && w in t.env && t.env[w] == val
    ensures Inv(State(s.env, s.heap[r := val]), t, cur[r := w], n, N, w + 1, refs)
  {
    var h := s.heap[r := val];
    var c: map<nat, nat> := cur[r := w];
    assert c.Keys == cur.Keys;
    RemoveUpdated(s.heap, r, val, cur.Keys);
  }

  /** Overwriting a key that is then removed leaves no trace. */
  lemma RemoveUpdated(m: map<nat, Array>, k: nat, v: Array, keys: set<nat>)
    requires k in keys
    ensures m[k := v] - keys == m - keys
  {
  }

  /** A write to a reference that is not selected happens on both sides. */
  lemma KeptWrite(s: State, t: State, cur: map<nat, nat>, n: nat, N: nat, f: nat, refs: set<nat>, r: nat, val: Array)
    requires Inv(s, t, cur, n, N, f, refs) && r !in cur
    ensures Inv(State(s.env, s.heap[r := val]), State(t.env, t.heap[r := val]), cur, n, N, f, refs)
  {
    assert t.heap[r := val] == s.heap[r := val] - cur.Keys;
  }

  lemma Weaken(s: State, t: State, cur: map<nat, nat>, n: nat, N: nat, f: nat, f': nat, refs: set<nat>)
    requires Inv(s, t, cur, n, N, f, refs) && f <= f'
    ensures Inv(s, t, cur, n, N, f', refs)
  {
  }

  lemma ExecSingle(e: Eqn, st: State)
    ensures ExecEqns([e], st) == ExecEqn(e, st)
  {
    assert [e][1..] == [];
  }

  lemma ExecPair(a: Eqn, b: Eqn, st: State)
    ensures ExecEqns([a, b], st) == match ExecEqn(a, st) case None => None case Some(st1) => ExecEqn(b, st1)
  {
    assert [a, b][1..] == [b];
    if ExecEqn(a, st).Some? {
      ExecSingle(b, ExecEqn(a, st).value);
    }
  }

  /* ---------------------------------------------------------------- */
  /* One equation at a time                                            */

  /** What each per-equation lemma assumes. */
  ghost predicate Pre(e: Eqn, ds: seq<nat>, cur: map<nat, nat>, f: nat, s: State, t: State, n: nat, N: nat, refs: set<nat>)
  {
    cur.Keys == (set d | d in ds) && Distinct(ds) && WfEqn(e, n, refs) && EqnMax(e) < N && Inv(s, t, cur, n, N, f, refs)
  }

  /** What each per-equation lemma establishes. */
  ghost predicate Post(e: Eqn, ds: seq<nat>, cur: map<nat, nat>, f: nat, s: State, t: State, n: nat, N: nat, refs: set<nat>)
  {
    var h := DischargeEqn(e, ds, cur, f);
    Corr(ExecEqn(e, s), ExecEqns(h.eqns, t), h.cur, n, N, h.next, refs)
  }

  lemma GetCorrect(e: Eqn, ds: seq<nat>, cur: map<nat, nat>, f: nat, s: State, t: State, n: nat, N: nat, refs: set<nat>)
    requires e.Get? && Pre(e, ds, cur, f, s, t, n, N, refs)
    ensures Post(e, ds, cur, f, s, t, n, N, refs)
  {
    var h := DischargeEqn(e, ds, cur, f);
    var Get(out, r, idx) := e;
    IndexAgree(s, t, cur, n, N, f, refs, idx);
    ExecSingle(h.eqns[0], t);
    var o := ExecEqn(e, s);
    if r in cur {
      assert h.eqns[0] == Slice(out, cur[r], idx);
      GetSelected(s, t, cur, n, N, f, refs, out, r, idx);
    } else {
      assert h.eqns[0] == e;
      if o.Some? {
        BindOriginal(s, t, cur, n, N, f, refs, out, o.value.env[out]);
      }
    }
  }

  lemma GetSelected(s: State, t: State, cur: map<nat, nat>, n: nat, N: nat, f: nat, refs: set<nat>, out: nat, r: nat, idx: seq<Entry<Atom>>)
    requires Inv(s, t, cur, n, N, f, refs) && r in cur && n <= out < N
    requires EvalIndex(s.env, idx) == EvalIndex(t.env, idx)
    ensures Corr(ExecEqn(Get(out, r, idx), s), ExecEqn(Slice(out, cur[r], idx), t), cur, n, N, f, refs)
  {
    var o := ExecEqn(Get(out, r, idx), s);
    var o' := ExecEqn(Slice(out, cur[r], idx), t);
    assert t.env[cur[r]] == s.heap[r];
    if o.Some? {
      BindOriginal(s, t, cur, n, N, f, refs, out, o.value.env[out]);
    }
  }

  lemma SwapCorrect(e: Eqn, ds: seq<nat>, cur: map<nat, nat>, f: nat, s: State, t: State, n: nat, N: nat, refs: set<nat>)
    requires e.Swap? && Pre(e, ds, cur, f, s, t, n, N, refs)
    ensures Post(e, ds, cur, f, s, t, n, N, refs)
  {
    var Swap(dst, r, idx, val) := e;
    IndexAgree(s, t, cur, n, N, f, refs, idx);
    AtomAgree(s, t, cur, n, N, f, refs, val);
    if r in cur {
      var upd := Update(f, cur[r], idx, val);
      assert DischargeEqn(e, ds, cur, f) ==
             Threaded(match dst case None => [upd] case Some(o) => [upd, Slice(o, cur[r], idx)], cur[r := f], f + 1);
      SwapSelected(s, t, cur, n, N, f, refs, dst, r, idx, val);
    } else {
      assert DischargeEqn(e, ds, cur, f) == Threaded([e], cur, f);
      ExecSingle(e, t);
      SwapKept(s, t, cur, n, N, f, refs, dst, r, idx, val);
    }
  }

  /** The old slice and the new contents a swap computes, or `None` when it gets stuck. */
  function SwapParts(st: State, r: nat, idx: seq<Entry<Atom>>, val: Atom): Option<(Array, Array)>
  {
    if r !in st.heap then None
    else
      var iv :- EvalIndex(st.env, idx);
      var x :- EvalAtom(st.env, val);
      var old_ :- ReadSlice(st.heap[r], iv);
      var new_ :- WriteSlice(st.heap[r], iv, x);
      Some((old_, new_))
  }

  lemma SwapForm(st: State, dst: Option<nat>, r: nat, idx: seq<Entry<Atom>>, val: Atom)
    ensures ExecEqn(Swap(dst, r, idx, val), st) ==
            match SwapParts(st, r, idx, val)
            case None => None
            case Some((o, w)) => Some(State(match dst case None => st.env case Some(out) => st.env[out := o], st.heap[r := w]))
  {
  }

  /** The scatter of a discharged swap computes the new contents from the current value `c`. */
  lemma ScatterForm(s: State, t: State, w: nat, c: nat, r: nat, idx: seq<Entry<Atom>>, val: Atom)
    requires r in s.heap && c in t.env && t.env[c] == s.heap[r]
    requires EvalIndex(s.env, idx) == EvalIndex(t.env, idx) && EvalAtom(s.env, val) == EvalAtom(t.env, val)
    ensures ExecEqn(Update(w, c, idx, val), t) ==
            match SwapParts(s, r, idx, val)
            case None => None
            case Some((_, nw)) => Some(State(t.env[w := nw], t.heap))
  {
  }

  /** The read-back of a discharged swap takes the old slice from the previous current value `c`. */
  lemma ReadBackForm(s: State, t: State, out: nat, c: nat, r: nat, idx: seq<Entry<Atom>>, val: Atom)
    requires SwapParts(s, r, idx, val).Some? && c in t.env && t.env[c] == s.heap[r]
    requires EvalIndex(s.env, idx) == EvalIndex(t.env, idx)
    ensures ExecEqn(Slice(out, c, idx), t) == Some(State(t.env[out := SwapParts(s, r, idx, val).value.0], t.heap))
  {
    var iv := SwapOld(s, r, idx, val);
    SliceForm(t, out, c, idx, iv, SwapParts(s, r, idx, val).value.0);
  }

  /** A slice of variable `c` binds the part `o` that the index values select. */
  lemma SliceForm(t: State, out: nat, c: nat, idx: seq<Entry<Atom>>, iv: seq<Entry<Array>>, o: Array)
    requires c in t.env && EvalIndex(t.env, idx) == Some(iv) && ReadSlice(t.env[c], iv) == Some(o)
    ensures ExecEqn(Slice(out, c, idx), t) == Some(State(t.env[out := o], t.heap))
  {
  }

  /** The old slice of a swap that runs is the slice its index values select. */
  lemma SwapOld(s: State, r: nat, idx: seq<Entry<Atom>>, val: Atom) returns (iv: seq<Entry<Array>>)
    requires SwapParts(s, r, idx, val).Some?
    ensures r in s.heap && EvalIndex(s.env, idx) == Some(iv)
    ensures ReadSlice(s.heap[r], iv) == Some(SwapParts(s, r, idx, val).value.0)
  {
    iv := EvalIndex(s.env, idx).value;
  }

  /** Operands that evaluate alike and equal contents make a swap compute the same parts. */
  lemma PartsAgree(s: State, t: State, r: nat, idx: seq<Entry<Atom>>, val: Atom)
    requires (r in s.heap <==> r in t.heap) && (r in s.heap ==> t.heap[r] == s.heap[r])
    requires EvalIndex(s.env, idx) == EvalIndex(t.env, idx) && EvalAtom(s.env, val) == EvalAtom(t.env, val)
    ensures SwapParts(s, r, idx, val) == SwapParts(t, r, idx, val)
  {
  }

  /** A swap on a reference that is not selected happens on both sides. */
  lemma SwapKept(s: State, t: State, cur: map<nat, nat>, n: nat, N: nat, f: nat, refs: set<nat>,
                 dst: Option<nat>, r: nat, idx: seq<Entry<Atom>>, val: Atom)
    requires Inv(s, t, cur, n, N, f, refs) && r !in cur && (dst.Some? ==> n <= dst.value < N)
    requires EvalIndex(s.env, idx) == EvalIndex(t.env, idx) && EvalAtom(s.env, val) == EvalAtom(t.env, val)
    ensures Corr(ExecEqn(Swap(dst, r, idx, val), s), ExecEqn(Swap(dst, r, idx, val), t), cur, n, N, f, refs)
  {
    assert (r in s.heap <==> r in t.heap) && (r in s.heap ==> t.heap[r] == s.heap[r]);
    PartsAgree(s, t, r, idx, val);
    SwapForm(s, dst, r, idx, val);
    SwapForm(t, dst, r, idx, val);
    var p := SwapParts(s, r, idx, val);
    if p.Some? {
      var (o, w) := p.value;
      KeptWrite(s, t, cur, n, N, f, refs, r, w);
      if dst.Some? {
        BindOriginal(State(s.env, s.heap[r := w]), State(t.env, t.heap[r := w]), cur, n, N, f, refs, dst.value, o);
      }
    }
  }

  /** A discharged swap: the scatter binds the next fresh variable, then the read-back binds the output. */
  lemma SwapSelected(s: State, t: State, cur: map<nat, nat>, n: nat, N: nat, f: nat, refs: set<nat>,
                     dst: Option<nat>, r: nat, idx: seq<Entry<Atom>>, val: Atom)
    requires Inv(s, t, cur, n, N, f, refs) && r in cur && (dst.Some? ==> n <= dst.value < N)
    requires ValueIndex(idx, refs) && IndexMax(idx) < N
    requires EvalIndex(s.env, idx) == EvalIndex(t.env, idx) && EvalAtom(s.env, val) == EvalAtom(t.env, val)
    ensures Corr(ExecEqn(Swap(dst, r, idx, val), s),
                 ExecEqns(match dst case None => [Update(f, cur[r], idx, val)]
                                    case Some(o) => [Update(f, cur[r], idx, val), Slice(o, cur[r], idx)], t),
                 cur[r := f], n, N, f + 1, refs)
  {
    var c := cur[r];
    assert r in s.heap && c in t.env && t.env[c] == s.heap[r] && c < f;
    SwapForm(s, dst, r, idx, val);
    ScatterForm(s, t, f, c, r, idx, val);
    match dst
    case None =>
      ExecSingle(Update(f, c, idx, val), t);
      if SwapParts(s, r, idx, val).Some? {
        CommitFresh(s, t, cur, n, N, f, refs, r, SwapParts(s, r, idx, val).value.1);
      }
    case Some(out) =>
      if SwapParts(s, r, idx, val).Some? {
        CommitFresh(s, t, cur, n, N, f, refs, r, SwapParts(s, r, idx, val).value.1);
      }
      SwapBoth(s, t, cur, n, N, f, refs, out, r, idx, val);
  }

  /** A discharged swap with an output: scatter into `f`, then read the old slice back from the previous current value. */
  lemma SwapBoth(s: State, t: State, cur: map<nat, nat>, n: nat, N: nat, f: nat, refs: set<nat>,
                 out: nat, r: nat, idx: seq<Entry<Atom>>, val: Atom)
    requires r in cur && n <= out < N
    requires ValueIndex(idx, refs) && IndexMax(idx) < N
    requires r in s.heap && cur[r] in t.env && t.env[cur[r]] == s.heap[r] && cur[r] < f
    requires SwapParts(s, r, idx, val).Some? ==>
             var w := SwapParts(s, r, idx, val).value.1;
             Inv(State(s.env, s.heap[r := w]), State(t.env[f := w], t.heap), cur[r := f], n, N, f + 1, refs)
    requires EvalIndex(s.env, idx) == EvalIndex(t.env, idx)
    requires ExecEqn(Swap(Some(out), r, idx, val), s) ==
             match SwapParts(s, r, idx, val)
             case None => None
             case Some((o, w)) => Some(State(s.env[out := o], s.heap[r := w]))
    requires ExecEqn(Update(f, cur[r], idx, val), t) ==
             match SwapParts(s, r, idx, val)
             case None => None
             case Some((_, nw)) => Some(State(t.env[f := nw], t.heap))
    ensures Corr(ExecEqn(Swap(Some(out), r, idx, val), s),
                 ExecEqns([Update(f, cur[r], idx, val), Slice(out, cur[r], idx)], t),
                 cur[r := f], n, N, f + 1, refs)
  {
    var c := cur[r];
    ExecPair(Update(f, c, idx, val), Slice(out, c, idx), t);
    var p := SwapParts(s, r, idx, val);
    if p.Some? {
      var (o, w) := p.value;
      var t1 := State(t.env[f := w], t.heap);
      IndexAgree(State(s.env, s.heap[r := w]), t1, cur[r := f], n, N, f + 1, refs, idx);
      ReadBackForm(s, t1, out, c, r, idx, val);
      BindOriginal(State(s.env, s.heap[r := w]), t1, cur[r := f], n, N, f + 1, refs, out, o);
    }
  }

  /** After the scatter the fresh variable `f` holds the new contents of `r`. */
  lemma CommitFresh(s: State, t: State, cur: map<nat, nat>, n: nat, N: nat, f: nat, refs: set<nat>, r: nat, w: Array)
    requires Inv(s, t, cur, n, N, f, refs) && r in cur
    ensures Inv(State(s.env, s.heap[r := w]), State(t.env[f := w], t.heap), cur[r := f], n, N, f + 1, refs)
  {
    BindFresh(s, t, cur, n, N, f, refs, f, w);
    Commit(s, State(t.env[f := w], t.heap), cur, n, N, f, refs, r, f, w);
  }

  lemma AddUpdateCorrect(e: Eqn, ds: seq<nat>, cur: map<nat, nat>, f: nat, s: State, t: State, n: nat, N: nat, refs: set<nat>)
    requires e.AddUpdate? && Pre(e, ds, cur, f, s, t, n, N, refs)
    ensures Post(e, ds, cur, f, s, t, n, N, refs)
  {
    var AddUpdate(r, idx, val) := e;
    IndexAgree(s, t, cur, n, N, f, refs, idx);
    AtomAgree(s, t, cur, n, N, f, refs, val);
    if r in cur {
      var acc := Accumulate(f, cur[r], idx, val);
      assert DischargeEqn(e, ds, cur, f) == Threaded([acc], cur[r := f], f + 1);
      ExecSingle(acc, t);
      AddSelected(s, t, cur, n, N, f, refs, r, idx, val);
    } else {
      assert DischargeEqn(e, ds, cur, f) == Threaded([e], cur, f);
      ExecSingle(e, t);
      AddKept(s, t, cur, n, N, f, refs, r, idx, val);
    }
  }

  /** The new contents an accumulation computes, or `None` when it gets stuck. */
  function AddParts(st: State, r: nat, idx: seq<Entry<Atom>>, val: Atom): Option<Array>
  {
    if r !in st.heap then None
    else
      var iv :- EvalIndex(st.env, idx);
      var x :- EvalAtom(st.env, val);
      AddSlice(st.heap[r], iv, x)
  }

  lemma AddForm(st: State, r: nat, idx: seq<Entry<Atom>>, val: Atom)
    ensures ExecEqn(AddUpdate(r, idx, val), st) ==
            match AddParts(st, r, idx, val) case None => None case Some(w) => Some(State(st.env, st.heap[r := w]))
  {
  }

  /** The discharged accumulation computes the new contents from the current value `c`. */
  lemma AccumForm(s: State, t: State, w: nat, c: nat, r: nat, idx: seq<Entry<Atom>>, val: Atom)
    requires r in s.heap && c in t.env && t.env[c] == s.heap[r]
    requires EvalIndex(s.env, idx) == EvalIndex(t.env, idx) && EvalAtom(s.env, val) == EvalAtom(t.env, val)
    ensures ExecEqn(Accumulate(w, c, idx, val), t) ==
            match AddParts(s, r, idx, val) case None => None case Some(nw) => Some(State(t.env[w := nw], t.heap))
  {
  }

  lemma AddPartsAgree(s: State, t: State, r: nat, idx: seq<Entry<Atom>>, val: Atom)
    requires (r in s.heap <==> r in t.heap) && (r in s.heap ==> t.heap[r] == s.heap[r])
    requires EvalIndex(s.env, idx) == EvalIndex(t.env, idx) && EvalAtom(s.env, val) == EvalAtom(t.env, val)
    ensures AddParts(s, r, idx, val) == AddParts(t, r, idx, val)
  {
  }

  /** A discharged accumulation binds the next fresh variable to the new contents. */
  lemma AddSelected(s: State, t: State, cur: map<nat, nat>, n: nat, N: nat, f: nat, refs: set<nat>, r: nat, idx: seq<Entry<Atom>>, val: Atom)
    requires Inv(s, t, cur, n, N, f, refs) && r in cur
    requires EvalIndex(s.env, idx) == EvalIndex(t.env, idx) && EvalAtom(s.env, val) == EvalAtom(t.env, val)
    ensures Corr(ExecEqn(AddUpdate(r, idx, val), s), ExecEqn(Accumulate(f, cur[r], idx, val), t), cur[r := f], n, N, f + 1, refs)
  {
    assert r in s.heap && cur[r] in t.env && t.env[cur[r]] == s.heap[r];
    AddForm(s, r, idx, val);
    AccumForm(s, t, f, cur[r], r, idx, val);
    if AddParts(s, r, idx, val).Some? {
      CommitFresh(s, t, cur, n, N, f, refs, r, AddParts(s, r, idx, val).value);
    }
  }

  /** An accumulation into a reference that is not selected happens on both sides. */
  lemma AddKept(s: State, t: State, cur: map<nat, nat>, n: nat, N: nat, f: nat, refs: set<nat>, r: nat, idx: seq<Entry<Atom>>, val: Atom)
    requires Inv(s, t, cur, n, N, f, refs) && r !in cur
    requires EvalIndex(s.env, idx) == EvalIndex(t.env, idx) && EvalAtom(s.env, val) == EvalAtom(t.env, val)
    ensures Corr(ExecEqn(AddUpdate(r, idx, val), s), ExecEqn(AddUpdate(r, idx, val), t), cur, n, N, f, refs)
  {
    assert (r in s.heap <==> r in t.heap) && (r in s.heap ==> t.heap[r] == s.heap[r]);
    AddPartsAgree(s, t, r, idx, val);
    AddForm(s, r, idx, val);
    AddForm(t, r, idx, val);
    if AddParts(s, r, idx, val).Some? {
      KeptWrite(s, t, cur, n, N, f, refs, r, AddParts(s, r, idx, val).value);
    }
  }

  /** Binary operations and the value-level slice operations are left alone by discharge. */
  lemma PureCorrect(e: Eqn, ds: seq<nat>, cur: map<nat, nat>, f: nat, s: State, t: State, n: nat, N: nat, refs: set<nat>)
    requires (e.Binary? || e.Slice? || e.Update? || e.Accumulate?) && Pre(e, ds, cur, f, s, t, n, N, refs)
    ensures Post(e, ds, cur, f, s, t, n, N, refs)
  {
    assert DischargeEqn(e, ds, cur, f) == Threaded([e], cur, f);
    ExecSingle(e, t);
    if e.Binary? {
      AtomAgree(s, t, cur, n, N, f, refs, e.x);
      AtomAgree(s, t, cur, n, N, f, refs, e.y);
    } else {
      IndexAgree(s, t, cur, n, N, f, refs, e.idx);
      if !e.Slice? {
        AtomAgree(s, t, cur, n, N, f, refs, e.val);
      }
    }
    PureStep(e, s, t, cur, n, N, f, refs);
  }

  /** The value a binary operation or a value-level slice operation binds, or `None` when it gets stuck. */
  function PureValue(e: Eqn, env: Env): Option<Array>
  {
    match e
    case Binary(_, op, x, y) =>
      var a :- EvalAtom(env, x);
      var b :- EvalAtom(env, y);
      ApplyBinary(op, a, b)
    case Slice(_, src, idx) =>
      if src !in env then None
      else
        var iv :- EvalIndex(env, idx);
        ReadSlice(env[src], iv)
    case Update(_, src, idx, val) =>
      if src !in env then None
      else
        var iv :- EvalIndex(env, idx);
        var x :- EvalAtom(env, val);
        WriteSlice(env[src], iv, x)
    case Accumulate(_, src, idx, val) =>
      if src !in env then None
      else
        var iv :- EvalIndex(env, idx);
        var x :- EvalAtom(env, val);
        AddSlice(env[src], iv, x)
    case _ => None
  }

  lemma PureForm(e: Eqn, st: State)
    requires e.Binary? || e.Slice? || e.Update? || e.Accumulate?
    ensures ExecEqn(e, st) == match PureValue(e, st.env) case None => None case Some(v) => Some(State(st.env[e.out := v], st.heap))
  {
  }

  lemma PureAgree(e: Eqn, env: Env, env': Env)
    requires e.Binary? || e.Slice? || e.Update? || e.Accumulate?
    requires e.Binary? ==> EvalAtom(env, e.x) == EvalAtom(env', e.x) && EvalAtom(env, e.y) == EvalAtom(env', e.y)
    requires !e.Binary? ==> EvalIndex(env, e.idx) == EvalIndex(env', e.idx) && (e.src in env <==> e.src in env') &&
                            (e.src in env ==> env'[e.src] == env[e.src])
    requires (e.Update? || e.Accumulate?) ==> EvalAtom(env, e.val) == EvalAtom(env', e.val)
    ensures PureValue(e, env) == PureValue(e, env')
  {
  }

  /** An equation that only binds `e.out` from operands that evaluate alike. */
  lemma PureStep(e: Eqn, s: State, t: State, cur: map<nat, nat>, n: nat, N: nat, f: nat, refs: set<nat>)
    requires e.Binary? || e.Slice? || e.Update? || e.Accumulate?
    requires Inv(s, t, cur, n, N, f, refs) && n <= e.out < N && (!e.Binary? ==> e.src !in cur && e.src < N)
    requires e.Binary? ==> EvalAtom(s.env, e.x) == EvalAtom(t.env, e.x) && EvalAtom(s.env, e.y) == EvalAtom(t.env, e.y)
    requires !e.Binary? ==> EvalIndex(s.env, e.idx) == EvalIndex(t.env, e.idx)
    requires (e.Update? || e.Accumulate?) ==> EvalAtom(s.env, e.val) == EvalAtom(t.env, e.val)
    ensures Corr(ExecEqn(e, s), ExecEqn(e, t), cur, n, N, f, refs)
  {
    if !e.Binary? {
      assert (e.src in s.env <==> e.src in t.env) && (e.src in s.env ==> t.env[e.src] == s.env[e.src]);
    }
    PureAgree(e, s.env, t.env);
    PureForm(e, s);
    PureForm(e, t);
    if PureValue(e, s.env).Some? {
      BindOriginal(s, t, cur, n, N, f, refs, e.out, PureValue(e, s.env).value);
    }
  }

  /* ---------------------------------------------------------------- */
  /* Conditionals                                                      */

  lemma FreshDistinct(base: nat, k: nat)
    ensures Distinct(FreshVars(base, k))
  {
  }

  /**
   * After a conditional: the original results are bound on both sides, and
   * the discharged side also binds fresh variables `base ..` to the final
   * contents the branch left in the selected references.
   */
  lemma CondInv(s: State, t: State, cur: map<nat, nat>, n: nat, N: nat, f: nat, refs: set<nat>, ds: seq<nat>,
                s1: State, t1: State, curX: map<nat, nat>, fX: nat, outs: seq<nat>, vals: seq<Array>, base: nat)
    requires Inv(s, t, cur, n, N, f, refs) && cur.Keys == (set d | d in ds) && Distinct(ds)
    requires Inv(s1, t1, curX, n, N, fX, refs) && curX.Keys == cur.Keys && fX <= base
    requires |outs| == |vals| && forall k :: 0 <= k < |outs| ==> outs[k] < N
    ensures |Finals(s1.heap, ds)| == |ds|
    ensures Inv(State(BindAll(s.env, outs, vals), s1.heap),
                State(BindAll(BindAll(t.env, outs, vals), FreshVars(base, |ds|), Finals(s1.heap, ds)), t1.heap),
                FreshMap(ds, base), n, N, base + |ds|, refs)
  {
    var fin := Finals(s1.heap, ds);
    var mid := BindAll(t.env, outs, vals);
    CondOutside(s.env, t.env, outs, vals, FreshVars(base, |ds|), fin, N, cur.Keys);
    CondFresh(mid, ds, base, fin, s1.heap);
  }

  /** Variables below `N` that are not selected references agree after the conditional. */
  lemma CondOutside(env: Env, env': Env, outs: seq<nat>, vals: seq<Array>, newVars: seq<nat>, fin: seq<Array>, N: nat, keys: set<nat>)
    requires |outs| == |vals| && |newVars| == |fin| && forall k :: 0 <= k < |newVars| ==> newVars[k] >= N
    requires forall v :: v < N && v !in keys ==> (v in env <==> v in env')
    requires forall v :: v < N && v !in keys && v in env ==> env'[v] == env[v]
    ensures forall v :: v < N && v !in keys ==>
              (v in BindAll(env, outs, vals) <==> v in BindAll(BindAll(env', outs, vals), newVars, fin))
    ensures forall v :: v < N && v !in keys && v in BindAll(env, outs, vals) ==>
              BindAll(BindAll(env', outs, vals), newVars, fin)[v] == BindAll(env, outs, vals)[v]
  {
    forall v: nat | v < N && v !in keys
      ensures (v in BindAll(env, outs, vals) <==> v in BindAll(BindAll(env', outs, vals), newVars, fin))
      ensures v in BindAll(env, outs, vals) ==> BindAll(BindAll(env', outs, vals), newVars, fin)[v] == BindAll(env, outs, vals)[v]
    {
      assert v !in newVars;
      BindAllOutside(BindAll(env', outs, vals), newVars, fin, v);
      BindAllAgree(env, env', outs, vals, v);
    }
  }

  /** Each selected reference `ds[i]` is held by the fresh variable `base + i` after the conditional. */
  lemma CondFresh(env: Env, ds: seq<nat>, base: nat, fin: seq<Array>, heap: map<nat, Array>)
    requires Distinct(ds) && |fin| == |ds| && forall i :: 0 <= i < |ds| ==> ds[i] in heap && fin[i] == heap[ds[i]]
    ensures forall d :: d in FreshMap(ds, base) ==>
              base <= FreshMap(ds, base)[d] < base + |ds| && d in heap &&
              FreshMap(ds, base)[d] in BindAll(env, FreshVars(base, |ds|), fin) &&
              BindAll(env, FreshVars(base, |ds|), fin)[FreshMap(ds, base)[d]] == heap[d]
  {
    var m := FreshMap(ds, base);
    var env2 := BindAll(env, FreshVars(base, |ds|), fin);
    forall i | 0 <= i < |ds|
      ensures m[ds[i]] == base + i && base + i in env2 && env2[base + i] == fin[i]
    {
      CondFreshAt(env, ds, base, fin, i);
    }
    HeldBy(env2, m, ds, base, fin, heap);
  }

  /** The map-level core of `CondFresh`. */
  lemma HeldBy(env2: Env, m: map<nat, nat>, ds: seq<nat>, base: nat, fin: seq<Array>, heap: map<nat, Array>)
    requires m.Keys == (set d | d in ds) && |fin| == |ds|
    requires forall i :: 0 <= i < |ds| ==> ds[i] in heap && fin[i] == heap[ds[i]]
    requires forall i :: 0 <= i < |ds| ==> m[ds[i]] == base + i && base + i in env2 && env2[base + i] == fin[i]
    ensures forall d :: d in m ==> base <= m[d] < base + |ds| && d in heap && m[d] in env2 && env2[m[d]] == heap[d]
  {
    forall d | d in m
      ensures base <= m[d] < base + |ds| && d in heap && m[d] in env2 && env2[m[d]] == heap[d]
    {
      assert d in ds;
      var i :| 0 <= i < |ds| && ds[i] == d;
    }
  }

  lemma CondFreshAt(env: Env, ds: seq<nat>, base: nat, fin: seq<Array>, i: nat)
    requires Distinct(ds) && |fin| == |ds| && i < |ds|
    ensures FreshMap(ds, base)[ds[i]] == base + i
    ensures base + i in BindAll(env, FreshVars(base, |ds|), fin) && BindAll(env, FreshVars(base, |ds|), fin)[base + i] == fin[i]
  {
    FreshMapAt(ds, base, i);
    FreshDistinct(base, |ds|);
    BindAllDistinct(env, FreshVars(base, |ds|), fin, i);
  }

  /** The results of a branch are bound alike on both sides. */
  lemma CondFinish(s: State, t: State, cur: map<nat, nat>, n: nat, N: nat, f: nat, refs: set<nat>, ds: seq<nat>,
                   outs: seq<nat>, b: Branch, b': Branch, curX: map<nat, nat>, fX: nat, base: nat)
    requires Inv(s, t, cur, n, N, f, refs) && cur.Keys == (set d | d in ds) && Distinct(ds)
    requires curX.Keys == cur.Keys && fX <= base
    requires b'.results == b.results + CurrentAtoms(ds, curX)
    requires Corr(ExecEqns(b.eqns, s), ExecEqns(b'.eqns, t), curX, n, N, fX, refs)
    requires AtomsMax(b.results) < N && forall k :: 0 <= k < |b.results| ==> ValueAtom(b.results[k], refs)
    requires forall k :: 0 <= k < |outs| ==> outs[k] < N
    ensures Corr(BindBranch(s, outs, ExecBranch(b, s)),
                 BindBranch(t, outs + FreshVars(base, |ds|), ExecBranch(b', t)),
                 FreshMap(ds, base), n, N, base + |ds|, refs)
  {
    var r, r' := ExecBranch(b, s), ExecBranch(b', t);
    var fv := FreshVars(base, |ds|);
    BranchAgree(s, t, ds, b, b', curX, n, N, fX, refs);
    if r.Some? {
      var (s1, vals) := r.value;
      var (t1, vals') := r'.value;
      var fin := Finals(s1.heap, ds);
      assert vals' == vals + fin;
      assert forall d :: d in ds ==> d in curX;
      assert |fin| == |ds| == |fv|;
      if |vals| == |outs| {
        CondInv(s, t, cur, n, N, f, refs, ds, s1, t1, curX, fX, outs, vals, base);
        BindAllAppend(t.env, outs, fv, vals, fin);
        BindBoth(s, t, outs, fv, r.value, r'.value, fin);
      } else {
        assert |vals'| != |outs + fv|;
      }
    }
  }

  /** The binding a conditional makes, when both branches return the expected number of results. */
  lemma BindBoth(s: State, t: State, outs: seq<nat>, fv: seq<nat>, r: (State, seq<Array>), r': (State, seq<Array>), fin: seq<Array>)
    requires |r.1| == |outs| && r'.1 == r.1 + fin && |fin| == |fv|
    requires BindAll(t.env, outs + fv, r.1 + fin) == BindAll(BindAll(t.env, outs, r.1), fv, fin)
    ensures BindBranch(s, outs, Some(r)) == Some(State(BindAll(s.env, outs, r.1), r.0.heap))
    ensures BindBranch(t, outs + fv, Some(r')) == Some(State(BindAll(BindAll(t.env, outs, r.1), fv, fin), r'.0.heap))
  {
  }

  /** A branch and its discharged form both get stuck, or finish in related states with the extra final contents among the results. */
  lemma BranchAgree(s: State, t: State, ds: seq<nat>, b: Branch, b': Branch, curX: map<nat, nat>, n: nat, N: nat, fX: nat, refs: set<nat>)
    requires curX.Keys == (set d | d in ds)
    requires b'.results == b.results + CurrentAtoms(ds, curX)
    requires Corr(ExecEqns(b.eqns, s), ExecEqns(b'.eqns, t), curX, n, N, fX, refs)
    requires AtomsMax(b.results) < N && forall k :: 0 <= k < |b.results| ==> ValueAtom(b.results[k], refs)
    ensures ExecBranch(b, s).None? <==> ExecBranch(b', t).None?
    ensures ExecBranch(b, s).Some? ==>
              Inv(ExecBranch(b, s).value.0, ExecBranch(b', t).value.0, curX, n, N, fX, refs) &&
              ExecBranch(b', t).value.1 == ExecBranch(b, s).value.1 + Finals(ExecBranch(b, s).value.0.heap, ds)
  {
    var o1, o1' := ExecEqns(b.eqns, s), ExecEqns(b'.eqns, t);
    if o1.Some? {
      var s1, t1 := o1.value, o1'.value;
      AtomsAgree(s1, t1, curX, n, N, fX, refs, b.results);
      CurrentAgree(s1, t1, curX, n, N, fX, refs, ds);
      EvalAtomsAppend(t1.env, b.results, CurrentAtoms(ds, curX));
    }
  }

  /* ---------------------------------------------------------------- */
  /* Whole equation lists                                              */

  lemma {:induction false} EqnsCorrect(es: seq<Eqn>, ds: seq<nat>, cur: map<nat, nat>, f: nat, s: State, t: State, n: nat, N: nat, refs: set<nat>)
    requires cur.Keys == (set d | d in ds) && Distinct(ds) && WfEqns(es, n, refs) && EqnsMax(es) < N && Inv(s, t, cur, n, N, f, refs)
    ensures Corr(ExecEqns(es, s), ExecEqns(DischargeEqns(es, ds, cur, f).eqns, t),
                 DischargeEqns(es, ds, cur, f).cur, n, N, DischargeEqns(es, ds, cur, f).next, refs)
    decreases es, 0
  {
    if es != [] {
      var h := DischargeEqn(es[0], ds, cur, f);
      var r := DischargeEqns(es[1..], ds, h.cur, h.next);
      assert WfEqn(es[0], n, refs);
      assert WfEqns(es[1..], n, refs) by {
        assert forall k :: 0 <= k < |es[1..]| ==> es[1..][k] == es[k + 1];
      }
      ThreadEqn(es[0], ds, cur, f);
      EqnCorrect(es[0], ds, cur, f, s, t, n, N, refs);
      ExecAppend(h.eqns, r.eqns, t);
      var o := ExecEqn(es[0], s);
      if o.Some? {
        EqnsCorrect(es[1..], ds, h.cur, h.next, o.value, ExecEqns(h.eqns, t).value, n, N, refs);
      }
    }
  }

  lemma {:induction false} EqnCorrect(e: Eqn, ds: seq<nat>, cur: map<nat, nat>, f: nat, s: State, t: State, n: nat, N: nat, refs: set<nat>)
    requires Pre(e, ds, cur, f, s, t, n, N, refs)
    ensures Post(e, ds, cur, f, s, t, n, N, refs)
    decreases e, 1
  {
    match e
    case Get(_, _, _) => GetCorrect(e, ds, cur, f, s, t, n, N, refs);
    case Swap(_, _, _, _) => SwapCorrect(e, ds, cur, f, s, t, n, N, refs);
    case AddUpdate(_, _, _) => AddUpdateCorrect(e, ds, cur, f, s, t, n, N, refs);
    case Cond(_, _, _, _) => CondCorrect(e, ds, cur, f, s, t, n, N, refs);
    case _ => PureCorrect(e, ds, cur, f, s, t, n, N, refs);
  }

  lemma {:induction false} CondCorrect(e: Eqn, ds: seq<nat>, cur: map<nat, nat>, f: nat, s: State, t: State, n: nat, N: nat, refs: set<nat>)
    requires e.Cond? && Pre(e, ds, cur, f, s, t, n, N, refs)
    ensures Post(e, ds, cur, f, s, t, n, N, refs)
    decreases e, 0
  {
    var Cond(pred, outs, tb, eb) := e;
    var tt := DischargeEqns(tb.eqns, ds, cur, f);
    var el := DischargeEqns(eb.eqns, ds, cur, tt.next);
    var base := el.next;
    var tb' := Branch(tt.eqns, tb.results + CurrentAtoms(ds, tt.cur));
    var eb' := Branch(el.eqns, eb.results + CurrentAtoms(ds, el.cur));
    var e' := Cond(pred, outs + FreshVars(base, |ds|), tb', eb');
    ThreadEqns(tb.eqns, ds, cur, f);
    ThreadEqns(eb.eqns, ds, cur, tt.next);
    assert DischargeEqn(e, ds, cur, f) == Threaded([e'], FreshMap(ds, base), base + |ds|);
    ExecSingle(e', t);
    AtomAgree(s, t, cur, n, N, f, refs, pred);
    NatsMaxBound(outs);
    var c := EvalAtom(s.env, pred);
    if c.Some? && c.value.shape == [] {
      if c.value.data[0] != 0 {
        CondBranch(s, t, cur, n, N, refs, ds, outs, tb, f, base);
      } else {
        Weaken(s, t, cur, n, N, f, tt.next, refs);
        CondBranch(s, t, cur, n, N, refs, ds, outs, eb, tt.next, base);
      }
    }
  }

  /** The branch the predicate selects, discharged from variable `g` on, ends related to the original branch. */
  lemma {:induction false} CondBranch(s: State, t: State, cur: map<nat, nat>, n: nat, N: nat, refs: set<nat>, ds: seq<nat>,
                                      outs: seq<nat>, b: Branch, g: nat, base: nat)
    requires Inv(s, t, cur, n, N, g, refs) && cur.Keys == (set d | d in ds) && Distinct(ds)
    requires WfEqns(b.eqns, n, refs) && EqnsMax(b.eqns) < N
    requires AtomsMax(b.results) < N && forall k :: 0 <= k < |b.results| ==> ValueAtom(b.results[k], refs)
    requires forall k :: 0 <= k < |outs| ==> outs[k] < N
    requires DischargeEqns(b.eqns, ds, cur, g).next <= base
    ensures Corr(BindBranch(s, outs, ExecBranch(b, s)),
                 BindBranch(t, outs + FreshVars(base, |ds|),
                            ExecBranch(Branch(DischargeEqns(b.eqns, ds, cur, g).eqns,
                                              b.results + CurrentAtoms(ds, DischargeEqns(b.eqns, ds, cur, g).cur)), t)),
                 FreshMap(ds, base), n, N, base + |ds|, refs)
    decreases b
  {
    var h := DischargeEqns(b.eqns, ds, cur, g);
    ThreadEqns(b.eqns, ds, cur, g);
    EqnsCorrect(b.eqns, ds, cur, g, s, t, n, N, refs);
    CondFinish(s, t, cur, n, N, g, refs, ds, outs, b, Branch(h.eqns, b.results + CurrentAtoms(ds, h.cur)), h.cur, h.next, base);
  }

  /* ---------------------------------------------------------------- */
  /* The whole program                                                 */

  /** The initial states of the two programs are related. */
  lemma InitInv(p: Jaxpr, ds: seq<nat>, args: seq<Array>)
    requires |args| == |p.params| && forall d :: d in ds ==> d < |p.params| && p.params[d].Ref?
    ensures Inv(InitState(p.params, args), InitState(DischargeParams(p.params, ds), args), Identity(ds),
                |p.params|, FreshBase(p), FreshBase(p), RefParams(p.params))
  {
    var s := InitState(p.params, args);
    var t := InitState(DischargeParams(p.params, ds), args);
    var keys := set d | d in ds;
    assert Identity(ds).Keys == keys;
    assert t.heap == s.heap - keys;
  }

  /**
   * Running the discharged program gives the original outputs followed by
   * the final contents of the selected references (in parameter order),
   * and the references that were not selected end as in the original run;
   * and the one run is stuck exactly when the other is.
   */
  lemma DischargeCorrect(p: Jaxpr, sel: seq<bool>, args: seq<Array>)
    requires WellFormed(p)
    ensures Run(DischargeState(p, sel), args) == Expected(Run(p, args), Selected(p, sel))
  {
    var ds := Selected(p, sel);
    if |args| == |p.params| {
      var n, N, refs := |p.params|, FreshBase(p), RefParams(p.params);
      var s := InitState(p.params, args);
      var t := InitState(DischargeParams(p.params, ds), args);
      var h := DischargeEqns(p.eqns, ds, Identity(ds), N);
      InitInv(p, ds, args);
      EqnsCorrect(p.eqns, ds, Identity(ds), N, s, t, n, N, refs);
      ThreadEqns(p.eqns, ds, Identity(ds), N);
      var o, o' := ExecEqns(p.eqns, s), ExecEqns(h.eqns, t);
      if o.Some? {
        var s1, t1 := o.value, o'.value;
        AtomsAgree(s1, t1, h.cur, n, N, h.next, refs, p.outs);
        CurrentAgree(s1, t1, h.cur, n, N, h.next, refs, ds);
        EvalAtomsAppend(t1.env, p.outs, CurrentAtoms(ds, h.cur));
      }
    }
  }
}
