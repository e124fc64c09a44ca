/**
 * Discharge: the rewrite that turns selected reference parameters into plain
 * value parameters. Each selected reference gets a "current value" variable
 * that is threaded through the equations in order: reads become slices of
 * the current value, writes and accumulations bind a fresh variable that
 * becomes the new current value, and a conditional returns the current value
 * of every selected reference from both branches. The discharged program
 * returns its original outputs followed by the final value of each selected
 * reference, in parameter order.
 */
module Discharge {
  import opened Wrappers
  import opened Shapes
  import opened Indexing
  import opened Arrays
  import opened Program

  /** Rewritten equations, the current-value variable of each selected reference, and the next free variable. */
  datatype Threaded = Threaded(eqns: seq<Eqn>, cur: map<nat, nat>, next: nat)

  function Lookup(cur: map<nat, nat>, d: nat): nat
  {
    if d in cur then cur[d] else d
  }

  /** The current value of each selected reference, as atoms, in order. */
  function CurrentAtoms(ds: seq<nat>, cur: map<nat, nat>): (r: seq<Atom>)
    ensures |r| == |ds| && forall i :: 0 <= i < |ds| ==> r[i] == Var(Lookup(cur, ds[i]))
  {
    seq(|ds|, i requires 0 <= i < |ds| => Var(Lookup(cur, ds[i])))
  }

  /** `k` consecutive variables from `base`. */
  function FreshVars(base: nat, k: nat): (r: seq<nat>)
    ensures |r| == k && forall i :: 0 <= i < k ==> r[i] == base + i
  {
    seq(k, i => base + i)
  }

  /** Maps the `i`-th selected reference to variable `base + i`. */
  function FreshMap(ds: seq<nat>, base: nat): (m: map<nat, nat>)
    ensures m.Keys == set d | d in ds
    decreases |ds|
  {
    if ds == [] then map[] else FreshMap(ds[1..], base + 1)[ds[0] := base]
  }

  lemma {:induction false} FreshMapAt(ds: seq<nat>, base: nat, i: nat)
    requires Distinct(ds) && i < |ds|
    ensures FreshMap(ds, base)[ds[i]] == base + i
    decreases |ds|
  {
    if i > 0 {
      assert Distinct(ds[1..]) by {
        forall a, b | 0 <= a < |ds[1..]| && 0 <= b < |ds[1..]| && ds[1..][a] == ds[1..][b]
          ensures a == b
        {
          assert ds[a + 1] == ds[b + 1];
        }
      }
      assert ds[1..][i - 1] == ds[i] && ds[i] != ds[0];
      FreshMapAt(ds[1..], base + 1, i - 1);
    }
  }

  function DischargeEqns(es: seq<Eqn>, ds: seq<nat>, cur: map<nat, nat>, f: nat): Threaded
    decreases es
  {
    if es == [] then Threaded([], cur, f)
    else
      var h := DischargeEqn(es[0], ds, cur, f);
      var t := DischargeEqns(es[1..], ds, h.cur, h.next);
      Threaded(h.eqns + t.eqns, t.cur, t.next)
  }

  /** One equation; `cur` holds the selected references, `f` is the next unused variable. */
  function DischargeEqn(e: Eqn, ds: seq<nat>, cur: map<nat, nat>, f: nat): Threaded
    decreases e
  {
    match e
    case Get(out, r, idx) =>
      if r in cur then Threaded([Slice(out, cur[r], idx)], cur, f) else Threaded([e], cur, f)
    case Swap(dst, r, idx, val) =>
      if r in cur then
        var upd := Update(f, cur[r], idx, val);
        Threaded(match dst case None => [upd] case Some(o) => [upd, Slice(o, cur[r], idx)], cur[r := f], f + 1)
      else Threaded([e], cur, f)
    case AddUpdate(r, idx, val) =>
      if r in cur then Threaded([Accumulate(f, cur[r], idx, val)], cur[r := f], f + 1) else Threaded([e], cur, f)
    case Cond(pred, outs, tb, eb) =>
      var t := DischargeEqns(tb.eqns, ds, cur, f);
      var el := DischargeEqns(eb.eqns, ds, cur, t.next);
      var base := el.next;
      Threaded([Cond(pred, outs + FreshVars(base, |ds|),
                     Branch(t.eqns, tb.results + CurrentAtoms(ds, t.cur)),
                     Branch(el.eqns, eb.results + CurrentAtoms(ds, el.cur)))],
               FreshMap(ds, base), base + |ds|)
    case _ => Threaded([e], cur, f)
  }

  /** The reference parameters that `sel` selects, in parameter order. */
  function SelectFrom(params: seq<Type>, sel: seq<bool>, i: nat): (ds: seq<nat>)
    requires i <= |params|
    ensures forall d :: d in ds <==> i <= d < |params| && params[d].Ref? && d < |sel| && sel[d]
    ensures forall a, b :: 0 <= a < b < |ds| ==> ds[a] < ds[b]
    decreases |params| - i
  {
    if i == |params| then []
    else
      var rest := SelectFrom(params, sel, i + 1);
      var here := if params[i].Ref? && i < |sel| && sel[i] then [i] else [];
      assert forall a :: 0 <= a < |rest| ==> rest[a] > i by {
        forall a | 0 <= a < |rest| ensures rest[a] > i {
          assert rest[a] in rest;
        }
      }
      here + rest
  }

  function Selected(p: Jaxpr, sel: seq<bool>): (ds: seq<nat>)
    ensures forall d :: d in ds <==> 0 <= d < |p.params| && p.params[d].Ref? && d < |sel| && sel[d]
    ensures Distinct(ds)
  {
    SelectFrom(p.params, sel, 0)
  }

  function Identity(ds: seq<nat>): (m: map<nat, nat>)
    ensures m.Keys == (set d | d in ds) && forall d :: d in m ==> m[d] == d
  {
    map d | d in ds :: d
  }

  function DischargeParams(params: seq<Type>, ds: seq<nat>): (r: seq<Type>)
    ensures |r| == |params|
  {
    seq(|params|, i requires 0 <= i < |params| => if i in ds && params[i].Ref? then Value(params[i].inner) else params[i])
  }

  /**
   * Discharges the reference parameters that `sel` selects (positions where
   * `sel` is true and the parameter is a reference); the others stay references.
   */
  function DischargeState(p: Jaxpr, sel: seq<bool>): Jaxpr
  {
    var ds := Selected(p, sel);
    var t := DischargeEqns(p.eqns, ds, Identity(ds), FreshBase(p));
    Jaxpr(DischargeParams(p.params, ds), t.eqns, p.outs + CurrentAtoms(ds, t.cur))
  }

  /* ---------------------------------------------------------------- */
  /* The rewrite keeps the selected set and only allocates upwards      */

  lemma {:induction false} ThreadEqns(es: seq<Eqn>, ds: seq<nat>, cur: map<nat, nat>, f: nat)
    requires cur.Keys == set d | d in ds
    ensures DischargeEqns(es, ds, cur, f).cur.Keys == cur.Keys
    ensures DischargeEqns(es, ds, cur, f).next >= f
    decreases es
  {
    if es != [] {
      var h := DischargeEqn(es[0], ds, cur, f);
      ThreadEqn(es[0], ds, cur, f);
      ThreadEqns(es[1..], ds, h.cur, h.next);
    }
  }

  lemma {:induction false} ThreadEqn(e: Eqn, ds: seq<nat>, cur: map<nat, nat>, f: nat)
    requires cur.Keys == set d | d in ds
    ensures DischargeEqn(e, ds, cur, f).cur.Keys == cur.Keys
    ensures DischargeEqn(e, ds, cur, f).next >= f
    decreases e
  {
    match e
    case Cond(pred, outs, tb, eb) =>
      ThreadEqns(tb.eqns, ds, cur, f);
      var t := DischargeEqns(tb.eqns, ds, cur, f);
      ThreadEqns(eb.eqns, ds, cur, t.next);
    case _ =>
  }

  /* ---------------------------------------------------------------- */
  /* Effects                                                           */

  /** The effects that do not touch a reference in `keys`. */
  function Residual(effs: set<Effect>, keys: set<nat>): set<Effect>
  {
    set x | x in effs && x.ref !in keys
  }

  /** Discharge removes exactly the effects on the selected references and keeps every other one. */
  lemma {:induction false} EqnsEffectsDischarged(es: seq<Eqn>, ds: seq<nat>, cur: map<nat, nat>, f: nat)
    requires cur.Keys == set d | d in ds
    ensures EqnsEffects(DischargeEqns(es, ds, cur, f).eqns) == Residual(EqnsEffects(es), cur.Keys)
    decreases es
  {
    if es != [] {
      var h := DischargeEqn(es[0], ds, cur, f);
      ThreadEqn(es[0], ds, cur, f);
      EqnEffectsDischarged(es[0], ds, cur, f);
      EqnsEffectsDischarged(es[1..], ds, h.cur, h.next);
      EffectsAppend(h.eqns, DischargeEqns(es[1..], ds, h.cur, h.next).eqns);
    }
  }

  lemma {:induction false} EqnEffectsDischarged(e: Eqn, ds: seq<nat>, cur: map<nat, nat>, f: nat)
    requires cur.Keys == set d | d in ds
    ensures EqnsEffects(DischargeEqn(e, ds, cur, f).eqns) == Residual(EqnEffects(e), cur.Keys)
    decreases e
  {
    var h := DischargeEqn(e, ds, cur, f);
    match e
    case Cond(pred, outs, tb, eb) =>
      EqnsEffectsDischarged(tb.eqns, ds, cur, f);
      var t := DischargeEqns(tb.eqns, ds, cur, f);
      EqnsEffectsDischarged(eb.eqns, ds, cur, t.next);
      assert h.eqns[1..] == [];
    case Swap(dst, r, idx, val) =>
      if r in cur && dst.Some? {
        assert h.eqns[1..][1..] == [];
        assert EqnsEffects(h.eqns[1..]) == EqnEffects(h.eqns[1]) + EqnsEffects(h.eqns[1..][1..]);
        assert EqnsEffects(h.eqns) == EqnEffects(h.eqns[0]) + EqnsEffects(h.eqns[1..]);
      } else {
        assert h.eqns[1..] == [];
      }
    case _ =>
      assert h.eqns[1..] == [];
  }
}
