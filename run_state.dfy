/**
 * `run_state`: discharge every reference parameter of a body and run it, so
 * that the initial contents go in and the final contents come out. Also the
 * shape of a partially discharged program: its parameters, its outputs and
 * the effects it keeps.
 */
module StateRun {
  import opened Wrappers
  import opened Shapes
  import opened Arrays
  import opened Program
  import opened Discharge
  import opened DischargeProof

  /** The selector that discharges every parameter. */
  function AllRefs(p: Jaxpr): (sel: seq<bool>)
    ensures |sel| == |p.params| && forall i :: 0 <= i < |sel| ==> sel[i]
  {
    seq(|p.params|, i => true)
  }

  /**
   * Runs `p` on the initial contents `args` with every reference discharged:
   * the outputs of `p`, then the final contents of each reference parameter.
   */
  function RunState(p: Jaxpr, args: seq<Array>): Option<seq<Array>>
  {
    var o :- Run(DischargeState(p, AllRefs(p)), args);
    Some(o.outs)
  }

  /** The discharged program keeps the number of parameters, turns the selected references into values, and returns one extra output per selected reference. */
  lemma DischargeSignature(p: Jaxpr, sel: seq<bool>)
    ensures |DischargeState(p, sel).params| == |p.params|
    ensures forall i :: 0 <= i < |p.params| ==>
              DischargeState(p, sel).params[i] ==
                if p.params[i].Ref? && i < |sel| && sel[i] then Value(p.params[i].inner) else p.params[i]
    ensures DischargeState(p, sel).outs[..|p.outs|] == p.outs
    ensures |DischargeState(p, sel).outs| == |p.outs| + |Selected(p, sel)|
  {
    var q := DischargeState(p, sel);
    var ds := Selected(p, sel);
    forall i | 0 <= i < |p.params|
      ensures q.params[i] == if p.params[i].Ref? && i < |sel| && sel[i] then Value(p.params[i].inner) else p.params[i]
    {
      assert q.params[i] == if i in ds && p.params[i].Ref? then Value(p.params[i].inner) else p.params[i];
    }
  }

  /** Partial discharge removes exactly the effects on the selected references; every other effect stays. */
  lemma DischargeEffects(p: Jaxpr, sel: seq<bool>)
    ensures Effects(DischargeState(p, sel)) == Residual(Effects(p), set d | d in Selected(p, sel))
  {
    var ds := Selected(p, sel);
    EqnsEffectsDischarged(p.eqns, ds, Identity(ds), FreshBase(p));
  }

  /** Discharging everything selects every reference parameter, in order. */
  lemma SelectedAll(p: Jaxpr)
    ensures (set d | d in Selected(p, AllRefs(p))) == RefParams(p.params)
    ensures forall a, b :: 0 <= a < b < |Selected(p, AllRefs(p))| ==> Selected(p, AllRefs(p))[a] < Selected(p, AllRefs(p))[b]
  {
  }

  /** The body of `run_state` has no effects left once every reference is discharged. */
  lemma RunStatePure(p: Jaxpr)
    requires WellFormed(p)
    ensures Effects(DischargeState(p, AllRefs(p))) == {}
  {
    DischargeEffects(p, AllRefs(p));
    SelectedAll(p);
    EqnsEffectsOnRefs(p.eqns, |p.params|, RefParams(p.params));
  }

  /**
   * `run_state` returns the body's outputs followed by the final contents of
   * every reference parameter; a body with no outputs, as every `run_state`
   * body is, returns exactly the final contents.
   */
  lemma RunStateCorrect(p: Jaxpr, args: seq<Array>)
    requires WellFormed(p)
    ensures RunState(p, args) ==
              match Run(p, args)
              case None => None
              case Some(o) => Some(o.outs + Finals(o.heap, Selected(p, AllRefs(p))))
    ensures p.outs == [] ==>
              RunState(p, args) ==
                match Run(p, args)
                case None => None
                case Some(o) => Some(Finals(o.heap, Selected(p, AllRefs(p))))
  {
    DischargeCorrect(p, AllRefs(p), args);
    if p.outs == [] && Run(p, args).Some? {
      var o := Run(p, args).value;
      assert o.outs == [];
      assert o.outs + Finals(o.heap, Selected(p, AllRefs(p))) == Finals(o.heap, Selected(p, AllRefs(p)));
    }
  }

  /** A body that does nothing returns the initial contents of its references unchanged. */
  lemma RunStateNoop(p: Jaxpr, args: seq<Array>)
    requires p.eqns == [] && p.outs == [] && |args| == |p.params|
    ensures RunState(p, args).Some?
    ensures |RunState(p, args).value| == |Selected(p, AllRefs(p))|
    ensures forall i :: 0 <= i < |Selected(p, AllRefs(p))| ==> RunState(p, args).value[i] == args[Selected(p, AllRefs(p))[i]]
  {
    var ds := Selected(p, AllRefs(p));
    var h := InitState(p.params, args).heap;
    RunStateCorrect(p, args);
    NoopRun(p, args);
    assert forall d :: d in ds ==> d in h;
    assert [] + Finals(h, ds) == Finals(h, ds);
  }

  lemma NoopRun(p: Jaxpr, args: seq<Array>)
    requires p.eqns == [] && p.outs == [] && |args| == |p.params|
    ensures WellFormed(p) && Run(p, args) == Some(Outcome([], InitState(p.params, args).heap))
  {
  }
}
