/**
 * The discharge rewrite and the interpreter written as loops over the
 * equation list: the current-value variable of each selected reference and
 * the next free variable are local state, updated one equation at a time.
 */
module DischargeLoop {
  import opened Wrappers
  import opened Indexing
  import opened Program
  import opened Discharge

  /** `pre` followed by the rewritten equations of `t`. */
  function Join(pre: seq<Eqn>, t: Threaded): Threaded
  {
    Threaded(pre + t.eqns, t.cur, t.next)
  }

  /** Rewriting the suffix from `i` is rewriting equation `i`, then the rest from where it left off. */
  lemma DischargeFrom(es: seq<Eqn>, i: nat, ds: seq<nat>, cur: map<nat, nat>, f: nat)
    requires i < |es|
    ensures DischargeEqns(es[i..], ds, cur, f) ==
              Join(DischargeEqn(es[i], ds, cur, f).eqns,
                   DischargeEqns(es[i + 1..], ds, DischargeEqn(es[i], ds, cur, f).cur, DischargeEqn(es[i], ds, cur, f).next))
  {
    assert es[i..][0] == es[i] && es[i..][1..] == es[i + 1..];
  }

  /** Rewrites `es` in order, threading the current values in local variables. */
  method DischargeAll(es: seq<Eqn>, ds: seq<nat>, cur: map<nat, nat>, f: nat) returns (out: seq<Eqn>, cur': map<nat, nat>, next: nat)
    ensures Threaded(out, cur', next) == DischargeEqns(es, ds, cur, f)
    decreases es, 1
  {
    out, cur', next := [], cur, f;
    var i := 0;
    while i < |es|
      invariant 0 <= i <= |es|
      invariant DischargeEqns(es, ds, cur, f) == Join(out, DischargeEqns(es[i..], ds, cur', next))
      decreases |es| - i
    {
      DischargeFrom(es, i, ds, cur', next);
      var e, c, g := DischargeOne(es[i], ds, cur', next);
      assert (out + e) + DischargeEqns(es[i + 1..], ds, c, g).eqns == out + (e + DischargeEqns(es[i + 1..], ds, c, g).eqns);
      out, cur', next := out + e, c, g;
      i := i + 1;
    }
    assert es[i..] == [];
    assert out + [] == out;
  }

  /** Rewrites one equation; a conditional rewrites both branches from the same current values. */
  method DischargeOne(e: Eqn, ds: seq<nat>, cur: map<nat, nat>, f: nat) returns (out: seq<Eqn>, cur': map<nat, nat>, next: nat)
    ensures Threaded(out, cur', next) == DischargeEqn(e, ds, cur, f)
    decreases e, 0
  {
    out, cur', next := [e], cur, f;
    match e
    case Get(o, r, idx) =>
      if r in cur {
        out := [Slice(o, cur[r], idx)];
      }
    case Swap(dst, r, idx, val) =>
      if r in cur {
        var upd := Update(f, cur[r], idx, val);
        if dst.None? {
          out := [upd];
        } else {
          out := [upd, Slice(dst.value, cur[r], idx)];
        }
        cur', next := cur[r := f], f + 1;
      }
    case AddUpdate(r, idx, val) =>
      if r in cur {
        out, cur', next := [Accumulate(f, cur[r], idx, val)], cur[r := f], f + 1;
      }
    case Cond(pred, outs, tb, eb) =>
      var te, tc, tn := DischargeAll(tb.eqns, ds, cur, f);
      var ee, ec, base := DischargeAll(eb.eqns, ds, cur, tn);
      out := [Cond(pred, outs + FreshVars(base, |ds|),
                   Branch(te, tb.results + CurrentAtoms(ds, tc)),
                   Branch(ee, eb.results + CurrentAtoms(ds, ec)))];
      cur', next := FreshMap(ds, base), base + |ds|;
    case _ =>
  }

  /** Runs the equations in order on a state held in a local variable; `None` as soon as one gets stuck. */
  method Interpret(es: seq<Eqn>, st: State) returns (r: Option<State>)
    ensures r == ExecEqns(es, st)
  {
    var s := st;
    var i := 0;
    while i < |es|
      invariant 0 <= i <= |es|
      invariant ExecEqns(es, st) == ExecEqns(es[i..], s)
      decreases |es| - i
    {
      assert es[i..][0] == es[i] && es[i..][1..] == es[i + 1..];
      var step := ExecEqn(es[i], s);
      if step.None? {
        return None;
      }
      s := step.value;
      i := i + 1;
    }
    assert es[i..] == [];
    return Some(s);
  }
}
