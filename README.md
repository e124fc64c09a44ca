# State references: indexing, operators, discharge and `run_state`

This project models the stateful-array layer that JAX's state tests exercise.
A program can hold *references* to mutable arrays. It reads them with `get`,
writes them with `swap` (and with `set`, a swap whose old value is dropped),
and adds into them with `addupdate`. Each operator takes an index tuple. An
entry of the tuple is a whole-dimension slice `:` or an integer (array) index
operand. `()` and `...` both mean "the whole reference".

The model has five parts.

* **The indexing algebra** (`Indexing`):
  * normalising an index against the reference's rank;
  * splitting an index into its non-slice operands and indexed-dimension flags
    (`_unpack_idx`) and packing them back (`_pack_idx`);
  * the slice-shape rule;
  * `maybe_tuple_insert`.
* **Abstract evaluation of the operators** (`Primitives`):
  * result shapes and element kinds;
  * the errors for a non-reference operand, a value of the wrong shape and a
    value of the wrong element kind;
  * the one effect each operator has: `Read`, `Write` or `Accum`, on the
    parameter position of the reference.
* **A reference-program interpreter** (`Arrays`, `Program`, `DischargeLoop.Interpret`):
  * contents are flat row-major integer sequences with a shape;
  * gathers go through integer-array index operands, and negative index
    values count from the end;
  * scatters write in sequence;
  * a `Cond` equation selects one of two branches, which see and write the
    same references.
* **Discharge** (`Discharge`, `DischargeProof`, `DischargeLoop`, `StateRun`).
  Discharge turns the selected reference parameters into value parameters:
  * each one gets a current-value variable, threaded through the equations in
    order;
  * the discharged program returns the original outputs followed by the final
    contents of each discharged reference, in parameter order;
  * references that are not selected stay references and keep their effects;
  * `run_state` is "discharge everything and return the final contents".

  The main theorem is `DischargeProof.DischargeCorrect`, for every well-formed
  program and every input. The discharged program's run is the original run's
  outputs followed by the final contents of the selected references. The
  references that are not selected end exactly as in the original run. One run
  gets stuck exactly when the other does.
* **The compact printed form of the operators** (`Render`):
  * `b:i32[] <- a[]`, `a[:,0] <- b`, `c:i32[1], a[:,0] <- a[:,0], b`, `a[] += 2`;
  * round trips for variable names and integers;
  * the layout law for index lists.

`Examples` and `OperatorExamples` restate the expected values from the test
file as lemmas about the model: shapes, rejections, printed strings,
discharged runs, `run_state` and `cond` results.

Three members are loops: `Indexing.PackIdx`, `DischargeLoop.DischargeAll`
and `DischargeLoop.Interpret`.
* `Indexing.PackIdx` is a `while` loop that consumes the non-slice operands
  one flagged dimension at a time. It is proved equal to the recursive `Pack`.
* `DischargeLoop.DischargeAll` and `DischargeLoop.Interpret` walk the equation
  list. They keep the current-value map, the next free variable and the state
  in local variables. They are proved equal to the recursive `DischargeEqns`
  and `ExecEqns`.

The library implementation behind `discharge_state`, `run_state` and the
three primitives is not modelled; the semantics is the one the assertions of
tests/state_test.py pin down. Where a test does not decide a behaviour, the
choice is listed under "Left out".

## Model

| member | source | states |
|---|---|---|
| Indexing.Expand | tests/state_test.py:661-670 | `...` and `()` select every dimension; a shorter tuple is completed with trailing slices; a tuple longer than the rank is rejected |
| Indexing.Unpack | tests/state_test.py:816-820 | one flag per entry, true exactly for the non-slice entries, and exactly as many operands as true flags |
| Indexing.Pack | tests/state_test.py:822-827 | packing succeeds exactly when there is one operand per set flag; the packed tuple has one entry per flag, an operand exactly where the flag is set |
| Indexing.PackIdx | tests/state_test.py:822-827 | the loop that consumes one operand per flagged dimension and then checks that none is left computes `Pack` |
| Indexing.PackUnpack | tests/state_test.py:816-827 | packing the unpacked form of any index tuple gives the tuple back |
| Indexing.UnpackPack | tests/state_test.py:816-827 | packing succeeds exactly when there is one operand per true flag; it reports leftover or missing operands otherwise; unpacking a packed index gives the operands and flags back |
| Indexing.SliceShapeLaw | tests/state_test.py:697-701 | the slice shape is defined exactly when all index operands share one shape; with nothing indexed it is the reference shape, otherwise the operand shape followed by the un-indexed dimensions in order |
| Indexing.WholeIndexShape | tests/state_test.py:700-701 | the all-slice index selects the whole reference shape |
| Indexing.TestRuleAgrees | tests/state_test.py:420-422 | for every flag pattern and index shape the slice-shape rule gives the tests' own `out_shape` formula |
| Indexing.FlaggedUnpack | tests/state_test.py:697-701 | the index built from flags unpacks to those flags, with every operand of the index shape |
| Indexing.MaybeInsert | tests/state_test.py:721-725 | `None` leaves the tuple unchanged; `Some(i)` puts the value at position `i` and shifts the later elements by one |
| Indexing.InsertRemove | tests/state_test.py:424-427 | removing the inserted axis gives the original shape back |
| Primitives.IndexFits | tests/state_test.py:697-701 | an index fits a reference exactly when it is no longer than the rank and all its operands share one shape |
| Primitives.Selects | tests/state_test.py:697-701 | a fitting index selects the whole reference shape when it indexes nothing, and otherwise the common operand shape followed by the un-indexed dimensions |
| Primitives.BindGet | tests/state_test.py:96-114 | `get` rejects a non-reference, an index longer than the rank and operands of different shapes, each with its own error; otherwise it returns one value of the selected shape and the reference's element kind, with the single effect `Read(p)` |
| Primitives.BindSwap | tests/state_test.py:161-181 | `swap` has the errors of `get`, then rejects a value of another shape and then one of another element kind; otherwise it returns one value of the selected shape with the single effect `Write(p)` |
| Primitives.BindAddUpdate | tests/state_test.py:217-233 | `addupdate` has the errors of `swap`; otherwise it returns no value and has the single effect `Accum(p)` |
| Primitives.RejectsNonRef | tests/state_test.py:54-71 | `get`, `swap` and `addupdate` all reject a first operand that is not a reference |
| Primitives.GetLaw | tests/state_test.py:96-114 | `get` succeeds exactly on a reference with a fitting index; it returns one value of the slice shape and the reference's element kind and has exactly the effect `Read(p)` |
| Primitives.SwapLaw | tests/state_test.py:161-181 | `swap` succeeds exactly when the index fits and the value has the slice shape and the reference's element kind; it returns one value of the slice and has exactly the effect `Write(p)` |
| Primitives.AddUpdateLaw | tests/state_test.py:217-233 | `addupdate` accepts exactly what `swap` accepts, returns no value and has exactly the effect `Accum(p)` |
| Primitives.ValueErrors | tests/state_test.py:124-145 | a value whose shape differs from the slice is a shape error; a value of the right shape but the wrong element kind is an element-kind error |
| Primitives.EffectsAgree | tests/state_test.py:108-114 | the effect each operator reports is the effect its equation has in a program |
| Primitives.Sound | tests/state_test.py:487-504 | on contents of the reference's shape, a read that runs returns a value of the shape `get` declares; a write or accumulation runs exactly when the checker accepts its value and the index values are in range |
| Primitives.WholeRef | tests/state_test.py:661-670 | `()` and `...` always fit and select the whole reference |
| Arrays.ReadSlice | tests/state_test.py:487-518 | a read is defined exactly when the index fits; it has the slice shape, and element `k` is the reference element at the `k`-th gathered location |
| Arrays.WriteSlice | tests/state_test.py:538-569 | a write is defined exactly when the index fits and the value has the slice shape; the contents keep their shape |
| Arrays.AddSlice | tests/state_test.py:589-622 | an accumulation is defined under the same conditions as a write; the contents keep their shape |
| Arrays.WriteSliceContents | tests/state_test.py:538-569 | a slice write leaves every position outside the slice as it was; with distinct slice positions each element of the value lands at its own position |
| Arrays.AddSliceContents | tests/state_test.py:589-622 | a slice accumulation adds to each position the sum of the value's elements aimed at it, so positions outside the slice keep their contents |
| Arrays.ScatterSetWritten | tests/state_test.py:558-569 | with distinct locations each location ends up holding its value, whatever it held before |
| Arrays.ScatterSetUntouched | tests/state_test.py:538-556 | positions outside the written slice keep their contents |
| Arrays.ScatterAddAt | tests/state_test.py:610-622 | accumulation adds into each position the sum of the values aimed at it |
| Arrays.ReadWhole | tests/state_test.py:471-485 | reading the whole reference gives its contents |
| Arrays.WriteWhole | tests/state_test.py:520-536 | writing the whole reference replaces the contents, whatever they were |
| Arrays.AddWhole | tests/state_test.py:571-587 | accumulating into the whole reference adds elementwise |
| Arrays.ReadAfterWrite | tests/state_test.py:538-556 | reading back a slice just written gives the written value when its locations are distinct |
| Arrays.Locations | tests/state_test.py:487-504 | the gathered locations exist exactly when the slice shape is defined and the index values are in range; there is one per slice element |
| Arrays.WholeLocations | tests/state_test.py:661-670 | the whole-reference index addresses every position once, in order |
| Shapes.OffsetUnflatten | tests/state_test.py:500-504 | the row-major offset of a multi-index and the multi-index of an offset are inverse |
| Shapes.UnflattenOffset | tests/state_test.py:500-504 | converting a multi-index to its offset and back gives the same multi-index |
| Program.ExecAppend | tests/state_test.py:1216-1219 | equations run in program order: running `a + b` runs `a`, then `b` from where `a` ended |
| Program.ExecEqnFrame | tests/state_test.py:471-485 | one equation keeps the set of references, and leaves the contents of every reference it does not write or accumulate into unchanged |
| Program.ExecEqnsFrame | tests/state_test.py:1225-1233 | a run of equations keeps the set of references, and a reference that no equation writes or accumulates into ends with its initial contents |
| Program.EffectsAppend | tests/state_test.py:243-255 | a program's effects are the union of its equations' effects |
| Program.EqnsEffectsOnRefs | tests/state_test.py:108-114 | in a well-formed program every effect names a reference parameter |
| DischargeLoop.Interpret | tests/state_test.py:243-255 | the loop over the equations reaches exactly the state of the recursive semantics, and gets stuck exactly when it does |
| Discharge.Selected | tests/state_test.py:641-659 | the discharged positions are exactly the reference parameters whose selector flag is set, each once |
| Discharge.EqnsEffectsDischarged | tests/state_test.py:641-659 | discharge removes exactly the effects on the selected references and keeps every other one |
| Discharge.ThreadEqn | tests/state_test.py:641-659 | rewriting one equation keeps the set of discharged references and never reuses a variable below the next free one |
| DischargeProof.EqnCorrect | tests/state_test.py:471-639 | the rewrite of one equation, run from a state that agrees with the original, gets stuck exactly when the original step does and otherwise reaches an agreeing state, with the discharged references' contents held in their current-value variables |
| DischargeLoop.DischargeAll | tests/state_test.py:471-639 | the loop threading current values through the equations computes the recursive rewrite |
| DischargeLoop.DischargeOne | tests/state_test.py:538-569 | the rewrite of one equation: a read becomes a slice of the current value; a swap becomes an update (then a slice when its old value is used); both branches of a conditional are rewritten from the same current values |
| DischargeProof.Finals | tests/state_test.py:624-639 | one final value per discharged reference, in order, each the reference's final contents |
| DischargeProof.DischargeCorrect | tests/state_test.py:471-639 | the discharged program's run is the original run's outputs followed by the selected references' final contents; the other references end as in the original run; one run gets stuck exactly when the other does |
| StateRun.DischargeSignature | tests/state_test.py:641-657 | discharge keeps the number of parameters, turns exactly the selected references into values, keeps the outputs and adds one output per selected reference |
| StateRun.DischargeEffects | tests/state_test.py:641-659 | the discharged program's effects are the original's minus those on the selected references |
| StateRun.SelectedAll | tests/state_test.py:1225-1228 | discharging everything selects every reference parameter, in increasing order |
| StateRun.RunStatePure | tests/state_test.py:970-972 | no effect escapes `run_state` |
| StateRun.RunStateCorrect | tests/state_test.py:1210-1233 | `run_state` of a body with no outputs, as the source's bodies are, returns exactly the final contents of every reference, in order; in general the model returns the body's outputs first |
| StateRun.RunStateNoop | tests/state_test.py:1210-1212 | a body that does nothing returns the initial contents of its references unchanged, in order |
| Render.VarName | tests/state_test.py:268-282 | a variable name is a non-empty string of letters `a`..`z` with no leading `a` unless it is the single letter |
| Render.RenderStateEqnWords | tests/state_test.py:268-331 | the printed form of `get`, `swap` and `addupdate` cut at its spaces gives the result declaration (when there is a result), the reference slice, the arrow and the operand; the arrow is `<-` exactly for `get` and `swap` and `+=` exactly for `addupdate` |
| Render.VarNameRoundTrip | tests/state_test.py:268-282 | variable names in base 26 over `a`..`z` read back to their number |
| Render.VarNameInjective | tests/state_test.py:299-315 | distinct variables print distinctly |
| Render.NatRoundTrip | tests/state_test.py:276-282 | decimal dimensions read back to their value |
| Render.IntRoundTrip | tests/state_test.py:283-290 | integer literals, with an optional minus sign, read back to their value |
| Render.SplitJoin | tests/state_test.py:276-282 | comma-joining pieces that contain no comma and cutting at commas are inverse |
| Render.IndexLayout | tests/state_test.py:268-332 | an index prints bracketed with no spaces; `()` prints as `[]`; cutting between the brackets at the commas gives one piece per entry |
| Render.EntryChars | tests/state_test.py:276-282 | a full slice prints as `:`; no entry's text is empty or contains a comma or a space |
| OperatorExamples.GetCases | tests/state_test.py:73-95 | the six `get` cases give shapes `(1,2)`, `(2,)`, `(1,)`, `(2,2,3,4)`, `(2,2,4)`, `(2,1,2)` with element kind and effect `{Read(0)}` |
| OperatorExamples.SplitArrayCase | tests/state_test.py:91-93 | `(:,arr,:,arr)` on `(1,3,2,4)` selects shape `(2,1,2)`: the gathered dimensions come first |
| OperatorExamples.SwapCases | tests/state_test.py:124-160 | the accepted `swap` cases return the slice shape and have the effect `{Write(0)}` |
| OperatorExamples.AddUpdateCases | tests/state_test.py:183-215 | the accepted `addupdate` cases return nothing and have the effect `{Accum(0)}` |
| OperatorExamples.RejectedValues | tests/state_test.py:124-145 | the wrong-shape and wrong-element-kind cases are rejected by `swap` and by `addupdate` |
| OperatorExamples.NotARefCases | tests/state_test.py:66-71 | a plain array as the first operand is rejected by all three operators |
| OperatorExamples.GetPrinted | tests/state_test.py:268-281 | `b:i32[] <- a[]` and `b:i32[1] <- a[:,0]` |
| OperatorExamples.SetPrinted | tests/state_test.py:283-297 | `a[] <- 2` and `a[:,0] <- b` |
| OperatorExamples.SwapPrinted | tests/state_test.py:299-305 | `b:i32[], a[] <- a[], 2` |
| OperatorExamples.SwapColumnPrinted | tests/state_test.py:307-314 | `c:i32[1], a[:,0] <- a[:,0], b` |
| OperatorExamples.AddUpdatePrinted | tests/state_test.py:316-331 | `a[] += 2` and `a[:,0] += b` |
| Examples.DischargeGetSignature | tests/state_test.py:471-480 | the discharged `get` program has one value parameter and two outputs |
| Examples.DischargeGetExample | tests/state_test.py:471-485 | the discharged `get` program returns `x + 1` and the unchanged contents `x` (from `1.`: `[2., 1.]`) |
| Examples.DischargeSetSignature | tests/state_test.py:520-531 | the discharged `set` program has two value parameters and one output |
| Examples.DischargeSetExample | tests/state_test.py:520-536 | the discharged `set` returns `b + 1` whatever the old contents (`0, 1` and `2, 1` both give `2`) |
| Examples.DischargeAddSignature | tests/state_test.py:571-582 | the discharged `addupdate` program has two value parameters and one output |
| Examples.DischargeAddExample | tests/state_test.py:571-587 | the discharged `addupdate` returns `a + b + 1` (`0, 1` gives `2`; `2, 1` gives `4`) |
| Examples.PartialSignature | tests/state_test.py:641-657 | discharging with selector `[False, True]` keeps the first parameter a reference, turns the second into a value and adds one output |
| Examples.PartialDischargeEffects | tests/state_test.py:658-659 | the only effect left after the partial discharge is `Write(0)` on the kept reference |
| Examples.NoopRunState | tests/state_test.py:1210-1212 | `run_state` of a no-op body on one reference returns its contents |
| Examples.NoopRunStateTwo | tests/state_test.py:1225-1233 | with two references the contents come back in order |
| Examples.TwoRefRunState | tests/state_test.py:1214-1225 | `x, y` give `x + x*y*2` and `x*y*2` (from `2, 3`: `14, 12`) |
| Examples.CondSetRunState | tests/state_test.py:960-972 | the branch that writes gives `1`, the other keeps the contents; no effect escapes |
| Examples.CondReturnRunState | tests/state_test.py:974-991 | `True` gives `(1, 4)`, `False` gives `(x, 5)`; no effect escapes |
| Examples.CondReuseRunState | tests/state_test.py:993-1009 | both branches write the same reference: `1` or `2`; no effect escapes |
| Examples.MultiRunState | tests/state_test.py:1011-1033 | three references written from two branches: `True` gives `(2, 1, z)`, `False` gives `(4, y, 1)` (from zeros: `(2,1,0)` and `(4,0,1)`); no effect escapes; the constants `a` and `b` captured from outside the conditional are written as literals inside the branches |

## Left out

- Floating point: element values are integers. The tests' float constants become integer literals, and their element kind is kept only as a tag.
- The tracing and evaluation machinery (building a program from a Python function, `eval_jaxpr`, `jit`, `make_jaxpr`): programs are written directly as equation lists.
- Differentiation and vectorisation (`jvp`, `linearize`, `vjp`, `grad`, `vmap`) and the tests that compare them with discharge, including the `NotImplementedError` paths for `cond` under `vmap` and `grad`: these belong to external engines.
- The property-based strategies (hypothesis) and random test data: the model states the properties for all inputs instead.
- Unshaped, token and ref-of-ref inner types: a reference always holds a shaped array.
- Nested `run_state` as an equation inside a program: a `run_state` body is a whole program here.
- Broadcasting of index operands: index operands must all have the same shape, as the tests' own shape rule assumes. A mismatch is reported as an error.
- Error kinds: all rejections in the source are `ValueError`s (or any exception). The model distinguishes `NotARef`, `BadIndex`, `ShapeMismatch` and `DtypeMismatch`. Each test's rejection corresponds to the one the model reports.
- Out-of-range index values: they make a run stuck (`None`). JAX would clamp or drop them.
- Duplicate scatter locations: writes happen in sequence, so the last write wins. Accumulations add up. JAX leaves the order unspecified.
- DischargeLoop.DischargeOne: the discharged `get` always emits a slice of the current value. The source emits no equation at all for a whole-reference `get` (the test at tests/state_test.py:482 finds the addition first).
- Discharge.DischargeState: a conditional returns the current value of every discharged reference of the program from both branches, not only of those the conditional reaches. Its results are the same.
- Render.VarName: variables are named by their number, not in order of appearance. The printed examples number their variables in the order the printer would show them.
- Examples.PartialSignature: the program writes scalar literals where the test writes `ones(4)`, so only its signature and effects are stated, not its values.
- Integer width: elements tagged `Int32` or `Int64` are unbounded integers, so the model has no wrap-around.
- Examples.MultiRunState: the constants `a` and `b` that the test binds outside the conditional and captures in its branches are written as literals inside the branches, so capture of outer values by a branch is not exercised there.
- StateRun.RunState: it returns the body's outputs before the final contents; `run_state` bodies return nothing, so for them (as `RunStateCorrect` states) the result is exactly the final contents.
- Constant variables (`constvars`): programs have none, so effect positions are parameter positions.
