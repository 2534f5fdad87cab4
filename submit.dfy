/** The contact form's `submit` handler: validate every input, collect the
    sanitised values by field name, mark required selects that are empty,
    and enter the loading state only when everything passed. */
module Submit {
  import opened Strings
  import opened Validation
  import Sanitize

  const LOADING := "loading"

  /** A `select` element. */
  datatype Select = Select(name: string, value: string, required: bool, group: FormGroup?)

  /** The group a select may change, as `GroupOf` is for an input. */
  function SelectGroupOf(s: Select): set<object> {
    if s.group == null then {} else {s.group}
  }

  /** The submit button: its class list and its `disabled` property. */
  class SubmitButton {
    var classes: set<string>
    var disabled: bool

    constructor (classes: set<string>, disabled: bool)
      ensures this.classes == classes && this.disabled == disabled
    {
      this.classes := classes;
      this.disabled := disabled;
    }
  }

  type Entry = (string, string)

  /** The object m after the first n writes of es, in order: a later write
      to the same name overwrites an earlier one. */
  function Collect(m: map<string, string>, es: seq<Entry>, n: nat): map<string, string>
    requires n <= |es|
  {
    if n == 0 then m else Collect(m, es, n - 1)[es[n - 1].0 := es[n - 1].1]
  }

  /** `sanitizeInput(input.value.trim())`: what an input contributes. */
  function InputValue(f: Field): string {
    Sanitize.SanitizeInput(Sanitize.JsString(Trim(f.value)))
  }

  /** `sanitizeInput(select.value)`: no trim here. */
  function SelectValue(s: Select): string {
    Sanitize.SanitizeInput(Sanitize.JsString(s.value))
  }

  /** The writes `formData[input.name] = ...`, in order. */
  function InputEntries(inputs: seq<Field>): seq<Entry> {
    seq(|inputs|, k requires 0 <= k < |inputs| => (inputs[k].name, InputValue(inputs[k])))
  }

  /** The writes `formData[select.name] = ...`, in order. */
  function SelectEntries(selects: seq<Select>): seq<Entry> {
    seq(|selects|, k requires 0 <= k < |selects| => (selects[k].name, SelectValue(selects[k])))
  }

  /** The collected object: every input's write, then every select's. */
  function FormData(inputs: seq<Field>, selects: seq<Select>): map<string, string> {
    Collect(Collect(map[], InputEntries(inputs), |inputs|), SelectEntries(selects), |selects|)
  }

  predicate FieldPasses(f: Field, test: RegexTest) {
    f.group == null || Judge(f, test).Passes()
  }

  /** `select.hasAttribute('required') && !select.value` fails the form. */
  predicate SelectPasses(s: Select) {
    !(s.required && |s.value| == 0)
  }

  /** Every one of the first n inputs passes. */
  predicate InputsPass(inputs: seq<Field>, n: nat, test: RegexTest)
    requires n <= |inputs|
  {
    n == 0 || (InputsPass(inputs, n - 1, test) && FieldPasses(inputs[n - 1], test))
  }

  /** Every one of the first n selects passes. */
  predicate SelectsPass(selects: seq<Select>, n: nat)
    requires n <= |selects|
  {
    n == 0 || (SelectsPass(selects, n - 1) && SelectPasses(selects[n - 1]))
  }

  /** The state of group g after validating the first n inputs in order. */
  function AfterInputs(g: FormGroup, st: GroupState, inputs: seq<Field>, n: nat, test: RegexTest): GroupState
    requires n <= |inputs|
  {
    if n == 0 then st
    else
      var prev := AfterInputs(g, st, inputs, n - 1, test);
      InputStep(g, prev, inputs[n - 1], test)
  }

  /** What validating one input does to group g. */
  function InputStep(g: FormGroup, st: GroupState, f: Field, test: RegexTest): GroupState {
    if f.group == g then Apply(st, Judge(f, test), g.hasErrorMessage) else st
  }

  /** The state of group g after the first n selects: a failing select adds
      `invalid` to its group (`?.` skips a select outside any group). */
  function AfterSelects(g: FormGroup, st: GroupState, selects: seq<Select>, n: nat): GroupState
    requires n <= |selects|
  {
    if n == 0 then st
    else
      var prev := AfterSelects(g, st, selects, n - 1);
      var s := selects[n - 1];
      SelectStep(g, prev, s)
  }

  /** What one select does to group g. */
  function SelectStep(g: FormGroup, st: GroupState, s: Select): GroupState {
    if s.group == g && !SelectPasses(s) then st.(classes := st.classes + {INVALID}) else st
  }

  ghost function InputGroups(inputs: seq<Field>): set<FormGroup> {
    set k | 0 <= k < |inputs| && inputs[k].group != null :: inputs[k].group
  }

  ghost function SelectGroups(selects: seq<Select>): set<FormGroup> {
    set k | 0 <= k < |selects| && selects[k].group != null :: selects[k].group
  }

  ghost function Groups(inputs: seq<Field>, selects: seq<Select>): set<FormGroup> {
    InputGroups(inputs) + SelectGroups(selects)
  }

  /** The submit handler, up to the point where the simulated submission
      would be scheduled. */
  method HandleSubmit(inputs: seq<Field>, selects: seq<Select>, btn: SubmitButton, test: RegexTest)
    returns (isValid: bool, formData: map<string, string>)
    modifies Groups(inputs, selects), btn
    ensures isValid <==>
      (forall i | 0 <= i < |inputs| :: FieldPasses(inputs[i], test)) &&
      (forall j | 0 <= j < |selects| :: SelectPasses(selects[j]))
    ensures formData == FormData(inputs, selects)
    ensures forall g | g in Groups(inputs, selects) ::
      g.State() == AfterSelects(g, AfterInputs(g, old(g.State()), inputs, |inputs|, test), selects, |selects|)
    ensures isValid ==> btn.classes == old(btn.classes) + {LOADING} && btn.disabled
    ensures !isValid ==> btn.classes == old(btn.classes) && btn.disabled == old(btn.disabled)
  {
    isValid, formData := ValidateInputs(inputs, test, Groups(inputs, selects));
    isValid, formData := CheckSelects(selects, isValid, formData, Groups(inputs, selects));

    if !isValid {
      return;
    }
    btn.classes := btn.classes + {LOADING};
    btn.disabled := true;
  }

  /** The loop over the inputs: validate each one and record its trimmed,
      sanitised value. */
  method ValidateInputs(inputs: seq<Field>, test: RegexTest, ghost groups: set<FormGroup>)
    returns (isValid: bool, formData: map<string, string>)
    requires forall k | 0 <= k < |inputs| && inputs[k].group != null :: inputs[k].group in groups
    modifies groups
    ensures isValid <==> forall i | 0 <= i < |inputs| :: FieldPasses(inputs[i], test)
    ensures formData == Collect(map[], InputEntries(inputs), |inputs|)
    ensures forall g | g in groups :: g.State() == AfterInputs(g, old(g.State()), inputs, |inputs|, test)
  {
    isValid := true;
    formData := map[];
    ghost var before := map g | g in groups :: g.State();
    var i := 0;
    while i < |inputs|
      invariant 0 <= i <= |inputs|
      invariant isValid == InputsPass(inputs, i, test)
      invariant formData == Collect(map[], InputEntries(inputs), i)
      invariant forall g | g in groups :: g.State() == AfterInputs(g, before[g], inputs, i, test)
    {
      var input := inputs[i];
      InputsNext(inputs, i, test);
      assert GroupOf(input) <= groups;
      isValid, formData := VisitInput(input, test, isValid, formData, groups);
      forall g | g in groups
        ensures g.State() == AfterInputs(g, before[g], inputs, i + 1, test)
      {
      }
      i := i + 1;
    }
    InputsPassIff(inputs, |inputs|, test);
  }

  /** One more input extends the flag and the writes by that input. */
  lemma InputsNext(inputs: seq<Field>, i: nat, test: RegexTest)
    requires i < |inputs|
    ensures InputsPass(inputs, i + 1, test) == (InputsPass(inputs, i, test) && FieldPasses(inputs[i], test))
    ensures Collect(map[], InputEntries(inputs), i + 1) ==
      Collect(map[], InputEntries(inputs), i)[inputs[i].name := InputValue(inputs[i])]
  {
    assert InputEntries(inputs)[i] == (inputs[i].name, InputValue(inputs[i]));
  }

  /** The `forEach` callback over the inputs: validate, then record. */
  method VisitInput(input: Field, test: RegexTest, isValid0: bool, formData0: map<string, string>, ghost groups: set<FormGroup>)
    returns (isValid: bool, formData: map<string, string>)
    modifies GroupOf(input)
    ensures isValid == (isValid0 && FieldPasses(input, test))
    ensures formData == formData0[input.name := InputValue(input)]
    ensures forall g | g in groups :: g.State() == InputStep(g, old(g.State()), input, test)
  {
    isValid := isValid0;
    var ok := ValidateField(input, test);
    if !ok {
      isValid := false;
    }
    formData := formData0[input.name := InputValue(input)];
  }

  /** The loop over the selects: record each sanitised value over the data
      so far and fail the form on a required select left empty. */
  method CheckSelects(selects: seq<Select>, isValid0: bool, formData0: map<string, string>, ghost groups: set<FormGroup>)
    returns (isValid: bool, formData: map<string, string>)
    requires forall k | 0 <= k < |selects| && selects[k].group != null :: selects[k].group in groups
    modifies groups
    ensures isValid <==> isValid0 && forall j | 0 <= j < |selects| :: SelectPasses(selects[j])
    ensures formData == Collect(formData0, SelectEntries(selects), |selects|)
    ensures forall g | g in groups :: g.State() == AfterSelects(g, old(g.State()), selects, |selects|)
  {
    isValid, formData := isValid0, formData0;
    ghost var before := map g | g in groups :: g.State();
    var j := 0;
    while j < |selects|
      invariant 0 <= j <= |selects|
      invariant isValid == (isValid0 && SelectsPass(selects, j))
      invariant formData == Collect(formData0, SelectEntries(selects), j)
      invariant forall g | g in groups :: g.State() == AfterSelects(g, before[g], selects, j)
    {
      var select := selects[j];
      SelectsNext(selects, j, formData0);
      assert SelectGroupOf(select) <= groups;
      isValid, formData := VisitSelect(select, isValid, formData, groups);
      forall g | g in groups
        ensures g.State() == AfterSelects(g, before[g], selects, j + 1)
      {
      }
      j := j + 1;
    }
    SelectsPassIff(selects, |selects|);
  }

  /** One more select extends the flag and the writes by that select. */
  lemma SelectsNext(selects: seq<Select>, j: nat, m: map<string, string>)
    requires j < |selects|
    ensures SelectsPass(selects, j + 1) == (SelectsPass(selects, j) && SelectPasses(selects[j]))
    ensures Collect(m, SelectEntries(selects), j + 1) ==
      Collect(m, SelectEntries(selects), j)[selects[j].name := SelectValue(selects[j])]
  {
    assert SelectEntries(selects)[j] == (selects[j].name, SelectValue(selects[j]));
  }

  /** The `forEach` callback over the selects: record, then test. */
  method VisitSelect(select: Select, isValid0: bool, formData0: map<string, string>, ghost groups: set<FormGroup>)
    returns (isValid: bool, formData: map<string, string>)
    modifies SelectGroupOf(select)
    ensures isValid == (isValid0 && SelectPasses(select))
    ensures formData == formData0[select.name := SelectValue(select)]
    ensures forall g | g in groups :: g.State() == SelectStep(g, old(g.State()), select)
  {
    isValid := isValid0;
    formData := formData0[select.name := SelectValue(select)];
    if select.required && |select.value| == 0 {
      isValid := false;
      if select.group != null {
        select.group.classes := select.group.classes + {INVALID};
      }
    }
  }

  /** The fold over the inputs holds exactly when each of them passes. */
  lemma {:induction false} InputsPassIff(inputs: seq<Field>, n: nat, test: RegexTest)
    requires n <= |inputs|
    ensures InputsPass(inputs, n, test) <==> forall k | 0 <= k < n :: FieldPasses(inputs[k], test)
  {
    if n > 0 {
      InputsPassIff(inputs, n - 1, test);
    }
  }

  /** The fold over the selects holds exactly when each of them passes. */
  lemma {:induction false} SelectsPassIff(selects: seq<Select>, n: nat)
    requires n <= |selects|
    ensures SelectsPass(selects, n) <==> forall k | 0 <= k < n :: SelectPasses(selects[k])
  {
    if n > 0 {
      SelectsPassIff(selects, n - 1);
    }
  }

  /** Inputs outside group g leave it alone. */
  lemma {:induction false} AfterInputsOutside(g: FormGroup, st: GroupState, inputs: seq<Field>, n: nat, test: RegexTest)
    requires n <= |inputs|
    requires forall k | 0 <= k < n :: inputs[k].group != g
    ensures AfterInputs(g, st, inputs, n, test) == st
  {
    if n > 0 {
      AfterInputsOutside(g, st, inputs, n - 1, test);
    }
  }

  /** Selects outside group g leave it alone. */
  lemma {:induction false} AfterSelectsOutside(g: FormGroup, st: GroupState, selects: seq<Select>, n: nat)
    requires n <= |selects|
    requires forall k | 0 <= k < n :: selects[k].group != g
    ensures AfterSelects(g, st, selects, n) == st
  {
    if n > 0 {
      AfterSelectsOutside(g, st, selects, n - 1);
    }
  }

  /** A name is in the collected object exactly when it was there before or
      some write carries it. */
  lemma {:induction false} CollectKeys(m: map<string, string>, es: seq<Entry>, n: nat, name: string)
    requires n <= |es|
    ensures name in Collect(m, es, n) <==> name in m || exists i | 0 <= i < n :: es[i].0 == name
  {
    if n > 0 {
      CollectKeys(m, es, n - 1, name);
    }
  }

  /** The value collected for a name is that of its last write. */
  lemma {:induction false} CollectLastWins(m: map<string, string>, es: seq<Entry>, n: nat, i: int)
    requires 0 <= i < n <= |es|
    requires forall j | i < j < n :: es[j].0 != es[i].0
    ensures es[i].0 in Collect(m, es, n) && Collect(m, es, n)[es[i].0] == es[i].1
  {
    if i < n - 1 {
      CollectLastWins(m, es, n - 1, i);
    }
  }

  /** A name that no write carries keeps its earlier value. */
  lemma {:induction false} CollectKeeps(m: map<string, string>, es: seq<Entry>, n: nat, name: string)
    requires n <= |es| && name in m
    requires forall j | 0 <= j < n :: es[j].0 != name
    ensures name in Collect(m, es, n) && Collect(m, es, n)[name] == m[name]
  {
    if n > 0 {
      CollectKeeps(m, es, n - 1, name);
    }
  }

  /** With distinct names over inputs and selects, the data holds each
      input's trimmed, sanitised value under its name and each select's
      sanitised value under its own. */
  lemma DistinctNamesData(inputs: seq<Field>, selects: seq<Select>)
    requires forall k, l | 0 <= k < l < |inputs| :: inputs[k].name != inputs[l].name
    requires forall k, l | 0 <= k < l < |selects| :: selects[k].name != selects[l].name
    requires forall k, l | 0 <= k < |inputs| && 0 <= l < |selects| :: inputs[k].name != selects[l].name
    ensures forall i | 0 <= i < |inputs| ::
      inputs[i].name in FormData(inputs, selects) &&
      FormData(inputs, selects)[inputs[i].name] == Sanitize.Escape(Trim(inputs[i].value))
    ensures forall j | 0 <= j < |selects| ::
      selects[j].name in FormData(inputs, selects) &&
      FormData(inputs, selects)[selects[j].name] == Sanitize.Escape(selects[j].value)
  {
    var ie, se := InputEntries(inputs), SelectEntries(selects);
    var mid := Collect(map[], ie, |inputs|);
    forall i | 0 <= i < |inputs|
      ensures inputs[i].name in FormData(inputs, selects)
      ensures FormData(inputs, selects)[inputs[i].name] == Sanitize.Escape(Trim(inputs[i].value))
    {
      CollectLastWins(map[], ie, |inputs|, i);
      CollectKeeps(mid, se, |selects|, inputs[i].name);
    }
    forall j | 0 <= j < |selects|
      ensures selects[j].name in FormData(inputs, selects)
      ensures FormData(inputs, selects)[selects[j].name] == Sanitize.Escape(selects[j].value)
    {
      CollectLastWins(mid, se, |selects|, j);
    }
  }

  /** The last input of a group decides its `valid` and `invalid` marks:
      the inputs after it leave the group alone. */
  lemma {:induction false} LastInputDecides(g: FormGroup, st: GroupState, inputs: seq<Field>, test: RegexTest, i: int)
    requires 0 <= i < |inputs| && inputs[i].group == g
    requires forall j | i < j < |inputs| :: inputs[j].group != g
    ensures AfterInputs(g, st, inputs, |inputs|, test) ==
      Apply(AfterInputs(g, st, inputs, i, test), Judge(inputs[i], test), g.hasErrorMessage)
  {
    var n := |inputs|;
    while n > i + 1
      invariant i + 1 <= n <= |inputs|
      invariant AfterInputs(g, st, inputs, |inputs|, test) == AfterInputs(g, st, inputs, n, test)
    {
      n := n - 1;
    }
  }

  /** A required select left empty leaves `invalid` on its group. */
  lemma {:induction false} EmptySelectMarksGroup(g: FormGroup, st: GroupState, selects: seq<Select>, n: nat, j: int)
    requires 0 <= j < n <= |selects| && selects[j].group == g && !SelectPasses(selects[j])
    ensures INVALID in AfterSelects(g, st, selects, n).classes
  {
    if j < n - 1 {
      EmptySelectMarksGroup(g, st, selects, n - 1, j);
    }
  }

  /** The select pass only ever adds `invalid`; the error text and every
      other class are kept. */
  lemma {:induction false} SelectsOnlyAddInvalid(g: FormGroup, st: GroupState, selects: seq<Select>, n: nat)
    requires n <= |selects|
    ensures st.classes <= AfterSelects(g, st, selects, n).classes <= st.classes + {INVALID}
    ensures AfterSelects(g, st, selects, n).errorText == st.errorText
  {
    if n > 0 {
      SelectsOnlyAddInvalid(g, st, selects, n - 1);
    }
  }
}
