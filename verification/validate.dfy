/** The validation engine: `validator` wraps a predicate into a unit that folds one check into a
    validity report, and `createModelValidator` folds an ordered list of units over a model. */
module Validate {
  import opened Wrappers
  import opened JsValues

  /** A field's entry: its own `valid` flag and one boolean per validator name. The flag is kept
      apart from the checks so that a validator called `valid` cannot overwrite it. */
  datatype FieldReport = FieldReport(valid: bool, checks: map<string, bool>)

  /** The validity report: the overall flag and one entry per validated field, again kept apart
      so that a field called `valid` cannot overwrite the flag. */
  datatype Report = Report(valid: bool, fields: map<string, FieldReport>)

  /** The valid, empty report (src/validate.js:1): the fold's seed, and the seed of a new field entry. */
  const Seed: Report := Report(true, map[])
  const FreshField: FieldReport := FieldReport(true, map[])

  /** The `fieldName` argument: one field name, or an array of them. */
  datatype FieldNames = OneField(name: string) | ManyFields(names: seq<string>)

  /** A validator function, called with the model's values as positional arguments. */
  type Predicate = seq<Option<Value>> -> bool

  /** A built validation unit: the fields it reads, the name it records under, and its predicate. */
  datatype ValidatorUnit = ValidatorUnit(fieldNames: seq<string>, name: string, test: Predicate)

  /** Construction fails when neither name is usable. */
  datatype ConfigError = Unnamed

  /** A name is usable when present and non-empty (an empty string is falsy). */
  predicate Named(n: Option<string>) {
    n.Some? && n.value != ""
  }

  /** Field names as a list: a single name becomes a one-element list, a list is kept (src/validate.js:9). */
  function NormaliseFieldNames(f: FieldNames): seq<string> {
    match f
    case OneField(n) => [n]
    case ManyFields(ns) => ns
  }

  /** Building a unit (src/validate.js:3-9): the explicit name is used when non-empty, the predicate's
      own name otherwise, and construction fails when neither is usable. `functionName` stands for
      the predicate's own `name` property, which may be missing or empty. */
  function MakeValidator(field: FieldNames, test: Predicate, validatorName: Option<string>, functionName: Option<string>)
    : (r: Result<ValidatorUnit, ConfigError>)
    ensures r.Failure? <==> !Named(validatorName) && !Named(functionName)
    ensures r.Success? ==> r.value.name != ""
    ensures r.Success? && Named(validatorName) ==> r.value.name == validatorName.value
    ensures r.Success? && !Named(validatorName) ==> r.value.name == functionName.value
    ensures r.Success? && field.OneField? ==> r.value.fieldNames == [field.name]
    ensures r.Success? && field.ManyFields? ==> r.value.fieldNames == field.names
    ensures r.Success? ==> r.value.test == test
  {
    if Named(validatorName) then Success(ValidatorUnit(NormaliseFieldNames(field), validatorName.value, test))
    else if Named(functionName) then Success(ValidatorUnit(NormaliseFieldNames(field), functionName.value, test))
    else Failure(Unnamed)
  }

  /** The model's value under each field name, in field-name order (src/validate.js:12). */
  function FieldValues(fieldNames: seq<string>, model: FormState): (vs: seq<Option<Value>>)
    ensures |vs| == |fieldNames|
    ensures forall i :: 0 <= i < |fieldNames| ==> vs[i] == Lookup(model, fieldNames[i])
  {
    if |fieldNames| == 0 then []
    else [Lookup(model, fieldNames[0])] + FieldValues(fieldNames[1..], model)
  }

  /** The `i`-th positional argument of a call, `undefined` past the end. */
  function Arg(vs: seq<Option<Value>>, i: nat): Option<Value> {
    if i < |vs| then vs[i] else None
  }

  /** What one unit decides about a model: its predicate applied to the field values (src/validate.js:14). */
  predicate Outcome(u: ValidatorUnit, model: FormState) {
    u.test(FieldValues(u.fieldNames, model))
  }

  /** A field's entry in a report, or the fresh entry `{ valid: true }` if it has none. */
  function Entry(fields: map<string, FieldReport>, f: string): FieldReport {
    if f in fields then fields[f] else FreshField
  }

  /** Records one validator's verdict in a field entry. */
  function Record(e: FieldReport, name: string, ok: bool): FieldReport {
    FieldReport(e.valid && ok, e.checks[name := ok])
  }

  /** The loop over the bound fields (src/validate.js:21-31). A field absent from the prior report is seeded afresh, otherwise
      the entry of the copy under construction is extended; `acc` is that copy. */
  function RecordFields(prior: map<string, FieldReport>, acc: map<string, FieldReport>, fs: seq<string>, name: string, ok: bool)
    : (r: map<string, FieldReport>)
    requires prior.Keys <= acc.Keys
    requires forall f :: f in acc ==> (f in prior && acc[f] == prior[f]) || acc[f] == Record(Entry(prior, f), name, ok)
    ensures forall f :: f in r <==> f in acc || f in fs
    ensures forall f :: f in fs ==> r[f] == Record(Entry(prior, f), name, ok)
    ensures forall f :: f in acc && f !in fs ==> r[f] == acc[f]
    decreases |fs|
  {
    if |fs| == 0 then acc
    else
      var f := fs[0];
      var base := if f !in prior then FreshField else acc[f];
      var acc' := acc[f := Record(base, name, ok)];
      assert Record(Record(Entry(prior, f), name, ok), name, ok) == Record(Entry(prior, f), name, ok);
      var r := RecordFields(prior, acc', fs[1..], name, ok);
      assert forall g :: g in fs ==> g == f || g in fs[1..];
      r
  }

  /** One unit applied to a model and the prior report (the function `validator` returns). */
  function Apply(u: ValidatorUnit, model: FormState, prior: Report): (next: Report)
    ensures next.valid == (prior.valid && Outcome(u, model))
    ensures forall f :: f in next.fields <==> f in prior.fields || f in u.fieldNames
    ensures forall f :: f in u.fieldNames ==>
              && next.fields[f].valid == (Entry(prior.fields, f).valid && Outcome(u, model))
              && next.fields[f].checks.Keys == Entry(prior.fields, f).checks.Keys + {u.name}
              && next.fields[f].checks[u.name] == Outcome(u, model)
              && (forall c :: c in Entry(prior.fields, f).checks && c != u.name ==>
                    next.fields[f].checks[c] == Entry(prior.fields, f).checks[c])
    ensures forall f :: f in prior.fields && f !in u.fieldNames ==> next.fields[f] == prior.fields[f]
  {
    var ok := Outcome(u, model);
    Report(prior.valid && ok, RecordFields(prior.fields, prior.fields, u.fieldNames, u.name, ok))
  }

  /** A unit bound to one field replaces that field's entry by the recorded one and touches nothing else. */
  lemma ApplyOneField(u: ValidatorUnit, model: FormState, prior: Report, f: string)
    requires u.fieldNames == [f]
    ensures Apply(u, model, prior)
            == Report(prior.valid && Outcome(u, model), prior.fields[f := Record(Entry(prior.fields, f), u.name, Outcome(u, model))])
  {
  }

  /** The model validator (src/validate.js:39-46): the units folded left to right from the valid, empty report.
      The overall flag is the conjunction of every unit's outcome. */
  function ValidateModel(units: seq<ValidatorUnit>, model: FormState): (report: Report)
    ensures report.valid <==> forall i :: 0 <= i < |units| ==> Outcome(units[i], model)
    decreases |units|
  {
    if |units| == 0 then Seed
    else
      var init := units[..|units| - 1];
      var prior := ValidateModel(init, model);
      assert forall i :: 0 <= i < |init| ==> init[i] == units[i];
      Apply(units[|units| - 1], model, prior)
  }

  /** The fold's last step, named for the proofs below. */
  lemma ValidateModelLast(units: seq<ValidatorUnit>, model: FormState)
    requires |units| > 0
    ensures ValidateModel(units, model) == Apply(units[|units| - 1], model, ValidateModel(units[..|units| - 1], model))
    ensures forall i :: 0 <= i < |units| - 1 ==> units[..|units| - 1][i] == units[i]
  {
  }

  /** Some unit of the list is bound to field `f`. */
  predicate BoundTo(units: seq<ValidatorUnit>, f: string) {
    exists i :: 0 <= i < |units| && f in units[i].fieldNames
  }

  /** Every unit of the list that is bound to field `f` passes on the model. */
  predicate AllBoundPass(units: seq<ValidatorUnit>, model: FormState, f: string) {
    forall i :: 0 <= i < |units| && f in units[i].fieldNames ==> Outcome(units[i], model)
  }

  /** Both predicates split over a list's last unit. */
  lemma SplitLast(units: seq<ValidatorUnit>, model: FormState, f: string)
    requires |units| > 0
    ensures BoundTo(units, f) <==> BoundTo(units[..|units| - 1], f) || f in units[|units| - 1].fieldNames
    ensures AllBoundPass(units, model, f) <==>
              AllBoundPass(units[..|units| - 1], model, f) && (f in units[|units| - 1].fieldNames ==> Outcome(units[|units| - 1], model))
  {
    var init := units[..|units| - 1];
    assert forall i :: 0 <= i < |init| ==> init[i] == units[i];
  }

  /** `ValidateField` in terms of the named predicates, proved by induction over the units. */
  lemma {:induction false} ValidateFieldByPredicates(units: seq<ValidatorUnit>, model: FormState, f: string)
    ensures f in ValidateModel(units, model).fields <==> BoundTo(units, f)
    ensures f in ValidateModel(units, model).fields ==>
              (ValidateModel(units, model).fields[f].valid <==> AllBoundPass(units, model, f))
    decreases |units|
  {
    if |units| > 0 {
      var init := units[..|units| - 1];
      var last := units[|units| - 1];
      var prior := ValidateModel(init, model);
      ValidateFieldByPredicates(init, model, f);
      SplitLast(units, model, f);
      assert ValidateModel(units, model) == Apply(last, model, prior);
    }
  }

  /** A field has an entry exactly when some unit is bound to it, and its flag is the conjunction
      of the outcomes of the units bound to it. */
  lemma ValidateField(units: seq<ValidatorUnit>, model: FormState, f: string)
    ensures f in ValidateModel(units, model).fields <==> exists i :: 0 <= i < |units| && f in units[i].fieldNames
    ensures f in ValidateModel(units, model).fields ==>
              (ValidateModel(units, model).fields[f].valid <==>
                 forall i :: 0 <= i < |units| && f in units[i].fieldNames ==> Outcome(units[i], model))
  {
    ValidateFieldByPredicates(units, model, f);
  }

  /** The checks recorded for a field, empty when the field has no entry. */
  function ChecksOf(report: Report, f: string): map<string, bool> {
    Entry(report.fields, f).checks
  }

  /** A field records a check name exactly when some unit bound to it has that name: a recorded
      pair is never removed. */
  lemma {:induction false} ValidateCheckNames(units: seq<ValidatorUnit>, model: FormState, f: string, c: string)
    ensures c in ChecksOf(ValidateModel(units, model), f) <==>
              exists i :: 0 <= i < |units| && f in units[i].fieldNames && units[i].name == c
    decreases |units|
  {
    if |units| > 0 {
      var init := units[..|units| - 1];
      var last := units[|units| - 1];
      ValidateModelLast(units, model);
      ValidateCheckNames(init, model, f, c);
      var prior := ValidateModel(init, model);
      var next := ValidateModel(units, model);
      if f in last.fieldNames {
        assert ChecksOf(next, f).Keys == ChecksOf(prior, f).Keys + {last.name};
      } else if f in prior.fields {
        assert ChecksOf(next, f) == ChecksOf(prior, f);
      } else {
        assert f !in next.fields;
      }
    }
  }

  /** No later unit bound to `f` records under the same name as unit `i`. */
  predicate LastFor(units: seq<ValidatorUnit>, f: string, i: int)
    requires 0 <= i < |units|
  {
    forall j :: i < j < |units| && f in units[j].fieldNames ==> units[j].name != units[i].name
  }

  /** Each recorded check holds the outcome of the last unit of that name bound to the field:
      a later unit of the same name overwrites an earlier one. */
  lemma {:induction false} ValidateLastWins(units: seq<ValidatorUnit>, model: FormState, f: string, i: nat)
    requires i < |units| && f in units[i].fieldNames && LastFor(units, f, i)
    ensures units[i].name in ChecksOf(ValidateModel(units, model), f)
    ensures ChecksOf(ValidateModel(units, model), f)[units[i].name] == Outcome(units[i], model)
    decreases |units|
  {
    var init := units[..|units| - 1];
    var last := units[|units| - 1];
    ValidateModelLast(units, model);
    var prior := ValidateModel(init, model);
    var next := ValidateModel(units, model);
    if i < |init| {
      assert init[i] == units[i];
      assert LastFor(init, f, i);
      ValidateLastWins(init, model, f, i);
      if f in last.fieldNames {
        assert last.name != units[i].name;
        assert ChecksOf(next, f)[units[i].name] == ChecksOf(prior, f)[units[i].name];
      } else {
        assert next.fields[f] == prior.fields[f];
      }
    }
  }

  /** Once the overall flag is false after a prefix of the units, it stays false to the end. */
  lemma InvalidStaysInvalid(units: seq<ValidatorUnit>, k: nat, model: FormState)
    requires k <= |units|
    requires !ValidateModel(units[..k], model).valid
    ensures !ValidateModel(units, model).valid
  {
  }

  /** With no units the report is exactly `{ valid: true }`. */
  lemma EmptyUnitsGiveSeed(model: FormState)
    ensures ValidateModel([], model) == Report(true, map[])
  {
  }

  /** The built-in required validator (src/validate.js:37): the field must hold a truthy value; recorded as `required`. */
  function IsRequired(fieldName: string): (u: ValidatorUnit)
    ensures u.name == "required" && u.fieldNames == [fieldName]
    ensures forall model :: Outcome(u, model) <==> fieldName in model && Truthy(Some(model[fieldName]))
  {
    MakeValidator(OneField(fieldName), (vs: seq<Option<Value>>) => Truthy(Arg(vs, 0)), Some("required"), None).value
  }

  /** A unit bound to two fields hands both values to its predicate in order and records the same
      verdict under both fields. */
  lemma TwoFieldUnit(u: ValidatorUnit, model: FormState, prior: Report)
    requires |u.fieldNames| == 2
    ensures Outcome(u, model) == u.test([Lookup(model, u.fieldNames[0]), Lookup(model, u.fieldNames[1])])
    ensures var next := Apply(u, model, prior);
            && next.fields[u.fieldNames[0]].checks[u.name] == Outcome(u, model)
            && next.fields[u.fieldNames[1]].checks[u.name] == Outcome(u, model)
  {
    var vs := FieldValues(u.fieldNames, model);
    assert vs == [Lookup(model, u.fieldNames[0]), Lookup(model, u.fieldNames[1])];
  }
}
