/** The validators of the test suite's worked example, and the report they produce. */
module ValidateExample {
  import opened Wrappers
  import opened JsValues
  import opened Validate

  /** Lower-casing of ASCII letters; other characters are left as they are. */
  function LowerChar(c: char): char {
    if 'A' <= c <= 'Z' then (c as int + 32) as char else c
  }

  function ToLower(s: string): (t: string)
    ensures |t| == |s|
    ensures forall i :: 0 <= i < |s| ==> t[i] == LowerChar(s[i])
  {
    if |s| == 0 then "" else [LowerChar(s[0])] + ToLower(s[1..])
  }

  /** The test's lower-case predicate (test/index.js:89): the value equals its own lower-casing.
      A non-string value, on which the source's call would throw, is taken to fail. */
  predicate IsLowerCase(v: Option<Value>) {
    v.Some? && v.value.Str? && ToLower(v.value.s) == v.value.s
  }

  /** The test's minimum-length predicate (test/index.js:88): the value is truthy and its `length`
      property is at least `min`. A string's length is its character count; an object's `length` is
      its own `length` key when that holds a number; other values have no `length`. */
  predicate HasMinLength(v: Option<Value>, min: int) {
    && Truthy(v)
    && match v.value
       case Str(s) => |s| >= min
       case Obj(fields) => "length" in fields && fields["length"].Num? && fields["length"].n >= min
       case _ => false
  }

  /** An object whose `length` key is large enough passes, as it does in JavaScript. */
  lemma MinLengthReadsObjectLength()
    ensures HasMinLength(Some(Obj(map["length" := Num(5)])), 2)
    ensures !HasMinLength(Some(Obj(map["length" := Num(1)])), 2)
    ensures !HasMinLength(Some(Obj(map[])), 2)
  {
  }

  /** The test's `lowerCase` validator on one field (test/index.js:89). */
  function LowerCase(fieldName: string): (u: ValidatorUnit)
    ensures u.name == "lowerCase" && u.fieldNames == [fieldName]
    ensures forall model :: Outcome(u, model) <==> IsLowerCase(Lookup(model, fieldName))
  {
    MakeValidator(OneField(fieldName), (vs: seq<Option<Value>>) => IsLowerCase(Arg(vs, 0)), Some("lowerCase"), None).value
  }

  /** The test's `minLength` validator on one field (test/index.js:88). */
  function MinLength(fieldName: string, min: int): (u: ValidatorUnit)
    ensures u.name == "minLength" && u.fieldNames == [fieldName]
    ensures forall model :: Outcome(u, model) <==> HasMinLength(Lookup(model, fieldName), min)
  {
    MakeValidator(OneField(fieldName), (vs: seq<Option<Value>>) => HasMinLength(Arg(vs, 0), min), Some("minLength"), None).value
  }

  /** The model and units of the worked example. */
  function ExampleModel(): FormState {
    map["name" := Str("abcD")]
  }

  function ExampleUnits(): seq<ValidatorUnit> {
    [IsRequired("name"), LowerCase("name"), MinLength("name", 2)]
  }

  /** `'abcD'` is present and long enough, but not lower case. */
  lemma ExampleOutcomes()
    ensures Outcome(ExampleUnits()[0], ExampleModel())
    ensures !Outcome(ExampleUnits()[1], ExampleModel())
    ensures Outcome(ExampleUnits()[2], ExampleModel())
  {
  }

  /** The report after each of the three units. */
  lemma ExampleSteps()
    ensures var model := ExampleModel();
            var units := ExampleUnits();
            var r1 := Apply(units[0], model, Seed);
            var r2 := Apply(units[1], model, r1);
            && r1 == Report(true, map["name" := FieldReport(true, map["required" := true])])
            && r2 == Report(false, map["name" := FieldReport(false, map["required" := true, "lowerCase" := false])])
            && Apply(units[2], model, r2)
               == Report(false, map["name" := FieldReport(false, map["required" := true, "lowerCase" := false, "minLength" := true])])
  {
  }

  /** The fold over the first `k` units is the `k`-th report of `ExampleSteps`. */
  lemma ExamplePrefixes()
    ensures ValidateModel(ExampleUnits()[..1], ExampleModel()) == Apply(ExampleUnits()[0], ExampleModel(), Seed)
    ensures ValidateModel(ExampleUnits()[..2], ExampleModel())
            == Apply(ExampleUnits()[1], ExampleModel(), ValidateModel(ExampleUnits()[..1], ExampleModel()))
    ensures ValidateModel(ExampleUnits(), ExampleModel())
            == Apply(ExampleUnits()[2], ExampleModel(), ValidateModel(ExampleUnits()[..2], ExampleModel()))
  {
  }

  /** `isRequired('name')`, `lowerCase('name')` and `minLength('name', 2)` over `{ name: 'abcD' }`
      report the model invalid, with `name` required and long enough but not lower case. */
  lemma WorkedExample()
    ensures ValidateModel(ExampleUnits(), ExampleModel())
            == Report(false, map["name" := FieldReport(false, map["required" := true, "lowerCase" := false, "minLength" := true])])
  {
    ExamplePrefixes();
    ExampleSteps();
  }
}
