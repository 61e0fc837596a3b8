# react-redux-reformed, modelled in Dafny

This project models the two pure pieces of form logic in react-redux-reformed:

- the **scoped form reducer** built by `createFormReducer`, together with the action
  creators it dispatches on (`setFormState`, `replaceFormState`, `resetFormState`,
  `setFieldState`) and its reset triggers;
- the **validation engine**: `validator` wraps a predicate into a unit that folds one
  check into a validity report, `isRequired` is the built-in unit, and
  `createModelValidator` folds an ordered list of units over a model from `{ valid: true }`.

Modules (one per source file, plus helpers):

- `Wrappers` (`wrappers.dfy`): `Option` for JavaScript `undefined`, `Result` for construction errors.
- `JsValues` (`values.dfy`): the JSON-like `Value`, `FormState = map<string, Value>`, `Lookup` and `Truthy`.
- `Actions` (`actions.dfy`): the three `type` tags, the `Kind` classification, the four action creators.
- `Reducer` (`reducer.dfy`): options, triggers, `ShallowMerge`, `ShouldReset`, the transition `Step`,
  the reducer `Reduce`, and the reducer's properties.
- `ReducerScenario` (`reducer_scenario.dfy`): the dispatch sequence of the test suite.
- `ReducerAsWritten` (`reducer_as_written.dfy`): the reducer exactly as written, for the findings below.
- `Validate` (`validate.dfy`): reports, `MakeValidator`, `Apply`, `ValidateModel`, `IsRequired`, and the
  fold's invariants.
- `ValidateExample` (`validate_example.dfy`): the `lowerCase` and `minLength` validators of the test
  suite and its worked example.

Modelling choices:

- The reducer's state is `Option<FormState>`: `None` is `undefined`. This covers the
  `state = initialFormState` default and an own replace whose payload has no `state`, which
  returns `undefined`.
- The merge function receives `payload.state` as an `Option`, because the source passes it on
  even when it is absent; spreading an absent patch adds nothing.
- `Reduce` is the corrected reducer: the reset check is the boolean `ShouldReset(triggers, action)`,
  and an own action of an unknown kind leaves the state unchanged. The code as written does
  neither; see "Findings".
- A report keeps its `valid` flags apart from its maps (`Report(valid, fields)`,
  `FieldReport(valid, checks)`). In the source a field or a validator named `valid` shares a key
  with the flag and overwrites it (src/validate.js:18, 26-29); the model does not reproduce that
  collision.
- The predicate's own `name` property (`validatorFn.name`) is an `Option<string>` argument of
  `MakeValidator`.
- `resetActions` is a single type string or a list of triggers. src/index.js:24 wraps a string in a
  one-element list and passes anything else through unchanged.
- Values are immutable, so "the prior report is not altered" holds by construction. The source
  meets the same requirement by copying.

## Model

| member | source | states |
|---|---|---|
| `Actions.KindOf` | src/actions.js:1-3 | an action `type` is foreign exactly when it is none of the three library tags, and a foreign kind keeps its string |
| `Actions.TypeOfKindOf` | src/actions.js:1-3 | classifying a `type` string loses nothing: writing the kind out gives the string back |
| `Actions.KindOfTypeOf` | src/actions.js:1-3 | a kind survives writing out and classifying exactly when it is well formed, so the three tags are pairwise distinct and dispatch on them is unambiguous |
| `Actions.SetFormState` | src/actions.js:5-11 | the action classifies as a set and carries the form name and the patch verbatim |
| `Actions.ReplaceFormState` | src/actions.js:13-19 | the action classifies as a replace and carries the form name and the new state verbatim |
| `Actions.ResetFormState` | src/actions.js:21-26 | the action classifies as a reset, carries the form name and has no state |
| `Actions.SetFieldState` | src/actions.js:28-34 | equals `setFormState` with the one-key patch, whose only key is the field and maps to the value |
| `Reducer.ShallowMerge` | src/index.js:12-15 | the result's keys are the union; patch keys take the patch's values; every other key keeps its prior value; an absent patch changes nothing |
| `Reducer.ShallowMergeIdempotent` | src/index.js:12-15 | merging the same patch twice equals merging it once |
| `Reducer.CreateFormReducer` | src/index.js:17-24 | the initial state defaults to `{}`, the triggers to none and the merge to the shallow merge; a single `type` string becomes a one-element trigger list; given options are used as they are |
| `Reducer.ShouldReset` | src/index.js:25-30 | true exactly when some trigger fires on the action: a string trigger equals the action's `type`, a predicate trigger accepts it |
| `Reducer.Step` | src/index.js:37-54 | a firing trigger yields the initial state; an action for another form or without payload leaves the state; the result is `undefined` exactly for an own replace without state |
| `Reducer.Reduce` | src/index.js:32-43 | with no action the defaulted state comes back (the initial state when the state is `undefined`); a firing trigger resets; a foreign action leaves the state |
| `Reducer.OwnSetMerges` | src/index.js:49-50 | an own set returns the configured merge of the state and the patch |
| `Reducer.OwnSetShallow` | src/index.js:49-50 | with the default merge an own set overwrites the patch keys, keeps every other key, and a second identical set changes nothing |
| `Reducer.OwnSetFieldShallow` | test/index.js:34-41 | through the reducer `setFieldState(f)(k, v)` yields the prior state with `k` mapped to `v` and every other key kept |
| `Reducer.OwnReplaceDiscardsPrior` | src/index.js:52-53 | an own replace returns the carried state exactly, discarding the prior keys |
| `Reducer.OwnResetRestoresInitial` | src/index.js:46-47 | an own reset returns the initial state from any state |
| `Reducer.ForeignFormIgnored` | src/index.js:41-43 | set, replace, reset and field-set actions for another form leave the state unchanged |
| `Reducer.NoPayloadIgnored` | src/index.js:41-43 | an action without payload, of any kind, leaves the state unchanged unless a trigger fires |
| `Reducer.TriggerResets` | src/index.js:37-38 | if any trigger fires, the result is the initial state whatever the payload and form name |
| `Reducer.OwnUnknownKindIsNoOp` | src/index.js:45-54 | an own action of a kind the library does not define leaves the state unchanged |
| `Reducer.ResetOptionNormalisation` | src/index.js:17-24 | the default options never reset; a single `type` string resets exactly when it does as a one-element list, that is when the action's `type` equals it |
| `ReducerScenario.TestSuiteScenario` | test/index.js:9-83 | the reducer tests' eleven dispatches, each from the state the previous one left (store initialisation, set, replace, field set, own reset, field set, `RESET`, four actions for another form), reach every state the tests expect |
| `ReducerAsWritten.ReduceAsWritten` | src/index.js:32-55 | as written, a call with an action throws exactly when a type-string trigger is configured; otherwise triggers are ignored, an own action of unknown kind returns `undefined`, and every other action behaves as the corrected transition with no triggers |
| `ReducerAsWritten.ResetProbeAsWritten` | src/index.js:25-30 | the written reset check never yields true; it throws exactly when a type-string trigger is configured |
| `ReducerAsWritten.TriggerNeverResetsAsWritten` | src/index.js:37-39 | as written, a firing trigger on a foreign action either throws or returns the given state, where the corrected reducer resets |
| `ReducerAsWritten.ResetTriggerThrowsAsWritten` | test/index.js:10-52 | as written, the test store's init action already throws, and so does the `{ type: 'RESET' }` dispatch from `{ name: 'default', email: 'react@example.com' }`, the state the corrected reducer reaches before it; the corrected reducer returns the initial state in both cases |
| `ReducerAsWritten.UnknownKindUndefinedAsWritten` | src/index.js:45-54 | as written an own action of unknown kind returns `undefined`; the corrected transition keeps the state |
| `Validate.MakeValidator` | src/validate.js:3-9 | construction fails exactly when neither the explicit name nor the function's own name is non-empty; the explicit name wins; one field name becomes a one-element list, an array is kept |
| `Validate.FieldValues` | src/validate.js:12 | one value per field name, in field-name order, `undefined` for a missing key |
| `Validate.RecordFields` | src/validate.js:21-31 | after the loop every bound field holds its prior entry (a fresh one when the prior report lacks the field) with the check recorded, even when a name repeats; every other entry is untouched and no other key appears |
| `Validate.Apply` | src/validate.js:11-34 | overall `valid` becomes prior `valid` and the outcome; each bound field gets the check under the unit's name, its `valid` ANDed (from true when new), its other checks kept; unbound fields are unchanged |
| `Validate.ApplyOneField` | src/validate.js:21-30 | a one-field unit replaces that field's entry by the recorded one and changes no other field |
| `Validate.ValidateModel` | src/validate.js:39-46 | the overall `valid` is the conjunction of every unit's outcome |
| `Validate.ValidateFieldByPredicates` | src/validate.js:21-30 | the same per-field statement through named predicates: a field has an entry exactly when some unit is bound to it (`BoundTo`), and its `valid` holds exactly when every unit bound to it passes (`AllBoundPass`) |
| `Validate.ValidateField` | src/validate.js:21-30 | a field has an entry exactly when a unit is bound to it, and its `valid` is the conjunction of the outcomes of the units bound to it |
| `Validate.ValidateCheckNames` | src/validate.js:26-30 | a field records a check name exactly when a unit bound to it carries that name; a recorded check is never removed |
| `Validate.ValidateLastWins` | src/validate.js:26-30 | a recorded check holds the outcome of the last unit of that name bound to the field |
| `Validate.InvalidStaysInvalid` | src/validate.js:18 | once `valid` is false after a prefix of the units it stays false to the end |
| `Validate.EmptyUnitsGiveSeed` | src/validate.js:39-45 | with no units the report is exactly `{ valid: true }` with no fields |
| `Validate.IsRequired` | src/validate.js:37 | a unit named `required` bound to the one field, passing exactly when the field holds a truthy value |
| `Validate.TwoFieldUnit` | src/validate.js:9-14 | a two-field unit receives both values in order and records the same outcome under both fields |
| `ValidateExample.LowerCase` | test/index.js:89 | a unit named `lowerCase` on the one field, passing exactly when it holds a string equal to its lower-casing |
| `ValidateExample.MinLength` | test/index.js:88 | a unit named `minLength` on the one field, passing exactly when it holds a non-empty string of at least `min` characters or an object whose numeric `length` key is at least `min` |
| `ValidateExample.MinLengthReadsObjectLength` | test/index.js:88 | an object passes or fails on its own `length` key, and an object without one fails |
| `ValidateExample.WorkedExample` | test/index.js:88-110 | on `{ name: 'abcD' }` the three units give `valid: false` and `name = { valid: false, required: true, lowerCase: false, minLength: true }` |

## Left out

- `connectForm` and its `mapStateToProps`, `mapDispatchToProps` and `mergeProps` (src/index.js:58-83): UI binding to react-redux, outside the form logic (and `connect` is not imported there).
- The redux store and `combineReducers` of the tests: external plumbing; the tests are used only as statements of expected results.
- Reference identity: `===` results and `to.equal` become value equality.
- Currying: the action creators and `validator` take all their arguments at once.
- Truthiness of a predicate's result: predicates return `bool`. Predicates that throw are not modelled.
- Numbers are integers: no floating point, `NaN` or `-0`.
- An option object field present but set to `undefined` overrides the default in the source; the model treats it as absent.
- A lone predicate passed as `resetActions` (not in an array) is not wrapped by the source and would fail on `.some`; the model accepts only a string or a list.
- A payload without `formName`: the model's payload always names a form.
- A validator name that is a truthy non-string: names are strings.
- `ReducerAsWritten.ResetProbeAsWritten`: a predicate trigger called with no action is taken to answer false. So the model throws whenever a type-string trigger is configured, even if an earlier predicate would stop the scan. Whether it throws does not change the finding: the written check never returns true.
- `ValidateExample.MinLength`: a string's length counts characters, where JavaScript counts UTF-16 code units (a character outside the Basic Multilingual Plane counts 2 there). A `length` key that is not a number fails, where JavaScript coerces it (`'5' >= 2` is true).
- `JsValues.Lookup`: only own keys are read. In JavaScript, `model[key]` and the absence test on the prior report (src/validate.js:12, 22) also find keys inherited from `Object.prototype`. So `isRequired('constructor')` passes on `{}` in the source and fails here, and a field named `toString` is never seeded there. Like the `valid` key clash, this is left out.
- States that are neither a plain object nor `undefined` are not modelled: the state is a map or `None`. In the source, `replaceFormState(f)(null)` stores `null`, and a later set spreads it.
- `Actions.SetFormState` and `Actions.ReplaceFormState` always carry a state; `replaceFormState(f)()` builds an action without one. Such an action is still a plain `Action` whose payload state is `None`, and `Reducer.Step` handles it.
- `ValidateExample.LowerCase`: a non-string value fails where the source would throw, and lower-casing covers ASCII letters only.
- The remaining test predicates beyond the worked example are not modelled.

## Findings

| source | as written | input that shows it | evidently intended | confidence | as-written member | corrected member |
|---|---|---|---|---|---|---|
| src/index.js:25-30 | the reset check's arrow function has a block body without `return` and is called as `shouldReset()` with no action, so it never yields true; with a type-string trigger it reads `undefined.type` and throws | the test reducer (`resetActions: ['RESET']`) given the store's init action when the store is built (test/index.js:10-12); every later dispatch, such as `{ type: 'RESET' }` (test/index.js:51-52), throws the same way | any firing trigger returns `initialFormState` | high; not executed | `ReducerAsWritten.ResetTriggerThrowsAsWritten` | `Reducer.TriggerResets` |
| src/index.js:45-54 | the `switch` has no `default`, so an own action of an unknown kind returns `undefined` | `{ type: 'custom', payload: { formName: 'myForm' } }` dispatched to `createFormReducer('myForm')`, built with the default options | the state is returned unchanged | medium; not executed | `ReducerAsWritten.UnknownKindUndefinedAsWritten` | `Reducer.OwnUnknownKindIsNoOp` |
