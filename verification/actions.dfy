/** The action vocabulary of the form reducer: the three kind tags and the four action creators. */
module Actions {
  import opened Wrappers
  import opened JsValues

  /** The `type` strings of the library's own actions. */
  const SetStateType: string := "@@react-redux-reformed/setState"
  const ReplaceStateType: string := "@@react-redux-reformed/replaceState"
  const ResetStateType: string := "@@react-redux-reformed/resetState"

  /** `payload: { formName, state }`; `state` is absent on a reset. */
  datatype Payload = Payload(formName: string, state: Option<FormState>)

  /** A plain `{ type, payload }` record. Any `type` string may arrive, including foreign ones. */
  datatype Action = Action(actionType: string, payload: Option<Payload>)

  /** How the reducer's `switch` classifies an action `type`. */
  datatype Kind = SetState | ReplaceState | ResetState | Foreign(actionType: string)

  /** A kind is well formed when a foreign kind does not reuse one of the library's own tags. */
  predicate WellFormedKind(k: Kind) {
    k.Foreign? ==> k.actionType !in {SetStateType, ReplaceStateType, ResetStateType}
  }

  /** The `type` string a kind is written as. */
  function TypeOf(k: Kind): string {
    match k
    case SetState => SetStateType
    case ReplaceState => ReplaceStateType
    case ResetState => ResetStateType
    case Foreign(t) => t
  }

  /** Classifies an action `type`, as the `case` labels of the reducer's `switch` do. */
  function KindOf(t: string): (k: Kind)
    ensures WellFormedKind(k)
    ensures k.Foreign? <==> t !in {SetStateType, ReplaceStateType, ResetStateType}
    ensures k.Foreign? ==> k.actionType == t
  {
    if t == SetStateType then SetState
    else if t == ReplaceStateType then ReplaceState
    else if t == ResetStateType then ResetState
    else Foreign(t)
  }

  /** Classifying a `type` string loses nothing: the string can be recovered from its kind. */
  lemma TypeOfKindOf(t: string)
    ensures TypeOf(KindOf(t)) == t
  {
  }

  /** Writing a kind out and classifying it again gives it back exactly when it is well formed;
      in particular the three tags are pairwise distinct, so dispatch on them is unambiguous. */
  lemma KindOfTypeOf(k: Kind)
    ensures KindOf(TypeOf(k)) == k <==> WellFormedKind(k)
  {
  }

  /** The set action for a form (src/actions.js:5-11). */
  function SetFormState(formName: string, state: FormState): (a: Action)
    ensures KindOf(a.actionType) == SetState
    ensures a.payload.Some? && a.payload.value.formName == formName
    ensures a.payload.value.state == Some(state)
  {
    Action(SetStateType, Some(Payload(formName, Some(state))))
  }

  /** The replace action for a form (src/actions.js:13-19). */
  function ReplaceFormState(formName: string, state: FormState): (a: Action)
    ensures KindOf(a.actionType) == ReplaceState
    ensures a.payload.Some? && a.payload.value.formName == formName
    ensures a.payload.value.state == Some(state)
  {
    Action(ReplaceStateType, Some(Payload(formName, Some(state))))
  }

  /** The reset action for a form (src/actions.js:21-26): carries the form name and no state. */
  function ResetFormState(formName: string): (a: Action)
    ensures KindOf(a.actionType) == ResetState
    ensures a.payload.Some? && a.payload.value.formName == formName
    ensures a.payload.value.state.None?
  {
    Action(ResetStateType, Some(Payload(formName, None)))
  }

  /** The field-set action (src/actions.js:28-34): a set whose patch has the one field as its only key. */
  function SetFieldState(formName: string, fieldName: string, fieldValue: Value): (a: Action)
    ensures a == SetFormState(formName, map[fieldName := fieldValue])
    ensures a.payload.value.state.value.Keys == {fieldName}
    ensures a.payload.value.state.value[fieldName] == fieldValue
  {
    SetFormState(formName, map[fieldName := fieldValue])
  }
}
