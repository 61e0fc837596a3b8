/** The scoped form reducer built by `createFormReducer`, with its corrected reset check. */
module Reducer {
  import opened Wrappers
  import opened JsValues
  import opened Actions

  /** A reset trigger: a literal action `type`, or a predicate over the action. */
  datatype Trigger = OnType(actionType: string) | When(matches: Action -> bool)

  /** The `resetActions` option: a single `type` string, or a list of triggers. */
  datatype ResetActions = OneType(actionType: string) | Triggers(triggers: seq<Trigger>)

  /** The `mergeState` option. It receives `payload.state`, which may be absent. */
  type MergeFn = (FormState, Option<FormState>) -> FormState

  /** The options object; an absent field takes its value from the defaults. */
  datatype Options = Options(resetActions: Option<ResetActions>, mergeState: Option<MergeFn>)

  /** What a reducer closes over once built. */
  datatype FormReducer = FormReducer(formName: string, initial: FormState, triggers: seq<Trigger>, merge: MergeFn)

  /** The default merge: the patch's keys overwrite, every other key of the prior state survives.
      Spreading an absent patch adds nothing. */
  function ShallowMerge(left: FormState, patch: Option<FormState>): (r: FormState)
    ensures patch.None? ==> r == left
    ensures patch.Some? ==> r.Keys == left.Keys + patch.value.Keys
    ensures patch.Some? ==> forall k :: k in patch.value ==> r[k] == patch.value[k]
    ensures patch.Some? ==> forall k :: k in left && k !in patch.value ==> r[k] == left[k]
  {
    match patch
    case None => left
    case Some(p) => left + p
  }

  /** Merging the same patch twice is merging it once. */
  lemma ShallowMergeIdempotent(left: FormState, patch: Option<FormState>)
    ensures ShallowMerge(ShallowMerge(left, patch), patch) == ShallowMerge(left, patch)
  {
  }

  /** The trigger list (src/index.js:24): a single type string is wrapped in a one-element list, a list is kept. */
  function NormaliseResetActions(o: ResetActions): seq<Trigger> {
    match o
    case OneType(t) => [OnType(t)]
    case Triggers(ts) => ts
  }

  /** Building a reducer (src/index.js:17-24): the initial state defaults to the empty object, and
      absent options take an empty trigger list and the shallow merge. */
  function CreateFormReducer(formName: string, initial: Option<FormState>, options: Options): (r: FormReducer)
    ensures r.formName == formName
    ensures initial.None? ==> r.initial == map[]
    ensures initial.Some? ==> r.initial == initial.value
    ensures options.resetActions.None? ==> r.triggers == []
    ensures options.resetActions.Some? && options.resetActions.value.OneType? ==>
              r.triggers == [OnType(options.resetActions.value.actionType)]
    ensures options.resetActions.Some? && options.resetActions.value.Triggers? ==>
              r.triggers == options.resetActions.value.triggers
    ensures options.mergeState.None? ==> r.merge == ShallowMerge
    ensures options.mergeState.Some? ==> r.merge == options.mergeState.value
  {
    FormReducer(
      formName,
      initial.GetOr(map[]),
      NormaliseResetActions(options.resetActions.GetOr(Triggers([]))),
      options.mergeState.GetOr(ShallowMerge))
  }

  /** Whether one trigger fires on an action. */
  predicate Fires(t: Trigger, a: Action) {
    match t
    case OnType(k) => a.actionType == k
    case When(p) => p(a)
  }

  /** Does any reset trigger fire on the action? Evaluated left to right with short-circuit, as
      `Array.prototype.some`. The source's arrow function has a block body without `return` and is
      called without the action, so as written it never yields true; this is the evidently intended
      check, and the as-written behaviour is modelled separately in `ReducerAsWritten`. */
  function ShouldReset(triggers: seq<Trigger>, a: Action): (b: bool)
    ensures b <==> exists i :: 0 <= i < |triggers| && Fires(triggers[i], a)
  {
    if |triggers| == 0 then false
    else if Fires(triggers[0], a) then true
    else
      var rest := ShouldReset(triggers[1..], a);
      assert forall i :: 1 <= i < |triggers| ==> triggers[i] == triggers[1..][i - 1];
      rest
  }

  /** The action is addressed to this reducer's form. */
  predicate Addressed(r: FormReducer, a: Action) {
    a.payload.Some? && a.payload.value.formName == r.formName
  }

  /** One transition of the reducer on a present action, from the (already defaulted) state `s`.
      The result is `None` (`undefined`) only when an own replace carries no state.
      The source's `switch` has no `default`, so an own action of an unknown kind returns
      `undefined`; here it leaves the state unchanged, as a reducer must. */
  function Step(r: FormReducer, s: FormState, a: Action): (next: Option<FormState>)
    ensures ShouldReset(r.triggers, a) ==> next == Some(r.initial)
    ensures !ShouldReset(r.triggers, a) && !Addressed(r, a) ==> next == Some(s)
    ensures next.None? <==>
              && !ShouldReset(r.triggers, a)
              && Addressed(r, a)
              && KindOf(a.actionType) == ReplaceState
              && a.payload.value.state.None?
  {
    if ShouldReset(r.triggers, a) then Some(r.initial)
    else if !Addressed(r, a) then Some(s)
    else
      match KindOf(a.actionType)
      case ResetState => Some(r.initial)
      case SetState => Some(r.merge(s, a.payload.value.state))
      case ReplaceState => a.payload.value.state
      case Foreign(_) => Some(s)
  }

  /** The reducer (src/index.js:32-55). A `None` state is `undefined` and
      takes the initial state; with no action (the initialisation probe) the state comes back. */
  function Reduce(r: FormReducer, state: Option<FormState>, action: Option<Action>): (next: Option<FormState>)
    ensures action.None? ==> next == Some(state.GetOr(r.initial))
    ensures state.None? && action.None? ==> next == Some(r.initial)
    ensures action.Some? && !ShouldReset(r.triggers, action.value) && !Addressed(r, action.value) ==>
              next == Some(state.GetOr(r.initial))
    ensures action.Some? && ShouldReset(r.triggers, action.value) ==> next == Some(r.initial)
  {
    var s := state.GetOr(r.initial);
    match action
    case None => Some(s)
    case Some(a) => Step(r, s, a)
  }

  /** An own set merges the patch into the state with the configured merge. */
  lemma OwnSetMerges(r: FormReducer, s: FormState, patch: FormState)
    requires !ShouldReset(r.triggers, SetFormState(r.formName, patch))
    ensures Reduce(r, Some(s), Some(SetFormState(r.formName, patch))) == Some(r.merge(s, Some(patch)))
  {
  }

  /** With the default merge, an own set overwrites the patch's keys and keeps every other key;
      applying the same set twice equals applying it once. */
  lemma OwnSetShallow(r: FormReducer, s: FormState, patch: FormState)
    requires r.merge == ShallowMerge
    requires !ShouldReset(r.triggers, SetFormState(r.formName, patch))
    ensures var next := Reduce(r, Some(s), Some(SetFormState(r.formName, patch)));
            && next.Some?
            && next.value.Keys == s.Keys + patch.Keys
            && (forall k :: k in patch ==> next.value[k] == patch[k])
            && (forall k :: k in s && k !in patch ==> next.value[k] == s[k])
            && Reduce(r, next, Some(SetFormState(r.formName, patch))) == next
  {
    var a := SetFormState(r.formName, patch);
    OwnSetMerges(r, s, patch);
    var next := Reduce(r, Some(s), Some(a));
    assert next == Some(ShallowMerge(s, Some(patch)));
    OwnSetMerges(r, next.value, patch);
    ShallowMergeIdempotent(s, Some(patch));
  }

  /** Through the reducer, `setFieldState(formName)(k, v)` maps `k` to `v` and keeps every other key. */
  lemma OwnSetFieldShallow(r: FormReducer, s: FormState, k: string, v: Value)
    requires r.merge == ShallowMerge
    requires !ShouldReset(r.triggers, SetFieldState(r.formName, k, v))
    ensures Reduce(r, Some(s), Some(SetFieldState(r.formName, k, v))) == Some(s[k := v])
  {
    var next := Reduce(r, Some(s), Some(SetFieldState(r.formName, k, v)));
    OwnSetShallow(r, s, map[k := v]);
    assert next.value == s[k := v];
  }

  /** An own replace returns the carried state exactly, whatever the prior state held. */
  lemma OwnReplaceDiscardsPrior(r: FormReducer, state: Option<FormState>, v: FormState)
    requires !ShouldReset(r.triggers, ReplaceFormState(r.formName, v))
    ensures Reduce(r, state, Some(ReplaceFormState(r.formName, v))) == Some(v)
  {
  }

  /** An own reset returns the initial state, whether or not a trigger also fires. */
  lemma OwnResetRestoresInitial(r: FormReducer, state: Option<FormState>)
    ensures Reduce(r, state, Some(ResetFormState(r.formName))) == Some(r.initial)
  {
  }

  /** Actions built for another form, of every kind including reset, leave the state unchanged. */
  lemma ForeignFormIgnored(r: FormReducer, s: FormState, other: string, patch: FormState, k: string, v: Value)
    requires other != r.formName
    requires !ShouldReset(r.triggers, SetFormState(other, patch))
    requires !ShouldReset(r.triggers, ReplaceFormState(other, patch))
    requires !ShouldReset(r.triggers, ResetFormState(other))
    requires !ShouldReset(r.triggers, SetFieldState(other, k, v))
    ensures Reduce(r, Some(s), Some(SetFormState(other, patch))) == Some(s)
    ensures Reduce(r, Some(s), Some(ReplaceFormState(other, patch))) == Some(s)
    ensures Reduce(r, Some(s), Some(ResetFormState(other))) == Some(s)
    ensures Reduce(r, Some(s), Some(SetFieldState(other, k, v))) == Some(s)
  {
  }

  /** An action without a payload, of any kind, is ignored unless a trigger fires. */
  lemma NoPayloadIgnored(r: FormReducer, s: FormState, t: string)
    requires !ShouldReset(r.triggers, Action(t, None))
    ensures Reduce(r, Some(s), Some(Action(t, None))) == Some(s)
  {
  }

  /** A firing trigger resets to the initial state whatever the payload and form name. */
  lemma TriggerResets(r: FormReducer, state: Option<FormState>, a: Action, i: nat)
    requires i < |r.triggers| && Fires(r.triggers[i], a)
    ensures Reduce(r, state, Some(a)) == Some(r.initial)
  {
  }

  /** An own action of a kind the library does not define leaves the state unchanged. */
  lemma OwnUnknownKindIsNoOp(r: FormReducer, s: FormState, a: Action)
    requires Addressed(r, a)
    requires a.actionType !in {SetStateType, ReplaceStateType, ResetStateType}
    requires !ShouldReset(r.triggers, a)
    ensures Step(r, s, a) == Some(s)
  {
  }

  /** The default options never reset on a trigger; a single `type` string behaves as the
      one-element list holding it. */
  lemma ResetOptionNormalisation(formName: string, initial: Option<FormState>, merge: Option<MergeFn>, t: string, a: Action)
    ensures !ShouldReset(CreateFormReducer(formName, initial, Options(None, merge)).triggers, a)
    ensures ShouldReset(CreateFormReducer(formName, initial, Options(Some(OneType(t)), merge)).triggers, a)
            <==> ShouldReset(CreateFormReducer(formName, initial, Options(Some(Triggers([OnType(t)])), merge)).triggers, a)
    ensures ShouldReset(CreateFormReducer(formName, initial, Options(Some(OneType(t)), merge)).triggers, a)
            <==> a.actionType == t
  {
  }
}
