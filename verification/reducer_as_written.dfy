/** The reducer exactly as `createFormReducer` is written, kept beside the corrected `Reducer`
    to exhibit its two defects: the reset check never resets, and an own action of an unknown
    kind yields `undefined`. */
module ReducerAsWritten {
  import opened Wrappers
  import opened JsValues
  import opened Actions
  import opened Reducer
  import opened ReducerScenario

  /** What a call of the JavaScript reducer does: throw, or return a value (`None` is `undefined`). */
  datatype Outcome = Threw | Returned(state: Option<FormState>)

  /** The two things the written reset check can do: throw, or yield `undefined`. */
  datatype Probe = ProbeThrows | ProbeUndefined

  /** The written reset check (src/index.js:25-30). Its arrow function has a block body and no
      `return`, so its value is always `undefined`; it is called with no argument, so a type-string
      trigger reads `undefined.type` and throws. A predicate trigger is handed no action; it is taken
      here to answer false, so the scan reaches every type-string trigger. */
  function ResetProbeAsWritten(triggers: seq<Trigger>): (p: Probe)
    ensures p == ProbeThrows <==> exists i :: 0 <= i < |triggers| && triggers[i].OnType?
  {
    if |triggers| == 0 then ProbeUndefined
    else if triggers[0].OnType? then ProbeThrows
    else
      var rest := ResetProbeAsWritten(triggers[1..]);
      assert forall i :: 1 <= i < |triggers| ==> triggers[i] == triggers[1..][i - 1];
      rest
  }

  /** The written reducer (src/index.js:32-55): the reset check is consulted only for its value,
      which is never true, and the `switch` falls off its end for an unknown kind. So triggers are
      ignored, or make the call throw, and every other outcome is that of the corrected transition
      without triggers, save that an own action of unknown kind yields `undefined`. */
  function ReduceAsWritten(r: FormReducer, state: Option<FormState>, action: Option<Action>): (o: Outcome)
    ensures action.None? ==> o == Returned(Some(state.GetOr(r.initial)))
    ensures action.Some? ==> (o == Threw <==> exists i :: 0 <= i < |r.triggers| && r.triggers[i].OnType?)
    ensures action.Some? && o != Threw && Addressed(r, action.value) && KindOf(action.value.actionType).Foreign? ==>
              o == Returned(None)
    ensures action.Some? && o != Threw && !(Addressed(r, action.value) && KindOf(action.value.actionType).Foreign?) ==>
              o == Returned(Step(r.(triggers := []), state.GetOr(r.initial), action.value))
  {
    var s := state.GetOr(r.initial);
    match action
    case None => Returned(Some(s))
    case Some(a) =>
      if ResetProbeAsWritten(r.triggers) == ProbeThrows then Threw
      else if !Addressed(r, a) then Returned(Some(s))
      else
        match KindOf(a.actionType)
        case ResetState => Returned(Some(r.initial))
        case SetState => Returned(Some(r.merge(s, a.payload.value.state)))
        case ReplaceState => Returned(a.payload.value.state)
        case Foreign(_) => Returned(None)
  }

  /** As written, a firing trigger never resets a foreign action: the call either throws or
      returns the state it was given, where the corrected reducer returns the initial state. */
  lemma TriggerNeverResetsAsWritten(r: FormReducer, s: FormState, a: Action)
    requires ShouldReset(r.triggers, a) && !Addressed(r, a)
    ensures ReduceAsWritten(r, Some(s), Some(a)) in {Threw, Returned(Some(s))}
    ensures Reduce(r, Some(s), Some(a)) == Some(r.initial)
  {
  }

  /** With the test reducer's `resetActions: ['RESET']`, every call given an action throws as
      written, starting with the store's own init action when the store is built
      (test/index.js:10-12), so the suite as written never gets past its construction. The state
      `{ name: 'default', email: 'react@example.com' }` is the one the corrected reducer reaches
      before the test's `RESET` dispatch (test/index.js:50-52); from it the written call throws as
      well, while the corrected reducer returns the initial state, as the test expects. */
  lemma ResetTriggerThrowsAsWritten()
    ensures ReduceAsWritten(TestReducer(), None, Some(StoreInit())) == Threw
    ensures Reduce(TestReducer(), None, Some(StoreInit())) == Some(TestReducer().initial)
    ensures var s := map["name" := Str("default"), "email" := Str("react@example.com")];
            && ReduceAsWritten(TestReducer(), Some(s), Some(Action("RESET", None))) == Threw
            && Reduce(TestReducer(), Some(s), Some(Action("RESET", None))) == Some(TestReducer().initial)
  {
  }

  /** An own action of an unknown kind, with no type-string triggers configured: as written the
      reducer returns `undefined`; the corrected reducer keeps the state. */
  lemma UnknownKindUndefinedAsWritten(r: FormReducer, s: FormState, a: Action)
    requires forall i :: 0 <= i < |r.triggers| ==> r.triggers[i].When?
    requires !ShouldReset(r.triggers, a)
    requires Addressed(r, a) && a.actionType !in {SetStateType, ReplaceStateType, ResetStateType}
    ensures ReduceAsWritten(r, Some(s), Some(a)) == Returned(None)
    ensures Step(r, s, a) == Some(s)
  {
  }
}
