/** The dispatch sequence of the reducer's test suite, replayed against the corrected reducer. */
module ReducerScenario {
  import opened Wrappers
  import opened JsValues
  import opened Actions
  import opened Reducer

  /** The store of the test suite (test/index.js:9-12): form `myForm`, initial state
      `{ name: 'default' }`, reset on the action type `RESET`. */
  function TestReducer(): FormReducer {
    CreateFormReducer("myForm", Some(map["name" := Str("default")]), Options(Some(Triggers([OnType("RESET")])), None))
  }

  /** The store's own initialisation action: a type of its own and no payload. */
  function StoreInit(): Action {
    Action("@@redux/INIT", None)
  }

  /** The test suite's dispatches in order, each from the state the previous one left: the store's
      initialisation, own set, replace, field set, own reset, field set, the `RESET` trigger, and
      the four actions addressed to another form. Every expected state of the suite is reached. */
  lemma TestSuiteScenario()
    ensures var r := TestReducer();
            var init := map["name" := Str("default")];
            var email1 := map["email" := Str("react@redux.reformed")];
            var s0 := Reduce(r, None, Some(StoreInit()));
            var s1 := Reduce(r, s0, Some(SetFormState("myForm", email1)));
            var s2 := Reduce(r, s1, Some(ReplaceFormState("myForm", email1)));
            var s3 := Reduce(r, s2, Some(SetFieldState("myForm", "email", Str("react@example.com"))));
            var s4 := Reduce(r, s3, Some(ResetFormState("myForm")));
            var s5 := Reduce(r, s4, Some(SetFieldState("myForm", "email", Str("react@example.com"))));
            var s6 := Reduce(r, s5, Some(Action("RESET", None)));
            var s7 := Reduce(r, s6, Some(SetFormState("notMyForm", email1)));
            var s8 := Reduce(r, s7, Some(ReplaceFormState("notMyForm", email1)));
            var s9 := Reduce(r, s8, Some(SetFieldState("notMyForm", "email", Str("react@example.com"))));
            var s10 := Reduce(r, s9, Some(ResetFormState("notMyForm")));
            && s0 == Some(init)
            && s1 == Some(map["name" := Str("default"), "email" := Str("react@redux.reformed")])
            && s2 == Some(email1)
            && s3 == Some(map["email" := Str("react@example.com")])
            && s4 == Some(init)
            && s5 == Some(map["name" := Str("default"), "email" := Str("react@example.com")])
            && s6 == Some(init)
            && s7 == Some(init) && s8 == Some(init) && s9 == Some(init) && s10 == Some(init)
  {
    var r := TestReducer();
    var init := map["name" := Str("default")];
    var email1 := map["email" := Str("react@redux.reformed")];
    var v := Str("react@example.com");
    assert r.triggers == [OnType("RESET")] && r.merge == ShallowMerge && r.initial == init;
    forall a: Action | a.actionType != "RESET"
      ensures !ShouldReset(r.triggers, a)
    {
      assert !Fires(r.triggers[0], a);
    }
    OwnSetShallow(r, init, email1);
    assert init + email1 == map["name" := Str("default"), "email" := Str("react@redux.reformed")];
    OwnReplaceDiscardsPrior(r, Some(init + email1), email1);
    OwnSetFieldShallow(r, email1, "email", v);
    assert email1["email" := v] == map["email" := v];
    OwnResetRestoresInitial(r, Some(map["email" := v]));
    OwnSetFieldShallow(r, init, "email", v);
    assert init["email" := v] == map["name" := Str("default"), "email" := v];
    assert Fires(r.triggers[0], Action("RESET", None));
  }
}
