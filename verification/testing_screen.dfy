/** The testing screen as a dispatcher: which handler each control invokes,
    and when the page renders that control at all (TesterDashboard.tsx,
    testing tab). The handlers themselves do not check whether the current
    step is completed; the page simply does not offer step management, result
    entry or completion on a completed step. The lock a completed step enjoys
    is therefore a property of the screen, proved here, and not of the
    handlers. */
module TestingScreen {
  import opened Wrappers
  import opened TestingWorkflow
  import TestingLaws
  import Seqs
  import Decimal
  import JsText

  /** What the operator can do on the page. */
  datatype Action =
    | EditLoginForm(typed: Credentials)                    // type into the login form without submitting
    | SubmitLogin(typed: Credentials, loginTime: string)  // type into the login form, then submit
    | CaptureFix(fix: Option<Coord>)                       // the location button, with the provider's answer
    | AddStepButton
    | RemoveStepButton                                     // always removes the current step
    | AddResultButton(name: string, value: string)
    | RemoveResultButton(name: string)
    | CompleteButton(now: string)

  /** The state after an action, the store, and the alert shown, if any. */
  datatype Outcome = Outcome(state: Workflow, store: Store, error: Option<TestingError>)

  /** `testingSteps[currentStep]?.id`. */
  function CurrentId(w: Workflow): Option<string> {
    if 0 <= w.current < |w.steps| then Some(w.steps[w.current].id) else None
  }

  /** `isStepCompleted(testingSteps[currentStep]?.id)`. */
  predicate CurrentCompleted(w: Workflow) {
    CurrentId(w).Some? && CurrentId(w).value in w.completed
  }

  /** Whether the page renders the control for `a`. The login tab is always
      reachable and its fields always editable; the browser submits the login
      form only when all three fields are non-empty, since each is `required`.
      The testing tab is shown only once a session exists; the location button only while no location
      is held; step management, result entry and completion only while the
      current step is not completed; the remove-step button only while more
      than one step exists; a result's remove button only next to a displayed
      result, and the stamps are not displayed; the complete button is
      disabled until a location is held. */
  function Offered(w: Workflow, a: Action): (b: bool)
    // Only the login form is reachable without a session.
    ensures b && !a.SubmitLogin? && !a.EditLoginForm? ==> w.session.Some?
    // A submitted login form has every field filled in.
    ensures b && a.SubmitLogin? ==> a.typed.batchId != "" && a.typed.testerId != "" && a.typed.testerName != ""
    // A completed current step locks everything but the login form and the location button.
    ensures b && CurrentCompleted(w) ==> a.EditLoginForm? || a.SubmitLogin? || a.CaptureFix?
    // The stamps are never offered for removal.
    ensures b && a.RemoveResultButton? ==> a.name !in ReservedKeys
  {
    match a
    case EditLoginForm(_) => true
    case SubmitLogin(typed, _) => typed.batchId != "" && typed.testerId != "" && typed.testerName != ""
    case CaptureFix(_) => w.session.Some? && w.location.None?
    case AddStepButton => w.session.Some? && !CurrentCompleted(w)
    case RemoveStepButton => w.session.Some? && !CurrentCompleted(w) && |w.steps| > 1
    case AddResultButton(_, _) => w.session.Some? && !CurrentCompleted(w)
    case RemoveResultButton(name) =>
      && w.session.Some? && !CurrentCompleted(w) && CurrentId(w).Some?
      && name in EntriesOf(w.ledger, CurrentId(w).value) && name !in ReservedKeys
    case CompleteButton(_) => w.session.Some? && !CurrentCompleted(w) && w.location.Some?
  }

  /** The outcome of a handler that does not touch the store: its new state,
      or the old state with its alert. */
  function Lift(w: Workflow, store: Store, r: Result<Workflow, TestingError>): (o: Outcome)
  {
    match r
    case Success(w') => Outcome(w', store, None)
    case Failure(e) => Outcome(w, store, Some(e))
  }

  /** Perform an offered action. Typing into the login form changes the form
      fields whether or not the submission is then accepted. */
  function Dispatch(w: Workflow, store: Store, a: Action): (o: Outcome)
    requires Offered(w, a)
    ensures !a.SubmitLogin? && !a.CompleteButton? ==> o.store == store
    ensures a.SubmitLogin? ==> o.store == store && o.state.form == a.typed
    // The page never shows "Please fill in all fields": a rejected login names an unknown batch.
    ensures a.SubmitLogin? && o.error.Some? ==> o.error == Some(UnknownBatch)
    // Typing changes the form fields and nothing else.
    ensures a.EditLoginForm? ==> o.error.None? && o.state.form == a.typed && o.state.(form := w.form) == w
    ensures a.AddStepButton? ==> o.error.None?
    ensures a.CaptureFix? ==> (o.error == Some(LocationUnavailable) <==> a.fix.None?)
    ensures a.CaptureFix? ==> (o.error.Some? <==> a.fix.None?)
    ensures o.error.Some? ==> o.store == store
    ensures o.error.Some? && !a.SubmitLogin? ==> o.state == w
  {
    match a
    case EditLoginForm(typed) => Outcome(w.(form := typed), store, None)
    case SubmitLogin(typed, loginTime) =>
      var w0 := w.(form := typed);
      Lift(w0, store, Login(w0, store, loginTime))
    case CaptureFix(fix) => Lift(w, store, CaptureLocation(w, fix))
    case AddStepButton => Outcome(AddNewStep(w), store, None)
    case RemoveStepButton => Lift(w, store, RemoveStep(w, w.current))
    case AddResultButton(name, value) => Lift(w, store, AddResult(w, name, value))
    case RemoveResultButton(name) => Lift(w, store, RemoveResult(w, name))
    case CompleteButton(now) =>
      match Complete(w, store, now)
      case Success((w', store')) => Outcome(w', store', None)
      case Failure(e) => Outcome(w, store, Some(e))
  }

  /** Within a session (any action but a login), completion is one-way: the
      completed ids only grow, and a completed step keeps its entries and its
      place in the step list. */
  lemma CompletedStepsAreFrozen(w: Workflow, store: Store, a: Action)
    requires Offered(w, a) && !a.SubmitLogin?
    ensures var o := Dispatch(w, store, a);
            && w.completed <= o.state.completed
            && (forall id :: id in w.completed && id in w.ledger ==>
                  id in o.state.ledger && o.state.ledger[id] == w.ledger[id])
            && (forall j :: 0 <= j < |w.steps| && w.steps[j].id in w.completed ==>
                  w.steps[j] in o.state.steps)
  {
    var o := Dispatch(w, store, a);
    match a {
      case EditLoginForm(typed) =>
      case CaptureFix(fix) =>
      case AddStepButton =>
        assert forall j :: 0 <= j < |w.steps| ==> w.steps[j] == o.state.steps[..|w.steps|][j];
      case RemoveStepButton =>
        var r := RemoveStep(w, w.current);
        if r.Success? {
          forall j | 0 <= j < |w.steps| && w.steps[j].id in w.completed
            ensures w.steps[j] in o.state.steps
          {
            if j < w.current {
              assert o.state.steps[j] == w.steps[j];
            } else {
              assert o.state.steps[j - 1] == w.steps[j];
            }
          }
        }
      case AddResultButton(name, value) =>
      case RemoveResultButton(name) =>
      case CompleteButton(now) =>
    }
  }

  /** The completion handler itself does not de-duplicate, but the page never
      lets it repeat an id: completion is offered only while the current step
      is not completed, and no other action within a session touches the
      completed ids. */
  lemma PageNeverDuplicatesCompletion(w: Workflow, store: Store, a: Action)
    requires Offered(w, a) && !a.SubmitLogin? && Seqs.NoRepeats(w.completed)
    ensures Seqs.NoRepeats(Dispatch(w, store, a).state.completed)
  {
    var o := Dispatch(w, store, a);
    if a.CompleteButton? && o.error.None? {
      var id := w.steps[w.current].id;
      assert o.state.completed == w.completed + [id];
      assert id !in w.completed;
    } else {
      assert o.state.completed == w.completed;
    }
  }

  /** Every offered action keeps the pointer on an existing step, keeps every
      step before the pointer completed, and keeps the store's step lists
      non-empty. */
  lemma OfferedActionsKeepInvariants(w: Workflow, store: Store, a: Action)
    requires Valid(w) && Progress(w) && ValidStore(store) && Offered(w, a)
    ensures var o := Dispatch(w, store, a);
            Valid(o.state) && Progress(o.state) && ValidStore(o.store)
  {
    match a {
      case EditLoginForm(typed) =>
      case SubmitLogin(typed, loginTime) =>
        var w0 := w.(form := typed);
        assert Valid(w0) && Progress(w0);
      case CaptureFix(fix) =>
      case AddStepButton =>
      case RemoveStepButton =>
      case AddResultButton(name, value) =>
      case RemoveResultButton(name) =>
      case CompleteButton(now) =>
    }
  }

  /** The completion handler saves under the batch typed in the login form
      and stamps the tester typed there, not those of the open session. The
      login tab stays reachable during a session, so retyping its fields
      without submitting is enough: a completion that follows writes the
      session's work under the typed batch's key (for instance CB002's while
      CB001 is open) and credits the typed tester id, empty if the field was
      cleared. */
  lemma StaleFormRedirectsSave(w: Workflow, store: Store, typed: Credentials, now: string)
    requires Valid(w) && w.session.Some? && !CurrentCompleted(w) && w.location.Some?
    requires |EntriesOf(w.ledger, w.steps[w.current].id)| > 0
    ensures var o1 := Dispatch(w, store, EditLoginForm(typed));
            && o1.state == w.(form := typed)
            && Offered(o1.state, CompleteButton(now))
            && var o2 := Dispatch(o1.state, o1.store, CompleteButton(now));
               var id := w.steps[w.current].id;
               && o2.error.None?
               && StoreKey(typed.batchId) in o2.store
               && o2.state.ledger[id]["completedBy"] == Text(typed.testerId)
               && o2.state.session == w.session
               && (typed.batchId != w.session.value.batchId && StoreKey(w.session.value.batchId) !in store ==>
                     StoreKey(w.session.value.batchId) !in o2.store)
  {
    var o1 := Dispatch(w, store, EditLoginForm(typed));
    assert o1.state == w.(form := typed);
    assert o1.store == store;
    var c := Complete(o1.state, store, now);
    assert c.Success?;
    TestingLaws.StoreKeyInjective(typed.batchId, w.session.value.batchId);
  }

  /** A login the handler rejects keeps its typing in the form and the open
      session, exactly as typing without submitting does; so
      `StaleFormRedirectsSave` applies after it too. */
  lemma RejectedLoginKeepsTyping(w: Workflow, store: Store, typed: Credentials, loginTime: string)
    requires Offered(w, SubmitLogin(typed, loginTime))
    requires Login(w.(form := typed), store, loginTime).Failure?
    ensures var o := Dispatch(w, store, SubmitLogin(typed, loginTime));
            && o.error == Some(UnknownBatch)
            && o.state == Dispatch(w, store, EditLoginForm(typed)).state
            && o.store == store
  {
  }

  /** Within a session, a completed step stays completed whatever the page
      lets the operator do next (`isStepCompleted`, as the lock reads it). */
  lemma CompletionIsPermanent(w: Workflow, store: Store, a: Action, id: string)
    requires Offered(w, a) && !a.SubmitLogin? && IsStepCompleted(w, id)
    ensures IsStepCompleted(Dispatch(w, store, a).state, id)
  {
    CompletedStepsAreFrozen(w, store, a);
    var c := Dispatch(w, store, a).state.completed;
    var j :| 0 <= j < |w.completed| && w.completed[j] == id;
    assert c[j] == id;
  }

  /** The state of a one-step run on CB001 once "Moisture: 8.5%" is entered. */
  function MoistureEntered(): Workflow {
    Initial.(form := Credentials("CB001", "T1", "Asha"),
             session := Some(Session("CB001", "T1", "Asha", "t0")),
             ledger := map["step1" := map["Moisture" := Text("8.5%")]])
  }

  /** A one-step run, first half: log in to CB001 with an empty store and
      enter one result. Completion is not offered yet, and the handler
      refuses it for want of a location, keeping the result; removing the
      only step is refused. */
  lemma SingleStepEntry()
    ensures
      var o1 := Dispatch(Initial, map[], SubmitLogin(Credentials("CB001", "T1", "Asha"), "t0"));
      && o1.error.None?
      && Offered(o1.state, AddResultButton("Moisture", "8.5%"))
      && Dispatch(o1.state, o1.store, AddResultButton("Moisture", "8.5%")) == Outcome(MoistureEntered(), map[], None)
    ensures !Offered(MoistureEntered(), CompleteButton("t1"))
    ensures Complete(MoistureEntered(), map[], "t1") == Failure(LocationRequired)
    ensures RemoveStep(MoistureEntered(), 0) == Failure(LastStep)
  {
    assert Initial.steps[0].id == "step1";
    var o1 := Dispatch(Initial, map[], SubmitLogin(Credentials("CB001", "T1", "Asha"), "t0"));
    assert o1.state == Initial.(form := Credentials("CB001", "T1", "Asha"),
                                session := Some(Session("CB001", "T1", "Asha", "t0")));
    assert !JsText.IsBlank("Moisture") by { assert !JsText.IsSpace("Moisture"[0]); }
    assert !JsText.IsBlank("8.5%") by { assert !JsText.IsSpace("8.5%"[0]); }
    var o2 := Dispatch(o1.state, o1.store, AddResultButton("Moisture", "8.5%"));
    assert o2.state.ledger["step1"] == map["Moisture" := Text("8.5%")];
    assert o2.state.ledger == map["step1" := map["Moisture" := Text("8.5%")]];
  }

  /** A one-step run, second half: capture a location and complete. The step
      is completed, the pointer and location stay (it was the last step), the
      snapshot is saved under CB001, and the pointer now rests on a completed
      step, which locks the page (`CompletedStepLocksScreen`). */
  lemma SingleStepCompletion()
    ensures
      var o3 := Dispatch(MoistureEntered(), map[], CaptureFix(Some(Coord(12.97, 77.59))));
      && o3.state == MoistureEntered().(location := Some(Coord(12.97, 77.59)))
      && Offered(o3.state, CompleteButton("t1"))
      && var o4 := Dispatch(o3.state, o3.store, CompleteButton("t1"));
      && o4.error.None?
      && o4.state.completed == ["step1"]
      && o4.state.current == 0
      && o4.state.location == Some(Coord(12.97, 77.59))
      && o4.state.ledger["step1"]["Moisture"] == Text("8.5%")
      && StoreKey("CB001") in o4.store
      && CurrentCompleted(o4.state)
  {
    assert Initial.steps[0].id == "step1";
    var w := MoistureEntered().(location := Some(Coord(12.97, 77.59)));
    assert |EntriesOf(w.ledger, "step1")| > 0 by {
      assert "Moisture" in EntriesOf(w.ledger, "step1");
    }
    var c := Complete(w, map[], "t1");
    assert c.Success?;
    var w4 := c.value.0;
    assert w4.completed == ["step1"];
    assert w4.current == 0 && w4.location == w.location && w4.steps == w.steps;
    assert "Moisture" !in ReservedKeys;
    assert w4.ledger["step1"]["Moisture"] == Text("8.5%");
    assert StoreKey("CB001") in c.value.1;
    assert CurrentCompleted(w4);
    var o4 := Dispatch(w, map[], CompleteButton("t1"));
    assert o4.state == w4 && o4.store == c.value.1 && o4.error.None?;
  }

  /** Once the pointer rests on a completed step the page offers only the
      login form and, while no location is held, the location button; the result
      handler itself would still write into the completed step. */
  lemma CompletedStepLocksScreen(w: Workflow, a: Action, name: string, value: string)
    requires CurrentCompleted(w)
    ensures Offered(w, a) ==> a.EditLoginForm? || a.SubmitLogin? || a.CaptureFix?
    ensures Valid(w) && !JsText.IsBlank(name) && !JsText.IsBlank(value) ==> AddResult(w, name, value).Success?
  {
  }

  /** Resuming CB001 from a snapshot of two steps whose first is completed:
      the pointer lands on the second step and the first step's entries and
      completion stamps are those saved. */
  lemma ResumeAtSecondStep()
    ensures
      var saved := map["step1" := map["pH" := Text("6.8"), "completedBy" := Text("T1"),
                                      "testerName" := Text("Asha"), "completedAt" := Text("t0"),
                                      "location" := Place(Coord(12.97, 77.59))]];
      var store := map[StoreKey("CB001") := Snapshot(Some(saved), Some(["step1"]), Some([NewStep(1), NewStep(2)]))];
      var o := Dispatch(Initial, store, SubmitLogin(Credentials("CB001", "T2", "Ravi"), "t5"));
      && o.error.None?
      && o.state.current == 1
      && o.state.steps == [NewStep(1), NewStep(2)]
      && o.state.ledger == saved
      && o.state.completed == ["step1"]
  {
    assert NewStep(1).id == "step1" by {
      assert Decimal.DigitChar(1) == '1';
    }
    assert NewStep(2).id == "step2" by {
      assert Decimal.DigitChar(2) == '2';
    }
  }
}
