/** The tester's step-by-step testing workflow (TesterDashboard.tsx), taken out
    of the React component: the values the component keeps in state, and one
    pure transition per event handler. A handler that alerts and returns early
    yields `Failure(..)` and leaves the state as it was; a handler that would
    throw a `TypeError` (reading `.id` of a step index that does not exist)
    also yields a failure, `NoSuchStep`, since React then commits nothing.

    The clock, the geolocation provider and `localStorage` are parameters:
    timestamps arrive as strings, a location fix as an `Option<Coord>`, and
    the browser store as a map from storage key to the decoded snapshot. */
module TestingWorkflow {
  import opened Wrappers
  import Seqs
  import Decimal
  import JsText

  /** One entry of `testingSteps`. */
  datatype Step = Step(id: string, title: string, description: string)

  /** A geolocation fix; the coordinates are carried around, never computed with. */
  datatype Coord = Coord(lat: real, lng: real)

  /** A value in a step's result map: a result the tester typed, or one of the
      completion stamps (three texts and the location object). */
  datatype Value = Text(text: string) | Place(at: Coord)

  /** The map kept for one step: result name (or stamp name) to value. */
  type Entries = map<string, Value>

  /** `stepData`: step id to that step's entries. */
  type Ledger = map<string, Entries>

  /** The three login form fields. */
  datatype Credentials = Credentials(batchId: string, testerId: string, testerName: string)

  /** `currentBatch`, set by a successful login. */
  datatype Session = Session(batchId: string, testerId: string, testerName: string, loginTime: string)

  /** The parsed `batch_<id>_steps` record. Each field may be missing from a
      stored record, and the resume code copes with each being absent. */
  datatype Snapshot = Snapshot(
    stepData: Option<Ledger>,
    completedSteps: Option<seq<string>>,
    testingSteps: Option<seq<Step>>)

  /** `localStorage`, restricted to the decoded snapshots it holds. */
  type Store = map<string, Snapshot>

  /** Everything the workflow keeps between events. */
  datatype Workflow = Workflow(
    form: Credentials,
    session: Option<Session>,
    current: int,
    location: Option<Coord>,
    steps: seq<Step>,
    ledger: Ledger,
    completed: seq<string>)

  datatype TestingError =
    | MissingFields     // "Please fill in all fields"
    | UnknownBatch      // "Invalid Batch ID"
    | BlankResult       // "Please enter both result name and value"
    | NoSuchStep        // the handler indexed past the step list and threw
    | LastStep          // "Cannot remove the last step"
    | StepCompleted     // "Cannot remove a completed step"
    | LocationRequired  // "Please capture location before completing this step"
    | NoResults         // "Please add at least one test result before completing this step"
    | LocationUnavailable // "Could not capture location. Please enable location permissions."

  /** The batches the login form accepts. */
  const EligibleBatches: seq<string> := ["CB001", "CB002", "CB003"]

  const StepDescription: string := "Add your testing procedures and results"

  /** The stamp names a completion writes into the step's entries. */
  const ReservedKeys: set<string> := {"completedBy", "testerName", "completedAt", "location"}

  /** The id `addNewStep` gives to the step it appends to a list of n - 1 steps. */
  function StepId(n: nat): string {
    "step" + Decimal.Digits(n)
  }

  function StepTitle(n: nat): string {
    "Testing Step " + Decimal.Digits(n)
  }

  function NewStep(n: nat): Step {
    Step(StepId(n), StepTitle(n), StepDescription)
  }

  /** The state the component mounts with. */
  const Initial: Workflow := Workflow(
    Credentials("", "", ""), None, 0, None,
    [Step("step1", "Testing Step 1", StepDescription)], map[], [])

  /** The `localStorage` key a batch's snapshot lives under. */
  function StoreKey(batchId: string): string {
    "batch_" + batchId + "_steps"
  }

  /** The pointer designates an existing step of a non-empty list. */
  ghost predicate Valid(w: Workflow) {
    |w.steps| >= 1 && 0 <= w.current < |w.steps|
  }

  /** Every step before the pointer has its id among the completed ids. */
  ghost predicate Progress(w: Workflow) {
    forall j :: 0 <= j < w.current && j < |w.steps| ==> w.steps[j].id in w.completed
  }

  /** Every stored snapshot that carries a step list carries a non-empty one,
      as every snapshot a completion writes does. */
  ghost predicate ValidStore(store: Store) {
    forall k :: k in store && store[k].testingSteps.Some? ==> |store[k].testingSteps.value| >= 1
  }

  /** `stepData[id] || {}`. */
  function EntriesOf(ledger: Ledger, id: string): Entries {
    if id in ledger then ledger[id] else map[]
  }

  /** `{...ledger, [id]: entries}`: one step's entries replaced, the others kept. */
  function Put(ledger: Ledger, id: string, entries: Entries): (r: Ledger)
    ensures r.Keys == ledger.Keys + {id}
    ensures id in r && r[id] == entries
    ensures forall x :: x in ledger && x != id ==> r[x] == ledger[x]
  {
    ledger[id := entries]
  }

  /** `testingSteps.findIndex(step => !done.includes(step.id))`. */
  function FindOpen(steps: seq<Step>, done: seq<string>): (r: int)
    ensures -1 <= r < |steps|
    ensures r == -1 <==> forall j :: 0 <= j < |steps| ==> steps[j].id in done
    ensures r >= 0 ==> steps[r].id !in done
    ensures r >= 0 ==> forall j :: 0 <= j < r ==> steps[j].id in done
  {
    if |steps| == 0 then -1
    else if steps[0].id !in done then 0
    else
      var k := FindOpen(steps[1..], done);
      if k == -1 then -1 else k + 1
  }

  /** Where a resumed session points: the first step not yet completed, or the
      last step when every step is completed. */
  function ResumeIndex(steps: seq<Step>, done: seq<string>): (r: int)
    ensures |steps| >= 1 ==> 0 <= r < |steps|
    ensures 0 <= r < |steps| && steps[r].id !in done ==>
              forall j :: 0 <= j < r ==> steps[j].id in done
    ensures (exists j :: 0 <= j < |steps| && steps[j].id !in done) ==>
              0 <= r < |steps| && steps[r].id !in done
    ensures (forall j :: 0 <= j < |steps| ==> steps[j].id in done) ==> r == |steps| - 1
  {
    var k := FindOpen(steps, done);
    if k >= 0 then k else |steps| - 1
  }

  /** `handleLogin`: check the form, open the session and resume the batch's
      saved progress, if any. */
  function Login(w: Workflow, store: Store, now: string): (r: Result<Workflow, TestingError>)
    ensures r == Failure(MissingFields) <==>
              w.form.batchId == "" || w.form.testerId == "" || w.form.testerName == ""
    ensures r == Failure(UnknownBatch) <==>
              w.form.batchId != "" && w.form.testerId != "" && w.form.testerName != ""
              && w.form.batchId !in EligibleBatches
    ensures r.Success? || r == Failure(MissingFields) || r == Failure(UnknownBatch)
    ensures r.Success? ==>
              && r.value.session == Some(Session(w.form.batchId, w.form.testerId, w.form.testerName, now))
              && r.value.form == w.form
              && r.value.location == w.location
    // Without a saved snapshot only the session changes.
    ensures r.Success? && StoreKey(w.form.batchId) !in store ==>
              r.value == w.(session := r.value.session)
    // With one, the snapshot's fields replace the in-memory ones; a snapshot
    // without a step list keeps the in-memory list.
    ensures r.Success? && StoreKey(w.form.batchId) in store ==>
              var snap := store[StoreKey(w.form.batchId)];
              && r.value.ledger == snap.stepData.GetOr(map[])
              && r.value.completed == snap.completedSteps.GetOr([])
              && r.value.steps == snap.testingSteps.GetOr(w.steps)
    ensures r.Success? && StoreKey(w.form.batchId) in store ==>
              var s := r.value;
              || (0 <= s.current < |s.steps| && s.steps[s.current].id !in s.completed
                  && forall j :: 0 <= j < s.current ==> s.steps[j].id in s.completed)
              || (s.current == |s.steps| - 1 && forall j :: 0 <= j < |s.steps| ==> s.steps[j].id in s.completed)
    ensures r.Success? && Valid(w) && Progress(w) && ValidStore(store) ==>
              Valid(r.value) && Progress(r.value)
  {
    if w.form.batchId == "" || w.form.testerId == "" || w.form.testerName == "" then
      Failure(MissingFields)
    else if w.form.batchId !in EligibleBatches then
      Failure(UnknownBatch)
    else
      var session := Some(Session(w.form.batchId, w.form.testerId, w.form.testerName, now));
      var key := StoreKey(w.form.batchId);
      if key !in store then
        Success(w.(session := session))
      else
        var snap := store[key];
        var steps := if snap.testingSteps.Some? then snap.testingSteps.value else w.steps;
        var done := snap.completedSteps.GetOr([]);
        Success(w.(session := session,
                   ledger := snap.stepData.GetOr(map[]),
                   completed := done,
                   steps := steps,
                   current := ResumeIndex(steps, done)))
  }

  /** `captureLocation`, with the provider's answer as a parameter (`None`
      when geolocation is unsupported, refused or times out): a fix replaces
      the held location; a failure raises the "could not capture location"
      alert and leaves everything as it was. */
  function CaptureLocation(w: Workflow, fix: Option<Coord>): (r: Result<Workflow, TestingError>)
    ensures r == Failure(LocationUnavailable) <==> fix.None?
    ensures r.Success? ==> r.value == w.(location := fix) && r.value.location.Some?
    ensures r.Success? || r == Failure(LocationUnavailable)
  {
    if fix.Some? then Success(w.(location := fix)) else Failure(LocationUnavailable)
  }

  /** `addResult`: record `name: value` in the current step's entries. The
      guard rejects fields that trim to nothing; the entry stores the fields
      untrimmed. */
  function AddResult(w: Workflow, name: string, value: string): (r: Result<Workflow, TestingError>)
    ensures r == Failure(BlankResult) <==> JsText.IsBlank(name) || JsText.IsBlank(value)
    ensures r == Failure(NoSuchStep) <==>
              !JsText.IsBlank(name) && !JsText.IsBlank(value) && !(0 <= w.current < |w.steps|)
    // No other failure: a non-blank result for an existing step is recorded.
    ensures r.Success? || r == Failure(BlankResult) || r == Failure(NoSuchStep)
    ensures r.Success? ==>
              var id := w.steps[w.current].id;
              var before := EntriesOf(w.ledger, id);
              && r.value == w.(ledger := r.value.ledger)
              && r.value.ledger.Keys == w.ledger.Keys + {id}
              && (forall x :: x in w.ledger && x != id ==> r.value.ledger[x] == w.ledger[x])
              && r.value.ledger[id].Keys == before.Keys + {name}
              && r.value.ledger[id][name] == Text(value)
              && (forall k :: k in before && k != name ==> r.value.ledger[id][k] == before[k])
  {
    // `!s.trim()` holds exactly for blank fields (JsText.TrimEmptyIffBlank).
    if JsText.IsBlank(name) || JsText.IsBlank(value) then
      Failure(BlankResult)
    else if !(0 <= w.current < |w.steps|) then
      Failure(NoSuchStep)
    else
      var id := w.steps[w.current].id;
      Success(w.(ledger := Put(w.ledger, id, EntriesOf(w.ledger, id)[name := Text(value)])))
  }

  /** `removeResult`: drop one name from the current step's entries. */
  function RemoveResult(w: Workflow, name: string): (r: Result<Workflow, TestingError>)
    ensures r.Success? <==> 0 <= w.current < |w.steps|
    ensures r.Failure? ==> r.error == NoSuchStep
    ensures r.Success? ==>
              var id := w.steps[w.current].id;
              && r.value == w.(ledger := r.value.ledger)
              && r.value.ledger.Keys == w.ledger.Keys
              && (forall x :: x in w.ledger && x != id ==> r.value.ledger[x] == w.ledger[x])
              && (id in w.ledger ==>
                    && r.value.ledger[id].Keys == w.ledger[id].Keys - {name}
                    && forall k :: k in r.value.ledger[id] ==> r.value.ledger[id][k] == w.ledger[id][k])
    // A name the step does not hold, or a step with no entries at all: no change.
    ensures r.Success? && name !in EntriesOf(w.ledger, w.steps[w.current].id) ==> r.value == w
  {
    if !(0 <= w.current < |w.steps|) then
      Failure(NoSuchStep)
    else
      var id := w.steps[w.current].id;
      if id in w.ledger then
        var kept := w.ledger[id] - {name};
        assert name !in w.ledger[id] ==> kept == w.ledger[id];
        Success(w.(ledger := Put(w.ledger, id, kept)))
      else
        Success(w)
  }

  /** `addNewStep`: append a step numbered one past the current length. */
  function AddNewStep(w: Workflow): (r: Workflow)
    ensures |r.steps| == |w.steps| + 1 && r.steps[..|w.steps|] == w.steps
    ensures r.steps[|w.steps|].id == "step" + Decimal.IntToString(|w.steps| + 1)
    ensures r.steps[|w.steps|].title == "Testing Step " + Decimal.IntToString(|w.steps| + 1)
    ensures r.steps[|w.steps|].description == StepDescription
    ensures r == w.(steps := r.steps)
    ensures Valid(w) ==> Valid(r)
    ensures Valid(w) && Progress(w) ==> Progress(r)
  {
    w.(steps := w.steps + [NewStep(|w.steps| + 1)])
  }

  /** `removeStep(index)`: drop one step that is not completed, provided
      another step remains, and pull the pointer back when it sat at or after
      the removed position. */
  function RemoveStep(w: Workflow, index: int): (r: Result<Workflow, TestingError>)
    ensures r == Failure(LastStep) <==> |w.steps| <= 1
    ensures r == Failure(NoSuchStep) <==> |w.steps| > 1 && !(0 <= index < |w.steps|)
    ensures r == Failure(StepCompleted) <==>
              |w.steps| > 1 && 0 <= index < |w.steps| && w.steps[index].id in w.completed
    // No other failure: an open step is removed whenever another step remains.
    ensures r.Success? || r == Failure(LastStep) || r == Failure(NoSuchStep) || r == Failure(StepCompleted)
    ensures r.Success? ==>
              && |r.value.steps| == |w.steps| - 1
              && (forall j :: 0 <= j < index ==> r.value.steps[j] == w.steps[j])
              && (forall j :: index <= j < |r.value.steps| ==> r.value.steps[j] == w.steps[j + 1])
              && (r.value.current == w.current - 1 <==> w.current >= index && w.current > 0)
              && (r.value.current == w.current <==> !(w.current >= index && w.current > 0))
              && r.value == w.(steps := r.value.steps, current := r.value.current)
    // The step the pointer designated stays designated unless it was removed.
    ensures r.Success? && w.current != index && 0 <= w.current < |w.steps| ==>
              r.value.steps[r.value.current] == w.steps[w.current]
    ensures r.Success? && Valid(w) ==> Valid(r.value)
    ensures r.Success? && Progress(w) ==> Progress(r.value)
  {
    if |w.steps| <= 1 then
      Failure(LastStep)
    else if !(0 <= index < |w.steps|) then
      Failure(NoSuchStep)
    else if w.steps[index].id in w.completed then
      Failure(StepCompleted)
    else
      var current := if w.current >= index && w.current > 0 then w.current - 1 else w.current;
      Success(w.(steps := Seqs.RemoveAt(w.steps, index), current := current))
  }

  /** `{...before, completedBy, testerName, completedAt, location}`: the stamps
      `completeCurrentStep` writes over the step's entries. */
  function Stamp(before: Entries, testerId: string, testerName: string, now: string, at: Coord): (m: Entries)
    ensures m.Keys == before.Keys + ReservedKeys
    ensures forall k :: k in before && k !in ReservedKeys ==> m[k] == before[k]
    ensures m["completedBy"] == Text(testerId) && m["testerName"] == Text(testerName)
    ensures m["completedAt"] == Text(now) && m["location"] == Place(at)
  {
    before["completedBy" := Text(testerId)]["testerName" := Text(testerName)]
          ["completedAt" := Text(now)]["location" := Place(at)]
  }

  /** `completeCurrentStep`: with a location held and at least one entry in
      the current step, stamp the step, mark it completed, save the snapshot
      under the batch typed in the login form, and advance unless this was the
      last step. */
  function Complete(w: Workflow, store: Store, now: string): (r: Result<(Workflow, Store), TestingError>)
    ensures r == Failure(LocationRequired) <==> w.location.None?
    ensures r == Failure(NoSuchStep) <==> w.location.Some? && !(0 <= w.current < |w.steps|)
    ensures r == Failure(NoResults) <==>
              w.location.Some? && 0 <= w.current < |w.steps|
              && |EntriesOf(w.ledger, w.steps[w.current].id)| == 0
    // No other failure: a located step with an entry is always completed.
    ensures r.Success? || r == Failure(LocationRequired) || r == Failure(NoSuchStep) || r == Failure(NoResults)
    ensures r.Success? ==>
              var id := w.steps[w.current].id;
              var before := EntriesOf(w.ledger, id);
              var (w', store') := r.value;
              && w'.completed == w.completed + [id]
              && w'.steps == w.steps && w'.form == w.form && w'.session == w.session
              && w'.ledger.Keys == w.ledger.Keys + {id}
              && (forall x :: x in w.ledger && x != id ==> w'.ledger[x] == w.ledger[x])
              && w'.ledger[id].Keys == before.Keys + ReservedKeys
              && (forall k :: k in before && k !in ReservedKeys ==> w'.ledger[id][k] == before[k])
              && w'.ledger[id]["completedBy"] == Text(w.form.testerId)
              && w'.ledger[id]["testerName"] == Text(w.form.testerName)
              && w'.ledger[id]["completedAt"] == Text(now)
              && w'.ledger[id]["location"] == Place(w.location.value)
    // The snapshot saved holds exactly the new ledger, completed ids and steps.
    ensures r.Success? ==>
              var (w', store') := r.value;
              var key := StoreKey(w.form.batchId);
              && store'.Keys == store.Keys + {key}
              && store'[key] == Snapshot(Some(w'.ledger), Some(w'.completed), Some(w'.steps))
              && forall k :: k in store && k != key ==> store'[k] == store[k]
    // Not the last step: advance and forget the location. The last step: both stay.
    ensures r.Success? && w.current < |w.steps| - 1 ==>
              r.value.0.current == w.current + 1 && r.value.0.location.None?
    ensures r.Success? && w.current == |w.steps| - 1 ==>
              r.value.0.current == w.current && r.value.0.location == w.location
    ensures r.Success? && Valid(w) ==> Valid(r.value.0)
    ensures r.Success? && Progress(w) ==> Progress(r.value.0)
    ensures r.Success? && Valid(w) && ValidStore(store) ==> ValidStore(r.value.1)
  {
    if w.location.None? then
      Failure(LocationRequired)
    else if !(0 <= w.current < |w.steps|) then
      Failure(NoSuchStep)
    else if |EntriesOf(w.ledger, w.steps[w.current].id)| == 0 then
      Failure(NoResults)
    else
      Success(Record(w, store, now))
  }

  /** The success branch of `completeCurrentStep`: stamp, mark completed,
      save, and advance unless the pointer is on the last step. */
  function Record(w: Workflow, store: Store, now: string): (r: (Workflow, Store))
    requires w.location.Some? && 0 <= w.current < |w.steps|
    ensures var id := w.steps[w.current].id;
            var before := EntriesOf(w.ledger, id);
            var (w', store') := r;
            && w'.completed == w.completed + [id]
            && w'.steps == w.steps && w'.form == w.form && w'.session == w.session
            && w'.ledger.Keys == w.ledger.Keys + {id}
            && (forall x :: x in w.ledger && x != id ==> w'.ledger[x] == w.ledger[x])
            && w'.ledger[id].Keys == before.Keys + ReservedKeys
            && (forall k :: k in before && k !in ReservedKeys ==> w'.ledger[id][k] == before[k])
            && w'.ledger[id]["completedBy"] == Text(w.form.testerId)
            && w'.ledger[id]["testerName"] == Text(w.form.testerName)
            && w'.ledger[id]["completedAt"] == Text(now)
            && w'.ledger[id]["location"] == Place(w.location.value)
    // The snapshot saved holds exactly the new ledger, completed ids and steps.
    ensures var (w', store') := r;
            var key := StoreKey(w.form.batchId);
            && store'.Keys == store.Keys + {key}
            && store'[key] == Snapshot(Some(w'.ledger), Some(w'.completed), Some(w'.steps))
            && forall k :: k in store && k != key ==> store'[k] == store[k]
    // Not the last step: advance and forget the location. The last step: both stay.
    ensures w.current < |w.steps| - 1 ==>
            r.0.current == w.current + 1 && r.0.location.None?
    ensures w.current == |w.steps| - 1 ==>
            r.0.current == w.current && r.0.location == w.location
    ensures Valid(w) ==> Valid(r.0)
    ensures Progress(w) ==> Progress(r.0)
    ensures Valid(w) && ValidStore(store) ==> ValidStore(r.1)
  {
    var id := w.steps[w.current].id;
    var before := EntriesOf(w.ledger, id);
    var ledger := Put(w.ledger, id, Stamp(before, w.form.testerId, w.form.testerName, now, w.location.value));
    var completed := w.completed + [id];
    var store' := store[StoreKey(w.form.batchId) := Snapshot(Some(ledger), Some(completed), Some(w.steps))];
    if w.current < |w.steps| - 1 then
      (w.(ledger := ledger, completed := completed, current := w.current + 1, location := None), store')
    else
      (w.(ledger := ledger, completed := completed), store')
  }


  /** `isStepCompleted`: `includes` on the completed ids. */
  function IsStepCompleted(w: Workflow, id: string): (b: bool)
  {
    id in w.completed
  }

  /** `isStepLocked`: a step before the pointer, or a completed one. The index
      is read only when the first test fails, so an index past the list that
      is not before the pointer throws, as reading `.id` of `undefined` does. */
  function IsStepLocked(w: Workflow, index: int): (r: Result<bool, TestingError>)
    ensures index < w.current ==> r == Success(true)
    ensures r == Failure(NoSuchStep) <==> w.current <= index && !(0 <= index < |w.steps|)
    ensures r.Success? && w.current <= index ==> (r.value <==> w.steps[index].id in w.completed)
    ensures r.Success? || r == Failure(NoSuchStep)
  {
    if index < w.current then Success(true)
    else if !(0 <= index < |w.steps|) then Failure(NoSuchStep)
    else Success(IsStepCompleted(w, w.steps[index].id))
  }
}
