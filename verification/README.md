# Herbal supply-chain dashboards: tester workflow, manufacturing steps, auction countdown

This project models, in Dafny, the stateful logic of three React dashboards of
a herbal supply-chain traceability app, and proves properties of that model.

- **The tester's step workflow** (`TesterDashboard.tsx`). A tester logs in to
  one of the batches CB001, CB002 or CB003. If the browser store holds a
  snapshot for that batch, the tester resumes where it left off. The tester
  then works through an ordered, extensible list of testing steps:
  - capture a location;
  - enter named results for the current step;
  - add or remove steps;
  - complete the step.

  Completing a step stamps its entries with the tester, the time and the
  location. It also marks the step completed, saves a snapshot under
  `batch_<id>_steps`, and advances to the next step unless this was the last
  one. Every handler is a pure function on a `Workflow` state. A handler
  either succeeds or returns, as a `TestingError`, the alert it would raise
  or the `TypeError` it would throw.
  The page decides which controls it renders, so the page is modelled
  separately as a dispatcher guarded by `Offered`. That is where the locking
  of completed steps lives.
- **The manufacturer's step list** (`ManufacturerDashboard.tsx`). This covers
  six handlers:
  - recording a manufacturing step from the draft form, with id
    `MS` + the last three digits of the clock;
  - deleting steps by id;
  - editing the draft's herb rows (add, update, remove);
  - ticking batches into a master batch.
- **The auction countdown** (`timeUntilAuction` in `CompanyDashboard.tsx`).
  Hours are the floor of the millisecond difference divided by an hour.
  Minutes are the floor of the JavaScript remainder divided by a minute.

Modules:
- `Wrappers`: `Option` and `Result`.
- `Seqs`: `Array.prototype.filter` and removal at an index.
- `Decimal`: the decimal rendering of numbers.
- `JsText`: `String.prototype.trim`.
- `TestingWorkflow`: the tester's handlers.
- `TestingLaws`: properties relating several handlers.
- `TestingScreen`: which controls the page offers, and runs of the page.
- `ManufacturingSteps`: the manufacturer's step list.
- `AuctionClock`: the countdown.

Behaviours of the code a reader might not expect:
- Step ids are derived from the list length, so an id can be reused after a
  removal.
- The result handler has no locked-step error. Completed steps are protected
  only because the page hides the controls.
- Completing the last step keeps the location and the pointer. The bare
  completion handler therefore accepts the same step again and records its
  id twice. The page never does this: it hides the complete button once the
  current step is completed.
- The completion stamps share one map with the results.
- Completion takes the tester and the batch from the login form fields, not
  from the open session. The login tab stays reachable during a session, so
  retyping a field there, without submitting, redirects the next save.
- Removing the current step when the pointer is above zero moves the pointer
  back onto the previous step, which is completed. The page then hides every
  control but the login form and the location button, and only a new login
  can move the pointer again.

## Model

| member | source | states |
|---|---|---|
| TestingWorkflow.FindOpen | src/pages/TesterDashboard.tsx:111-113 | `findIndex` of the first step whose id is not completed: -1 exactly when every step is completed, otherwise an open step with every earlier step completed |
| TestingWorkflow.ResumeIndex | src/pages/TesterDashboard.tsx:110-114 | the resume position is in range for a non-empty list; it is the first open step when one exists, and the last step when all are completed |
| TestingWorkflow.Login | src/pages/TesterDashboard.tsx:83-119 | an empty form field gives "fill in all fields", and an unknown batch (with fields filled) gives "invalid batch", and nothing else fails; success opens a session from the form; with no snapshot nothing else changes; with one, the saved entries, completed ids and steps (the in-memory steps if none were saved) replace the current ones and the pointer lands on the first open step or the last step; validity and progress are preserved |
| TestingWorkflow.CaptureLocation | src/pages/TesterDashboard.tsx:53-81 | fails with "could not capture location" exactly when the provider gives no fix, leaving the state as it was; a fix always becomes the held location and nothing else changes |
| TestingWorkflow.AddResult | src/pages/TesterDashboard.tsx:121-138 | rejected exactly when the name or value trims to empty; a pointer past the list fails as the property read on an undefined step does; nothing else fails, and otherwise the current step's entries gain or overwrite the name with the untrimmed value, and all other entries, steps and the pointer stay as they were |
| TestingWorkflow.RemoveResult | src/pages/TesterDashboard.tsx:140-149 | only an out-of-range pointer fails; the named key leaves the current step's entries and nothing else changes; a name the step lacks changes nothing |
| TestingWorkflow.AddNewStep | src/pages/TesterDashboard.tsx:151-158 | appends one step named "step" and "Testing Step " followed by the new length, keeps the earlier steps and the rest of the state, and preserves validity and progress |
| TestingWorkflow.RemoveStep | src/pages/TesterDashboard.tsx:160-176 | refuses to remove the only step, an index off the list, or a completed step, in that order, and for no other reason; otherwise removes exactly that step, moves the pointer back one when it was at or after the index and above zero, keeps the step the pointer designated when another step was removed, and preserves validity and progress |
| TestingWorkflow.Stamp | src/pages/TesterDashboard.tsx:193-200 | the completed entries are the results plus the four stamps (tester id, tester name, time, location), every non-reserved result unchanged |
| TestingWorkflow.Complete | src/pages/TesterDashboard.tsx:178-233 | needs a location, a step under the pointer, and at least one entry, checked in that order, and nothing else fails; success records the id as completed, stamps the entries, saves exactly the new entries, completed ids and steps under the form's batch key and leaves other keys alone, advances and clears the location unless it was the last step (then both stay); preserves validity, progress and non-empty saved step lists |
| TestingWorkflow.IsStepLocked | src/pages/TesterDashboard.tsx:236-238 | a step before the pointer is locked without reading the list; otherwise an index off the list throws as reading `.id` of `undefined` does, and an existing step is locked exactly when its id is completed |
| TestingLaws.StoreKeyInjective | src/pages/TesterDashboard.tsx:100 | distinct batches are saved under distinct keys |
| TestingLaws.StepIdInjective | src/pages/TesterDashboard.tsx:152 | step numbers and generated step ids determine each other |
| TestingLaws.InitialIsWellFormed | src/pages/TesterDashboard.tsx:30-46 | the mounted state is valid and its one step is the step the numbering assigns to position 1 |
| TestingLaws.NumberedIsDistinct | src/pages/TesterDashboard.tsx:151-158 | a list numbered step1, step2, ... has no repeated id |
| TestingLaws.AddNewStepKeepsNumbering | src/pages/TesterDashboard.tsx:151-158 | adding a step to a numbered list keeps it numbered |
| TestingLaws.AddNewStepFreshIff | src/pages/TesterDashboard.tsx:151-158 | after adding, ids are distinct exactly when they were before and the length-derived id was not already in use |
| TestingLaws.IdReusedAfterRemoval | src/pages/TesterDashboard.tsx:151-176 | step1, step2, step3 less step2 plus a new step repeats the id step3 |
| TestingLaws.LockedIffCompleted | src/pages/TesterDashboard.tsx:235-238 | under the progress invariant the lock test on an existing step never throws and answers exactly whether the step is completed |
| TestingLaws.AddResultLastWriteWins | src/pages/TesterDashboard.tsx:121-138 | entering a name twice leaves the same state as entering only the second value |
| TestingLaws.AddThenRemoveResult | src/pages/TesterDashboard.tsx:121-149 | removing a result just entered leaves the step's other entries as they were, and restores the whole state when the name was new to an existing entry set |
| TestingLaws.AddThenRemoveStep | src/pages/TesterDashboard.tsx:151-176 | removing the step just added restores the state exactly, unless its id clashes with a completed one |
| TestingLaws.RemovingCurrentStepLandsOnCompleted | src/pages/TesterDashboard.tsx:160-176 | removing the current step from position above zero leaves the pointer on a completed step |
| TestingLaws.RepeatCompletionOnLastStep | src/pages/TesterDashboard.tsx:178-233 | completing the last step twice succeeds and records its id twice |
| TestingLaws.ResumeRestoresSavedProgress | src/pages/TesterDashboard.tsx:83-119 | a login after a completion restores the saved steps, entries and completed ids, and the pointer the completion left whenever that step is open or was the last |
| TestingScreen.Dispatch | src/pages/TesterDashboard.tsx:255-515 | only login and completion touch the store; typing into the login form changes the form fields and nothing else, with no alert; a login keeps the typed form fields even when rejected, and the only alert a login from the page can raise is "invalid batch"; location capture alerts (with "could not capture location", and no other alert) exactly when the provider fails; step adding never alerts; an alert other than a login's leaves state and store unchanged |
| TestingScreen.Offered | src/pages/TesterDashboard.tsx:253-514 | the page offers nothing but the login form without a session; the form is submitted only with all three fields non-empty; a completed current step leaves only the login form and the location button; the stamps are never offered for removal |
| TestingScreen.CompletedStepsAreFrozen | src/pages/TesterDashboard.tsx:415-515 | within a session no offered action un-completes a step, changes a completed step's entries, or drops a completed step from the list |
| TestingScreen.OfferedActionsKeepInvariants | src/pages/TesterDashboard.tsx:255-515 | every offered action keeps the pointer on a step, every step before it completed, and every saved step list non-empty |
| TestingScreen.StaleFormRedirectsSave | src/pages/TesterDashboard.tsx:282-313 | retyping the login fields during a session, without submitting, keeps the session; completion is still offered and saves under the typed batch's key, credits the typed tester id, and leaves the open session's key unwritten |
| TestingScreen.RejectedLoginKeepsTyping | src/pages/TesterDashboard.tsx:83-118 | a login from the page that the handler rejects alerts "invalid batch" and leaves the same state as typing without submitting, store untouched |
| TestingScreen.CompletionIsPermanent | src/pages/TesterDashboard.tsx:235 | within a session, a step id that `isStepCompleted` reports stays completed after every action the page offers |
| TestingScreen.SingleStepEntry | src/pages/TesterDashboard.tsx:83-138 | a one-step run on CB001: login, one result entered; completion is not offered and is refused for lack of a location with the result kept; the only step cannot be removed |
| TestingScreen.SingleStepCompletion | src/pages/TesterDashboard.tsx:178-233 | capturing a location then completing the only step succeeds, keeps the pointer, the location and the result, saves under CB001, and leaves the pointer on a completed step |
| TestingScreen.CompletedStepLocksScreen | src/pages/TesterDashboard.tsx:415-515 | while the pointer rests on a completed step the page offers only the login form and the location button, yet the result handler would still accept a non-blank result for that step |
| TestingScreen.PageNeverDuplicatesCompletion | src/pages/TesterDashboard.tsx:504-513 | within a session no offered action repeats an id in the completed list, although the completion handler alone would |
| TestingScreen.ResumeAtSecondStep | src/pages/TesterDashboard.tsx:100-115 | a snapshot with the first of two steps completed resumes at the second step |
| JsText.TrimEmptyIffBlank | src/pages/TesterDashboard.tsx:122 | `trim()` yields the empty string exactly when every character is ECMAScript white space or a line terminator |
| JsText.Trim | src/pages/TesterDashboard.tsx:122 | `trim()` yields the stretch of the text between its leading and its trailing white space, which neither starts nor ends with white space |
| Seqs.RemoveAt | src/pages/TesterDashboard.tsx:172 | `filter((_, i) => i !== index)`: an index in range drops exactly that element and keeps the rest in order; any other index changes nothing |
| Decimal.IntToString | src/pages/TesterDashboard.tsx:152 | a number's decimal text: a leading minus exactly for negatives, followed by the digits of its magnitude (`Decimal.IntToStringInjective`: distinct numbers render differently) |
| Decimal.IntToStringInjective | src/pages/TesterDashboard.tsx:152 | two numbers render alike exactly when they are equal |
| Seqs.Filter | src/pages/ManufacturerDashboard.tsx:91 | keeps every passing element as often as it occurs and drops every failing one (multiset count), and a one-element input is kept or dropped whole; with `Seqs.FilterAppend` this fixes the result, order included |
| Seqs.FilterAppend | src/pages/ManufacturerDashboard.tsx:91 | filtering a concatenation filters each part and keeps the parts in order |
| ManufacturingSteps.LastThree | src/pages/ManufacturerDashboard.tsx:86 | `slice(-3)`: the last three characters, or all of a shorter text |
| ManufacturingSteps.ClockId | src/pages/ManufacturerDashboard.tsx:86 | a step id is "MS" followed by one to three characters |
| ManufacturingSteps.ClockIdRepeatsEverySecond | src/pages/ManufacturerDashboard.tsx:86 | two clock readings 1000 ms apart (from 100 ms on) give the same step id |
| ManufacturingSteps.AddStep | src/pages/ManufacturerDashboard.tsx:85-109 | appends one step carrying the draft's name, description and details, the clock id, the GPS tag, the time and status "completed"; its herbs hold each filled draft row as often as the draft does and no unfilled row (their order is the draft's, `AddStepKeepsRowOrder`); resets the draft; leaves earlier steps and the batch selection alone |
| ManufacturingSteps.DeleteStep | src/pages/ManufacturerDashboard.tsx:111-113 | removes every step with the id and keeps every other step as often as it occurs (in order, `DeleteStepDistributes`); an absent id changes nothing |
| ManufacturingSteps.DeleteStepDistributes | src/pages/ManufacturerDashboard.tsx:111-113 | deleting from a concatenated list deletes from each part and keeps the parts in order |
| ManufacturingSteps.AddHerbField | src/pages/ManufacturerDashboard.tsx:115-120 | appends one empty herb row and changes nothing else |
| ManufacturingSteps.UpdateHerbField | src/pages/ManufacturerDashboard.tsx:122-126 | sets one field of one row, every other row and field unchanged |
| ManufacturingSteps.RemoveHerbField | src/pages/ManufacturerDashboard.tsx:128-133 | removes the row at an index in range, and changes nothing for an index out of range |
| ManufacturingSteps.ToggleBatch | src/pages/ManufacturerDashboard.tsx:566-573 | ticking appends the batch; unticking removes every occurrence of it and keeps every other id as often as it occurs (in order, `UntickDistributes`) |
| ManufacturingSteps.UntickDistributes | src/pages/ManufacturerDashboard.tsx:566-573 | unticking from a concatenated selection unticks from each part and keeps the parts in order |
| ManufacturingSteps.AddStepKeepsRowOrder | src/pages/ManufacturerDashboard.tsx:91 | the recorded herbs keep the order of the draft rows |
| ManufacturingSteps.EmptyRowIsNotRecorded | src/pages/ManufacturerDashboard.tsx:85-120 | adding an empty herb row before recording does not change the steps recorded |
| ManufacturingSteps.AddThenDeleteStep | src/pages/ManufacturerDashboard.tsx:85-113 | deleting the step just recorded restores the list when its id was new |
| ManufacturingSteps.DeleteTakesCollidingSteps | src/pages/ManufacturerDashboard.tsx:85-113 | two steps recorded 1000 ms apart share an id, and deleting one deletes both |
| ManufacturingSteps.AddThenRemoveHerbField | src/pages/ManufacturerDashboard.tsx:115-133 | removing the row just added restores the state |
| ManufacturingSteps.UpdateHerbFieldLastWins | src/pages/ManufacturerDashboard.tsx:122-126 | a second update of the same field overrides the first |
| ManufacturingSteps.UpdateHerbFieldUnchanged | src/pages/ManufacturerDashboard.tsx:122-126 | writing a field's own value back changes nothing |
| ManufacturingSteps.TickThenUntick | src/pages/ManufacturerDashboard.tsx:566-573 | ticking then unticking a batch is the same as unticking it, and restores the selection when the batch was not selected |
| AuctionClock.FloorDiv | src/pages/CompanyDashboard.tsx:150 | `Math.floor(a / b)`: the quotient brackets `a` between consecutive multiples of `b` |
| AuctionClock.TruncRem | src/pages/CompanyDashboard.tsx:151 | JavaScript `%`: smaller than the divisor in magnitude, zero or of the dividend's sign, and the dividend less the quotient rounded toward zero |
| AuctionClock.Split | src/pages/CompanyDashboard.tsx:149-151 | hours bracket the difference by whole hours; for a future end the minutes are 0 to 59 and hours and minutes together bracket the difference to the minute; for a past end the hours are negative and the minutes lie in -60 to 0 |
| AuctionClock.Render | src/pages/CompanyDashboard.tsx:152 | the text ends in the minutes' "m", opens with a minus exactly when the hours are negative, and carries no minus at all when both parts are non-negative |
| AuctionClock.TimeUntilAuction | src/pages/CompanyDashboard.tsx:146-153 | a countdown to a future end shows no minus sign; one for an end already past opens with a minus |
| AuctionClock.RenderInjective | src/pages/CompanyDashboard.tsx:152 | two countdowns render to the same text exactly when their hours and minutes are equal |
| AuctionClock.MinutesShown | src/pages/CompanyDashboard.tsx:146-153 | hours times 60 plus minutes is the floored minute count when the end is in the future or a whole number of hours past, and exactly 60 less otherwise |
| AuctionClock.JustEnded | src/pages/CompanyDashboard.tsx:146-153 | one millisecond after the end the countdown reads "-1h -1m" |

## Left out

- Rendering, alerts' wording, tab switching and input-field resets: the model returns the error kind and leaves the JSX out. This includes the "all testing steps completed" notice and the switch to the feedback tab after the last step.
- The geolocation call, its options and its failure: `CaptureLocation` receives the provider's answer as a parameter.
- JSON serialisation of the snapshot: the store holds the snapshot as a value. Missing fields are `None`, and login reads them with the same defaults the code uses.
- The clock and ISO time formatting: times are opaque strings or millisecond counts passed in as parameters.
- TestingWorkflow.RemoveResult: in the code the delete mutates an entry object shared with the previous state. The model produces a fresh map, so aliasing effects on older states are not modelled.
- ManufacturingSteps.UpdateHerbField: requires an index inside the row list. The code would create a sparse array for an index past the end, and the page only calls it with an existing row's index.
- AuctionClock.Split: JavaScript numbers are floating point and the difference is in whole milliseconds. The model uses exact integers, which match up to 2^53 ms.
- Invalid end times (`NaN` from an unparsable date) are not modelled.
- Master-batch creation and the other dashboards (farmer, collector, consumer, company bidding) hold no workflow logic and are not part of this model.
