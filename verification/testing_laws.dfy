/** Properties that relate several handlers of the testing workflow: the
    inverse pairs (add/remove a result, add/remove a step, save/resume), the
    locking rule, step numbering, and the places where the component's
    behaviour departs from what its own data model suggests (ids reused after
    a removal, completions not de-duplicated). */
module TestingLaws {
  import opened Wrappers
  import Decimal
  import Seqs
  import opened TestingWorkflow

  /** The ids of `steps`, in order. */
  function Ids(steps: seq<Step>): (ids: seq<string>)
    ensures |ids| == |steps| && forall j :: 0 <= j < |steps| ==> ids[j] == steps[j].id
  {
    if steps == [] then [] else [steps[0].id] + Ids(steps[1..])
  }

  /** No two steps share an id. */
  ghost predicate DistinctIds(steps: seq<Step>) {
    Seqs.NoRepeats(Ids(steps))
  }

  /** The ids are step1, step2, ... in order, as `addNewStep` alone produces. */
  ghost predicate Numbered(steps: seq<Step>) {
    forall j :: 0 <= j < |steps| ==> steps[j].id == StepId(j + 1)
  }

  /** Distinct batches are saved under distinct storage keys. */
  lemma StoreKeyInjective(a: string, b: string)
    ensures StoreKey(a) == StoreKey(b) <==> a == b
  {
    if StoreKey(a) == StoreKey(b) {
      var k := StoreKey(a);
      assert a == k[6..|k| - 6];
      assert b == StoreKey(b)[6..|StoreKey(b)| - 6];
    }
  }

  /** Step numbers and step ids determine each other. */
  lemma StepIdInjective(m: nat, n: nat)
    ensures StepId(m) == StepId(n) <==> m == n
  {
    if StepId(m) == StepId(n) {
      assert Decimal.Digits(m) == StepId(m)[4..];
      assert Decimal.Digits(n) == StepId(n)[4..];
      Decimal.DigitsInjective(m, n);
    }
  }

  /** The component mounts in a well-formed state whose single step is the
      one the numbering scheme assigns to position 1. */
  lemma InitialIsWellFormed()
    ensures Valid(Initial) && Progress(Initial)
    ensures Initial.steps == [NewStep(1)]
    ensures Numbered(Initial.steps)
  {
    assert Decimal.DigitChar(1) == '1';
    assert Decimal.Digits(1) == "1";
    assert StepId(1) == "step1" && StepTitle(1) == "Testing Step 1";
  }

  /** Numbered step lists never repeat an id. */
  lemma NumberedIsDistinct(steps: seq<Step>)
    requires Numbered(steps)
    ensures DistinctIds(steps)
  {
    forall i, j | 0 <= i < j < |steps|
      ensures steps[i].id != steps[j].id
    {
      StepIdInjective(i + 1, j + 1);
    }
  }

  /** `addNewStep` keeps a numbered list numbered. */
  lemma AddNewStepKeepsNumbering(w: Workflow)
    requires Numbered(w.steps)
    ensures Numbered(AddNewStep(w).steps)
  {
    var r := AddNewStep(w);
    forall j | 0 <= j < |r.steps|
      ensures r.steps[j].id == StepId(j + 1)
    {
      if j < |w.steps| {
        assert r.steps[j] == r.steps[..|w.steps|][j];
      }
    }
  }

  /** `addNewStep` yields distinct ids exactly when the id it derives from the
      length is not already taken. */
  lemma AddNewStepFreshIff(w: Workflow)
    ensures DistinctIds(AddNewStep(w).steps) <==>
              DistinctIds(w.steps) && forall j :: 0 <= j < |w.steps| ==> w.steps[j].id != StepId(|w.steps| + 1)
  {
    var r := AddNewStep(w);
    assert forall j :: 0 <= j < |w.steps| ==> r.steps[j] == w.steps[j] by {
      forall j | 0 <= j < |w.steps| ensures r.steps[j] == w.steps[j] {
        assert r.steps[j] == r.steps[..|w.steps|][j];
      }
    }
    assert r.steps[|w.steps|].id == StepId(|w.steps| + 1);
  }

  /** Because the id is derived from the list length, removing a step and
      adding one can repeat an id: step1, step2, step3 less step2 plus a new
      step gives step1, step3, step3. */
  lemma IdReusedAfterRemoval()
    ensures var w := Initial.(steps := [NewStep(1), NewStep(2), NewStep(3)]);
            var removed := RemoveStep(w, 1);
            && removed.Success?
            && AddNewStep(removed.value).steps == [NewStep(1), NewStep(3), NewStep(3)]
            && !DistinctIds(AddNewStep(removed.value).steps)
  {
    var w := Initial.(steps := [NewStep(1), NewStep(2), NewStep(3)]);
    StepIdInjective(2, 1);
    StepIdInjective(2, 3);
    var removed := RemoveStep(w, 1);
    assert removed.Success?;
    var after := AddNewStep(removed.value);
    assert after.steps[1] == NewStep(3);
    assert after.steps[2] == NewStep(3);
  }

  /** Under the progress invariant a step is locked exactly when it is
      completed: every step before the pointer is completed anyway. */
  lemma LockedIffCompleted(w: Workflow, index: int)
    requires Progress(w) && 0 <= index < |w.steps|
    ensures IsStepLocked(w, index) == Success(IsStepCompleted(w, w.steps[index].id))
  {
  }

  /** Writing the same result name twice keeps only the second value. */
  lemma AddResultLastWriteWins(w: Workflow, name: string, first: string, second: string)
    requires AddResult(w, name, first).Success?
    ensures AddResult(AddResult(w, name, first).value, name, second) == AddResult(w, name, second)
  {
    var id := w.steps[w.current].id;
    var before := EntriesOf(w.ledger, id);
    var once := AddResult(w, name, first).value;
    var twice := AddResult(once, name, second);
    var direct := AddResult(w, name, second);
    assert once.steps == w.steps && once.current == w.current;
    if direct.Success? {
      assert twice.Success?;
      var a := twice.value.ledger;
      var b := direct.value.ledger;
      assert a[id] == b[id] by {
        assert a[id].Keys == b[id].Keys;
        forall k | k in a[id] ensures a[id][k] == b[id][k] {
          if k != name {
            assert once.ledger[id][k] == before[k];
          }
        }
      }
      assert a.Keys == b.Keys;
      forall x | x in a ensures a[x] == b[x] {
        if x != id {
          assert once.ledger[x] == w.ledger[x];
        }
      }
      assert a == b;
      assert twice.value == once.(ledger := a) == w.(ledger := a);
    }
  }

  /** Removing a result just added leaves the step's other entries as they
      were; when the name was new and the step already had entries, the whole
      state is back where it started. */
  lemma AddThenRemoveResult(w: Workflow, name: string, value: string)
    requires AddResult(w, name, value).Success?
    ensures var id := w.steps[w.current].id;
            var r := RemoveResult(AddResult(w, name, value).value, name);
            && r.Success?
            && r.value.ledger[id] == EntriesOf(w.ledger, id) - {name}
            && (id in w.ledger && name !in w.ledger[id] ==> r.value == w)
  {
    var id := w.steps[w.current].id;
    var before := EntriesOf(w.ledger, id);
    var added := AddResult(w, name, value).value;
    assert added.steps == w.steps && added.current == w.current;
    var r := RemoveResult(added, name);
    assert r.Success?;
    var after := r.value.ledger[id];
    assert after == before - {name} by {
      assert after.Keys == (before - {name}).Keys;
      forall k | k in after ensures after[k] == before[k] {
        assert after[k] == added.ledger[id][k];
      }
    }
    if id in w.ledger && name !in w.ledger[id] {
      assert after == w.ledger[id];
      var l := r.value.ledger;
      assert l.Keys == w.ledger.Keys;
      forall x | x in l ensures l[x] == w.ledger[x] {
        if x != id {
          assert added.ledger[x] == w.ledger[x];
        }
      }
    }
  }

  /** Removing the step just added restores the state, provided the new id
      does not clash with a completed id. */
  lemma AddThenRemoveStep(w: Workflow)
    requires Valid(w)
    requires StepId(|w.steps| + 1) !in w.completed
    ensures RemoveStep(AddNewStep(w), |w.steps|) == Success(w)
  {
    var added := AddNewStep(w);
    var r := RemoveStep(added, |w.steps|);
    assert r.Success?;
    assert r.value.steps == w.steps;
  }

  /** Removing the current step pulls the pointer back onto the previous
      step, which the progress invariant says is completed: the pointer then
      rests on a locked step. */
  lemma RemovingCurrentStepLandsOnCompleted(w: Workflow)
    requires Valid(w) && Progress(w) && w.current > 0
    requires RemoveStep(w, w.current).Success?
    ensures var r := RemoveStep(w, w.current).value;
            r.current == w.current - 1 && r.steps[r.current].id in r.completed
  {
    var r := RemoveStep(w, w.current).value;
    assert r.steps[r.current] == w.steps[w.current - 1];
  }

  /** Completing the last step keeps the pointer and the location, so the
      handler accepts a second completion of the same step and records its
      id twice. */
  lemma RepeatCompletionOnLastStep(w: Workflow, store: Store, now: string, again: string)
    requires Valid(w) && w.current == |w.steps| - 1
    requires Complete(w, store, now).Success?
    ensures var (w1, s1) := Complete(w, store, now).value;
            var second := Complete(w1, s1, again);
            && second.Success?
            && second.value.0.completed == w.completed + [w.steps[w.current].id, w.steps[w.current].id]
  {
    var (w1, s1) := Complete(w, store, now).value;
    var id := w.steps[w.current].id;
    assert id in w1.ledger && |w1.ledger[id]| > 0 by {
      assert "completedBy" in w1.ledger[id];
    }
    var second := Complete(w1, s1, again);
    assert second.Success?;
  }

  /** Save and resume: after a completion, a login to the same batch restores
      exactly the steps, entries and completed ids the completion saved, and
      points where the completion left the pointer whenever that step is
      still open (or was the last step). */
  lemma ResumeRestoresSavedProgress(w: Workflow, store: Store, now: string, later: Workflow, loginTime: string)
    requires Valid(w) && Progress(w)
    requires Complete(w, store, now).Success?
    requires later.form == w.form
    requires w.form.batchId in EligibleBatches && w.form.testerId != "" && w.form.testerName != ""
    ensures var (w1, s1) := Complete(w, store, now).value;
            var r := Login(later, s1, loginTime);
            && r.Success?
            && r.value.steps == w1.steps
            && r.value.ledger == w1.ledger
            && r.value.completed == w1.completed
            && (w.current == |w.steps| - 1 || w1.steps[w1.current].id !in w1.completed ==>
                  r.value.current == w1.current)
  {
    var (w1, s1) := Complete(w, store, now).value;
    assert w.form.batchId != "";
    var r := Login(later, s1, loginTime);
    assert r.Success?;
    var s := r.value;
    assert s.steps == w1.steps && s.completed == w1.completed;
    if w.current == |w.steps| - 1 {
      assert forall j :: 0 <= j < |s.steps| ==> s.steps[j].id in s.completed by {
        forall j | 0 <= j < |s.steps| ensures s.steps[j].id in s.completed {
          if j < w.current {
            assert w.steps[j].id in w.completed;
          } else {
            assert j == w.current;
          }
        }
      }
    } else if w1.steps[w1.current].id !in w1.completed {
      assert w1.current == w.current + 1;
      assert forall j :: 0 <= j < w1.current ==> s.steps[j].id in s.completed by {
        forall j | 0 <= j < w1.current ensures s.steps[j].id in s.completed {
          if j < w.current {
            assert w.steps[j].id in w.completed;
          }
        }
      }
    }
  }
}
