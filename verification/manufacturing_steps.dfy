/** The manufacturer's step list and the draft form that feeds it
    (ManufacturerDashboard.tsx): recording a step from the draft, deleting
    steps by id, editing the draft's herb rows, and ticking input batches for
    a master batch. The clock is a parameter: the millisecond count the step
    id is cut from, and the timestamp text. */
module ManufacturingSteps {
  import Seqs
  import Decimal

  /** One herb row: both fields are free text. */
  datatype Herb = Herb(name: string, quantity: string)

  /** The two columns of a herb row the form edits. */
  datatype HerbField = Name | Quantity

  /** A recorded manufacturing step. */
  datatype MfgStep = MfgStep(
    id: string,
    stepName: string,
    description: string,
    herbsAdded: seq<Herb>,
    geoLocation: string,
    timestamp: string,
    status: string,
    additionalDetails: string)

  /** The "record a step" form (`newStep`). */
  datatype Draft = Draft(stepName: string, description: string, herbsAdded: seq<Herb>, additionalDetails: string)

  /** The manufacturer page's editable state: the recorded steps, the draft,
      and the batches ticked for the next master batch. */
  datatype Workshop = Workshop(steps: seq<MfgStep>, draft: Draft, selectedBatches: seq<string>)

  const EmptyHerb: Herb := Herb("", "")

  /** The draft the form starts with and is reset to. */
  const BlankDraft: Draft := Draft("", "", [EmptyHerb], "")

  const GeoTag: string := "Auto-captured from GPS"

  const RecordedStatus: string := "completed"

  /** A herb row is kept when both fields are non-empty (JavaScript truthiness
      of a string). */
  predicate Filled(h: Herb) {
    h.name != "" && h.quantity != ""
  }

  /** `s.slice(-3)`: the last three characters, or all of a shorter string. */
  function LastThree(s: string): (r: string)
    ensures |r| == if |s| < 3 then |s| else 3
    ensures r == s[|s| - |r|..]
  {
    if |s| <= 3 then s else s[|s| - 3..]
  }

  /** `MS${Date.now().toString().slice(-3)}`. */
  function ClockId(ms: nat): (r: string)
    ensures 3 <= |r| <= 5 && r[..2] == "MS"
  {
    "MS" + LastThree(Decimal.Digits(ms))
  }

  /** The last digit of a rendered number is its units digit. */
  lemma LastDigit(n: nat)
    ensures Decimal.Digits(n)[|Decimal.Digits(n)| - 1] == Decimal.DigitChar(n % 10)
  {
  }

  /** A number of two or more digits renders as its tenth followed by its
      units digit. */
  lemma DigitsStep(n: nat)
    requires n >= 10
    ensures Decimal.Digits(n) == Decimal.Digits(n / 10) + [Decimal.DigitChar(n % 10)]
  {
  }

  /** From 100 on, the last three characters of a rendered number are its
      hundreds, tens and units digits. */
  lemma LastThreeDigits(n: nat)
    requires n >= 100
    ensures LastThree(Decimal.Digits(n)) ==
              [Decimal.DigitChar(n / 10 / 10 % 10), Decimal.DigitChar(n / 10 % 10), Decimal.DigitChar(n % 10)]
  {
    var a := n / 10;
    var b := a / 10;
    assert a >= 10;
    DigitsStep(n);
    DigitsStep(a);
    LastDigit(b);
    var high := Decimal.Digits(b);
    var d := Decimal.Digits(n);
    assert d == high + [Decimal.DigitChar(a % 10)] + [Decimal.DigitChar(n % 10)];
    assert d[|d| - 3] == high[|high| - 1] == Decimal.DigitChar(b % 10);
    assert d[|d| - 2] == Decimal.DigitChar(a % 10);
    assert d[|d| - 1] == Decimal.DigitChar(n % 10);
    assert LastThree(d) == d[|d| - 3..] == [d[|d| - 3], d[|d| - 2], d[|d| - 1]];
  }

  /** Adding ten times k to x adds k to its tenth and keeps its units digit. */
  lemma ShiftTens(x: nat, k: nat)
    ensures (x + 10 * k) / 10 == x / 10 + k
    ensures (x + 10 * k) % 10 == x % 10
  {
  }

  /** Step ids repeat every second: two steps recorded exactly 1000 ms apart
      get the same id. */
  lemma ClockIdRepeatsEverySecond(ms: nat)
    requires ms >= 100
    ensures ClockId(ms) == ClockId(ms + 1000)
  {
    var later := ms + 1000;
    LastThreeDigits(ms);
    LastThreeDigits(later);
    ShiftTens(ms, 100);
    assert later / 10 == ms / 10 + 100 && later % 10 == ms % 10;
    ShiftTens(ms / 10, 10);
    assert later / 10 % 10 == ms / 10 % 10;
    assert later / 10 / 10 == ms / 10 / 10 + 10;
    ShiftTens(ms / 10 / 10, 1);
    assert later / 10 / 10 % 10 == ms / 10 / 10 % 10;
    assert LastThree(Decimal.Digits(later)) == LastThree(Decimal.Digits(ms));
  }

  /** `handleAddStep`: append a step built from the draft, keeping only the
      herb rows with both fields filled, and reset the draft. */
  function AddStep(m: Workshop, clock: nat, now: string): (r: Workshop)
    ensures |r.steps| == |m.steps| + 1 && r.steps[..|m.steps|] == m.steps
    ensures var s := r.steps[|m.steps|];
            && s.id == ClockId(clock)
            && s.stepName == m.draft.stepName
            && s.description == m.draft.description
            && s.additionalDetails == m.draft.additionalDetails
            && s.geoLocation == GeoTag && s.timestamp == now && s.status == RecordedStatus
    ensures var kept := r.steps[|m.steps|].herbsAdded;
            && (forall i :: 0 <= i < |kept| ==> Filled(kept[i]) && kept[i] in m.draft.herbsAdded)
            && (forall i :: 0 <= i < |m.draft.herbsAdded| && Filled(m.draft.herbsAdded[i]) ==>
                  m.draft.herbsAdded[i] in kept)
    // Each filled row is kept as often as it occurs; the order is that of the
    // draft (`AddStepKeepsRowOrder`).
    ensures var kept := r.steps[|m.steps|].herbsAdded;
            forall h :: multiset(kept)[h] == if Filled(h) then multiset(m.draft.herbsAdded)[h] else 0
    ensures r.draft == BlankDraft && r.selectedBatches == m.selectedBatches
  {
    var step := MfgStep(ClockId(clock), m.draft.stepName, m.draft.description,
                        Seqs.Filter(m.draft.herbsAdded, Filled), GeoTag, now, RecordedStatus,
                        m.draft.additionalDetails);
    Workshop(m.steps + [step], BlankDraft, m.selectedBatches)
  }

  /** The steps `handleDeleteStep(id)` keeps. */
  function OtherId(id: string): MfgStep -> bool {
    (s: MfgStep) => s.id != id
  }

  /** `handleDeleteStep`: drop every step carrying `id`. */
  function DeleteStep(m: Workshop, id: string): (r: Workshop)
    ensures forall i :: 0 <= i < |r.steps| ==> r.steps[i].id != id && r.steps[i] in m.steps
    ensures forall i :: 0 <= i < |m.steps| && m.steps[i].id != id ==> m.steps[i] in r.steps
    ensures (forall i :: 0 <= i < |m.steps| ==> m.steps[i].id != id) ==> r == m
    // Every other step is kept as often as it occurs; the order is that of
    // the list (`DeleteStepDistributes`).
    ensures forall x :: multiset(r.steps)[x] == if x.id != id then multiset(m.steps)[x] else 0
    ensures r.draft == m.draft && r.selectedBatches == m.selectedBatches
  {
    Seqs.FilterKeepsAll(m.steps, OtherId(id));
    m.(steps := Seqs.Filter(m.steps, OtherId(id)))
  }

  /** `addHerbField`: one more empty row at the end of the draft. */
  function AddHerbField(m: Workshop): (r: Workshop)
    ensures |r.draft.herbsAdded| == |m.draft.herbsAdded| + 1
    ensures r.draft.herbsAdded[..|m.draft.herbsAdded|] == m.draft.herbsAdded
    ensures r.draft.herbsAdded[|m.draft.herbsAdded|] == EmptyHerb
    ensures r == m.(draft := m.draft.(herbsAdded := r.draft.herbsAdded))
  {
    m.(draft := m.draft.(herbsAdded := m.draft.herbsAdded + [EmptyHerb]))
  }

  /** `updateHerbField(index, field, value)`: set one column of one row. The
      page passes only the indices of rows it renders. */
  function UpdateHerbField(m: Workshop, index: nat, field: HerbField, value: string): (r: Workshop)
    requires index < |m.draft.herbsAdded|
    ensures |r.draft.herbsAdded| == |m.draft.herbsAdded|
    ensures forall j :: 0 <= j < |m.draft.herbsAdded| && j != index ==>
              r.draft.herbsAdded[j] == m.draft.herbsAdded[j]
    ensures field == Name ==> r.draft.herbsAdded[index] == m.draft.herbsAdded[index].(name := value)
    ensures field == Quantity ==> r.draft.herbsAdded[index] == m.draft.herbsAdded[index].(quantity := value)
    ensures r == m.(draft := m.draft.(herbsAdded := r.draft.herbsAdded))
  {
    var row := m.draft.herbsAdded[index];
    var row' := match field
      case Name => row.(name := value)
      case Quantity => row.(quantity := value);
    m.(draft := m.draft.(herbsAdded := m.draft.herbsAdded[index := row']))
  }

  /** `removeHerbField(index)`: drop the row at `index`; any other index
      matches no row and leaves the draft alone. */
  function RemoveHerbField(m: Workshop, index: int): (r: Workshop)
    ensures 0 <= index < |m.draft.herbsAdded| ==>
              && |r.draft.herbsAdded| == |m.draft.herbsAdded| - 1
              && (forall j :: 0 <= j < index ==> r.draft.herbsAdded[j] == m.draft.herbsAdded[j])
              && (forall j :: index <= j < |r.draft.herbsAdded| ==> r.draft.herbsAdded[j] == m.draft.herbsAdded[j + 1])
    ensures !(0 <= index < |m.draft.herbsAdded|) ==> r == m
    ensures r == m.(draft := m.draft.(herbsAdded := r.draft.herbsAdded))
  {
    m.(draft := m.draft.(herbsAdded := Seqs.RemoveAt(m.draft.herbsAdded, index)))
  }

  /** The batch ids an unticked checkbox keeps. */
  function OtherBatch(id: string): string -> bool {
    (b: string) => b != id
  }

  /** The input-batch checkbox: ticking appends the id, unticking removes
      every occurrence of it. */
  function ToggleBatch(m: Workshop, id: string, checked: bool): (r: Workshop)
    ensures checked ==> |r.selectedBatches| == |m.selectedBatches| + 1
    ensures checked ==> r.selectedBatches[..|m.selectedBatches|] == m.selectedBatches
    ensures checked ==> r.selectedBatches[|m.selectedBatches|] == id
    ensures !checked ==> id !in r.selectedBatches
    ensures !checked ==> forall i :: 0 <= i < |r.selectedBatches| ==> r.selectedBatches[i] in m.selectedBatches
    ensures !checked ==> forall i :: 0 <= i < |m.selectedBatches| && m.selectedBatches[i] != id ==>
              m.selectedBatches[i] in r.selectedBatches
    // Every other id is kept as often as it occurs; the order is that of the
    // selection (`UntickDistributes`).
    ensures !checked ==>
              forall b :: multiset(r.selectedBatches)[b] == if b != id then multiset(m.selectedBatches)[b] else 0
    ensures r == m.(selectedBatches := r.selectedBatches)
  {
    if checked then m.(selectedBatches := m.selectedBatches + [id])
    else m.(selectedBatches := Seqs.Filter(m.selectedBatches, OtherBatch(id)))
  }

  /** The recorded herbs keep the draft's row order: for every split of the
      rows, the kept rows of the first part come before those of the second.
      They are the whole draft exactly when every row is filled. */
  lemma AddStepKeepsRowOrder(m: Workshop, clock: nat, now: string, k: nat)
    requires k <= |m.draft.herbsAdded|
    ensures var kept := AddStep(m, clock, now).steps[|m.steps|].herbsAdded;
            var rows := m.draft.herbsAdded;
            && kept == Seqs.Filter(rows[..k], Filled) + Seqs.Filter(rows[k..], Filled)
            && (kept == rows <==> forall i :: 0 <= i < |rows| ==> Filled(rows[i]))
  {
    var rows := m.draft.herbsAdded;
    assert rows == rows[..k] + rows[k..];
    Seqs.FilterAppend(rows[..k], rows[k..], Filled);
    Seqs.FilterKeepsAll(rows, Filled);
  }

  /** An empty row added to the draft is never recorded: recording after
      `addHerbField` stores the same steps as recording before it. */
  lemma EmptyRowIsNotRecorded(m: Workshop, clock: nat, now: string)
    ensures AddStep(AddHerbField(m), clock, now).steps == AddStep(m, clock, now).steps
  {
    var rows := m.draft.herbsAdded;
    Seqs.FilterAppend(rows, [EmptyHerb], Filled);
    assert Seqs.Filter([EmptyHerb], Filled) == [];
    assert Seqs.Filter(rows + [EmptyHerb], Filled) == Seqs.Filter(rows, Filled);
    assert AddHerbField(m).draft.herbsAdded == rows + [EmptyHerb];
  }

  /** Deleting the id of a step just recorded, when no earlier step carries
      it, gives back the earlier list. */
  lemma AddThenDeleteStep(m: Workshop, clock: nat, now: string)
    requires forall i :: 0 <= i < |m.steps| ==> m.steps[i].id != ClockId(clock)
    ensures DeleteStep(AddStep(m, clock, now), ClockId(clock)).steps == m.steps
  {
    var r := AddStep(m, clock, now);
    assert r.steps == m.steps + [r.steps[|m.steps|]];
    Seqs.FilterAppend(m.steps, [r.steps[|m.steps|]], OtherId(ClockId(clock)));
    Seqs.FilterKeepsAll(m.steps, OtherId(ClockId(clock)));
  }

  /** Two steps recorded 1000 ms apart share an id, so deleting one deletes
      both: the list is left as deleting that id from the earlier list. */
  lemma DeleteTakesCollidingSteps(m: Workshop, ms: nat, first: string, second: string)
    requires ms >= 100
    ensures var twice := AddStep(AddStep(m, ms, first), ms + 1000, second);
            DeleteStep(twice, ClockId(ms)).steps == DeleteStep(m, ClockId(ms)).steps
  {
    ClockIdRepeatsEverySecond(ms);
    var once := AddStep(m, ms, first);
    var twice := AddStep(once, ms + 1000, second);
    var keep := OtherId(ClockId(ms));
    var s1 := once.steps[|m.steps|];
    var s2 := twice.steps[|once.steps|];
    assert once.steps == m.steps + [s1];
    assert twice.steps == m.steps + [s1] + [s2];
    Seqs.FilterAppend(m.steps + [s1], [s2], keep);
    Seqs.FilterAppend(m.steps, [s1], keep);
    assert Seqs.Filter([s1], keep) == [];
    assert Seqs.Filter([s2], keep) == [];
  }

  /** Deleting keeps the order of the list: deleting from a concatenation
      deletes from each part and keeps the parts in order. */
  lemma DeleteStepDistributes(m: Workshop, a: seq<MfgStep>, b: seq<MfgStep>, id: string)
    ensures DeleteStep(m.(steps := a + b), id).steps ==
              DeleteStep(m.(steps := a), id).steps + DeleteStep(m.(steps := b), id).steps
  {
    Seqs.FilterAppend(a, b, OtherId(id));
  }

  /** Unticking keeps the order of the selection: unticking from a
      concatenation unticks from each part and keeps the parts in order. */
  lemma UntickDistributes(m: Workshop, a: seq<string>, b: seq<string>, id: string)
    ensures ToggleBatch(m.(selectedBatches := a + b), id, false).selectedBatches ==
              ToggleBatch(m.(selectedBatches := a), id, false).selectedBatches
              + ToggleBatch(m.(selectedBatches := b), id, false).selectedBatches
  {
    Seqs.FilterAppend(a, b, OtherBatch(id));
  }

  /** Removing the row just added gives back the draft. */
  lemma AddThenRemoveHerbField(m: Workshop)
    ensures RemoveHerbField(AddHerbField(m), |m.draft.herbsAdded|) == m
  {
    var r := RemoveHerbField(AddHerbField(m), |m.draft.herbsAdded|);
    assert r.draft.herbsAdded == m.draft.herbsAdded;
  }

  /** Two edits of the same column of the same row: the second wins. */
  lemma UpdateHerbFieldLastWins(m: Workshop, index: nat, field: HerbField, first: string, second: string)
    requires index < |m.draft.herbsAdded|
    ensures UpdateHerbField(UpdateHerbField(m, index, field, first), index, field, second)
              == UpdateHerbField(m, index, field, second)
  {
    var a := UpdateHerbField(UpdateHerbField(m, index, field, first), index, field, second);
    var b := UpdateHerbField(m, index, field, second);
    assert a.draft.herbsAdded == b.draft.herbsAdded;
  }

  /** Writing a column's own value back changes nothing. */
  lemma UpdateHerbFieldUnchanged(m: Workshop, index: nat)
    requires index < |m.draft.herbsAdded|
    ensures UpdateHerbField(m, index, Name, m.draft.herbsAdded[index].name) == m
    ensures UpdateHerbField(m, index, Quantity, m.draft.herbsAdded[index].quantity) == m
  {
    var a := UpdateHerbField(m, index, Name, m.draft.herbsAdded[index].name);
    assert a.draft.herbsAdded == m.draft.herbsAdded;
    var b := UpdateHerbField(m, index, Quantity, m.draft.herbsAdded[index].quantity);
    assert b.draft.herbsAdded == m.draft.herbsAdded;
  }

  /** Ticking then unticking a batch is the same as unticking it; for a batch
      not ticked before, it restores the selection. */
  lemma TickThenUntick(m: Workshop, id: string)
    ensures ToggleBatch(ToggleBatch(m, id, true), id, false) == ToggleBatch(m, id, false)
    ensures id !in m.selectedBatches ==> ToggleBatch(ToggleBatch(m, id, true), id, false) == m
  {
    Seqs.FilterAppend(m.selectedBatches, [id], OtherBatch(id));
    assert Seqs.Filter([id], OtherBatch(id)) == [];
    assert ToggleBatch(m, id, true).selectedBatches == m.selectedBatches + [id];
    if id !in m.selectedBatches {
      Seqs.FilterKeepsAll(m.selectedBatches, OtherBatch(id));
    }
  }
}
