/** The operator screen of pages/index.tsx as a state machine: the React state becomes the
    fields of `Home`, and each handler becomes a method. Answers from the store, the clock
    and the confirmation dialog arrive as parameters; the browser's `localStorage` is an
    object of its own. */
module HomeScreen {
  import opened Common
  import opened Reports
  import opened ReportText

  /** The `localStorage` key of the queue of events that could not be stored. */
  const StorageKey := "kamoa_local_queue_v1"

  /** How many events `fetchReports` loads. */
  const HistoryLimit: nat := 200

  /** The category used when the category selector yields an empty value. */
  const DefaultCategory := "Safety"

  /** The categories the selector offers, the first one preselected. */
  const Categories: seq<string> := ["Safety", "Mechanical", "Electrical", "Planned"]

  /** What a `localStorage` slot holds: the empty string, a JSON array of queued events,
      or text that is not a JSON array (so parsing it or pushing onto it throws). */
  datatype Stored = Blank | Queue(items: seq<Payload>) | Unparsable

  /** The browser's `localStorage`, by key. */
  class LocalStorage {
    var slots: map<string, Stored>

    constructor(initial: map<string, Stored>)
      ensures slots == initial
    {
      slots := initial;
    }
  }

  /** The queue `enqueueLocal` writes back after reading slot `slot`: the stored events with
      `item` appended (an absent or empty slot reads as `[]`), or `None` when reading the
      slot throws. */
  function Enqueued(slot: Option<Stored>, item: Payload): (q: Option<seq<Payload>>)
  {
    match slot
    case None => Some([item])
    case Some(Blank) => Some([item])
    case Some(Queue(items)) => Some(items + [item])
    case Some(Unparsable) => None
  }

  function Slot(slots: map<string, Stored>, key: string): Option<Stored> {
    if key in slots then Some(slots[key]) else None
  }

  /** The storage after `enqueueLocal(item)`: the extended queue under the storage key, or
      the old slots when reading the slot throws or the write is refused. */
  function AfterEnqueue(slots: map<string, Stored>, item: Payload, writeOk: bool): map<string, Stored> {
    var q := Enqueued(Slot(slots, StorageKey), item);
    if q.Some? && writeOk then slots[StorageKey := Queue(q.value)] else slots
  }

  /** The local queue is first-in first-out: a readable slot keeps every event already
      queued, in order, and gains the new one at the end; an unreadable slot gets nothing. */
  lemma EnqueuedKeepsOrder(slot: Option<Stored>, item: Payload)
    ensures Enqueued(slot, item).None? <==> slot == Some(Unparsable)
    ensures Enqueued(slot, item).Some? ==>
      var q := Enqueued(slot, item).value;
      |q| >= 1 && q[|q| - 1] == item &&
      q[..|q| - 1] == (if slot.Some? && slot.value.Queue? then slot.value.items else [])
  {
  }

  /** Two events queued one after the other sit at the end of the queue in the order they
      were queued. */
  lemma {:induction false} EnqueueTwice(slot: Option<Stored>, a: Payload, b: Payload)
    requires slot != Some(Unparsable)
    ensures var q := Enqueued(slot, a);
      q.Some? && Enqueued(Some(Queue(q.value)), b) ==
        Some((if slot.Some? && slot.value.Queue? then slot.value.items else []) + [a, b])
  {
    var before := if slot.Some? && slot.value.Queue? then slot.value.items else [];
    EnqueuedKeepsOrder(slot, a);
    var q := Enqueued(slot, a).value;
    assert q == before + [a] by { assert q == q[..|q| - 1] + [q[|q| - 1]]; }
    assert q + [b] == before + [a, b];
  }

  /** The operator screen's state. */
  class Home {
    var units: seq<Unit>
    var library: map<string, seq<FaultRow>>
    var history: seq<ReportRow>
    var currentUnit: Option<Unit>
    var description: string
    var output: string
    var showPreview: bool
    var showHistory: bool
    var operator: string
    var tonnage: string
    var notes: string
    var clock: string
    var dateStr: string
    /** The uncontrolled inputs of the "add fault" form. */
    var newFaultText: string
    var newFaultCategory: string
    const storage: LocalStorage

    /** The first render: everything empty, the clock showing placeholders, the category
        selector on its first option. */
    constructor(storage: LocalStorage)
      ensures this.storage == storage
      ensures units == [] && library == map[] && history == [] && currentUnit == None
      ensures description == "" && output == "" && !showPreview && !showHistory
      ensures operator == "" && tonnage == "" && notes == ""
      ensures clock == "--:--:--" && dateStr == "--/--/----"
      ensures newFaultText == "" && newFaultCategory == Categories[0]
    {
      this.storage := storage;
      units, library, history, currentUnit := [], map[], [], None;
      description, output, showPreview, showHistory := "", "", false, false;
      operator, tonnage, notes := "", "", "";
      clock, dateStr := "--:--:--", "--/--/----";
      newFaultText, newFaultCategory := "", Categories[0];
    }

    /** `fetchUnits`: the units in `unit_id` order, and the first of them selected. The
        `!currentUnit` test reads the value captured at the first render, which is null,
        so a successful non-empty answer always selects its first unit. */
    method FetchUnits(answer: Query<Unit>)
      modifies this
      ensures answer.QueryFails? ==> units == old(units) && currentUnit == old(currentUnit)
      ensures answer.Rows? ==>
                units == answer.rows &&
                currentUnit == (if answer.rows != [] then Some(answer.rows[0]) else old(currentUnit))
      ensures answer.Rows? && answer.rows != [] ==> currentUnit.Some? && currentUnit.value in units
      ensures library == old(library) && history == old(history) && description == old(description)
      ensures output == old(output) && showPreview == old(showPreview) && showHistory == old(showHistory)
      ensures operator == old(operator) && tonnage == old(tonnage) && notes == old(notes)
      ensures clock == old(clock) && dateStr == old(dateStr)
      ensures newFaultText == old(newFaultText) && newFaultCategory == old(newFaultCategory)
    {
      if answer.QueryFails? {
        return;
      }
      units := answer.rows;
      if |answer.rows| > 0 {
        currentUnit := Some(answer.rows[0]);
      }
    }

    /** `fetchLibrary`: the fault library, newest first, grouped by category. */
    method FetchLibrary(answer: Query<FaultRow>)
      modifies this
      ensures answer.QueryFails? ==> library == old(library)
      ensures answer.Rows? ==> library == GroupByCategory(answer.rows)
      ensures units == old(units) && history == old(history) && currentUnit == old(currentUnit)
      ensures description == old(description) && output == old(output) && showPreview == old(showPreview)
      ensures showHistory == old(showHistory)
      ensures operator == old(operator) && tonnage == old(tonnage) && notes == old(notes)
      ensures clock == old(clock) && dateStr == old(dateStr)
      ensures newFaultText == old(newFaultText) && newFaultCategory == old(newFaultCategory)
    {
      if answer.QueryFails? {
        return;
      }
      library := GroupRows(answer.rows);
    }

    /** `fetchReports`: at most the 200 newest events, newest first. */
    method FetchReports(answer: Query<ReportRow>)
      modifies this
      ensures answer.QueryFails? ==> history == old(history)
      ensures answer.Rows? ==> history == Take(answer.rows, HistoryLimit)
      ensures answer.Rows? && NewestFirst(answer.rows) ==> NewestFirst(history) && |history| <= HistoryLimit
      ensures units == old(units) && library == old(library) && currentUnit == old(currentUnit)
      ensures description == old(description) && output == old(output) && showPreview == old(showPreview)
      ensures showHistory == old(showHistory)
      ensures operator == old(operator) && tonnage == old(tonnage) && notes == old(notes)
      ensures clock == old(clock) && dateStr == old(dateStr)
      ensures newFaultText == old(newFaultText) && newFaultCategory == old(newFaultCategory)
    {
      if answer.QueryFails? {
        return;
      }
      history := Take(answer.rows, HistoryLimit);
      if NewestFirst(answer.rows) {
        NewestFirstTake(answer.rows, HistoryLimit);
      }
    }

    /** The live feed's insert callback: the new row goes on top of the history, which may
        then hold more than 200 events. */
    method OnReportInserted(row: ReportRow)
      modifies this
      ensures history == [row] + old(history)
      ensures NewestFirst(old(history)) ==>
        (NewestFirst(history) <==> old(history) == [] || LexLe(old(history)[0].createdAt, row.createdAt))
      ensures units == old(units) && library == old(library) && currentUnit == old(currentUnit)
      ensures description == old(description) && output == old(output) && showPreview == old(showPreview)
      ensures showHistory == old(showHistory)
      ensures operator == old(operator) && tonnage == old(tonnage) && notes == old(notes)
      ensures clock == old(clock) && dateStr == old(dateStr)
      ensures newFaultText == old(newFaultText) && newFaultCategory == old(newFaultCategory)
    {
      if NewestFirst(history) {
        NewestFirstPrepend(row, history);
      }
      history := [row] + history;
    }

    /** The one-second timer: the time as `HH:MM:SS` and the date as `DD/MM/YYYY`, both
        formatted by the browser. */
    method Tick(timeText: string, dateText: string)
      modifies this
      ensures clock == timeText && dateStr == dateText
      ensures units == old(units) && library == old(library) && history == old(history)
      ensures currentUnit == old(currentUnit) && description == old(description)
      ensures output == old(output) && showPreview == old(showPreview) && showHistory == old(showHistory)
      ensures operator == old(operator) && tonnage == old(tonnage) && notes == old(notes)
      ensures newFaultText == old(newFaultText) && newFaultCategory == old(newFaultCategory)
    {
      clock, dateStr := timeText, dateText;
    }

    /** `addNewFault`: files the trimmed text of the form under the selected category
        (`Safety` when the selector yields nothing); a blank text files nothing. Once the
        store accepts the row, the text input is emptied and the library is reloaded from
        `reload`. Returns the (category, description) sent to the store. */
    method AddNewFault(insertOk: bool, reload: Query<FaultRow>) returns (sent: Option<(string, string)>)
      modifies this
      ensures sent.Some? <==> Trim(old(newFaultText)) != ""
      ensures sent.Some? ==> sent.value == (OrDefault(old(newFaultCategory), DefaultCategory), Trim(old(newFaultText)))
      ensures sent.Some? && insertOk ==>
        newFaultText == "" && library == (if reload.Rows? then GroupByCategory(reload.rows) else old(library))
      ensures sent.None? || !insertOk ==> newFaultText == old(newFaultText) && library == old(library)
      ensures units == old(units) && history == old(history) && currentUnit == old(currentUnit)
      ensures description == old(description) && output == old(output) && showPreview == old(showPreview)
      ensures showHistory == old(showHistory)
      ensures operator == old(operator) && tonnage == old(tonnage) && notes == old(notes)
      ensures clock == old(clock) && dateStr == old(dateStr) && newFaultCategory == old(newFaultCategory)
    {
      var text := Trim(newFaultText);
      var category := OrDefault(newFaultCategory, DefaultCategory);
      if text == "" {
        return None;
      }
      sent := Some((category, text));
      if !insertOk {
        return;
      }
      newFaultText := "";
      FetchLibrary(reload);
    }

    /** `enqueueLocal`: appends `item` to the queue kept under the storage key. A slot that
        does not hold a JSON array, or a write the browser refuses, leaves storage as it was. */
    method EnqueueLocal(item: Payload, writeOk: bool)
      modifies storage
      ensures storage.slots == AfterEnqueue(old(storage.slots), item, writeOk)
    {
      var q := Enqueued(Slot(storage.slots, StorageKey), item);
      if q.Some? && writeOk {
        storage.slots := storage.slots[StorageKey := Queue(q.value)];
      }
    }

    /** `processReport`: files an event for the selected unit with the trimmed description.
        Nothing happens without a unit or with a blank description. Otherwise the event is
        sent to the store and `Deliver` handles the store's answer. The history is left to
        the live feed. Returns the event sent to the store. */
    method ProcessReport(status: Status, emoji: string, timeStr: string, nowIso: string, insertOk: bool, writeOk: bool)
      returns (sent: Option<Payload>)
      modifies this, storage
      ensures sent.Some? <==> Trim(old(description)) != "" && old(currentUnit).Some?
      ensures sent.Some? ==> sent.value == MakePayload(old(currentUnit).value, status, emoji, Trim(old(description)), timeStr, nowIso)
      ensures sent.Some? && insertOk ==>
        output == sent.value.rawMessage && showPreview && description == "" && storage.slots == old(storage.slots)
      ensures sent.Some? && !insertOk ==>
        output == old(output) && showPreview == old(showPreview) && description == old(description) &&
        storage.slots == AfterEnqueue(old(storage.slots), sent.value, writeOk)
      ensures sent.None? ==>
        output == old(output) && showPreview == old(showPreview) && description == old(description) &&
        storage.slots == old(storage.slots)
      ensures units == old(units) && library == old(library) && history == old(history)
      ensures currentUnit == old(currentUnit) && showHistory == old(showHistory)
      ensures operator == old(operator) && tonnage == old(tonnage) && notes == old(notes)
      ensures clock == old(clock) && dateStr == old(dateStr)
      ensures newFaultText == old(newFaultText) && newFaultCategory == old(newFaultCategory)
    {
      var desc := Trim(description);
      if desc == "" || currentUnit.None? {
        return None;
      }
      var payload := MakePayload(currentUnit.value, status, emoji, desc, timeStr, nowIso);
      sent := Some(payload);
      Deliver(payload, insertOk, writeOk);
    }

    /** The second half of `processReport`: when the store accepted `payload`, its message
        is shown for copying and the description is emptied; when it refused it, the event
        is queued locally and the screen is left as it was. */
    method Deliver(payload: Payload, insertOk: bool, writeOk: bool)
      modifies this, storage
      ensures insertOk ==>
        output == payload.rawMessage && showPreview && description == "" && storage.slots == old(storage.slots)
      ensures !insertOk ==>
        output == old(output) && showPreview == old(showPreview) && description == old(description) &&
        storage.slots == AfterEnqueue(old(storage.slots), payload, writeOk)
      ensures units == old(units) && library == old(library) && history == old(history)
      ensures currentUnit == old(currentUnit) && showHistory == old(showHistory)
      ensures operator == old(operator) && tonnage == old(tonnage) && notes == old(notes)
      ensures clock == old(clock) && dateStr == old(dateStr)
      ensures newFaultText == old(newFaultText) && newFaultCategory == old(newFaultCategory)
    {
      if !insertOk {
        EnqueueLocal(payload, writeOk);
      } else {
        output := payload.rawMessage;
        showPreview := true;
        description := "";
      }
    }

    /** `generateFullReport`: the shift report of the whole history, shown for copying. */
    method GenerateFullReport()
      modifies this
      ensures output == FullReport(dateStr, operator, tonnage, notes, history) && showPreview
      ensures units == old(units) && library == old(library) && history == old(history)
      ensures currentUnit == old(currentUnit) && description == old(description) && showHistory == old(showHistory)
      ensures operator == old(operator) && tonnage == old(tonnage) && notes == old(notes)
      ensures clock == old(clock) && dateStr == old(dateStr)
      ensures newFaultText == old(newFaultText) && newFaultCategory == old(newFaultCategory)
    {
      output := FullReport(dateStr, operator, tonnage, notes, history);
      showPreview := true;
    }

    /** `clearHistory`: empties the displayed history once the operator confirms; the
        stored events are untouched. */
    method ClearHistory(confirmed: bool)
      modifies this
      ensures history == if confirmed then [] else old(history)
      ensures units == old(units) && library == old(library) && currentUnit == old(currentUnit)
      ensures description == old(description) && output == old(output) && showPreview == old(showPreview)
      ensures showHistory == old(showHistory)
      ensures operator == old(operator) && tonnage == old(tonnage) && notes == old(notes)
      ensures clock == old(clock) && dateStr == old(dateStr)
      ensures newFaultText == old(newFaultText) && newFaultCategory == old(newFaultCategory)
    {
      if confirmed {
        history := [];
      }
    }

    /** A click on the unit card at position `i` selects that unit. */
    method SelectUnit(i: nat)
      requires i < |units|
      modifies this
      ensures currentUnit == Some(old(units)[i])
      ensures units == old(units) && library == old(library) && history == old(history)
      ensures description == old(description) && output == old(output) && showPreview == old(showPreview)
      ensures showHistory == old(showHistory)
      ensures operator == old(operator) && tonnage == old(tonnage) && notes == old(notes)
      ensures clock == old(clock) && dateStr == old(dateStr)
      ensures newFaultText == old(newFaultText) && newFaultCategory == old(newFaultCategory)
    {
      currentUnit := Some(units[i]);
    }

    /** A click on a library entry copies its text into the description field. */
    method PickFault(category: string, i: nat)
      requires category in library && i < |library[category]|
      modifies this
      ensures description == old(library)[category][i].description
      ensures units == old(units) && library == old(library) && history == old(history)
      ensures currentUnit == old(currentUnit) && output == old(output) && showPreview == old(showPreview)
      ensures showHistory == old(showHistory)
      ensures operator == old(operator) && tonnage == old(tonnage) && notes == old(notes)
      ensures clock == old(clock) && dateStr == old(dateStr)
      ensures newFaultText == old(newFaultText) && newFaultCategory == old(newFaultCategory)
    {
      description := library[category][i].description;
    }

    /** Typing in one of the controlled text fields (description, operator, tonnage, notes). */
    method EditFields(newDescription: string, newOperator: string, newTonnage: string, newNotes: string)
      modifies this
      ensures description == newDescription && operator == newOperator && tonnage == newTonnage && notes == newNotes
      ensures units == old(units) && library == old(library) && history == old(history)
      ensures currentUnit == old(currentUnit) && output == old(output) && showPreview == old(showPreview)
      ensures showHistory == old(showHistory)
      ensures clock == old(clock) && dateStr == old(dateStr)
      ensures newFaultText == old(newFaultText) && newFaultCategory == old(newFaultCategory)
    {
      description, operator, tonnage, notes := newDescription, newOperator, newTonnage, newNotes;
    }

    /** Typing in the uncontrolled "Nouvelle Panne" input and choosing in its category
        select: what `addNewFault` later reads through the two refs. The select holds one
        of its four options, so the fallback to Safety never applies through the page. */
    method EditNewFault(text: string, category: string)
      requires category in Categories
      modifies this
      ensures newFaultText == text && newFaultCategory == category
      ensures OrDefault(newFaultCategory, DefaultCategory) == category
      ensures description == old(description) && operator == old(operator) && tonnage == old(tonnage) && notes == old(notes)
      ensures units == old(units) && library == old(library) && history == old(history)
      ensures currentUnit == old(currentUnit) && output == old(output) && showPreview == old(showPreview)
      ensures showHistory == old(showHistory) && clock == old(clock) && dateStr == old(dateStr)
    {
      newFaultText, newFaultCategory := text, category;
    }

    /** The history toggle. */
    method ToggleHistory()
      modifies this
      ensures showHistory == !old(showHistory)
      ensures units == old(units) && library == old(library) && history == old(history)
      ensures currentUnit == old(currentUnit) && description == old(description)
      ensures output == old(output) && showPreview == old(showPreview)
      ensures operator == old(operator) && tonnage == old(tonnage) && notes == old(notes)
      ensures clock == old(clock) && dateStr == old(dateStr)
      ensures newFaultText == old(newFaultText) && newFaultCategory == old(newFaultCategory)
    {
      showHistory := !showHistory;
    }
  }

  /** A filed event read back: splitting its message at the first line break yields the
      headline with icon, unit, status and time, then the description behind its marker,
      whenever the icon, unit id and time are single lines. */
  lemma SentMessageReadsBack(unit: Unit, status: Status, emoji: string, desc: string, timeStr: string, nowIso: string)
    requires '\n' !in emoji && '\n' !in unit.unitId && '\n' !in timeStr
    ensures var p := MakePayload(unit, status, emoji, desc, timeStr, nowIso);
      SplitLine(p.rawMessage) == (Headline(emoji, unit.unitId, status, timeStr), "- " + Marker(status) + desc)
  {
    RawMessageLines(emoji, unit.unitId, status, timeStr, desc);
  }

  /** A filed event always has a description that is not blank and has no surrounding
      whitespace. */
  lemma SentDescriptionTrimmed(description: string)
    requires Trim(description) != ""
    ensures !AllWhitespace(Trim(description)) && Trim(Trim(description)) == Trim(description)
  {
    TrimShape(description);
    TrimEnds(description);
    TrimEmptyIff(Trim(description));
    TrimIdempotent(description);
  }
}
