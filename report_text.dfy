/** The pure parts of the operator screen (pages/index.tsx): the text of a status event,
    the payload that carries it, the shift report built from the history, and the fault
    library grouped by category. */
module ReportText {
  import opened Common
  import opened Reports

  /** The two statuses an operator can report. */
  datatype Status = STOPPED | RUNNING

  function StatusName(s: Status): string {
    match s
    case STOPPED => "STOPPED"
    case RUNNING => "RUNNING"
  }

  /** A piece of monitored equipment. */
  datatype Unit = Unit(unitId: string, unitLabel: Option<string>)

  /** The record `processReport` sends to the store, or keeps locally when that fails. */
  datatype Payload = Payload(
    unitId: string, status: Status, emoji: string, description: string,
    rawMessage: string, createdAt: string)

  // ----- The message of one event -----

  /** The message of an event: a bold headline with the icon, unit, status and time, then
      the description on a line of its own, marked `Fixed:` for a unit running again. */
  function RawMessage(emoji: string, unitId: string, status: Status, timeStr: string, desc: string): string {
    match status
    case STOPPED => "*" + emoji + " " + unitId + " " + "STOPPED" + "* " + timeStr + "\n- " + desc
    case RUNNING => "*" + emoji + " " + unitId + " " + "RUNNING" + "* " + timeStr + "\n- Fixed: " + desc
  }

  function Headline(emoji: string, unitId: string, status: Status, timeStr: string): string {
    "*" + emoji + " " + unitId + " " + StatusName(status) + "* " + timeStr
  }

  /** What stands between the line marker and the description. */
  function Marker(status: Status): string {
    if status == RUNNING then "Fixed: " else ""
  }

  /** The two templates share one headline and differ only by the `Fixed: ` marker. */
  lemma RawMessageShape(emoji: string, unitId: string, status: Status, timeStr: string, desc: string)
    ensures RawMessage(emoji, unitId, status, timeStr, desc) ==
            Headline(emoji, unitId, status, timeStr) + "\n" + "- " + Marker(status) + desc
  {
  }

  /** The text before the first line break, and the text after it. */
  function SplitLine(s: string): (string, string) {
    if s == [] then ("", "")
    else if s[0] == '\n' then ("", s[1..])
    else var (first, rest) := SplitLine(s[1..]); ([s[0]] + first, rest)
  }

  lemma {:induction false} SplitLineAt(line: string, rest: string)
    requires '\n' !in line
    ensures SplitLine(line + "\n" + rest) == (line, rest)
  {
    if line != [] {
      var s := line + "\n" + rest;
      assert s[0] == line[0] && s[0] != '\n';
      assert s[1..] == line[1..] + "\n" + rest;
      SplitLineAt(line[1..], rest);
      assert [line[0]] + line[1..] == line;
    } else {
      assert line + "\n" + rest == "\n" + rest;
    }
  }

  /** A reader that splits the message at its first line break gets the headline back,
      and then the description behind `- ` and the status marker, provided the icon, unit
      id and time contain no line break. */
  lemma RawMessageLines(emoji: string, unitId: string, status: Status, timeStr: string, desc: string)
    requires '\n' !in emoji && '\n' !in unitId && '\n' !in timeStr
    ensures SplitLine(RawMessage(emoji, unitId, status, timeStr, desc)) ==
            (Headline(emoji, unitId, status, timeStr), "- " + Marker(status) + desc)
  {
    var h := Headline(emoji, unitId, status, timeStr);
    var name := StatusName(status);
    assert '\n' !in name by { if status == STOPPED { assert name == "STOPPED"; } else { assert name == "RUNNING"; } }
    assert h == "*" + emoji + " " + unitId + " " + name + "* " + timeStr;
    assert '\n' !in h;
    RawMessageShape(emoji, unitId, status, timeStr, desc);
    assert h + "\n" + "- " + Marker(status) + desc == h + "\n" + ("- " + Marker(status) + desc);
    SplitLineAt(h, "- " + Marker(status) + desc);
  }

  /** The payload for an event: the current unit, status, icon, the trimmed description,
      the message composed from them, and the client's timestamp. */
  function MakePayload(unit: Unit, status: Status, emoji: string, desc: string, timeStr: string, nowIso: string): (p: Payload)
    ensures p.unitId == unit.unitId && p.status == status && p.emoji == emoji && p.description == desc
    ensures p.rawMessage == RawMessage(emoji, unit.unitId, status, timeStr, desc) && p.createdAt == nowIso
  {
    Payload(unit.unitId, status, emoji, desc, RawMessage(emoji, unit.unitId, status, timeStr, desc), nowIso)
  }

  /** The report buttons of the screen: the two under the description field, and the
      three offered for each of the surface and underground belt groups. */
  datatype Button = ReportStop | ReportStart | Starting | RunningRom | EndShift

  /** The status and icon each button files. The `Starting` buttons file the same event
      as `REPORT STOP`. */
  function ButtonEvent(b: Button): (e: (Status, string))
    ensures e.0 == RUNNING <==> b in {ReportStart, RunningRom}
    ensures e.1 == "\U{2705}" <==> e.0 == RUNNING
    ensures e.1 == "\U{1F6D1}" <==> b == EndShift
    ensures b in {ReportStop, Starting} <==> e == (STOPPED, "\U{26D4}")
  {
    match b
    case ReportStop => (STOPPED, "\U{26D4}")
    case Starting => (STOPPED, "\U{26D4}")
    case ReportStart => (RUNNING, "\U{2705}")
    case RunningRom => (RUNNING, "\U{2705}")
    case EndShift => (STOPPED, "\U{1F6D1}")
  }

  // ----- The shift report -----

  /** A template literal's rendering of a nullable column: null prints as `null`. */
  function TemplateText(v: Option<string>): string {
    match v
    case None => "null"
    case Some(s) => s
  }

  /** `s || fallback` for a string. */
  function OrDefault(s: string, fallback: string): string {
    if s == "" then fallback else s
  }

  const Rule := "--------------------------"

  function ReportHeader(dateStr: string, operator: string, tonnage: string): string {
    "\U{1F4CA} *SHIFT REPORT - KAMOA 1*\nDate: " + dateStr + "\nOperator: " + OrDefault(operator, "N/A") +
    "\nTonnage: " + OrDefault(tonnage, "0") + " t\n" + Rule + "\n"
  }

  function ReportFooter(notes: string): string {
    Rule + "\n\U{1F4DD} *NOTES*: " + OrDefault(notes, "N/A")
  }

  /** One history row's part of the report: its message and a blank line. */
  function Entry(row: ReportRow): string {
    TemplateText(row.rawMessage) + "\n\n"
  }

  /** The entries of all rows, in history order. */
  function Entries(history: seq<ReportRow>): string {
    if history == [] then "" else Entry(history[0]) + Entries(history[1..])
  }

  function FullReport(dateStr: string, operator: string, tonnage: string, notes: string, history: seq<ReportRow>): string {
    ReportHeader(dateStr, operator, tonnage) + Entries(history) + ReportFooter(notes)
  }

  /** Blank operator, tonnage and notes read as `N/A`, `0` and `N/A`. */
  lemma BlankFieldsDefault(dateStr: string, operator: string, tonnage: string, notes: string)
    ensures ReportHeader(dateStr, "", tonnage) == ReportHeader(dateStr, "N/A", tonnage)
    ensures ReportHeader(dateStr, operator, "") == ReportHeader(dateStr, operator, "0")
    ensures ReportFooter("") == ReportFooter("N/A")
    ensures operator != "" && tonnage != "" ==>
      ReportHeader(dateStr, operator, tonnage) ==
      "\U{1F4CA} *SHIFT REPORT - KAMOA 1*\nDate: " + dateStr + "\nOperator: " + operator + "\nTonnage: " + tonnage + " t\n" + Rule + "\n"
  {
  }

  /** The entries of two stretches of history, one after the other. */
  lemma {:induction false} EntriesAppend(a: seq<ReportRow>, b: seq<ReportRow>)
    ensures Entries(a + b) == Entries(a) + Entries(b)
  {
    if a != [] {
      assert (a + b)[1..] == a[1..] + b;
      EntriesAppend(a[1..], b);
    } else {
      assert a + b == b;
    }
  }

  /** The report lists every row of the history, in history order: the entry of row `i`
      sits in the report right after the entries of the rows before it. */
  lemma EntryInPlace(dateStr: string, operator: string, tonnage: string, notes: string, history: seq<ReportRow>, i: nat)
    requires i < |history|
    ensures var report := FullReport(dateStr, operator, tonnage, notes, history);
            var at := |ReportHeader(dateStr, operator, tonnage)| + |Entries(history[..i])|;
      at + |Entry(history[i])| <= |report| && report[at..at + |Entry(history[i])|] == Entry(history[i])
  {
    assert history == history[..i] + ([history[i]] + history[i + 1..]);
    EntriesAppend(history[..i], [history[i]] + history[i + 1..]);
    assert Entries([history[i]] + history[i + 1..]) == Entry(history[i]) + Entries(history[i + 1..]);
    var header := ReportHeader(dateStr, operator, tonnage);
    var report := FullReport(dateStr, operator, tonnage, notes, history);
    assert report == (header + Entries(history[..i])) + Entry(history[i]) + (Entries(history[i + 1..]) + ReportFooter(notes));
  }

  /** A row arriving from the live feed adds its entry at the top of the report. */
  lemma LiveRowOnTop(dateStr: string, operator: string, tonnage: string, notes: string, row: ReportRow, history: seq<ReportRow>)
    ensures FullReport(dateStr, operator, tonnage, notes, [row] + history) ==
            ReportHeader(dateStr, operator, tonnage) + Entry(row) + Entries(history) + ReportFooter(notes)
  {
  }

  // ----- The fault library -----

  /** One entry of the fault library. */
  datatype FaultRow = FaultRow(id: string, category: string, description: string)

  /** The rows of one category, in their original order. */
  function InCategory(rows: seq<FaultRow>, category: string): seq<FaultRow> {
    if rows == [] then []
    else (if rows[0].category == category then [rows[0]] else []) + InCategory(rows[1..], category)
  }

  /** The library as the screen stores it: one list per category that occurs. */
  function GroupByCategory(rows: seq<FaultRow>): map<string, seq<FaultRow>> {
    map c | c in (set r | r in rows :: r.category) :: InCategory(rows, c)
  }

  lemma {:induction false} InCategoryAppend(a: seq<FaultRow>, b: seq<FaultRow>, category: string)
    ensures InCategory(a + b, category) == InCategory(a, category) + InCategory(b, category)
  {
    if a != [] {
      assert (a + b)[1..] == a[1..] + b;
      InCategoryAppend(a[1..], b, category);
    } else {
      assert a + b == b;
    }
  }

  /** Adding one row to the input extends its category's list by that row and leaves every
      other list alone: the step of the `forEach` loop. */
  lemma GroupStep(rows: seq<FaultRow>, r: FaultRow)
    ensures var g := GroupByCategory(rows);
      GroupByCategory(rows + [r]) == g[r.category := (if r.category in g then g[r.category] else []) + [r]]
  {
    var g := GroupByCategory(rows);
    var g' := GroupByCategory(rows + [r]);
    var expected := g[r.category := (if r.category in g then g[r.category] else []) + [r]];
    forall c ensures InCategory(rows + [r], c) == InCategory(rows, c) + InCategory([r], c) {
      InCategoryAppend(rows, [r], c);
    }
    assert (set x | x in rows + [r] :: x.category) == (set x | x in rows :: x.category) + {r.category};
    if r.category !in g {
      assert r.category !in (set x | x in rows :: x.category);
      assert InCategory(rows, r.category) == [] by { NoneInCategory(rows, r.category); }
    }
    assert InCategory([r], r.category) == [r];
    assert g'.Keys == expected.Keys;
    forall c | c in g'.Keys ensures g'[c] == expected[c] {
      assert InCategory([r], c) == (if r.category == c then [r] else []) + InCategory([], c) by {
        assert [r][1..] == [];
      }
      if c != r.category {
        assert c in g;
      }
    }
  }

  lemma {:induction false} NoneInCategory(rows: seq<FaultRow>, category: string)
    requires forall r :: r in rows ==> r.category != category
    ensures InCategory(rows, category) == []
  {
    if rows != [] {
      NoneInCategory(rows[1..], category);
    }
  }

  /** Every row lands in exactly the group of its category: a group holds each row of its
      category as many times as the input does, and no row of another category. */
  lemma {:induction false} InCategoryCounts(rows: seq<FaultRow>, category: string, x: FaultRow)
    ensures multiset(InCategory(rows, category))[x] == if x.category == category then multiset(rows)[x] else 0
  {
    if rows != [] {
      InCategoryCounts(rows[1..], category, x);
      assert rows == [rows[0]] + rows[1..];
      assert multiset(rows) == multiset([rows[0]]) + multiset(rows[1..]);
    }
  }

  /** The library has one group per category that occurs in the input; each input row is in
      its own category's group, and a group holds only rows of its category. */
  lemma GroupsPartition(rows: seq<FaultRow>)
    ensures var g := GroupByCategory(rows);
      (forall r :: r in rows ==> r.category in g && r in g[r.category]) &&
      (forall c :: c in g ==> g[c] != [] && forall x: FaultRow :: x in g[c] ==> x.category == c && x in rows)
  {
    var g := GroupByCategory(rows);
    forall r | r in rows ensures r.category in g && r in g[r.category] {
      InCategoryCounts(rows, r.category, r);
    }
    forall c | c in g ensures g[c] != [] && forall x: FaultRow :: x in g[c] ==> x.category == c && x in rows {
      var r :| r in rows && r.category == c;
      InCategoryCounts(rows, c, r);
      forall x: FaultRow | x in g[c] ensures x.category == c && x in rows {
        InCategoryCounts(rows, c, x);
      }
    }
  }

  /** The grouping loop of `fetchLibrary`: walks the rows once, creating a category's list
      on its first row and appending each row to its category's list. */
  method GroupRows(rows: seq<FaultRow>) returns (grouped: map<string, seq<FaultRow>>)
    ensures grouped == GroupByCategory(rows)
  {
    grouped := map[];
    var i := 0;
    while i < |rows|
      invariant 0 <= i <= |rows|
      invariant grouped == GroupByCategory(rows[..i])
    {
      var r := rows[i];
      var group := if r.category in grouped then grouped[r.category] else [];
      grouped := grouped[r.category := group + [r]];
      GroupStep(rows[..i], r);
      assert rows[..i + 1] == rows[..i] + [r];
      i := i + 1;
    }
    assert rows[..i] == rows;
  }
}
