/** `POST /api/reports` (pages/api/reports.ts): files a report through the server. The
    route requires a unit and a status, stamps the row with the server's clock, and
    appends it to the `reports` table. */
module ReportsApi {
  import opened Common
  import opened Reports

  /** The JSON body fields the route reads, plus the client's own `created_at`, which the
      route ignores. */
  datatype Fields = Fields(
    unitId: Option<string>, status: Option<string>, emoji: Option<string>,
    description: Option<string>, rawMessage: Option<string>, createdAt: Option<string>)

  /** What the store does with the insert: it fails with a message, or it stores the row
      under a fresh `id` and (`echoed`) returns it from `.select()`. */
  datatype Insertion = InsertFails(message: string) | InsertedAs(id: string, echoed: bool)

  const FieldsRequired := "unit_id and status are required"

  /** The route: its answer (201 carries the stored row or null) and the table afterwards.
      `now` is the server's `new Date().toISOString()`. */
  function Handle(verb: string, body: Fields, now: string, reports: seq<ReportRow>, insert: Insertion)
    : (out: (Response<Option<ReportRow>>, seq<ReportRow>))
    ensures out.1 == reports || (|out.1| == |reports| + 1 && out.1[..|reports|] == reports)
    ensures out.0.status in {201, 400, 405, 500}
  {
    if verb != "POST" then (MethodNotAllowed(), reports)
    else if !Truthy(body.unitId) || !Truthy(body.status) then (Response(400, Error(FieldsRequired)), reports)
    else
      match insert
      case InsertFails(message) => (Response(500, Error(message)), reports)
      case InsertedAs(id, echoed) =>
        var row := ReportRow(id, body.unitId.value, body.status.value, body.emoji,
                             body.description, body.rawMessage, now);
        (Response(201, Data(if echoed then Some(row) else None)), reports + [row])
  }

  /** A report is stored exactly for a POST with a non-empty unit and status whose insert
      succeeds. The stored row keeps the optional fields as sent (an empty string stays an
      empty string, only a missing field becomes null) and is stamped with the server time;
      the 201 answer carries it, or null when the store echoed nothing. */
  lemma StoredIff(verb: string, body: Fields, now: string, reports: seq<ReportRow>, insert: Insertion)
    ensures var out := Handle(verb, body, now, reports, insert);
      out.1 != reports <==> verb == "POST" && Truthy(body.unitId) && Truthy(body.status) && insert.InsertedAs?
    ensures var out := Handle(verb, body, now, reports, insert);
      out.1 != reports ==>
        var row := out.1[|reports|];
        row == ReportRow(insert.id, body.unitId.value, body.status.value, body.emoji, body.description, body.rawMessage, now) &&
        row.createdAt == now && (body.emoji == Some("") ==> row.emoji == Some("")) &&
        out.0 == Response(201, Data(if insert.echoed then Some(row) else None))
  {
  }

  /** The failure answers: 405 for another method, 400 for an empty or missing unit or
      status (checked before the store is used), 500 with the store's message when the
      insert fails; none of them changes the table. */
  lemma Rejections(verb: string, body: Fields, now: string, reports: seq<ReportRow>, insert: Insertion)
    ensures verb != "POST" ==> Handle(verb, body, now, reports, insert) == (MethodNotAllowed(), reports)
    ensures verb == "POST" && (!Truthy(body.unitId) || !Truthy(body.status)) ==>
      Handle(verb, body, now, reports, insert) == (Response(400, Error(FieldsRequired)), reports)
    ensures verb == "POST" && Truthy(body.unitId) && Truthy(body.status) && insert.InsertFails? ==>
      Handle(verb, body, now, reports, insert) == (Response(500, Error(insert.message)), reports)
  {
  }

  /** The client cannot choose the timestamp: its `created_at` has no effect. */
  lemma ClientTimestampIgnored(verb: string, body: Fields, now: string, reports: seq<ReportRow>, insert: Insertion,
                               claimed: Option<string>)
    ensures Handle(verb, body, now, reports, insert) == Handle(verb, body.(createdAt := claimed), now, reports, insert)
  {
  }

  /** The table in the order rows are stored: no row is later than the one after it. */
  predicate OldestFirst(rows: seq<ReportRow>) {
    forall i :: 0 <= i < |rows| - 1 ==> LexLe(rows[i].createdAt, rows[i + 1].createdAt)
  }

  /** Server time keeps the newest row last when the clock does not run backwards: a
      stored row goes at the end stamped `now`, no row is later than it, and a table in
      storage order by time stays so. */
  lemma KeepsNewestLast(verb: string, body: Fields, now: string, reports: seq<ReportRow>, insert: Insertion)
    requires forall r :: r in reports ==> LexLe(r.createdAt, now)
    ensures var out := Handle(verb, body, now, reports, insert);
      forall r :: r in out.1 ==> LexLe(r.createdAt, now)
    ensures var out := Handle(verb, body, now, reports, insert);
      out.1 != reports ==>
        out.1[|out.1| - 1].createdAt == now &&
        forall r :: r in out.1 ==> LexLe(r.createdAt, out.1[|out.1| - 1].createdAt)
    ensures OldestFirst(reports) ==> OldestFirst(Handle(verb, body, now, reports, insert).1)
  {
    LexLeRefl(now);
    var out := Handle(verb, body, now, reports, insert);
    if out.1 != reports && OldestFirst(reports) {
      forall i | 0 <= i < |out.1| - 1 ensures LexLe(out.1[i].createdAt, out.1[i + 1].createdAt) {
        if i < |reports| - 1 {
          assert out.1[i] == reports[i] && out.1[i + 1] == reports[i + 1];
        } else {
          assert out.1[i] in reports;
        }
      }
    }
  }

  lemma {:induction false} LexLeRefl(a: string)
    ensures LexLe(a, a)
    decreases |a|
  {
    if a != [] { LexLeRefl(a[1..]); }
  }
}
