/** `GET /api/admin/reports` (pages/api/admin/reports.ts): lists reports for a caller that
    presents the configured `x-admin-key`. */
module AdminReports {
  import opened Common
  import opened Reports

  const Unauthorized := "Unauthorized: Invalid or missing x-admin-key header"
  const PageSize := 1000

  /** The route. `adminKey` is the `x-admin-key` header, `expectedKey` the `ADMIN_API_KEY`
      setting, and `selected` the store's rows in descending `created_at` order. */
  function Handle(verb: string, adminKey: Option<string>, expectedKey: Option<string>, selected: Query<ReportRow>)
    : (r: Response<seq<ReportRow>>)
    ensures verb != "GET" ==> r == MethodNotAllowed()
  {
    if verb != "GET" then MethodNotAllowed()
    else if !Truthy(adminKey) || adminKey != expectedKey then Response(401, Error(Unauthorized))
    else match selected
      case QueryFails(message) => Response(500, Error(message))
      case Rows(rows) => Response(200, Data(Take(rows, PageSize)))
  }

  /** A GET gets past the key check exactly when it carries a non-empty key equal to the
      configured one; in particular, while no key is configured every request is refused. */
  lemma KeyCheck(verb: string, adminKey: Option<string>, expectedKey: Option<string>, selected: Query<ReportRow>)
    requires verb == "GET"
    ensures Handle(verb, adminKey, expectedKey, selected).status != 401 <==>
      Truthy(adminKey) && expectedKey == adminKey
    ensures !Truthy(expectedKey) ==> Handle(verb, adminKey, expectedKey, selected) == Response(401, Error(Unauthorized))
  {
  }

  /** An admitted request gets at most 1000 rows, the first ones of the store's order, so
      newest first when the store's rows are; a failed query gives 500 with its message. */
  lemma Listing(adminKey: Option<string>, selected: Query<ReportRow>)
    requires Truthy(adminKey)
    ensures var r := Handle("GET", adminKey, adminKey, selected);
      match selected
      case QueryFails(message) => r == Response(500, Error(message))
      case Rows(rows) =>
        r.status == 200 && r.body.Data? && |r.body.value| <= 1000 && r.body.value <= rows &&
        (|rows| <= 1000 ==> r.body.value == rows) && (|rows| > 1000 ==> |r.body.value| == 1000) &&
        (NewestFirst(rows) ==> NewestFirst(r.body.value))
  {
    if selected.Rows? && NewestFirst(selected.rows) {
      NewestFirstTake(selected.rows, PageSize);
    }
  }
}
