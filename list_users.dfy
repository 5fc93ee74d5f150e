/** `GET /api/admin/list-users` (pages/api/admin/list-users.ts): an administrator lists
    every account, newest first, without password hashes. */
module ListUsers {
  import opened Common
  import opened Users

  /** The six public columns of each selected row, in the store's order. */
  function Summaries(rows: seq<UserRow>): (r: seq<UserSummary>)
    ensures |r| == |rows|
    ensures forall i :: 0 <= i < |rows| ==> r[i] == Summary(rows[i])
  {
    if rows == [] then [] else [Summary(rows[0])] + Summaries(rows[1..])
  }

  /** The route. `selected` is what `select('id, email, name, role, status, created_at')`
      ordered by descending `created_at` returns. */
  function Handle(verb: string, authorization: Option<string>, jwtSecret: Option<string>, verify: Verifier,
                  selected: Query<UserRow>): (r: Response<seq<UserSummary>>)
    ensures verb != "GET" ==> r == MethodNotAllowed()
  {
    if verb != "GET" then MethodNotAllowed()
    else match AdminGuard(authorization, jwtSecret, verify)
      case Refused(code, message) => Response(code, Error(message))
      case Admitted =>
        match selected
        case QueryFails(_) => Response(500, Error(ServerError))
        case Rows(rows) => Response(200, Data(Summaries(rows)))
  }

  predicate NewestFirst(users: seq<UserSummary>) {
    forall i :: 0 <= i < |users| - 1 ==> LexLe(users[i + 1].createdAt, users[i].createdAt)
  }

  /** A GET is answered by the guard's refusal, with 500 when the guard admits it but the
      query fails, and otherwise with 200 and one summary per selected row, in the same
      order (so newest first, as the store sorts them). */
  lemma Outcomes(authorization: Option<string>, jwtSecret: Option<string>, verify: Verifier, selected: Query<UserRow>)
    ensures var r := Handle("GET", authorization, jwtSecret, verify, selected);
      match AdminGuard(authorization, jwtSecret, verify)
      case Refused(code, message) => r == Response(code, Error(message)) && code in {401, 403, 500}
      case Admitted =>
        match selected
        case QueryFails(_) => r == Response(500, Error(ServerError))
        case Rows(rows) =>
          r.status == 200 && r.body.Data? && |r.body.value| == |rows| &&
          (forall i :: 0 <= i < |rows| ==> r.body.value[i] == Summary(rows[i])) &&
          ((forall i :: 0 <= i < |rows| - 1 ==> LexLe(rows[i + 1].createdAt, rows[i].createdAt)) ==> NewestFirst(r.body.value))
  {
    GuardCodes(authorization, jwtSecret, verify);
    if AdminGuard(authorization, jwtSecret, verify) == Admitted && selected.Rows? {
      var rows := selected.rows;
      var sums := Summaries(rows);
      if forall i :: 0 <= i < |rows| - 1 ==> LexLe(rows[i + 1].createdAt, rows[i].createdAt) {
        forall i | 0 <= i < |sums| - 1 ensures LexLe(sums[i + 1].createdAt, sums[i].createdAt) {
          assert sums[i].createdAt == rows[i].createdAt && sums[i + 1].createdAt == rows[i + 1].createdAt;
        }
      }
    }
  }

  /** The answer never depends on password hashes. */
  lemma AnswerHidesHashes(verb: string, authorization: Option<string>, jwtSecret: Option<string>, verify: Verifier,
                          rows: seq<UserRow>, others: seq<UserRow>)
    requires |others| == |rows|
    requires forall i :: 0 <= i < |rows| ==> SameButHash(rows[i], others[i])
    ensures Handle(verb, authorization, jwtSecret, verify, Rows(rows)) ==
            Handle(verb, authorization, jwtSecret, verify, Rows(others))
  {
    var a, b := Summaries(rows), Summaries(others);
    forall i | 0 <= i < |rows| ensures a[i] == b[i] {
      SummaryHidesOnlyHash(rows[i], others[i]);
    }
    assert a == b;
  }
}
