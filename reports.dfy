/** The `reports` table: one row per status event filed against a unit, and the
    newest-first order in which the store returns them. */
module Reports {
  import opened Common

  /** One row of `reports`. The text columns other than `unit_id` and `status` may hold
      null (`None`); `id` and `created_at` are assigned when the row is stored. */
  datatype ReportRow = ReportRow(
    id: string, unitId: string, status: string, emoji: Option<string>,
    description: Option<string>, rawMessage: Option<string>, createdAt: string)

  /** Rows in `order('created_at', { ascending: false })` order: each row is at least as
      recent as the next. */
  predicate NewestFirst(rows: seq<ReportRow>) {
    forall i :: 0 <= i < |rows| - 1 ==> LexLe(rows[i + 1].createdAt, rows[i].createdAt)
  }

  /** Dropping rows from the end (a query's `.limit`) keeps the order. */
  lemma NewestFirstTake(rows: seq<ReportRow>, n: nat)
    requires NewestFirst(rows)
    ensures NewestFirst(Take(rows, n))
  {
  }

  /** Putting a row in front of a newest-first list keeps it newest-first exactly when the
      row is at least as recent as the current first row. */
  lemma NewestFirstPrepend(row: ReportRow, rows: seq<ReportRow>)
    requires NewestFirst(rows)
    ensures NewestFirst([row] + rows) <==> rows == [] || LexLe(rows[0].createdAt, row.createdAt)
  {
    var s := [row] + rows;
    if rows == [] || LexLe(rows[0].createdAt, row.createdAt) {
      forall i | 0 <= i < |s| - 1 ensures LexLe(s[i + 1].createdAt, s[i].createdAt) {
        if i > 0 { assert s[i] == rows[i - 1] && s[i + 1] == rows[i]; }
      }
    } else {
      assert s[0] == row && s[1] == rows[0];
    }
  }
}
