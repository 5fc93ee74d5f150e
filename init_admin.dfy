/** `POST /api/auth/init-admin` (pages/api/auth/init-admin.ts): bootstraps the first
    administrator. If any account with role `admin` exists the route does nothing;
    otherwise it inserts one fixed administrator account. */
module InitAdmin {
  import opened Common
  import opened Users
  import CreateUser

  const AdminEmail := "johnym@kamoacopper"
  const AdminName := "Johnny M (Admin)"

  /** The bootstrap account the route inserts: `passwordHash` is the bcrypt hash of the
      built-in initial password, `id` and `createdAt` come from the store. */
  function AdminRow(passwordHash: string, id: string, createdAt: string): UserRow {
    UserRow(id, AdminEmail, AdminName, passwordHash, "admin", "active", createdAt)
  }

  /** The administrator in the success answer: id, email, name and role. */
  datatype AdminInfo = AdminInfo(id: string, email: string, name: string, role: string)

  /** The two successful answers: the bootstrap was already done, or it created `admin`. */
  datatype Outcome = AlreadyExists | Created(admin: AdminInfo)

  const InsertError := "Erreur lors de la création de l'admin"

  /** The route: its answer and the `users` table afterwards. `lookupFails` says whether
      the query for an existing administrator fails. */
  function Handle(verb: string, users: seq<UserRow>, lookupFails: bool, passwordHash: string, insert: Insertion)
    : (out: (Response<Outcome>, seq<UserRow>))
    ensures out.1 == users || (|out.1| == |users| + 1 && out.1[..|users|] == users && out.1[|users|].role == "admin")
    ensures |out.1| == |users| + 1 <==> out.0.body.Data? && out.0.body.value.Created?
  {
    if verb != "POST" then (MethodNotAllowed(), users)
    else if lookupFails then (Response(500, Error(ServerError)), users)
    else if exists u :: u in users && u.role == "admin" then (Response(200, Data(AlreadyExists)), users)
    else match insert
      case InsertFails => (Response(500, Error(InsertError)), users)
      case InsertedAs(id, createdAt) =>
        var row := AdminRow(passwordHash, id, createdAt);
        (Response(200, Data(Created(AdminInfo(row.id, row.email, row.name, row.role)))), users + [row])
  }

  /** The cases where the route changes nothing: a method other than POST (405), a failed
      query (500), an administrator already present (200 "Admin already exists"), and a
      failed insert (500). */
  lemma NoInsertCases(verb: string, users: seq<UserRow>, lookupFails: bool, passwordHash: string, insert: Insertion)
    ensures verb != "POST" ==> Handle(verb, users, lookupFails, passwordHash, insert) == (MethodNotAllowed(), users)
    ensures verb == "POST" && lookupFails ==>
      Handle(verb, users, lookupFails, passwordHash, insert) == (Response(500, Error(ServerError)), users)
    ensures verb == "POST" && !lookupFails && AdminCount(users) > 0 ==>
      Handle(verb, users, lookupFails, passwordHash, insert) == (Response(200, Data(AlreadyExists)), users)
    ensures verb == "POST" && !lookupFails && AdminCount(users) == 0 && insert == InsertFails ==>
      Handle(verb, users, lookupFails, passwordHash, insert) == (Response(500, Error(InsertError)), users)
  {
    AdminCountPositive(users);
  }

  /** An administrator is inserted exactly when the table has none, the query works and the
      insert succeeds; the new row is the bootstrap account, active and with role `admin`. */
  lemma InsertsIff(verb: string, users: seq<UserRow>, lookupFails: bool, passwordHash: string, insert: Insertion)
    ensures var out := Handle(verb, users, lookupFails, passwordHash, insert);
      out.1 != users <==> verb == "POST" && !lookupFails && AdminCount(users) == 0 && insert.InsertedAs?
    ensures var out := Handle(verb, users, lookupFails, passwordHash, insert);
      out.1 != users ==>
        out.1 == users + [AdminRow(passwordHash, insert.id, insert.createdAt)] &&
        out.0 == Response(200, Data(Created(AdminInfo(insert.id, AdminEmail, AdminName, "admin"))))
  {
    AdminCountPositive(users);
  }

  /** Bootstrapping is idempotent: after two calls in a row, on any table and whatever the
      store does each time, the table is unchanged or has gained the one bootstrap row; a
      table that already has an administrator is never changed. */
  lemma {:induction false} Idempotent(users: seq<UserRow>,
                                      verb1: string, lookupFails1: bool, hash1: string, insert1: Insertion,
                                      verb2: string, lookupFails2: bool, hash2: string, insert2: Insertion)
    ensures var t1 := Handle(verb1, users, lookupFails1, hash1, insert1).1;
            var t2 := Handle(verb2, t1, lookupFails2, hash2, insert2).1;
      (t2 == users || exists hash, id, createdAt :: t2 == users + [AdminRow(hash, id, createdAt)]) &&
      (AdminCount(users) > 0 ==> t2 == users) &&
      AdminCount(t2) <= (if AdminCount(users) == 0 then 1 else AdminCount(users))
  {
    var t1 := Handle(verb1, users, lookupFails1, hash1, insert1).1;
    var t2 := Handle(verb2, t1, lookupFails2, hash2, insert2).1;
    InsertsIff(verb1, users, lookupFails1, hash1, insert1);
    InsertsIff(verb2, t1, lookupFails2, hash2, insert2);
    if t1 != users {
      var row := AdminRow(hash1, insert1.id, insert1.createdAt);
      AdminCountAppend(users, row);
      assert t2 == t1;
    } else if t2 != t1 {
      var row := AdminRow(hash2, insert2.id, insert2.createdAt);
      AdminCountAppend(t1, row);
    }
  }

  /** The bootstrap email has no `.` after its `@`, so the create-user route's email check
      would refuse it: the initial administrator cannot be recreated through that route. */
  lemma AdminEmailFailsCreateUserFormat()
    ensures !CreateUser.EmailValid(AdminEmail)
  {
    assert '.' !in AdminEmail[7..] by {
      assert AdminEmail[7..] == "kamoacopper";
    }
    assert CreateUser.AllPlain(AdminEmail[..6]) by {
      var local := AdminEmail[..6];
      assert local == "johnym";
      forall k | 0 <= k < 6 ensures CreateUser.Plain(local[k]) {
        assert 'a' <= local[k] <= 'z';
        VisibleAsciiNotWhitespace(local[k]);
      }
    }
    CreateUser.NoDotRefused(AdminEmail, 6);
  }
}
