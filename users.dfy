/** The `users` table as the API routes see it, the columns they may reveal, and the
    bearer-token guard that `pages/api/admin/create-user.ts` and
    `pages/api/admin/list-users.ts` both run before doing anything else. */
module Users {
  import opened Common

  /** One row of the `users` table. */
  datatype UserRow = UserRow(
    id: string, email: string, name: string, passwordHash: string,
    role: string, status: string, createdAt: string)

  /** The six columns an admin route returns about a user: every column but `password_hash`. */
  datatype UserSummary = UserSummary(
    id: string, email: string, name: string, role: string, status: string, createdAt: string)

  function Summary(u: UserRow): UserSummary {
    UserSummary(u.id, u.email, u.name, u.role, u.status, u.createdAt)
  }

  /** Two rows that differ at most in their password hash. */
  predicate SameButHash(a: UserRow, b: UserRow) {
    a.(passwordHash := b.passwordHash) == b
  }

  /** A summary depends on every column of the row except the password hash: it tells
      rows apart exactly when they differ somewhere other than `password_hash`. */
  lemma SummaryHidesOnlyHash(a: UserRow, b: UserRow)
    ensures Summary(a) == Summary(b) <==> SameButHash(a, b)
  {
  }

  /** What the store does with a route's insert into `users`: it fails, or it stores the
      row and assigns it an `id` and a `created_at`. */
  datatype Insertion = InsertFails | InsertedAs(id: string, createdAt: string)

  /** The message the user routes answer with when a store query fails. */
  const ServerError := "Erreur serveur"

  /** What `jwt.verify` yields for a well-signed, unexpired token: its decoded claims,
      of which the guard reads `role` (absent when the token carries none). */
  datatype Decoded = Decoded(role: Option<string>)

  /** `jwt.verify(token, secret)`: the claims, or `None` where the library throws. */
  type Verifier = (string, string) -> Option<Decoded>

  const BearerPrefix: string := "Bearer "

  /** The guard's verdict: the request may go on, or it is answered with `status`. */
  datatype Guard = Admitted | Refused(status: int, message: string)

  /** The checks at the top of the two admin routes, in their order: a header of the form
      `Bearer <token>`, a configured `JWT_SECRET`, a token the secret verifies, and the
      `admin` role in its claims. */
  function AdminGuard(authorization: Option<string>, jwtSecret: Option<string>, verify: Verifier): Guard {
    if !Truthy(authorization) || !(BearerPrefix <= authorization.value) then
      Refused(401, "Non authentifié")
    else if !Truthy(jwtSecret) then
      Refused(500, "Configuration serveur manquante")
    else
      var token := authorization.value[|BearerPrefix|..];
      match verify(token, jwtSecret.value)
      case None => Refused(401, "Token invalide")
      case Some(claims) =>
        if claims.role != Some("admin") then Refused(403, "Accès refusé") else Admitted
  }

  /** A request is admitted exactly when it carries `Bearer ` followed by a token that the
      configured secret verifies and whose claims give the role `admin`. */
  lemma AdmittedIff(authorization: Option<string>, jwtSecret: Option<string>, verify: Verifier)
    ensures AdminGuard(authorization, jwtSecret, verify) == Admitted <==>
      exists token :: authorization == Some(BearerPrefix + token) &&
        Truthy(jwtSecret) && verify(token, jwtSecret.value) == Some(Decoded(Some("admin")))
  {
    if AdminGuard(authorization, jwtSecret, verify) == Admitted {
      var h := authorization.value;
      var token := h[|BearerPrefix|..];
      assert h == BearerPrefix + token;
    }
    if exists token :: authorization == Some(BearerPrefix + token) &&
         Truthy(jwtSecret) && verify(token, jwtSecret.value) == Some(Decoded(Some("admin"))) {
      var token :| authorization == Some(BearerPrefix + token) &&
        Truthy(jwtSecret) && verify(token, jwtSecret.value) == Some(Decoded(Some("admin")));
      assert BearerPrefix <= authorization.value;
      assert authorization.value[|BearerPrefix|..] == token;
    }
  }

  /** The order of the checks: a request without a bearer header is refused with 401
      whatever the secret and the verifier; a missing secret is reported (500) only to
      bearer requests and before the token is looked at. */
  lemma GuardOrder(authorization: Option<string>, jwtSecret: Option<string>, verify: Verifier,
                   otherSecret: Option<string>, otherVerify: Verifier)
    ensures !Truthy(authorization) || !(BearerPrefix <= authorization.value) ==>
      AdminGuard(authorization, jwtSecret, verify) == AdminGuard(authorization, otherSecret, otherVerify) &&
      AdminGuard(authorization, jwtSecret, verify).status == 401
    ensures AdminGuard(authorization, jwtSecret, verify).Refused? &&
            AdminGuard(authorization, jwtSecret, verify).status == 500 <==>
      Truthy(authorization) && BearerPrefix <= authorization.value && !Truthy(jwtSecret)
    ensures !Truthy(jwtSecret) ==>
      AdminGuard(authorization, jwtSecret, verify) == AdminGuard(authorization, jwtSecret, otherVerify)
  {
  }

  /** Refusals carry one of four codes: 401 (no bearer header, or a token that does not
      verify), 500 (no secret) or 403 (a verified token without the admin role). */
  lemma GuardCodes(authorization: Option<string>, jwtSecret: Option<string>, verify: Verifier)
    ensures AdminGuard(authorization, jwtSecret, verify).Refused? ==>
      AdminGuard(authorization, jwtSecret, verify).status in {401, 403, 500}
    ensures AdminGuard(authorization, jwtSecret, verify) == Refused(403, "Accès refusé") <==>
      Truthy(authorization) && BearerPrefix <= authorization.value && Truthy(jwtSecret) &&
      var v := verify(authorization.value[|BearerPrefix|..], jwtSecret.value);
      v.Some? && v.value.role != Some("admin")
  {
  }

  /** The first row with the given email, as `.eq('email', email).limit(1)` returns it. */
  function FindByEmail(users: seq<UserRow>, email: string): (r: Option<UserRow>)
    ensures r.Some? ==> r.value in users && r.value.email == email
    ensures r.None? <==> forall u :: u in users ==> u.email != email
  {
    if users == [] then None
    else if users[0].email == email then Some(users[0])
    else FindByEmail(users[1..], email)
  }

  /** Number of rows whose role is `admin`. */
  function AdminCount(users: seq<UserRow>): nat {
    if users == [] then 0 else (if users[0].role == "admin" then 1 else 0) + AdminCount(users[1..])
  }

  lemma {:induction false} AdminCountAppend(users: seq<UserRow>, u: UserRow)
    ensures AdminCount(users + [u]) == AdminCount(users) + (if u.role == "admin" then 1 else 0)
  {
    if users != [] {
      assert (users + [u])[1..] == users[1..] + [u];
      AdminCountAppend(users[1..], u);
    }
  }

  lemma {:induction false} AdminCountPositive(users: seq<UserRow>)
    ensures AdminCount(users) > 0 <==> exists u :: u in users && u.role == "admin"
  {
    if users != [] {
      AdminCountPositive(users[1..]);
      assert forall u :: u in users <==> u == users[0] || u in users[1..];
    }
  }
}
