/** `POST /api/admin/create-user` (pages/api/admin/create-user.ts): an administrator
    creates an account. The route is a chain of early returns; when every check passes it
    appends one row to the `users` table and answers with that row minus its hash. */
module CreateUser {
  import opened Common
  import opened Users

  /** The JSON body fields the route destructures (`None`: absent or null). */
  datatype Fields = Fields(email: Option<string>, name: Option<string>, password: Option<string>, role: Option<string>)

  datatype Request = Request(verb: string, authorization: Option<string>, body: Fields)

  /** The store's side of one request: whether the duplicate-email query fails, and what
      the insert does. `passwordHash` is what `bcrypt.hash(password, 10)` produced. */
  datatype Backend = Backend(lookupFails: bool, passwordHash: string, insert: Insertion)

  // ----- The email format /^[^\s@]+@[^\s@]+\.[^\s@]+$/ -----

  predicate Plain(c: char) {
    !IsWhitespace(c) && c != '@'
  }

  predicate AllPlain(s: string) {
    forall k :: 0 <= k < |s| ==> Plain(s[k])
  }

  /** The language of the pattern, read off the regular expression: a non-empty run of
      plain characters, `@`, a non-empty run, a literal `.`, and a non-empty run, where a
      plain character is neither whitespace nor `@`. */
  ghost predicate MatchesEmailPattern(s: string) {
    exists i, j :: 0 < i && i + 1 < j && j + 1 < |s| && s[i] == '@' && s[j] == '.' &&
      AllPlain(s[..i]) && AllPlain(s[i + 1..j]) && AllPlain(s[j + 1..])
  }

  /** Position of the first `@` in `s`. */
  function IndexOfAt(s: string): (r: Option<nat>)
    ensures r.Some? ==> r.value < |s| && s[r.value] == '@' && '@' !in s[..r.value]
    ensures r.None? ==> '@' !in s
  {
    if s == [] then None
    else if s[0] == '@' then Some(0)
    else match IndexOfAt(s[1..])
      case None => None
      case Some(k) => assert s[..k + 1] == [s[0]] + s[1..][..k]; Some(k + 1)
  }

  /** The test `emailRegex.test(email)`: a local part before the first `@`, and a domain
      after it with a `.` that is neither its first nor its last character. */
  predicate EmailValid(email: string) {
    match IndexOfAt(email)
    case None => false
    case Some(i) =>
      var local, domain := email[..i], email[i + 1..];
      local != [] && AllPlain(local) && AllPlain(domain) &&
      |domain| >= 3 && '.' in domain[1..|domain| - 1]
  }

  lemma AllPlainSplit(s: string, k: nat)
    requires k <= |s|
    ensures AllPlain(s) <==> AllPlain(s[..k]) && AllPlain(s[k..])
  {
  }

  lemma EmailValidMatches(s: string)
    requires EmailValid(s)
    ensures MatchesEmailPattern(s)
  {
    var i := IndexOfAt(s).value;
    var d := s[i + 1..];
    var inner := d[1..|d| - 1];
    var m :| 0 <= m < |inner| && inner[m] == '.';
    var j := i + 2 + m;
    assert s[j] == '.';
    AllPlainSplit(d, j - i - 1);
    assert d[..j - i - 1] == s[i + 1..j];
    assert d[j - i - 1..] == s[j..];
    AllPlainSplit(s[j..], 1);
    assert s[j..][1..] == s[j + 1..];
  }

  lemma FirstAtIs(s: string, i: nat)
    requires i < |s| && s[i] == '@' && AllPlain(s[..i])
    ensures IndexOfAt(s) == Some(i)
  {
  }

  /** An address whose domain part has no `.` at all is refused. */
  lemma NoDotRefused(s: string, i: nat)
    requires i < |s| && s[i] == '@' && AllPlain(s[..i]) && '.' !in s[i + 1..]
    ensures !EmailValid(s)
  {
  }

  lemma AllPlainConcat(a: string, b: string)
    ensures AllPlain(a + b) <==> AllPlain(a) && AllPlain(b)
  {
    AllPlainSplit(a + b, |a|);
    assert (a + b)[..|a|] == a && (a + b)[|a|..] == b;
  }

  lemma DomainPlain(s: string, i: nat, j: nat)
    requires i < j < |s| && s[j] == '.' && AllPlain(s[i + 1..j]) && AllPlain(s[j + 1..])
    ensures AllPlain(s[i + 1..])
  {
    assert s[i + 1..] == s[i + 1..j] + ([s[j]] + s[j + 1..]);
    VisibleAsciiNotWhitespace('.');
    assert AllPlain([s[j]]);
    AllPlainConcat([s[j]], s[j + 1..]);
    AllPlainConcat(s[i + 1..j], [s[j]] + s[j + 1..]);
  }

  lemma MatchesEmailValid(s: string)
    requires MatchesEmailPattern(s)
    ensures EmailValid(s)
  {
    var i, j :| 0 < i && i + 1 < j && j + 1 < |s| && s[i] == '@' && s[j] == '.' &&
      AllPlain(s[..i]) && AllPlain(s[i + 1..j]) && AllPlain(s[j + 1..]);
    DomainPlain(s, i, j);
    EmailValidAt(s, i, j);
  }

  /** A first `@` after a non-empty plain local part, and a plain domain with a `.` strictly
      inside it, make an address the test accepts. */
  lemma EmailValidAt(s: string, i: nat, j: nat)
    requires 0 < i && i + 1 < j && j + 1 < |s| && s[i] == '@' && s[j] == '.'
    requires AllPlain(s[..i]) && AllPlain(s[i + 1..])
    ensures EmailValid(s)
  {
    FirstAtIs(s, i);
    var d := s[i + 1..];
    assert d[1..|d| - 1][j - i - 2] == '.';
  }

  /** The executable test accepts exactly the strings the regular expression matches. */
  lemma EmailValidIffPattern(s: string)
    ensures EmailValid(s) <==> MatchesEmailPattern(s)
  {
    if EmailValid(s) { EmailValidMatches(s); }
    if MatchesEmailPattern(s) { MatchesEmailValid(s); }
  }

  /** An email the route accepts contains exactly one `@`. */
  lemma EmailValidHasOneAt(s: string)
    requires EmailValid(s)
    ensures multiset(s)['@'] == 1
  {
    var i := IndexOfAt(s).value;
    assert s == s[..i] + [s[i]] + s[i + 1..];
  }

  // ----- The route -----

  const FieldsRequired := "Tous les champs sont requis"
  const BadEmail := "Format d'email invalide"
  const ShortPassword := "Le mot de passe doit contenir au moins 8 caractères"
  const BadRole := "Rôle invalide"
  const EmailTaken := "Cet email est déjà utilisé"
  const InsertError := "Erreur lors de la création de l'utilisateur"

  /** The route: its answer and the `users` table afterwards. */
  function Handle(req: Request, jwtSecret: Option<string>, verify: Verifier, backend: Backend, users: seq<UserRow>)
    : (out: (Response<UserSummary>, seq<UserRow>))
    ensures req.verb != "POST" ==> out == (MethodNotAllowed(), users)
    ensures out.0.status == 200 <==> |out.1| == |users| + 1
    ensures out.0.status != 200 ==> out.1 == users
    ensures out.0.status == 200 ==>
      out.1[..|users|] == users && out.0.body == Data(Summary(out.1[|users|])) &&
      out.1[|users|].status == "active" && out.1[|users|].passwordHash == backend.passwordHash
  {
    if req.verb != "POST" then (MethodNotAllowed(), users)
    else match AdminGuard(req.authorization, jwtSecret, verify)
      case Refused(code, message) => (Response(code, Error(message)), users)
      case Admitted =>
        var b := req.body;
        if !Truthy(b.email) || !Truthy(b.name) || !Truthy(b.password) || !Truthy(b.role) then
          (Response(400, Error(FieldsRequired)), users)
        else if !EmailValid(b.email.value) then (Response(400, Error(BadEmail)), users)
        else if Utf16Length(b.password.value) < 8 then (Response(400, Error(ShortPassword)), users)
        else if b.role.value != "admin" && b.role.value != "user" then (Response(400, Error(BadRole)), users)
        else if backend.lookupFails then (Response(500, Error(ServerError)), users)
        else if FindByEmail(users, b.email.value).Some? then (Response(400, Error(EmailTaken)), users)
        else match backend.insert
          case InsertFails => (Response(500, Error(InsertError)), users)
          case InsertedAs(id, createdAt) =>
            var row := UserRow(id, b.email.value, b.name.value, backend.passwordHash, b.role.value, "active", createdAt);
            (Response(200, Data(Summary(row))), users + [row])
  }

  /** Every check passed: an admin bearer token, four non-empty fields, an accepted email,
      a password of at least eight UTF-16 units, a known role, a working store and an
      unused email. */
  predicate Acceptable(req: Request, jwtSecret: Option<string>, verify: Verifier, backend: Backend, users: seq<UserRow>) {
    var b := req.body;
    req.verb == "POST" && AdminGuard(req.authorization, jwtSecret, verify) == Admitted &&
    Truthy(b.email) && Truthy(b.name) && Truthy(b.password) && Truthy(b.role) &&
    EmailValid(b.email.value) && Utf16Length(b.password.value) >= 8 &&
    b.role.value in {"admin", "user"} && !backend.lookupFails &&
    (forall u :: u in users ==> u.email != b.email.value)
  }

  /** A user is created exactly when every check passes and the insert succeeds; the row
      holds the submitted email, name and role, the hash, status `active`, and the id and
      timestamp the store assigned, and the answer is that row without its hash. */
  lemma CreatedIff(req: Request, jwtSecret: Option<string>, verify: Verifier, backend: Backend, users: seq<UserRow>)
    ensures var out := Handle(req, jwtSecret, verify, backend, users);
      out.0.status == 200 <==> Acceptable(req, jwtSecret, verify, backend, users) && backend.insert.InsertedAs?
    ensures var out := Handle(req, jwtSecret, verify, backend, users);
      out.0.status == 200 ==>
        var b, ins := req.body, backend.insert;
        var row := UserRow(ins.id, b.email.value, b.name.value, backend.passwordHash, b.role.value, "active", ins.createdAt);
        out == (Response(200, Data(Summary(row))), users + [row])
  {
  }

  /** A request whose email is already registered is refused with 400 (or 500 when the
      lookup itself fails, or earlier when an earlier check fails) and changes nothing. */
  lemma DuplicateEmailRejected(req: Request, jwtSecret: Option<string>, verify: Verifier, backend: Backend, users: seq<UserRow>)
    requires Truthy(req.body.email) && exists u :: u in users && u.email == req.body.email.value
    ensures var out := Handle(req, jwtSecret, verify, backend, users);
      out.1 == users && out.0.status != 200
    ensures var out := Handle(req, jwtSecret, verify, backend, users);
      req.verb == "POST" && AdminGuard(req.authorization, jwtSecret, verify) == Admitted &&
      Truthy(req.body.name) && Truthy(req.body.password) && Truthy(req.body.role) &&
      EmailValid(req.body.email.value) && Utf16Length(req.body.password.value) >= 8 &&
      req.body.role.value in {"admin", "user"} && !backend.lookupFails ==>
        out.0 == Response(400, Error(EmailTaken))
  {
  }

  /** The order of the checks after the guard: a missing field is reported before the
      email format, the format before the password length, the length before the role,
      and all of them before the store is consulted. */
  lemma ValidationOrder(req: Request, jwtSecret: Option<string>, verify: Verifier, backend: Backend, users: seq<UserRow>,
                        other: Backend, otherUsers: seq<UserRow>)
    requires req.verb == "POST" && AdminGuard(req.authorization, jwtSecret, verify) == Admitted
    ensures var b := req.body;
      !Truthy(b.email) || !Truthy(b.name) || !Truthy(b.password) || !Truthy(b.role) ==>
        Handle(req, jwtSecret, verify, backend, users).0 == Response(400, Error(FieldsRequired))
    ensures var b := req.body;
      Truthy(b.email) && Truthy(b.name) && Truthy(b.password) && Truthy(b.role) ==>
        (!EmailValid(b.email.value) ==> Handle(req, jwtSecret, verify, backend, users).0 == Response(400, Error(BadEmail))) &&
        (EmailValid(b.email.value) && Utf16Length(b.password.value) < 8 ==>
          Handle(req, jwtSecret, verify, backend, users).0 == Response(400, Error(ShortPassword))) &&
        (EmailValid(b.email.value) && Utf16Length(b.password.value) >= 8 && b.role.value !in {"admin", "user"} ==>
          Handle(req, jwtSecret, verify, backend, users).0 == Response(400, Error(BadRole)))
    ensures var b := req.body;
      !(Truthy(b.email) && Truthy(b.name) && Truthy(b.password) && Truthy(b.role) &&
        EmailValid(b.email.value) && Utf16Length(b.password.value) >= 8 && b.role.value in {"admin", "user"}) ==>
        Handle(req, jwtSecret, verify, backend, users).0 == Handle(req, jwtSecret, verify, other, otherUsers).0
  {
  }

  /** The answer never depends on the password hash: it reveals nothing of `password_hash`. */
  lemma AnswerHidesHash(req: Request, jwtSecret: Option<string>, verify: Verifier, backend: Backend, users: seq<UserRow>, otherHash: string)
    ensures Handle(req, jwtSecret, verify, backend, users).0 ==
            Handle(req, jwtSecret, verify, backend.(passwordHash := otherHash), users).0
  {
  }

  /** Emails are unique in the table. */
  predicate UniqueEmails(users: seq<UserRow>) {
    forall i, j :: 0 <= i < j < |users| ==> users[i].email != users[j].email
  }

  /** The route keeps emails unique, and every email it stores contains exactly one `@`. */
  lemma {:induction false} KeepsEmailsUnique(req: Request, jwtSecret: Option<string>, verify: Verifier, backend: Backend, users: seq<UserRow>)
    requires UniqueEmails(users)
    ensures var out := Handle(req, jwtSecret, verify, backend, users);
      UniqueEmails(out.1) && (out.0.status == 200 ==> multiset(out.1[|users|].email)['@'] == 1)
  {
    var out := Handle(req, jwtSecret, verify, backend, users);
    if out.0.status == 200 {
      CreatedIff(req, jwtSecret, verify, backend, users);
      var e := req.body.email.value;
      assert out.1[|users|].email == e;
      forall i, j | 0 <= i < j < |out.1| ensures out.1[i].email != out.1[j].email {
        if j == |users| {
          assert out.1[i] == users[i];
          assert users[i] in users;
        } else {
          assert out.1[i] == users[i] && out.1[j] == users[j];
        }
      }
      EmailValidHasOneAt(e);
    }
  }
}
