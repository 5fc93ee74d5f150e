/** `POST /api/auth/login` (pages/api/auth/login.ts): checks an email and password against
    the `users` table and, for an active account with the right password, issues a signed
    token valid for 24 hours. The route only reads the table. */
module Login {
  import opened Common
  import opened Users

  /** The JSON body fields the route destructures. */
  datatype Credentials = Credentials(email: Option<string>, password: Option<string>)

  /** The claims `jwt.sign` receives. */
  datatype Claims = Claims(userId: string, email: string, name: string, role: string)

  /** A signed token, described by what was signed: the claims, the secret and the expiry.
      The signature bytes themselves are the library's business. */
  datatype Token = Token(claims: Claims, secret: string, expiresIn: string)

  /** The user in a successful answer: four columns, no `password_hash`, no `status`. */
  datatype SessionUser = SessionUser(id: string, email: string, name: string, role: string)

  datatype Granted = Granted(token: Token, user: SessionUser)

  /** `bcrypt.compare(password, hash)`. */
  type Comparer = (string, string) -> bool

  const CredentialsRequired := "Email et mot de passe requis"
  const BadCredentials := "Email ou mot de passe incorrect"
  const Inactive := "Compte inactif"
  const MissingSecret := "Configuration serveur manquante"
  const Lifetime := "24h"

  /** The route's answer. `lookupFails` says whether the store's query fails. */
  function Handle(verb: string, body: Credentials, users: seq<UserRow>, lookupFails: bool,
                  compare: Comparer, jwtSecret: Option<string>): (r: Response<Granted>)
    ensures verb != "POST" ==> r == MethodNotAllowed()
    ensures verb == "POST" && (!Truthy(body.email) || !Truthy(body.password)) ==>
      r == Response(400, Error(CredentialsRequired))
    ensures r.status in {200, 400, 401, 405, 500}
  {
    if verb != "POST" then MethodNotAllowed()
    else if !Truthy(body.email) || !Truthy(body.password) then Response(400, Error(CredentialsRequired))
    else if lookupFails then Response(500, Error(ServerError))
    else match FindByEmail(users, body.email.value)
      case None => Response(401, Error(BadCredentials))
      case Some(user) =>
        if user.status != "active" then Response(401, Error(Inactive))
        else if !compare(body.password.value, user.passwordHash) then Response(401, Error(BadCredentials))
        else if !Truthy(jwtSecret) then Response(500, Error(MissingSecret))
        else
          var claims := Claims(user.id, user.email, user.name, user.role);
          Response(200, Data(Granted(Token(claims, jwtSecret.value, Lifetime),
                                     SessionUser(user.id, user.email, user.name, user.role))))
  }

  /** A token is issued exactly for a POST with both fields, a working store, a registered
      active account whose hash matches the password, and a configured secret; its claims
      and the user in the answer are that account's id, email, name and role, and it expires
      after 24 hours. */
  lemma GrantedIff(verb: string, body: Credentials, users: seq<UserRow>, lookupFails: bool,
                   compare: Comparer, jwtSecret: Option<string>)
    ensures var r := Handle(verb, body, users, lookupFails, compare, jwtSecret);
      r.status == 200 <==>
        verb == "POST" && Truthy(body.email) && Truthy(body.password) && !lookupFails &&
        Truthy(jwtSecret) &&
        exists u :: u in users && u.email == body.email.value &&
          FindByEmail(users, u.email) == Some(u) && u.status == "active" &&
          compare(body.password.value, u.passwordHash)
    ensures var r := Handle(verb, body, users, lookupFails, compare, jwtSecret);
      r.status == 200 ==>
        var u := FindByEmail(users, body.email.value).value;
        u in users && u.email == body.email.value &&
        r.body == Data(Granted(Token(Claims(u.id, u.email, u.name, u.role), jwtSecret.value, "24h"),
                               SessionUser(u.id, u.email, u.name, u.role)))
  {
    var r := Handle(verb, body, users, lookupFails, compare, jwtSecret);
    if r.status == 200 {
      var u := FindByEmail(users, body.email.value).value;
      assert u in users && u.email == body.email.value;
    }
  }

  /** An unknown email and a wrong password get the same answer, so the reply does not
      reveal which accounts exist. */
  lemma UnknownAndWrongPasswordAlike(body: Credentials, users: seq<UserRow>, compare: Comparer, jwtSecret: Option<string>,
                                     known: seq<UserRow>, otherCompare: Comparer, otherSecret: Option<string>)
    requires Truthy(body.email) && Truthy(body.password)
    requires forall u :: u in users ==> u.email != body.email.value
    requires FindByEmail(known, body.email.value).Some?
    requires var u := FindByEmail(known, body.email.value).value;
      u.status == "active" && !otherCompare(body.password.value, u.passwordHash)
    ensures Handle("POST", body, users, false, compare, jwtSecret) ==
            Handle("POST", body, known, false, otherCompare, otherSecret) ==
            Response(401, Error(BadCredentials))
  {
  }

  /** An inactive account is turned away before the password is compared: the answer is
      the same whatever the comparison would say, and whatever the secret. */
  lemma InactiveBeforePassword(body: Credentials, users: seq<UserRow>, compare: Comparer, jwtSecret: Option<string>,
                               otherCompare: Comparer, otherSecret: Option<string>)
    requires Truthy(body.email) && Truthy(body.password)
    requires FindByEmail(users, body.email.value).Some?
    requires FindByEmail(users, body.email.value).value.status != "active"
    ensures Handle("POST", body, users, false, compare, jwtSecret) ==
            Handle("POST", body, users, false, otherCompare, otherSecret) ==
            Response(401, Error(Inactive))
  {
  }

  /** The secret is looked at only once the password is right: a missing secret is
      reported (500, "Configuration serveur manquante") exactly to correct credentials of an
      active account, and wrong credentials get the same answer with or without a secret. */
  lemma SecretCheckedLast(verb: string, body: Credentials, users: seq<UserRow>, lookupFails: bool,
                          compare: Comparer, jwtSecret: Option<string>, otherSecret: Option<string>)
    ensures Handle(verb, body, users, lookupFails, compare, jwtSecret) == Response(500, Error(MissingSecret)) <==>
      verb == "POST" && Truthy(body.email) && Truthy(body.password) && !lookupFails && !Truthy(jwtSecret) &&
      var found := FindByEmail(users, body.email.value);
      found.Some? && found.value.status == "active" && compare(body.password.value, found.value.passwordHash)
    ensures !(verb == "POST" && Truthy(body.email) && Truthy(body.password) && !lookupFails &&
              var found := FindByEmail(users, body.email.value);
              found.Some? && found.value.status == "active" && compare(body.password.value, found.value.passwordHash)) ==>
      Handle(verb, body, users, lookupFails, compare, jwtSecret) ==
        Handle(verb, body, users, lookupFails, compare, otherSecret)
  {
  }

  /** The answer depends on the stored hash only through the password comparison. */
  lemma AnswerHidesHash(verb: string, body: Credentials, users: seq<UserRow>, lookupFails: bool,
                        compare: Comparer, jwtSecret: Option<string>, others: seq<UserRow>, otherCompare: Comparer)
    requires |others| == |users|
    requires forall i :: 0 <= i < |users| ==> SameButHash(users[i], others[i])
    requires forall i :: 0 <= i < |users| ==>
      forall p :: compare(p, users[i].passwordHash) == otherCompare(p, others[i].passwordHash)
    ensures Handle(verb, body, users, lookupFails, compare, jwtSecret) ==
            Handle(verb, body, others, lookupFails, otherCompare, jwtSecret)
  {
    if verb == "POST" && Truthy(body.email) && Truthy(body.password) && !lookupFails {
      FindByEmailHashBlind(users, others, body.email.value);
    }
  }

  /** The lookup finds corresponding rows in two tables that differ only in hashes. */
  lemma {:induction false} FindByEmailHashBlind(users: seq<UserRow>, others: seq<UserRow>, email: string)
    requires |others| == |users|
    requires forall i :: 0 <= i < |users| ==> SameButHash(users[i], others[i])
    ensures FindByEmail(users, email).None? <==> FindByEmail(others, email).None?
    ensures FindByEmail(users, email).Some? ==>
      exists i :: 0 <= i < |users| && FindByEmail(users, email) == Some(users[i]) &&
                  FindByEmail(others, email) == Some(others[i])
  {
    if users != [] {
      assert SameButHash(users[0], others[0]);
      if users[0].email != email {
        FindByEmailHashBlind(users[1..], others[1..], email);
        if FindByEmail(users, email).Some? {
          var i :| 0 <= i < |users[1..]| && FindByEmail(users[1..], email) == Some(users[1..][i]) &&
                   FindByEmail(others[1..], email) == Some(others[1..][i]);
          assert FindByEmail(users, email) == Some(users[i + 1]);
        }
      } else {
        assert FindByEmail(users, email) == Some(users[0]);
      }
    }
  }
}
