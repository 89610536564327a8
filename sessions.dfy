/** The session across the two ends of the backend: the token `loginUser`
    issues and what `authGuard` makes of it when it comes back in an
    `Authorization` header. Login signs the primary key under `id`; the guard
    looks the row up by `user_id`. */
module Sessions {
  import opened Wrappers
  import opened Text
  import opened Schema
  import opened Tokens
  import opened Guards
  import AC = AuthController

  /** A request carrying only `Authorization: Bearer <token>`. */
  function BearerRequest(token: string): (req: Request)
    ensures req.authorization == Some(BearerPrefix + token) && req.user.None?
    ensures req.upload.None? && req.file.None?
  {
    Request(Some(BearerPrefix + token), None, None, None)
  }

  /** The claims of a login token never name a row for the guard: they carry
      `id`, `role`, `email`, `iat` and `exp`, and no `user_id`. */
  lemma SessionPayloadNamesNoRow(u: User, iat: int, exp: int)
    ensures ClaimedUserId(SignedPayload(SessionClaims(u), iat, exp)).None?
  {
    assert "user_id" !in SignedPayload(SessionClaims(u), iat, exp).Keys;
  }

  /** A token from a successful login is never admitted by the guard: when it
      verifies, with the secret the guard uses, to what login signed, the guard
      answers 401 "User not found"; otherwise 401 "Invalid or expired token".
      Every guarded route is closed to every logged-in user. */
  lemma LoginTokenNeverAdmitted(users: map<nat, User>, body: AC.LoginBody, compare: (string, string) -> bool,
                                jwtSecret: Option<string>, sign: SignRequest -> string,
                                verify: (string, string) -> Option<Claims>, iat: int, exp: int)
    requires UniqueEmails(users)
    requires AC.Login(users, body, compare, jwtSecret, sign).Ok?
    requires var token := AC.Login(users, body, compare, jwtSecret, sign).value;
             ' ' !in token
             && forall u :: u in users.Values && token == sign(AC.SessionRequest(u, jwtSecret.value))
                  ==> verify(token, GuardSecret(jwtSecret)) in {None, Some(SignedPayload(SessionClaims(u), iat, exp))}
    ensures var token := AC.Login(users, body, compare, jwtSecret, sign).value;
            var o := AuthGuard(BearerRequest(token), users, jwtSecret, verify);
            o.Halt? && o.status == 401
            && (Verify(verify, token, GuardSecret(jwtSecret)).Some? ==> o.message == MsgUserNotFound)
            && (Verify(verify, token, GuardSecret(jwtSecret)).None? ==> o.message == MsgInvalidToken)
  {
    var token := AC.Login(users, body, compare, jwtSecret, sign).value;
    var id :| id in users && users[id].email == body.email.value
              && token == sign(AC.SessionRequest(users[id], jwtSecret.value));
    assert users[id] in users.Values;
    var req := BearerRequest(token);
    assert StartsWith(req.authorization.value, BearerPrefix);
    BearerTokenOf(token, None);
    assert req.authorization.value == BearerPrefix + token + "";
    var p := Verify(verify, token, GuardSecret(jwtSecret));
    if p.Some? {
      SessionPayloadNamesNoRow(users[id], iat, exp);
    }
  }

  /** Registration and login fit together: once a registration has been stored,
      logging in with the same email and password succeeds, provided the
      password check accepts what the hash made and a signing secret is set. */
  lemma RegisteredUserCanLogIn(users: map<nat, User>, nextId: nat, rb: AC.RegisterBody,
                               hash: string -> string, isEmail: string -> bool,
                               compare: (string, string) -> bool, jwtSecret: Option<string>,
                               sign: SignRequest -> string)
    requires UsersValid(users, nextId) && 0 < nextId
    requires AC.Register(users, rb, hash, isEmail).Ok?
    requires forall p :: compare(p, hash(p))
    requires Truthy(jwtSecret)
    ensures var d := AC.Register(users, rb, hash, isEmail).value;
            var users' := users[nextId := NewUserRow(nextId, d.username, d.email, d.passwordHash,
                                                      d.address, d.phoneNumber, d.role)];
            UniqueEmails(users')
            && AC.Login(users', AC.LoginBody(rb.email, rb.password), compare, jwtSecret, sign)
               == Ok(200, sign(AC.SessionRequest(users'[nextId], jwtSecret.value)))
  {
    var d := AC.Register(users, rb, hash, isEmail).value;
    var row := NewUserRow(nextId, d.username, d.email, d.passwordHash, d.address, d.phoneNumber, d.role);
    var users' := users[nextId := row];
    InsertUserKeepsValid(users, nextId, row);
    assert users'[nextId].email == rb.email.value;
    assert EmailTaken(users', rb.email.value);
    assert AC.UserIdByEmail(users', rb.email.value) == nextId;
  }
}
