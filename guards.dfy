/** The two request guards: `authGuard`, which turns a Bearer header into the
    caller's user row, and `isInstructor`, which lets only instructors through. */
module Guards {
  import opened Wrappers
  import opened Text
  import opened Schema
  import opened Tokens
  import opened Uploads

  /** The parts of an Express request the middleware chains read and write: the
      `Authorization` header, `req.user` set by the guard, the file part of a
      multipart body and `req.file.filename` set by the upload step. */
  datatype Request = Request(
    authorization: Option<string>,
    user: Option<User>,
    upload: Option<IncomingFile>,
    file: Option<string>)

  /** What one middleware does with a request: call `next` with it (possibly
      changed), or answer with a status and a message and stop the chain. */
  datatype Outcome = Next(req: Request) | Halt(status: int, message: string)

  const BearerPrefix := "Bearer "
  const MsgTokenMissing := "Authorization token missing"
  const MsgInvalidToken := "Invalid or expired token"
  const MsgUserNotFound := "User not found"
  const MsgInstructorsOnly := "Access denied: Instructors only"

  /** `authHeader && authHeader.startsWith("Bearer ")`: case-sensitive, one space. */
  predicate HasBearer(h: Option<string>) {
    Truthy(h) && StartsWith(h.value, BearerPrefix)
  }

  /** `authHeader.split(" ")[1]`: the run of non-space characters right after the
      prefix, up to the next space or the end. */
  function BearerToken(h: string): (t: string)
    requires StartsWith(h, BearerPrefix)
    ensures ' ' !in t
    ensures StartsWith(h, BearerPrefix + t)
    ensures |h| == |BearerPrefix| + |t| || h[|BearerPrefix| + |t|] == ' '
  {
    var rest := h[|BearerPrefix|..];
    assert h == "Bearer" + [' '] + rest;
    SplitFirstPiece("Bearer", ' ', rest);
    var p := Split(rest, ' ');
    assert |p| > 1 ==> rest == p[0] + [' '] + Join(p[1..], ' ');
    assert h[..|BearerPrefix| + |p[0]|] == BearerPrefix + p[0];
    Split(h, ' ')[1]
  }

  /** A header of the form "Bearer <token>" or "Bearer <token> <anything>" with a
      token free of spaces yields exactly that token. */
  lemma BearerTokenOf(t: string, rest: Option<string>)
    requires ' ' !in t
    ensures BearerToken(BearerPrefix + t + (if rest.Some? then " " + rest.value else "")) == t
  {
    var h := BearerPrefix + t + (if rest.Some? then " " + rest.value else "");
    var b := BearerToken(h);
    assert h[..|BearerPrefix|] == BearerPrefix;
    assert forall k :: 0 <= k < |t| ==> h[|BearerPrefix| + k] == t[k];
    assert |h| > |BearerPrefix| + |t| ==> h[|BearerPrefix| + |t|] == ' ';
    assert b == h[|BearerPrefix|..|BearerPrefix| + |b|];
  }

  /** The primary key `User.findByPk(decoded.user_id)` is asked for: only a
      non-negative number under `user_id` can name a row. */
  function ClaimedUserId(c: Claims): (id: Option<nat>)
    ensures id.Some? ==> "user_id" in c && c["user_id"] == Num(id.value)
    ensures id.None? ==> "user_id" !in c || c["user_id"].Str? || c["user_id"].n < 0
  {
    if "user_id" in c && c["user_id"].Num? && c["user_id"].n >= 0 then Some(c["user_id"].n as nat)
    else None
  }

  /** `authGuard` with `JWT_SECRET` in `jwtSecretEnv` and `verify` standing for the
      token check of `jwt.verify`. Every failure is 401; a token that verifies but
      names no row is told apart from one that does not verify. */
  function AuthGuard(req: Request, users: map<nat, User>, jwtSecretEnv: Option<string>,
                     verify: (string, string) -> Option<Claims>): (o: Outcome)
    ensures o == Halt(401, MsgTokenMissing) <==> !HasBearer(req.authorization)
    ensures o == Halt(401, MsgInvalidToken)
            <==> HasBearer(req.authorization)
                 && Verify(verify, BearerToken(req.authorization.value), GuardSecret(jwtSecretEnv)).None?
    ensures o == Halt(401, MsgUserNotFound)
            <==> HasBearer(req.authorization)
                 && var p := Verify(verify, BearerToken(req.authorization.value), GuardSecret(jwtSecretEnv));
                    p.Some? && (ClaimedUserId(p.value).None? || ClaimedUserId(p.value).value !in users)
    ensures o.Next? <==> HasBearer(req.authorization)
                         && var p := Verify(verify, BearerToken(req.authorization.value), GuardSecret(jwtSecretEnv));
                            p.Some? && ClaimedUserId(p.value).Some? && ClaimedUserId(p.value).value in users
    ensures o.Next? ==> HasBearer(req.authorization)
                        && var p := Verify(verify, BearerToken(req.authorization.value), GuardSecret(jwtSecretEnv));
                           p.Some? && ClaimedUserId(p.value).Some? && ClaimedUserId(p.value).value in users
                           && o.req == req.(user := Some(users[ClaimedUserId(p.value).value]))
    ensures o.Halt? ==> o.status == 401
  {
    if !HasBearer(req.authorization) then Halt(401, MsgTokenMissing)
    else
      var token := BearerToken(req.authorization.value);
      match Verify(verify, token, GuardSecret(jwtSecretEnv))
      case None => Halt(401, MsgInvalidToken)
      case Some(decoded) =>
        var id := ClaimedUserId(decoded);
        if id.None? || id.value !in users then Halt(401, MsgUserNotFound)
        else Next(req.(user := Some(users[id.value])))
  }

  /** The prefix check is exact: no other capitalisation, no missing space, and
      "Bearer " with nothing after it passes the prefix but not verification. */
  lemma BearerPrefixIsExact(req: Request, users: map<nat, User>, jwtSecretEnv: Option<string>,
                            verify: (string, string) -> Option<Claims>)
    ensures AuthGuard(req.(authorization := Some("bearer abc")), users, jwtSecretEnv, verify)
            == Halt(401, MsgTokenMissing)
    ensures AuthGuard(req.(authorization := Some("Bearer")), users, jwtSecretEnv, verify)
            == Halt(401, MsgTokenMissing)
    ensures AuthGuard(req.(authorization := Some("Bearer ")), users, jwtSecretEnv, verify)
            == Halt(401, MsgInvalidToken)
  {
    assert "bearer abc"[..|BearerPrefix|][0] != BearerPrefix[0];
    assert |BearerToken("Bearer ")| == 0;
  }

  /** A user found by the guard is a row of the table, and the request keeps
      everything but `req.user`. */
  lemma AdmittedUserIsARow(req: Request, users: map<nat, User>, jwtSecretEnv: Option<string>,
                           verify: (string, string) -> Option<Claims>)
    requires AuthGuard(req, users, jwtSecretEnv, verify).Next?
    ensures var r := AuthGuard(req, users, jwtSecretEnv, verify).req;
            r.user.Some? && r.user.value in users.Values
            && r.authorization == req.authorization && r.upload == req.upload && r.file == req.file
  {
  }

  /** `isInstructor`: passes the request on unchanged when there is a user whose
      role is "instructor"; any other role, and no user at all, is 403. */
  function IsInstructor(req: Request): (o: Outcome)
    ensures o.Next? <==> req.user.Some? && RoleName(req.user.value.role) == "instructor"
    ensures o.Next? ==> o.req == req
    ensures o.Halt? ==> o == Halt(403, MsgInstructorsOnly)
  {
    if req.user.Some? && req.user.value.role == Instructor then Next(req)
    else Halt(403, MsgInstructorsOnly)
  }
}
