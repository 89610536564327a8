/** `registerUser` and `loginUser`: the ordered validation chains of the two
    unauthenticated endpoints, as decisions over the users table. Inserting the
    registered row is `Store.Database.RegisterUser`. */
module AuthController {
  import opened Wrappers
  import opened Text
  import opened Schema
  import opened Tokens

  /** The JSON body of `POST /register`. */
  datatype RegisterBody = RegisterBody(
    username: Option<string>,
    email: Option<string>,
    password: Option<string>,
    confirmPassword: Option<string>,
    address: Option<string>,
    phoneNumber: Option<string>,
    role: Option<string>)

  const MsgFieldsRequired := "All required fields must be filled"
  const MsgPasswordTooShort := "Password must be at least 8 characters"
  const MsgPasswordMismatch := "Passwords do not match"
  const MsgEmailRegistered := "Email already registered"
  const MsgUsernameTaken := "Username already taken"
  const MsgRegistrationFailed := "Registration failed"
  const MinPasswordLength: nat := 8

  predicate HasRequiredFields(b: RegisterBody) {
    Truthy(b.username) && Truthy(b.email) && Truthy(b.password) && Truthy(b.phoneNumber)
  }

  /** The three checks made before the table is consulted, in their order. */
  predicate PassesValidation(b: RegisterBody) {
    HasRequiredFields(b)
    && JsLength(b.password.value) >= MinPasswordLength
    && b.confirmPassword == b.password
  }

  /** `role || "student"`. */
  function RequestedRole(b: RegisterBody): (role: string)
    ensures !Truthy(b.role) ==> role == "student"
    ensures Truthy(b.role) ==> role == b.role.value
  {
    if Truthy(b.role) then b.role.value else RoleName(DefaultRole)
  }

  /** The column values `User.create` is called with. */
  datatype Registration = Registration(
    username: string,
    email: string,
    passwordHash: string,
    address: Option<string>,
    phoneNumber: string,
    role: Role)

  /** The outcome of `registerUser` against the users table. `hash` stands for
      `bcrypt.hash(password, 10)`; `isEmail` for the `isEmail` validator of the
      email column. A value the table refuses (a role outside the enum, an email
      the validator rejects) makes `User.create` throw, which answers 500. */
  function Register(users: map<nat, User>, body: RegisterBody,
                    hash: string -> string, isEmail: string -> bool): (r: Reply<Registration>)
    ensures !HasRequiredFields(body) ==> r == Fail(400, MsgFieldsRequired)
    ensures HasRequiredFields(body) && JsLength(body.password.value) < MinPasswordLength
            ==> r == Fail(400, MsgPasswordTooShort)
    ensures r == Fail(400, MsgPasswordMismatch)
            <==> HasRequiredFields(body) && JsLength(body.password.value) >= MinPasswordLength
                 && body.confirmPassword != body.password
    ensures r == Fail(409, MsgEmailRegistered)
            <==> PassesValidation(body) && EmailTaken(users, body.email.value)
    ensures r == Fail(409, MsgUsernameTaken)
            <==> PassesValidation(body) && !EmailTaken(users, body.email.value)
                 && UsernameTaken(users, body.username.value)
    ensures r.Ok? <==> PassesValidation(body) && !EmailTaken(users, body.email.value)
                       && !UsernameTaken(users, body.username.value)
                       && isEmail(body.email.value) && ParseRole(RequestedRole(body)).Some?
    ensures r.Ok? ==> r.status == 201
                      && r.value.username == body.username.value && r.value.email == body.email.value
                      && r.value.passwordHash == hash(body.password.value)
                      && r.value.address == body.address && r.value.phoneNumber == body.phoneNumber.value
                      && RoleName(r.value.role) == RequestedRole(body)
    ensures r.Fail? ==> r.status in {400, 409, 500}
    ensures r == Fail(500, MsgRegistrationFailed)
            <==> PassesValidation(body) && !EmailTaken(users, body.email.value)
                 && !UsernameTaken(users, body.username.value)
                 && !(isEmail(body.email.value) && ParseRole(RequestedRole(body)).Some?)
    ensures r.Fail? && r.status == 500 ==> r.message == MsgRegistrationFailed
  {
    var roleName := RequestedRole(body);
    if !HasRequiredFields(body) then Fail(400, MsgFieldsRequired)
    else if JsLength(body.password.value) < MinPasswordLength then Fail(400, MsgPasswordTooShort)
    else if body.password != body.confirmPassword then Fail(400, MsgPasswordMismatch)
    else if EmailTaken(users, body.email.value) then Fail(409, MsgEmailRegistered)
    else if UsernameTaken(users, body.username.value) then Fail(409, MsgUsernameTaken)
    else
      var passwordHash := hash(body.password.value);
      var role := ParseRole(roleName);
      if role.None? || !isEmail(body.email.value) then Fail(500, MsgRegistrationFailed)
      else Ok(201, Registration(body.username.value, body.email.value, passwordHash,
                                body.address, body.phoneNumber.value, role.value))
  }

  /** The two conflicts answer with different messages, so a caller learns which of
      its email and username is already in the table. */
  lemma ConflictNamesTheField(users: map<nat, User>, body: RegisterBody,
                              hash: string -> string, isEmail: string -> bool)
    requires PassesValidation(body)
    ensures Register(users, body, hash, isEmail).status == 409
            <==> EmailTaken(users, body.email.value) || UsernameTaken(users, body.username.value)
    ensures EmailTaken(users, body.email.value)
            ==> Register(users, body, hash, isEmail).message == "Email already registered"
    ensures !EmailTaken(users, body.email.value) && UsernameTaken(users, body.username.value)
            ==> Register(users, body, hash, isEmail).message == "Username already taken"
  {
  }

  /** The JSON body of `POST /login`. */
  datatype LoginBody = LoginBody(email: Option<string>, password: Option<string>)

  const MsgCredentialsRequired := "Email and password are required"
  const MsgUserNotFound := "User not found"
  const MsgAccountDeactivated := "Account is deactivated"
  const MsgInvalidCredentials := "Invalid email or password"
  const MsgLoginFailed := "Login failed"

  /** `User.findOne({ where: { email } })` on a table whose emails are unique. */
  function UserIdByEmail(users: map<nat, User>, email: string): (id: nat)
    requires UniqueEmails(users) && EmailTaken(users, email)
    ensures id in users && users[id].email == email
  {
    var id :| id in users && users[id].email == email; id
  }

  /** The `jwt.sign` call a successful login makes. */
  function SessionRequest(u: User, secret: string): (req: SignRequest)
    ensures req.claims == SessionClaims(u)
    ensures req.expiresInSeconds == 604800
  {
    SignRequest(SessionClaims(u), secret, SessionLifetimeSeconds)
  }

  /** The outcome of `loginUser`; the success payload is the token. `compare` stands
      for `bcrypt.compare`, `sign` for `jwt.sign`, and `jwtSecret` for
      `process.env.JWT_SECRET`; signing without a secret throws, which answers 500. */
  function Login(users: map<nat, User>, body: LoginBody, compare: (string, string) -> bool,
                 jwtSecret: Option<string>, sign: SignRequest -> string): (r: Reply<string>)
    requires UniqueEmails(users)
    ensures !Truthy(body.email) || !Truthy(body.password) ==> r == Fail(400, MsgCredentialsRequired)
    ensures r == Fail(404, MsgUserNotFound)
            <==> Truthy(body.email) && Truthy(body.password) && !EmailTaken(users, body.email.value)
    ensures r == Fail(403, MsgAccountDeactivated)
            <==> Truthy(body.email) && Truthy(body.password)
                 && exists id :: id in users && users[id].email == body.email.value && !users[id].isActive
    ensures r == Fail(401, MsgInvalidCredentials)
            <==> Truthy(body.email) && Truthy(body.password)
                 && exists id :: id in users && users[id].email == body.email.value && users[id].isActive
                                 && !compare(body.password.value, users[id].password)
    ensures r.Ok? <==> Truthy(body.email) && Truthy(body.password) && Truthy(jwtSecret)
                       && exists id :: id in users && users[id].email == body.email.value && users[id].isActive
                                       && compare(body.password.value, users[id].password)
    ensures r.Ok? ==> r.status == 200
                      && exists id :: id in users && users[id].email == body.email.value
                                      && r.value == sign(SessionRequest(users[id], jwtSecret.value))
    ensures r.Fail? ==> r.status in {400, 401, 403, 404, 500}
    ensures r == Fail(500, MsgLoginFailed)
            <==> Truthy(body.email) && Truthy(body.password) && !Truthy(jwtSecret)
                 && exists id :: id in users && users[id].email == body.email.value && users[id].isActive
                                 && compare(body.password.value, users[id].password)
    ensures r.Fail? && r.status == 500 ==> r.message == MsgLoginFailed
  {
    if !Truthy(body.email) || !Truthy(body.password) then Fail(400, MsgCredentialsRequired)
    else if !EmailTaken(users, body.email.value) then Fail(404, MsgUserNotFound)
    else
      var u := users[UserIdByEmail(users, body.email.value)];
      if !u.isActive then Fail(403, MsgAccountDeactivated)
      else if !compare(body.password.value, u.password) then Fail(401, MsgInvalidCredentials)
      else if !Truthy(jwtSecret) then Fail(500, MsgLoginFailed)
      else Ok(200, sign(SessionRequest(u, jwtSecret.value)))
  }

  /** A deactivated account answers 403 whatever password is sent: the flag is read
      before the password is compared, so the answer does not depend on `compare`. */
  lemma DeactivatedBeforePassword(users: map<nat, User>, body: LoginBody,
                                  compare1: (string, string) -> bool, compare2: (string, string) -> bool,
                                  jwtSecret: Option<string>, sign: SignRequest -> string)
    requires UniqueEmails(users)
    requires Truthy(body.email) && Truthy(body.password) && EmailTaken(users, body.email.value)
    requires !users[UserIdByEmail(users, body.email.value)].isActive
    ensures Login(users, body, compare1, jwtSecret, sign) == Fail(403, MsgAccountDeactivated)
    ensures Login(users, body, compare2, jwtSecret, sign) == Fail(403, MsgAccountDeactivated)
  {
  }
}
