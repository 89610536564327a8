/** The registration page: the form state, its ordered client-side checks and
    the body it sends to `POST /register`. */
module RegisterPage {
  import opened Wrappers
  import opened Text
  import opened Schema
  import opened EmailPattern
  import AC = AuthController

  /** The six inputs of the form, all empty at first. */
  const FormFields: set<string> := {"username", "email", "password", "confirmPassword", "address", "phoneNumber"}

  const InitialForm: map<string, string> := map[
    "username" := "", "email" := "", "password" := "", "confirmPassword" := "",
    "address" := "", "phoneNumber" := ""]

  const MsgUsernameRequired := "Username is required"
  const MsgEmailRequired := "Email is required"
  const MsgInvalidEmail := "Invalid email address"
  const MsgPasswordRequired := "Password is required"
  const MsgPasswordTooShort := "Password must be at least 8 characters"
  const MsgPasswordMismatch := "Passwords do not match"
  const MsgPhoneRequired := "Phone number is required"
  const MsgAgreeRequired := "Please agree to terms & conditions"

  /** `validate`: the checks in their order; the first that fails is the one
      error shown (`Some(message)`), and `None` means the form may be sent. The
      address is never looked at. */
  function Validate(form: map<string, string>, agree: bool): (error: Option<string>)
    requires FormFields <= form.Keys
    ensures error == Some(MsgUsernameRequired) <==> form["username"] == ""
    ensures error == Some(MsgEmailRequired) <==> form["username"] != "" && form["email"] == ""
    ensures error == Some(MsgInvalidEmail)
            <==> form["username"] != "" && form["email"] != "" && !EmailShaped(form["email"])
    ensures error == Some(MsgPasswordRequired)
            <==> form["username"] != "" && EmailShaped(form["email"]) && form["password"] == ""
    ensures error == Some(MsgPasswordTooShort)
            <==> form["username"] != "" && EmailShaped(form["email"]) && form["password"] != ""
                 && JsLength(form["password"]) < 8
    ensures error == Some(MsgPasswordMismatch)
            <==> form["username"] != "" && EmailShaped(form["email"]) && JsLength(form["password"]) >= 8
                 && form["password"] != form["confirmPassword"]
    ensures error == Some(MsgPhoneRequired)
            <==> form["username"] != "" && EmailShaped(form["email"]) && JsLength(form["password"]) >= 8
                 && form["password"] == form["confirmPassword"] && form["phoneNumber"] == ""
    ensures error == Some(MsgAgreeRequired)
            <==> form["username"] != "" && EmailShaped(form["email"]) && JsLength(form["password"]) >= 8
                 && form["password"] == form["confirmPassword"] && form["phoneNumber"] != "" && !agree
    ensures error == None
            <==> form["username"] != "" && EmailShaped(form["email"]) && JsLength(form["password"]) >= 8
                 && form["password"] == form["confirmPassword"] && form["phoneNumber"] != "" && agree
  {
    if form["username"] == "" then Some(MsgUsernameRequired)
    else if form["email"] == "" then Some(MsgEmailRequired)
    else if !Matches(form["email"]) then Some(MsgInvalidEmail)
    else if form["password"] == "" then Some(MsgPasswordRequired)
    else if JsLength(form["password"]) < 8 then Some(MsgPasswordTooShort)
    else if form["password"] != form["confirmPassword"] then Some(MsgPasswordMismatch)
    else if form["phoneNumber"] == "" then Some(MsgPhoneRequired)
    else if !agree then Some(MsgAgreeRequired)
    else None
  }

  /** The address can hold anything: it never decides the outcome. */
  lemma AddressIsNeverChecked(form: map<string, string>, agree: bool, address: string)
    requires FormFields <= form.Keys
    ensures Validate(form["address" := address], agree) == Validate(form, agree)
  {
  }

  /** `dataToSubmit`: the six inputs, and no role. */
  function Payload(form: map<string, string>): (body: AC.RegisterBody)
    requires FormFields <= form.Keys
    ensures body.role.None?
    ensures body.username == Some(form["username"]) && body.email == Some(form["email"])
    ensures body.password == Some(form["password"]) && body.confirmPassword == Some(form["confirmPassword"])
    ensures body.address == Some(form["address"]) && body.phoneNumber == Some(form["phoneNumber"])
  {
    AC.RegisterBody(Some(form["username"]), Some(form["email"]), Some(form["password"]),
                    Some(form["confirmPassword"]), Some(form["address"]), Some(form["phoneNumber"]), None)
  }

  /** A form the page lets through passes every check the server makes before
      it looks at the table, and the server then registers a student: the page
      cannot ask for another role. */
  lemma AcceptedFormPassesServerChecks(form: map<string, string>, agree: bool, users: map<nat, User>,
                                       hash: string -> string, isEmail: string -> bool)
    requires FormFields <= form.Keys && Validate(form, agree) == None
    ensures AC.PassesValidation(Payload(form))
    ensures AC.RequestedRole(Payload(form)) == "student"
    ensures AC.Register(users, Payload(form), hash, isEmail).Ok?
            ==> AC.Register(users, Payload(form), hash, isEmail).value.role == Student
  {
    var r := AC.Register(users, Payload(form), hash, isEmail);
    if r.Ok? {
      assert RoleName(r.value.role) == "student";
    }
  }

  /** The page's state: the form fields and the terms checkbox. */
  class RegisterForm {
    var formData: map<string, string>
    var agree: bool

    constructor ()
      ensures formData == InitialForm && !agree
    {
      formData := InitialForm;
      agree := false;
    }

    /** `handleChange`: the named field takes the input's value; nothing else changes. */
    method HandleChange(name: string, value: string)
      modifies this
      ensures formData == old(formData)[name := value] && agree == old(agree)
    {
      formData := formData[name := value];
    }

    /** The checkbox's `onChange`. */
    method SetAgree(checked: bool)
      modifies this
      ensures agree == checked && formData == old(formData)
    {
      agree := checked;
    }

    /** `handleSubmit` up to the request: either the first error, or the body
      to send. */
    method Submit() returns (error: Option<string>, body: Option<AC.RegisterBody>)
      requires FormFields <= formData.Keys
      ensures error == Validate(formData, agree)
      ensures body.Some? <==> error.None?
      ensures body.Some? ==> body.value == Payload(formData) && AC.PassesValidation(body.value)
    {
      error := Validate(formData, agree);
      if error.None? {
        AcceptedFormPassesServerChecks(formData, agree, map[], x => x, x => true);
        body := Some(Payload(formData));
      } else {
        body := None;
      }
    }
  }
}
