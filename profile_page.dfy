/** The profile page: the username shown as a first and a last name, the form
    the user edits, and the body its save sends to `PUT /api/user/profile`. */
module ProfilePage {
  import opened Wrappers
  import opened Text
  import opened Schema
  import opened ClientAuth
  import UC = UserController

  /** The two halves of a username as the form shows them. */
  datatype NameParts = NameParts(first: string, last: string)

  /** `username.split(" ")[0] || ""` and `username.split(" ")[1] || ""`: the
      first two space-separated pieces, the second empty when there is no space. */
  function SplitName(username: string): (n: NameParts)
    ensures ' ' !in n.first && ' ' !in n.last
    ensures Count(username, ' ') == 0 ==> n == NameParts(username, "")
  {
    var pieces := Split(username, ' ');
    NameParts(pieces[0], if |pieces| >= 2 then pieces[1] else "")
  }

  /** The username `handleSave` sends: the two halves joined by a space, trimmed. */
  function JoinName(n: NameParts): (r: string)
    ensures r == [] || (!IsSpace(r[0]) && !IsSpace(r[|r| - 1]))
    ensures |r| <= |n.first| + 1 + |n.last|
  {
    Trim(n.first + " " + n.last)
  }

  /** A string with no white space in it. */
  predicate Word(s: string) {
    forall i :: 0 <= i < |s| ==> !IsSpace(s[i])
  }

  /** The first two pieces of a name with a space are the words around it. */
  lemma TwoWordsSplit(a: string, b: string)
    requires ' ' !in a && ' ' !in b
    ensures SplitName(a + " " + b) == NameParts(a, b)
  {
    SplitFirstPiece(a, ' ', b);
    SplitWithoutSeparator(b, ' ');
  }

  /** Pieces after the second are dropped: a three-word name keeps two words. */
  lemma ThirdWordIsDropped(a: string, b: string, c: string)
    requires ' ' !in a && ' ' !in b
    ensures SplitName(a + " " + b + " " + c) == NameParts(a, b)
    ensures |JoinName(SplitName(a + " " + b + " " + c))| < |a + " " + b + " " + c|
  {
    assert a + " " + b + " " + c == a + [' '] + (b + [' '] + c);
    SplitFirstPiece(a, ' ', b + [' '] + c);
    SplitFirstPiece(b, ' ', c);
    var s := a + " " + b;
    assert |TrimEnd(s)| <= |s| && |TrimStart(TrimEnd(s))| <= |TrimEnd(s)|;
  }

  /** Split, then join: a username with at most one space and no white space at
      either end comes back exactly. */
  lemma SplitThenJoin(username: string)
    requires Count(username, ' ') <= 1
    requires username == [] || (!IsSpace(username[0]) && !IsSpace(username[|username| - 1]))
    ensures JoinName(SplitName(username)) == username
  {
    var pieces := Split(username, ' ');
    var n := SplitName(username);
    if |pieces| == 1 {
      assert n.first + " " + n.last == username + [' '];
      TrimDropsTrailingSpace(username, ' ');
    } else {
      assert |pieces| == 2;
      assert Join(pieces[1..], ' ') == pieces[1];
      assert n.first + " " + n.last == username;
      TrimKeepsTrimmed(username);
    }
  }

  /** Join, then split: two halves without white space, the first non-empty,
      come back exactly. */
  lemma JoinThenSplit(n: NameParts)
    requires n.first != "" && Word(n.first) && Word(n.last)
    ensures SplitName(JoinName(n)) == n
  {
    var s := n.first + " " + n.last;
    if n.last == "" {
      assert s == n.first + [' '];
      TrimDropsTrailingSpace(n.first, ' ');
      SplitWithoutSeparator(n.first, ' ');
    } else {
      assert s[0] == n.first[0] && s[|s| - 1] == n.last[|n.last| - 1];
      TrimKeepsTrimmed(s);
      TwoWordsSplit(n.first, n.last);
    }
  }

  /** The five inputs of the form; the address may be `null`. */
  datatype ProfileForm = ProfileForm(firstName: string, lastName: string, email: string,
                                     phoneNumber: string, address: Option<string>)

  /** The `name` attributes of the five inputs. */
  datatype Field = FirstName | LastName | Email | PhoneNumber | Address

  /** The form filled from a profile, as `fetchProfile` and Cancel both do. */
  function FormOf(data: ProfileView): (f: ProfileForm)
    ensures NameParts(f.firstName, f.lastName) == SplitName(data.username)
    ensures f.email == data.email && f.phoneNumber == data.phoneNumber && f.address == data.address
  {
    var n := SplitName(data.username);
    ProfileForm(n.first, n.last, data.email, data.phoneNumber, data.address)
  }

  /** `handleInputChange`: the named field takes the input's value. */
  function SetField(f: ProfileForm, name: Field, value: string): (g: ProfileForm)
    ensures name == FirstName ==> g.firstName == value
    ensures name == LastName ==> g.lastName == value
    ensures name == Email ==> g.email == value
    ensures name == PhoneNumber ==> g.phoneNumber == value
    ensures name == Address ==> g.address == Some(value)
    ensures name != FirstName ==> g.firstName == f.firstName
    ensures name != LastName ==> g.lastName == f.lastName
    ensures name != Email ==> g.email == f.email
    ensures name != PhoneNumber ==> g.phoneNumber == f.phoneNumber
    ensures name != Address ==> g.address == f.address
  {
    match name
    case FirstName => f.(firstName := value)
    case LastName => f.(lastName := value)
    case Email => f.(email := value)
    case PhoneNumber => f.(phoneNumber := value)
    case Address => f.(address := Some(value))
  }

  /** The fields of `dataToSend` the server reads: the joined username, the
      phone number and the address. The email the form also sends is ignored. */
  function SaveBody(f: ProfileForm): (body: UC.ProfileBody)
    ensures body.username == Some(JoinName(NameParts(f.firstName, f.lastName)))
    ensures body.phoneNumber == Some(f.phoneNumber) && body.address == f.address
  {
    UC.ProfileBody(Some(JoinName(NameParts(f.firstName, f.lastName))), Some(f.phoneNumber), f.address)
  }

  /** Clearing both name inputs does not clear the username: the empty string is
      ignored by the update. */
  lemma ClearedNameKeepsUsername(u: User, f: ProfileForm, file: Option<string>)
    requires f.firstName == "" && f.lastName == ""
    ensures UC.ProfileEdit(u, SaveBody(f), file).username == u.username
  {
    assert JoinName(NameParts(f.firstName, f.lastName)) == "" by {
      assert f.firstName + " " + f.lastName == "" + [' '];
      TrimDropsTrailingSpace("", ' ');
    }
    assert !Truthy(SaveBody(f).username);
  }

  /** Saving the form as loaded keeps a username of at most two words with no
      white space at either end. */
  lemma UntouchedSaveKeepsUsername(u: User, file: Option<string>)
    requires Count(u.username, ' ') <= 1
    requires u.username == [] || (!IsSpace(u.username[0]) && !IsSpace(u.username[|u.username| - 1]))
    ensures UC.ProfileEdit(u, SaveBody(FormOf(UC.Profile(u))), file).username == u.username
  {
    SplitThenJoin(u.username);
  }

  /** Saving the form as loaded sends a username that differs from a stored
      username of three words: the row the update builds loses the third.
      Whether the save then succeeds depends on the unique-username check. */
  lemma UntouchedSaveCutsThirdWord(u: User, a: string, b: string, c: string, file: Option<string>)
    requires ' ' !in a && ' ' !in b && a != "" && !IsSpace(a[0])
    requires u.username == a + " " + b + " " + c
    ensures UC.ProfileEdit(u, SaveBody(FormOf(UC.Profile(u))), file).username != u.username
  {
    ThirdWordIsDropped(a, b, c);
    var s := a + " " + b;
    var e := TrimEnd(s);
    assert !IsSpace(s[0]);
    assert e != [] && e[0] == a[0];
    assert TrimStart(e) != [];
  }

  /** The page's state once the profile has loaded. */
  class ProfileScreen {
    var user: ProfileView
    var formData: ProfileForm
    var editing: bool

    /** `fetchProfile` succeeding at first render: the profile is shown, the
        form filled from it, and the profile copied to local storage under
        "user"; `encode` stands for `JSON.stringify`. */
    constructor (data: ProfileView, storage: LocalStorage, encode: ProfileView -> string)
      modifies storage
      ensures user == data && formData == FormOf(data) && !editing
      ensures storage.items == old(storage.items)["user" := encode(data)]
    {
      user := data;
      formData := FormOf(data);
      editing := false;
      storage.SetItem("user", encode(data));
    }

    /** `fetchProfile` again, after a save or a new photo. */
    method Load(data: ProfileView, storage: LocalStorage, encode: ProfileView -> string)
      modifies this, storage
      ensures user == data && formData == FormOf(data) && editing == old(editing)
      ensures storage.items == old(storage.items)["user" := encode(data)]
    {
      user := data;
      formData := FormOf(data);
      storage.SetItem("user", encode(data));
    }

    /** The Edit Profile button. */
    method Edit()
      modifies this
      ensures editing && user == old(user) && formData == old(formData)
    {
      editing := true;
    }

    /** `handleInputChange`. */
    method HandleInputChange(name: Field, value: string)
      modifies this
      ensures formData == SetField(old(formData), name, value)
      ensures user == old(user) && editing == old(editing)
    {
      formData := SetField(formData, name, value);
    }

    /** Cancel: editing stops and the form is refilled from the loaded profile
        with the same split, dropping every edit. */
    method Cancel()
      modifies this
      ensures !editing && user == old(user) && formData == FormOf(user)
    {
      editing := false;
      formData := FormOf(user);
    }

    /** `handleSave` up to the request: the body sent; when the server answers
        with success, editing stops (the profile is then reloaded with `Load`). */
    method Save(serverOk: bool) returns (body: UC.ProfileBody)
      modifies this
      ensures body == SaveBody(old(formData))
      ensures editing == (old(editing) && !serverOk)
      ensures user == old(user) && formData == old(formData)
    {
      body := SaveBody(formData);
      if serverOk {
        editing := false;
      }
    }
  }
}
