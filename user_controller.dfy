/** The decisions of the user controller: the profile view, the partial profile
    update and the students listing. Saving the updated row is
    `Store.Database.UpdateUserProfile`. */
module UserController {
  import opened Wrappers
  import opened Text
  import opened Schema
  import opened Uploads

  /** The JSON body of a profile update. */
  datatype ProfileBody = ProfileBody(username: Option<string>, phoneNumber: Option<string>, address: Option<string>)

  const MsgAccessDenied := "Access denied"
  const MsgServerError := "Server error"

  /** `getUserProfile`: six columns of the caller's row, never the password hash
      nor the account flags. */
  function Profile(u: User): (v: ProfileView)
    ensures v.username == u.username && v.email == u.email && v.phoneNumber == u.phoneNumber
    ensures v.address == u.address && v.profilePicture == u.profilePicture
    ensures ParseRole(v.role) == Some(u.role)
  {
    ProfileView(u.username, u.email, u.phoneNumber, u.address, RoleName(u.role), u.profilePicture)
  }

  /** The public path of a stored profile picture. */
  function PicturePath(filename: string): (p: string)
    ensures StartsWith(p, "/uploads/profile/") && p[|"/uploads/profile/"|..] == filename
  {
    ProfileUpload.publicDir + filename
  }

  /** The row `updateUserProfile` saves: a field the body carries as a non-empty
      string replaces the stored one, an empty or absent one is ignored, and the
      picture changes only when a file was stored. Key, email, password, role and
      flags are never touched. */
  function ProfileEdit(u: User, body: ProfileBody, file: Option<string>): (v: User)
    ensures v.userId == u.userId && v.email == u.email && v.password == u.password && v.role == u.role
    ensures v.isVerified == u.isVerified && v.isActive == u.isActive
    ensures v.username == (if Truthy(body.username) then body.username.value else u.username)
    ensures v.phoneNumber == (if Truthy(body.phoneNumber) then body.phoneNumber.value else u.phoneNumber)
    ensures v.address == (if Truthy(body.address) then body.address else u.address)
    ensures v.profilePicture == (if file.Some? then Some(PicturePath(file.value)) else u.profilePicture)
  {
    var u1 := if Truthy(body.username) then u.(username := body.username.value) else u;
    var u2 := if Truthy(body.phoneNumber) then u1.(phoneNumber := body.phoneNumber.value) else u1;
    var u3 := if Truthy(body.address) then u2.(address := body.address) else u2;
    if file.Some? then u3.(profilePicture := Some(PicturePath(file.value))) else u3
  }

  /** Sending the same update twice leaves the row as the first one left it. */
  lemma ProfileEditIsIdempotent(u: User, body: ProfileBody, file: Option<string>)
    ensures ProfileEdit(ProfileEdit(u, body, file), body, file) == ProfileEdit(u, body, file)
  {
  }

  /** A body of empty strings without a file changes nothing: a cleared form
      field cannot blank a column. */
  lemma EmptyFieldsChangeNothing(u: User)
    ensures ProfileEdit(u, ProfileBody(Some(""), Some(""), Some("")), None) == u
    ensures ProfileEdit(u, ProfileBody(None, None, None), None) == u
  {
  }

  /** The save fails on the unique username column when another row already has
      the new username; the update then answers 500 and nothing is stored. */
  predicate SaveConflicts(users: map<nat, User>, id: nat, v: User)
    ensures UniqueUsernames(users) && id in users ==> (SaveConflicts(users, id, v) <==> !UniqueUsernames(users[id := v]))
  {
    ClashIsAnotherRow(users, id, v);
    exists other :: other in users && other != id && users[other].username == v.username
  }

  /** Writing `v` under `id` breaks the unique usernames exactly when another row
      already holds `v`'s username. */
  lemma ClashIsAnotherRow(users: map<nat, User>, id: nat, v: User)
    ensures UniqueUsernames(users) && id in users ==>
              ((exists other :: other in users && other != id && users[other].username == v.username)
               <==> !UniqueUsernames(users[id := v]))
  {
    if UniqueUsernames(users) && id in users {
      var after := users[id := v];
      if exists other :: other in users && other != id && users[other].username == v.username {
        var other :| other in users && other != id && users[other].username == v.username;
        assert after[other].username == after[id].username;
      }
      if !UniqueUsernames(after) {
        var i, j :| i in after && j in after && after[i].username == after[j].username && i != j;
        if i == id {
          assert j in users && j != id && users[j].username == v.username;
        } else if j == id {
          assert i in users && i != id && users[i].username == v.username;
        }
      }
    }
  }

  /** `getAllStudents`: a caller whose role is not instructor gets 403; otherwise
      every row whose role is student, whole — password hash included. */
  function Students(users: map<nat, User>, caller: User): (r: Reply<map<nat, User>>)
    ensures r.Fail? <==> caller.role != Instructor
    ensures r.Fail? ==> r == Fail(403, MsgAccessDenied)
    ensures r.Ok? ==> r.status == 200
                      && (forall id :: id in r.value <==> id in users && users[id].role == Student)
                      && (forall id :: id in r.value ==> r.value[id] == users[id])
  {
    if caller.role != Instructor then Fail(403, MsgAccessDenied)
    else Ok(200, map id | id in users && users[id].role == Student :: users[id])
  }

  /** The listing never shows an instructor, and shows every student. */
  lemma StudentsListingIsExact(users: map<nat, User>, caller: User, id: nat)
    requires caller.role == Instructor && id in users
    ensures id in Students(users, caller).value <==> RoleName(users[id].role) == "student"
  {
  }
}
