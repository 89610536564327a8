/** The courses page: the list of courses shown, and the list of course ids the
    student enrolled in, kept in memory and in local storage under
    "enrolledCourses" as JSON. */
module CoursesPage {
  import opened Wrappers
  import opened Text
  import opened Schema
  import opened ClientAuth

  const EnrolledKey := "enrolledCourses"

  /** No id occurs twice. */
  predicate NoDuplicates(ids: seq<nat>) {
    forall i, j :: 0 <= i < j < |ids| ==> ids[i] != ids[j]
  }

  /** The list after `handleEnroll(id)`: the id is appended only when it is not
      already there. */
  function Enroll(ids: seq<nat>, id: nat): (r: seq<nat>)
    ensures id in r
    ensures forall x :: x in r <==> x in ids || x == id
    ensures id in ids ==> r == ids
    ensures id !in ids ==> r == ids + [id]
    ensures NoDuplicates(ids) ==> NoDuplicates(r)
  {
    if id in ids then ids else ids + [id]
  }

  /** Enrolling twice in the same course is enrolling once. */
  lemma EnrollIsIdempotent(ids: seq<nat>, id: nat)
    ensures Enroll(Enroll(ids, id), id) == Enroll(ids, id)
  {
  }

  /** The order of enrolments does not change which courses are enrolled. */
  lemma EnrollCommutesAsASet(ids: seq<nat>, a: nat, b: nat)
    ensures forall x :: x in Enroll(Enroll(ids, a), b) <==> x in Enroll(Enroll(ids, b), a)
  {
  }

  /** `JSON.stringify` of a list of ids: "[1,22,3]". */
  function Stringify(ids: seq<nat>): (s: string)
    ensures |s| >= 2 && s[0] == '[' && s[|s| - 1] == ']'
  {
    "[" + Join(Renders(ids), ',') + "]"
  }

  function Renders(ids: seq<nat>): (pieces: seq<string>)
    ensures |pieces| == |ids|
    ensures forall i :: 0 <= i < |ids| ==> pieces[i] == Decimal(ids[i])
  {
    if ids == [] then [] else [Decimal(ids[0])] + Renders(ids[1..])
  }

  /** The numbers of a list of digit strings, or `None` if one is not a number. */
  function ParsePieces(pieces: seq<string>): (r: Option<seq<nat>>)
    ensures r.Some? ==> |r.value| == |pieces|
  {
    if pieces == [] then Some([])
    else if pieces[0] == "" || !IsDigits(pieces[0]) then None
    else
      match ParsePieces(pieces[1..])
      case None => None
      case Some(rest) => Some([DigitsValue(pieces[0])] + rest)
  }

  /** `JSON.parse` for a list of ids written by `Stringify`; `None` stands for a
      parse error. */
  function ParseIds(s: string): (r: Option<seq<nat>>)
    ensures r.Some? ==> |s| >= 2 && s[0] == '[' && s[|s| - 1] == ']'
  {
    if |s| < 2 || s[0] != '[' || s[|s| - 1] != ']' then None
    else
      var inner := s[1..|s| - 1];
      if inner == "" then Some([]) else ParsePieces(Split(inner, ','))
  }

  lemma {:induction false} ParseRenders(ids: seq<nat>)
    ensures ParsePieces(Renders(ids)) == Some(ids)
  {
    if ids != [] {
      var pieces := Renders(ids);
      assert pieces[1..] == Renders(ids[1..]);
      ParseRenders(ids[1..]);
      DecimalRoundTrip(ids[0]);
      assert [ids[0]] + ids[1..] == ids;
    }
  }

  /** Reading back what was written gives the same list. */
  lemma {:induction false} ParseStringify(ids: seq<nat>)
    ensures ParseIds(Stringify(ids)) == Some(ids)
  {
    var s := Stringify(ids);
    var pieces := Renders(ids);
    assert s[1..|s| - 1] == Join(pieces, ',');
    if ids == [] {
    } else {
      forall i | 0 <= i < |pieces| ensures ',' !in pieces[i] {
        assert IsDigits(pieces[i]);
      }
      SplitJoin(pieces, ',');
      assert Join(pieces, ',') != "" by {
        if |pieces| == 1 {
          assert Join(pieces, ',') == pieces[0];
        } else {
          assert Join(pieces, ',') == pieces[0] + [','] + Join(pieces[1..], ',');
        }
      }
      ParseRenders(ids);
    }
  }

  /** The initial list: the parsed stored value, or empty when nothing (or an
      empty string) is stored; `None` when the stored value does not parse, in
      which case `JSON.parse` throws while the page is set up. */
  function InitialEnrolled(saved: Option<string>): (r: Option<seq<nat>>)
    ensures !Truthy(saved) ==> r == Some([])
    ensures Truthy(saved) ==> r == ParseIds(saved.value)
  {
    if Truthy(saved) then ParseIds(saved.value) else Some([])
  }

  /** `courses.filter((c) => c.course_id !== id)`. */
  function RemoveCourse(cs: seq<Course>, id: nat): (r: seq<Course>)
    ensures |r| <= |cs|
    ensures forall c :: c in r <==> c in cs && c.courseId != id
  {
    if cs == [] then []
    else if cs[0].courseId != id then [cs[0]] + RemoveCourse(cs[1..], id)
    else RemoveCourse(cs[1..], id)
  }

  /** The filter keeps the order: filtering a list is filtering its two halves. */
  lemma {:induction false} RemoveCourseKeepsOrder(a: seq<Course>, b: seq<Course>, id: nat)
    ensures RemoveCourse(a + b, id) == RemoveCourse(a, id) + RemoveCourse(b, id)
  {
    if a == [] {
      assert a + b == b;
    } else {
      assert (a + b)[1..] == a[1..] + b;
      RemoveCourseKeepsOrder(a[1..], b, id);
    }
  }

  /** Nothing to remove leaves the list as it was. */
  lemma {:induction false} RemoveAbsentCourse(cs: seq<Course>, id: nat)
    requires forall c :: c in cs ==> c.courseId != id
    ensures RemoveCourse(cs, id) == cs
  {
    if cs != [] {
      assert forall c :: c in cs[1..] ==> c in cs;
      RemoveAbsentCourse(cs[1..], id);
      assert [cs[0]] + cs[1..] == cs;
    }
  }

  /** The page's state, over the browser's storage. */
  class CoursesView {
    var courses: seq<Course>
    var enrolled: seq<nat>
    const storage: LocalStorage

    /** The in-memory list is what a fresh load of the page would read. */
    ghost predicate Persisted()
      reads this, storage
    {
      InitialEnrolled(storage.GetItem(EnrolledKey)) == Some(enrolled)
    }

    /** The state initialiser; a stored value that does not parse stops the page. */
    constructor (storage: LocalStorage)
      requires InitialEnrolled(storage.GetItem(EnrolledKey)).Some?
      ensures this.storage == storage && courses == []
      ensures enrolled == InitialEnrolled(storage.GetItem(EnrolledKey)).value
      ensures Persisted()
    {
      this.storage := storage;
      courses := [];
      enrolled := InitialEnrolled(storage.GetItem(EnrolledKey)).value;
    }

    /** `handleEnroll`: a new id is appended and the list written back; an id
        already there changes nothing. */
    method HandleEnroll(id: nat)
      requires Persisted()
      modifies this, storage
      ensures Persisted()
      ensures enrolled == Enroll(old(enrolled), id) && courses == old(courses)
      ensures id in old(enrolled) ==> storage.items == old(storage.items)
      ensures id !in old(enrolled) ==> storage.items == old(storage.items)[EnrolledKey := Stringify(enrolled)]
    {
      if id !in enrolled {
        var updated := enrolled + [id];
        enrolled := updated;
        storage.SetItem(EnrolledKey, Stringify(updated));
        ParseStringify(updated);
      }
    }

    /** `handleDelete` once the user confirmed: when the server reports success
        the course leaves the list, otherwise nothing changes. */
    method HandleDelete(id: nat, confirmed: bool, serverOk: bool)
      modifies this
      ensures enrolled == old(enrolled)
      ensures confirmed && serverOk ==> courses == RemoveCourse(old(courses), id)
      ensures !(confirmed && serverOk) ==> courses == old(courses)
    {
      if confirmed && serverOk {
        courses := RemoveCourse(courses, id);
      }
    }
  }
}
