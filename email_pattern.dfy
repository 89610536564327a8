/** The client's email check `/\S+@\S+\.\S+/.test(email)`: unanchored, so it
    holds when the pattern occurs anywhere in the string. `EmailShaped` states
    the language of the pattern; `Matches` decides it in one left-to-right pass
    and is proved to agree with it. */
module EmailPattern {
  import opened Text

  /** The pattern occurs with its "@" at `a` and its "." at `d`: one non-space
      character before the "@", at least one between the two, at least one after
      the ".", and no white space anywhere in that stretch. */
  predicate MatchAt(s: string, a: int, d: int) {
    1 <= a && a + 2 <= d && d + 2 <= |s| && s[a] == '@' && s[d] == '.'
    && forall j :: a - 1 <= j <= d + 1 ==> !IsSpace(s[j])
  }

  /** The strings the pattern accepts. */
  ghost predicate EmailShaped(s: string) {
    exists a, d :: MatchAt(s, a, d)
  }

  /** Where the scan stands after a prefix: outside any word; in a word without
      a usable "@"; right after the first usable "@"; past it without a usable
      "."; right after a usable "."; or done, the pattern having occurred. */
  datatype ScanState = Start | InLocal | AfterAt | InDomain | AfterDot | Matched

  function Step(st: ScanState, c: char): ScanState {
    if st == Matched then Matched
    else if IsSpace(c) then Start
    else
      match st
      case Start => InLocal
      case InLocal => if c == '@' then AfterAt else InLocal
      case AfterAt => InDomain
      case InDomain => if c == '.' then AfterDot else InDomain
      case AfterDot => Matched
  }

  function Scan(s: string): ScanState {
    if s == [] then Start else Step(Scan(s[..|s| - 1]), s[|s| - 1])
  }

  /** The pattern test, in one pass over the string. */
  function Matches(s: string): (ok: bool)
    ensures ok <==> EmailShaped(s)
  {
    ScanMeansMatch(s);
    Scan(s) == Matched
  }

  /** Where the trailing run of non-space characters starts. */
  function WordStart(s: string): (w: nat)
    ensures w <= |s|
    ensures forall j :: w <= j < |s| ==> !IsSpace(s[j])
    ensures w > 0 ==> IsSpace(s[w - 1])
  {
    if s == [] || IsSpace(s[|s| - 1]) then |s| else WordStart(s[..|s| - 1])
  }

  predicate NoAtIn(s: string, lo: int, hi: int) {
    forall j :: lo <= j < hi && 0 <= j < |s| ==> s[j] != '@'
  }

  predicate NoDotIn(s: string, lo: int, hi: int) {
    forall j :: lo <= j < hi && 0 <= j < |s| ==> s[j] != '.'
  }

  /** `a` is the first "@" of the trailing word that has a character before it. */
  predicate FirstAt(s: string, a: int) {
    WordStart(s) + 1 <= a < |s| && s[a] == '@' && NoAtIn(s, WordStart(s) + 1, a)
  }

  /** What each state says about the prefix read so far. */
  ghost predicate Inv(s: string, st: ScanState) {
    match st
    case Matched => EmailShaped(s)
    case Start => !EmailShaped(s) && WordStart(s) == |s|
    case InLocal => !EmailShaped(s) && WordStart(s) < |s| && NoAtIn(s, WordStart(s) + 1, |s|)
    case AfterAt => !EmailShaped(s) && FirstAt(s, |s| - 1)
    case InDomain => !EmailShaped(s) && exists a :: FirstAt(s, a) && a + 2 <= |s| && NoDotIn(s, a + 2, |s|)
    case AfterDot =>
      !EmailShaped(s) && |s| >= 1 && s[|s| - 1] == '.'
      && exists a :: FirstAt(s, a) && a + 3 <= |s| && NoDotIn(s, a + 2, |s| - 1)
  }

  /** An occurrence in a prefix is an occurrence in the whole. */
  lemma MatchExtends(p: string, c: char, a: int, d: int)
    requires MatchAt(p, a, d)
    ensures MatchAt(p + [c], a, d)
  {
    var s := p + [c];
    forall j | a - 1 <= j <= d + 1 ensures !IsSpace(s[j]) {
      assert s[j] == p[j];
    }
  }

  /** An occurrence that the prefix lacks ends with the new character, and its
      "@" sits in the prefix's trailing word. */
  lemma NewMatchEndsHere(p: string, c: char, a: int, d: int)
    requires !EmailShaped(p) && MatchAt(p + [c], a, d)
    ensures d == |p| - 1 && a - 1 >= WordStart(p) && !IsSpace(c)
  {
    var s := p + [c];
    if d + 2 <= |p| {
      forall j | a - 1 <= j <= d + 1 ensures !IsSpace(p[j]) {
        assert p[j] == s[j];
      }
      assert MatchAt(p, a, d);
    }
    assert s[d + 1] == c;
    forall j | a - 1 <= j <= d ensures !IsSpace(p[j]) {
      assert p[j] == s[j];
    }
  }

  /** The prefix's trailing word carries over when a non-space character is added. */
  lemma WordStartGrows(p: string, c: char)
    requires !IsSpace(c)
    ensures WordStart(p + [c]) == WordStart(p)
  {
    assert (p + [c])[..|p|] == p;
  }

  /** Adding white space ends any word without completing an occurrence. */
  lemma SpaceStep(p: string, c: char)
    requires IsSpace(c) && !EmailShaped(p)
    ensures Inv(p + [c], Start)
  {
    if EmailShaped(p + [c]) {
      var a, d :| MatchAt(p + [c], a, d);
      NewMatchEndsHere(p, c, a, d);
    }
  }

  /** No occurrence can end at the new character unless the prefix ends with a
      usable "." after the first usable "@". */
  lemma NoNewMatch(p: string, c: char)
    requires !EmailShaped(p)
    requires Inv(p, Start) || Inv(p, InLocal) || Inv(p, AfterAt) || Inv(p, InDomain)
    ensures !EmailShaped(p + [c])
  {
    if EmailShaped(p + [c]) {
      var a, d :| MatchAt(p + [c], a, d);
      NewMatchEndsHere(p, c, a, d);
    }
  }

  /** One character of the scan keeps `Inv`. */
  lemma StepKeepsInv(p: string, c: char)
    requires Inv(p, Scan(p))
    ensures Inv(p + [c], Step(Scan(p), c))
  {
    var s := p + [c];
    var st := Scan(p);
    assert s[..|p|] == p;
    if st == Matched {
      var a, d :| MatchAt(p, a, d);
      MatchExtends(p, c, a, d);
    } else if IsSpace(c) {
      SpaceStep(p, c);
    } else {
      WordStartGrows(p, c);
      var w := WordStart(p);
      match st
      case Start =>
        NoNewMatch(p, c);
      case InLocal =>
        NoNewMatch(p, c);
      case AfterAt =>
        NoNewMatch(p, c);
        assert FirstAt(s, |p| - 1) && |p| - 1 + 2 <= |s| && NoDotIn(s, |p| - 1 + 2, |s|);
      case InDomain =>
        NoNewMatch(p, c);
        var a :| FirstAt(p, a) && a + 2 <= |p| && NoDotIn(p, a + 2, |p|);
        assert FirstAt(s, a);
      case AfterDot =>
        var a :| FirstAt(p, a) && a + 3 <= |p| && NoDotIn(p, a + 2, |p| - 1);
        assert MatchAt(s, a, |p| - 1);
    }
  }

  /** The scan ends in `Matched` exactly when the pattern occurs. */
  lemma {:induction false} ScanMeansMatch(s: string)
    ensures Inv(s, Scan(s))
    ensures Scan(s) == Matched <==> EmailShaped(s)
  {
    if s != [] {
      var p := s[..|s| - 1];
      ScanMeansMatch(p);
      StepKeepsInv(p, s[|s| - 1]);
      assert p + [s[|s| - 1]] == s;
    }
  }

  /** The check is unanchored and looks at the characters only: text around an
      address does not matter, white space inside one does. */
  lemma PatternExamples()
    ensures Matches("a@b.c")
    ensures Matches("see x@y.org now")
    ensures Matches("a@b..c")
    ensures !Matches("a@b")
    ensures !Matches("@b.c")
    ensures !Matches("a@.c")
    ensures !Matches("a @b.c")
    ensures !Matches("a@b. c")
  {
    assert MatchAt("a@b.c", 1, 3);
    assert MatchAt("see x@y.org now", 5, 7);
    assert MatchAt("a@b..c", 1, 3);
    var s := "a @b.c";
    if EmailShaped(s) {
      var a, d :| MatchAt(s, a, d);
      assert a == 2 && IsSpace(s[a - 1]);
    }
  }
}
