/** The two multer configurations (profile pictures and course thumbnails): the
    image-name filter, the stored file name and the fixed settings. */
module Uploads {
  import opened Wrappers
  import opened Text

  /** `s` and `lower` agree letter for letter once `s` is case-folded. */
  predicate EqualsFolded(s: string, lower: string) {
    |s| == |lower| && forall k :: 0 <= k < |s| ==> LowerChar(s[k]) == lower[k]
  }

  /** One of the extensions of the filter `/\.(jpg|jpeg|png|webp)$/i`, in any letter case. */
  predicate IsImageExtension(e: string) {
    EqualsFolded(e, "jpg") || EqualsFolded(e, "jpeg") || EqualsFolded(e, "png") || EqualsFolded(e, "webp")
  }

  /** The regex matches at index `i`: a dot there, then an extension running to the end. */
  predicate MatchesAt(name: string, i: int) {
    0 <= i < |name| && name[i] == '.' && IsImageExtension(name[i + 1..])
  }

  /** `name` ends with a dot followed by `ext`, the letters compared case-insensitively. */
  predicate EndsWithDotExt(name: string, ext: string) {
    |ext| + 1 <= |name| && name[|name| - |ext| - 1] == '.' && EqualsFolded(name[|name| - |ext|..], ext)
  }

  /** `originalname.match(/\.(jpg|jpeg|png|webp)$/i)`: the name ends in a dot and
      one of the extensions, in any letter case, with nothing after it. */
  function ImageAllowed(name: string): (ok: bool)
    ensures ok <==> exists i :: MatchesAt(name, i)
  {
    var ok := EndsWithDotExt(name, "jpg") || EndsWithDotExt(name, "jpeg")
              || EndsWithDotExt(name, "png") || EndsWithDotExt(name, "webp");
    assert ok ==> exists i :: MatchesAt(name, i) by {
      if EndsWithDotExt(name, "jpg") { assert MatchesAt(name, |name| - 4); }
      else if EndsWithDotExt(name, "jpeg") { assert MatchesAt(name, |name| - 5); }
      else if EndsWithDotExt(name, "png") { assert MatchesAt(name, |name| - 4); }
      else if EndsWithDotExt(name, "webp") { assert MatchesAt(name, |name| - 5); }
    }
    assert (exists i :: MatchesAt(name, i)) ==> ok by {
      if i :| MatchesAt(name, i) {
        assert name[|name| - |name[i + 1..]|..] == name[i + 1..];
      }
    }
    ok
  }

  /** Names the filter turns away: a second extension after the image one, or extra
      letters after it; the letter case does not matter. */
  lemma FilterIsAnchoredAtTheEnd()
    ensures !ImageAllowed("a.png.exe")
    ensures !ImageAllowed("a.pngx")
    ensures ImageAllowed("Photo.JPeG")
  {
    assert EndsWithDotExt("Photo.JPeG", "jpeg");
    assert "a.png.exe"[6..][0] == 'e' && LowerChar('e') == 'e';
    assert "a.png.exe"[5..][0] == '.' && LowerChar('.') == '.';
    assert "a.pngx"[3..][2] == 'x' && LowerChar('x') == 'x';
    assert "a.pngx"[2..][3] == 'x';
  }

  /** An image extension holds neither a dot nor a slash. */
  lemma ExtensionLetters(e: string)
    requires IsImageExtension(e)
    ensures '.' !in e && '/' !in e
  {
    forall k | 0 <= k < |e| ensures e[k] != '.' && e[k] != '/' {
      assert LowerChar(e[k]) in "jpgenwb";
    }
  }

  /** The filter matches at one index only: the last dot of the name. */
  lemma MatchIsUnique(name: string, i: int, j: int)
    requires MatchesAt(name, i) && MatchesAt(name, j)
    ensures i == j
  {
    ExtensionLetters(name[i + 1..]);
    ExtensionLetters(name[j + 1..]);
  }

  /** The last index of `c` in `s`, or -1. */
  function LastIndexOf(s: string, c: char): (i: int)
    ensures -1 <= i < |s|
    ensures i >= 0 ==> s[i] == c
    ensures forall j :: i < j < |s| ==> s[j] != c
  {
    if s == [] then -1
    else if s[|s| - 1] == c then |s| - 1
    else LastIndexOf(s[..|s| - 1], c)
  }

  /** Node's `path.extname` for a name that does not end in '/': from the last dot
      of the last path segment to the end; empty when the segment has no dot, when
      its last dot starts the segment (".png", a hidden file) or when the segment
      is "..". */
  function ExtName(name: string): (ext: string)
    requires name == [] || name[|name| - 1] != '/'
    ensures ext == [] || EndsWith(name, ext)
    ensures ext != [] ==> ext[0] == '.' && forall k :: 0 < k < |ext| ==> ext[k] != '.' && ext[k] != '/'
    ensures ext != [] ==> |ext| < |name| && name[|name| - |ext| - 1] != '/'
  {
    var seg := name[LastIndexOf(name, '/') + 1..];
    var d := LastIndexOf(seg, '.');
    if d <= 0 || seg == ".." then ""
    else
      assert seg[d..] == name[|name| - (|seg| - d)..];
      seg[d..]
  }

  /** `extname` of a name whose dot at `i` is followed only by characters that
      are neither a dot nor a slash, at least one of them. */
  lemma ExtNameAtLastDot(name: string, i: int)
    requires 0 <= i && i + 1 < |name| && name[i] == '.'
    requires forall j :: i < j < |name| ==> name[j] != '.' && name[j] != '/'
    ensures name[|name| - 1] != '/'
    ensures ExtName(name) == (if i == 0 || name[i - 1] == '/' then "" else name[i..])
  {
    var slash := LastSlashBefore(name, i);
    var seg := name[slash + 1..];
    var d := i - slash - 1;
    assert seg != ".." by {
      assert seg[|seg| - 1] == name[|name| - 1];
    }
    assert d > 0 ==> seg[d..] == name[i..] && seg[d - 1] == name[i - 1];
  }

  /** The last slash of such a name comes before the dot, and the dot is the
      last one of the segment after that slash. */
  lemma LastSlashBefore(name: string, i: int) returns (slash: int)
    requires 0 <= i < |name| && name[i] == '.'
    requires forall j :: i < j < |name| ==> name[j] != '.' && name[j] != '/'
    ensures slash == LastIndexOf(name, '/') && -1 <= slash < i
    ensures LastIndexOf(name[slash + 1..], '.') == i - slash - 1
  {
    slash := LastIndexOf(name, '/');
    assert slash == -1 || name[slash] == '/';
    var seg := name[slash + 1..];
    var d := i - slash - 1;
    forall j | d < j < |seg| ensures seg[j] != '.' {
      assert seg[j] == name[slash + 1 + j];
    }
    LastIndexOfIs(seg, '.', d);
  }

  /** The last occurrence is the one with none after it. */
  lemma LastIndexOfIs(s: string, c: char, k: int)
    requires 0 <= k < |s| && s[k] == c
    requires forall j :: k < j < |s| ==> s[j] != c
    ensures LastIndexOf(s, c) == k
  {
  }

  /** The name of an accepted image keeps its extension, in the letter case the
      client sent it, unless its dot starts the file name; what is kept passes
      the filter again. */
  lemma ExtNameOfImage(name: string, i: int)
    requires MatchesAt(name, i)
    ensures name[|name| - 1] != '/'
    ensures ExtName(name) == (if i == 0 || name[i - 1] == '/' then "" else name[i..])
  {
    var e := name[i + 1..];
    ExtensionLetters(e);
    assert |e| >= 3;
    forall j | i < j < |name| ensures name[j] != '.' && name[j] != '/' {
      assert name[j] == e[j - i - 1];
    }
    ExtNameAtLastDot(name, i);
  }

  /** One multer configuration: the form field, the directory part of the public
      path, the stored-name prefix, the size limit and the filter's error message. */
  datatype UploadConfig = UploadConfig(
    field: string,
    publicDir: string,
    namePrefix: string,
    maxBytes: nat,
    rejectMessage: string)

  /** `uploadProfile.js`: field "profilePicture", files under "/uploads/profile/". */
  const ProfileUpload := UploadConfig("profilePicture", "/uploads/profile/", "profile-",
                                      5 * 1024 * 1024, "Only image files are allowed")

  /** `courseMulter.js`: field "thumbnail", files under "/uploads/courses/". */
  const CourseUpload := UploadConfig("thumbnail", "/uploads/courses/", "course-",
                                     5 * 1024 * 1024, "Only image files allowed")

  /** The storage `filename` callback: prefix, `Date.now()` in decimal and the
      original extension. Multer names only files its filter accepted. */
  function StoredFileName(cfg: UploadConfig, nowMs: nat, originalName: string): (name: string)
    requires ImageAllowed(originalName)
    ensures StartsWith(name, cfg.namePrefix)
    ensures EndsWith(name, ExtName(originalName))
    ensures |cfg.namePrefix| <= |name| - |ExtName(originalName)|
    ensures IsDigits(name[|cfg.namePrefix|..|name| - |ExtName(originalName)|])
    ensures DigitsValue(name[|cfg.namePrefix|..|name| - |ExtName(originalName)|]) == nowMs
  {
    assert originalName[|originalName| - 1] != '/' by {
      var i :| MatchesAt(originalName, i);
      ExtNameOfImage(originalName, i);
    }
    var ext := ExtName(originalName);
    var digits := Decimal(nowMs);
    var name := cfg.namePrefix + digits + ext;
    assert name[|cfg.namePrefix|..|name| - |ext|] == digits;
    assert name[|name| - |ext|..] == ext;
    DecimalRoundTrip(nowMs);
    name
  }

  /** A stored image name passes the filter again, with the extension the client
      sent, unless the original name was a bare dot-file such as ".png". */
  lemma StoredNameIsImage(cfg: UploadConfig, nowMs: nat, originalName: string, i: int)
    requires MatchesAt(originalName, i) && i > 0 && originalName[i - 1] != '/'
    ensures ImageAllowed(StoredFileName(cfg, nowMs, originalName))
    ensures EndsWith(StoredFileName(cfg, nowMs, originalName), originalName[i..])
  {
    ExtNameOfImage(originalName, i);
    var name := StoredFileName(cfg, nowMs, originalName);
    var ext := originalName[i..];
    assert name[|name| - |ext|..] == ext;
    assert name[|name| - |ext| + 1..] == originalName[i + 1..];
    assert MatchesAt(name, |name| - |ext|);
  }

  /** A file in the request, as the browser named it. */
  datatype IncomingFile = IncomingFile(originalName: string)

  /** What the upload middleware leaves behind. */
  datatype UploadResult = NoFile | Stored(filename: string) | Rejected(message: string)

  /** The upload middleware for one request: no file passes through, a name the
      filter refuses is an error carrying the configured message, and an accepted
      file is stored under the constructed name. */
  function Upload(cfg: UploadConfig, file: Option<IncomingFile>, nowMs: nat): (r: UploadResult)
    ensures file.None? <==> r.NoFile?
    ensures r.Rejected? <==> file.Some? && !ImageAllowed(file.value.originalName)
    ensures r.Rejected? ==> r.message == cfg.rejectMessage
    ensures r.Stored? ==> StartsWith(r.filename, cfg.namePrefix)
    ensures r.Stored? ==> file.Some? && ImageAllowed(file.value.originalName)
                          && r.filename == StoredFileName(cfg, nowMs, file.value.originalName)
  {
    match file
    case None => NoFile
    case Some(f) =>
      if !ImageAllowed(f.originalName) then Rejected(cfg.rejectMessage)
      else Stored(StoredFileName(cfg, nowMs, f.originalName))
  }
}
