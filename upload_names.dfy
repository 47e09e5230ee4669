/** The pure rules of the upload middleware: how a user-supplied name becomes
    part of an object key, which files pass the image filter, and how the
    storage key of an upload is built. */
module UploadNames {
  import opened Common

  // ------------------------------------------------------- sanitizeFileName

  /** A character that survives `replace(/[^a-z0-9]/g, '-')`. */
  predicate IsLowerAlnum(c: char) {
    'a' <= c <= 'z' || IsDigit(c)
  }

  /** A character that may appear in a sanitized name. */
  predicate IsSafeChar(c: char) {
    IsLowerAlnum(c) || c == '-'
  }

  /** What `sanitizeFileName` promises of its output: only `a`-`z`, `0`-`9`
      and `-`, no two hyphens in a row, and no hyphen at either end. */
  predicate IsSafeName(s: string) {
    && (forall i :: 0 <= i < |s| ==> IsSafeChar(s[i]))
    && (forall i :: 0 <= i < |s| - 1 ==> !(s[i] == '-' && s[i + 1] == '-'))
    && (s != [] ==> s[0] != '-' && s[|s| - 1] != '-')
  }

  /** The letters and digits of `s`, in order. */
  function Alnums(s: string): (r: string)
    ensures |r| <= |s|
  {
    if s == [] then [] else (if IsLowerAlnum(s[0]) then [s[0]] else []) + Alnums(s[1..])
  }

  /** `replace(/[^a-z0-9]/g, '-')`. */
  function Mask(s: string): (r: string)
    ensures |r| == |s|
    ensures forall i :: 0 <= i < |s| ==> r[i] == if IsLowerAlnum(s[i]) then s[i] else '-'
  {
    seq(|s|, i requires 0 <= i < |s| => if IsLowerAlnum(s[i]) then s[i] else '-')
  }

  /** `replace(/-+/g, '-')`: every run of hyphens becomes one hyphen. */
  function Collapse(s: string): string {
    if |s| < 2 then s
    else if s[0] == '-' && s[1] == '-' then Collapse(s[1..])
    else [s[0]] + Collapse(s[1..])
  }

  /** `replace(/(^-|-$)/g, '')`: one hyphen off the front, then one off the back. */
  function TrimHyphens(s: string): string {
    var a := if s != [] && s[0] == '-' then s[1..] else s;
    if a != [] && a[|a| - 1] == '-' then a[..|a| - 1] else a
  }

  /** `sanitizeFileName` (middlewares/multer.js), with ASCII-only `toLowerCase`. */
  function SanitizeFileName(name: string): string {
    TrimHyphens(Collapse(Mask(Lower(name))))
  }

  // Facts about each step.

  lemma {:induction false} CollapseKeepsSafeChars(s: string)
    requires forall i :: 0 <= i < |s| ==> IsSafeChar(s[i])
    ensures var r := Collapse(s); forall i :: 0 <= i < |r| ==> IsSafeChar(r[i])
    decreases |s|
  {
    if |s| >= 2 {
      CollapseKeepsSafeChars(s[1..]);
      if !(s[0] == '-' && s[1] == '-') {
        var r := [s[0]] + Collapse(s[1..]);
        assert forall i :: 1 <= i < |r| ==> r[i] == Collapse(s[1..])[i - 1];
      }
    }
  }

  /** Collapse keeps the first character, and never produces two hyphens in a row. */
  lemma {:induction false} CollapseNoDoubleHyphen(s: string)
    ensures var r := Collapse(s);
      && |r| <= |s|
      && (s != [] ==> r != [] && r[0] == s[0])
      && (s != [] ==> r[|r| - 1] == s[|s| - 1])
      && forall i :: 0 <= i < |r| - 1 ==> !(r[i] == '-' && r[i + 1] == '-')
    decreases |s|
  {
    if |s| >= 2 {
      CollapseNoDoubleHyphen(s[1..]);
      var t := Collapse(s[1..]);
      if !(s[0] == '-' && s[1] == '-') {
        var r := [s[0]] + t;
        assert r[1..] == t;
        forall i | 0 <= i < |r| - 1 ensures !(r[i] == '-' && r[i + 1] == '-') {
          if i > 0 { assert r[i] == t[i - 1] && r[i + 1] == t[i]; }
        }
      }
    }
  }

  lemma {:induction false} CollapseKeepsAlnums(s: string)
    ensures Alnums(Collapse(s)) == Alnums(s)
    decreases |s|
  {
    if |s| >= 2 {
      CollapseKeepsAlnums(s[1..]);
      if s[0] == '-' && s[1] == '-' {
        assert Alnums(s) == Alnums(s[1..]);
      } else {
        var r := [s[0]] + Collapse(s[1..]);
        assert r[0] == s[0] && r[1..] == Collapse(s[1..]);
      }
    }
  }

  /** Collapse leaves a string with no two hyphens in a row as it is. */
  lemma {:induction false} CollapseOfCollapsed(s: string)
    requires forall i :: 0 <= i < |s| - 1 ==> !(s[i] == '-' && s[i + 1] == '-')
    ensures Collapse(s) == s
    decreases |s|
  {
    if |s| >= 2 {
      CollapseOfCollapsed(s[1..]);
      assert [s[0]] + s[1..] == s;
    }
  }

  /** Collapse of a string made only of hyphens is a single hyphen. */
  lemma {:induction false} CollapseOfHyphens(s: string)
    requires s != [] && forall i :: 0 <= i < |s| ==> s[i] == '-'
    ensures Collapse(s) == "-"
    decreases |s|
  {
    if |s| >= 2 { CollapseOfHyphens(s[1..]); }
  }

  lemma TrimmedIsSafe(s: string)
    requires forall i :: 0 <= i < |s| ==> IsSafeChar(s[i])
    requires forall i :: 0 <= i < |s| - 1 ==> !(s[i] == '-' && s[i + 1] == '-')
    ensures IsSafeName(TrimHyphens(s))
  {
    var a := if s != [] && s[0] == '-' then s[1..] else s;
    assert forall i :: 0 <= i < |a| - 1 ==> !(a[i] == '-' && a[i + 1] == '-') by {
      if s != [] && s[0] == '-' {
        forall i | 0 <= i < |a| - 1 ensures !(a[i] == '-' && a[i + 1] == '-') {
          assert a[i] == s[i + 1] && a[i + 1] == s[i + 2];
        }
      }
    }
    assert a != [] ==> a[0] != '-' by {
      if s != [] && s[0] == '-' && a != [] { assert a[0] == s[1]; }
    }
    var b := if a != [] && a[|a| - 1] == '-' then a[..|a| - 1] else a;
    assert b != [] ==> b[|b| - 1] != '-' by {
      if a != [] && a[|a| - 1] == '-' && b != [] { assert b[|b| - 1] == a[|a| - 2]; }
    }
    assert b != [] ==> b[0] == a[0];
  }

  lemma TrimKeepsAlnums(s: string)
    ensures Alnums(TrimHyphens(s)) == Alnums(s)
  {
    var a := if s != [] && s[0] == '-' then s[1..] else s;
    if s != [] && s[0] == '-' {
      assert Alnums(s) == [] + Alnums(s[1..]);
    }
    assert Alnums(a) == Alnums(s);
    if a != [] && a[|a| - 1] == '-' {
      var init, last := a[..|a| - 1], [a[|a| - 1]];
      assert init + last == a;
      AlnumsOfAppend(init, last);
      assert last[1..] == [];
      assert Alnums(last) == [] + Alnums([]);
    }
  }

  lemma {:induction false} AlnumsOfAppend(s: string, t: string)
    ensures Alnums(s + t) == Alnums(s) + Alnums(t)
  {
    if s != [] {
      assert (s + t)[1..] == s[1..] + t;
      AlnumsOfAppend(s[1..], t);
    } else {
      assert s + t == t;
    }
  }

  lemma {:induction false} MaskKeepsAlnums(s: string)
    ensures Alnums(Mask(s)) == Alnums(s)
  {
    if s != [] {
      assert Mask(s)[1..] == Mask(s[1..]);
      MaskKeepsAlnums(s[1..]);
    }
  }

  // The properties of sanitizeFileName.

  /** The result contains only `a`-`z`, `0`-`9` and `-`, never two hyphens in
      a row, and neither starts nor ends with a hyphen. */
  lemma SanitizeIsSafe(name: string)
    ensures IsSafeName(SanitizeFileName(name))
  {
    var m := Mask(Lower(name));
    CollapseKeepsSafeChars(m);
    CollapseNoDoubleHyphen(m);
    TrimmedIsSafe(Collapse(m));
  }

  /** The letters and digits of the result are exactly those of the
      lowercased input, in the same order: only separators are changed. */
  lemma SanitizeKeepsAlnums(name: string)
    ensures Alnums(SanitizeFileName(name)) == Alnums(Lower(name))
  {
    var m := Mask(Lower(name));
    MaskKeepsAlnums(Lower(name));
    CollapseKeepsAlnums(m);
    TrimKeepsAlnums(Collapse(m));
  }

  /** A name without any ASCII letter or digit sanitizes to the empty string. */
  lemma SanitizeAllSymbols(name: string)
    requires forall i :: 0 <= i < |name| ==> !IsLowerAlnum(LowerChar(name[i]))
    ensures SanitizeFileName(name) == ""
  {
    var m := Mask(Lower(name));
    if m != [] {
      CollapseOfHyphens(m);
    }
  }

  /** A safe name is its own sanitization. */
  lemma SanitizeOfSafe(s: string)
    requires IsSafeName(s)
    ensures SanitizeFileName(s) == s
  {
    assert Lower(s) == s;
    assert Mask(s) == s;
    CollapseOfCollapsed(s);
  }

  /** sanitizeFileName is idempotent. */
  lemma SanitizeIdempotent(name: string)
    ensures SanitizeFileName(SanitizeFileName(name)) == SanitizeFileName(name)
  {
    SanitizeIsSafe(name);
    SanitizeOfSafe(SanitizeFileName(name));
  }

  // ------------------------------------------------------- path.extname

  /** The index of the last `.` in `s`, or -1. */
  function LastDot(s: string): (k: int)
    ensures -1 <= k < |s|
    ensures k >= 0 ==> s[k] == '.'
    ensures forall j :: k < j < |s| ==> s[j] != '.'
  {
    if s == [] then -1
    else if s[|s| - 1] == '.' then |s| - 1
    else LastDot(s[..|s| - 1])
  }

  /** `p` without its trailing slashes. */
  function StripTrailingSlashes(p: string): (r: string)
    ensures r == [] || r[|r| - 1] != '/'
  {
    if p != [] && p[|p| - 1] == '/' then StripTrailingSlashes(p[..|p| - 1]) else p
  }

  /** Only slashes are stripped, and only at the end. */
  lemma {:induction false} StripTrailingSlashesIsPrefix(p: string)
    ensures var r := StripTrailingSlashes(p);
      |r| <= |p| && r == p[..|r|] && forall i :: |r| <= i < |p| ==> p[i] == '/'
  {
    if p != [] && p[|p| - 1] == '/' {
      var q := p[..|p| - 1];
      StripTrailingSlashesIsPrefix(q);
      var r := StripTrailingSlashes(q);
      assert StripTrailingSlashes(p) == r;
      assert q[..|r|] == p[..|r|];
      forall i | |r| <= i < |p| ensures p[i] == '/' {
        if i < |q| { assert p[i] == q[i]; }
      }
    }
  }

  /** The part of `p` after its last `/`. */
  function AfterLastSlash(p: string): (r: string)
    ensures forall i :: 0 <= i < |r| ==> r[i] != '/'
  {
    if p == [] then []
    else if p[|p| - 1] == '/' then []
    else AfterLastSlash(p[..|p| - 1]) + [p[|p| - 1]]
  }

  /** The last segment is a suffix of the path, and a slash comes before it when anything does. */
  lemma {:induction false} AfterLastSlashIsSuffix(p: string)
    ensures var r := AfterLastSlash(p);
      |r| <= |p| && r == p[|p| - |r|..] && (|r| < |p| ==> p[|p| - |r| - 1] == '/')
  {
    if p != [] && p[|p| - 1] != '/' {
      var q := p[..|p| - 1];
      AfterLastSlashIsSuffix(q);
      var r := AfterLastSlash(q);
      assert AfterLastSlash(p) == r + [p[|p| - 1]];
      assert q[|q| - |r|..] + [p[|p| - 1]] == p[|p| - |r| - 1..];
      if |r| < |q| { assert p[|q| - |r| - 1] == q[|q| - |r| - 1]; }
    }
  }

  /** Node's POSIX `path.extname`: from the last `.` of the last path segment
      to its end, or "" when there is no dot, when the dot starts the segment
      (`.bashrc`), or when the segment is `..`. */
  function Extname(p: string): (e: string)
    ensures e == [] || (e[0] == '.' && forall i :: 1 <= i < |e| ==> e[i] != '.' && e[i] != '/')
  {
    var base := AfterLastSlash(StripTrailingSlashes(p));
    var k := LastDot(base);
    if k <= 0 || base == ".." then "" else base[k..]
  }

  lemma {:induction false} LastDotOfDotless(s: string)
    requires forall i :: 0 <= i < |s| ==> s[i] != '.'
    ensures LastDot(s) == -1
  {
    if s != [] { LastDotOfDotless(s[..|s| - 1]); }
  }

  lemma {:induction false} AfterLastSlashOfSlashless(s: string)
    requires forall i :: 0 <= i < |s| ==> s[i] != '/'
    ensures AfterLastSlash(s) == s
  {
    if s != [] {
      AfterLastSlashOfSlashless(s[..|s| - 1]);
      assert s[..|s| - 1] + [s[|s| - 1]] == s;
    }
  }

  lemma {:induction false} LastDotBeforeDotless(a: string, b: string)
    requires forall i :: 0 <= i < |b| ==> b[i] != '.'
    ensures LastDot(a + "." + b) == |a|
    decreases |b|
  {
    var s := a + "." + b;
    if b != [] {
      assert s[|s| - 1] == b[|b| - 1];
      assert s[..|s| - 1] == a + "." + b[..|b| - 1];
      LastDotBeforeDotless(a, b[..|b| - 1]);
    } else {
      assert s[|s| - 1] == '.';
    }
  }

  /** The extension of a file name `stem.ext` (no slash, no dot in `ext`,
      non-empty `stem`) is `.ext`. */
  lemma ExtnameOfFileName(stem: string, ext: string)
    requires stem != []
    requires forall i :: 0 <= i < |stem| ==> stem[i] != '/'
    requires forall i :: 0 <= i < |ext| ==> ext[i] != '/' && ext[i] != '.'
    requires ext != []
    ensures Extname(stem + "." + ext) == "." + ext
  {
    var name := stem + "." + ext;
    assert name[|name| - 1] == ext[|ext| - 1];
    assert StripTrailingSlashes(name) == name;
    assert forall i :: 0 <= i < |name| ==> name[i] != '/' by {
      forall i | 0 <= i < |name| ensures name[i] != '/' {
        if i < |stem| { assert name[i] == stem[i]; }
        else if i > |stem| { assert name[i] == ext[i - |stem| - 1]; }
      }
    }
    AfterLastSlashOfSlashless(name);
    LastDotBeforeDotless(stem, ext);
    assert |name| > 2;
    assert name[|stem|..] == "." + ext;
  }

  /** A name without a dot has no extension. */
  lemma ExtnameOfDotless(stem: string)
    requires forall i :: 0 <= i < |stem| ==> stem[i] != '/' && stem[i] != '.'
    ensures Extname(stem) == ""
  {
    assert StripTrailingSlashes(stem) == stem;
    AfterLastSlashOfSlashless(stem);
    LastDotOfDotless(stem);
  }

  /** A name whose only dot is its first character (`.png`) has no extension. */
  lemma ExtnameOfDotFile(stem: string)
    requires forall i :: 0 <= i < |stem| ==> stem[i] != '/' && stem[i] != '.'
    ensures Extname("." + stem) == ""
  {
    var d := "." + stem;
    assert forall i :: 0 <= i < |d| ==> d[i] != '/' by {
      forall i | 0 <= i < |d| ensures d[i] != '/' {
        if i > 0 { assert d[i] == stem[i - 1]; }
      }
    }
    assert StripTrailingSlashes(d) == d by {
      assert d[|d| - 1] != '/';
    }
    AfterLastSlashOfSlashless(d);
    assert LastDot(d) == 0 by {
      LastDotBeforeDotless("", stem);
      assert "" + "." + stem == d;
    }
  }

  // ------------------------------------------------------- fileFilter

  /** The unanchored pattern `/jpeg|jpg|png/`: the string contains one of the three words. */
  ghost predicate MentionsImageType(s: string) {
    Occurs("jpeg", s) || Occurs("jpg", s) || Occurs("png", s)
  }

  /** `allowedTypes.test(s)`. */
  function AllowedTypesTest(s: string): (b: bool)
    ensures b <==> MentionsImageType(s)
  {
    Contains(s, "jpeg") || Contains(s, "jpg") || Contains(s, "png")
  }

  const FilterMessage := "Only PNG, JPEG, and JPG files are allowed"

  datatype Verdict = Accept | Reject(message: string)

  /** `fileFilter`: the lowercased extension of the original name AND the
      declared MIME type, as given, must each contain `jpeg`, `jpg` or `png`. */
  function FileFilter(originalname: string, mimetype: string): (v: Verdict)
    ensures v.Accept? <==> MentionsImageType(Lower(Extname(originalname))) && MentionsImageType(mimetype)
    ensures v.Reject? ==> v.message == FilterMessage
  {
    if AllowedTypesTest(Lower(Extname(originalname))) && AllowedTypesTest(mimetype) then Accept
    else Reject(FilterMessage)
  }

  lemma NoOccurrenceWithoutP(w: string, s: string, j: nat)
    requires j < |w| && w[j] == 'p'
    requires forall i :: 0 <= i < |s| ==> s[i] != 'p'
    ensures !Occurs(w, s)
  {
    forall i | 0 <= i <= |s| - |w| ensures !OccursAt(w, s, i) {
      assert s[i..i + |w|][j] == s[i + j];
    }
  }

  /** Each of `jpeg`, `jpg` and `png` has a `p`, so a string without one names no image type. */
  lemma NoImageTypeWithoutP(s: string)
    requires forall i :: 0 <= i < |s| ==> s[i] != 'p'
    ensures !MentionsImageType(s)
  {
    NoOccurrenceWithoutP("jpeg", s, 1);
    NoOccurrenceWithoutP("jpg", s, 1);
    NoOccurrenceWithoutP("png", s, 0);
  }

  lemma FileFilterAccepts(originalname: string, mimetype: string, ext: string)
    requires Lower(Extname(originalname)) == ext
    requires MentionsImageType(ext) && MentionsImageType(mimetype)
    ensures FileFilter(originalname, mimetype) == Accept
  {
  }

  lemma FileFilterRejects(originalname: string, mimetype: string, ext: string)
    requires Lower(Extname(originalname)) == ext
    requires !MentionsImageType(ext) || !MentionsImageType(mimetype)
    ensures FileFilter(originalname, mimetype) == Reject(FilterMessage)
  {
  }

  /** One of the three words at index `i` makes `s` name an image type. */
  lemma ImageTypeAt(w: string, s: string, i: int)
    requires w == "jpeg" || w == "jpg" || w == "png"
    requires OccursAt(w, s, i)
    ensures MentionsImageType(s)
  {
  }

  /** A file name given as `stem.ext`, for the examples below. */
  predicate PlainStem(stem: string) {
    stem != [] && forall i :: 0 <= i < |stem| ==> stem[i] != '/'
  }

  lemma LoweredExtension(stem: string, ext: string, lowered: string)
    requires PlainStem(stem)
    requires forall i :: 0 <= i < |ext| ==> ext[i] != '/' && ext[i] != '.'
    requires ext != [] && Lower("." + ext) == lowered
    ensures Lower(Extname(stem + "." + ext)) == lowered
  {
    ExtnameOfFileName(stem, ext);
  }

  /** The extension is compared lowercased: `<stem>.PNG` declared as `image/png` passes. */
  lemma FileFilterLowercasesExtension(stem: string)
    requires PlainStem(stem)
    ensures FileFilter(stem + ".PNG", "image/png") == Accept
  {
    LoweredExtension(stem, "PNG", ".png");
    assert stem + "." + "PNG" == stem + ".PNG";
    ImageTypeAt("png", ".png", 1);
    ImageTypeAt("png", "image/png", 6);
    FileFilterAccepts(stem + ".PNG", "image/png", ".png");
  }

  /** The MIME type is compared as given: `image/PNG` is refused whatever the name. */
  lemma FileFilterKeepsMimeCase(originalname: string)
    ensures FileFilter(originalname, "image/PNG") == Reject(FilterMessage)
  {
    NoImageTypeWithoutP("image/PNG");
  }

  lemma LastExtensionOfDoubled(stem: string)
    requires PlainStem(stem)
    ensures Lower(Extname(stem + ".png.exe")) == ".exe"
  {
    var base := stem + ".png";
    assert PlainStem(base) by {
      forall i | 0 <= i < |base| ensures base[i] != '/' {
        if i >= |stem| { assert base[i] == ".png"[i - |stem|]; }
      }
    }
    var ext := "exe";
    assert forall i :: 0 <= i < |ext| ==> ext[i] != '/' && ext[i] != '.' && !IsUpper(ext[i]);
    LowercaseExtension(base, ext);
    assert base + "." + ext == stem + ".png.exe";
  }

  /** Only the last extension counts: `<stem>.png.exe` is refused. */
  lemma FileFilterUsesLastExtension(stem: string, mimetype: string)
    requires PlainStem(stem)
    ensures FileFilter(stem + ".png.exe", mimetype) == Reject(FilterMessage)
  {
    LastExtensionOfDoubled(stem);
    NoImageTypeWithoutP(".exe");
    FileFilterRejects(stem + ".png.exe", mimetype, ".exe");
  }

  lemma LowerOfLowercase(s: string)
    requires forall i :: 0 <= i < |s| ==> !IsUpper(s[i])
    ensures Lower(s) == s
  {
  }

  lemma LowercaseExtension(stem: string, ext: string)
    requires PlainStem(stem) && ext != []
    requires forall i :: 0 <= i < |ext| ==> ext[i] != '/' && ext[i] != '.' && !IsUpper(ext[i])
    ensures Lower(Extname(stem + "." + ext)) == "." + ext
  {
    ExtnameOfFileName(stem, ext);
    LowerOfLowercase("." + ext);
  }

  lemma ExtensionWithInnerWord(stem: string)
    requires PlainStem(stem)
    ensures Lower(Extname(stem + ".xjpgx")) == ".xjpgx"
  {
    var ext := "xjpgx";
    assert forall i :: 0 <= i < |ext| ==> ext[i] != '/' && ext[i] != '.' && !IsUpper(ext[i]);
    LowercaseExtension(stem, ext);
    assert stem + "." + ext == stem + ".xjpgx";
  }

  lemma InnerWordsMention()
    ensures MentionsImageType(".xjpgx") && MentionsImageType("foo/jpgbar")
  {
    ImageTypeAt("jpg", ".xjpgx", 2);
    ImageTypeAt("jpg", "foo/jpgbar", 4);
  }

  /** The test is a substring test, not an equality: `<stem>.xjpgx` declared
      as `foo/jpgbar` passes. */
  lemma FileFilterIsUnanchored(stem: string)
    requires PlainStem(stem)
    ensures FileFilter(stem + ".xjpgx", "foo/jpgbar") == Accept
  {
    ExtensionWithInnerWord(stem);
    InnerWordsMention();
    FileFilterAccepts(stem + ".xjpgx", "foo/jpgbar", ".xjpgx");
  }

  /** A name with no extension is refused whatever its MIME type. */
  lemma FileFilterNeedsExtension(stem: string, mimetype: string)
    requires forall i :: 0 <= i < |stem| ==> stem[i] != '/' && stem[i] != '.'
    ensures FileFilter(stem, mimetype) == Reject(FilterMessage)
    ensures FileFilter("." + stem, mimetype) == Reject(FilterMessage)
  {
    ExtnameOfDotless(stem);
    ExtnameOfDotFile(stem);
    NoImageTypeWithoutP(Lower(""));
  }

  // ------------------------------------------------------- storage keys

  /** The four upload destinations. */
  datatype Collection = Brands | Users | Organizations | Instruments {
    /** The key's folder. */
    function Folder(): string {
      match this
      case Brands => "brands"
      case Users => "users"
      case Organizations => "organizations"
      case Instruments => "instruments"
    }
    /** The word that starts the file name. */
    function Prefix(): string {
      match this
      case Brands => "brand"
      case Users => "user"
      case Organizations => "organization"
      case Instruments => "instrument"
    }
    /** The form field whose value names the file. */
    function NameField(): string {
      match this
      case Brands => "name"
      case Users => "username"
      case Organizations => "name"
      case Instruments => "number"
    }
  }

  /** A text field of the multipart body, if the client sent it. */
  function BodyField(body: map<string, string>, field: string): Option<string> {
    if field in body then Some(body[field]) else None
  }

  /** The name segment: the sanitized field value, or `unknown` when the field
      is missing or empty. */
  function NameSegment(c: Collection, body: map<string, string>): (seg: string)
    ensures IsSafeName(seg)
  {
    var v := BodyField(body, c.NameField());
    if Truthy(v) then (SanitizeIsSafe(v.value); SanitizeFileName(v.value)) else "unknown"
  }

  /** The `key` callback of each storage configuration:
      `<folder>/<prefix>-<name segment>-<Date.now()>-<originalname>`. */
  function ObjectKey(c: Collection, body: map<string, string>, now: nat, originalname: string): string {
    c.Folder() + "/" + c.Prefix() + "-" + NameSegment(c, body) + "-" + Decimal(now) + "-" + originalname
  }

  /** The grouping of a key's parts that the layout lemmas read it by. */
  lemma RegroupKey(folder: string, prefix: string, seg: string, stamp: string, originalname: string)
    ensures folder + "/" + prefix + "-" + seg + "-" + stamp + "-" + originalname
         == (folder + "/") + prefix + "-" + seg + ("-" + stamp + "-" + originalname)
  {
  }

  /** Where each part of `head + prefix + "-" + seg + tail` sits. */
  lemma KeyParts(head: string, prefix: string, seg: string, tail: string)
    ensures var key := head + prefix + "-" + seg + tail;
      && key[..|head|] == head
      && key[|key| - |tail|..] == tail
      && key[|head| + |prefix| + 1..|key| - |tail|] == seg
  {
    var key := head + prefix + "-" + seg + tail;
    assert key == head + (prefix + "-" + seg + tail);
    assert key == (head + prefix + "-" + seg) + tail;
    assert key[|head| + |prefix| + 1..|key| - |tail|] == (prefix + "-" + seg)[|prefix| + 1..];
  }

  /** Every key lies in its collection's folder, ends with the original file
      name after the timestamp, and its name segment is the sanitized field
      value (safe, in the sense of IsSafeName) or `unknown`. */
  lemma ObjectKeyLayout(c: Collection, body: map<string, string>, now: nat, originalname: string)
    ensures var key := ObjectKey(c, body, now, originalname);
      var head := c.Folder() + "/";
      var tail := "-" + Decimal(now) + "-" + originalname;
      && key[..|head|] == head
      && key[|key| - |tail|..] == tail
      && var seg := key[|head| + |c.Prefix()| + 1..|key| - |tail|];
         IsSafeName(seg)
         && seg == (if Truthy(BodyField(body, c.NameField()))
                    then SanitizeFileName(body[c.NameField()]) else "unknown")
  {
    var seg := NameSegment(c, body);
    RegroupKey(c.Folder(), c.Prefix(), seg, Decimal(now), originalname);
    KeyParts(c.Folder() + "/", c.Prefix(), seg, "-" + Decimal(now) + "-" + originalname);
  }

  /** A key starts with the first letter of its folder, so it is never empty. */
  lemma ObjectKeyNotEmpty(c: Collection, body: map<string, string>, now: nat, originalname: string)
    ensures |ObjectKey(c, body, now, originalname)| > 0
    ensures ObjectKey(c, body, now, originalname)[0] == c.Folder()[0]
  {
    ObjectKeyLayout(c, body, now, originalname);
    var key := ObjectKey(c, body, now, originalname);
    var head := c.Folder() + "/";
    assert |c.Folder()| > 0;
    assert key[..|head|][0] == head[0];
  }

  /** The folders of two collections start with different letters. */
  lemma FolderInitialsDiffer(c: Collection, d: Collection)
    requires c != d
    ensures |c.Folder()| > 0 && |d.Folder()| > 0 && c.Folder()[0] != d.Folder()[0]
  {
  }

  /** Uploads to different collections never share a key: the folders start
      with different letters. */
  lemma ObjectKeysOfCollectionsDiffer(c: Collection, d: Collection, b1: map<string, string>,
                                      b2: map<string, string>, t1: nat, t2: nat, n1: string, n2: string)
    requires c != d
    ensures ObjectKey(c, b1, t1, n1) != ObjectKey(d, b2, t2, n2)
  {
    ObjectKeyNotEmpty(c, b1, t1, n1);
    ObjectKeyNotEmpty(d, b2, t2, n2);
    FolderInitialsDiffer(c, d);
  }

  /** A name with no letter or digit does not fall back to `unknown`: its
      segment is empty, so the key has two hyphens in a row. */
  lemma ObjectKeyOfSymbolName()
    ensures ObjectKey(Brands, map["name" := "!!!"], 5, "a.png") == "brands/brand--5-a.png"
  {
    SanitizeAllSymbols("!!!");
    assert Decimal(5) == "5";
  }
}
