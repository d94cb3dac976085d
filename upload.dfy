/**
 * The names the upload middleware gives to files (middleware/multer-config.js).
 *
 * The disk storage callback turns the client's original file name into a
 * stored name: every run of whitespace or '.' becomes one '_', then the
 * current time in milliseconds and an extension chosen from the MIME type
 * are appended. The resize step writes a second file whose name is the
 * stored name with the prefix "resized_". Everything here is a pure
 * function of strings; the clock is a parameter.
 */
module Upload {
  import opened Wrappers

  /** Directory that receives the uploads. */
  const ImagesDir := "images"

  // ---------------------------------------------------------------------
  // Sanitising the original name: `originalname.replace(/[\s.]+/g, "_")`
  // ---------------------------------------------------------------------

  /** The characters of JavaScript's `\s` class (white space and line terminators). */
  predicate IsSpace(c: char) {
    var n := c as int;
    if n <= 0x20 then 0x09 <= n <= 0x0D || n == 0x20
    else if n < 0xA0 then false
    else
      || n == 0xA0 || n == 0x1680 || 0x2000 <= n <= 0x200A || n == 0x2028 || n == 0x2029
      || n == 0x202F || n == 0x205F || n == 0x3000 || n == 0xFEFF
  }

  /** The characters of the class `[\s.]`. */
  predicate IsSeparator(c: char) {
    IsSpace(c) || c == '.'
  }

  /** A string in which the pattern `[\s.]` has no match. */
  predicate Clean(s: string) {
    forall i :: 0 <= i < |s| ==> !IsSeparator(s[i])
  }

  /** A string made only of separators. */
  predicate AllSeparators(s: string) {
    forall i :: 0 <= i < |s| ==> IsSeparator(s[i])
  }

  /** What the scan writes for one character, given the run state before it. */
  function Head(c: char, inRun: bool): (r: string)
    ensures Clean(r) && |r| <= 1
  {
    if IsSeparator(c) then (if inRun then [] else ['_']) else [c]
  }

  /**
   * The global replacement of `[\s.]+` by "_", read left to right: a
   * separator is written as "_" when it starts a run (the previous character,
   * if any, was not a separator) and is dropped when it continues one.
   * `inRun` says whether the character before `s` was a separator.
   */
  function Replace(s: string, inRun: bool): (r: string)
    ensures Clean(r)
    ensures |r| <= |s|
  {
    if s == [] then [] else Head(s[0], inRun) + Replace(s[1..], IsSeparator(s[0]))
  }

  /** `originalname.replace(/[\s.]+/g, "_")`. */
  function Sanitise(name: string): string {
    Replace(name, false)
  }

  /** Whether the last character of `s` is a separator, `inRun` for the empty string. */
  function EndsInRun(s: string, inRun: bool): bool {
    if s == [] then inRun else IsSeparator(s[|s| - 1])
  }

  /** The replacement of a concatenation is the replacement of each part, carrying the run state. */
  lemma {:induction false} ReplaceConcat(a: string, b: string, inRun: bool)
    ensures Replace(a + b, inRun) == Replace(a, inRun) + Replace(b, EndsInRun(a, inRun))
  {
    if a == [] {
      assert a + b == b;
    } else {
      var c, rest := a[0], a[1..];
      var next := IsSeparator(c);
      assert a == [c] + rest;
      assert EndsInRun(rest, next) == EndsInRun(a, inRun) by {
        if rest != [] {
          assert rest[|rest| - 1] == a[|a| - 1];
        }
      }
      calc {
        Replace(a + b, inRun);
        { assert a + b == [c] + (rest + b); }
        Replace([c] + (rest + b), inRun);
        { ReplaceCons(c, rest + b, inRun); }
        Head(c, inRun) + Replace(rest + b, next);
        { ReplaceConcat(rest, b, next); }
        Head(c, inRun) + (Replace(rest, next) + Replace(b, EndsInRun(a, inRun)));
        { AppendAssoc(Head(c, inRun), Replace(rest, next), Replace(b, EndsInRun(a, inRun))); }
        (Head(c, inRun) + Replace(rest, next)) + Replace(b, EndsInRun(a, inRun));
        { ReplaceCons(c, rest, inRun); }
        Replace(a, inRun) + Replace(b, EndsInRun(a, inRun));
      }
    }
  }

  /** Concatenation regroups freely; cited where a proof needs the regrouping as one fact. */
  lemma AppendAssoc(x: string, y: string, z: string)
    ensures x + (y + z) == (x + y) + z
  {
  }

  /** The scan writes the head of the first character, then scans on with its run state. */
  lemma ReplaceCons(c: char, rest: string, inRun: bool)
    ensures Replace([c] + rest, inRun) == Head(c, inRun) + Replace(rest, IsSeparator(c))
  {
  }

  /** Before a character that is not a separator, the run state does not matter. */
  lemma ReplaceOutsideRun(b: string, inRun: bool)
    requires b == [] || !IsSeparator(b[0])
    ensures Replace(b, inRun) == Replace(b, false)
  {
  }

  /** A non-empty run of separators becomes exactly one "_" (and nothing inside a run). */
  lemma {:induction false} ReplaceRun(s: string, inRun: bool)
    requires AllSeparators(s)
    ensures Replace(s, true) == []
    ensures s != [] ==> Replace(s, false) == "_"
  {
    if s != [] {
      ReplaceRun(s[1..], true);
    }
  }

  /**
   * Each maximal run of separators becomes one "_", independently of the
   * text around it: sanitising distributes over any split point that is
   * not inside a run.
   */
  lemma SanitiseConcat(a: string, b: string)
    requires a == [] || b == [] || !IsSeparator(a[|a| - 1]) || !IsSeparator(b[0])
    ensures Sanitise(a + b) == Sanitise(a) + Sanitise(b)
  {
    ReplaceConcat(a, b, false);
    if !(b == [] || !IsSeparator(b[0])) {
      assert !EndsInRun(a, false);
    } else {
      ReplaceOutsideRun(b, EndsInRun(a, false));
    }
  }

  /** A name that is one run of separators becomes "_". */
  lemma SanitiseRun(s: string)
    requires s != [] && AllSeparators(s)
    ensures Sanitise(s) == "_"
  {
    ReplaceRun(s, false);
  }

  /** A name with nothing to replace is left as it is. */
  lemma {:induction false} SanitiseKeepsClean(s: string)
    requires Clean(s)
    ensures Sanitise(s) == s
  {
    if s != [] {
      assert Clean(s[1..]) by {
        forall i | 0 <= i < |s[1..]| ensures !IsSeparator(s[1..][i]) {
          assert s[1..][i] == s[i + 1];
        }
      }
      SanitiseKeepsClean(s[1..]);
    }
  }

  /** Sanitising twice is sanitising once. */
  lemma SanitiseIdempotent(s: string)
    ensures Sanitise(Sanitise(s)) == Sanitise(s)
  {
    SanitiseKeepsClean(Sanitise(s));
  }

  /** The fixed points of sanitising are exactly the names without whitespace or '.'. */
  lemma SanitiseFixedPoints(s: string)
    ensures Sanitise(s) == s <==> Clean(s)
  {
    if Clean(s) {
      SanitiseKeepsClean(s);
    }
  }

  // ---------------------------------------------------------------------
  // The timestamp: `Date.now()` written in decimal by string concatenation
  // ---------------------------------------------------------------------

  predicate IsDigit(c: char) {
    '0' <= c <= '9'
  }

  function DigitChar(d: nat): (c: char)
    requires d < 10
    ensures IsDigit(c) && c as int - '0' as int == d
  {
    ('0' as int + d) as char
  }

  /** The decimal numeral of `n`, as JavaScript prints a non-negative integer below 10^21. */
  function Decimal(n: nat): (r: string)
    ensures |r| > 0
    ensures forall i :: 0 <= i < |r| ==> IsDigit(r[i])
    ensures (r[0] == '0') <==> (n == 0)
  {
    if n < 10 then [DigitChar(n)] else Decimal(n / 10) + [DigitChar(n % 10)]
  }

  /** The value of a numeral. */
  function DecimalValue(s: string): nat
    requires forall i :: 0 <= i < |s| ==> IsDigit(s[i])
  {
    if s == [] then 0
    else
      assert IsDigit(s[|s| - 1]);
      DecimalValue(s[..|s| - 1]) * 10 + (s[|s| - 1] as int - '0' as int)
  }

  /** Reading the numeral back gives the timestamp. */
  lemma {:induction false} DecimalRoundTrip(n: nat)
    ensures DecimalValue(Decimal(n)) == n
  {
    if n >= 10 {
      var r := Decimal(n);
      assert r[..|r| - 1] == Decimal(n / 10);
      DecimalRoundTrip(n / 10);
    }
  }

  /** Distinct timestamps are written differently. */
  lemma DecimalInjective(m: nat, n: nat)
    requires Decimal(m) == Decimal(n)
    ensures m == n
  {
    DecimalRoundTrip(m);
    DecimalRoundTrip(n);
  }

  // ---------------------------------------------------------------------
  // The MIME table and the stored name
  // ---------------------------------------------------------------------

  /** `MIME_TYPES`: the accepted image types and their extensions. */
  const MimeTypes: map<string, string> := map[
    "image/jpg" := "jpg",
    "image/jpeg" := "jpg",
    "image/png" := "png"
  ]

  /** `MIME_TYPES[mimetype]`; None stands for `undefined`. */
  function Extension(mimetype: string): Option<string> {
    if mimetype in MimeTypes then Some(MimeTypes[mimetype]) else None
  }

  /** The table has exactly three entries: two JPEG spellings and PNG. */
  lemma ExtensionTable(mimetype: string)
    ensures Extension(mimetype) == Some("jpg") <==> mimetype == "image/jpg" || mimetype == "image/jpeg"
    ensures Extension(mimetype) == Some("png") <==> mimetype == "image/png"
    ensures Extension(mimetype).None? <==> mimetype !in {"image/jpg", "image/jpeg", "image/png"}
  {
  }

  /** The extension as concatenation writes it: an unknown type gives the text "undefined". */
  function ExtensionText(mimetype: string): (e: string)
    ensures e == "jpg" || e == "png" || e == "undefined"
    ensures Extension(mimetype).Some? <==> e != "undefined"
  {
    Extension(mimetype).GetOr("undefined")
  }

  /** The name the disk storage gives an upload: `name + Date.now() + "." + extension`. */
  function StoredFilename(originalName: string, mimetype: string, now: nat): string {
    Sanitise(originalName) + Decimal(now) + "." + ExtensionText(mimetype)
  }

  lemma ExtensionTextClean(mimetype: string)
    ensures Clean(ExtensionText(mimetype))
  {
    var e := ExtensionText(mimetype);
    assert forall i :: 0 <= i < |e| ==> 'a' <= e[i] <= 'z';
  }

  /**
   * The stored name has no whitespace, and its only '.' is the one that
   * introduces the extension; for a known type it ends in ".jpg" or ".png".
   */
  lemma StoredFilenameShape(originalName: string, mimetype: string, now: nat)
    ensures var r, e := StoredFilename(originalName, mimetype, now), ExtensionText(mimetype);
      && |r| > |e| + 1
      && r[|r| - |e| - 1..] == "." + e
      && (forall i :: 0 <= i < |r| ==> !IsSpace(r[i]))
      && (forall i :: 0 <= i < |r| ==> (r[i] == '.' <==> i == |r| - |e| - 1))
      && (Extension(mimetype).Some? ==> r[|r| - 4..] == ".jpg" || r[|r| - 4..] == ".png")
  {
    var r, e := StoredFilename(originalName, mimetype, now), ExtensionText(mimetype);
    var s, d := Sanitise(originalName), Decimal(now);
    ExtensionTextClean(mimetype);
    assert r == s + d + "." + e;
    forall i | 0 <= i < |r|
      ensures !IsSpace(r[i]) && (r[i] == '.' <==> i == |r| - |e| - 1)
    {
      if i < |s| {
        assert r[i] == s[i];
      } else if i < |s| + |d| {
        assert r[i] == d[i - |s|];
      } else if i > |s| + |d| {
        assert r[i] == e[i - |s| - |d| - 1];
      }
    }
  }

  /** The same original name uploaded at different instants gets different stored names. */
  lemma StoredFilenameDistinctInTime(originalName: string, mimetype: string, t1: nat, t2: nat)
    requires t1 != t2
    ensures StoredFilename(originalName, mimetype, t1) != StoredFilename(originalName, mimetype, t2)
  {
    var s, e := Sanitise(originalName), ExtensionText(mimetype);
    var d1, d2 := Decimal(t1), Decimal(t2);
    if s + d1 + "." + e == s + d2 + "." + e {
      SuffixCancel(s + d1 + ".", s + d2 + ".", e);
      SuffixCancel(s + d1, s + d2, ".");
      PrefixCancel(s, d1, d2);
      DecimalInjective(t1, t2);
    }
  }

  /**
   * Different original names can share a stored name: nothing separates the
   * sanitised name from the digits of the timestamp.
   */
  lemma StoredFilenamesCanCollide()
    ensures StoredFilename("x1", "image/png", 23) == StoredFilename("x", "image/png", 123)
  {
    var png := ExtensionText("image/png");
    var tail := "." + png;
    assert Sanitise("x1") + Decimal(23) == Sanitise("x") + Decimal(123) by {
      CollisionParts();
    }
    assert StoredFilename("x1", "image/png", 23) == (Sanitise("x1") + Decimal(23)) + tail;
    assert StoredFilename("x", "image/png", 123) == (Sanitise("x") + Decimal(123)) + tail;
  }

  /**
   * The collision needs numerals of different lengths: between two
   * timestamps with as many digits (every `Date.now()` from 2001 to 2286
   * has 13), the stored name gives back the sanitised name, the instant and
   * the extension.
   */
  lemma SameWidthNoCollision(name1: string, type1: string, t1: nat, name2: string, type2: string, t2: nat)
    requires |Decimal(t1)| == |Decimal(t2)|
    requires StoredFilename(name1, type1, t1) == StoredFilename(name2, type2, t2)
    ensures Sanitise(name1) == Sanitise(name2) && t1 == t2 && ExtensionText(type1) == ExtensionText(type2)
  {
    var s1, d1, e1 := Sanitise(name1), Decimal(t1), ExtensionText(type1);
    var s2, d2, e2 := Sanitise(name2), Decimal(t2), ExtensionText(type2);
    assert '.' !in s1 + d1 && '.' !in s2 + d2 by {
      assert !IsDigit('.') && IsSeparator('.');
    }
    DotSplit(s1 + d1, e1, s2 + d2, e2);
    assert s1 == s2 && d1 == d2 by {
      assert s1 == (s1 + d1)[..|s1|] && s2 == (s2 + d2)[..|s2|];
      assert d1 == (s1 + d1)[|s1|..] && d2 == (s2 + d2)[|s2|..];
    }
    DecimalInjective(t1, t2);
  }

  /** A string with one '.' after a dot-free head splits back into that head and the rest. */
  lemma DotSplit(a1: string, e1: string, a2: string, e2: string)
    requires '.' !in a1 && '.' !in a2
    requires a1 + "." + e1 == a2 + "." + e2
    ensures a1 == a2 && e1 == e2
  {
    var r := a1 + "." + e1;
    assert |a1| == |a2| by {
      assert r[|a1|] == '.' && r[|a2|] == '.';
    }
    assert a1 == r[..|a1|] && a2 == r[..|a2|];
    assert e1 == r[|a1| + 1..] && e2 == r[|a2| + 1..];
  }

  lemma CollisionParts()
    ensures Sanitise("x1") + Decimal(23) == Sanitise("x") + Decimal(123)
  {
    CleanWords();
    DecimalWords();
    assert "x1" + "23" == "x" + "123";
  }

  lemma CleanWords()
    ensures Sanitise("x1") == "x1" && Sanitise("x") == "x"
  {
    SanitiseKeepsClean("x1");
    SanitiseKeepsClean("x");
  }

  lemma DecimalWords()
    ensures Decimal(23) == "23" && Decimal(123) == "123"
  {
    assert Decimal(2) == "2";
    assert Decimal(12) == Decimal(1) + "2" == "12";
  }

  lemma PrefixCancel(p: string, x: string, y: string)
    requires p + x == p + y
    ensures x == y
  {
    assert x == (p + x)[|p|..];
  }

  lemma SuffixCancel(x: string, y: string, q: string)
    requires x + q == y + q
    ensures x == y
  {
    assert x == (x + q)[..|x|];
  }

  // ---------------------------------------------------------------------
  // A naming scheme whose names tell their instant apart
  // ---------------------------------------------------------------------

  /**
   * The same parts with the timestamp first and a non-digit after it: the
   * timestamp can then be read back from the name, so uploads made at
   * different instants never share a name.
   */
  function TimestampFirstFilename(originalName: string, mimetype: string, now: nat): string {
    Decimal(now) + "_" + Sanitise(originalName) + "." + ExtensionText(mimetype)
  }

  /** The longest prefix made of digits. */
  function LeadingDigits(s: string): (r: string)
    ensures |r| <= |s| && r == s[..|r|]
    ensures forall i :: 0 <= i < |r| ==> IsDigit(r[i])
    ensures |r| < |s| ==> !IsDigit(s[|r|])
  {
    if s == [] || !IsDigit(s[0]) then [] else [s[0]] + LeadingDigits(s[1..])
  }

  /** The leading digits of a numeral followed by a non-digit are that numeral. */
  lemma {:induction false} LeadingDigitsOf(d: string, rest: string)
    requires forall i :: 0 <= i < |d| ==> IsDigit(d[i])
    requires rest != [] && !IsDigit(rest[0])
    ensures LeadingDigits(d + rest) == d
  {
    if d == [] {
      assert d + rest == rest;
    } else {
      assert (d + rest)[1..] == d[1..] + rest;
      LeadingDigitsOf(d[1..], rest);
    }
  }

  /** The instant a timestamp-first name was made at. */
  function TimeOf(filename: string): nat {
    DecimalValue(LeadingDigits(filename))
  }

  /** Reading the instant back from a timestamp-first name gives the timestamp. */
  lemma TimestampFirstRecoversTime(originalName: string, mimetype: string, now: nat)
    ensures TimeOf(TimestampFirstFilename(originalName, mimetype, now)) == now
  {
    var rest := "_" + Sanitise(originalName) + "." + ExtensionText(mimetype);
    assert TimestampFirstFilename(originalName, mimetype, now) == Decimal(now) + rest;
    LeadingDigitsOf(Decimal(now), rest);
    DecimalRoundTrip(now);
  }

  /** Uploads at different instants get different names, whatever their original names and types. */
  lemma TimestampFirstDistinctInTime(name1: string, type1: string, t1: nat, name2: string, type2: string, t2: nat)
    requires t1 != t2
    ensures TimestampFirstFilename(name1, type1, t1) != TimestampFirstFilename(name2, type2, t2)
  {
    TimestampFirstRecoversTime(name1, type1, t1);
    TimestampFirstRecoversTime(name2, type2, t2);
  }

  // ---------------------------------------------------------------------
  // Paths on disk
  // ---------------------------------------------------------------------

  /** Where the disk storage writes an upload, and where the controllers unlink it. */
  function UploadPath(filename: string): string {
    ImagesDir + "/" + filename
  }

  const ResizedPrefix := "resized_"

  /** `path.join("images", `resized_${fileName}`)`: the resize step's output file. */
  function ResizedPath(filename: string): string {
    ImagesDir + "/" + ResizedPrefix + filename
  }

  /**
   * The resized copy never overwrites the upload it is made from, and the
   * stored name can be read back from the resized path.
   */
  lemma ResizedPathDistinct(filename: string)
    ensures ResizedPath(filename) != UploadPath(filename)
    ensures ResizedPath(filename)[|ImagesDir| + 1 + |ResizedPrefix|..] == filename
    ensures ResizedPath(filename) == UploadPath(ResizedPrefix + filename)
  {
    assert |ResizedPath(filename)| == |UploadPath(filename)| + |ResizedPrefix|;
  }

  /**
   * The files after a successful resize: sharp writes the resized copy and
   * the upload it was made from is unlinked (lines 33-44). The upload's
   * stored name, which the request keeps, now names a removed file.
   */
  function AfterResize(files: set<string>, filename: string): (r: set<string>)
    ensures UploadPath(filename) !in r && ResizedPath(filename) in r
    ensures forall f :: f in files && f != UploadPath(filename) ==> f in r
    ensures forall f :: f in r <==> f == ResizedPath(filename) || (f in files && f != UploadPath(filename))
  {
    ResizedPathDistinct(filename);
    files - {UploadPath(filename)} + {ResizedPath(filename)}
  }
}
