/**
 * The deterministic rules of the CV upload handler: which files are
 * accepted, how the scratch file is named, where conversion puts the PDF,
 * which object key and URL an upload gets, how the integrity token is
 * made, and how the virus scanner's output is read.
 */
module UploadRules {
  import opened Wrappers
  import opened GoStrings
  import opened GoFilepath
  import opened HexEncoding

  /** `1.5 * 1024 * 1024`, an exact untyped constant in the source. */
  const MaxFileSize: nat := 1572864

  const AllowedExtensions: set<string> := {".pdf", ".doc", ".docx", ".odt", ".rtf", ".wps", ".wpd"}

  /* ---------------------------------------------------------------------- */
  /* Extension validator                                                     */
  /* ---------------------------------------------------------------------- */

  /** `allowedFile`: the lower-cased extension is on the allow-list, so an accepted name has an extension. */
  predicate AllowedFile(filename: string)
    ensures AllowedFile(filename) ==> IsExtension(Ext(filename))
  {
    ExtShape(filename);
    ToLower(Ext(filename)) in AllowedExtensions
  }

  /**
   * A name is accepted exactly when its final element has a last '.' from
   * which the suffix, lowered, is on the allow-list.
   */
  lemma AllowedFileSpec(filename: string)
    ensures AllowedFile(filename) <==>
      exists k :: ExtStartsAt(filename, k) && ToLower(filename[k..]) in AllowedExtensions
  {
    ExtSpec(filename);
    if AllowedFile(filename) {
      assert ToLower("") == "";
      var k :| 0 <= k < |filename| && ExtStartsAt(filename, k);
      assert Ext(filename) == filename[k..];
    }
  }

  lemma ToLowerSuffix(s: string, k: nat)
    requires k <= |s|
    ensures ToLower(s[k..]) == ToLower(s)[k..]
  {
  }

  lemma ExtStartsAtIgnoresCase(s: string, k: int)
    ensures ExtStartsAt(s, k) <==> ExtStartsAt(ToLower(s), k)
  {
    var l := ToLower(s);
    forall j | 0 <= j < |s|
      ensures (l[j] == '.' <==> s[j] == '.') && (l[j] == Separator <==> s[j] == Separator)
    {
      LowerRuneKeepsPunctuation(s[j]);
    }
  }

  /** The validator does not see letter case: names that lower alike are accepted alike. */
  lemma AllowedFileIgnoresCase(f: string, g: string)
    requires ToLower(f) == ToLower(g)
    ensures AllowedFile(f) <==> AllowedFile(g)
  {
    AllowedFileSpec(f);
    AllowedFileSpec(g);
    forall k | ExtStartsAt(f, k)
      ensures ExtStartsAt(g, k) && ToLower(f[k..]) == ToLower(g[k..])
    {
      ExtStartsAtIgnoresCase(f, k);
      ExtStartsAtIgnoresCase(g, k);
      ToLowerSuffix(f, k);
      ToLowerSuffix(g, k);
    }
    forall k | ExtStartsAt(g, k)
      ensures ExtStartsAt(f, k)
    {
      ExtStartsAtIgnoresCase(f, k);
      ExtStartsAtIgnoresCase(g, k);
    }
  }

  /** A name that ends in an extension is judged by that extension alone, lowered. */
  lemma AllowedFileOfSuffixed(stem: string, e: string)
    requires IsExtension(e)
    ensures Ext(stem + e) == e
    ensures AllowedFile(stem + e) <==> ToLower(e) in AllowedExtensions
  {
    ExtOfSuffixed(stem, e);
  }

  /** Sample verdict: an upper-case extension is accepted. */
  lemma AllowedFileAcceptsUpperCase()
    ensures AllowedFile("REPORT.PDF")
  {
    AllowedFileOfSuffixed("REPORT", ".PDF");
    assert "REPORT" + ".PDF" == "REPORT.PDF";
    assert ToLower(".PDF") == ".pdf";
  }

  /** Sample verdict: a name without an extension is rejected. */
  lemma AllowedFileRejectsNoExtension()
    ensures !AllowedFile("README")
  {
    ExtOfDotless("README");
    assert ToLower("") == "";
  }

  /** Sample verdicts: a disallowed extension, also after an allowed one, is rejected. */
  lemma AllowedFileRejectsExe()
    ensures !AllowedFile("resume.exe")
    ensures !AllowedFile("resume.pdf.exe")
  {
    AllowedFileOfSuffixed("resume", ".exe");
    assert "resume" + ".exe" == "resume.exe";
    AllowedFileOfSuffixed("resume.pdf", ".exe");
    assert "resume.pdf" + ".exe" == "resume.pdf.exe";
    assert ToLower(".exe") == ".exe";
  }

  /** A '.' in a directory name does not make an extension: "cv.pdf/notes" is rejected. */
  lemma AllowedFileIgnoresDirectoryDots()
    ensures !AllowedFile("cv.pdf/notes")
  {
    ExtOfChild("cv.pdf", "notes");
    assert "cv.pdf" + [Separator] + "notes" == "cv.pdf/notes";
    ExtOfDotless("notes");
    assert ToLower("") == "";
  }

  /* ---------------------------------------------------------------------- */
  /* Scratch file name                                                       */
  /* ---------------------------------------------------------------------- */

  /** What `time.Now().Format("2006-01-02-15-04-05")` yields: digits and dashes. */
  predicate IsTimestamp(ts: string)
  {
    forall i :: 0 <= i < |ts| ==> '0' <= ts[i] <= '9' || ts[i] == '-'
  }

  /** The scratch name as the source builds it: only spaces are replaced in the names. */
  function ScratchNameAsWritten(firstName: string, lastName: string, timestamp: string, filename: string): (r: string)
    ensures Ext(filename) != "" ==> Ext(r) == Ext(filename)
  {
    ExtShape(filename);
    var r := ReplaceRune(firstName, ' ', '_') + "-" + ReplaceRune(lastName, ' ', '_') + "-" + timestamp + Ext(filename);
    if Ext(filename) != "" then
      ExtOfSuffixed(ReplaceRune(firstName, ' ', '_') + "-" + ReplaceRune(lastName, ' ', '_') + "-" + timestamp, Ext(filename));
      r
    else r
  }

  /** A name made safe for use as one path element: spaces and separators become '_'. */
  function SanitizeName(s: string): (r: string)
    ensures |r| == |s|
    ensures forall i :: 0 <= i < |s| ==> r[i] == (if s[i] == ' ' || s[i] == Separator then '_' else s[i])
    ensures ' ' !in r && Separator !in r
  {
    ReplaceRune(ReplaceRune(s, ' ', '_'), Separator, '_')
  }

  /** The scratch file name: `first-last-timestamp` followed by the uploaded file's extension. */
  function ScratchName(firstName: string, lastName: string, timestamp: string, filename: string): (r: string)
    ensures Ext(filename) != "" ==> Ext(r) == Ext(filename)
  {
    ExtShape(filename);
    var stem := SanitizeName(firstName) + "-" + SanitizeName(lastName) + "-" + timestamp;
    if Ext(filename) != "" then
      ExtOfSuffixed(stem, Ext(filename));
      stem + Ext(filename)
    else stem + Ext(filename)
  }

  /** An accepted upload keeps its extension in the scratch name. */
  lemma ScratchNameKeepsExtension(firstName: string, lastName: string, timestamp: string, filename: string)
    requires AllowedFile(filename)
    ensures Ext(ScratchName(firstName, lastName, timestamp, filename)) == Ext(filename)
    ensures Ext(ScratchNameAsWritten(firstName, lastName, timestamp, filename)) == Ext(filename)
  {
    assert ToLower("") == "";
  }

  /** Where no name holds a separator, the sanitised scratch name is the one the source builds. */
  lemma ScratchNameAgreesWithSource(firstName: string, lastName: string, timestamp: string, filename: string)
    requires Separator !in firstName && Separator !in lastName
    ensures ScratchName(firstName, lastName, timestamp, filename)
         == ScratchNameAsWritten(firstName, lastName, timestamp, filename)
  {
    assert SanitizeName(firstName) == ReplaceRune(firstName, ' ', '_');
    assert SanitizeName(lastName) == ReplaceRune(lastName, ' ', '_');
  }

  /** The scratch name is a single path element that `filepath.Clean` leaves alone. */
  lemma ScratchNameIsPlain(firstName: string, lastName: string, timestamp: string, filename: string)
    requires IsTimestamp(timestamp)
    ensures Plain(ScratchName(firstName, lastName, timestamp, filename))
  {
    var r := ScratchName(firstName, lastName, timestamp, filename);
    var a := SanitizeName(firstName);
    ExtShape(filename);
    assert r[|a|] == '-';
    assert r != "." && r != "..";
    forall i | 0 <= i < |r|
      ensures r[i] != Separator
    {
      var b := SanitizeName(lastName);
      var e := Ext(filename);
      if i < |a| {
        assert r[i] == a[i];
      } else if |a| + 1 < i < |a| + 1 + |b| {
        assert r[i] == b[i - |a| - 1];
      } else if |a| + 2 + |b| <= i < |a| + 2 + |b| + |timestamp| {
        assert r[i] == timestamp[i - |a| - 2 - |b|];
      } else if |a| + 2 + |b| + |timestamp| <= i {
        var j := i - (|a| + 2 + |b| + |timestamp|);
        assert r[i] == e[j];
        assert e[0] == '.';
      }
    }
  }

  /** Joined to a scratch directory, the scratch name names a file directly inside it. */
  lemma ScratchPathInScratchDir(dirElems: seq<string>, firstName: string, lastName: string, timestamp: string, filename: string)
    requires |dirElems| >= 1 && forall i :: 0 <= i < |dirElems| ==> Plain(dirElems[i])
    requires IsTimestamp(timestamp)
    ensures var name := ScratchName(firstName, lastName, timestamp, filename);
      Join(RootedPath(dirElems), name) == RootedPath(dirElems) + [Separator] + name &&
      Beneath(Join(RootedPath(dirElems), name), RootedPath(dirElems))
  {
    ScratchNameIsPlain(firstName, lastName, timestamp, filename);
    JoinPlainChild(dirElems, ScratchName(firstName, lastName, timestamp, filename));
  }

  /**
   * As written, a first name that begins with "../" moves the scratch file
   * into the parent of the scratch directory, where the recursive removal of
   * the scratch directory does not reach it.
   */
  lemma ScratchPathEscapesScratchDir(dirElems: seq<string>, rest: string, lastName: string, timestamp: string, filename: string)
    requires |dirElems| >= 1 && forall i :: 0 <= i < |dirElems| ==> Plain(dirElems[i])
    requires Separator !in rest && Separator !in lastName && IsTimestamp(timestamp)
    ensures var name := ScratchNameAsWritten(".." + [Separator] + rest, lastName, timestamp, filename);
      Join(RootedPath(dirElems), name) ==
        RootedPath(dirElems[..|dirElems| - 1] + [ScratchName(rest, lastName, timestamp, filename)]) &&
      !Beneath(Join(RootedPath(dirElems), name), RootedPath(dirElems))
  {
    var first := ".." + [Separator] + rest;
    var name := ScratchNameAsWritten(first, lastName, timestamp, filename);
    var tail := ScratchNameAsWritten(rest, lastName, timestamp, filename);
    assert ReplaceRune(first, ' ', '_') == ".." + [Separator] + ReplaceRune(rest, ' ', '_');
    assert name == ".." + [Separator] + tail;
    ScratchNameAgreesWithSource(rest, lastName, timestamp, filename);
    ScratchNameIsPlain(rest, lastName, timestamp, filename);
    JoinParentChild(dirElems, tail);
    var es := dirElems[..|dirElems| - 1] + [tail];
    NotBeneathSameDepth(es, dirElems);
  }

  /** The same on one request: first name "../a", last name "b", in the scratch directory /tmp/upload1. */
  lemma ScratchPathEscapeExample()
    ensures !Beneath(Join("/tmp/upload1", ScratchNameAsWritten("../a", "b", "2024-01-02-03-04-05", "cv.pdf")), "/tmp/upload1")
  {
    var dirElems := ["tmp", "upload1"];
    assert dirElems[1..] == ["upload1"];
    assert RootedPath(dirElems) == "/tmp/upload1";
    assert ".." + [Separator] + "a" == "../a";
    ScratchPathEscapesScratchDir(dirElems, "a", "b", "2024-01-02-03-04-05", "cv.pdf");
  }

  /* ---------------------------------------------------------------------- */
  /* PDF path rewrite                                                        */
  /* ---------------------------------------------------------------------- */

  /** The handler converts unless the extension is exactly ".pdf"; the test sees letter case. */
  predicate NeedsConversion(filePath: string)
    ensures NeedsConversion(filePath) <==> !HasSuffix(filePath, ".pdf")
  {
    PdfSuffixIsPdfExtension(filePath);
    Ext(filePath) != ".pdf"
  }

  /** A path has extension ".pdf" exactly when it ends in ".pdf", in lower case. */
  lemma PdfSuffixIsPdfExtension(path: string)
    ensures Ext(path) == ".pdf" <==> HasSuffix(path, ".pdf")
  {
    ExtShape(path);
    if HasSuffix(path, ".pdf") {
      var stem := path[..|path| - 4];
      assert stem + ".pdf" == path;
      ExtOfSuffixed(stem, ".pdf");
    }
  }

  /** `convertToPDF`'s output path: the extension trimmed off and ".pdf" appended. */
  function ConvertedPath(filePath: string): (r: string)
    ensures Ext(r) == ".pdf"
    ensures |Ext(filePath)| <= |filePath| && r == filePath[..|filePath| - |Ext(filePath)|] + ".pdf"
  {
    ExtShape(filePath);
    ExtOfSuffixed(TrimSuffix(filePath, Ext(filePath)), ".pdf");
    TrimSuffix(filePath, Ext(filePath)) + ".pdf"
  }

  /** A path that needs conversion is never its own conversion output. */
  lemma ConvertedPathDiffers(filePath: string)
    requires NeedsConversion(filePath)
    ensures ConvertedPath(filePath) != filePath
  {
  }

  /** Conversion of a file directly inside a directory writes a file directly inside the same directory. */
  lemma ConvertedPathOfChild(dir: string, name: string)
    requires Plain(name)
    ensures ConvertedPath(dir + [Separator] + name) == dir + [Separator] + ConvertedPath(name)
    ensures Plain(ConvertedPath(name))
    ensures Base(ConvertedPath(dir + [Separator] + name)) == ConvertedPath(name)
  {
    ConvertedChildPath(dir, name);
    ConvertedNameIsPlain(name);
    BaseOfChild(dir, ConvertedPath(name));
  }

  lemma ConvertedChildPath(dir: string, name: string)
    ensures ConvertedPath(dir + [Separator] + name) == dir + [Separator] + ConvertedPath(name)
  {
    var p := dir + [Separator] + name;
    ExtOfChild(dir, name);
    ExtShape(name);
    var stem := name[..|name| - |Ext(name)|];
    assert p[..|p| - |Ext(p)|] == dir + [Separator] + stem;
    assert ConvertedPath(p) == (dir + [Separator] + stem) + ".pdf";
    assert ConvertedPath(name) == stem + ".pdf";
    assert (dir + [Separator] + stem) + ".pdf" == dir + [Separator] + (stem + ".pdf");
  }

  /** Converting a plain file name gives a plain file name. */
  lemma ConvertedNameIsPlain(name: string)
    requires Plain(name)
    ensures Plain(ConvertedPath(name))
  {
    var c := ConvertedPath(name);
    assert c != "." && c != ".." by {
      assert |c| >= 4 && c[|c| - 4..] == ".pdf";
    }
    forall i | 0 <= i < |c|
      ensures c[i] != Separator
    {
      if i < |name| - |Ext(name)| {
        assert c[i] == name[i];
      }
    }
  }

  lemma ExtHasNoSeparator(path: string)
    ensures |Ext(path)| <= |path|
    ensures forall j :: |path| - |Ext(path)| <= j < |path| ==> path[j] != Separator
  {
    var e := Ext(path);
    ExtShape(path);
    forall j | |path| - |e| <= j < |path|
      ensures path[j] != Separator
    {
      assert path[j] == e[j - (|path| - |e|)];
    }
  }

  /** The converted copy of a file beneath a directory is beneath it too: the extension lies past the last separator. */
  lemma ConvertedPathStaysBeneath(filePath: string, dir: string)
    requires Beneath(filePath, dir)
    ensures Beneath(ConvertedPath(filePath), dir)
  {
    ExtHasNoSeparator(filePath);
    assert filePath[..|dir| + 1][|dir|] == Separator;
    assert |dir| < |filePath| - |Ext(filePath)|;
    assert ConvertedPath(filePath)[..|dir| + 1] == filePath[..|dir| + 1];
  }

  /** A name that passes the case-insensitive validator as ".PDF" is still converted. */
  lemma UpperCasePdfIsConverted()
    ensures AllowedFile("CV.PDF")
    ensures NeedsConversion("CV.PDF")
    ensures ConvertedPath("CV.PDF") == "CV.pdf"
  {
    ExtOfSuffixed("CV", ".PDF");
    assert "CV" + ".PDF" == "CV.PDF";
    assert ToLower(".PDF") == ".pdf";
  }

  /* ---------------------------------------------------------------------- */
  /* Object key and URL                                                      */
  /* ---------------------------------------------------------------------- */

  /** The public URL of `key`: `endpoint/bucket/key`; the key can be read back from it. */
  function ObjectURL(endpoint: string, bucket: string, key: string): (url: string)
    ensures |url| == |endpoint| + |bucket| + |key| + 2
    ensures url[..|endpoint| + |bucket| + 2] == endpoint + "/" + bucket + "/"
    ensures url[|endpoint| + |bucket| + 2..] == key
  {
    endpoint + "/" + bucket + "/" + key
  }

  /**
   * `uploadToS3`: when the store accepts the file (the open and the put both
   * succeed), the URL of the object keyed by the file's base name.
   */
  function UploadToS3(endpoint: string, bucket: string, filePath: string, stored: bool): (r: Option<string>)
    ensures r.Some? <==> stored
    ensures stored ==> r.value == ObjectURL(endpoint, bucket, Base(filePath))
  {
    if stored then Some(ObjectURL(endpoint, bucket, Base(filePath))) else None
  }

  /** Distinct keys in one bucket get distinct URLs. */
  lemma ObjectURLInjective(endpoint: string, bucket: string, k1: string, k2: string)
    requires ObjectURL(endpoint, bucket, k1) == ObjectURL(endpoint, bucket, k2)
    ensures k1 == k2
  {
    var n := |endpoint| + |bucket| + 2;
    assert ObjectURL(endpoint, bucket, k1)[n..] == k1;
  }

  /* ---------------------------------------------------------------------- */
  /* Integrity token                                                         */
  /* ---------------------------------------------------------------------- */

  /** An HMAC-SHA256 digest: 32 bytes. */
  type Digest = d: seq<byte> | |d| == 32 witness seq(32, _ => 0 as byte)

  /** A keyed MAC over a key and a message, both as the bytes of their text. */
  type Mac = (string, string) -> Digest

  /** The signed message: the three fields joined by ':'. */
  function TokenMessage(userUUID: string, filePath: string, fileURL: string): (m: string)
    ensures |m| == |userUUID| + |filePath| + |fileURL| + 2
    ensures m[..|userUUID|] == userUUID && m[|userUUID|] == ':'
    ensures m[|userUUID| + 1..|userUUID| + 1 + |filePath|] == filePath && m[|userUUID| + 1 + |filePath|] == ':'
    ensures m[|userUUID| + |filePath| + 2..] == fileURL
  {
    userUUID + ":" + filePath + ":" + fileURL
  }

  /** `generateToken`: the lower-case hex of the MAC of the message under the secret. */
  function GenerateToken(mac: Mac, secret: string, userUUID: string, filePath: string, fileURL: string): (token: string)
    ensures |token| == 64
    ensures forall i :: 0 <= i < |token| ==> IsLowerHexDigit(token[i])
    ensures DecodeString(token) == Some(mac(secret, TokenMessage(userUUID, filePath, fileURL)))
  {
    var digest := mac(secret, TokenMessage(userUUID, filePath, fileURL));
    DecodeEncode(digest);
    EncodeToString(digest)
  }

  /** Changing any one of the three fields changes the signed message. */
  lemma TokenMessageSeparatesEachField(u: string, p: string, r: string, u': string, p': string, r': string)
    ensures TokenMessage(u, p, r) == TokenMessage(u', p, r) ==> u == u'
    ensures TokenMessage(u, p, r) == TokenMessage(u, p', r) ==> p == p'
    ensures TokenMessage(u, p, r) == TokenMessage(u, p, r') ==> r == r'
  {
    var m := TokenMessage(u, p, r);
    if m == TokenMessage(u', p, r) {
      assert |u| == |u'|;
      assert m[..|u|] == u && TokenMessage(u', p, r)[..|u'|] == u';
    }
    if m == TokenMessage(u, p', r) {
      assert |p| == |p'|;
      assert m[|u| + 1..|u| + 1 + |p|] == p;
      assert TokenMessage(u, p', r)[|u| + 1..|u| + 1 + |p'|] == p';
    }
    if m == TokenMessage(u, p, r') {
      assert |r| == |r'|;
      assert m[|u| + |p| + 2..] == r;
      assert TokenMessage(u, p, r')[|u| + |p| + 2..] == r';
    }
  }

  /** Changing two fields at once can leave the message, and so the token, unchanged. */
  lemma TokenMessageAmbiguous()
    ensures TokenMessage("a:b", "c", "d") == TokenMessage("a", "b:c", "d")
  {
  }

  /* ---------------------------------------------------------------------- */
  /* Scan verdict                                                            */
  /* ---------------------------------------------------------------------- */

  /** What the scanning tool reported: whether running it failed, and its standard output. */
  datatype ToolRun = ToolRun(failed: bool, stdout: string)

  /**
   * `scanFileForViruses`: clean only when the tool ran without error and
   * its output holds "OK"; any error reads as not clean.
   */
  function ScanClean(run: ToolRun): (clean: bool)
    ensures run.failed ==> !clean
    ensures clean <==> !run.failed && ReportsOK(run.stdout)
  {
    ContainsOK(run.stdout);
    !run.failed && Contains(run.stdout, "OK")
  }

  /** The output holds an 'O' immediately followed by a 'K'. */
  predicate ReportsOK(s: string)
  {
    exists i :: 0 <= i < |s| - 1 && s[i] == 'O' && s[i + 1] == 'K'
  }

  lemma ContainsOK(s: string)
    ensures Contains(s, "OK") <==> ReportsOK(s)
  {
    if Contains(s, "OK") {
      var i :| OccursAt(s, "OK", i);
      assert s[i..i + 2][0] == s[i] && s[i..i + 2][1] == s[i + 1];
    }
    if i :| 0 <= i < |s| - 1 && s[i] == 'O' && s[i + 1] == 'K' {
      assert s[i..i + 2] == "OK";
      assert OccursAt(s, "OK", i);
    }
  }

}
