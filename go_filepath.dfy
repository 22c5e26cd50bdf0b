/**
 * The functions of Go's `path/filepath` package that the upload handler
 * uses, as they behave on Unix: the only separator is '/' and there are no
 * volume names.
 */
module GoFilepath {
  import opened GoStrings

  const Separator: char := '/'

  /* ---------------------------------------------------------------------- */
  /* Ext                                                                     */
  /* ---------------------------------------------------------------------- */

  /**
   * `filepath.Ext`: scans `path` backwards from index `i`; stops with ""
   * at the start or at a separator, and returns the suffix from the first
   * '.' it meets.
   */
  function ExtFrom(path: string, i: nat): (r: string)
    requires i <= |path|
    ensures |r| <= |path| && (r == "" || r[0] == '.')
    decreases i
  {
    if i == 0 || path[i - 1] == Separator then ""
    else if path[i - 1] == '.' then path[i - 1..]
    else ExtFrom(path, i - 1)
  }

  function Ext(path: string): (r: string)
    ensures |r| <= |path| && (r == "" || r[0] == '.')
  {
    ExtFrom(path, |path|)
  }

  /**
   * Index `k` of `path` begins its extension: a '.' with neither a '.' nor
   * a separator after it. At most one index of a path has this property.
   */
  predicate ExtStartsAt(path: string, k: int)
  {
    0 <= k < |path| && path[k] == '.' &&
    forall j :: k < j < |path| ==> path[j] != '.' && path[j] != Separator
  }

  /** A non-empty extension as `Ext` returns it: a '.' and then no '.' or separator. */
  predicate IsExtension(e: string)
  {
    |e| > 0 && e[0] == '.' && forall j :: 0 < j < |e| ==> e[j] != '.' && e[j] != Separator
  }

  lemma {:induction false} ExtFromSpec(path: string, i: nat)
    requires i <= |path|
    requires forall j :: i <= j < |path| ==> path[j] != '.' && path[j] != Separator
    ensures forall k :: 0 <= k < i && ExtStartsAt(path, k) ==> ExtFrom(path, i) == path[k..]
    ensures ExtFrom(path, i) == "" <==> forall k :: 0 <= k < i ==> !ExtStartsAt(path, k)
    decreases i
  {
    if i == 0 || path[i - 1] == Separator {
    } else if path[i - 1] == '.' {
      assert ExtStartsAt(path, i - 1);
    } else {
      ExtFromSpec(path, i - 1);
    }
  }

  /**
   * `Ext(path)` is the suffix of `path` that starts at the last '.' of its
   * final element, and "" when that element has no '.'.
   */
  lemma ExtSpec(path: string)
    ensures forall k :: ExtStartsAt(path, k) ==> Ext(path) == path[k..]
    ensures Ext(path) == "" <==> forall k :: 0 <= k < |path| ==> !ExtStartsAt(path, k)
  {
    ExtFromSpec(path, |path|);
  }

  /** What `Ext` returns is "" or an extension, and always a suffix of its argument. */
  lemma ExtShape(path: string)
    ensures Ext(path) == "" || IsExtension(Ext(path))
    ensures HasSuffix(path, Ext(path))
  {
    ExtSpec(path);
    if Ext(path) != "" {
      var k :| 0 <= k < |path| && ExtStartsAt(path, k);
      assert Ext(path) == path[k..];
    }
  }

  /** Whatever comes before it, a path that ends in an extension has that extension. */
  lemma ExtOfSuffixed(prefix: string, e: string)
    requires IsExtension(e)
    ensures Ext(prefix + e) == e
  {
    var p := prefix + e;
    assert ExtStartsAt(p, |prefix|) by {
      forall j | |prefix| < j < |p|
        ensures p[j] != '.' && p[j] != Separator
      {
        assert p[j] == e[j - |prefix|];
      }
    }
    ExtSpec(p);
    assert p[|prefix|..] == e;
  }

  /** A path with no '.' in it has no extension. */
  lemma ExtOfDotless(path: string)
    requires '.' !in path
    ensures Ext(path) == ""
  {
    ExtSpec(path);
  }

  /** The extension of a file inside a directory is the extension of its name. */
  lemma ExtOfChild(dir: string, name: string)
    ensures Ext(dir + [Separator] + name) == Ext(name)
  {
    ExtFromChild(dir, name, |name|);
  }

  lemma {:induction false} ExtFromChild(dir: string, name: string, i: nat)
    requires i <= |name|
    ensures ExtFrom(dir + [Separator] + name, |dir| + 1 + i) == ExtFrom(name, i)
    decreases i
  {
    var p := dir + [Separator] + name;
    var off := |dir| + 1;
    if i == 0 {
      assert p[off - 1] == Separator;
    } else {
      assert p[off + i - 1] == name[i - 1];
      if name[i - 1] != Separator && name[i - 1] == '.' {
        assert p[off + i - 1..] == name[i - 1..];
      } else if name[i - 1] != Separator {
        ExtFromChild(dir, name, i - 1);
      }
    }
  }

  /* ---------------------------------------------------------------------- */
  /* Base                                                                    */
  /* ---------------------------------------------------------------------- */

  /** `path` with its trailing separators dropped. */
  function TrimTrailingSeparators(path: string): (r: string)
    ensures r == "" || r[|r| - 1] != Separator
    decreases |path|
  {
    if |path| > 0 && path[|path| - 1] == Separator then TrimTrailingSeparators(path[..|path| - 1])
    else path
  }

  /** What is trimmed is a prefix of `path`, and everything after it is a separator. */
  lemma {:induction false} TrimTrailingSeparatorsSpec(path: string)
    ensures var r := TrimTrailingSeparators(path);
      |r| <= |path| && r == path[..|r|] && forall i :: |r| <= i < |path| ==> path[i] == Separator
    decreases |path|
  {
    if |path| > 0 && path[|path| - 1] == Separator {
      TrimTrailingSeparatorsSpec(path[..|path| - 1]);
    }
  }

  /** The part of `path` after its last separator (all of it when there is none). */
  function LastElement(path: string): (r: string)
    ensures Separator !in r
    ensures |r| <= |path| && path[|path| - |r|..] == r
    ensures |r| == |path| || path[|path| - |r| - 1] == Separator
    decreases |path|
  {
    if path == [] || path[|path| - 1] == Separator then ""
    else LastElement(path[..|path| - 1]) + [path[|path| - 1]]
  }

  /**
   * `filepath.Base`: the last element of `path` once trailing separators
   * are dropped; "." for the empty path, "/" for a path of separators only.
   */
  function Base(path: string): (r: string)
    ensures r != ""
    ensures r == [Separator] || Separator !in r
    ensures path == "" ==> r == "."
    ensures r == [Separator] <==> path != "" && forall i :: 0 <= i < |path| ==> path[i] == Separator
  {
    if path == "" then "."
    else
      var trimmed := TrimTrailingSeparators(path);
      TrimTrailingSeparatorsSpec(path);
      var last := LastElement(trimmed);
      assert last == "" <==> trimmed == "";
      if last == "" then [Separator] else last
  }

  /** A separator-free `name` right after the start of the path or a separator is the path's last element. */
  lemma LastElementAfter(prefix: string, name: string)
    requires prefix == "" || prefix[|prefix| - 1] == Separator
    requires Separator !in name
    ensures LastElement(prefix + name) == name
  {
    var p := prefix + name;
    var r := LastElement(p);
    assert |r| <= |name| by {
      if prefix != "" {
        assert p[|prefix| - 1] == Separator;
        assert forall k :: |p| - |r| <= k < |p| ==> p[k] == r[k - (|p| - |r|)];
      }
    }
    assert |r| >= |name| by {
      assert forall k :: |prefix| <= k < |p| ==> p[k] == name[k - |prefix|];
    }
    assert p[|p| - |name|..] == name;
  }

  /** Trailing separators after a path that does not end in one are exactly what is trimmed. */
  lemma {:induction false} TrimSeparatorsAfter(path: string, trailing: string)
    requires path != "" && path[|path| - 1] != Separator
    requires forall i :: 0 <= i < |trailing| ==> trailing[i] == Separator
    ensures TrimTrailingSeparators(path + trailing) == path
    decreases |trailing|
  {
    if trailing != "" {
      var p := path + trailing;
      assert p[|p| - 1] == trailing[|trailing| - 1];
      assert p[..|p| - 1] == path + trailing[..|trailing| - 1];
      TrimSeparatorsAfter(path, trailing[..|trailing| - 1]);
    } else {
      assert path + trailing == path;
    }
  }

  /**
   * The base of any path: the separator-free `name` that follows the start
   * or a separator, whatever run of separators trails it.
   */
  lemma BaseOfPath(prefix: string, name: string, trailing: string)
    requires prefix == "" || prefix[|prefix| - 1] == Separator
    requires name != "" && Separator !in name
    requires forall i :: 0 <= i < |trailing| ==> trailing[i] == Separator
    ensures Base(prefix + name + trailing) == name
  {
    var q := prefix + name;
    assert q[|q| - 1] == name[|name| - 1];
    TrimSeparatorsAfter(q, trailing);
    LastElementAfter(prefix, name);
  }

  /** The base of a file inside a directory is its name. */
  lemma BaseOfChild(dir: string, name: string)
    requires name != "" && Separator !in name
    ensures Base(dir + [Separator] + name) == name
  {
    BaseOfPath(dir + [Separator], name, "");
    assert dir + [Separator] + name + "" == dir + [Separator] + name;
  }

  /* ---------------------------------------------------------------------- */
  /* Clean and Join                                                          */
  /* ---------------------------------------------------------------------- */

  /** The separator-delimited pieces of `path`, empty ones included. */
  function Segments(path: string): (r: seq<string>)
    ensures |r| >= 1
    decreases |path|
  {
    if path == "" then [""]
    else if path[0] == Separator then [""] + Segments(path[1..])
    else
      var rest := Segments(path[1..]);
      [[path[0]] + rest[0]] + rest[1..]
  }

  /** The elements joined by single separators (`strings.Join(es, "/")`). */
  function JoinElements(es: seq<string>): string
    decreases |es|
  {
    if es == [] then ""
    else if |es| == 1 then es[0]
    else es[0] + [Separator] + JoinElements(es[1..])
  }

  /**
   * One step of `filepath.Clean`: "" and "." are dropped; ".." cancels the
   * last element unless that is a ".." itself, is dropped at the root of a
   * rooted path, and is kept otherwise; any other element is appended.
   */
  function CleanStep(stack: seq<string>, seg: string, rooted: bool): seq<string>
  {
    if seg == "" || seg == "." then stack
    else if seg == ".." then
      if |stack| > 0 && stack[|stack| - 1] != ".." then stack[..|stack| - 1]
      else if rooted then stack
      else stack + [".."]
    else stack + [seg]
  }

  function CleanSegments(stack: seq<string>, segs: seq<string>, rooted: bool): seq<string>
    decreases |segs|
  {
    if segs == [] then stack
    else CleanSegments(CleanStep(stack, segs[0], rooted), segs[1..], rooted)
  }

  /**
   * `filepath.Clean`: the shortest path naming the same file by purely
   * lexical processing; "." for a path that cleans to nothing.
   */
  function Clean(path: string): (r: string)
    ensures r != ""
    ensures path != "" && path[0] == Separator ==> r[0] == Separator
  {
    if path == "" then "."
    else
      var rooted := path[0] == Separator;
      var body := JoinElements(CleanSegments([], Segments(path), rooted));
      if rooted then [Separator] + body
      else if body == "" then "."
      else body
  }

  /** `filepath.Join` of two elements. */
  function Join(dir: string, name: string): (r: string)
    ensures r == "" <==> dir == "" && name == ""
    ensures dir != "" && dir[0] == Separator ==> r[0] == Separator
  {
    if dir != "" then Clean(dir + [Separator] + name)
    else if name != "" then Clean(name)
    else ""
  }

  /** A single path element that `Clean` keeps as it is. */
  predicate Plain(e: string)
  {
    e != "" && e != "." && e != ".." && Separator !in e
  }

  /** The rooted path whose elements are `es`. */
  function RootedPath(es: seq<string>): string
  {
    [Separator] + JoinElements(es)
  }

  /** `path` lies beneath the directory `dir`, so that removing `dir` recursively removes it. */
  predicate Beneath(path: string, dir: string)
  {
    |dir| + 1 <= |path| && path[..|dir| + 1] == dir + [Separator]
  }

  lemma {:induction false} SegmentsOfElement(e: string)
    requires Separator !in e
    ensures Segments(e) == [e]
    decreases |e|
  {
    if e != "" {
      SegmentsOfElement(e[1..]);
      assert [e[0]] + e[1..] == e;
    }
  }

  lemma {:induction false} SegmentsConcat(a: string, b: string)
    ensures Segments(a + [Separator] + b) == Segments(a) + Segments(b)
    decreases |a|
  {
    var p := a + [Separator] + b;
    if a == "" {
      assert p[1..] == b;
    } else {
      assert p[1..] == a[1..] + [Separator] + b;
      SegmentsConcat(a[1..], b);
    }
  }

  lemma {:induction false} SegmentsOfJoin(es: seq<string>)
    requires |es| >= 1
    requires forall i :: 0 <= i < |es| ==> Separator !in es[i]
    ensures Segments(JoinElements(es)) == es
    decreases |es|
  {
    SegmentsOfElement(es[0]);
    if |es| > 1 {
      SegmentsConcat(es[0], JoinElements(es[1..]));
      SegmentsOfJoin(es[1..]);
    }
  }

  lemma {:induction false} JoinElementsSnoc(es: seq<string>, e: string)
    requires |es| >= 1
    ensures JoinElements(es + [e]) == JoinElements(es) + [Separator] + e
    decreases |es|
  {
    if |es| > 1 {
      assert (es + [e])[1..] == es[1..] + [e];
      JoinElementsSnoc(es[1..], e);
    }
  }

  lemma {:induction false} CleanSegmentsAppend(stack: seq<string>, a: seq<string>, b: seq<string>, rooted: bool)
    ensures CleanSegments(stack, a + b, rooted) == CleanSegments(CleanSegments(stack, a, rooted), b, rooted)
    decreases |a|
  {
    if a == [] {
      assert a + b == b;
    } else {
      assert (a + b)[0] == a[0];
      assert (a + b)[1..] == a[1..] + b;
      CleanSegmentsAppend(CleanStep(stack, a[0], rooted), a[1..], b, rooted);
    }
  }

  lemma {:induction false} CleanSegmentsPlain(stack: seq<string>, segs: seq<string>, rooted: bool)
    requires forall i :: 0 <= i < |segs| ==> Plain(segs[i])
    ensures CleanSegments(stack, segs, rooted) == stack + segs
    decreases |segs|
  {
    if segs != [] {
      CleanSegmentsPlain(stack + [segs[0]], segs[1..], rooted);
      assert stack + [segs[0]] + segs[1..] == stack + segs;
    }
  }

  /** The elements of a rooted path with no "", "." or ".." element. */
  lemma SegmentsOfRootedPath(es: seq<string>, rest: string)
    requires |es| >= 1
    requires forall i :: 0 <= i < |es| ==> Plain(es[i])
    ensures Segments(RootedPath(es) + [Separator] + rest) == [""] + es + Segments(rest)
  {
    assert RootedPath(es) + [Separator] + rest == "" + [Separator] + (JoinElements(es) + [Separator] + rest);
    SegmentsConcat("", JoinElements(es) + [Separator] + rest);
    SegmentsConcat(JoinElements(es), rest);
    SegmentsOfJoin(es);
  }

  /** Cleaning a rooted path of plain elements followed by more segments starts from those elements. */
  lemma CleanSegmentsRooted(dirElems: seq<string>, tail: seq<string>)
    requires forall i :: 0 <= i < |dirElems| ==> Plain(dirElems[i])
    ensures CleanSegments([], [""] + dirElems + tail, true) == CleanSegments(dirElems, tail, true)
  {
    assert ([""] + dirElems + tail)[0] == "";
    assert ([""] + dirElems + tail)[1..] == dirElems + tail;
    CleanSegmentsAppend([], dirElems, tail, true);
    CleanSegmentsPlain([], dirElems, true);
    assert [] + dirElems == dirElems;
  }

  /** `Clean` of a rooted path is the root followed by its cleaned elements. */
  lemma CleanOfRooted(path: string)
    requires path != "" && path[0] == Separator
    ensures Clean(path) == [Separator] + JoinElements(CleanSegments([], Segments(path), true))
  {
  }

  /**
   * Joining a rooted directory of plain elements with a plain name is plain
   * concatenation: the result names a file directly inside the directory.
   */
  lemma JoinPlainChild(dirElems: seq<string>, name: string)
    requires |dirElems| >= 1
    requires forall i :: 0 <= i < |dirElems| ==> Plain(dirElems[i])
    requires Plain(name)
    ensures Join(RootedPath(dirElems), name) == RootedPath(dirElems) + [Separator] + name
    ensures Beneath(Join(RootedPath(dirElems), name), RootedPath(dirElems))
  {
    var dir := RootedPath(dirElems);
    var p := dir + [Separator] + name;
    SegmentsOfRootedPath(dirElems, name);
    SegmentsOfElement(name);
    CleanSegmentsRooted(dirElems, [name]);
    assert CleanSegments(dirElems, [name], true) == dirElems + [name];
    JoinElementsSnoc(dirElems, name);
    CleanOfRooted(p);
    assert Join(dir, name) == [Separator] + (JoinElements(dirElems) + [Separator] + name);
  }

  /** The extension of a rooted path is that of its last element. */
  lemma ExtOfRootedPath(es: seq<string>, e: string)
    ensures Ext(RootedPath(es + [e])) == Ext(e)
  {
    if es == [] {
      assert RootedPath(es + [e]) == "" + [Separator] + e;
      ExtOfChild("", e);
    } else {
      JoinElementsSnoc(es, e);
      assert RootedPath(es + [e]) == RootedPath(es) + [Separator] + e;
      ExtOfChild(RootedPath(es), e);
    }
  }

  /**
   * A name of the form "../rest" joined to a rooted directory of plain
   * elements lands in the directory's parent.
   */
  lemma JoinParentChild(dirElems: seq<string>, rest: string)
    requires |dirElems| >= 1
    requires forall i :: 0 <= i < |dirElems| ==> Plain(dirElems[i])
    requires Plain(rest)
    ensures Join(RootedPath(dirElems), ".." + [Separator] + rest)
         == RootedPath(dirElems[..|dirElems| - 1] + [rest])
  {
    var dir := RootedPath(dirElems);
    var name := ".." + [Separator] + rest;
    var p := dir + [Separator] + name;
    var n := |dirElems|;
    SegmentsOfRootedPath(dirElems, name);
    SegmentsConcat("..", rest);
    SegmentsOfElement("..");
    SegmentsOfElement(rest);
    CleanSegmentsRooted(dirElems, ["..", rest]);
    assert [""] + dirElems + ([".."] + [rest]) == [""] + dirElems + ["..", rest];
    assert Plain(dirElems[n - 1]);
    assert CleanStep(dirElems, "..", true) == dirElems[..n - 1];
    assert ["..", rest][1..] == [rest];
    assert CleanSegments(dirElems[..n - 1], [rest], true) == dirElems[..n - 1] + [rest];
    assert CleanSegments(dirElems, ["..", rest], true) == dirElems[..n - 1] + [rest];
    CleanOfRooted(p);
  }

  /* Separator counting, used to tell that one path is not beneath another. */

  function SeparatorCount(s: string): nat
  {
    multiset(s)[Separator]
  }

  lemma {:induction false} SeparatorCountOfJoin(es: seq<string>)
    requires |es| >= 1
    requires forall i :: 0 <= i < |es| ==> Separator !in es[i]
    ensures SeparatorCount(JoinElements(es)) == |es| - 1
    decreases |es|
  {
    assert multiset(es[0])[Separator] == 0;
    if |es| > 1 {
      SeparatorCountOfJoin(es[1..]);
      assert multiset(es[0] + [Separator] + JoinElements(es[1..]))
          == multiset(es[0]) + multiset([Separator]) + multiset(JoinElements(es[1..]));
    }
  }

  /** A rooted path with as many elements as `dir` does not lie beneath `dir`. */
  lemma NotBeneathSameDepth(es: seq<string>, dirElems: seq<string>)
    requires |es| == |dirElems| >= 1
    requires forall i :: 0 <= i < |es| ==> Separator !in es[i]
    requires forall i :: 0 <= i < |dirElems| ==> Separator !in dirElems[i]
    ensures !Beneath(RootedPath(es), RootedPath(dirElems))
  {
    var p := RootedPath(es);
    var d := RootedPath(dirElems) + [Separator];
    SeparatorCountOfJoin(es);
    SeparatorCountOfJoin(dirElems);
    assert multiset(p) == multiset([Separator]) + multiset(JoinElements(es));
    assert multiset(p)[Separator] == |es|;
    assert multiset(d) == multiset([Separator]) + multiset(JoinElements(dirElems)) + multiset([Separator]);
    assert multiset(d)[Separator] == |es| + 1;
    if |d| <= |p| {
      SeparatorCountOfPrefix(p, |d|);
    }
  }

  lemma SeparatorCountOfPrefix(s: string, k: nat)
    requires k <= |s|
    ensures SeparatorCount(s[..k]) <= SeparatorCount(s)
  {
    assert s == s[..k] + s[k..];
    assert multiset(s) == multiset(s[..k]) + multiset(s[k..]);
  }

}
