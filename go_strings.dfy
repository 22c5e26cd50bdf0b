/**
 * The few functions of Go's `strings` package that the upload handler uses,
 * over strings as sequences of runes.
 */
module GoStrings {

  /**
   * `unicode.ToLower` on one rune, for the runes whose lower case is ASCII:
   * the 26 capital letters, KELVIN SIGN (U+212A) and LATIN CAPITAL LETTER I
   * WITH DOT ABOVE (U+0130). Every other rune is kept as it is.
   */
  function LowerRune(c: char): char
  {
    if 'A' <= c <= 'Z' then (c as int + 32) as char
    else if c == '\U{212A}' then 'k'
    else if c == '\U{0130}' then 'i'
    else c
  }

  /** `strings.ToLower`: lowers every rune, position by position. */
  function ToLower(s: string): (r: string)
    ensures |r| == |s|
    ensures forall i :: 0 <= i < |s| ==> r[i] == LowerRune(s[i])
  {
    if s == [] then [] else [LowerRune(s[0])] + ToLower(s[1..])
  }

  /** Lowering never makes or removes a '.' or a '/'. */
  lemma LowerRuneKeepsPunctuation(c: char)
    ensures LowerRune(c) == '.' <==> c == '.'
    ensures LowerRune(c) == '/' <==> c == '/'
  {
  }

  /** Lowering twice is lowering once. */
  lemma {:induction false} ToLowerIdempotent(s: string)
    ensures ToLower(ToLower(s)) == ToLower(s)
  {
    var once := ToLower(s);
    var twice := ToLower(once);
    forall i | 0 <= i < |s|
      ensures twice[i] == once[i]
    {
      assert LowerRune(LowerRune(s[i])) == LowerRune(s[i]);
    }
  }

  /** `strings.ReplaceAll(s, string(from), string(to))` for one-rune patterns. */
  function ReplaceRune(s: string, from: char, to: char): (r: string)
    ensures |r| == |s|
    ensures forall i :: 0 <= i < |s| ==> r[i] == (if s[i] == from then to else s[i])
  {
    if s == [] then [] else [if s[0] == from then to else s[0]] + ReplaceRune(s[1..], from, to)
  }

  /** After the replacement the pattern rune is gone, and nothing else appeared. */
  lemma ReplaceRuneRemoves(s: string, from: char, to: char)
    requires from != to
    ensures from !in ReplaceRune(s, from, to)
    ensures forall c :: c in ReplaceRune(s, from, to) && c != to ==> c in s
  {
    var r := ReplaceRune(s, from, to);
    forall c | c in r && c != to
      ensures c in s
    {
      var i :| 0 <= i < |r| && r[i] == c;
      assert s[i] == c;
    }
  }

  /** Replacing a rune that does not occur changes nothing. */
  lemma ReplaceAbsentRune(s: string, from: char, to: char)
    requires from !in s
    ensures ReplaceRune(s, from, to) == s
  {
  }

  /** `strings.HasSuffix`. */
  predicate HasSuffix(s: string, suffix: string)
  {
    |suffix| <= |s| && s[|s| - |suffix|..] == suffix
  }

  /** `strings.TrimSuffix`: drops `suffix` once if `s` ends with it. */
  function TrimSuffix(s: string, suffix: string): (r: string)
    ensures HasSuffix(s, suffix) ==> r + suffix == s
    ensures !HasSuffix(s, suffix) ==> r == s
  {
    if HasSuffix(s, suffix) then s[..|s| - |suffix|] else s
  }

  /** `t` occurs in `s` starting at index `i`. */
  predicate OccursAt(s: string, t: string, i: int)
  {
    0 <= i && i + |t| <= |s| && s[i..i + |t|] == t
  }

  /** `strings.Contains`: a left-to-right search for `t` in `s`. */
  function Contains(s: string, t: string): (b: bool)
    ensures b <==> exists i :: OccursAt(s, t, i)
    decreases |s|
  {
    if |t| <= |s| && s[..|t|] == t then
      assert OccursAt(s, t, 0);
      true
    else if s == [] then
      false
    else
      OccursShift(s, t);
      Contains(s[1..], t)
  }

  /** With no occurrence at index 0, the occurrences in `s` are those in `s[1..]`, shifted by one. */
  lemma OccursShift(s: string, t: string)
    requires s != [] && !OccursAt(s, t, 0)
    ensures (exists i :: OccursAt(s, t, i)) <==> (exists j :: OccursAt(s[1..], t, j))
  {
    if i :| OccursAt(s, t, i) {
      assert s[1..][i - 1..i - 1 + |t|] == s[i..i + |t|];
      assert OccursAt(s[1..], t, i - 1);
    }
    if j :| OccursAt(s[1..], t, j) {
      assert s[1..][j..j + |t|] == s[j + 1..j + 1 + |t|];
      assert OccursAt(s, t, j + 1);
    }
  }

}
