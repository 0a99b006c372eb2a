/**
 The string operations of Rust's standard library that the parsers rely on.

 A text is its UTF-8 byte string, written with one `char` per byte (code below 256), because the
 sources index texts by byte. White space is the Unicode property White_Space, spelled out as the
 UTF-8 encodings of its members.
 */
module Text {

  datatype Option<+T> = None | Some(value: T)

  datatype Result<+T, +E> = Ok(value: T) | Err(error: E)

  // ----- Searching -----

  ghost predicate OccursAt(s: string, pat: string, i: int) {
    0 <= i && i + |pat| <= |s| && s[i..i + |pat|] == pat
  }

  predicate StartsWith(s: string, pat: string) {
    |pat| <= |s| && s[..|pat|] == pat
  }

  lemma OccursInSuffix(a: string, b: string, pat: string, i: nat)
    ensures OccursAt(a + b, pat, |a| + i) <==> OccursAt(b, pat, i)
  {
  }

  /** `str::find`. */
  function Find(s: string, pat: string): (r: Option<nat>)
    ensures r.Some? ==> r.value + |pat| <= |s|
  {
    if |s| < |pat| then None
    else if s[..|pat|] == pat then Some(0)
    else
      match Find(s[1..], pat)
      case None => None
      case Some(k) => Some(k + 1)
  }

  /** `Find` returns the position of the first occurrence of `pat`, when there is one. */
  lemma {:induction false} FindFirst(s: string, pat: string)
    ensures Find(s, pat).None? ==> forall j :: !OccursAt(s, pat, j)
    ensures Find(s, pat).Some? ==>
              && OccursAt(s, pat, Find(s, pat).value)
              && forall j :: 0 <= j < Find(s, pat).value ==> !OccursAt(s, pat, j)
  {
    if |s| >= |pat| && s[..|pat|] != pat {
      FindFirst(s[1..], pat);
      assert [s[0]] + s[1..] == s;
      forall j | 1 <= j ensures OccursAt(s, pat, j) <==> OccursAt(s[1..], pat, j - 1) {
        OccursInSuffix([s[0]], s[1..], pat, j - 1);
      }
    }
  }

  lemma FindIs(s: string, pat: string, k: nat)
    requires OccursAt(s, pat, k)
    requires forall j :: 0 <= j < k ==> !OccursAt(s, pat, j)
    ensures Find(s, pat) == Some(k)
  {
    FindFirst(s, pat);
    assert Find(s, pat).Some?;
  }

  /** Occurrences that lie within `a` are the same in `a` and in any extension of it. */
  lemma OccursInPrefix(a: string, b: string, pat: string, i: nat)
    requires i + |pat| <= |a|
    ensures OccursAt(a + b, pat, i) <==> OccursAt(a, pat, i)
  {
  }

  lemma FindExtends(a: string, b: string, pat: string)
    requires Find(a, pat).Some?
    ensures Find(a + b, pat) == Find(a, pat)
  {
    var k := Find(a, pat).value;
    FindFirst(a, pat);
    OccursInPrefix(a, b, pat, k);
    forall j | 0 <= j < k ensures !OccursAt(a + b, pat, j) { OccursInPrefix(a, b, pat, j); }
    FindIs(a + b, pat, k);
  }

  // ----- White space -----

  predicate AsciiWhite(c: char) {
    '\t' <= c <= '\r' || c == ' '
  }

  predicate White2(a: char, b: char) {
    a == '\U{C2}' && (b == '\U{85}' || b == '\U{A0}')
  }

  predicate White3(a: char, b: char, c: char) {
    || (a == '\U{E1}' && b == '\U{9A}' && c == '\U{80}')
    || (a == '\U{E2}' && b == '\U{80}'
        && ('\U{80}' <= c <= '\U{8A}' || c == '\U{A8}' || c == '\U{A9}' || c == '\U{AF}'))
    || (a == '\U{E2}' && b == '\U{81}' && c == '\U{9F}')
    || (a == '\U{E3}' && b == '\U{80}' && c == '\U{80}')
  }

  /** Length of the white-space character that `s` starts with, 0 when it starts with none. */
  function WhiteLen(s: string): (n: nat)
    ensures n <= |s|
  {
    if |s| >= 1 && AsciiWhite(s[0]) then 1
    else if |s| >= 2 && White2(s[0], s[1]) then 2
    else if |s| >= 3 && White3(s[0], s[1], s[2]) then 3
    else 0
  }

  /** Length of the white-space character that `s` ends with, 0 when it ends with none. */
  function WhiteLenEnd(s: string): (n: nat)
    ensures n <= |s|
  {
    if |s| >= 1 && AsciiWhite(s[|s| - 1]) then 1
    else if |s| >= 2 && White2(s[|s| - 2], s[|s| - 1]) then 2
    else if |s| >= 3 && White3(s[|s| - 3], s[|s| - 2], s[|s| - 1]) then 3
    else 0
  }

  function TrimStart(s: string): string {
    if WhiteLen(s) == 0 then s else TrimStart(s[WhiteLen(s)..])
  }

  function TrimEnd(s: string): string {
    if WhiteLenEnd(s) == 0 then s else TrimEnd(s[..|s| - WhiteLenEnd(s)])
  }

  function Trim(s: string): string {
    TrimEnd(TrimStart(s))
  }

  // ----- ASCII case -----

  function LowerChar(c: char): char {
    if 'A' <= c <= 'Z' then c + 32 as char else c
  }

  function UpperChar(c: char): char {
    if 'a' <= c <= 'z' then c - 32 as char else c
  }

  function Lower(s: string): string {
    seq(|s|, i requires 0 <= i < |s| => LowerChar(s[i]))
  }

  function Upper(s: string): string {
    seq(|s|, i requires 0 <= i < |s| => UpperChar(s[i]))
  }
}
