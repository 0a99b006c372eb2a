/**
 What the trimming functions remove: exactly the characters with the Unicode property White_Space, given here by
 their numbers and encoded in UTF-8.
 */
module TextUnicode {
  import opened Utf8
  import opened Text

  /** The Unicode property White_Space. */
  predicate IsWhite(c: nat) {
    || 0x09 <= c <= 0x0D || c == 0x20 || c == 0x85 || c == 0xA0 || c == 0x1680
    || 0x2000 <= c <= 0x200A || c == 0x2028 || c == 0x2029 || c == 0x202F || c == 0x205F || c == 0x3000
  }

  type White = c: nat | IsWhite(c) witness 0x20

  function CharsOf(c: White): string {
    assert IsWhite(c);
    Chars(EncodeScalar(c))
  }

  /** The text starts with this white-space character. */
  predicate Leads(s: string, c: White) {
    StartsWith(s, CharsOf(c))
  }

  predicate Trails(s: string, c: White) {
    var w := CharsOf(c);
    |w| <= |s| && s[|s| - |w|..] == w
  }

  lemma WhiteLeads(s: string, c: White)
    requires Leads(s, c)
    ensures WhiteLen(s) == |CharsOf(c)| > 0
  {
    hide CharsOf;
    WhiteBytes(c);
    var w := CharsOf(c);
    assert s[..|w|] == w;
    assert forall i :: 0 <= i < |w| ==> s[i] == w[i];
  }

  lemma WhiteTrails(s: string, c: White)
    requires Trails(s, c)
    ensures WhiteLenEnd(s) == |CharsOf(c)| > 0
  {
    hide CharsOf;
    WhiteBytes(c);
    var w := CharsOf(c);
    var t := s[|s| - |w|..];
    assert forall i :: 0 <= i < |w| ==> s[|s| - |w| + i] == t[i] == w[i];
  }

  lemma WhiteBytes(c: White)
    ensures var w := CharsOf(c);
            || (|w| == 1 && AsciiWhite(w[0]))
            || (|w| == 2 && White2(w[0], w[1]))
            || (|w| == 3 && White3(w[0], w[1], w[2]))
  {
    assert IsWhite(c);
    SmallParts(c);
    hide CharsOf;
  }

  /** The bytes of a white-space character. */
  lemma SmallParts(c: White)
    ensures var w := CharsOf(c);
            if c < 0x80 then w == [c as char]
            else if c < 0x800 then w == [0xC2 as char, c as char]
            else |w| == 3 && w[0] == (0xE0 + c / 4096) as char && w[1] == (0x80 + c / 64 % 64) as char
                 && w[2] == (0x80 + c % 64) as char
  {
    assert IsWhite(c);
    assert c / 64 / 64 == c / 4096;
  }

  lemma FoundLeading(s: string) returns (c: White)
    requires WhiteLen(s) > 0
    ensures Leads(s, c) && |CharsOf(c)| == WhiteLen(s)
  {
    var n := WhiteLen(s);
    c := WhiteOf(s[..n]);
  }

  lemma FoundTrailing(s: string) returns (c: White)
    requires WhiteLenEnd(s) > 0
    ensures Trails(s, c) && |CharsOf(c)| == WhiteLenEnd(s)
  {
    var n := WhiteLenEnd(s);
    c := WhiteOf(s[|s| - n..]);
  }

  /** The character with these bytes. */
  lemma WhiteOf(w: string) returns (c: White)
    requires WhiteLen(w) == |w| > 0 || WhiteLenEnd(w) == |w| > 0
    ensures CharsOf(c) == w
  {
    hide CharsOf;
    if |w| == 1 {
      c := w[0] as nat;
    } else if |w| == 2 {
      c := w[1] as nat;
    } else {
      c := 4096 * (w[0] as int - 0xE0) + 64 * (w[1] as int - 0x80) + (w[2] as int - 0x80);
    }
    SmallParts(c);
  }

  /** A run of white-space characters. */
  function Run(ws: seq<White>): string {
    if ws == [] then "" else CharsOf(ws[0]) + Run(ws[1..])
  }

  lemma {:induction false} RunAppend(ws: seq<White>, c: White)
    ensures Run(ws + [c]) == Run(ws) + CharsOf(c)
  {
    if ws == [] {
      assert [c][1..] == [] && CharsOf(c) + "" == CharsOf(c) && "" + CharsOf(c) == CharsOf(c);
    } else {
      assert (ws + [c])[1..] == ws[1..] + [c];
      RunAppend(ws[1..], c);
      assert CharsOf(ws[0]) + (Run(ws[1..]) + CharsOf(c)) == (CharsOf(ws[0]) + Run(ws[1..])) + CharsOf(c);
    }
  }

  lemma NoneLeads(s: string)
    requires WhiteLen(s) == 0
    ensures forall c: White :: !Leads(s, c)
  {
    forall c: White ensures !Leads(s, c) { if Leads(s, c) { WhiteLeads(s, c); } }
  }

  lemma NoneTrails(s: string)
    requires WhiteLenEnd(s) == 0
    ensures forall c: White :: !Trails(s, c)
  {
    forall c: White ensures !Trails(s, c) { if Trails(s, c) { WhiteTrails(s, c); } }
  }

  lemma {:induction false} StartTrimmed(s: string) returns (ws: seq<White>)
    ensures s == Run(ws) + TrimStart(s)
    ensures forall c: White :: !Leads(TrimStart(s), c)
    decreases |s|
  {
    hide Run, CharsOf, WhiteLen, AsciiWhite;
    var n := WhiteLen(s);
    if n == 0 {
      ws := [];
      NoRun(s);
      NoneLeads(s);
    } else {
      var c := FoundLeading(s);
      var more := StartTrimmed(s[n..]);
      assert TrimStart(s) == TrimStart(s[n..]);
      hide TrimStart;
      ws := [c] + more;
      assert ws[1..] == more;
      RunFirst(ws);
      Joined(s, s[..n], Run(more), TrimStart(s));
    }
  }

  lemma Joined(s: string, a: string, b: string, c: string)
    requires a <= s && s[|a|..] == b + c
    ensures s == (a + b) + c
  {
    assert s == a + s[|a|..];
  }

  lemma NoRun(s: string)
    ensures Run([]) == "" && "" + s == s && s + "" == s
  {
  }

  lemma RunFirst(ws: seq<White>)
    requires ws != []
    ensures Run(ws) == CharsOf(ws[0]) + Run(ws[1..])
  {
  }

  lemma {:induction false} EndTrimmed(s: string) returns (ws: seq<White>)
    ensures s == TrimEnd(s) + Run(ws)
    ensures forall c: White :: !Trails(TrimEnd(s), c)
    decreases |s|
  {
    hide Run, CharsOf, WhiteLenEnd, AsciiWhite;
    var n := |s| - WhiteLenEnd(s);
    if n == |s| {
      ws := [];
      NoRun(s);
      NoneTrails(s);
    } else {
      var c := FoundTrailing(s);
      var more := EndTrimmed(s[..n]);
      assert TrimEnd(s) == TrimEnd(s[..n]);
      hide TrimEnd;
      ws := more + [c];
      RunAppend(more, c);
      assert s == s[..n] + s[n..];
      assert (TrimEnd(s) + Run(more)) + s[n..] == TrimEnd(s) + (Run(more) + s[n..]);
    }
  }

  /** Trimming takes white-space characters off both ends until none is left there, and nothing else. */
  lemma TrimExactly(s: string) returns (before: seq<White>, after: seq<White>)
    ensures s == Run(before) + Trim(s) + Run(after)
    ensures forall c: White :: !Leads(Trim(s), c) && !Trails(Trim(s), c)
  {
    hide Run, CharsOf, TrimStart, TrimEnd;
    before := StartTrimmed(s);
    after := EndTrimmed(TrimStart(s));
    var t := TrimStart(s);
    assert Run(before) + (Trim(s) + Run(after)) == Run(before) + Trim(s) + Run(after);
    forall c: White ensures !Leads(Trim(s), c) {
      if Leads(Trim(s), c) { assert Leads(t, c) by { LeadsLonger(Trim(s), Run(after), c); } }
    }
  }

  lemma LeadsLonger(s: string, t: string, c: White)
    requires Leads(s, c)
    ensures Leads(s + t, c)
  {
    var n := |CharsOf(c)|;
    assert (s + t)[..n] == s[..n];
  }

  // ----- ASCII case -----

  const UPPER := "ABCDEFGHIJKLMNOPQRSTUVWXYZ"
  const LOWER := "abcdefghijklmnopqrstuvwxyz"

  /** Case conversion pairs the letters of the alphabet, and leaves everything else. */
  lemma CaseExactly(c: char)
    ensures |UPPER| == |LOWER| == 26
    ensures forall i :: 0 <= i < 26 ==> LowerChar(UPPER[i]) == LOWER[i] && UpperChar(LOWER[i]) == UPPER[i]
    ensures c !in UPPER ==> LowerChar(c) == c
    ensures c !in LOWER ==> UpperChar(c) == c
  {
    Alphabet();
    var upper, lower := UPPER, LOWER;
    assert 'A' <= c <= 'Z' ==> upper[c as int - 'A' as int] == c;
    assert 'a' <= c <= 'z' ==> lower[c as int - 'a' as int] == c;
  }

  lemma Alphabet()
    ensures |UPPER| == |LOWER| == 26
    ensures forall i :: 0 <= i < 26 ==> UPPER[i] as int == 'A' as int + i && LOWER[i] as int == 'a' as int + i
  {
  }
}
