/**
 When a printed Modelfile is parsed back to the commands it was printed from.

 The printer does not escape, so this does not hold of every command list; `RoundTripExactly` says of
 which lists it holds.
 */
module ModelfileRoundTrip {
  import opened Text
  import opened Modelfile

  // ----- The condition -----

  ghost predicate NoQ3(v: string) {
    forall j :: !OccursAt(v, Q3, j)
  }

  predicate EndsWith(v: string, c: char) {
    v != "" && v[|v| - 1] == c
  }

  ghost predicate NoCrLf(v: string) {
    forall i :: 0 <= i < |v| - 1 && v[i] == '\r' ==> v[i + 1] != '\n'
  }

  ghost predicate BlockSafe(v: string) {
    NoQ3(v) && !EndsWith(v, '"') && NoCrLf(v)
  }

  ghost predicate ValueSafe(v: string) {
    if '\n' in v then BlockSafe(v) else '"' !in v
  }

  ghost predicate FromSafe(v: string) {
    '\n' !in v && TrimStart(v) == v && TrimEnd(v) == v && !(v != "" && v[0] == '"')
  }

  ghost predicate NoWhite(s: string) {
    forall i :: 0 <= i < |s| ==> WhiteLen(s[i..]) == 0
  }

  ghost predicate WordSafe(name: string) {
    name != "" && NoWhite(name) && Lower(name) == name
  }

  ghost predicate CommandSafe(c: Command) {
    if c.name == "model" then FromSafe(c.args)
    else if c.name == "message" then
      match SplitMessage(c.args)
      case Some((role, content)) => IsRole(role) && ValueSafe(content)
      case None => false
    else if IsPlain(c.name) then ValueSafe(c.args)
    else WordSafe(c.name) && ValueSafe(c.args)
  }

  // ----- Lines of a concatenation -----

  lemma IndexOfIs(s: string, c: char, k: nat)
    requires k <= |s| && c !in s[..k] && (k < |s| ==> s[k] == c)
    ensures IndexOf(s, c) == k
  {
  }

  /** A line that is ended by a line feed, and the lines after it. */
  lemma LinesOfLine(a: string, s: string)
    requires '\n' !in a
    ensures Lines(a + "\n" + s) == [StripCr(a)] + Lines(s)
  {
    var t := a + "\n" + s;
    assert t[..|a|] == a && t[|a|] == '\n' && t[|a| + 1..] == s;
    IndexOfIs(t, '\n', |a|);
  }

  // ----- Triple quotes -----

  lemma Q3At(v: string, j: int)
    ensures OccursAt(v, Q3, j) <==> 0 <= j && j + 3 <= |v| && v[j] == v[j + 1] == v[j + 2] == '"'
  {
  }

  lemma NoQ3Parts(a: string, b: string)
    ensures NoQ3(a + "\n" + b) <==> NoQ3(a) && NoQ3(b)
  {
    var t := a + "\n" + b;
    forall j ensures OccursAt(a, Q3, j) ==> OccursAt(t, Q3, j) { Q3At(a, j); Q3At(t, j); }
    forall j ensures OccursAt(b, Q3, j) ==> OccursAt(t, Q3, |a| + 1 + j) { Q3At(b, j); Q3At(t, |a| + 1 + j); }
    forall j ensures OccursAt(t, Q3, j) ==> OccursAt(a, Q3, j) || OccursAt(b, Q3, j - |a| - 1) {
      Q3At(t, j);
      Q3At(a, j);
      Q3At(b, j - |a| - 1);
      assert t[|a|] == '\n';
    }
  }

  /** The first triple quote of `w` followed by one is the one that follows, unless `w` holds or helps to make one. */
  lemma Closes(w: string)
    ensures Find(w + Q3, Q3).Some? && Find(w + Q3, Q3).value <= |w|
    ensures Find(w + Q3, Q3) == Some(|w|) <==> NoQ3(w) && !EndsWith(w, '"')
  {
    var t := w + Q3;
    FindFirst(t, Q3);
    hide Find;
    assert OccursAt(t, Q3, |w|) by { Q3At(t, |w|); }
    hide OccursAt, NoQ3, EndsWith;
    if NoQ3(w) && !EndsWith(w, '"') {
      forall j | 0 <= j < |w| ensures !OccursAt(t, Q3, j) { NoEarlyQ3(w, j); }
    } else {
      LateQ3(w);
    }
  }

  lemma NoEarlyQ3(w: string, j: nat)
    requires NoQ3(w) && !EndsWith(w, '"') && j < |w|
    ensures !OccursAt(w + Q3, Q3, j)
  {
    Q3At(w + Q3, j);
    Q3At(w, j);
  }

  lemma LateQ3(w: string)
    requires !(NoQ3(w) && !EndsWith(w, '"'))
    ensures exists j :: 0 <= j < |w| && OccursAt(w + Q3, Q3, j)
  {
    if EndsWith(w, '"') {
      Q3At(w + Q3, |w| - 1);
    } else {
      var j :| OccursAt(w, Q3, j);
      Q3At(w, j);
      Q3At(w + Q3, j);
    }
  }

  lemma BlockSafeParts(a: string, b: string)
    requires '\n' !in a
    ensures BlockSafe(a + "\n" + b) <==> NoQ3(a) && !EndsWith(a, '\r') && BlockSafe(b)
  {
    var t := a + "\n" + b;
    NoQ3Parts(a, b);
    hide NoQ3;
    assert EndsWith(t, '"') <==> EndsWith(b, '"');
    assert forall i :: 0 <= i < |b| ==> b[i] == t[|a| + 1 + i];
    assert t[|a|] == '\n' && forall i :: 0 <= i < |a| ==> a[i] == t[i];
    if NoCrLf(t) {
      forall i | 0 <= i < |b| - 1 && b[i] == '\r' ensures b[i + 1] != '\n' { assert t[|a| + 1 + i] == '\r'; }
    }
    if !EndsWith(a, '\r') && NoCrLf(b) {
      forall i | 0 <= i < |t| - 1 && t[i] == '\r' ensures t[i + 1] != '\n' {
        if i + 1 < |a| { assert t[i + 1] in a; }
        if i > |a| { assert b[i - |a| - 1] == '\r'; }
      }
    }
  }

  // ----- Quoted values -----

  /**
   The lines of a block value after its first line: what is read back has the whole value exactly when
   the value is safe, and then nothing after the closing quotes is taken.
   */
  ghost predicate ReadsBlock(buf: string, w: string, following: seq<string>, after: seq<string>) {
    var r := ReadOn(buf, following);
    && r.Ok? && |r.value.value| <= |buf| + 1 + |w|
    && (r.value.value == buf + "\n" + w <==> BlockSafe(w))
    && (BlockSafe(w) ==> following[r.value.skipped..] == after)
  }

  lemma {:induction false} BlockReadExactly(buf: string, w: string, s: string)
    ensures ReadsBlock(buf, w, Lines(w + Q3 + "\n" + s), Lines(s))
    decreases |w|
  {
    hide ReadsBlock, Lines;
    var k := IndexOf(w, '\n');
    if k == |w| {
      assert w[..k] == w;
      LastLineRead(buf, w, s);
    } else {
      var line, w' := w[..k], w[k + 1..];
      assert w == line + "\n" + w';
      assert w + Q3 + "\n" + s == line + "\n" + (w' + Q3 + "\n" + s);
      LinesOfLine(line, w' + Q3 + "\n" + s);
      BlockReadExactly(buf + "\n" + StripCr(line), w', s);
      BlockStep(buf, line, w', Lines(w' + Q3 + "\n" + s), Lines(s));
    }
  }

  lemma BlockStep(buf: string, line: string, w: string, following: seq<string>, after: seq<string>)
    requires '\n' !in line && ReadsBlock(buf + "\n" + StripCr(line), w, following, after)
    ensures ReadsBlock(buf, line + "\n" + w, [StripCr(line)] + following, after)
  {
    hide BlockSafe, Find, NoQ3;
    BlockSafeParts(line, w);
    LineHasQ3(line);
    var buf' := buf + "\n" + StripCr(line);
    var lines := [StripCr(line)] + following;
    assert lines[0] == StripCr(line) && lines[1..] == following;
    if Find(StripCr(line), Q3).None? {
      var r := ReadOn(buf', following);
      assert ReadOn(buf, lines) == Ok(Read(r.value.value, r.value.skipped + 1));
      assert lines[r.value.skipped + 1..] == following[r.value.skipped..];
      if !EndsWith(line, '\r') { assert buf' + "\n" + w == buf + "\n" + (line + "\n" + w); }
    }
  }

  lemma LastLineRead(buf: string, w: string, s: string)
    requires '\n' !in w
    ensures ReadsBlock(buf, w, Lines(w + Q3 + "\n" + s), Lines(s))
  {
    hide Find, NoQ3;
    LinesOfLine(w + Q3, s);
    assert StripCr(w + Q3) == w + Q3;
    Closes(w);
    var e := Find(w + Q3, Q3).value;
    assert (w + Q3)[..e] == w[..e];
  }

  lemma LineHasQ3(a: string)
    ensures Find(StripCr(a), Q3).None? <==> NoQ3(a)
  {
    FindFirst(StripCr(a), Q3);
    forall j ensures OccursAt(a, Q3, j) <==> OccursAt(StripCr(a), Q3, j) { Q3At(a, j); Q3At(StripCr(a), j); }
  }

  /** What is read from `first` and the lines after it is `v` exactly when `v` is safe; then `after` is left. */
  ghost predicate ReadsValue(first: string, v: string, following: seq<string>, after: seq<string>) {
    var r := ReadValue(first, following);
    && (r.Ok? && r.value.value == v <==> ValueSafe(v))
    && (ValueSafe(v) ==> following[r.value.skipped..] == after)
  }

  lemma {:induction false} BlockHasNewline(buf: string, following: seq<string>)
    ensures var r := ReadOn(buf, following); r.Ok? ==> '\n' in r.value.value
    decreases |following|
  {
    hide Find;
    if following != [] {
      assert (buf + "\n")[|buf|] == '\n';
      if Find(following[0], Q3).None? { BlockHasNewline(buf + "\n" + following[0], following[1..]); }
    }
  }

  lemma LineReadExactly(v: string, following: seq<string>)
    requires '\n' !in v
    ensures ReadsValue(['"'] + v + ['"'], v, following, following)
  {
    hide Find;
    var first := ['"'] + v + ['"'];
    assert TrimStart(first) == first;
    if StartsWith(first, Q3) {
      assert first[..3][1] == '"' == v[0];
      BlockHasNewline(first[3..], following);
    } else {
      assert first[1..] == v + ['"'];
      var e := IndexOf(first[1..], '"');
      assert (v + ['"'])[|v|] == '"';
      assert e <= |v| && (v + ['"'])[..e] == v[..e];
      assert e < |v| ==> v[e] == '"';
      assert v[..|v|] == v;
    }
  }

  lemma BlockValueRead(v0: string, w: string, following: seq<string>, after: seq<string>)
    requires '\n' !in v0 && ReadsBlock(StripCr(v0), w, following, after)
    ensures ReadsValue(Q3 + StripCr(v0), v0 + "\n" + w, following, after)
  {
    hide Find, NoQ3, ReadOn, BlockSafe;
    var first, v := Q3 + StripCr(v0), v0 + "\n" + w;
    assert TrimStart(first) == first;
    assert first[..3] == Q3 && first[3..] == StripCr(v0);
    assert v[|v0|] == '\n';
    BlockSafeParts(v0, w);
    LineHasQ3(v0);
  }

  lemma Regroup(p: string, q: string, v0: string, w: string, s: string)
    ensures p + (q + (v0 + "\n" + w) + q) + "\n" + s == (p + q + v0) + "\n" + (w + q + "\n" + s)
  {
  }

  lemma StripCrOfTail(a: string, b: string)
    requires !EndsWith(a, '\r')
    ensures StripCr(a + b) == a + StripCr(b)
  {
  }

  /** A printed value behind the rest `p` of its line. */
  lemma PrintedValueRead(p: string, v: string, s: string) returns (first: string, following: seq<string>)
    requires '\n' !in p
    ensures Lines(p + Quote(v) + "\n" + s) == [p + first] + following
    ensures first != "" && first[0] == '"' && ReadsValue(first, v, following, Lines(s))
  {
    hide ReadsValue, ReadsBlock, Lines;
    if '\n' in v {
      var k := IndexOf(v, '\n');
      assert k < |v| by { assert v[..|v|] == v; }
      var v0, w := v[..k], v[k + 1..];
      assert v == v0 + "\n" + w;
      BlockReadExactly(StripCr(v0), w, s);
      first, following := Q3 + StripCr(v0), Lines(w + Q3 + "\n" + s);
      BlockValueRead(v0, w, following, Lines(s));
      Regroup(p, Q3, v0, w, s);
      LinesOfLine(p + Q3 + v0, w + Q3 + "\n" + s);
      StripCrOfTail(p + Q3, v0);
      assert (p + Q3) + StripCr(v0) == p + first;
    } else {
      first, following := Quote(v), Lines(s);
      LineReadExactly(v, following);
      LinesOfLine(p + first, s);
      assert StripCr(p + first) == p + first;
    }
  }

  // ----- Words -----

  lemma {:induction false} WordEndIs(w: string, r: string)
    requires NoWhite(w)
    ensures WordEnd(w + " " + r) == |w|
  {
    var t := w + " " + r;
    if w != "" {
      assert w[0..] == w;
      assert WhiteLen(t) == 0;
      forall i | 0 <= i < |w[1..]| ensures WhiteLen(w[1..][i..]) == 0 { assert w[1..][i..] == w[i + 1..]; }
      WordEndIs(w[1..], r);
      assert t[1..] == w[1..] + " " + r;
    }
  }

  lemma SplitWord(w: string, r: string)
    requires w != "" && NoWhite(w)
    ensures TrimStart(w + " " + r) == w + " " + r
    ensures SplitFirstWord(w + " " + r) == (w, TrimStart(r))
  {
    var t := w + " " + r;
    assert w[0..] == w;
    assert WhiteLen(t) == 0;
    WordEndIs(w, r);
    assert t[..|w|] == w && t[|w|..] == " " + r;
    assert WhiteLen(" " + r) == 1 && (" " + r)[1..] == r;
  }

  lemma AsciiWord(w: string)
    requires forall i :: 0 <= i < |w| ==> '!' <= w[i] <= '~'
    ensures NoWhite(w)
  {
  }

  /** An upper-case keyword at the start of a line. */
  lemma KeywordLine(k: string, r: string)
    requires k != "" && forall i :: 0 <= i < |k| ==> 'A' <= k[i] <= 'Z'
    ensures TrimStart(k + " " + r) == k + " " + r && !Ignored(k + " " + r)
    ensures SplitFirstWord(k + " " + r) == (k, TrimStart(r))
  {
    AsciiWord(k);
    SplitWord(k, r);
  }

  lemma WhiteLenLower(s: string)
    ensures WhiteLen(Lower(s)) == WhiteLen(s)
  {
  }

  lemma {:induction false} WordHasNoWhite(t: string)
    ensures NoWhite(t[..WordEnd(t)])
  {
    if t != "" && WhiteLen(t) == 0 {
      var w := t[..WordEnd(t)];
      WordHasNoWhite(t[1..]);
      assert w[0..] == w;
      assert w == [t[0]] + t[1..][..WordEnd(t[1..])];
      forall i | 0 <= i < |w| ensures WhiteLen(w[i..]) == 0 {
        if i > 0 { assert w[i..] == t[1..][..WordEnd(t[1..])][i - 1..]; }
      }
    }
  }

  /** The lower-cased first word of anything has no white space and no upper-case letter. */
  lemma FirstWordShape(s: string)
    ensures var w := Lower(SplitFirstWord(s).0); NoWhite(w) && Lower(w) == w
  {
    var w := SplitFirstWord(s).0;
    WordHasNoWhite(TrimStart(s));
    forall i | 0 <= i < |w| ensures WhiteLen(Lower(w)[i..]) == 0 {
      assert Lower(w)[i..] == Lower(w[i..]);
      WhiteLenLower(w[i..]);
    }
    assert Lower(Lower(w)) == Lower(w);
  }

  // ----- One printed command -----

  /** `lines` starts with a command that is read as `c` exactly when `c` is safe; then `after` is left. */
  ghost predicate ReadsCommand(c: Command, lines: seq<string>, after: seq<string>) {
    && lines != [] && !Ignored(lines[0])
    && var r := ParseCommand(TrimStart(lines[0]), lines[1..]);
    && (r.Ok? && r.value.command == c <==> CommandSafe(c))
    && (CommandSafe(c) ==> lines[1..][r.value.skipped..] == after)
  }

  /** The first line of a text whose first line feed comes no earlier than after `p`. */
  lemma FirstLine(p: string, a: string, s: string) returns (x: string, following: seq<string>)
    requires '\n' !in p && !EndsWith(p, '\r')
    ensures Lines(p + a + "\n" + s) == [p + x] + following
    ensures x <= a && '\n' !in x
    ensures '\n' !in a && !EndsWith(a, '\r') ==> x == a && following == Lines(s)
  {
    hide Lines;
    var k := IndexOf(a, '\n');
    if k == |a| {
      assert a[..k] == a;
      LinesOfLine(p + a, s);
      x, following := StripCr(a), Lines(s);
      StripCrOfTail(p, a);
    } else {
      var rest := a[k + 1..] + "\n" + s;
      assert p + a + "\n" + s == (p + a[..k]) + "\n" + rest;
      LinesOfLine(p + a[..k], rest);
      x, following := StripCr(a[..k]), Lines(rest);
      StripCrOfTail(p, a[..k]);
      assert a[k] == '\n';
    }
  }

  lemma LowerOfUpper(name: string)
    requires IsPlain(name)
    ensures Lower(Upper(name)) == name && name != "from"
    ensures Upper(name) != "" && forall i :: 0 <= i < |name| ==> 'A' <= Upper(name)[i] <= 'Z'
  {
  }

  /** A value that starts with a quote is read from where it stands. */
  lemma QuoteStarts(first: string)
    requires first != "" && first[0] == '"'
    ensures TrimStart(first) == first
  {
  }

  lemma PlainParsed(name: string, first: string, following: seq<string>)
    requires IsPlain(name) && first != "" && first[0] == '"'
    ensures ParseCommand(Upper(name) + " " + first, following) == Named(name, "", ReadValue(first, following))
  {
    LowerOfUpper(name);
    KeywordLine(Upper(name), first);
    QuoteStarts(first);
    hide SplitFirstWord, Lower, Upper, IsPlain, ReadValue, Named, TrimStart;
  }

  /** A line whose command is named like `c` and whose value is read from `first`. */
  lemma ValueDecides(
    c: Command, line: string, first: string, v: string, prefix: string, following: seq<string>, after: seq<string>)
    requires TrimStart(line) == line && !Ignored(line)
    requires ParseCommand(line, following) == Named(c.name, prefix, ReadValue(first, following))
    requires c.args == prefix + v && (CommandSafe(c) <==> ValueSafe(v)) && ReadsValue(first, v, following, after)
    ensures ReadsCommand(c, [line] + following, after)
  {
    hide ReadValue, ValueSafe, ParseCommand, Ignored, TrimStart, CommandSafe;
    assert ([line] + following)[1..] == following;
    NamedValue(c.name, prefix, ReadValue(first, following), v);
  }

  lemma PlainExactly(c: Command, s: string)
    requires IsPlain(c.name)
    ensures ReadsCommand(c, Lines(Head(c) + Body(c) + "\n" + s), Lines(s))
  {
    hide Lines, ReadValue, ValueSafe, ReadsValue, ReadsCommand, ParseCommand, Ignored, TrimStart, Named, Quote;
    var k := Upper(c.name);
    LowerOfUpper(c.name);
    var first, following := PrintedValueRead(k + " ", c.args, s);
    KeywordLine(k, first);
    PlainParsed(c.name, first, following);
    assert "" + c.args == c.args;
    ValueDecides(c, k + " " + first, first, c.args, "", following, Lines(s));
  }

  lemma NamedValue(name: string, prefix: string, r: Result<Read, ModelfileError>, v: string)
    ensures var n := Named(name, prefix, r);
            n.Ok? && n.value.command == Command(name, prefix + v) <==> r.Ok? && r.value.value == v
    ensures "" + v == v
  {
    if r.Ok? {
      assert (prefix + v)[|prefix|..] == v && (prefix + r.value.value)[|prefix|..] == r.value.value;
    }
  }

  // ----- PARAMETER -----

  lemma ParameterParsed(r: string, following: seq<string>)
    ensures var line := "PARAMETER " + r;
            && TrimStart(line) == line && !Ignored(line)
            && var (name, value) := SplitFirstWord(TrimStart(r));
            && ParseCommand(line, following) == Named(Lower(name), "", ReadValue(value, following))
  {
    KeywordLine("PARAMETER", r);
    assert "PARAMETER" + " " + r == "PARAMETER " + r;
    assert Lower("PARAMETER") == "parameter";
    hide SplitFirstWord, Lower, ReadValue, Named, TrimStart, Ignored;
  }

  lemma WordHasNoNewline(w: string)
    requires NoWhite(w)
    ensures '\n' !in w
  {
    forall i | 0 <= i < |w| ensures w[i] != '\n' { assert w[i..][0] == w[i]; }
  }

  lemma SafeParameter(c: Command, s: string)
    requires c.name != "model" && c.name != "message" && !IsPlain(c.name) && WordSafe(c.name)
    ensures ReadsCommand(c, Lines(Head(c) + Body(c) + "\n" + s), Lines(s))
  {
    hide Lines, ReadValue, ValueSafe, ReadsValue, ReadsCommand, ParseCommand, Ignored, TrimStart, Named, Quote;
    hide SplitFirstWord, NoWhite, Lower;
    WordHasNoNewline(c.name);
    var p := "PARAMETER " + c.name + " ";
    var first, following := PrintedValueRead(p, c.args, s);
    QuoteStarts(first);
    SplitWord(c.name, first);
    assert p + first == "PARAMETER " + (c.name + " " + first);
    ParameterParsed(c.name + " " + first, following);
    assert "" + c.args == c.args;
    ValueDecides(c, p + first, first, c.args, "", following, Lines(s));
  }

  /** A parameter name that is not one lower-case word is not read back. */
  lemma UnsafeParameter(c: Command, s: string)
    requires c.name != "model" && c.name != "message" && !IsPlain(c.name) && !WordSafe(c.name)
    ensures ReadsCommand(c, Lines(Head(c) + Body(c) + "\n" + s), Lines(s))
  {
    hide Lines, ReadValue, ValueSafe, ParseCommand, Ignored, SplitFirstWord, TrimStart, NoWhite, Lower;
    if c.name == "" {
      var first, following := PrintedValueRead("PARAMETER  ", c.args, s);
      assert "PARAMETER " + c.name + " " == "PARAMETER  ";
      assert "PARAMETER  " + first == "PARAMETER " + (" " + first);
      ParameterParsed(" " + first, following);
      QuotedWord(first);
    } else {
      var x, following := FirstLine("PARAMETER ", c.name + " " + Quote(c.args), s);
      assert Head(c) + Body(c) == "PARAMETER " + (c.name + " " + Quote(c.args));
      ParameterParsed(x, following);
      FirstWordShape(TrimStart(x));
    }
  }

  lemma QuotedWord(first: string)
    requires first != "" && first[0] == '"'
    ensures Lower(SplitFirstWord(TrimStart(" " + first)).0) != ""
    ensures Lower(SplitFirstWord(TrimStart(first)).0) != "" && Lower(SplitFirstWord(TrimStart(first)).0)[0] == '"'
  {
  }

  // ----- FROM -----

  lemma {:induction false} TrimStartShape(s: string)
    ensures |TrimStart(s)| <= |s| && TrimStart(s) == s[|s| - |TrimStart(s)|..] && WhiteLen(TrimStart(s)) == 0
  {
    var n := WhiteLen(s);
    if n > 0 {
      TrimStartShape(s[n..]);
      var m := |TrimStart(s)|;
      assert s[n..][|s| - n - m..] == s[|s| - m..];
    }
  }

  lemma {:induction false} TrimEndShape(s: string)
    ensures TrimEnd(s) <= s && WhiteLenEnd(TrimEnd(s)) == 0
  {
    if WhiteLenEnd(s) > 0 { TrimEndShape(s[..|s| - WhiteLenEnd(s)]); }
  }

  lemma FromParsed(r: string, following: seq<string>)
    ensures var line := "FROM " + r;
            && TrimStart(line) == line && !Ignored(line)
            && ParseCommand(line, following) == Named("model", "", ReadValue(r, following))
  {
    KeywordLine("FROM", r);
    assert "FROM" + " " + r == "FROM " + r;
    assert Lower("FROM") == "from";
    TrimStartShape(r);
    assert TrimStart(TrimStart(r)) == TrimStart(r);
    hide SplitFirstWord, Lower, Named, TrimStart, Ignored, Find;
  }

  lemma {:induction false} BlockHasNoQ3(buf: string, following: seq<string>)
    requires NoQ3(buf)
    ensures var r := ReadOn(buf, following); r.Ok? ==> NoQ3(r.value.value)
    decreases |following|
  {
    if following != [] {
      FindFirst(following[0], Q3);
      hide Find;
      match Find(following[0], Q3)
      case Some(e) =>
        FindCut(following[0], e);
        NoQ3Parts(buf, following[0][..e]);
      case None =>
        NoQ3Parts(buf, following[0]);
        BlockHasNoQ3(buf + "\n" + following[0], following[1..]);
    }
  }

  lemma FindCut(t: string, e: nat)
    requires e <= |t| && forall j :: 0 <= j < e ==> !OccursAt(t, Q3, j)
    ensures NoQ3(t[..e])
  {
    forall j ensures !OccursAt(t[..e], Q3, j) {
      Q3At(t[..e], j);
      Q3At(t, j);
    }
  }

  /** No value that is read from a quoted text is that text. */
  lemma QuotedIsNotItself(x: string, args: string, following: seq<string>)
    requires x <= args && TrimStart(x) != "" && TrimStart(x)[0] == '"'
    ensures var r := ReadValue(x, following); !(r.Ok? && r.value.value == args)
  {
    var s := TrimStart(x);
    TrimStartShape(x);
    var n := |x| - |s|;
    assert args[n] == s[0] == '"';
    if StartsWith(s, Q3) {
      Q3At(s, 0);
      Q3At(args, n);
      FindFirst(s[3..], Q3);
      var found := Find(s[3..], Q3);
      hide Find;
      if found.Some? {
        FindCut(s[3..], found.value);
      } else {
        BlockHasNoQ3(s[3..], following);
      }
    } else {
      var e := IndexOf(s[1..], '"');
      assert '"' !in s[1..][..e];
    }
  }

  lemma FromExactly(c: Command, s: string)
    requires c.name == "model"
    ensures ReadsCommand(c, Lines(Head(c) + Body(c) + "\n" + s), Lines(s))
  {
    hide Lines, ParseCommand, Ignored, Find;
    var x, following := FirstLine("FROM ", c.args, s);
    FromParsed(x, following);
    assert ([("FROM " + x)] + following)[1..] == following;
    NamedValue("model", "", ReadValue(x, following), c.args);
    FromValue(x, c.args, following);
  }

  lemma FromValue(x: string, args: string, following: seq<string>)
    requires x <= args && '\n' !in x && ('\n' !in args && !EndsWith(args, '\r') ==> x == args)
    ensures var r := ReadValue(x, following);
            && (r.Ok? && r.value.value == args <==> FromSafe(args))
            && (FromSafe(args) ==> r.value.skipped == 0 && x == args && !EndsWith(args, '\r'))
  {
    hide Find, ReadValue, TrimStart, TrimEnd, WhiteLen, WhiteLenEnd;
    TrimStartShape(x);
    TrimEndShape(TrimStart(x));
    TrimEndTakesCr(args);
    if TrimStart(x) != "" && TrimStart(x)[0] == '"' {
      QuotedIsNotItself(x, args, following);
    } else {
      BareRead(x, following);
      if TrimEnd(TrimStart(x)) == args {
        assert args[..|x|] == x && |x| == |args|;
        assert x == args && x[0..] == x;
      }
    }
  }

  lemma TrimEndTakesCr(s: string)
    ensures EndsWith(s, '\r') ==> TrimEnd(s) != s
  {
    if EndsWith(s, '\r') { TrimEndShape(s[..|s| - 1]); }
  }

  lemma BareRead(x: string, following: seq<string>)
    requires !(TrimStart(x) != "" && TrimStart(x)[0] == '"')
    ensures ReadValue(x, following) == Ok(Read(TrimEnd(TrimStart(x)), 0))
  {
  }

  // ----- MESSAGE -----

  lemma MessageParsed(r: string, following: seq<string>)
    ensures var line := "MESSAGE " + r;
            && TrimStart(line) == line && !Ignored(line)
            && var (word, content) := SplitFirstWord(TrimStart(r));
            && var role := Lower(word);
            && ParseCommand(line, following) ==
               if IsRole(role) then Named("message", role + ": ", ReadValue(content, following))
               else Err(InvalidMessageRole(role))
  {
    KeywordLine("MESSAGE", r);
    assert "MESSAGE" + " " + r == "MESSAGE " + r;
    assert Lower("MESSAGE") == "message";
    hide SplitFirstWord, Lower, ReadValue, Named, TrimStart, Ignored, IsRole;
  }

  lemma RoleWord(role: string)
    requires IsRole(role)
    ensures role != "" && NoWhite(role) && Lower(role) == role
    ensures forall i :: 0 <= i < |role| ==> 'a' <= role[i] <= 'z'
  {
    AsciiWord(role);
  }

  lemma SplitMessageOf(role: string, content: string)
    requires IsRole(role)
    ensures SplitMessage(role + ": " + content) == Some((role, content))
  {
    hide Find, IsRole, Lower, NoWhite;
    RoleWord(role);
    var args := role + ": " + content;
    assert args[|role|..|role| + 2] == ": " && args[..|role|] == role && args[|role| + 2..] == content;
    forall j | 0 <= j < |role| ensures !OccursAt(args, ": ", j) {
      assert args[j..j + 2][0] == role[j] != ": "[0];
    }
    FindIs(args, ": ", |role|);
  }

  lemma SplitMessageJoins(args: string)
    requires SplitMessage(args).Some?
    ensures var (role, content) := SplitMessage(args).value; args == role + ": " + content
  {
    FindFirst(args, ": ");
    hide Find;
  }

  lemma SafeMessage(c: Command, s: string)
    requires c.name == "message" && SplitMessage(c.args).Some? && IsRole(SplitMessage(c.args).value.0)
    ensures ReadsCommand(c, Lines(Head(c) + Body(c) + "\n" + s), Lines(s))
  {
    hide Lines, ReadValue, ValueSafe, ReadsValue, ReadsCommand, ParseCommand, Ignored, TrimStart, Named, Quote;
    hide SplitFirstWord, NoWhite, Lower, SplitMessage, IsRole;
    var (role, content) := SplitMessage(c.args).value;
    RoleWord(role);
    WordHasNoNewline(role);
    SplitMessageJoins(c.args);
    var p := "MESSAGE " + role + " ";
    var first, following := PrintedValueRead(p, content, s);
    QuoteStarts(first);
    SplitWord(role, first);
    assert p + first == "MESSAGE " + (role + " " + first);
    MessageParsed(role + " " + first, following);
    ValueDecides(c, p + first, first, content, role + ": ", following, Lines(s));
  }

  /** A message without a valid role is not read back. */
  lemma UnsafeMessage(c: Command, s: string)
    requires c.name == "message"
    requires SplitMessage(c.args).None? || !IsRole(SplitMessage(c.args).value.0)
    ensures ReadsCommand(c, Lines(Head(c) + Body(c) + "\n" + s), Lines(s))
  {
    hide Lines, ReadValue, ValueSafe, ParseCommand, Ignored, SplitFirstWord, TrimStart, Lower;
    hide SplitMessage, Find, IsRole;
    var a :=
      match SplitMessage(c.args) case None => Quote(c.args) case Some((role, content)) => role + " " + Quote(content);
    assert Head(c) + Body(c) == "MESSAGE " + a;
    var x, following := FirstLine("MESSAGE ", a, s);
    MessageParsed(x, following);
    var (word, content) := SplitFirstWord(TrimStart(x));
    var r := ReadValue(content, following);
    if IsRole(Lower(word)) && r.Ok? { SplitMessageOf(Lower(word), r.value.value); }
  }

  // ----- Whole files -----

  lemma CommandExactly(c: Command, s: string)
    ensures ReadsCommand(c, Lines(Head(c) + Body(c) + "\n" + s), Lines(s))
  {
    hide ReadsCommand, Lines, Head, Body, SplitMessage, IsRole, IsPlain, WordSafe;
    if c.name == "model" {
      FromExactly(c, s);
    } else if c.name == "message" {
      var m := SplitMessage(c.args);
      if m.Some? && IsRole(m.value.0) { SafeMessage(c, s); } else { UnsafeMessage(c, s); }
    } else if IsPlain(c.name) {
      PlainExactly(c, s);
    } else if WordSafe(c.name) {
      SafeParameter(c, s);
    } else {
      UnsafeParameter(c, s);
    }
  }

  ghost predicate AllSafe(commands: seq<Command>) {
    forall i :: 0 <= i < |commands| ==> CommandSafe(commands[i])
  }

  lemma {:induction false} LinesExactly(commands: seq<Command>)
    ensures ParseLines(Lines(Print(commands))) == Ok(commands) <==> AllSafe(commands)
  {
    hide Lines, ParseCommand, Ignored, TrimStart, Head, Body, CommandSafe;
    if commands == [] {
      NoLines();
    } else {
      var c, rest := commands[0], commands[1..];
      CommandExactly(c, Print(rest));
      LinesExactly(rest);
      assert commands == [c] + rest;
      assert AllSafe(commands) <==> CommandSafe(c) && AllSafe(rest);
    }
  }

  lemma NoLines()
    ensures Lines("") == []
  {
  }

  /** The whole law: a printed command list is read back exactly when every command is safe and one is a FROM. */
  lemma RoundTripExactly(commands: seq<Command>)
    ensures Parse(Print(commands)) == Ok(commands) <==> AllSafe(commands) && HasModel(commands)
  {
    hide AllSafe, ParseLines, Print, Lines;
    LinesExactly(commands);
  }

  /** A one-line value with a quote in it does not survive, whatever else is in the file. */
  lemma QuoteInValueLost(system: string, others: seq<Command>)
    requires '"' in system && '\n' !in system
    ensures Parse(Print([Command("system", system)] + others)) != Ok([Command("system", system)] + others)
  {
    var commands := [Command("system", system)] + others;
    RoundTripExactly(commands);
    assert !CommandSafe(commands[0]);
  }
}
