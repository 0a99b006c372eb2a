/**
 How Modelfiles of any origin are read, not only printed ones: what the lines of a text are, that files can be put
 together, that blank lines, comments and a final line feed do not matter, and what unquoted values mean.
 */
module ModelfileLayout {
  import opened Text
  import opened Modelfile
  import opened ModelfileRoundTrip

  // ----- Lines -----

  /** The text with every CR-LF written as LF. */
  function Unix(s: string): string {
    if s == "" then ""
    else if |s| >= 2 && s[0] == '\r' && s[1] == '\n' then "\n" + Unix(s[2..])
    else [s[0]] + Unix(s[1..])
  }

  /** Lines with a line feed between any two. */
  function Join(lines: seq<string>): string {
    if lines == [] then "" else if |lines| == 1 then lines[0] else lines[0] + "\n" + Join(lines[1..])
  }

  lemma {:induction false} UnixOfLine(a: string, s: string)
    requires '\n' !in a
    ensures Unix(a + "\n" + s) == StripCr(a) + "\n" + Unix(s)
    decreases |a|
  {
    hide Unix, StripCr;
    var t := a + "\n" + s;
    UnixStep(t);
    StripShort();
    if a == "" {
      assert t[1..] == s;
    } else if a == "\r" {
      assert t[2..] == s;
    } else {
      assert t[1..] == a[1..] + "\n" + s;
      assert |a| > 1 ==> t[1] == a[1];
      UnixOfLine(a[1..], s);
      StripLater(a);
      assert [a[0]] + (StripCr(a[1..]) + "\n" + Unix(s)) == ([a[0]] + StripCr(a[1..])) + "\n" + Unix(s);
    }
  }

  lemma UnixStep(s: string)
    requires s != ""
    ensures Unix(s) == if |s| >= 2 && s[0] == '\r' && s[1] == '\n' then "\n" + Unix(s[2..]) else [s[0]] + Unix(s[1..])
  {
  }

  lemma StripShort()
    ensures StripCr("") == "" && StripCr("\r") == "" && "" + "\n" == "\n"
  {
  }

  lemma StripLater(a: string)
    requires a != "" && a != "\r"
    ensures StripCr(a) == [a[0]] + StripCr(a[1..])
  {
  }

  lemma {:induction false} UnixOfLast(a: string)
    requires '\n' !in a
    ensures Unix(a) == a
  {
    if a != "" {
      assert a[1..] <= a[1..] && forall c :: c in a[1..] ==> c in a;
      UnixOfLast(a[1..]);
    }
  }

  lemma LinesOfLast(a: string)
    requires a != "" && '\n' !in a
    ensures Lines(a) == [a]
  {
    assert a[..|a|] == a;
    IndexOfIs(a, '\n', |a|);
  }

  /** The first line of a text that has a line feed, and the rest. */
  lemma SplitLine(s: string) returns (a: string, rest: string)
    requires '\n' in s
    ensures '\n' !in a && s == a + "\n" + rest && |rest| < |s|
  {
    var k := IndexOf(s, '\n');
    assert k < |s| by { assert s[..|s|] == s; }
    a, rest := s[..k], s[k + 1..];
  }

  predicate EndsLine(s: string) {
    s != "" && s[|s| - 1] == '\n'
  }

  /**
   The lines of any text: none holds a line feed, and joined by line feeds they are the text, with CR-LF written as
   LF and without the line feed at its end if it has one. A last line without a line feed is a line like any other.
   */
  lemma {:induction false} LinesJoin(s: string)
    ensures forall line :: line in Lines(s) ==> '\n' !in line
    ensures s == "" <==> Lines(s) == []
    ensures Unix(s) == if EndsLine(s) then Join(Lines(s)) + "\n" else Join(Lines(s))
    decreases |s|
  {
    hide Lines, Unix;
    if s == "" {
      NoLines();
      assert Unix(s) == "" by { UnixOfLast(s); }
    } else if '\n' !in s {
      LinesOfLast(s);
      UnixOfLast(s);
    } else {
      var a, rest := SplitLine(s);
      LinesOfLine(a, rest);
      UnixOfLine(a, rest);
      LinesJoin(rest);
      var ls := Lines(rest);
      assert ([StripCr(a)] + ls)[1..] == ls;
      if rest == "" {
        assert Unix(rest) == "" by { UnixOfLast(rest); }
        assert StripCr(a) + "\n" + "" == StripCr(a) + "\n";
      } else {
        assert EndsLine(s) <==> EndsLine(rest);
        assert StripCr(a) + "\n" + (Join(ls) + "\n") == (StripCr(a) + "\n" + Join(ls)) + "\n";
      }
    }
  }

  /** A text that ends a line, or is empty, in front of another. */
  lemma {:induction false} LinesAppend(s: string, t: string)
    requires s == "" || EndsLine(s)
    ensures Lines(s + t) == Lines(s) + Lines(t)
    decreases |s|
  {
    hide Lines;
    if s == "" {
      NoLines();
      assert s + t == t && [] + Lines(t) == Lines(t);
    } else {
      var a, rest := SplitLine(s);
      assert s + t == a + "\n" + (rest + t);
      LinesOfLine(a, rest);
      LinesOfLine(a, rest + t);
      LinesAppend(rest, t);
      assert [StripCr(a)] + (Lines(rest) + Lines(t)) == ([StripCr(a)] + Lines(rest)) + Lines(t);
    }
  }

  /** A line feed at the end of a text that does not end a line makes no new line. */
  lemma {:induction false} LinesFinal(s: string)
    requires s != "" && !EndsLine(s) && s[|s| - 1] != '\r'
    ensures Lines(s + "\n") == Lines(s)
    decreases |s|
  {
    hide Lines;
    if '\n' !in s {
      LinesOfLast(s);
      LinesOfLine(s, "");
      NoLines();
      assert s + "\n" + "" == s + "\n";
    } else {
      var a, rest := SplitLine(s);
      LinesOfLine(a, rest);
      assert s + "\n" == a + "\n" + (rest + "\n");
      LinesOfLine(a, rest + "\n");
      LinesFinal(rest);
    }
  }

  /** Whether a file ends in a line feed does not matter, unless a stray CR is there. */
  lemma FinalFeed(s: string)
    requires s == "" || (!EndsLine(s) && s[|s| - 1] != '\r')
    ensures Parse(s + "\n") == Parse(s)
  {
    if s == "" {
      NoLines();
      LinesOfLine("", "");
      assert "" + "\n" + "" == s + "\n" && StripCr("") == "";
      BlankIgnored();
      assert [""][1..] == [];
    } else {
      hide Lines;
      LinesFinal(s);
    }
  }

  lemma BlankIgnored()
    ensures Ignored("")
  {
  }

  // ----- Files one after another -----

  lemma {:induction false} ReadOnMore(buf: string, following: seq<string>, more: seq<string>)
    requires ReadOn(buf, following).Ok?
    ensures ReadOn(buf, following + more) == ReadOn(buf, following)
    decreases |following|
  {
    hide Find;
    assert (following + more)[1..] == following[1..] + more;
    if Find(following[0], Q3).None? { ReadOnMore(buf + "\n" + following[0], following[1..], more); }
  }

  lemma ReadValueMore(rest: string, following: seq<string>, more: seq<string>)
    requires ReadValue(rest, following).Ok?
    ensures ReadValue(rest, following + more) == ReadValue(rest, following)
  {
    hide Find, TrimStart, TrimEnd;
    var s := TrimStart(rest);
    if StartsWith(s, Q3) && Find(s[3..], Q3).None? { ReadOnMore(s[3..], following, more); }
  }

  /** A command that is complete does not depend on what follows it. */
  lemma ParseCommandMore(line: string, following: seq<string>, more: seq<string>)
    requires ParseCommand(line, following).Ok?
    ensures ParseCommand(line, following + more) == ParseCommand(line, following)
  {
    hide ReadValue, SplitFirstWord, Lower;
    var (word, rest) := SplitFirstWord(line);
    var (name, value) := SplitFirstWord(rest);
    if ReadValue(rest, following).Ok? { ReadValueMore(rest, following, more); }
    if ReadValue(value, following).Ok? { ReadValueMore(value, following, more); }
  }

  /** Lines that parse, in front of any others: their commands come first, and the others are read on their own. */
  lemma {:induction false} LinesConcat(lines: seq<string>, more: seq<string>)
    requires ParseLines(lines).Ok?
    ensures ParseLines(lines + more) == Prepend(ParseLines(lines).value, ParseLines(more))
    decreases |lines|
  {
    hide ParseCommand, Ignored, TrimStart;
    if lines == [] {
      assert lines + more == more;
      Prepended(ParseLines(more));
    } else {
      var all := lines + more;
      assert all[0] == lines[0] && all[1..] == lines[1..] + more;
      if Ignored(lines[0]) {
        LinesConcat(lines[1..], more);
      } else {
        ParseCommandMore(TrimStart(lines[0]), lines[1..], more);
        var r := ParseCommand(TrimStart(lines[0]), lines[1..]).value;
        var rest := lines[1..][r.skipped..];
        assert all[1..][r.skipped..] == rest + more;
        LinesConcat(rest, more);
        PrependOne(r.command, ParseLines(rest).value, ParseLines(more));
      }
    }
  }

  lemma PrependOne(c: Command, a: seq<Command>, r: Result<seq<Command>, ModelfileError>)
    ensures Prepend([c] + a, r) == Prepend([c], Prepend(a, r))
  {
    if r.Ok? { assert ([c] + a) + r.value == [c] + (a + r.value); }
  }

  /** Two files one after another: the commands of both. */
  lemma FilesConcat(s: string, t: string)
    requires (s == "" || EndsLine(s)) && Parse(s).Ok? && ParseLines(Lines(t)).Ok?
    ensures Parse(s + t) == Ok(Parse(s).value + ParseLines(Lines(t)).value)
  {
    hide Lines, ParseLines;
    LinesAppend(s, t);
    LinesConcat(Lines(s), Lines(t));
    var i :| 0 <= i < |Parse(s).value| && Parse(s).value[i].name == "model";
    assert (Parse(s).value + ParseLines(Lines(t)).value)[i].name == "model";
  }

  /** A blank line or a comment between two commands changes nothing. */
  lemma CommentIgnored(s: string, line: string, t: string)
    requires s == "" || EndsLine(s)
    requires ParseLines(Lines(s)).Ok? && '\n' !in line
    requires TrimStart(line) == "" || TrimStart(line)[0] == '#'
    ensures Parse(s + (line + "\n" + t)) == Parse(s + t)
  {
    LineStripped(line);
    hide Lines, TrimStart, Ignored;
    LinesAppend(s, line + "\n" + t);
    LinesAppend(s, t);
    LinesOfLine(line, t);
    LinesConcat(Lines(s), Lines(t));
    LinesConcat(Lines(s), [StripCr(line)] + Lines(t));
    assert ([StripCr(line)] + Lines(t))[1..] == Lines(t);
  }

  lemma {:induction false} LineStripped(line: string)
    requires TrimStart(line) == "" || TrimStart(line)[0] == '#'
    ensures Ignored(StripCr(line))
    decreases |line|
  {
    var n := WhiteLen(line);
    if n > 0 && n < |line| {
      LineStripped(line[n..]);
      StrippedLater(line, n);
      var rest := StripCr(line[n..]);
      assert (line[..n] + rest)[n..] == rest;
    } else if n == |line| && line != "\r" {
      assert StripCr(line) == line;
    }
  }

  /** The white space that a line starts with is still there without a CR at its end. */
  lemma StrippedLater(line: string, n: nat)
    requires 0 < WhiteLen(line) == n < |line|
    ensures StripCr(line) == line[..n] + StripCr(line[n..]) && WhiteLen(StripCr(line)) == n
  {
    assert line == line[..n] + line[n..];
  }

  // ----- Commands that are not quoted -----

  /** A value that does not start with a quote. */
  predicate Bare(v: string) {
    !(TrimStart(v) != "" && TrimStart(v)[0] == '"')
  }

  lemma WordIsWord(k: string)
    requires k != "" && forall i :: 0 <= i < |k| ==> 'a' <= Lower(k)[i] <= 'z'
    ensures NoWhite(k)
  {
    forall i | 0 <= i < |k| ensures '!' <= k[i] <= '~' { assert Lower(k)[i] == LowerChar(k[i]); }
    AsciiWord(k);
  }

  /** What a line means that starts with a keyword in any case. */
  lemma KeywordParsed(k: string, r: string, following: seq<string>)
    requires k != "" && NoWhite(k)
    ensures var keyword, rest := Lower(k), TrimStart(r);
            var (word, more) := SplitFirstWord(rest);
            ParseCommand(k + " " + r, following) ==
            if keyword == "from" then Named("model", "", ReadValue(rest, following))
            else if keyword in {"license", "template", "system", "adapter"} then
              Named(keyword, "", ReadValue(rest, following))
            else if keyword == "parameter" then Named(Lower(word), "", ReadValue(more, following))
            else if keyword == "message" then
              if Lower(word) in {"system", "user", "assistant"}
              then Named("message", Lower(word) + ": ", ReadValue(more, following))
              else Err(InvalidMessageRole(Lower(word)))
            else Err(InvalidCommand(keyword))
  {
    SplitWord(k, r);
    hide TrimStart, SplitFirstWord, Lower, NoWhite, ReadValue, Named;
  }

  lemma BareValue(name: string, prefix: string, v: string, following: seq<string>)
    requires Bare(v)
    ensures Named(name, prefix, ReadValue(TrimStart(v), following)) == Ok(Parsed(Command(name, prefix + Trim(v)), 0))
    ensures "" + Trim(v) == Trim(v)
  {
    TrimTwice(v);
    BareRead(TrimStart(v), following);
  }

  lemma TrimTwice(v: string)
    ensures TrimStart(TrimStart(v)) == TrimStart(v)
  {
    TrimStartShape(v);
  }

  /** A keyword in any case, a space and an unquoted value: the value is the rest of the line, trimmed. */
  lemma BareCommand(k: string, v: string, following: seq<string>)
    requires Bare(v) && Lower(k) in {"from", "license", "template", "system", "adapter"}
    ensures var name := if Lower(k) == "from" then "model" else Lower(k);
            ParseCommand(k + " " + v, following) == Ok(Parsed(Command(name, Trim(v)), 0))
  {
    WordIsWord(k);
    hide ParseCommand, Named, ReadValue, TrimStart, SplitFirstWord, NoWhite, Trim, Bare;
    KeywordParsed(k, v, following);
    BareValue(if Lower(k) == "from" then "model" else Lower(k), "", v, following);
  }

  lemma BareParameter(k: string, name: string, v: string, following: seq<string>)
    requires Bare(v) && Lower(k) == "parameter" && name != "" && NoWhite(name)
    ensures ParseCommand(k + " " + (name + " " + v), following) == Ok(Parsed(Command(Lower(name), Trim(v)), 0))
  {
    WordIsWord(k);
    hide ParseCommand, Named, ReadValue, TrimStart, SplitFirstWord, NoWhite, Trim, Bare;
    KeywordParsed(k, name + " " + v, following);
    SplitWord(name, v);
    BareValue(Lower(name), "", v, following);
  }

  /** The role of a message is one of three words, in any case. */
  lemma BareMessage(k: string, role: string, v: string, following: seq<string>)
    requires Bare(v) && Lower(k) == "message" && role != "" && NoWhite(role)
    ensures ParseCommand(k + " " + (role + " " + v), following) ==
            if Lower(role) in {"system", "user", "assistant"}
            then Ok(Parsed(Command("message", Lower(role) + ": " + Trim(v)), 0))
            else Err(InvalidMessageRole(Lower(role)))
  {
    WordIsWord(k);
    hide ParseCommand, Named, ReadValue, TrimStart, SplitFirstWord, NoWhite, Trim, Bare;
    KeywordParsed(k, role + " " + v, following);
    SplitWord(role, v);
    BareValue("message", Lower(role) + ": ", v, following);
  }

  /** There are seven keywords, in any case; any other first word is an error. */
  lemma KeywordsExactly(k: string, rest: string, following: seq<string>)
    requires k != "" && NoWhite(k)
    ensures Lower(k) !in {"from", "license", "template", "system", "adapter", "parameter", "message"} <==>
            ParseCommand(k + " " + rest, following) == Err(InvalidCommand(Lower(k)))
  {
    hide ParseCommand, TrimStart, SplitFirstWord, Lower, NoWhite, ReadValue;
    KeywordParsed(k, rest, following);
    NoInvalid(TrimStart(rest), following);
    NoInvalid(SplitFirstWord(TrimStart(rest)).1, following);
  }

  lemma NoInvalid(rest: string, following: seq<string>)
    ensures var r := ReadValue(rest, following); r.Err? ==> r.error == UnterminatedQuote
  {
    if StartsWith(TrimStart(rest), Q3) { UnterminatedOnly(TrimStart(rest)[3..], following); }
    hide Find, TrimStart, TrimEnd, ReadOn;
  }

  lemma {:induction false} UnterminatedOnly(buf: string, following: seq<string>)
    ensures var r := ReadOn(buf, following); r.Err? ==> r.error == UnterminatedQuote
    decreases |following|
  {
    hide Find;
    if following != [] && Find(following[0], Q3).None? {
      UnterminatedOnly(buf + "\n" + following[0], following[1..]);
    }
  }

  /** A file whose lines parse is a Modelfile exactly when one of its commands is a FROM. */
  lemma FromNeeded(s: string)
    requires ParseLines(Lines(s)).Ok?
    ensures var commands := ParseLines(Lines(s)).value;
            Parse(s) == if exists c :: c in commands && c.name == "model" then Ok(commands) else Err(MissingFrom)
  {
    hide Lines, ParseLines;
    var commands := ParseLines(Lines(s)).value;
    if c :| c in commands && c.name == "model" {
      var i :| 0 <= i < |commands| && commands[i] == c;
      assert commands[i].name == "model";
    }
    if HasModel(commands) {
      var i :| 0 <= i < |commands| && commands[i].name == "model";
      assert commands[i] in commands;
    }
  }

  /** The smallest Modelfile: one FROM line, with or without a line feed. */
  lemma OneLineFile(v: string)
    requires Bare(v) && '\n' !in v
    ensures Parse("FROM " + v) == Ok([Command("model", Trim(v))])
  {
    var line := "FROM " + v;
    FromParsed(v, []);
    BareRead(v, []);
    LinesOfLast(line);
    hide Lines, ParseCommand, Ignored, TrimStart, TrimEnd, ReadValue;
    var commands := [Command("model", Trim(v))];
    assert [line][1..] == [] && [line][1..][0..] == [] && "" + Trim(v) == Trim(v);
    assert commands + [] == commands;
    assert ParseLines([]) == Ok([]) && ParseLines([line]) == Ok(commands);
    assert commands[0].name == "model";
  }
}
