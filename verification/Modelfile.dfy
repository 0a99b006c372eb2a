/**
 The Modelfile parser and printer of cave-local-llm.
 */
module Modelfile {
  import opened Text

  datatype Command = Command(name: string, args: string)

  datatype ModelfileError =
    | MissingFrom
    | InvalidCommand(keyword: string)
    | InvalidMessageRole(role: string)
    | UnterminatedQuote

  const Q3: string := ['"', '"', '"']

  // ----- Lines and words -----

  /** Position of the first `c`, or the length of `s`. */
  function IndexOf(s: string, c: char): (k: nat)
    ensures k <= |s| && c !in s[..k] && (k < |s| ==> s[k] == c)
  {
    if s == "" || s[0] == c then 0
    else
      var k := IndexOf(s[1..], c);
      assert s[..k + 1] == [s[0]] + s[1..][..k];
      k + 1
  }

  function StripCr(line: string): string {
    if line != "" && line[|line| - 1] == '\r' then line[..|line| - 1] else line
  }

  /** `str::lines`. */
  function Lines(s: string): seq<string> {
    var k := IndexOf(s, '\n');
    if s == "" then []
    else if k == |s| then [s]
    else [StripCr(s[..k])] + Lines(s[k + 1..])
  }

  /** Position of the first white-space character, or the length of `s`. */
  function WordEnd(s: string): (k: nat)
    ensures k <= |s|
  {
    if s == "" || WhiteLen(s) > 0 then 0 else WordEnd(s[1..]) + 1
  }

  function SplitFirstWord(s: string): (string, string) {
    var t := TrimStart(s);
    var k := WordEnd(t);
    (t[..k], TrimStart(t[k..]))
  }

  // ----- Parsing, as a function of the lines that are left -----

  /** A value and the number of lines it absorbed after its first one. */
  datatype Read = Read(value: string, skipped: nat)

  function ReadOn(buf: string, following: seq<string>): (r: Result<Read, ModelfileError>)
    ensures r.Ok? ==> r.value.skipped <= |following|
    decreases |following|
  {
    if following == [] then Err(UnterminatedQuote)
    else
      match Find(following[0], Q3)
      case Some(e) => Ok(Read(buf + "\n" + following[0][..e], 1))
      case None =>
        match ReadOn(buf + "\n" + following[0], following[1..])
        case Ok(Read(value, n)) => Ok(Read(value, n + 1))
        case Err(e) => Err(e)
  }

  function ReadValue(rest: string, following: seq<string>): (r: Result<Read, ModelfileError>)
    ensures r.Ok? ==> r.value.skipped <= |following|
  {
    var s := TrimStart(rest);
    if StartsWith(s, Q3) then
      match Find(s[3..], Q3)
      case Some(e) => Ok(Read(s[3..][..e], 0))
      case None => ReadOn(s[3..], following)
    else if s != "" && s[0] == '"' then
      var e := IndexOf(s[1..], '"');
      if e == |s[1..]| then Err(UnterminatedQuote) else Ok(Read(s[1..][..e], 0))
    else Ok(Read(TrimEnd(s), 0))
  }

  predicate IsRole(role: string) {
    role == "system" || role == "user" || role == "assistant"
  }

  /** The reserved commands other than `model` and `message`: keyword and quoted value. */
  predicate IsPlain(name: string) {
    name == "license" || name == "template" || name == "system" || name == "adapter"
  }

  datatype Parsed = Parsed(command: Command, skipped: nat)

  function Named(name: string, prefix: string, r: Result<Read, ModelfileError>): Result<Parsed, ModelfileError> {
    match r
    case Err(e) => Err(e)
    case Ok(Read(value, skipped)) => Ok(Parsed(Command(name, prefix + value), skipped))
  }

  function ParseCommand(line: string, following: seq<string>): (r: Result<Parsed, ModelfileError>)
    ensures r.Ok? ==> r.value.skipped <= |following|
  {
    var (word, rest) := SplitFirstWord(line);
    var keyword := Lower(word);
    if keyword == "from" then Named("model", "", ReadValue(rest, following))
    else if IsPlain(keyword) then Named(keyword, "", ReadValue(rest, following))
    else if keyword == "parameter" then
      var (name, value) := SplitFirstWord(rest);
      Named(Lower(name), "", ReadValue(value, following))
    else if keyword == "message" then
      var (word', content) := SplitFirstWord(rest);
      var role := Lower(word');
      if !IsRole(role) then Err(InvalidMessageRole(role))
      else Named("message", role + ": ", ReadValue(content, following))
    else Err(InvalidCommand(keyword))
  }

  predicate Ignored(line: string) {
    var trimmed := TrimStart(line);
    trimmed == "" || trimmed[0] == '#'
  }

  function ParseLines(lines: seq<string>): Result<seq<Command>, ModelfileError>
    decreases |lines|
  {
    if lines == [] then Ok([])
    else if Ignored(lines[0]) then ParseLines(lines[1..])
    else
      match ParseCommand(TrimStart(lines[0]), lines[1..])
      case Err(e) => Err(e)
      case Ok(Parsed(command, skipped)) =>
        match ParseLines(lines[1..][skipped..])
        case Err(e) => Err(e)
        case Ok(commands) => Ok([command] + commands)
  }

  predicate HasModel(commands: seq<Command>) {
    exists i :: 0 <= i < |commands| && commands[i].name == "model"
  }

  function Parse(input: string): Result<seq<Command>, ModelfileError> {
    match ParseLines(Lines(input))
    case Err(e) => Err(e)
    case Ok(commands) => if HasModel(commands) then Ok(commands) else Err(MissingFrom)
  }

  // ----- Printing -----

  function Quote(value: string): string {
    if '\n' in value then Q3 + value + Q3 else ['"'] + value + ['"']
  }

  /** The role and the content of a stored `role: content`. */
  function SplitMessage(args: string): Option<(string, string)> {
    match Find(args, ": ")
    case None => None
    case Some(k) => Some((args[..k], args[k + 2..]))
  }

  /** The part of a printed command before its value. */
  function Head(c: Command): string {
    if c.name == "model" then "FROM "
    else if c.name == "message" then
      match SplitMessage(c.args)
      case Some((role, _)) => "MESSAGE " + role + " "
      case None => "MESSAGE "
    else if IsPlain(c.name) then Upper(c.name) + " "
    else "PARAMETER " + c.name + " "
  }

  function Body(c: Command): string {
    if c.name == "model" then c.args
    else if c.name == "message" then
      match SplitMessage(c.args)
      case Some((_, content)) => Quote(content)
      case None => Quote(c.args)
    else Quote(c.args)
  }

  function Print(commands: seq<Command>): string {
    if commands == [] then "" else Head(commands[0]) + Body(commands[0]) + "\n" + Print(commands[1..])
  }

  // ----- The loops -----

  method ReadValueFrom(rest: string, lines: seq<string>, i: nat)
    returns (r: Result<string, ModelfileError>, i': nat)
    requires i < |lines|
    ensures i <= i' < |lines|
    ensures match ReadValue(rest, lines[i + 1..])
            case Err(e) => r == Err(e)
            case Ok(Read(value, skipped)) => r == Ok(value) && i' == i + skipped
  {
    i' := i;
    var s := TrimStart(rest);
    if StartsWith(s, Q3) {
      var open := s[3..];
      var end := Find(open, Q3);
      if end.Some? {
        return Ok(open[..end.value]), i;
      }
      var buf := open;
      var j := i + 1;
      ghost var goal := ReadOn(open, lines[i + 1..]);
      while j < |lines|
        invariant i < j <= |lines|
        invariant goal == Skip(ReadOn(buf, lines[j..]), j - i - 1)
      {
        var close := Find(lines[j], Q3);
        buf := buf + "\n";
        if close.Some? {
          return Ok(buf + lines[j][..close.value]), j;
        }
        buf := buf + lines[j];
        assert lines[j..][1..] == lines[j + 1..];
        j := j + 1;
      }
      return Err(UnterminatedQuote), i;
    }
    if s != "" && s[0] == '"' {
      var end := IndexOf(s[1..], '"');
      if end == |s[1..]| {
        return Err(UnterminatedQuote), i;
      }
      return Ok(s[1..][..end]), i;
    }
    return Ok(TrimEnd(s)), i;
  }

  function Skip(r: Result<Read, ModelfileError>, n: nat): Result<Read, ModelfileError> {
    if r.Ok? then Ok(Read(r.value.value, r.value.skipped + n)) else r
  }

  method ParseText(input: string) returns (r: Result<seq<Command>, ModelfileError>)
    ensures r == Parse(input)
  {
    hide ParseCommand, Ignored, TrimStart, Lines, HasModel;
    var commands := [];
    var lines := Lines(input);
    var i := 0;
    ghost var goal := ParseLines(lines);
    Prepended(goal);
    assert lines[0..] == lines;
    while i < |lines|
      invariant 0 <= i <= |lines|
      invariant goal == Prepend(commands, ParseLines(lines[i..]))
    {
      ghost var here := lines[i..];
      assert here[1..] == lines[i + 1..];
      if Ignored(lines[i]) {
        i := i + 1;
      } else {
        var command, last := ParseOne(lines, i);
        if command.Err? {
          return Err(command.error);
        }
        assert here[1..][last - i..] == lines[last + 1..];
        Appended(commands, command.value, ParseLines(lines[last + 1..]));
        commands := commands + [command.value];
        i := last + 1;
      }
    }
    assert commands + [] == commands;
    return if HasModel(commands) then Ok(commands) else Err(MissingFrom);
  }

  function Prepend(a: seq<Command>, r: Result<seq<Command>, ModelfileError>): Result<seq<Command>, ModelfileError> {
    if r.Ok? then Ok(a + r.value) else r
  }

  lemma Prepended(r: Result<seq<Command>, ModelfileError>)
    ensures Prepend([], r) == r
  {
    if r.Ok? { assert [] + r.value == r.value; }
  }

  lemma Appended(a: seq<Command>, c: Command, r: Result<seq<Command>, ModelfileError>)
    ensures Prepend(a, Prepend([c], r)) == Prepend(a + [c], r)
  {
    if r.Ok? { assert a + ([c] + r.value) == (a + [c]) + r.value; }
  }

  /** The command that starts on line `i`, and the last line it takes. */
  method ParseOne(lines: seq<string>, i: nat) returns (r: Result<Command, ModelfileError>, last: nat)
    requires i < |lines|
    ensures i <= last < |lines|
    ensures match ParseCommand(TrimStart(lines[i]), lines[i + 1..])
            case Err(e) => r == Err(e)
            case Ok(Parsed(command, skipped)) => r == Ok(command) && last == i + skipped
  {
    last := i;
    var (word, rest) := SplitFirstWord(TrimStart(lines[i]));
    var keyword := Lower(word);
    var name, prefix := keyword, "";
    if keyword == "from" {
      name := "model";
    } else if IsPlain(keyword) {
    } else if keyword == "parameter" {
      var (first, value) := SplitFirstWord(rest);
      name, rest := Lower(first), value;
    } else if keyword == "message" {
      var (first, content) := SplitFirstWord(rest);
      var role := Lower(first);
      if !IsRole(role) {
        return Err(InvalidMessageRole(role)), last;
      }
      prefix, rest := role + ": ", content;
    } else {
      return Err(InvalidCommand(keyword)), last;
    }
    var value;
    value, last := ReadValueFrom(rest, lines, i);
    if value.Err? {
      return Err(value.error), last;
    }
    return Ok(Command(name, prefix + value.value)), last;
  }

  method PrintText(commands: seq<Command>) returns (out: string)
    ensures out == Print(commands)
  {
    hide Head, Body;
    out := "";
    assert commands[0..] == commands;
    for i := 0 to |commands|
      invariant out + Print(commands[i..]) == Print(commands)
    {
      var line := Head(commands[i]) + Body(commands[i]);
      ghost var more := Print(commands[i + 1..]);
      assert commands[i..][1..] == commands[i + 1..];
      LineMoved(out, line, more);
      out := out + line + "\n";
    }
    assert out + "" == out;
  }

  lemma LineMoved(out: string, line: string, more: string)
    ensures out + (line + "\n" + more) == (out + line + "\n") + more
  {
  }
}
