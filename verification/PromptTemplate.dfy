/**
 The prompt template engine of cave-local-llm: `{{ var }}`, `{{ if x }}..{{ end }}` and
 `{{ range xs }}..{{ end }}`, rendered by scanning the raw text.
 */
module PromptTemplate {
  import opened Text

  datatype TemplateError = Unbalanced(what: string) | UnknownVariable(name: string) | NotAList(name: string)

  datatype TemplateValue = Scalar(s: string) | List(items: seq<string>) | Truthy(b: bool) {
    predicate IsTruthy() {
      match this
      case Scalar(s) => s != ""
      case List(items) => items != []
      case Truthy(b) => b
    }
  }

  type Context = map<string, TemplateValue>
  type Rendered = Result<string, TemplateError>

  // ----- What the scanner computes, as functions of the remaining text -----

  function Drop(s: string, n: nat): string {
    if n <= |s| then s[n..] else ""
  }

  function Cat(a: Rendered, b: Rendered): Rendered {
    if a.Err? then a else if b.Err? then b else Ok(a.value + b.value)
  }

  /** One byte of literal text, pushed as the character with that code and so re-encoded in UTF-8. */
  function CopyByte(c: char): string {
    if c < '\U{80}' then [c]
    else [(0xC0 + c as int / 64 % 4) as char, (0x80 + c as int % 64) as char]
  }

  function Copied(text: string): string {
    if text == "" then "" else CopyByte(text[0]) + Copied(text[1..])
  }

  predicate AtTag(s: string) {
    |s| >= 2 && s[0] == '{' && s[1] == '{'
  }

  datatype Tag = Tag(directive: string, len: nat)

  /** The tag that `s` starts with: its trimmed directive and its length in the text. */
  function NextTag(s: string): (t: Option<Tag>)
    requires AtTag(s)
    ensures t.Some? ==> 4 <= t.value.len <= |s|
  {
    match Find(s[2..], "}}")
    case None => None
    case Some(c) => Some(Tag(Trim(s[2..2 + c]), c + 4))
  }

  predicate Opens(directive: string) {
    StartsWith(directive, "if ") || StartsWith(directive, "range ")
  }

  /** Number of blocks open after a tag that is read with `depth` blocks open. */
  function DepthAfter(directive: string, depth: nat): nat
    requires depth >= 1
  {
    if Opens(directive) then depth + 1 else if directive == "end" then depth - 1 else depth
  }

  const MISSING_CLOSE := Unbalanced("missing '}}'")
  const MISSING_END := Unbalanced("missing '{{ end }}'")
  const STRAY_END := Unbalanced("stray '{{ end }}'")

  /** The byte length of the canonical end tag, `{{ end }}`. */
  const END_LEN: nat := 9

  function Shift(r: Result<nat, TemplateError>, n: nat): Result<nat, TemplateError> {
    if r.Ok? then Ok(r.value + n) else r
  }

  /** Position of the end tag that closes the `depth` blocks open at the start of `s`. */
  function FindEnd(s: string, depth: nat): (r: Result<nat, TemplateError>)
    requires depth >= 1
    ensures r.Ok? ==> r.value + 4 <= |s|
    decreases |s|
  {
    if s == "" then Err(MISSING_END)
    else if AtTag(s) then
      match NextTag(s)
      case None => Err(MISSING_CLOSE)
      case Some(Tag(directive, len)) =>
        var d := DepthAfter(directive, depth);
        if d == 0 then Ok(0) else Shift(FindEnd(s[len..], d), len)
    else Shift(FindEnd(s[1..], depth), 1)
  }

  /** The loop item shadows a context variable of the name `it`. */
  function Lookup(ctx: Context, it: Option<string>, name: string): Result<TemplateValue, TemplateError> {
    if it.Some? && name == "it" then Ok(Scalar(it.value))
    else if name in ctx then Ok(ctx[name])
    else Err(UnknownVariable(name))
  }

  function Substitute(ctx: Context, it: Option<string>, name: string): Rendered {
    match Lookup(ctx, it, name)
    case Err(e) => Err(e)
    case Ok(Scalar(s)) => Ok(s)
    case Ok(List(_)) => Err(NotAList("cannot substitute list '" + name + "' as bare scalar"))
    case Ok(Truthy(b)) => Ok(if b then "true" else "false")
  }

  function Render(s: string, ctx: Context, it: Option<string>): Rendered
    decreases |s|, 0
  {
    if s == "" then Ok("")
    else if AtTag(s) then
      match NextTag(s)
      case None => Err(MISSING_CLOSE)
      case Some(Tag(directive, len)) =>
        if Opens(directive) then RenderBlock(directive, s[len..], ctx, it)
        else if directive == "end" then Err(STRAY_END)
        else Cat(Substitute(ctx, it, directive), Render(s[len..], ctx, it))
    else Cat(Ok(CopyByte(s[0])), Render(s[1..], ctx, it))
  }

  /** A block whose opening tag has just been read, and the text after the block. */
  function RenderBlock(directive: string, s: string, ctx: Context, it: Option<string>): Rendered
    requires Opens(directive)
    decreases |s|, 2
  {
    match FindEnd(s, 1)
    case Err(e) => Err(e)
    case Ok(e) =>
      var after := Drop(s, e + END_LEN);
      if StartsWith(directive, "if ") then
        match Lookup(ctx, it, Trim(directive[3..]))
        case Err(err) => Err(err)
        case Ok(v) => Cat(if v.IsTruthy() then Render(s[..e], ctx, it) else Ok(""), Render(after, ctx, it))
      else
        match Lookup(ctx, it, Trim(directive[6..]))
        case Err(err) => Err(err)
        case Ok(List(items)) => Cat(RenderItems(s[..e], items, ctx), Render(after, ctx, it))
        case Ok(_) => Err(NotAList(Trim(directive[6..])))
  }

  function RenderItems(body: string, items: seq<string>, ctx: Context): Rendered
    decreases |body|, 1, |items|
  {
    if items == [] then Ok("")
    else Cat(Render(body, ctx, Some(items[0])), RenderItems(body, items[1..], ctx))
  }

  // ----- The scanner itself -----

  lemma CatAssoc(a: string, b: string, c: Rendered)
    ensures Cat(Ok(a), Cat(Ok(b), c)) == Cat(Ok(a + b), c)
  {
    if c.Ok? { assert a + (b + c.value) == (a + b) + c.value; }
  }

  lemma CatEmpty(c: Rendered)
    ensures Cat(Ok(""), c) == c
  {
    if c.Ok? { assert "" + c.value == c.value; }
  }

  method FindMatchingEnd(s: string) returns (r: Result<nat, TemplateError>)
    ensures r == FindEnd(s, 1)
  {
    hide NextTag, Opens;
    var depth := 1;
    var i := 0;
    var rest := s;
    ghost var goal := FindEnd(s, 1);
    while rest != ""
      invariant depth >= 1 && i >= 0 && i + |rest| == |s|
      invariant goal == Shift(FindEnd(rest, depth), i)
      decreases |rest|
    {
      var len := 1;
      if AtTag(rest) {
        var tag := NextTag(rest);
        if tag.None? {
          return Err(MISSING_CLOSE);
        }
        depth := DepthAfter(tag.value.directive, depth);
        if depth == 0 {
          return Ok(i);
        }
        len := tag.value.len;
      }
      i, rest := i + len, rest[len..];
    }
    return Err(MISSING_END);
  }

  method RenderImpl(template: string, ctx: Context, it: Option<string>) returns (r: Rendered)
    ensures r == Render(template, ctx, it)
    decreases |template|, 0
  {
    hide NextTag, Opens, RenderBlock, Substitute, CopyByte;
    var out := "";
    var rest := template;
    ghost var goal := Render(template, ctx, it);
    CatEmpty(goal);
    while rest != ""
      invariant |rest| <= |template|
      invariant goal == Cat(Ok(out), Render(rest, ctx, it))
      decreases |rest|
    {
      var text: Rendered;
      if AtTag(rest) {
        var tag := NextTag(rest);
        if tag.None? {
          return Err(MISSING_CLOSE);
        }
        var directive := tag.value.directive;
        rest := rest[tag.value.len..];
        if Opens(directive) {
          text, rest := RenderOneBlock(directive, rest, ctx, it);
        } else if directive == "end" {
          return Err(STRAY_END);
        } else {
          text := Substitute(ctx, it, directive);
        }
      } else {
        text := Ok(CopyByte(rest[0]));
        rest := rest[1..];
      }
      if text.Err? {
        return text;
      }
      CatAssoc(out, text.value, Render(rest, ctx, it));
      out := out + text.value;
    }
    assert out + "" == out;
    return Ok(out);
  }

  /** The block whose opening tag has just been read, and the text the scanner resumes at. */
  method RenderOneBlock(directive: string, s: string, ctx: Context, it: Option<string>)
    returns (block: Rendered, after: string)
    requires Opens(directive)
    ensures RenderBlock(directive, s, ctx, it) == Cat(block, Render(after, ctx, it))
    ensures |after| <= |s|
    decreases |s|, 2
  {
    after := "";
    var blockEnd := FindMatchingEnd(s);
    if blockEnd.Err? {
      return Err(blockEnd.error), after;
    }
    after := Drop(s, blockEnd.value + END_LEN);
    var body := s[..blockEnd.value];
    if StartsWith(directive, "if ") {
      var cond := Lookup(ctx, it, Trim(directive[3..]));
      if cond.Err? {
        return Err(cond.error), after;
      }
      block := Ok("");
      if cond.value.IsTruthy() {
        block := RenderImpl(body, ctx, it);
      }
    } else {
      var v := Lookup(ctx, it, Trim(directive[6..]));
      if v.Err? {
        return Err(v.error), after;
      }
      if !v.value.List? {
        return Err(NotAList(Trim(directive[6..]))), after;
      }
      block := RenderEach(body, v.value.items, ctx);
    }
  }

  /** The loop over the items of a `range` block. */
  method RenderEach(body: string, items: seq<string>, ctx: Context) returns (r: Rendered)
    ensures r == RenderItems(body, items, ctx)
    decreases |body|, 1
  {
    var out := "";
    assert items[0..] == items;
    CatEmpty(RenderItems(body, items, ctx));
    for k := 0 to |items|
      invariant RenderItems(body, items, ctx) == Cat(Ok(out), RenderItems(body, items[k..], ctx))
    {
      var one := RenderImpl(body, ctx, Some(items[k]));
      if one.Err? {
        return one;
      }
      assert items[k..][1..] == items[k + 1..];
      CatAssoc(out, one.value, RenderItems(body, items[k + 1..], ctx));
      out := out + one.value;
    }
    assert out + "" == out;
    return Ok(out);
  }
}
