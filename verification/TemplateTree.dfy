/**
 Template syntax trees, their printed text and their meaning, and the agreement of the text scanner
 with both.

 A tag carries its raw text, so a tree stands for one exact spelling of a template: any padding is
 allowed inside tags, and a name is whatever is left of the directive after trimming.
 */
module TemplateTree {
  import opened Text
  import opened PromptTemplate

  datatype Tree =
    | Done
    | Lit(text: string, rest: Tree)
    | Var(raw: string, rest: Tree)
    | Block(raw: string, body: Tree, endRaw: string, rest: Tree)

  function Enclose(raw: string): string {
    "{{" + raw + "}}"
  }

  function Print(t: Tree): string {
    match t
    case Done => ""
    case Lit(text, rest) => text + Print(rest)
    case Var(raw, rest) => Enclose(raw) + Print(rest)
    case Block(raw, body, endRaw, rest) => Enclose(raw) + (Print(body) + (Enclose(endRaw) + Print(rest)))
  }

  /** The first `}}` after an opening `{{` is the one that closes the tag. */
  predicate TagText(raw: string) {
    Find(raw + "}}", "}}") == Some(|raw|)
  }

  predicate EndText(raw: string) {
    TagText(raw) && Trim(raw) == "end"
  }

  /** Literal text in which, and at the end of which, no tag can start. */
  ghost predicate LitText(text: string) {
    forall i :: 0 <= i < |text| && text[i] == '{' ==> i + 1 < |text| && text[i + 1] != '{'
  }

  /** Every part of the tree is what its constructor says; end tags may be spelled in any way. */
  ghost predicate Balanced(t: Tree) {
    match t
    case Done => true
    case Lit(text, rest) => LitText(text) && Balanced(rest)
    case Var(raw, rest) => TagText(raw) && !Opens(Trim(raw)) && Trim(raw) != "end" && Balanced(rest)
    case Block(raw, body, endRaw, rest) =>
      TagText(raw) && Opens(Trim(raw)) && EndText(endRaw) && Balanced(body) && Balanced(rest)
  }

  /** The scanner skips `END_LEN` bytes for an end tag, whatever its length; trees followed by `s` that survive that. */
  predicate EndsFit(t: Tree, s: string) {
    match t
    case Done => true
    case Lit(_, rest) => EndsFit(rest, s)
    case Var(_, rest) => EndsFit(rest, s)
    case Block(_, body, endRaw, rest) => ResumesAt(endRaw, Print(rest) + s) && EndsFit(body, "") && EndsFit(rest, s)
  }

  predicate ResumesAt(endRaw: string, after: string) {
    var len := |Enclose(endRaw)|;
    len == END_LEN || (len < END_LEN && after == "")
  }

  // ----- The meaning of a tree -----

  function Eval(t: Tree, ctx: Context, it: Option<string>): Rendered
    decreases t, 0
  {
    match t
    case Done => Ok("")
    case Lit(text, rest) => Cat(Ok(Copied(text)), Eval(rest, ctx, it))
    case Var(raw, rest) => Cat(Substitute(ctx, it, Trim(raw)), Eval(rest, ctx, it))
    case Block(raw, body, _, rest) => Cat(BlockPart(raw, body, ctx, it), Eval(rest, ctx, it))
  }

  /** What a block contributes to the output, whatever its end tag and whatever follows it. */
  function BlockPart(raw: string, body: Tree, ctx: Context, it: Option<string>): Rendered
    decreases body, 1
  {
    Part(Trim(raw), ctx, it, item => Eval(body, ctx, item))
  }

  /** What a block does with its body, given what the body means for each loop item. */
  function Part(directive: string, ctx: Context, it: Option<string>, means: Option<string> -> Rendered): Rendered {
    if StartsWith(directive, "if ") then
      match Lookup(ctx, it, Trim(directive[3..]))
      case Err(e) => Err(e)
      case Ok(v) => if v.IsTruthy() then means(it) else Ok("")
    else
      var name := Trim(Drop(directive, 6));
      match Lookup(ctx, it, name)
      case Err(e) => Err(e)
      case Ok(List(items)) => Each(items, means)
      case Ok(_) => Err(NotAList(name))
  }

  function Each(items: seq<string>, means: Option<string> -> Rendered): Rendered {
    if items == [] then Ok("") else Cat(means(Some(items[0])), Each(items[1..], means))
  }

  lemma PartSame(directive: string, ctx: Context, it: Option<string>,
                 f: Option<string> -> Rendered, g: Option<string> -> Rendered)
    requires forall item :: f(item) == g(item)
    ensures Part(directive, ctx, it, f) == Part(directive, ctx, it, g)
  {
    forall items { EachSame(items, f, g); }
  }

  lemma {:induction false} EachSame(items: seq<string>, f: Option<string> -> Rendered, g: Option<string> -> Rendered)
    requires forall x: string :: f(Some(x)) == g(Some(x))
    ensures Each(items, f) == Each(items, g)
  {
    if items != [] { EachSame(items[1..], f, g); }
  }

  // ----- Reading one tag, one literal -----

  lemma TagRead(raw: string, s: string)
    requires TagText(raw)
    ensures AtTag(Enclose(raw) + s)
    ensures NextTag(Enclose(raw) + s) == Some(Tag(Trim(raw), |raw| + 4))
    ensures (Enclose(raw) + s)[|raw| + 4..] == s
  {
    var t := Enclose(raw) + s;
    assert t[2..] == (raw + "}}") + s;
    FindExtends(raw + "}}", s, "}}");
    assert t[2..2 + |raw|] == raw;
  }

  lemma TagScanned(raw: string, s: string, depth: nat)
    requires TagText(raw) && depth >= 1
    ensures var d := DepthAfter(Trim(raw), depth);
            FindEnd(Enclose(raw) + s, depth) == if d == 0 then Ok(0) else Shift(FindEnd(s, d), |raw| + 4)
  {
    TagRead(raw, s);
  }

  lemma TagRendered(raw: string, s: string, ctx: Context, it: Option<string>)
    requires TagText(raw) && Trim(raw) != "end"
    ensures Render(Enclose(raw) + s, ctx, it) ==
            if Opens(Trim(raw)) then RenderBlock(Trim(raw), s, ctx, it)
            else Cat(Substitute(ctx, it, Trim(raw)), Render(s, ctx, it))
  {
    TagRead(raw, s);
  }

  lemma EndOpensNothing()
    ensures !Opens("end")
  {
    assert "end"[..3] == "end" && "end"[0] != "if "[0];
  }

  lemma {:induction false} LiteralScanned(text: string, s: string, depth: nat)
    requires LitText(text) && depth >= 1
    ensures FindEnd(text + s, depth) == Shift(FindEnd(s, depth), |text|)
  {
    hide NextTag;
    if text == "" {
      assert text + s == s;
    } else {
      assert (text + s)[1..] == text[1..] + s;
      LiteralScanned(text[1..], s, depth);
    }
  }

  lemma NothingRendered(ctx: Context, it: Option<string>)
    ensures Render("", ctx, it) == Ok("")
  {
  }

  lemma {:induction false} LiteralRendered(text: string, s: string, ctx: Context, it: Option<string>)
    requires LitText(text)
    ensures Render(text + s, ctx, it) == Cat(Ok(Copied(text)), Render(s, ctx, it))
  {
    if text == "" {
      assert text + s == s;
      CatEmpty(Render(s, ctx, it));
    } else {
      assert (text + s)[1..] == text[1..] + s;
      LiteralRendered(text[1..], s, ctx, it);
      CatAssoc(CopyByte(text[0]), Copied(text[1..]), Render(s, ctx, it));
    }
  }

  // ----- Block ends -----

  /** Scanning over a balanced text leaves the depth as it was. */
  lemma {:induction false} BalancedSkipped(t: Tree, s: string, depth: nat)
    requires Balanced(t) && depth >= 1
    ensures FindEnd(Print(t) + s, depth) == Shift(FindEnd(s, depth), |Print(t)|)
    decreases t, 0
  {
    hide FindEnd, TagText, LitText, Trim, Opens;
    match t
    case Done =>
      assert Print(t) + s == s;
    case Lit(text, rest) =>
      assert Print(t) + s == text + (Print(rest) + s);
      LiteralScanned(text, Print(rest) + s, depth);
      BalancedSkipped(rest, s, depth);
    case Var(raw, rest) =>
      assert Print(t) + s == Enclose(raw) + (Print(rest) + s);
      TagScanned(raw, Print(rest) + s, depth);
      BalancedSkipped(rest, s, depth);
    case Block(raw, body, endRaw, rest) =>
      BlockSkipped(raw, body, endRaw, Print(rest) + s, depth);
      BalancedSkipped(rest, s, depth);
      ConcatBlock(Enclose(raw), Print(body), Enclose(endRaw), Print(rest), s);
  }

  lemma ConcatBlock(a: string, b: string, c: string, d: string, s: string)
    ensures (a + (b + (c + d))) + s == a + (b + (c + (d + s)))
  {
  }

  lemma {:induction false} BlockSkipped(raw: string, body: Tree, endRaw: string, s: string, depth: nat)
    requires TagText(raw) && Opens(Trim(raw)) && EndText(endRaw) && Balanced(body) && depth >= 1
    ensures FindEnd(Enclose(raw) + (Print(body) + (Enclose(endRaw) + s)), depth)
         == Shift(FindEnd(s, depth), |raw| + 4 + |Print(body)| + |endRaw| + 4)
    decreases body, 1
  {
    hide FindEnd, TagText, Trim, Opens, Balanced;
    TagScanned(raw, Print(body) + (Enclose(endRaw) + s), depth);
    BalancedSkipped(body, Enclose(endRaw) + s, depth + 1);
    EndOpensNothing();
    TagScanned(endRaw, s, depth + 1);
  }

  lemma EndFound(body: Tree, endRaw: string, s: string)
    requires Balanced(body) && EndText(endRaw)
    ensures FindEnd(Print(body) + (Enclose(endRaw) + s), 1) == Ok(|Print(body)|)
  {
    hide FindEnd, TagText, Trim, Opens, Balanced, Print;
    BalancedSkipped(body, Enclose(endRaw) + s, 1);
    EndOpensNothing();
    TagScanned(endRaw, s, 1);
  }

  lemma CutAtClose(u: string, k: nat)
    requires OccursAt(u, "}}", k) && forall j :: 0 <= j < k ==> !OccursAt(u, "}}", j)
    ensures TagText(u[..k]) && u == u[..k] + "}}" + u[k + 2..]
  {
    var head, after := u[..k] + "}}", u[k + 2..];
    assert u == u[..k] + u[k..k + 2] + u[k + 2..];
    hide Find;
    OccursInPrefix(head, after, "}}", k);
    forall j | 0 <= j < k ensures !OccursAt(head, "}}", j) { OccursInPrefix(head, after, "}}", j); }
    FindIs(head, "}}", k);
  }

  /** What a found tag looks like in the text. */
  lemma TagShape(s: string) returns (raw: string)
    requires AtTag(s) && NextTag(s).Some?
    ensures TagText(raw) && Trim(raw) == NextTag(s).value.directive && |raw| + 4 == NextTag(s).value.len
    ensures s == Enclose(raw) + s[|raw| + 4..]
  {
    var u := s[2..];
    var k := Find(u, "}}").value;
    FindFirst(u, "}}");
    hide Find, Trim, TagText;
    CutAtClose(u, k);
    raw := u[..k];
    assert raw == s[2..2 + k];
    Opened(s, raw, u[k + 2..]);
  }

  lemma Opened(s: string, raw: string, after: string)
    requires AtTag(s) && s[2..] == raw + "}}" + after
    ensures s == Enclose(raw) + after && s[|raw| + 4..] == after
  {
    assert s == s[..2] + s[2..];
    assert s[..2] == "{{";
  }

  ghost predicate EndTagAt(s: string, e: nat) {
    && e <= |s| && AtTag(s[e..]) && NextTag(s[e..]).Some? && NextTag(s[e..]).value.directive == "end"
  }

  ghost function AfterTag(s: string, e: nat): nat
    requires EndTagAt(s, e)
  {
    e + NextTag(s[e..]).value.len
  }

  /** One step of the scan: the length of what is read, and the depth after it. */
  lemma ScanStep(s: string, k: nat, d: nat) returns (len: nat, k': nat)
    requires k >= 1 && d >= 1 && FindEnd(s, k + d).Ok?
    ensures 1 <= len <= |s|
    ensures FindEnd(s, k) == if k' == 0 then Ok(0) else Shift(FindEnd(s[len..], k'), len)
    ensures FindEnd(s, k + d) == Shift(FindEnd(s[len..], k' + d), len)
    ensures k' == 0 ==> EndTagAt(s, 0) && AfterTag(s, 0) == len
  {
    hide NextTag, Opens;
    len, k' := 1, k;
    if AtTag(s) {
      len, k' := NextTag(s).value.len, DepthAfter(NextTag(s).value.directive, k);
    }
    if k' == 0 { assert s[0..] == s; }
  }

  lemma EndTagShift(s: string, len: nat, e: nat)
    requires len <= |s| && EndTagAt(s[len..], e)
    ensures EndTagAt(s, len + e) && AfterTag(s, len + e) == len + AfterTag(s[len..], e)
    ensures s[AfterTag(s, len + e)..] == s[len..][AfterTag(s[len..], e)..]
  {
  }

  /** With `k + d` blocks open, the scan first finds the end of the inner `k`, and goes on from there with `d`. */
  lemma {:induction false} InnerEndFirst(s: string, k: nat, d: nat)
    requires k >= 1 && d >= 1 && FindEnd(s, k + d).Ok?
    ensures FindEnd(s, k).Ok? && EndTagAt(s, FindEnd(s, k).value)
    ensures var next := AfterTag(s, FindEnd(s, k).value);
            FindEnd(s, k + d) == Shift(FindEnd(s[next..], d), next)
    decreases |s|
  {
    hide FindEnd, EndTagAt, AfterTag;
    var len, k' := ScanStep(s, k, d);
    if k' != 0 {
      InnerEndFirst(s[len..], k', d);
      EndTagShift(s, len, FindEnd(s[len..], k').value);
    }
  }

  /** `s` is a balanced text of length `e`, then an end tag, then anything. */
  ghost predicate ClosesAt(s: string, e: nat) {
    exists body: Tree, endRaw: string, after: string ::
      && Balanced(body) && EndText(endRaw) && |Print(body)| == e
      && s == Print(body) + (Enclose(endRaw) + after)
  }

  lemma LiteralStep(s: string) returns (text: string, rest: string)
    requires FindEnd(s, 1).Ok? && !AtTag(s)
    ensures text != "" && LitText(text) && s == text + rest
    ensures FindEnd(s, 1) == Shift(FindEnd(rest, 1), |text|)
  {
    var n := if s[0] == '{' then 2 else 1;
    assert s[1..][1..] == s[2..];
    text, rest := s[..n], s[n..];
  }

  lemma TagStep(s: string) returns (raw: string, rest: string)
    requires FindEnd(s, 1).Ok? && AtTag(s)
    ensures TagText(raw) && s == Enclose(raw) + rest
    ensures var d := DepthAfter(Trim(raw), 1);
            FindEnd(s, 1) == if d == 0 then Ok(0) else Shift(FindEnd(rest, d), |raw| + 4)
  {
    assert NextTag(s).Some?;
    hide FindEnd;
    raw := TagShape(s);
    rest := s[|raw| + 4..];
    TagScanned(raw, rest, 1);
  }

  lemma {:induction false} EndFoundSound(s: string) returns (body: Tree, endRaw: string, after: string)
    requires FindEnd(s, 1).Ok?
    ensures Balanced(body) && EndText(endRaw) && |Print(body)| == FindEnd(s, 1).value
    ensures s == Print(body) + (Enclose(endRaw) + after)
    decreases |s|
  {
    hide FindEnd, TagText, LitText, Trim, Opens, Enclose;
    if !AtTag(s) {
      var text, rest := LiteralStep(s);
      body, endRaw, after := EndFoundSound(rest);
      ConcatLeft(text, Print(body), Enclose(endRaw) + after);
      body := Lit(text, body);
      return;
    }
    var raw, rest := TagStep(s);
    TagNotEmpty(raw);
    if DepthAfter(Trim(raw), 1) == 0 {
      body, endRaw, after := Done, raw, rest;
    } else if Opens(Trim(raw)) {
      InnerEndFirst(rest, 1, 1);
      var inner, innerEnd, next := EndFoundSound(rest);
      TagAfter(inner, innerEnd, next);
      body, endRaw, after := EndFoundSound(next);
      ConcatBlock(Enclose(raw), Print(inner), Enclose(innerEnd), Print(body), Enclose(endRaw) + after);
      body := Block(raw, inner, innerEnd, body);
    } else {
      body, endRaw, after := EndFoundSound(rest);
      ConcatLeft(Enclose(raw), Print(body), Enclose(endRaw) + after);
      body := Var(raw, body);
    }
  }

  lemma TagNotEmpty(raw: string)
    ensures |Enclose(raw)| == |raw| + 4
  {
  }

  lemma ConcatLeft(a: string, b: string, c: string)
    ensures (a + b) + c == a + (b + c)
  {
  }

  lemma TagAfter(body: Tree, endRaw: string, after: string)
    requires EndText(endRaw)
    ensures var s := Print(body) + (Enclose(endRaw) + after);
            && EndTagAt(s, |Print(body)|)
            && AfterTag(s, |Print(body)|) == |Print(body)| + |endRaw| + 4
            && s[AfterTag(s, |Print(body)|)..] == after
  {
    hide NextTag, TagText, Trim;
    var s := Print(body) + (Enclose(endRaw) + after);
    assert s[|Print(body)|..] == Enclose(endRaw) + after;
    TagRead(endRaw, after);
  }

  /** `FindEnd` succeeds with `e` exactly when the text before `e` is balanced and an end tag follows it. */
  lemma EndFoundExactly(s: string, e: nat)
    ensures FindEnd(s, 1) == Ok(e) <==> ClosesAt(s, e)
  {
    hide FindEnd, EndText, Balanced;
    if FindEnd(s, 1) == Ok(e) {
      var body, endRaw, after := EndFoundSound(s);
    }
    if ClosesAt(s, e) {
      var body: Tree, endRaw: string, after: string :|
        Balanced(body) && EndText(endRaw) && |Print(body)| == e && s == Print(body) + (Enclose(endRaw) + after);
      EndFound(body, endRaw, after);
    }
  }

  // ----- The scanner computes the meaning of the tree -----

  /** After a block the scanner is at the end of the end tag exactly when the tag fits. */
  lemma ResumePoint(endRaw: string, after: string)
    ensures Drop(Enclose(endRaw) + after, END_LEN) == after <==> ResumesAt(endRaw, after)
  {
    var s := Enclose(endRaw) + after;
    if |Enclose(endRaw)| == END_LEN { assert s[END_LEN..] == after; }
  }

  /** Rendering a printed tree and what follows it: the meaning of the tree, then the rest. */
  lemma {:induction false} TreeRendered(t: Tree, s: string, ctx: Context, it: Option<string>)
    requires Balanced(t) && EndsFit(t, s)
    ensures Render(Print(t) + s, ctx, it) == Cat(Eval(t, ctx, it), Render(s, ctx, it))
    decreases t, 1
  {
    hide FindEnd, Render, TagText, LitText, Trim, BlockPart, Substitute, Copied, Cat, ResumesAt;
    match t
    case Done =>
      assert Print(t) + s == s;
      CatEmpty(Render(s, ctx, it));
    case Lit(text, rest) =>
      ConcatLeft(text, Print(rest), s);
      LiteralRendered(text, Print(rest) + s, ctx, it);
      TreeRendered(rest, s, ctx, it);
      CatCat(Ok(Copied(text)), Eval(rest, ctx, it), Render(s, ctx, it));
    case Var(raw, rest) =>
      ConcatLeft(Enclose(raw), Print(rest), s);
      TagRendered(raw, Print(rest) + s, ctx, it);
      TreeRendered(rest, s, ctx, it);
      CatCat(Substitute(ctx, it, Trim(raw)), Eval(rest, ctx, it), Render(s, ctx, it));
    case Block(raw, body, endRaw, rest) =>
      var after := Print(rest) + s;
      ConcatBlock(Enclose(raw), Print(body), Enclose(endRaw), Print(rest), s);
      BlockRendered(raw, body, endRaw, after, ctx, it);
      ResumePoint(endRaw, after);
      TreeRendered(rest, s, ctx, it);
      CatCat(BlockPart(raw, body, ctx, it), Eval(rest, ctx, it), Render(s, ctx, it));
  }

  lemma CatCat(a: Rendered, b: Rendered, c: Rendered)
    ensures Cat(a, Cat(b, c)) == Cat(Cat(a, b), c)
  {
    if a.Ok? && b.Ok? { CatAssoc(a.value, b.value, c); }
  }

  /** A block whose end is found: its part, then what is left behind the `END_LEN` bytes skipped. */
  lemma PartRendered(raw: string, s: string, end: nat, ctx: Context, it: Option<string>)
    requires TagText(raw) && Opens(Trim(raw)) && FindEnd(s, 1) == Ok(end)
    ensures end <= |s|
    ensures Render(Enclose(raw) + s, ctx, it)
         == Cat(Part(Trim(raw), ctx, it, item => Render(s[..end], ctx, item)), Render(Drop(s, end + END_LEN), ctx, it))
  {
    hide FindEnd, Render, RenderItems, TagText, Trim, Enclose;
    EndOpensNothing();
    TagRendered(raw, s, ctx, it);
    forall items: seq<string>
      ensures RenderItems(s[..end], items, ctx) == Each(items, item => Render(s[..end], ctx, item))
    {
      ItemsRendered(s[..end], items, ctx, item => Render(s[..end], ctx, item));
    }
  }

  lemma {:induction false} ItemsRendered(
    body: string, items: seq<string>, ctx: Context, means: Option<string> -> Rendered)
    requires forall item :: means(item) == Render(body, ctx, item)
    ensures RenderItems(body, items, ctx) == Each(items, means)
  {
    hide Render;
    if items != [] { ItemsRendered(body, items[1..], ctx, means); }
  }

  /** A block with any end tag in front of any text. */
  lemma {:induction false} BlockRendered(
    raw: string, body: Tree, endRaw: string, after: string, ctx: Context, it: Option<string>)
    requires TagText(raw) && Opens(Trim(raw)) && EndText(endRaw) && Balanced(body) && EndsFit(body, "")
    ensures Render(Enclose(raw) + (Print(body) + (Enclose(endRaw) + after)), ctx, it)
         == Cat(BlockPart(raw, body, ctx, it), Render(Drop(Enclose(endRaw) + after, END_LEN), ctx, it))
    decreases body, 3
  {
    hide FindEnd, Render, Part, TagText, Trim, Balanced, EndsFit, Opens, Enclose;
    var s := Print(body) + (Enclose(endRaw) + after);
    BlockParts(body, endRaw, after);
    PartRendered(raw, s, |Print(body)|, ctx, it);
    forall item ensures Render(Print(body), ctx, item) == Eval(body, ctx, item) { RenderIsEval(body, ctx, item); }
    PartSame(Trim(raw), ctx, it, item => Render(s[..|Print(body)|], ctx, item), item => Eval(body, ctx, item));
  }

  /** A template that is one printed tree renders to exactly what the tree means: the same output or the same error. */
  lemma {:induction false} RenderIsEval(t: Tree, ctx: Context, it: Option<string>)
    requires Balanced(t) && EndsFit(t, "")
    ensures Render(Print(t), ctx, it) == Eval(t, ctx, it)
    decreases t, 2
  {
    hide Render, Eval, Balanced, EndsFit;
    assert Print(t) + "" == Print(t);
    TreeRendered(t, "", ctx, it);
    NothingRendered(ctx, it);
    assert forall v: string :: v + "" == v;
  }

  /** The scanner cuts the text after an opening tag into the block's body and what is left behind the bytes skipped. */
  lemma BlockParts(body: Tree, endRaw: string, after: string)
    requires Balanced(body) && EndText(endRaw)
    ensures var s := Print(body) + (Enclose(endRaw) + after);
            && FindEnd(s, 1) == Ok(|Print(body)|)
            && s[..|Print(body)|] == Print(body)
            && Drop(s, |Print(body)| + END_LEN) == Drop(Enclose(endRaw) + after, END_LEN)
  {
    hide FindEnd, EndText, Balanced, Print, Enclose;
    EndFound(body, endRaw, after);
  }

  // ----- Every text -----

  /** What a text can end in when it is not a printed tree alone, and how rendering that ends. */
  datatype Tail =
    | Nothing
    | LoneBrace                                     // one `{` at the very end
    | OpenTag(after: string)                        // `{{` without `}}`
    | StrayEnd(raw: string, after: string)          // an end tag that closes nothing
    | OpenBlock(raw: string, body: Tree, last: Tail) // a block without an end, up to the end of the text

  function PrintTail(tail: Tail): string {
    match tail
    case Nothing => ""
    case LoneBrace => "{"
    case OpenTag(after) => "{{" + after
    case StrayEnd(raw, after) => Enclose(raw) + after
    case OpenBlock(raw, body, last) => Enclose(raw) + (Print(body) + PrintTail(last))
  }

  ghost predicate TailText(tail: Tail) {
    match tail
    case Nothing => true
    case LoneBrace => true
    case OpenTag(after) => Find(after, "}}").None?
    case StrayEnd(raw, _) => EndText(raw)
    case OpenBlock(raw, body, last) =>
      TagText(raw) && Opens(Trim(raw)) && Balanced(body) && TailText(last) && !last.StrayEnd?
  }

  /** What is missing in a block without an end: a `}}` when its innermost open part is a tag, else the end tag. */
  function OpenError(tail: Tail): TemplateError {
    match tail
    case OpenTag(_) => Unbalanced("missing '}}'")
    case OpenBlock(_, _, last) => OpenError(last)
    case _ => Unbalanced("missing '{{ end }}'")
  }

  function EvalTail(tail: Tail): Rendered {
    match tail
    case Nothing => Ok("")
    case LoneBrace => Ok("{")
    case OpenTag(_) => Err(Unbalanced("missing '}}'"))
    case StrayEnd(_, _) => Err(Unbalanced("stray '{{ end }}'"))
    case OpenBlock(_, _, last) => Err(OpenError(last))
  }

  /** A tail closes no block: the scan for an end fails on it, with the tail's own error, at every depth. */
  lemma {:induction false} TailScanned(tail: Tail, depth: nat)
    requires TailText(tail) && !tail.StrayEnd? && depth >= 1
    ensures FindEnd(PrintTail(tail), depth) == Err(OpenError(tail))
  {
    hide FindEnd, TagText, Balanced, Opens, Trim, Find;
    match tail
    case OpenBlock(raw, body, last) =>
      TagScanned(raw, Print(body) + PrintTail(last), depth);
      BalancedSkipped(body, PrintTail(last), depth + 1);
      TailScanned(last, depth + 1);
    case OpenTag(after) => OpenTagScanned(after, depth);
    case _ => NoEndScanned(depth);
  }

  lemma NoEndScanned(depth: nat)
    requires depth >= 1
    ensures FindEnd("", depth) == Err(MISSING_END) && FindEnd("{", depth) == Err(MISSING_END)
  {
    assert "{"[1..] == "";
  }

  lemma OpenTagScanned(after: string, depth: nat)
    requires Find(after, "}}").None? && depth >= 1
    ensures FindEnd("{{" + after, depth) == Err(MISSING_CLOSE)
  {
    assert ("{{" + after)[2..] == after;
  }

  lemma TailRendered(tail: Tail, ctx: Context, it: Option<string>)
    requires TailText(tail)
    ensures Render(PrintTail(tail), ctx, it) == EvalTail(tail)
  {
    match tail
    case Nothing =>
    case LoneBrace =>
      assert "{"[1..] == "" && "{" + "" == "{";
    case OpenTag(after) =>
      assert ("{{" + after)[2..] == after;
    case StrayEnd(raw, after) =>
      EndOpensNothing();
      TagRead(raw, after);
    case OpenBlock(raw, body, last) =>
      hide FindEnd, TagText, Balanced, Trim;
      EndOpensNothing();
      TagRendered(raw, Print(body) + PrintTail(last), ctx, it);
      BalancedSkipped(body, PrintTail(last), 1);
      TailScanned(last, 1);
  }

  /** Every text is a printed balanced tree followed by one of these tails. */
  lemma {:induction false} EveryTextSplits(s: string) returns (t: Tree, tail: Tail)
    ensures Balanced(t) && TailText(tail) && s == Print(t) + PrintTail(tail)
    decreases |s|
  {
    hide FindEnd, TagText, LitText, Trim, Opens, Enclose, Find;
    if s == "" || s == "{" {
      t, tail := Done, if s == "" then Nothing else LoneBrace;
    } else if !AtTag(s) {
      var text, rest := LiteralSplit(s);
      t, tail := EveryTextSplits(rest);
      ConcatLeft(text, Print(t), PrintTail(tail));
      t := Lit(text, t);
    } else if NextTag(s).None? {
      assert s == "{{" + s[2..];
      NoClose(s);
      t, tail := Done, OpenTag(s[2..]);
    } else {
      var raw := TagShape(s);
      TagNotEmpty(raw);
      var rest := s[|raw| + 4..];
      if Trim(raw) == "end" {
        t, tail := Done, StrayEnd(raw, rest);
      } else if !Opens(Trim(raw)) {
        t, tail := EveryTextSplits(rest);
        ConcatLeft(Enclose(raw), Print(t), PrintTail(tail));
        t := Var(raw, t);
      } else {
        var body, last := EveryTextSplits(rest);
        if last.StrayEnd? {
          t, tail := EveryTextSplits(last.after);
          ConcatBlock(Enclose(raw), Print(body), Enclose(last.raw), Print(t), PrintTail(tail));
          t := Block(raw, body, last.raw, t);
        } else {
          t, tail := Done, OpenBlock(raw, body, last);
        }
      }
    }
  }

  lemma NoClose(s: string)
    requires AtTag(s) && NextTag(s).None?
    ensures Find(s[2..], "}}").None?
  {
  }

  lemma LiteralSplit(s: string) returns (text: string, rest: string)
    requires s != "" && s != "{" && !AtTag(s)
    ensures text != "" && LitText(text) && s == text + rest
  {
    var n := if s[0] == '{' then 2 else 1;
    text, rest := s[..n], s[n..];
  }

  /**
   Rendering of any text at all: it splits into a balanced tree and a tail, and whenever the tree's end tags fit,
   the result is the meaning of the tree followed by that of the tail.
   */
  lemma EveryTextRendered(s: string, ctx: Context, it: Option<string>) returns (t: Tree, tail: Tail)
    ensures Balanced(t) && TailText(tail) && s == Print(t) + PrintTail(tail)
    ensures EndsFit(t, PrintTail(tail)) ==> Render(s, ctx, it) == Cat(Eval(t, ctx, it), EvalTail(tail))
  {
    hide Balanced, TailText, Render, Eval, EndsFit, EvalTail, PrintTail;
    t, tail := EveryTextSplits(s);
    TailRendered(tail, ctx, it);
    if EndsFit(t, PrintTail(tail)) { TreeRendered(t, PrintTail(tail), ctx, it); }
  }

  // ----- Every text, as the scanner reads it -----

  /**
   A reading of a text: what the scanner takes each part of it for. Behind a block it skips `END_LEN` bytes,
   whatever they are, and the body of a block is a text of its own.
   */
  datatype Reading =
    | Stop(tail: Tail)
    | Words(text: string, rest: Reading)
    | Value(raw: string, rest: Reading)
    | Section(raw: string, body: Reading, skipped: string, rest: Reading)

  function Source(r: Reading): string {
    match r
    case Stop(tail) => PrintTail(tail)
    case Words(text, rest) => text + Source(rest)
    case Value(raw, rest) => Enclose(raw) + Source(rest)
    case Section(raw, body, skipped, rest) => Enclose(raw) + (Source(body) + (skipped + Source(rest)))
  }

  ghost predicate Reads(r: Reading) {
    match r
    case Stop(tail) => TailText(tail)
    case Words(text, rest) => LitText(text) && Reads(rest)
    case Value(raw, rest) => TagText(raw) && !Opens(Trim(raw)) && Trim(raw) != "end" && Reads(rest)
    case Section(raw, body, skipped, rest) =>
      && TagText(raw) && Opens(Trim(raw)) && Reads(body) && Reads(rest)
      && ClosesAt(Source(body) + (skipped + Source(rest)), |Source(body)|)
      && (|skipped| == END_LEN || (|skipped| < END_LEN && Source(rest) == ""))
  }

  function Means(r: Reading, ctx: Context, it: Option<string>): Rendered {
    match r
    case Stop(tail) => EvalTail(tail)
    case Words(text, rest) => Cat(Ok(Copied(text)), Means(rest, ctx, it))
    case Value(raw, rest) => Cat(Substitute(ctx, it, Trim(raw)), Means(rest, ctx, it))
    case Section(raw, body, _, rest) =>
      Cat(Part(Trim(raw), ctx, it, item => Means(body, ctx, item)), Means(rest, ctx, it))
  }

  /** Rendering gives the meaning of the reading, in every context. */
  lemma {:induction false} ReadingRendered(r: Reading, ctx: Context, it: Option<string>)
    requires Reads(r)
    ensures Render(Source(r), ctx, it) == Means(r, ctx, it)
  {
    hide Render, TagText, LitText, Trim, Opens, TailText, Cat, Substitute, Copied, Part, Enclose, ClosesAt;
    match r
    case Stop(tail) => TailRendered(tail, ctx, it);
    case Words(text, rest) =>
      LiteralRendered(text, Source(rest), ctx, it);
      ReadingRendered(rest, ctx, it);
    case Value(raw, rest) =>
      TagRendered(raw, Source(rest), ctx, it);
      ReadingRendered(rest, ctx, it);
    case Section(raw, body, skipped, rest) =>
      var s, e := Source(body) + (skipped + Source(rest)), |Source(body)|;
      EndFoundExactly(s, e);
      PartRendered(raw, s, e, ctx, it);
      ReadingRendered(rest, ctx, it);
      assert s[..e] == Source(body) && Drop(s, e + END_LEN) == Source(rest);
      forall item ensures Render(s[..e], ctx, item) == Means(body, ctx, item) { ReadingRendered(body, ctx, item); }
      PartSame(Trim(raw), ctx, it, item => Render(s[..e], ctx, item), item => Means(body, ctx, item));
  }

  /** Every text has a reading. */
  lemma {:induction false} EveryTextRead(s: string) returns (r: Reading)
    ensures Reads(r) && Source(r) == s
    decreases |s|
  {
    hide FindEnd, TagText, LitText, Trim, Opens, Enclose, Find, ClosesAt;
    if s == "" || s == "{" {
      r := Stop(if s == "" then Nothing else LoneBrace);
    } else if !AtTag(s) {
      var text, rest := LiteralSplit(s);
      r := EveryTextRead(rest);
      r := Words(text, r);
    } else if NextTag(s).None? {
      assert s == "{{" + s[2..];
      NoClose(s);
      r := Stop(OpenTag(s[2..]));
    } else {
      var raw := TagShape(s);
      TagNotEmpty(raw);
      var rest := s[|raw| + 4..];
      if Trim(raw) == "end" {
        r := Stop(StrayEnd(raw, rest));
      } else if !Opens(Trim(raw)) {
        r := EveryTextRead(rest);
        r := Value(raw, r);
      } else {
        r := BlockRead(raw, rest);
      }
    }
  }

  lemma {:induction false} BlockRead(raw: string, s: string) returns (r: Reading)
    requires TagText(raw) && Opens(Trim(raw))
    ensures Reads(r) && Source(r) == Enclose(raw) + s
    decreases |s|, 1
  {
    hide FindEnd, TagText, Trim, Opens, Enclose, ClosesAt;
    if FindEnd(s, 1).Err? {
      var body, last := EveryTextSplits(s);
      if last.StrayEnd? { EndFound(body, last.raw, last.after); }
      r := Stop(OpenBlock(raw, body, last));
    } else {
      var e := FindEnd(s, 1).value;
      var end := if e + END_LEN <= |s| then e + END_LEN else |s|;
      var body := EveryTextRead(s[..e]);
      var rest := EveryTextRead(s[end..]);
      EndFoundExactly(s, e);
      assert s == s[..e] + (s[e..end] + s[end..]);
      r := Section(raw, body, s[e..end], rest);
    }
  }

  /** Rendering of any text at all, without any condition on its end tags: the meaning of its reading. */
  lemma AnyTextRendered(s: string) returns (r: Reading)
    ensures Reads(r) && Source(r) == s
    ensures forall ctx: Context, it: Option<string> :: Render(s, ctx, it) == Means(r, ctx, it)
  {
    hide *;
    r := EveryTextRead(s);
    forall ctx: Context, it: Option<string> ensures Render(s, ctx, it) == Means(r, ctx, it) {
      ReadingRendered(r, ctx, it);
    }
  }

  // ----- Where the text and the tree part -----

  predicate AsciiText(text: string) {
    forall i :: 0 <= i < |text| ==> text[i] < '\U{80}'
  }

  /** Literal text is reproduced exactly when it is ASCII: other bytes are copied one by one as characters. */
  lemma {:induction false} CopiedExactly(text: string)
    ensures |Copied(text)| >= |text|
    ensures Copied(text) == text <==> AsciiText(text)
  {
    if text != "" {
      CopiedExactly(text[1..]);
      assert text == [text[0]] + text[1..];
      if text[0] < '\U{80}' {
        assert Copied(text)[1..] == Copied(text[1..]);
      } else {
        assert |Copied(text)| > |text|;
      }
    }
  }

  /** The template's text renders to what the tree means. */
  ghost predicate AsMeant(t: Tree, ctx: Context, it: Option<string>) {
    Render(Print(t), ctx, it) == Eval(t, ctx, it)
  }

  /**
   A block is followed correctly by every well-formed rest of a template exactly when its end tag has the `END_LEN`
   bytes that are skipped, or the block itself fails.
   */
  lemma FitsExactly(raw: string, body: Tree, endRaw: string, ctx: Context, it: Option<string>)
    requires TagText(raw) && Opens(Trim(raw)) && EndText(endRaw) && Balanced(body) && EndsFit(body, "")
    ensures (forall rest :: Balanced(rest) && EndsFit(rest, "") ==> AsMeant(Block(raw, body, endRaw, rest), ctx, it))
       <==> |Enclose(endRaw)| == END_LEN || BlockPart(raw, body, ctx, it).Err?
  {
    hide TagText, Opens, Trim, EndText, Balanced, BlockPart, Enclose;
    if |Enclose(endRaw)| == END_LEN || BlockPart(raw, body, ctx, it).Err? {
      forall rest | Balanced(rest) && EndsFit(rest, "") ensures AsMeant(Block(raw, body, endRaw, rest), ctx, it) {
        hide EndsFit, Render;
        BlockRendered(raw, body, endRaw, Print(rest), ctx, it);
        ResumePoint(endRaw, Print(rest));
        RenderIsEval(rest, ctx, it);
      }
    } else {
      MisfitShows(raw, body, endRaw, ctx, it);
    }
  }

  /** What a misfit spoils: behind a long end tag nothing, behind a short one two letters. */
  function Victim(endRaw: string): Tree {
    if |Enclose(endRaw)| > END_LEN then Done else Lit("bc", Done)
  }

  /** The end of a long end tag is put out as text, and the text behind a short one is lost. */
  lemma MisfitShows(raw: string, body: Tree, endRaw: string, ctx: Context, it: Option<string>)
    requires TagText(raw) && Opens(Trim(raw)) && EndText(endRaw) && Balanced(body) && EndsFit(body, "")
    requires |Enclose(endRaw)| != END_LEN && BlockPart(raw, body, ctx, it).Ok?
    ensures Balanced(Victim(endRaw)) && EndsFit(Victim(endRaw), "")
    ensures Render(Print(Block(raw, body, endRaw, Victim(endRaw))), ctx, it).Ok?
    ensures !AsMeant(Block(raw, body, endRaw, Victim(endRaw)), ctx, it)
  {
    hide TagText, Opens, Trim, EndText, Balanced, BlockPart, Enclose, EndsFit, Render, Victim;
    hide Copied, Drop, Print, Eval;
    var left := MisfitText(endRaw, ctx, it);
    BlockUnfolded(raw, body, endRaw, Victim(endRaw), ctx, it);
    BlockRendered(raw, body, endRaw, Print(Victim(endRaw)), ctx, it);
  }

  lemma BlockUnfolded(raw: string, body: Tree, endRaw: string, rest: Tree, ctx: Context, it: Option<string>)
    ensures Print(Block(raw, body, endRaw, rest)) == Enclose(raw) + (Print(body) + (Enclose(endRaw) + Print(rest)))
    ensures Eval(Block(raw, body, endRaw, rest), ctx, it) == Cat(BlockPart(raw, body, ctx, it), Eval(rest, ctx, it))
  {
  }

  /** What is left of the text behind a misfit: more or less than what the victim means. */
  lemma MisfitText(endRaw: string, ctx: Context, it: Option<string>) returns (left: string)
    requires EndText(endRaw) && |Enclose(endRaw)| != END_LEN
    ensures Balanced(Victim(endRaw)) && EndsFit(Victim(endRaw), "")
    ensures left == Drop(Enclose(endRaw) + Print(Victim(endRaw)), END_LEN)
    ensures Render(left, ctx, it) == Ok(Copied(left)) && Eval(Victim(endRaw), ctx, it).Ok?
    ensures |Copied(left)| != |Eval(Victim(endRaw), ctx, it).value|
  {
    left := Drop(Enclose(endRaw) + Print(Victim(endRaw)), END_LEN);
    EndTextShape(endRaw);
    VictimMeans(endRaw, ctx, it);
    hide TagText, Trim, Render, Eval, LitText, Copied;
    MisfitLeft(endRaw);
    CopiedExactly(left);
    PlainRendered(left, ctx, it);
  }

  lemma VictimMeans(endRaw: string, ctx: Context, it: Option<string>)
    ensures Balanced(Victim(endRaw)) && EndsFit(Victim(endRaw), "")
    ensures Eval(Victim(endRaw), ctx, it) == Ok(Print(Victim(endRaw)))
  {
    CopiedExactly("bc");
    assert "bc" + "" == "bc";
  }

  lemma MisfitLeft(endRaw: string)
    requires '{' !in endRaw && |endRaw| >= 3 && |Enclose(endRaw)| != END_LEN
    ensures var left := Drop(Enclose(endRaw) + Print(Victim(endRaw)), END_LEN);
            && '{' !in left
            && if |Enclose(endRaw)| > END_LEN then left != "" && Print(Victim(endRaw)) == ""
               else AsciiText(left) && |left| < 2 && |Print(Victim(endRaw))| == 2
  {
    var text := Print(Victim(endRaw));
    assert text == "" || text == "bc" by { assert "bc" + "" == "bc"; }
    var whole := Enclose(endRaw) + text;
    assert whole == "{{" + (endRaw + "}}" + text);
    assert whole[2..] == endRaw + "}}" + text;
    assert '{' !in whole[2..];
    if END_LEN <= |whole| { assert whole[END_LEN..] == whole[2..][END_LEN - 2..]; }
    if |Enclose(endRaw)| < END_LEN && END_LEN <= |whole| {
      assert whole[END_LEN..] == text[END_LEN - |Enclose(endRaw)|..];
    }
  }

  lemma PlainRendered(text: string, ctx: Context, it: Option<string>)
    requires '{' !in text
    ensures Render(text, ctx, it) == Ok(Copied(text))
  {
    LiteralRendered(text, "", ctx, it);
    hide Render;
    NothingRendered(ctx, it);
    assert text + "" == text && Copied(text) + "" == Copied(text);
  }

  lemma EndTextShape(endRaw: string)
    requires EndText(endRaw)
    ensures '{' !in endRaw && |endRaw| >= 3
  {
    TrimKeeps(endRaw, '{');
  }

  /** Trimming removes white space only. */
  lemma TrimKeeps(s: string, c: char)
    requires c < '\U{80}' && !AsciiWhite(c)
    ensures |Trim(s)| <= |s| && (c in s ==> c in Trim(s))
  {
    TrimStartKeeps(s, c);
    TrimEndKeeps(TrimStart(s), c);
  }

  lemma {:induction false} TrimStartKeeps(s: string, c: char)
    requires c < '\U{80}' && !AsciiWhite(c)
    ensures |TrimStart(s)| <= |s| && (c in s ==> c in TrimStart(s))
  {
    var n := WhiteLen(s);
    if n > 0 {
      TrimStartKeeps(s[n..], c);
      assert s == s[..n] + s[n..];
    }
  }

  lemma {:induction false} TrimEndKeeps(s: string, c: char)
    requires c < '\U{80}' && !AsciiWhite(c)
    ensures |TrimEnd(s)| <= |s| && (c in s ==> c in TrimEnd(s))
  {
    var n := |s| - WhiteLenEnd(s);
    if n < |s| {
      assert s == s[..n] + s[n..];
      assert c !in s[n..] by { hide TrimEnd; }
      hide WhiteLenEnd;
      TrimEndKeeps(s[..n], c);
    }
  }

  lemma BracesAt(s: string, j: int)
    ensures OccursAt(s, "}}", j) <==> 0 <= j && j + 2 <= |s| && s[j] == '}' && s[j + 1] == '}'
  {
  }

  /** End tags of every length from 7 bytes on exist. */
  lemma EndSpelled(raw: string)
    ensures EndText("end") && |Enclose("end")| == 7
    ensures EndText(raw) ==> EndText(" " + raw)
  {
    EndHasNoBraces();
    EndIsTrimmed();
    SpaceBefore(raw);
  }

  lemma SpaceBefore(raw: string)
    ensures TagText(raw) ==> TagText(" " + raw)
    ensures Trim(" " + raw) == Trim(raw)
  {
    var s := " " + raw + "}}";
    assert (" " + raw)[1..] == raw && s[1..] == raw + "}}" && s[..2][0] == ' ';
  }

  lemma EndHasNoBraces()
    ensures TagText("end") && Find("end", "}}").None?
  {
    var t := "end" + "}}";
    FindFirst("end", "}}");
    hide Find;
    forall j ensures 0 <= j < 3 ==> !OccursAt(t, "}}", j) { BracesAt(t, j); }
    forall j ensures !OccursAt("end", "}}", j) { BracesAt("end", j); }
    BracesAt(t, 3);
    FindIs(t, "}}", 3);
  }

  lemma EndIsTrimmed()
    ensures WhiteLen("end") == 0 && WhiteLenEnd("end") == 0 && Trim("end") == "end"
  {
  }

  // ----- The usual spelling, one space on each side -----

  function Padded(directive: string): string {
    " " + directive + " "
  }

  /** A directive that is not empty, is trimmed and has no `}}` inside is read back from between two spaces. */
  lemma PaddedDirective(directive: string)
    requires directive != "" && WhiteLen(directive) == 0 && WhiteLenEnd(directive) == 0
    requires Find(directive, "}}").None?
    ensures TagText(Padded(directive)) && Trim(Padded(directive)) == directive
  {
    PaddedTagText(directive);
    hide Find;
    assert Padded(directive)[1..] == directive + " ";
    assert WhiteLen(Padded(directive)) == 1 && WhiteLen(directive + " ") == 0;
    assert TrimStart(Padded(directive)) == directive + " ";
    assert WhiteLenEnd(directive + " ") == 1;
    assert (directive + " ")[..|directive + " "| - 1] == directive;
    assert TrimEnd(directive + " ") == TrimEnd(directive) == directive;
  }

  lemma PaddedTagText(directive: string)
    requires Find(directive, "}}").None?
    ensures TagText(Padded(directive))
  {
    FindFirst(directive, "}}");
    hide Find;
    var s := Padded(directive);
    forall j | 0 <= j < |s| ensures !OccursAt(s + "}}", "}}", j) {
      BracesAt(s + "}}", j);
      BracesAt(directive, j - 1);
    }
    BracesAt(s + "}}", |s|);
    FindIs(s + "}}", "}}", |s|);
  }

  lemma CanonicalEnd()
    ensures EndText(Padded("end")) && Enclose(Padded("end")) == "{{ end }}" && |Enclose(Padded("end"))| == END_LEN
  {
    assert Padded("end") == " end ";
    EndIsTrimmed();
    EndHasNoBraces();
    hide Find, Trim, TagText, WhiteLen, WhiteLenEnd;
    PaddedDirective("end");
  }

  // ----- Loop items and values -----

  /** Inside a loop the item hides a context variable named `it`, at every depth and in nested loops. */
  lemma {:induction false} LoopItemShadows(t: Tree, ctx: Context, item: string, v: TemplateValue)
    ensures Eval(t, ctx["it" := v], Some(item)) == Eval(t, ctx, Some(item))
  {
    match t
    case Done =>
    case Lit(text, rest) => LoopItemShadows(rest, ctx, item, v);
    case Var(raw, rest) => LoopItemShadows(rest, ctx, item, v);
    case Block(raw, body, endRaw, rest) =>
      LoopItemShadows(rest, ctx, item, v);
      forall x: string { LoopItemShadows(body, ctx, x, v); }
      LoopPartShadows(raw, body, ctx, item, v);
  }

  lemma LoopPartShadows(raw: string, body: Tree, ctx: Context, item: string, v: TemplateValue)
    requires forall x: string :: Eval(body, ctx["it" := v], Some(x)) == Eval(body, ctx, Some(x))
    ensures BlockPart(raw, body, ctx["it" := v], Some(item)) == BlockPart(raw, body, ctx, Some(item))
  {
    hide Trim, Eval;
    var f, g := x => Eval(body, ctx["it" := v], x), x => Eval(body, ctx, x);
    forall items { EachSame(items, f, g); }
  }

  /** A substituted value or loop item goes into the output as it is, also when it looks like a tag. */
  lemma ValueNotExpanded(raw: string, s: string, ctx: Context, it: Option<string>)
    requires TagText(raw) && !Opens(Trim(raw)) && Trim(raw) != "end"
    ensures var name := Trim(raw);
            var out := Render(Enclose(raw) + s, ctx, it);
            if it.Some? && name == "it" then out == Cat(Ok(it.value), Render(s, ctx, it))
            else if name !in ctx then out == Err(UnknownVariable(name))
            else if ctx[name].Scalar? then out == Cat(Ok(ctx[name].s), Render(s, ctx, it))
            else if ctx[name].Truthy? then out == Cat(Ok(if ctx[name].b then "true" else "false"), Render(s, ctx, it))
            else out == Err(NotAList("cannot substitute list '" + name + "' as bare scalar"))
  {
    hide Trim, TagText, Opens, Render;
    TagRendered(raw, s, ctx, it);
  }
}
