/**
 What a block of a template does, written out on the values of the context: when the body of an `if` is shown, how
 often and with which items that of a `range` is, and which errors there are. Nothing here is said through the
 meaning of a tree.
 */
module TemplateBlocks {
  import opened Utf8
  import opened Text
  import opened PromptTemplate
  import opened TemplateTree

  /** A block with this opening tag, this body and the usual end tag, in front of `s`. */
  function BlockText(raw: string, body: Tree, s: string): string {
    Enclose(raw) + (Print(body) + ("{{ end }}" + s))
  }

  /** What the scanner makes of such a block. */
  lemma BlockRead(raw: string, body: Tree, s: string, ctx: Context, it: Option<string>)
    requires TagText(raw) && Opens(Trim(raw)) && Balanced(body)
    ensures Render(BlockText(raw, body, s), ctx, it)
         == Cat(Part(Trim(raw), ctx, it, item => Render(Print(body), ctx, item)), Render(s, ctx, it))
  {
    CanonicalEnd();
    hide TagText, Opens, Trim, Balanced, Render, Part, Print, EndText, Enclose, FindEnd;
    var end := Padded("end");
    var text := Print(body) + (Enclose(end) + s);
    BlockParts(body, end, s);
    ResumePoint(end, s);
    PartRendered(raw, text, |Print(body)|, ctx, it);
    PartSame(Trim(raw), ctx, it,
             item => Render(text[..|Print(body)|], ctx, item), item => Render(Print(body), ctx, item));
  }

  /**
   An `if` block shows its body when the named value is a loop item or scalar that is not empty, a list that is not
   empty, or true; it shows nothing for the others, and an unknown name is an error.
   */
  lemma IfRendered(raw: string, body: Tree, s: string, ctx: Context, it: Option<string>)
    requires TagText(raw) && StartsWith(Trim(raw), "if ") && Balanced(body)
    ensures var name := Trim(Trim(raw)[3..]);
            var out := Render(BlockText(raw, body, s), ctx, it);
            var shown := Cat(Render(Print(body), ctx, it), Render(s, ctx, it));
            var hidden := Render(s, ctx, it);
            if it.Some? && name == "it" then out == if it.value == "" then hidden else shown
            else if name !in ctx then out == Err(UnknownVariable(name))
            else if ctx[name].Scalar? then out == if ctx[name].s == "" then hidden else shown
            else if ctx[name].List? then out == if ctx[name].items == [] then hidden else shown
            else out == if ctx[name].b then shown else hidden
  {
    BlockRead(raw, body, s, ctx, it);
    CatEmpty(Render(s, ctx, it));
    hide BlockText, Render, TagText, Trim, Balanced, Print;
  }

  /** Outputs one after another, or the first error. */
  function InOrder(outs: seq<Rendered>): Rendered {
    if outs == [] then Ok("")
    else if outs[0].Err? then outs[0]
    else
      match InOrder(outs[1..])
      case Err(e) => Err(e)
      case Ok(more) => Ok(outs[0].value + more)
  }

  /** The body once for every item, with the item bound. */
  function PerItem(body: Tree, items: seq<string>, ctx: Context): seq<Rendered> {
    seq(|items|, i requires 0 <= i < |items| => Render(Print(body), ctx, Some(items[i])))
  }

  lemma {:induction false} EachInOrder(body: Tree, items: seq<string>, ctx: Context, means: Option<string> -> Rendered)
    requires forall item :: means(item) == Render(Print(body), ctx, item)
    ensures Each(items, means) == InOrder(PerItem(body, items, ctx))
  {
    hide Render, Print;
    if items != [] {
      EachInOrder(body, items[1..], ctx, means);
      assert PerItem(body, items, ctx)[1..] == PerItem(body, items[1..], ctx);
    }
  }

  /** A `range` block shows its body once per item of the named list, in order; anything but a list is an error. */
  lemma RangeRendered(raw: string, body: Tree, s: string, ctx: Context, it: Option<string>)
    requires TagText(raw) && StartsWith(Trim(raw), "range ") && Balanced(body)
    ensures var name := Trim(Trim(raw)[6..]);
            var out := Render(BlockText(raw, body, s), ctx, it);
            if it.Some? && name == "it" then out == Err(NotAList(name))
            else if name !in ctx then out == Err(UnknownVariable(name))
            else if ctx[name].List? then
              out == Cat(InOrder(PerItem(body, ctx[name].items, ctx)), Render(s, ctx, it))
            else out == Err(NotAList(name))
  {
    BlockRead(raw, body, s, ctx, it);
    RangeIsNoIf(Trim(raw));
    var name := Trim(Trim(raw)[6..]);
    if name in ctx && ctx[name].List? {
      EachInOrder(body, ctx[name].items, ctx, item => Render(Print(body), ctx, item));
    }
    hide BlockText, Render, TagText, Trim, Balanced, Print, PerItem, InOrder;
  }

  lemma RangeIsNoIf(directive: string)
    requires StartsWith(directive, "range ")
    ensures !StartsWith(directive, "if ") && |directive| >= 6 && Drop(directive, 6) == directive[6..]
  {
    assert directive[..6][0] == 'r' && "if "[0] == 'i';
  }

  // ----- Literal bytes -----

  /** A literal byte is put out as the UTF-8 encoding of the character with that number. */
  lemma ByteCopied(c: char)
    requires c < '\U{100}'
    ensures CopyByte(c) == Chars(EncodeScalar(c as nat))
  {
  }
}
