/**
 CodeGenerator.visit_Output of the template compiler: constant children are
 merged into static text and the rest is emitted as yields, as one append or
 extend of the frame's buffer, or as one %-format; in each case what the
 generated code puts out is the children's text in order.  There is no
 finalize hook in this model.  V is the type of run-time values.
 */
module JinjaOutput {
  import opened Bytes

  /** What visit_Output() reads of the frame. */
  datatype Frame = Frame(buffered: bool, volatile: bool, autoescape: bool, requireOutputCheck: bool)

  /** A child of the node: its value, whether as_const() can tell it at compile
      time, and whether turning that into text fails then. */
  datatype Child<V> = Child(value: V, constant: bool, raises: bool)

  /** The text conversions, and what is known when the template is run. */
  datatype World<!V> = World(str: V -> string, esc: V -> string, autoescape: bool, parentIsNone: bool)

  /** The conversion written around an expression; Bare leaves it to `%s`. */
  datatype Wrap = ToString | Escape | EscapeIfAsked | Bare

  datatype Token<V> =
    | IfNoParent                                   // if parent_template is None:
    | YieldText(text: string)                      // yield 'text'
    | YieldExpr(wrap: Wrap, value: V)              // yield wrap(expr)
    | OpenAppend | CloseAppend                     // buffer.append( ... )
    | OpenExtend | CloseExtend                     // buffer.extend(( ... ))
    | ItemText(text: string)                       // 'text',
    | ItemExpr(wrap: Wrap, value: V)               // wrap(expr),
    | YieldFormat(format: string)                  // yield 'format' % (
    | Argument(wrap: Wrap, value: V)               // wrap(expr),
    | CloseFormat                                  // )

  datatype Line<V> = Line(indent: nat, token: Token<V>)

  // --------------------------------------------------------- running the code

  datatype Out = Yielded(text: string) | Buffered(text: string)

  function Convert<V>(w: World<V>, wrap: Wrap, v: V): string {
    match wrap
    case ToString => w.str(v)
    case Escape => w.esc(v)
    case EscapeIfAsked => if w.autoescape then w.esc(v) else w.str(v)
    case Bare => w.str(v)
  }

  /** Python's % on a string, as far as %s and %% go; None is an error. */
  function Format(fmt: string, args: seq<string>): Option<string> {
    if fmt == "" then if args == [] then Some("") else None
    else if fmt[0] != '%' then Prefixed([fmt[0]], Format(fmt[1..], args))
    else if |fmt| == 1 then None
    else if fmt[1] == '%' then Prefixed("%", Format(fmt[2..], args))
    else if fmt[1] == 's' && args != [] then Prefixed(args[0], Format(fmt[2..], args[1..]))
    else None
  }

  function Prefixed(s: string, rest: Option<string>): Option<string> {
    if rest.Some? then Some(s + rest.value) else None
  }

  function Then<T>(first: seq<T>, rest: Option<seq<T>>): Option<seq<T>> {
    if rest.Some? then Some(first + rest.value) else None
  }

  /** The items of a tuple that n lines hold. */
  function Items<V>(lines: seq<Line<V>>, w: World<V>): Option<seq<string>> {
    if lines == [] then Some([])
    else
      match lines[0].token
      case ItemText(t) => Then([t], Items(lines[1..], w))
      case ItemExpr(wrap, v) => Then([Convert(w, wrap, v)], Items(lines[1..], w))
      case _ => None
  }

  function Arguments<V>(lines: seq<Line<V>>, w: World<V>): Option<seq<string>> {
    if lines == [] then Some([])
    else
      match lines[0].token
      case Argument(wrap, v) => Then([Convert(w, wrap, v)], Arguments(lines[1..], w))
      case _ => None
  }

  function AllBuffered(texts: seq<string>): (r: seq<Out>)
    ensures |r| == |texts| && forall k :: 0 <= k < |r| ==> r[k] == Buffered(texts[k])
  {
    seq(|texts|, k requires 0 <= k < |texts| => Buffered(texts[k]))
  }

  /** A block of statements at one level of indentation, run; None is code that
      Python refuses.  A statement in brackets takes all the lines to the last. */
  function Block<V>(lines: seq<Line<V>>, indent: nat, w: World<V>): Option<seq<Out>> {
    if lines == [] then Some([])
    else if lines[0].indent != indent then None
    else
      var last := lines[|lines| - 1].token;
      match lines[0].token
      case YieldText(t) => Then([Yielded(t)], Block(lines[1..], indent, w))
      case YieldExpr(wrap, v) => Then([Yielded(Convert(w, wrap, v))], Block(lines[1..], indent, w))
      case OpenAppend =>
        if |lines| != 3 || last != CloseAppend then None
        else
          var items := Items(lines[1..2], w);
          if items == None then None else Some(AllBuffered(items.value))
      case OpenExtend =>
        if |lines| < 2 || last != CloseExtend then None
        else
          var items := Items(lines[1..|lines| - 1], w);
          if items == None then None else Some(AllBuffered(items.value))
      case YieldFormat(fmt) =>
        if |lines| < 2 || last != CloseFormat then None
        else
          var args := Arguments(lines[1..|lines| - 1], w);
          if args == None then None
          else
            var text := Format(fmt, args.value);
            if text == None then None else Some([Yielded(text.value)])
      case _ => None
  }

  /** The generated code, run.  A guard must have something to guard. */
  function Run<V>(lines: seq<Line<V>>, indent: nat, w: World<V>): Option<seq<Out>> {
    if lines == [] || lines[0].token != IfNoParent then Block(lines, indent, w)
    else if lines[0].indent != indent || |lines| == 1 then None
    else
      var out := Block(lines[1..], indent + 1, w);
      if out == None then None else if w.parentIsNone then out else Some([])
  }

  // -------------------------------------------------------- what it should say

  /** The text of a child. */
  function Meaning<V>(w: World<V>, f: Frame, v: V): string {
    if f.volatile then if w.autoescape then w.esc(v) else w.str(v)
    else if f.autoescape then w.esc(v) else w.str(v)
  }

  function Total<V>(w: World<V>, f: Frame, children: seq<Child<V>>): string {
    if children == [] then "" else Meaning(w, f, children[0].value) + Total(w, f, children[1..])
  }

  function Concat(texts: seq<string>): string {
    if texts == [] then "" else texts[0] + Concat(texts[1..])
  }

  function TextOf(out: seq<Out>): string {
    if out == [] then "" else out[0].text + TextOf(out[1..])
  }

  // ------------------------------------------------------------------ the body

  /** An element of `body`: a list of constants, or a child to be run. */
  datatype Item<V> = Static(parts: seq<string>) | Dynamic(child: Child<V>)

  /** One turn of the loop over the children. */
  function Grown<V>(body: seq<Item<V>>, c: Child<V>, f: Frame, str: V -> string, esc: V -> string): seq<Item<V>> {
    if !c.constant || c.raises then body + [Dynamic(c)]
    else
      var text := if f.autoescape then esc(c.value) else str(c.value);
      if body != [] && body[|body| - 1].Static? then body[|body| - 1 := Static(body[|body| - 1].parts + [text])]
      else body + [Static([text])]
  }

  function Body<V>(children: seq<Child<V>>, f: Frame, str: V -> string, esc: V -> string): seq<Item<V>> {
    if children == [] then []
    else Grown(Body(children[..|children| - 1], f, str, esc), children[|children| - 1], f, str, esc)
  }

  function ItemMeaning<V>(w: World<V>, f: Frame, item: Item<V>): string {
    match item
    case Static(parts) => Concat(parts)
    case Dynamic(c) => Meaning(w, f, c.value)
  }

  function BodyMeaning<V>(w: World<V>, f: Frame, body: seq<Item<V>>): string {
    if body == [] then "" else ItemMeaning(w, f, body[0]) + BodyMeaning(w, f, body[1..])
  }

  /** No two runs of constants are next to each other. */
  ghost predicate Merged<V>(body: seq<Item<V>>) {
    forall k :: 0 < k < |body| ==> !(body[k - 1].Static? && body[k].Static?)
  }

  /** as_const() refuses in a volatile frame. */
  predicate ConstantsKnown<V>(children: seq<Child<V>>, f: Frame) {
    forall k :: 0 <= k < |children| ==> children[k].constant ==> !f.volatile
  }

  lemma {:induction false} ConcatLast(texts: seq<string>, t: string)
    ensures Concat(texts + [t]) == Concat(texts) + t
  {
    if texts == [] {
      assert [t][1..] == [];
    } else {
      assert (texts + [t])[1..] == texts[1..] + [t];
      ConcatLast(texts[1..], t);
    }
  }

  lemma {:induction false} MeaningLast<V>(w: World<V>, f: Frame, body: seq<Item<V>>, item: Item<V>)
    ensures BodyMeaning(w, f, body + [item]) == BodyMeaning(w, f, body) + ItemMeaning(w, f, item)
  {
    if body == [] {
      assert [item][1..] == [];
    } else {
      assert (body + [item])[1..] == body[1..] + [item];
      MeaningLast(w, f, body[1..], item);
    }
  }

  lemma {:induction false} TotalLast<V>(w: World<V>, f: Frame, children: seq<Child<V>>, c: Child<V>)
    ensures Total(w, f, children + [c]) == Total(w, f, children) + Meaning(w, f, c.value)
  {
    if children == [] {
      assert [c][1..] == [];
    } else {
      assert (children + [c])[1..] == children[1..] + [c];
      TotalLast(w, f, children[1..], c);
    }
  }

  lemma NewItem<V>(w: World<V>, f: Frame, body: seq<Item<V>>, item: Item<V>)
    requires Merged(body) && (item.Static? && body != [] ==> !body[|body| - 1].Static?)
    ensures Merged(body + [item])
            && BodyMeaning(w, f, body + [item]) == BodyMeaning(w, f, body) + ItemMeaning(w, f, item)
  {
    MeaningLast(w, f, body, item);
  }

  lemma LongerRun<V>(w: World<V>, f: Frame, front: seq<Item<V>>, parts: seq<string>, text: string)
    requires Merged(front + [Static(parts)])
    ensures Merged(front + [Static(parts + [text])])
    ensures BodyMeaning(w, f, front + [Static(parts + [text])]) == BodyMeaning(w, f, front + [Static(parts)]) + text
  {
    var was, now := front + [Static(parts)], front + [Static(parts + [text])];
    forall k | 0 < k < |now| ensures !(now[k - 1].Static? && now[k].Static?) {
      assert was[k].Static? == now[k].Static? && was[k - 1].Static? == now[k - 1].Static?;
    }
    ConcatLast(parts, text);
    MeaningLast(w, f, front, Static(parts));
    MeaningLast(w, f, front, Static(parts + [text]));
  }

  lemma GrownKeeps<V>(w: World<V>, f: Frame, body: seq<Item<V>>, c: Child<V>)
    requires c.constant ==> !f.volatile
    requires Merged(body)
    ensures var r := Grown(body, c, f, w.str, w.esc);
            Merged(r) && r != [] && BodyMeaning(w, f, r) == BodyMeaning(w, f, body) + Meaning(w, f, c.value)
  {
    if !c.constant || c.raises {
      NewItem(w, f, body, Dynamic(c));
    } else {
      var text := if f.autoescape then w.esc(c.value) else w.str(c.value);
      if body != [] && body[|body| - 1].Static? {
        var front, parts := body[..|body| - 1], body[|body| - 1].parts;
        assert body == front + [Static(parts)];
        assert Grown(body, c, f, w.str, w.esc) == front + [Static(parts + [text])];
        LongerRun(w, f, front, parts, text);
      } else {
        assert Concat([text]) == text + Concat([]);
        NewItem(w, f, body, Static([text]));
      }
    }
  }

  lemma BodyStep<V>(w: World<V>, f: Frame, front: seq<Child<V>>, last: Child<V>, before: seq<Item<V>>)
    requires last.constant ==> !f.volatile
    requires Merged(before) && BodyMeaning(w, f, before) == Total(w, f, front)
    ensures var body := Grown(before, last, f, w.str, w.esc);
            Merged(body) && body != [] && BodyMeaning(w, f, body) == Total(w, f, front + [last])
  {
    GrownKeeps(w, f, before, last);
    TotalLast(w, f, front, last);
  }

  /** Merging the constants keeps the text. */
  lemma {:induction false} BodyKeeps<V>(w: World<V>, f: Frame, children: seq<Child<V>>)
    requires ConstantsKnown(children, f)
    ensures var body := Body(children, f, w.str, w.esc);
            Merged(body) && (body == [] <==> children == []) && BodyMeaning(w, f, body) == Total(w, f, children)
  {
    if children != [] {
      var front, last := children[..|children| - 1], children[|children| - 1];
      var before := Body(front, f, w.str, w.esc);
      BodyKeeps(w, f, front);
      assert children == front + [last];
      BodyStep(w, f, front, last, before);
    }
  }

  // -------------------------------------------------------------- the emission

  function DynamicWrap(f: Frame): Wrap {
    if f.volatile then EscapeIfAsked else if f.autoescape then Escape else ToString
  }

  /** In the format form plain text conversion is left to %s. */
  function FormatWrap(f: Frame): Wrap {
    if f.volatile then EscapeIfAsked else if f.autoescape then Escape else Bare
  }

  function YieldOf<V>(item: Item<V>, f: Frame): Token<V> {
    match item
    case Static(parts) => YieldText(Concat(parts))
    case Dynamic(c) => YieldExpr(DynamicWrap(f), c.value)
  }

  function EntryOf<V>(item: Item<V>, f: Frame): Token<V> {
    match item
    case Static(parts) => ItemText(Concat(parts))
    case Dynamic(c) => ItemExpr(DynamicWrap(f), c.value)
  }

  function Yields<V>(body: seq<Item<V>>, f: Frame, indent: nat): (r: seq<Line<V>>)
    ensures |r| == |body| && forall k :: 0 <= k < |r| ==> r[k] == Line(indent, YieldOf(body[k], f))
  {
    seq(|body|, k requires 0 <= k < |body| => Line(indent, YieldOf(body[k], f)))
  }

  function Entries<V>(body: seq<Item<V>>, f: Frame, indent: nat): (r: seq<Line<V>>)
    ensures |r| == |body| && forall k :: 0 <= k < |r| ==> r[k] == Line(indent, EntryOf(body[k], f))
  {
    seq(|body|, k requires 0 <= k < |body| => Line(indent, EntryOf(body[k], f)))
  }

  function DoubledChar(c: char): string {
    if c == '%' then "%%" else [c]
  }

  /** s.replace('%', '%%') */
  function Doubled(s: string): string {
    if s == "" then "" else DoubledChar(s[0]) + Doubled(s[1..])
  }

  function FormatPiece<V>(item: Item<V>): string {
    match item
    case Static(parts) => Doubled(Concat(parts))
    case Dynamic(_) => "%s"
  }

  function FormatString<V>(body: seq<Item<V>>): string {
    if body == [] then "" else FormatPiece(body[0]) + FormatString(body[1..])
  }

  function Dynamics<V>(body: seq<Item<V>>): seq<V> {
    if body == [] then []
    else DynamicsOf(body[0]) + Dynamics(body[1..])
  }

  function DynamicsOf<V>(item: Item<V>): seq<V> {
    match item
    case Static(_) => []
    case Dynamic(c) => [c.value]
  }

  lemma Grouped(a: string, b: string, c: string)
    ensures (a + b) + c == a + (b + c)
  {
  }

  lemma {:induction false} FormatLast<V>(body: seq<Item<V>>, item: Item<V>)
    ensures FormatString(body + [item]) == FormatString(body) + FormatPiece(item)
  {
    if body == [] {
      assert [item][1..] == [];
    } else {
      var front, more := body[0], body[1..];
      assert (body + [item])[1..] == more + [item];
      FormatLast(more, item);
      Grouped(FormatPiece(front), FormatString(more), FormatPiece(item));
    }
  }

  lemma {:induction false} DynamicsLast<V>(body: seq<Item<V>>, item: Item<V>)
    ensures Dynamics(body + [item]) == Dynamics(body) + DynamicsOf(item)
  {
    if body == [] {
      assert [item][1..] == [];
    } else {
      assert (body + [item])[1..] == body[1..] + [item];
      DynamicsLast(body[1..], item);
    }
  }

  function ArgumentLines<V>(values: seq<V>, f: Frame, indent: nat): (r: seq<Line<V>>)
    ensures |r| == |values| && forall k :: 0 <= k < |r| ==> r[k] == Line(indent, Argument(FormatWrap(f), values[k]))
  {
    seq(|values|, k requires 0 <= k < |values| => Line(indent, Argument(FormatWrap(f), values[k])))
  }

  function Emitted<V>(body: seq<Item<V>>, f: Frame, indent: nat): seq<Line<V>> {
    if f.buffered then
      [Line(indent, if |body| == 1 then OpenAppend else OpenExtend)] + Entries(body, f, indent + 1)
      + [Line(indent, if |body| == 1 then CloseAppend else CloseExtend)]
    else if |body| < 3 then Yields(body, f, indent)
    else
      [Line(indent, YieldFormat(FormatString(body)))] + ArgumentLines(Dynamics(body), f, indent + 1)
      + [Line(indent, CloseFormat)]
  }

  function Code<V>(children: seq<Child<V>>, f: Frame, str: V -> string, esc: V -> string, knownExtends: bool,
                   indent: nat): seq<Line<V>>
  {
    var body := Body(children, f, str, esc);
    if !f.requireOutputCheck then Emitted(body, f, indent)
    else if knownExtends then []
    else [Line(indent, IfNoParent)] + Emitted(body, f, indent + 1)
  }

  // ------------------------------------------------------ what the code puts out

  /** Texts that are put out, all in the way the frame asks for. */
  ghost predicate PutsOut(out: Option<seq<Out>>, f: Frame, text: string) {
    && out.Some?
    && TextOf(out.value) == text
    && (forall k :: 0 <= k < |out.value| ==> (out.value[k].Buffered? <==> f.buffered))
  }

  lemma {:induction false} YieldsRun<V>(body: seq<Item<V>>, f: Frame, indent: nat, w: World<V>)
    requires !f.buffered
    ensures PutsOut(Block(Yields(body, f, indent), indent, w), f, BodyMeaning(w, f, body))
  {
    if body != [] {
      var lines, rest := Yields(body, f, indent), Yields(body[1..], f, indent);
      assert lines[1..] == rest;
      YieldsRun(body[1..], f, indent, w);
      var more := Block(rest, indent, w).value;
      var out := Block(lines, indent, w).value;
      assert out == [Yielded(ItemMeaning(w, f, body[0]))] + more;
      assert out[1..] == more;
    }
  }

  lemma {:induction false} EntriesRun<V>(body: seq<Item<V>>, f: Frame, indent: nat, w: World<V>)
    requires f.buffered
    ensures var items := Items(Entries(body, f, indent), w);
            items.Some? && PutsOut(Some(AllBuffered(items.value)), f, BodyMeaning(w, f, body))
  {
    if body != [] {
      var lines, rest := Entries(body, f, indent), Entries(body[1..], f, indent);
      assert lines[1..] == rest;
      EntriesRun(body[1..], f, indent, w);
      var more := Items(rest, w).value;
      var items := Items(lines, w).value;
      assert items == [ItemMeaning(w, f, body[0])] + more;
      assert AllBuffered(items)[1..] == AllBuffered(more);
    }
  }

  lemma {:induction false} ArgumentsRun<V>(values: seq<V>, f: Frame, indent: nat, w: World<V>)
    ensures Arguments(ArgumentLines(values, f, indent), w) == Some(Meanings(values, f, w))
  {
    if values != [] {
      assert ArgumentLines(values, f, indent)[1..] == ArgumentLines(values[1..], f, indent);
      ArgumentsRun(values[1..], f, indent, w);
    }
  }

  function Meanings<V>(values: seq<V>, f: Frame, w: World<V>): seq<string> {
    if values == [] then [] else [Meaning(w, f, values[0])] + Meanings(values[1..], f, w)
  }

  lemma FormatChar(c: char, rest: string, args: seq<string>, all: string)
    requires all == DoubledChar(c) + rest
    ensures Format(all, args) == Prefixed([c], Format(rest, args))
  {
    assert all[|DoubledChar(c)|..] == rest;
  }

  lemma FormatArgument(a: string, rest: string, args: seq<string>, x: string)
    requires Format(rest, args) == Some(x)
    ensures Format("%s" + rest, [a] + args) == Some(a + x)
  {
    assert ("%s" + rest)[2..] == rest;
    assert ([a] + args)[1..] == args;
  }

  lemma PrefixedTwice(s: string, t: string, rest: Option<string>)
    ensures Prefixed(s, Prefixed(t, rest)) == Prefixed(s + t, rest)
  {
    if rest.Some? { assert s + (t + rest.value) == (s + t) + rest.value; }
  }

  lemma DoubledCons(t: string, rest: string, all: string, tail: string)
    requires t != "" && all == Doubled(t) + rest && tail == Doubled(t[1..]) + rest
    ensures all == DoubledChar(t[0]) + tail
  {
  }

  /** Doubling the percent signs is undone by the formatting. */
  lemma {:induction false} DoubledBack(t: string, rest: string, args: seq<string>, all: string)
    requires all == Doubled(t) + rest
    ensures Format(all, args) == Prefixed(t, Format(rest, args))
    decreases |t|
  {
    if t == "" {
      assert all == rest;
      var r := Format(rest, args);
      if r.Some? { assert "" + r.value == r.value; }
    } else {
      var tail := Doubled(t[1..]) + rest;
      DoubledCons(t, rest, all, tail);
      FormatChar(t[0], tail, args, all);
      DoubledBack(t[1..], rest, args, tail);
      PrefixedTwice([t[0]], t[1..], Format(rest, args));
      assert [t[0]] + t[1..] == t;
    }
  }

  lemma {:induction false} FormatRun<V>(body: seq<Item<V>>, f: Frame, w: World<V>)
    ensures Format(FormatString(body), Meanings(Dynamics(body), f, w)) == Some(BodyMeaning(w, f, body))
  {
    if body != [] {
      var rest, values := FormatString(body[1..]), Dynamics(body[1..]);
      var x := BodyMeaning(w, f, body[1..]);
      FormatRun(body[1..], f, w);
      match body[0]
      case Static(parts) =>
        assert Dynamics(body) == values;
        DoubledBack(Concat(parts), rest, Meanings(values, f, w), FormatString(body));
      case Dynamic(c) =>
        assert Dynamics(body) == [c.value] + values;
        assert ([c.value] + values)[1..] == values;
        FormatArgument(Meaning(w, f, c.value), rest, Meanings(values, f, w), x);
    }
  }

  /** The %-format always has something to fill in. */
  lemma FormatHasArguments<V>(body: seq<Item<V>>)
    requires Merged(body) && |body| >= 2
    ensures Dynamics(body) != []
  {
    assert !(body[0].Static? && body[1].Static?);
    var rest := body[1..];
    assert rest[0] == body[1];
    assert Dynamics(body) == DynamicsOf(body[0]) + Dynamics(rest);
  }

  /** The three strategies mean the same: the text of the body. */
  lemma EmittedRuns<V>(body: seq<Item<V>>, f: Frame, indent: nat, w: World<V>)
    ensures PutsOut(Block(Emitted(body, f, indent), indent, w), f, BodyMeaning(w, f, body))
  {
    var lines := Emitted(body, f, indent);
    if f.buffered {
      assert lines[1..|lines| - 1] == Entries(body, f, indent + 1);
      EntriesRun(body, f, indent + 1, w);
    } else if |body| < 3 {
      YieldsRun(body, f, indent, w);
    } else {
      assert lines[1..|lines| - 1] == ArgumentLines(Dynamics(body), f, indent + 1);
      ArgumentsRun(Dynamics(body), f, indent + 1, w);
      FormatRun(body, f, w);
    }
  }

  /** Code that is not generated at all, or only for templates without a parent. */
  predicate Silent<V>(f: Frame, w: World<V>, knownExtends: bool) {
    f.requireOutputCheck && (knownExtends || !w.parentIsNone)
  }

  /** The guard is left without a body. */
  predicate GuardsNothing<V>(children: seq<Child<V>>, f: Frame, knownExtends: bool) {
    f.requireOutputCheck && !knownExtends && children == [] && !f.buffered
  }

  /** For all children, frames and worlds: the code is good Python exactly if it
      is no guard without a body, and then it puts out the text of the children
      in order, or nothing where there is a parent template to speak instead. */
  lemma CodeMeansText<V>(children: seq<Child<V>>, f: Frame, w: World<V>, knownExtends: bool, indent: nat)
    requires ConstantsKnown(children, f)
    ensures var run := Run(Code(children, f, w.str, w.esc, knownExtends, indent), indent, w);
            && (run.Some? <==> !GuardsNothing(children, f, knownExtends))
            && (run.Some? ==> PutsOut(run, f, if Silent(f, w, knownExtends) then "" else Total(w, f, children)))
  {
    var body := Body(children, f, w.str, w.esc);
    var code := Code(children, f, w.str, w.esc, knownExtends, indent);
    BodyKeeps(w, f, children);
    if !f.requireOutputCheck {
      EmittedRuns(body, f, indent, w);
    } else if !knownExtends {
      EmittedRuns(body, f, indent + 1, w);
      assert code[1..] == Emitted(body, f, indent + 1);
    }
  }

  // -------------------------------------------------------------- the generator

  class Generator<V> {
    var stream: seq<Line<V>>
    var indentation: nat
    const hasKnownExtends: bool

    constructor (knownExtends: bool)
      ensures stream == [] && indentation == 0 && hasKnownExtends == knownExtends
    {
      stream := [];
      indentation := 0;
      hasKnownExtends := knownExtends;
    }

    method WriteLine(token: Token<V>)
      modifies this`stream
      ensures stream == old(stream) + [Line(indentation, token)]
    {
      stream := stream + [Line(indentation, token)];
    }

    method Indent()
      modifies this`indentation
      ensures indentation == old(indentation) + 1
    {
      indentation := indentation + 1;
    }

    method Outdent()
      requires indentation > 0
      modifies this`indentation
      ensures indentation == old(indentation) - 1
    {
      indentation := indentation - 1;
    }

    /** The children, with every run of constants merged into one item. */
    method BuildBody(children: seq<Child<V>>, f: Frame, str: V -> string, esc: V -> string) returns (body: seq<Item<V>>)
      ensures body == Body(children, f, str, esc)
    {
      body := [];
      var k := 0;
      while k < |children|
        invariant k <= |children| && body == Body(children[..k], f, str, esc)
      {
        var child := children[k];
        assert children[..k + 1][..k] == children[..k];
        if !child.constant || child.raises {
          body := body + [Dynamic(child)];
        } else {
          var text := if f.autoescape then esc(child.value) else str(child.value);
          if body != [] && body[|body| - 1].Static? {
            body := body[|body| - 1 := Static(body[|body| - 1].parts + [text])];
          } else {
            body := body + [Static([text])];
          }
        }
        k := k + 1;
      }
      assert children[..k] == children;
    }

    /** One line for each element, in the buffer's brackets or as a statement. */
    method EmitItems(body: seq<Item<V>>, f: Frame)
      modifies this`stream
      ensures stream == old(stream) + if f.buffered then Entries(body, f, indentation) else Yields(body, f, indentation)
    {
      ghost var lines := if f.buffered then Entries(body, f, indentation) else Yields(body, f, indentation);
      var k := 0;
      while k < |body|
        invariant k <= |body| == |lines| && stream == old(stream) + lines[..k]
      {
        match body[k] {
          case Static(parts) =>
            if f.buffered {
              WriteLine(ItemText(Concat(parts)));
            } else {
              WriteLine(YieldText(Concat(parts)));
            }
          case Dynamic(child) =>
            var wrap := if f.volatile then EscapeIfAsked else if f.autoescape then Escape else ToString;
            if f.buffered {
              WriteLine(ItemExpr(wrap, child.value));
            } else {
              WriteLine(YieldExpr(wrap, child.value));
            }
        }
        assert lines[..k + 1] == lines[..k] + [lines[k]];
        k := k + 1;
      }
      assert lines[..k] == lines;
    }

    /** The short form: an element at a time, or all of them handed to the buffer. */
    method EmitEach(body: seq<Item<V>>, f: Frame)
      requires |body| < 3 || f.buffered
      modifies this
      ensures indentation == old(indentation) && stream == old(stream) + Emitted(body, f, old(indentation))
    {
      if f.buffered {
        WriteLine(if |body| == 1 then OpenAppend else OpenExtend);
        Indent();
      }
      EmitItems(body, f);
      if f.buffered {
        Outdent();
        WriteLine(if |body| == 1 then CloseAppend else CloseExtend);
      }
    }

    method BuildFormat(body: seq<Item<V>>) returns (format: string, arguments: seq<V>)
      ensures format == FormatString(body) && arguments == Dynamics(body)
    {
      format, arguments := "", [];
      var k := 0;
      while k < |body|
        invariant k <= |body| && format == FormatString(body[..k]) && arguments == Dynamics(body[..k])
      {
        FormatLast(body[..k], body[k]);
        DynamicsLast(body[..k], body[k]);
        assert body[..k + 1] == body[..k] + [body[k]];
        match body[k] {
          case Static(parts) =>
            format := format + Doubled(Concat(parts));
          case Dynamic(child) =>
            format := format + "%s";
            arguments := arguments + [child.value];
        }
        k := k + 1;
      }
      assert body[..k] == body;
    }

    method EmitArguments(arguments: seq<V>, f: Frame)
      modifies this`stream
      ensures stream == old(stream) + ArgumentLines(arguments, f, indentation)
    {
      ghost var lines := ArgumentLines(arguments, f, indentation);
      var k := 0;
      while k < |arguments|
        invariant k <= |arguments| == |lines| && stream == old(stream) + lines[..k]
      {
        WriteLine(Argument(if f.volatile then EscapeIfAsked else if f.autoescape then Escape else Bare, arguments[k]));
        assert lines[..k + 1] == lines[..k] + [lines[k]];
        k := k + 1;
      }
      assert lines[..k] == lines;
    }

    static lemma Bracketed(before: seq<Line<V>>, first: Line<V>, inner: seq<Line<V>>, last: Line<V>)
      ensures before + [first] + inner + [last] == before + ([first] + inner + [last])
    {
    }

    /** The long form: one yield of a %-format and its arguments. */
    method EmitFormat(body: seq<Item<V>>, f: Frame)
      requires |body| >= 3 && !f.buffered
      modifies this
      ensures indentation == old(indentation) && stream == old(stream) + Emitted(body, f, old(indentation))
    {
      var format, arguments := BuildFormat(body);
      ghost var first := Line(indentation, YieldFormat(format));
      WriteLine(YieldFormat(format));
      Indent();
      ghost var inner := ArgumentLines(arguments, f, indentation);
      EmitArguments(arguments, f);
      Outdent();
      WriteLine(CloseFormat);
      Bracketed(old(stream), first, inner, Line(indentation, CloseFormat));
    }

    method EmitBody(body: seq<Item<V>>, f: Frame)
      modifies this
      ensures indentation == old(indentation) && stream == old(stream) + Emitted(body, f, old(indentation))
    {
      if |body| < 3 || f.buffered {
        EmitEach(body, f);
      } else {
        EmitFormat(body, f);
      }
    }

    method VisitOutput(children: seq<Child<V>>, f: Frame, str: V -> string, esc: V -> string)
      modifies this
      ensures indentation == old(indentation)
      ensures stream == old(stream) + Code(children, f, str, esc, hasKnownExtends, old(indentation))
    {
      if hasKnownExtends && f.requireOutputCheck {
        return;
      }
      var outdentLater := false;
      if f.requireOutputCheck {
        WriteLine(IfNoParent);
        Indent();
        outdentLater := true;
      }
      var body := BuildBody(children, f, str, esc);
      EmitBody(body, f);
      if outdentLater {
        Outdent();
      }
    }
  }
}
