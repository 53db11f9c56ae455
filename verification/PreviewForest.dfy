/**
 What the preview converter does to documents: elements with children, self-closing elements, text,
 references and CDATA sections, as the reader reports them in one pass.
 */
module PreviewForest {
  import opened Wrappers
  import opened Preview

  datatype Node =
    | Element(name: Name, level: string, attributes: seq<Attribute>, children: seq<Node>)
    | Leaf(name: Name, attributes: seq<Attribute>)
    | Words(text: string)
    | Reference(text: string)
    | Section(text: string)

  function FlattenNode(n: Node): seq<Event> {
    match n
    case Element(name, level, attributes, children) => [Start(name, level, attributes)] + Flatten(children) + [End(name)]
    case Leaf(name, attributes) => [Empty(name, attributes)]
    case Words(t) => [Text(t)]
    case Reference(t) => [GeneralRef(t)]
    case Section(t) => [CData(t)]
  }

  /** The events of a document. */
  function Flatten(f: seq<Node>): seq<Event> {
    if f == [] then [] else FlattenNode(f[0]) + Flatten(f[1..])
  }

  predicate HasCodeBlockNode(n: Node) {
    n.Element? && (n.name.CodeBlock? || HasCodeBlock(n.children))
  }

  predicate HasCodeBlock(f: seq<Node>) {
    f != [] && (HasCodeBlockNode(f[0]) || HasCodeBlock(f[1..]))
  }

  /** The code flag after a part of the document: any code block that ends clears it. */
  function FlagAfter(f: seq<Node>, inCode: bool): bool {
    inCode && !HasCodeBlock(f)
  }

  /** The HTML of a document, element by element, when the code flag is `inCode` before it. */
  function EmitNode(n: Node, inCode: bool): seq<Html> {
    match n
    case Element(name, level, attributes, children) =>
      var inside := inCode || name.CodeBlock?;
      var own := if Closes(name) then Some(HtmlTag(name, level)) else None;
      Opening(name, level, attributes, inCode) + Emit(children, inside) + Closing(name, own, FlagAfter(children, inside))
    case Leaf(name, attributes) => SelfClosing(name, attributes)
    case Words(t) => [Chars(t)]
    case _ => []
  }

  function Emit(f: seq<Node>, inCode: bool): seq<Html> {
    if f == [] then [] else EmitNode(f[0], inCode) + Emit(f[1..], FlagAfter([f[0]], inCode))
  }

  function RootBlocks(f: seq<Node>): nat {
    if f == [] then 0
    else (if f[0].Element? && IsBlockElement(f[0].name) then 1 else 0) + RootBlocks(f[1..])
  }

  lemma FlagAfterOne(n: Node, inCode: bool)
    ensures FlagAfter([n], inCode) == (inCode && !HasCodeBlockNode(n))
  {
    assert [n][1..] == [] && !HasCodeBlock([n][1..]);
    assert HasCodeBlock([n]) <==> HasCodeBlockNode([n][0]) || HasCodeBlock([n][1..]);
  }

  lemma FlagAfterTwo(f: seq<Node>, inCode: bool)
    requires f != []
    ensures FlagAfter(f, inCode) == FlagAfter(f[1..], FlagAfter([f[0]], inCode))
  {
    FlagAfterOne(f[0], inCode);
  }

  // The run over the events of a document

  /** Outside skip mode, with room for the root blocks of what comes. */
  ghost predicate Ready(s: State, rootBlocks: nat, maxNodes: nat) {
    s.skipDepth.None? && s.depth >= 0 && (s.depth == 0 ==> s.blockCount + rootBlocks <= maxNodes)
  }

  /** The state once a document has been converted in full. */
  function Converted(s: State, f: seq<Node>): State {
    s.(out := s.out + Emit(f, s.inCode),
       inCode := FlagAfter(f, s.inCode),
       blockCount := if s.depth == 0 then s.blockCount + RootBlocks(f) else s.blockCount)
  }

  lemma EmitOfOne(n: Node, inCode: bool)
    ensures Emit([n], inCode) == EmitNode(n, inCode)
    ensures RootBlocks([n]) == if n.Element? && IsBlockElement(n.name) then 1 else 0
  {
  }

  /** Entering an element that is not skipped. */
  function Inside(s: State, n: Node): State
    requires n.Element?
  {
    Entered(if s.depth == 0 && IsBlockElement(n.name) then s.(blockCount := s.blockCount + 1) else s, n.name, n.level, n.attributes)
  }

  /** What is open inside an element, in terms of its own tag. */
  function Pushed(n: Node): seq<string>
    requires n.Element?
  {
    if Closes(n.name) then [HtmlTag(n.name, n.level)] else []
  }

  lemma InsideIs(s: State, n: Node)
    requires n.Element?
    ensures Inside(s, n) == State(s.depth + 1, s.skipDepth,
                                  if s.depth == 0 && IsBlockElement(n.name) then s.blockCount + 1 else s.blockCount,
                                  s.inCode || n.name.CodeBlock?, s.stack + Pushed(n),
                                  s.out + Opening(n.name, n.level, n.attributes, s.inCode))
  {
    TagIsPushed(n.name, n.level);
    hide Opening, IsBlockElement, HtmlTag, Closes;
    assert s.stack + [] == s.stack;
  }

  lemma LeftIs(s: State, n: Node, stack: seq<string>)
    requires n.Element? && s.stack == stack + Pushed(n)
    ensures var own := if Closes(n.name) then Some(HtmlTag(n.name, n.level)) else None;
      Left(s, n.name) == State(s.depth - 1, s.skipDepth, s.blockCount, s.inCode && !n.name.CodeBlock?, stack,
                               s.out + Closing(n.name, own, s.inCode))
  {
    var tag := HtmlTag(n.name, n.level);
    hide Closing, HtmlTag, Closes;
    if Closes(n.name) {
      assert (stack + [tag])[..|stack|] == stack;
    } else {
      assert stack + [] == stack;
    }
  }

  /** Leaving an element whose children have been converted. */
  lemma LeavingElement(s: State, n: Node)
    requires n.Element? && s.depth >= 0 && s.skipDepth.None?
    ensures Left(Converted(Inside(s, n), n.children), n.name) == Converted(s, [n])
  {
    var inside := Inside(s, n);
    var done := Converted(inside, n.children);
    InsideIs(s, n);
    LeftIs(done, n, s.stack);
    EmitOfOne(n, s.inCode);
    FlagAfterOne(n, s.inCode);
    NodeHasCodeBlock(n);
    ElementParts(n, s.inCode);
    hide Emit, EmitNode, RootBlocks, HasCodeBlock, HasCodeBlockNode, IsBlockElement, Opening, Closing, HtmlTag, Closes, Inside, Left, Pushed;
    var own := if Closes(n.name) then Some(HtmlTag(n.name, n.level)) else None;
    Joined(s.out, Opening(n.name, n.level, n.attributes, s.inCode), Emit(n.children, inside.inCode), Closing(n.name, own, done.inCode));
  }

  lemma ElementParts(n: Node, inCode: bool)
    requires n.Element?
    ensures var inside := inCode || n.name.CodeBlock?;
      var own := if Closes(n.name) then Some(HtmlTag(n.name, n.level)) else None;
      EmitNode(n, inCode) ==
        Opening(n.name, n.level, n.attributes, inCode) + Emit(n.children, inside) + Closing(n.name, own, FlagAfter(n.children, inside))
  {
    hide Opening, Closing, HtmlTag, Emit;
  }

  lemma NodeHasCodeBlock(n: Node)
    requires n.Element?
    ensures HasCodeBlockNode(n) <==> n.name.CodeBlock? || HasCodeBlock(n.children)
  {
  }

  lemma TagIsPushed(n: Name, level: string)
    ensures Closes(n) <==> HtmlTag(n, level) != ""
  {
  }

  lemma RunOfElement(s: State, n: Node, maxNodes: nat)
    requires n.Element? && Ready(s, RootBlocks([n]), maxNodes)
    ensures Run(s, FlattenNode(n), maxNodes) == Step(Run(Inside(s, n), Flatten(n.children), maxNodes), End(n.name), maxNodes)
  {
    hide Flatten, Entered;
    EmitOfOne(n, s.inCode);
    var start := Start(n.name, n.level, n.attributes);
    RunOfSum(s, [start], Flatten(n.children) + [End(n.name)], maxNodes);
    RunOfOne(s, start, maxNodes);
    RunOfSum(Inside(s, n), Flatten(n.children), [End(n.name)], maxNodes);
    RunOfOne(Run(Inside(s, n), Flatten(n.children), maxNodes), End(n.name), maxNodes);
    assert FlattenNode(n) == [start] + (Flatten(n.children) + [End(n.name)]);
  }

  lemma {:induction false} RunOfNode(s: State, n: Node, maxNodes: nat)
    requires Ready(s, RootBlocks([n]), maxNodes)
    ensures Run(s, FlattenNode(n), maxNodes) == Converted(s, [n])
    decreases n, 1
  {
    match n
    case Element(_, _, _, children) =>
      RunOfElement(s, n, maxNodes);
      RunOfForest(Inside(s, n), children, maxNodes);
      LeavingElement(s, n);
    case _ =>
      RunOfOne(s, FlattenNode(n)[0], maxNodes);
      EmitOfOne(n, s.inCode);
      FlagAfterOne(n, s.inCode);
  }

  lemma Joined(out: seq<Html>, a: seq<Html>, b: seq<Html>, c: seq<Html>)
    ensures ((out + a) + b) + c == out + ((a + b) + c)
  {
  }

  lemma EmitInTurn(f: seq<Node>, inCode: bool)
    requires f != []
    ensures Emit(f, inCode) == EmitNode(f[0], inCode) + Emit(f[1..], FlagAfter([f[0]], inCode))
    ensures RootBlocks(f) == RootBlocks([f[0]]) + RootBlocks(f[1..])
  {
    EmitOfOne(f[0], inCode);
    hide FlagAfter, EmitNode, IsBlockElement;
  }

  lemma ConvertedInTurn(s: State, f: seq<Node>)
    requires f != []
    ensures Converted(Converted(s, [f[0]]), f[1..]) == Converted(s, f)
    ensures RootBlocks(f) == RootBlocks([f[0]]) + RootBlocks(f[1..])
  {
    FlagAfterTwo(f, s.inCode);
    EmitOfOne(f[0], s.inCode);
    EmitInTurn(f, s.inCode);
    hide FlagAfter, EmitNode, Emit, RootBlocks, IsBlockElement;
    var a, b := EmitNode(f[0], s.inCode), Emit(f[1..], FlagAfter([f[0]], s.inCode));
    assert (s.out + a) + b == s.out + (a + b);
  }

  lemma {:induction false} RunOfForest(s: State, f: seq<Node>, maxNodes: nat)
    requires Ready(s, RootBlocks(f), maxNodes)
    ensures Run(s, Flatten(f), maxNodes) == Converted(s, f)
    decreases f, 0
  {
    hide Converted, EmitNode, Emit, FlattenNode;
    if f != [] {
      ConvertedInTurn(s, f);
      RunOfNode(s, f[0], maxNodes);
      RunOfSum(s, FlattenNode(f[0]), Flatten(f[1..]), maxNodes);
      StillReady(s, f, maxNodes);
      RunOfForest(Converted(s, [f[0]]), f[1..], maxNodes);
    } else {
      ConvertedNothing(s);
    }
  }

  lemma ConvertedNothing(s: State)
    ensures Converted(s, []) == s
  {
  }

  lemma StillReady(s: State, f: seq<Node>, maxNodes: nat)
    requires f != [] && Ready(s, RootBlocks(f), maxNodes)
    ensures Ready(Converted(s, [f[0]]), RootBlocks(f[1..]), maxNodes)
  {
  }

  /** With at most `maxNodes` root blocks the one-pass conversion is the element-by-element one. */
  lemma ConversionIsEmit(f: seq<Node>, maxNodes: nat)
    requires RootBlocks(f) <= maxNodes
    ensures Run(FRESH, Flatten(f), maxNodes).out == Emit(f, false)
    ensures Run(FRESH, Flatten(f), maxNodes).depth == 0 && Run(FRESH, Flatten(f), maxNodes).stack == []
  {
    RunOfForest(FRESH, f, maxNodes);
    assert [] + Emit(f, false) == Emit(f, false);
  }

  // What is written for each element

  predicate IsImageKey(key: string) {
    key in {"src", "alt", "title", "width", "height"}
  }

  /** `idx` lists, in order, the places of the attributes that images keep, and `kept` has what stands there. */
  ghost predicate Selects(kept: seq<Attribute>, attributes: seq<Attribute>, idx: seq<nat>) {
    && |idx| == |kept|
    && (forall i, j :: 0 <= i < j < |idx| ==> idx[i] < idx[j])
    && (forall j :: 0 <= j < |idx| ==> idx[j] < |attributes| && kept[j] == attributes[idx[j]])
    && (forall i :: 0 <= i < |attributes| ==> (i in idx <==> IsImageKey(attributes[i].key)))
  }

  /** Exactly the source, text, title, width and height of an image, in the order they had. */
  ghost predicate ImageAttributes(kept: seq<Attribute>, attributes: seq<Attribute>) {
    exists idx :: Selects(kept, attributes, idx)
  }

  function Shifted(idx: seq<nat>): (next: seq<nat>)
    ensures |next| == |idx| && forall j :: 0 <= j < |idx| ==> next[j] == idx[j] + 1
  {
    seq(|idx|, j requires 0 <= j < |idx| => idx[j] + 1)
  }

  lemma InShifted(idx: seq<nat>, i: nat)
    ensures i in Shifted(idx) <==> i > 0 && i - 1 in idx
  {
    if i > 0 && i - 1 in idx {
      var j :| 0 <= j < |idx| && idx[j] == i - 1;
      assert Shifted(idx)[j] == i;
    }
  }

  lemma SelectsMore(kept: seq<Attribute>, attributes: seq<Attribute>, idx: seq<nat>)
    requires attributes != [] && Selects(kept, attributes[1..], idx)
    ensures if IsImageKey(attributes[0].key) then Selects([attributes[0]] + kept, attributes, [0] + Shifted(idx))
            else Selects(kept, attributes, Shifted(idx))
  {
    hide Shifted, IsImageKey;
    forall i: nat | i < |attributes| ensures i in Shifted(idx) <==> i > 0 && IsImageKey(attributes[i].key) {
      InShifted(idx, i);
      if i > 0 {
        assert attributes[i] == attributes[1..][i - 1];
      }
    }
  }

  lemma NoneSelected()
    ensures Selects([], [], [])
  {
  }

  lemma KeptNext(attributes: seq<Attribute>)
    requires attributes != []
    ensures Kept(attributes) ==
      if IsImageKey(attributes[0].key) then [attributes[0]] + Kept(attributes[1..]) else Kept(attributes[1..])
  {
  }

  lemma {:induction false} KeptAreImageAttributes(attributes: seq<Attribute>) returns (idx: seq<nat>)
    ensures Selects(Kept(attributes), attributes, idx)
  {
    hide Selects, Shifted, IsImageKey;
    if attributes == [] {
      idx := [];
      NoneSelected();
    } else {
      hide Kept;
      var rest := KeptAreImageAttributes(attributes[1..]);
      SelectsMore(Kept(attributes[1..]), attributes, rest);
      KeptNext(attributes);
      idx := if IsImageKey(attributes[0].key) then [0] + Shifted(rest) else Shifted(rest);
    }
  }

  /** `out` is `inner` inside the tag, without attributes. */
  predicate Wraps(out: seq<Html>, tag: string, inner: seq<Html>) {
    out == [Open(tag)] + inner + [Close(tag)]
  }

  /** `out` is what stands for an element whose children became `inner`, tag by tag. */
  ghost predicate WrittenAs(out: seq<Html>, n: Node, inner: seq<Html>)
    requires n.Element?
  {
    match n.name
    case Paragraph => Wraps(out, "p", inner)
    case Heading => Wraps(out, "h" + n.level, inner)
    case Blockquote => Wraps(out, "blockquote", inner)
    case CodeBlock => out == [Open("pre"), Open("code")] + inner + [Close("code"), Close("pre")]
    case Code => Wraps(out, "code", inner)
    case BulletList => Wraps(out, "ul", inner)
    case OrderedList => Wraps(out, "ol", inner)
    case ListItem => Wraps(out, "li", inner)
    case Table => Wraps(out, "table", inner)
    case TableRow => Wraps(out, "tr", inner)
    case TableHeader => Wraps(out, "th", inner)
    case TableCell => Wraps(out, "td", inner)
    case Strong => Wraps(out, "strong", inner)
    case Bold => Wraps(out, "strong", inner)
    case Em => Wraps(out, "em", inner)
    case Italic => Wraps(out, "em", inner)
    case HardBreak => out == [Void("br", [])] + inner
    case Image => exists kept :: ImageAttributes(kept, n.attributes) && out == [Void("img", kept)] + inner
    case Other(_) => out == inner
  }

  /** The tags around the children, for every element outside code. */
  lemma TagsAreWritten(n: Node, inner: seq<Html>, inCode: bool)
    requires n.Element? && (inCode ==> !n.name.Code?)
    ensures var own := if Closes(n.name) then Some(HtmlTag(n.name, n.level)) else None;
      forall after :: (n.name.Code? ==> !after) ==>
        WrittenAs(Opening(n.name, n.level, n.attributes, inCode) + inner + Closing(n.name, own, after), n, inner)
  {
    if n.name.Image? {
      var idx := KeptAreImageAttributes(n.attributes);
      hide Kept, Selects;
      assert ImageAttributes(Kept(n.attributes), n.attributes);
      assert [Void("img", Kept(n.attributes))] + inner + [] == [Void("img", Kept(n.attributes))] + inner;
    } else if n.name.Other? || n.name.HardBreak? {
      assert [] + inner + [] == inner && [Void("br", [])] + inner + [] == [Void("br", [])] + inner;
    } else {
      hide ImageAttributes, Kept;
    }
  }

  /** Under a set code flag a `code` element is not written, and what it encloses is; all else is written as ever. */
  lemma NodeIsWritten(n: Node, inCode: bool)
    requires n.Element?
    ensures inCode ==> !n.name.Code? ==> WrittenAs(EmitNode(n, inCode), n, Emit(n.children, true))
    ensures !inCode ==> WrittenAs(EmitNode(n, inCode), n, Emit(n.children, n.name.CodeBlock?))
    ensures inCode && n.name.Code? && !HasCodeBlock(n.children) ==> EmitNode(n, inCode) == Emit(n.children, true)
  {
    ElementParts(n, inCode);
    hide Emit, EmitNode, HasCodeBlock, WrittenAs;
    var inner := Emit(n.children, inCode || n.name.CodeBlock?);
    if inCode && n.name.Code? {
      assert [] + inner + [] == inner;
    } else {
      hide Opening, Closing, HtmlTag, Closes;
      TagsAreWritten(n, inner, inCode);
    }
  }

  /** Within the limit the preview of an element is its children's, in the tags of the element. */
  lemma ElementIsWritten(n: Node, maxNodes: nat)
    requires n.Element? && RootBlocks([n]) <= maxNodes
    ensures WrittenAs(Run(FRESH, Flatten([n]), maxNodes).out, n, Emit(n.children, n.name.CodeBlock?))
  {
    hide WrittenAs, Emit, EmitNode, Flatten, RootBlocks;
    ConversionIsEmit([n], maxNodes);
    EmitOfOne(n, false);
    NodeIsWritten(n, false);
  }

  /** A self-closing element outside elements: a line break, an image with its attributes, or nothing. */
  lemma LeafIsWritten(name: Name, attributes: seq<Attribute>, maxNodes: nat)
    ensures var out := Run(FRESH, Flatten([Leaf(name, attributes)]), maxNodes).out;
      match name
      case HardBreak => out == [Void("br", [])]
      case Image => exists kept :: ImageAttributes(kept, attributes) && out == [Void("img", kept)]
      case _ => out == []
  {
    ConversionIsEmit([Leaf(name, attributes)], maxNodes);
    EmitOfOne(Leaf(name, attributes), false);
    if name.Image? {
      var idx := KeptAreImageAttributes(attributes);
      assert ImageAttributes(Kept(attributes), attributes);
    }
  }

  // Well-nested HTML

  /** The tags open after `out`, when `open` were before; None when a tag closes that is not the innermost. */
  function Nest(out: seq<Html>, open: seq<string>): Option<seq<string>>
    decreases |out|
  {
    if out == [] then Some(open)
    else
      match out[0]
      case Open(t) => Nest(out[1..], open + [t])
      case Close(t) =>
        if open != [] && open[|open| - 1] == t then Nest(out[1..], open[..|open| - 1]) else None
      case _ => Nest(out[1..], open)
  }

  predicate WellNested(out: seq<Html>) {
    Nest(out, []) == Some([])
  }

  lemma {:induction false} NestOfSum(a: seq<Html>, b: seq<Html>, open: seq<string>)
    ensures Nest(a + b, open) == match Nest(a, open) { case None => None case Some(o) => Nest(b, o) }
    decreases |a|
  {
    if a == [] {
      assert a + b == b;
    } else {
      assert (a + b)[1..] == a[1..] + b;
      match a[0]
      case Open(t) => NestOfSum(a[1..], b, open + [t]);
      case Close(t) => if open != [] { NestOfSum(a[1..], b, open[..|open| - 1]); }
      case _ => NestOfSum(a[1..], b, open);
    }
  }

  /** `code` elements that open while the code flag is set, are therefore not written, and contain a code block. */
  function OrphansNode(n: Node, inCode: bool): nat {
    if !n.Element? then 0
    else
      (if n.name.Code? && inCode && HasCodeBlock(n.children) then 1 else 0) + Orphans(n.children, inCode || n.name.CodeBlock?)
  }

  function Orphans(f: seq<Node>, inCode: bool): nat {
    if f == [] then 0 else OrphansNode(f[0], inCode) + Orphans(f[1..], FlagAfter([f[0]], inCode))
  }

  lemma NestOfBracket(a: Html, b: Html, t: string, open: seq<string>)
    requires a == Open(t) && b == Close(t)
    ensures Nest([a], open) == Some(open + [t]) && Nest([b], open + [t]) == Some(open)
  {
  }

  lemma NestOfCode(open: seq<string>)
    ensures Nest([Open("pre"), Open("code")], open) == Some(open + ["pre"] + ["code"])
    ensures Nest([Close("code"), Close("pre")], open + ["pre"] + ["code"]) == Some(open)
  {
  }

  /** An element's opening and closing events match, unless it is an orphan. */
  lemma ElementNests(name: Name, level: string, attributes: seq<Attribute>, inCode: bool, after: bool, open: seq<string>)
    requires name.Code? ==> after == inCode
    ensures var own := if Closes(name) then Some(HtmlTag(name, level)) else None;
      Nest(Opening(name, level, attributes, inCode), open).Some? &&
      Nest(Closing(name, own, after), Nest(Opening(name, level, attributes, inCode), open).value) == Some(open)
  {
    if name.CodeBlock? {
      NestOfCode(open);
    } else if Closes(name) {
      NestOfBracket(Open(HtmlTag(name, level)), Close(HtmlTag(name, level)), HtmlTag(name, level), open);
    } else if name.Image? || name.HardBreak? {
      assert Opening(name, level, attributes, inCode)[1..] == [];
    }
  }

  lemma {:induction false} NodeNests(n: Node, inCode: bool, open: seq<string>)
    requires OrphansNode(n, inCode) == 0
    ensures Nest(EmitNode(n, inCode), open) == Some(open)
    decreases n, 1
  {
    match n
    case Element(name, level, attributes, children) =>
      var inside := inCode || name.CodeBlock?;
      var own := if Closes(name) then Some(HtmlTag(name, level)) else None;
      var a, b := Opening(name, level, attributes, inCode), Emit(children, inside);
      var c := Closing(name, own, FlagAfter(children, inside));
      ElementNests(name, level, attributes, inCode, FlagAfter(children, inside), open);
      var within := Nest(a, open).value;
      ForestNests(children, inside, within);
      NestOfSum(a + b, c, open);
      NestOfSum(a, b, open);
    case Leaf(name, attributes) => assert |SelfClosing(name, attributes)| > 0 ==> SelfClosing(name, attributes)[1..] == [];
    case Words(t) => assert [Chars(t)][1..] == [];
    case _ =>
  }

  lemma {:induction false} ForestNests(f: seq<Node>, inCode: bool, open: seq<string>)
    requires Orphans(f, inCode) == 0
    ensures Nest(Emit(f, inCode), open) == Some(open)
    decreases f, 0
  {
    if f != [] {
      NodeNests(f[0], inCode, open);
      ForestNests(f[1..], FlagAfter([f[0]], inCode), open);
      NestOfSum(EmitNode(f[0], inCode), Emit(f[1..], FlagAfter([f[0]], inCode)), open);
    }
  }

  // Counting code tags

  function CodeIn(open: seq<string>): nat {
    if open == [] then 0 else CodeIn(open[..|open| - 1]) + (if open[|open| - 1] == "code" then 1 else 0)
  }

  /** Code tags opened minus code tags closed. */
  function Balance(out: seq<Html>): int
    decreases |out|
  {
    if out == [] then 0
    else (if out[0] == Open("code") then 1 else if out[0] == Close("code") then -1 else 0) + Balance(out[1..])
  }

  lemma {:induction false} BalanceOfSum(a: seq<Html>, b: seq<Html>)
    ensures Balance(a + b) == Balance(a) + Balance(b)
    decreases |a|
  {
    if a == [] {
      assert a + b == b;
    } else {
      assert (a + b)[1..] == a[1..] + b;
      BalanceOfSum(a[1..], b);
    }
  }

  lemma {:induction false} NestedBalance(out: seq<Html>, open: seq<string>)
    requires Nest(out, open).Some?
    ensures CodeIn(Nest(out, open).value) == CodeIn(open) + Balance(out)
    decreases |out|
  {
    if out != [] {
      match out[0]
      case Open(t) =>
        NestedBalance(out[1..], open + [t]);
        assert (open + [t])[..|open|] == open;
      case Close(t) => NestedBalance(out[1..], open[..|open| - 1]);
      case _ => NestedBalance(out[1..], open);
    }
  }

  lemma BalanceOfOne(h: Html)
    ensures Balance([h]) == if h == Open("code") then 1 else if h == Close("code") then -1 else 0
  {
  }

  lemma BalanceOfElement(name: Name, level: string, attributes: seq<Attribute>, inCode: bool, after: bool)
    requires name.Code? && after ==> inCode
    ensures var own := if Closes(name) then Some(HtmlTag(name, level)) else None;
      Balance(Opening(name, level, attributes, inCode)) + Balance(Closing(name, own, after)) ==
        if name.Code? && inCode && !after then -1 else 0
  {
    var own := if Closes(name) then Some(HtmlTag(name, level)) else None;
    if name.CodeBlock? {
      BalanceOfSum([Open("pre")], [Open("code")]);
      BalanceOfSum([Close("code")], [Close("pre")]);
      assert [Open("pre")] + [Open("code")] == [Open("pre"), Open("code")];
      assert [Close("code")] + [Close("pre")] == [Close("code"), Close("pre")];
      BalanceOfOne(Open("pre"));
      BalanceOfOne(Open("code"));
      BalanceOfOne(Close("code"));
      BalanceOfOne(Close("pre"));
    } else if name.Image? || name.HardBreak? {
      BalanceOfOne(Opening(name, level, attributes, inCode)[0]);
    } else if Closes(name) {
      BalanceOfOne(Open(HtmlTag(name, level)));
      BalanceOfOne(Close(HtmlTag(name, level)));
      assert name.Heading? ==> HtmlTag(name, level)[0] == 'h';
    }
  }

  lemma {:induction false} NodeBalance(n: Node, inCode: bool)
    ensures Balance(EmitNode(n, inCode)) == 0 - OrphansNode(n, inCode)
    decreases n, 1
  {
    match n
    case Element(name, level, attributes, children) =>
      var inside := inCode || name.CodeBlock?;
      var own := if Closes(name) then Some(HtmlTag(name, level)) else None;
      var a, b := Opening(name, level, attributes, inCode), Emit(children, inside);
      var c := Closing(name, own, FlagAfter(children, inside));
      BalanceOfElement(name, level, attributes, inCode, FlagAfter(children, inside));
      ForestBalance(children, inside);
      BalanceOfSum(a + b, c);
      BalanceOfSum(a, b);
    case Leaf(name, attributes) =>
      if SelfClosing(name, attributes) != [] {
        BalanceOfOne(SelfClosing(name, attributes)[0]);
      }
    case Words(t) => BalanceOfOne(Chars(t));
    case _ =>
  }

  lemma {:induction false} ForestBalance(f: seq<Node>, inCode: bool)
    ensures Balance(Emit(f, inCode)) == 0 - Orphans(f, inCode)
    decreases f, 0
  {
    if f != [] {
      NodeBalance(f[0], inCode);
      ForestBalance(f[1..], FlagAfter([f[0]], inCode));
      BalanceOfSum(EmitNode(f[0], inCode), Emit(f[1..], FlagAfter([f[0]], inCode)));
    }
  }

  // Main results

  /**
   A document with at most `maxNodes` root blocks gives well-nested HTML exactly when no `code`
   element that opens under a set code flag contains a code block.
   */
  lemma WellNestedIff(f: seq<Node>, maxNodes: nat)
    requires RootBlocks(f) <= maxNodes
    ensures WellNested(Run(FRESH, Flatten(f), maxNodes).out) <==> Orphans(f, false) == 0
  {
    ConversionIsEmit(f, maxNodes);
    if Orphans(f, false) == 0 {
      ForestNests(f, false, []);
    }
    if WellNested(Emit(f, false)) {
      NestedBalance(Emit(f, false), []);
      ForestBalance(f, false);
    }
  }

  predicate NestedCodeBlocksNode(n: Node) {
    n.Element? && ((n.name.CodeBlock? && HasCodeBlock(n.children)) || NestedCodeBlocks(n.children))
  }

  /** Some code block contains a code block. */
  predicate NestedCodeBlocks(f: seq<Node>) {
    f != [] && (NestedCodeBlocksNode(f[0]) || NestedCodeBlocks(f[1..]))
  }

  lemma {:induction false} NoOrphansNode(n: Node, inCode: bool)
    requires !NestedCodeBlocksNode(n) && (inCode ==> !HasCodeBlockNode(n))
    ensures OrphansNode(n, inCode) == 0
    decreases n, 1
  {
    if n.Element? {
      NoOrphans(n.children, inCode || n.name.CodeBlock?);
    }
  }

  lemma {:induction false} NoOrphans(f: seq<Node>, inCode: bool)
    requires !NestedCodeBlocks(f) && (inCode ==> !HasCodeBlock(f))
    ensures Orphans(f, inCode) == 0
    decreases f, 0
  {
    if f != [] {
      FlagAfterOne(f[0], inCode);
      NoOrphansNode(f[0], inCode);
      NoOrphans(f[1..], FlagAfter([f[0]], inCode));
    }
  }

  /** Without code blocks inside code blocks the preview is well nested. */
  lemma WellNestedWithoutNestedCodeBlocks(f: seq<Node>, maxNodes: nat)
    requires RootBlocks(f) <= maxNodes && !NestedCodeBlocks(f)
    ensures WellNested(Run(FRESH, Flatten(f), maxNodes).out)
  {
    NoOrphans(f, false);
    WellNestedIff(f, maxNodes);
  }

  // What becomes of the text

  function TextOfNode(n: Node): string {
    match n
    case Element(_, _, _, children) => TextOf(children)
    case Leaf(_, _) => ""
    case Words(t) => t
    case Reference(t) => t
    case Section(t) => t
  }

  /** The text of a document. */
  function TextOf(f: seq<Node>): string {
    if f == [] then "" else TextOfNode(f[0]) + TextOf(f[1..])
  }

  /** The text of the HTML. */
  function HtmlText(out: seq<Html>): string
    decreases |out|
  {
    if out == [] then "" else (if out[0].Chars? then out[0].text else "") + HtmlText(out[1..])
  }

  function LostNode(n: Node): string {
    match n
    case Element(_, _, _, children) => Lost(children)
    case Reference(t) => t
    case Section(t) => t
    case _ => ""
  }

  /** The text that references and CDATA sections of the document stand for. */
  function Lost(f: seq<Node>): string {
    if f == [] then "" else LostNode(f[0]) + Lost(f[1..])
  }

  lemma {:induction false} HtmlTextOfSum(a: seq<Html>, b: seq<Html>)
    ensures HtmlText(a + b) == HtmlText(a) + HtmlText(b)
    decreases |a|
  {
    if a == [] {
      assert a + b == b;
    } else {
      assert (a + b)[1..] == a[1..] + b;
      HtmlTextOfSum(a[1..], b);
    }
  }

  lemma {:induction false} TagsHaveNoText(out: seq<Html>)
    requires forall h :: h in out ==> !h.Chars?
    ensures HtmlText(out) == ""
    decreases |out|
  {
    if out != [] {
      assert out[0] in out;
      TagsHaveNoText(out[1..]);
    }
  }

  lemma OpeningHasNoText(name: Name, level: string, attributes: seq<Attribute>, inCode: bool)
    ensures HtmlText(Opening(name, level, attributes, inCode)) == ""
  {
    TagsHaveNoText(Opening(name, level, attributes, inCode));
  }

  lemma ClosingHasNoText(name: Name, popped: Option<string>, inCode: bool)
    ensures HtmlText(Closing(name, popped, inCode)) == ""
  {
    TagsHaveNoText(Closing(name, popped, inCode));
  }

  /** The written text is all of the text except what is lost: no longer, and equal if nothing is lost. */
  ghost predicate TextLess(written: string, text: string, lost: string) {
    |written| + |lost| == |text| && (lost == "" ==> written == text)
  }

  lemma TextWithin(a: seq<Html>, b: seq<Html>, c: seq<Html>)
    requires HtmlText(a) == "" && HtmlText(c) == ""
    ensures HtmlText(a + b + c) == HtmlText(b)
  {
    hide HtmlText;
    HtmlTextOfSum(a + b, c);
    HtmlTextOfSum(a, b);
  }

  lemma {:induction false} NodeText(n: Node, inCode: bool)
    ensures TextLess(HtmlText(EmitNode(n, inCode)), TextOfNode(n), LostNode(n))
    decreases n, 1
  {
    if n.Element? {
      ElementParts(n, inCode);
      hide Opening, Closing, HtmlTag, Closes, Emit, EmitNode, HtmlText, HasCodeBlock;
      var inside := inCode || n.name.CodeBlock?;
      var own := if Closes(n.name) then Some(HtmlTag(n.name, n.level)) else None;
      var a, b := Opening(n.name, n.level, n.attributes, inCode), Emit(n.children, inside);
      var c := Closing(n.name, own, FlagAfter(n.children, inside));
      OpeningHasNoText(n.name, n.level, n.attributes, inCode);
      ClosingHasNoText(n.name, own, FlagAfter(n.children, inside));
      TextWithin(a, b, c);
      ForestText(n.children, inside);
    } else {
      LeafText(n, inCode);
    }
  }

  lemma LeafText(n: Node, inCode: bool)
    requires !n.Element?
    ensures TextLess(HtmlText(EmitNode(n, inCode)), TextOfNode(n), LostNode(n))
  {
    match n
    case Leaf(name, attributes) => TagsHaveNoText(SelfClosing(name, attributes));
    case Words(t) => assert [Chars(t)][1..] == [];
    case _ =>
  }

  lemma {:induction false} ForestText(f: seq<Node>, inCode: bool)
    ensures TextLess(HtmlText(Emit(f, inCode)), TextOf(f), Lost(f))
    decreases f, 0
  {
    if f != [] {
      HtmlTextOfSum(EmitNode(f[0], inCode), Emit(f[1..], FlagAfter([f[0]], inCode)));
      NodeText(f[0], inCode);
      ForestText(f[1..], FlagAfter([f[0]], inCode));
    }
  }

  /**
   Within the block limit the preview has the text of the document exactly when no reference and no
   CDATA section in it stands for any text: both are dropped.
   */
  lemma PreviewKeepsTextIff(f: seq<Node>, maxNodes: nat)
    requires RootBlocks(f) <= maxNodes
    ensures HtmlText(Run(FRESH, Flatten(f), maxNodes).out) == TextOf(f) <==> Lost(f) == ""
    ensures |HtmlText(Run(FRESH, Flatten(f), maxNodes).out)| + |Lost(f)| == |TextOf(f)|
  {
    ConversionIsEmit(f, maxNodes);
    ForestText(f, false);
  }

  /** The paragraph `a &lt; b`. */
  function EscapedText(): seq<Node> {
    [Element(Paragraph, "1", [], [Words("a "), Reference("<"), Words(" b")])]
  }

  lemma HtmlTextOfOne(h: Html)
    ensures HtmlText([h]) == if h.Chars? then h.text else ""
  {
  }

  lemma EscapedParagraph()
    ensures Emit(EscapedText(), false) == [Open("p")] + ([Chars("a ")] + ([Chars(" b")] + [Close("p")]))
  {
    var children := EscapedText()[0].children;
    EmitOfOne(EscapedText()[0], false);
    assert children[1..] == [Reference("<"), Words(" b")] && children[1..][1..] == [Words(" b")];
    EmitInTurn(children, false);
    EmitInTurn(children[1..], false);
    EmitOfOne(Words(" b"), false);
    assert Emit(children, false) == [Chars("a "), Chars(" b")];
  }

  lemma EscapedTextReads()
    ensures TextOf(EscapedText()) == "a < b"
  {
    var children := EscapedText()[0].children;
    assert children[1..] == [Reference("<"), Words(" b")] && children[1..][1..] == [Words(" b")];
    assert TextOf([Words(" b")]) == " b" + "";
    assert TextOf(children[1..]) == "<" + (" b" + "");
    assert TextOf(children) == "a " + ("<" + (" b" + ""));
    assert TextOf(EscapedText()) == TextOf(children) + "";
  }

  lemma EscapedTextIsLost(maxNodes: nat)
    requires 1 <= maxNodes
    ensures TextOf(EscapedText()) == "a < b"
    ensures HtmlText(Run(FRESH, Flatten(EscapedText()), maxNodes).out) == "a  b"
  {
    EscapedTextReads();
    hide Emit, Run, Flatten, TextOf, HtmlText;
    ConversionIsEmit(EscapedText(), maxNodes) by {
      assert RootBlocks(EscapedText()) == 1;
    }
    EscapedParagraph();
    hide EscapedText;
    HtmlTextOfSum([Open("p")], [Chars("a ")] + ([Chars(" b")] + [Close("p")]));
    HtmlTextOfSum([Chars("a ")], [Chars(" b")] + [Close("p")]);
    HtmlTextOfSum([Chars(" b")], [Close("p")]);
    HtmlTextOfOne(Open("p"));
    HtmlTextOfOne(Chars("a "));
    HtmlTextOfOne(Chars(" b"));
    HtmlTextOfOne(Close("p"));
  }
}
