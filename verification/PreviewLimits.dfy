/**
 The preview converter in mid-document and beyond its block limit: the stack mirrors the open
 elements, and what comes after the limit is cut out exactly if the skipping never ends at the wrong place.
 */
module PreviewLimits {
  import opened Wrappers
  import opened Preview
  import opened PreviewForest

  // The stack in mid-document

  /** The elements open after the events; None when an end does not match the innermost start. */
  function OpenAfter(es: seq<Event>): Option<seq<Event>> {
    if es == [] then Some([])
    else
      match OpenAfter(es[..|es| - 1])
      case None => None
      case Some(open) =>
        match es[|es| - 1]
        case Start(_, _, _) => Some(open + [es[|es| - 1]])
        case End(n) =>
          if open != [] && open[|open| - 1].Start? && open[|open| - 1].name == n then Some(open[..|open| - 1]) else None
        case _ => Some(open)
  }

  /** Starts of block elements while nothing is open. */
  function RootBlockStarts(es: seq<Event>): nat {
    if es == [] then 0
    else
      var last := es[|es| - 1];
      RootBlockStarts(es[..|es| - 1]) +
        (if last.Start? && IsBlockElement(last.name) && OpenAfter(es[..|es| - 1]) == Some([]) then 1 else 0)
  }

  /** The closing tags the open elements are waiting for. */
  function Tags(open: seq<Event>): seq<string> {
    if open == [] then []
    else
      var last := open[|open| - 1];
      Tags(open[..|open| - 1]) + (if last.Start? && Closes(last.name) then [HtmlTag(last.name, last.level)] else [])
  }

  /** The depth counts the open elements and the stack holds their tags. */
  ghost predicate Mirrors(s: State, open: seq<Event>, rootBlocks: nat) {
    s.skipDepth.None? && s.depth == |open| && s.stack == Tags(open) && s.blockCount == rootBlocks
  }

  lemma StartMirrors(s: State, open: seq<Event>, rootBlocks: nat, e: Event, maxNodes: nat)
    requires Mirrors(s, open, rootBlocks) && e.Start?
    requires open == [] && IsBlockElement(e.name) ==> rootBlocks < maxNodes
    ensures Mirrors(Step(s, e, maxNodes), open + [e], rootBlocks + if open == [] && IsBlockElement(e.name) then 1 else 0)
  {
    TagIsPushed(e.name, e.level);
    TagsNext(open, e);
    hide HtmlTag, Closes, Opening, IsBlockElement, Tags;
  }

  lemma TagsNext(open: seq<Event>, e: Event)
    requires e.Start?
    ensures Tags(open + [e]) == if Closes(e.name) then Tags(open) + [HtmlTag(e.name, e.level)] else Tags(open)
  {
    hide HtmlTag, Closes;
    assert (open + [e])[..|open|] == open;
  }

  lemma EndMirrors(s: State, open: seq<Event>, rootBlocks: nat, e: Event, maxNodes: nat)
    requires Mirrors(s, open, rootBlocks) && e.End? && open != []
    requires open[|open| - 1].Start? && open[|open| - 1].name == e.name
    ensures Mirrors(Step(s, e, maxNodes), open[..|open| - 1], rootBlocks)
  {
  }

  /**
   At any point of a well-nested input with room for its root blocks, the depth counts the open
   elements and the stack holds their tags, heading levels included.
   */
  lemma {:induction false} StackMirrorsOpenElements(es: seq<Event>, maxNodes: nat)
    requires OpenAfter(es).Some? && RootBlockStarts(es) <= maxNodes
    ensures Mirrors(Run(FRESH, es, maxNodes), OpenAfter(es).value, RootBlockStarts(es))
    decreases |es|
  {
    if es == [] {
      assert Run(FRESH, [], maxNodes) == FRESH;
    } else {
      hide Step, Run, Mirrors, IsBlockElement;
      var before, last := es[..|es| - 1], es[|es| - 1];
      assert es == before + [last];
      StackMirrorsOpenElements(before, maxNodes);
      RunOfSum(FRESH, before, [last], maxNodes);
      RunOfOne(Run(FRESH, before, maxNodes), last, maxNodes);
      var s, open, blocks := Run(FRESH, before, maxNodes), OpenAfter(before).value, RootBlockStarts(before);
      match last
      case Start(_, _, _) => StartMirrors(s, open, blocks, last, maxNodes);
      case End(_) => EndMirrors(s, open, blocks, last, maxNodes);
      case _ => OthersMirror(s, open, blocks, last, maxNodes);
    }
  }

  lemma OthersMirror(s: State, open: seq<Event>, rootBlocks: nat, e: Event, maxNodes: nat)
    requires Mirrors(s, open, rootBlocks) && !e.Start? && !e.End?
    ensures Mirrors(Step(s, e, maxNodes), open, rootBlocks)
  {
  }

  // Beyond the limit

  lemma RunOfBracket(s: State, start: Event, f: seq<Node>, end: Event, maxNodes: nat)
    ensures Run(s, [start] + Flatten(f) + [end], maxNodes) ==
      Step(Run(Step(s, start, maxNodes), Flatten(f), maxNodes), end, maxNodes)
  {
    hide Flatten, Step;
    RunOfSum(s, [start], Flatten(f) + [end], maxNodes);
    RunOfOne(s, start, maxNodes);
    RunOfSum(Step(s, start, maxNodes), Flatten(f), [end], maxNodes);
    RunOfOne(Run(Step(s, start, maxNodes), Flatten(f), maxNodes), end, maxNodes);
    assert [start] + Flatten(f) + [end] == [start] + (Flatten(f) + [end]);
  }

  lemma {:induction false} FlattenOfSum(f: seq<Node>, g: seq<Node>)
    ensures Flatten(f + g) == Flatten(f) + Flatten(g)
  {
    if f == [] {
      assert f + g == g;
    } else {
      assert (f + g)[1..] == f[1..] + g;
      FlattenOfSum(f[1..], g);
    }
  }

  /**
   Where the converter is past the limit: the depth it has counted, from the first root block it
   dropped on, and whether it is skipping.  The start of a dropped block is not counted but its end
   is, so the depth may be -1.
   */
  datatype Mode = Mode(depth: int, skipping: bool)

  /** The start of an element; None where it writes something. */
  function QuietStart(n: Node, m: Mode): Option<Mode>
    requires n.Element?
  {
    if m.skipping then Some(m.(depth := m.depth + 1))
    else if m.depth == 0 && IsBlockElement(n.name) then Some(Mode(0, true))
    else if n.name.Other? then Some(m.(depth := m.depth + 1))
    else None
  }

  /** The end of an element.  Skipping ends at the first end that brings the depth back to 0. */
  function QuietEnd(n: Name, m: Mode): Option<Mode> {
    if m.skipping then Some(Mode(m.depth - 1, m.depth != 1))
    else if n.Heading? || n.Image? || n.HardBreak? || n.Other? then Some(m.(depth := m.depth - 1))
    else None
  }

  /** The mode after a node, if the converter writes nothing for it. */
  function QuietNode(n: Node, m: Mode): Option<Mode> {
    match n
    case Element(name, _, _, children) =>
      var start := QuietStart(n, m);
      if start.None? then None
      else
        var inside := QuietForest(children, start.value);
        if inside.None? then None else QuietEnd(name, inside.value)
    case Leaf(name, _) => if m.skipping || (!name.HardBreak? && !name.Image?) then Some(m) else None
    case Words(_) => if m.skipping then Some(m) else None
    case _ => Some(m)
  }

  function QuietForest(f: seq<Node>, m: Mode): Option<Mode> {
    if f == [] then Some(m)
    else
      var first := QuietNode(f[0], m);
      if first.None? then None else QuietForest(f[1..], first.value)
  }

  /** The converter past the limit, with nothing of its own open. */
  ghost predicate Past(s: State, m: Mode, maxNodes: nat) {
    && s.depth == m.depth && s.skipDepth == (if m.skipping then Some(0) else None)
    && s.stack == [] && !s.inCode && s.blockCount >= maxNodes
  }

  /** Nothing was written and the mode is `m`, or something was written. */
  ghost predicate Follows(s: State, s': State, m: Option<Mode>, maxNodes: nat) {
    if m.Some? then Past(s', m.value, maxNodes) && s'.out == s.out else |s.out| < |s'.out|
  }

  lemma StepGrows(s: State, e: Event, maxNodes: nat)
    ensures |s.out| <= |Step(s, e, maxNodes).out|
  {
  }

  lemma {:induction false} OutGrows(s: State, es: seq<Event>, maxNodes: nat)
    ensures |s.out| <= |Run(s, es, maxNodes).out|
    decreases |es|
  {
    hide Step;
    if es != [] {
      StepGrows(s, es[0], maxNodes);
      OutGrows(Step(s, es[0], maxNodes), es[1..], maxNodes);
    }
  }

  lemma StartFollows(s: State, n: Node, m: Mode, maxNodes: nat)
    requires Past(s, m, maxNodes) && n.Element?
    ensures Follows(s, Step(s, Start(n.name, n.level, n.attributes), maxNodes), QuietStart(n, m), maxNodes)
  {
  }

  lemma EndFollows(s: State, n: Name, m: Mode, maxNodes: nat)
    requires Past(s, m, maxNodes)
    ensures Follows(s, Step(s, End(n), maxNodes), QuietEnd(n, m), maxNodes)
  {
  }

  lemma {:induction false} ElementFollows(s: State, n: Node, m: Mode, maxNodes: nat)
    requires Past(s, m, maxNodes) && n.Element?
    ensures Follows(s, Run(s, FlattenNode(n), maxNodes), QuietNode(n, m), maxNodes)
    decreases n, 1
  {
    hide Step, Past, QuietStart, QuietEnd, Flatten;
    var start, end := Start(n.name, n.level, n.attributes), End(n.name);
    RunOfBracket(s, start, n.children, end, maxNodes);
    var inside := Step(s, start, maxNodes);
    var done := Run(inside, Flatten(n.children), maxNodes);
    StartFollows(s, n, m, maxNodes);
    OutGrows(inside, Flatten(n.children), maxNodes);
    StepGrows(done, end, maxNodes);
    if QuietStart(n, m).Some? {
      ForestFollows(inside, n.children, QuietStart(n, m).value, maxNodes);
      if QuietForest(n.children, QuietStart(n, m).value).Some? {
        EndFollows(done, n.name, QuietForest(n.children, QuietStart(n, m).value).value, maxNodes);
      }
    }
  }

  lemma {:induction false} NodeFollows(s: State, n: Node, m: Mode, maxNodes: nat)
    requires Past(s, m, maxNodes)
    ensures Follows(s, Run(s, FlattenNode(n), maxNodes), QuietNode(n, m), maxNodes)
    decreases n, 2
  {
    match n
    case Element(_, _, _, _) => ElementFollows(s, n, m, maxNodes);
    case _ => RunOfOne(s, FlattenNode(n)[0], maxNodes);
  }

  lemma {:induction false} ForestFollows(s: State, f: seq<Node>, m: Mode, maxNodes: nat)
    requires Past(s, m, maxNodes)
    ensures Follows(s, Run(s, Flatten(f), maxNodes), QuietForest(f, m), maxNodes)
    decreases f, 0
  {
    hide Past, QuietNode, FlattenNode, Step;
    if f != [] {
      var next := Run(s, FlattenNode(f[0]), maxNodes);
      RunOfSum(s, FlattenNode(f[0]), Flatten(f[1..]), maxNodes);
      NodeFollows(s, f[0], m, maxNodes);
      OutGrows(next, Flatten(f[1..]), maxNodes);
      if QuietNode(f[0], m).Some? {
        ForestFollows(next, f[1..], QuietNode(f[0], m).value, maxNodes);
      }
    }
  }

  lemma TailFollows(kept: seq<Node>, tail: seq<Node>, maxNodes: nat)
    requires RootBlocks(kept) == maxNodes
    ensures Run(FRESH, Flatten(kept), maxNodes).out == Emit(kept, false)
    ensures Follows(Run(FRESH, Flatten(kept), maxNodes), Run(FRESH, Flatten(kept + tail), maxNodes),
                    QuietForest(tail, Mode(0, false)), maxNodes)
  {
    hide Emit, Flatten, QuietForest;
    FlattenOfSum(kept, tail);
    RunOfSum(FRESH, Flatten(kept), Flatten(tail), maxNodes);
    RunOfForest(FRESH, kept, maxNodes);
    ConversionIsEmit(kept, maxNodes);
    ForestFollows(Converted(FRESH, kept), tail, Mode(0, false), maxNodes);
  }

  /**
   Whatever follows the last root block within the limit: the output is that of the document cut
   there if and only if nothing in the tail is read at a depth that makes it written.
   */
  lemma TruncationIsExactIff(kept: seq<Node>, tail: seq<Node>, maxNodes: nat)
    requires RootBlocks(kept) == maxNodes
    ensures Run(FRESH, Flatten(kept + tail), maxNodes).out == Emit(kept, false) <==> QuietForest(tail, Mode(0, false)).Some?
  {
    hide Emit, Flatten, QuietForest;
    TailFollows(kept, tail, maxNodes);
  }

  // What that means for some tails

  /** Past the limit an element around a text is dropped exactly if it is one of the block elements. */
  lemma DroppedIffBlock(kept: seq<Node>, name: Name, level: string, attributes: seq<Attribute>, text: string, maxNodes: nat)
    requires RootBlocks(kept) == maxNodes
    ensures Run(FRESH, Flatten(kept + [Element(name, level, attributes, [Words(text)])]), maxNodes).out == Emit(kept, false) <==>
      name in {Paragraph, Heading, Blockquote, CodeBlock, BulletList, OrderedList, Table, Image, HardBreak}
  {
    hide Emit, Flatten, RootBlocks;
    var n := Element(name, level, attributes, [Words(text)]);
    TruncationIsExactIff(kept, [n], maxNodes);
    assert [n][1..] == [] && n.children[1..] == [];
    assert QuietForest(n.children, Mode(0, true)) == Some(Mode(0, true));
    assert QuietForest(n.children, Mode(1, false)) == None;
  }

  predicate IsFlat(n: Node) {
    n.Element? ==> forall i :: 0 <= i < |n.children| ==> !n.children[i].Element?
  }

  lemma {:induction false} SkippedLeaves(f: seq<Node>, m: Mode)
    requires m.skipping && forall i :: 0 <= i < |f| ==> !f[i].Element?
    ensures QuietForest(f, m) == Some(m)
  {
    if f != [] {
      SkippedLeaves(f[1..], m);
    }
  }

  lemma {:induction false} SkippedRoots(f: seq<Node>)
    requires forall i :: 0 <= i < |f| ==> IsFlat(f[i])
    ensures QuietForest(f, Mode(-1, true)) == Some(Mode(-1, true))
  {
    if f != [] {
      if f[0].Element? {
        SkippedLeaves(f[0].children, Mode(0, true));
      }
      SkippedRoots(f[1..]);
    }
  }

  /** After a first root block, root elements without element children are all cut out. */
  lemma FlatTailsAreQuiet(tail: seq<Node>)
    requires tail != [] && tail[0].Element? && IsBlockElement(tail[0].name)
    requires forall i :: 0 <= i < |tail| ==> IsFlat(tail[i])
    ensures QuietForest(tail, Mode(0, false)).Some?
  {
    SkippedLeaves(tail[0].children, Mode(0, true));
    SkippedRoots(tail[1..]);
  }

  lemma {:induction false} SkippedDeepNode(n: Node, d: int)
    requires d >= 1
    ensures QuietNode(n, Mode(d, true)) == Some(Mode(d, true))
    decreases n, 1
  {
    if n.Element? {
      SkippedDeep(n.children, d + 1);
    }
  }

  lemma {:induction false} SkippedDeep(f: seq<Node>, d: int)
    requires d >= 1
    ensures QuietForest(f, Mode(d, true)) == Some(Mode(d, true))
    decreases f, 0
  {
    if f != [] {
      SkippedDeepNode(f[0], d);
      SkippedDeep(f[1..], d);
    }
  }

  /** The first child element of a dropped block ends the skipping. */
  lemma ChildEndsSkipping(child: Node)
    requires child.Element?
    ensures QuietNode(child, Mode(0, true)) == Some(Mode(0, false))
  {
    SkippedDeep(child.children, 1);
  }

  /** Elements whose closing tag is written whatever the stack holds. */
  predicate AlwaysCloses(n: Name) {
    n in {Paragraph, Blockquote, BulletList, OrderedList, Table}
  }

  /** Children without element children of their own: the first ends the skipping, the second starts it again for good. */
  lemma FlatChildren(f: seq<Node>)
    requires forall i :: 0 <= i < |f| ==> f[i].Element? && IsBlockElement(f[i].name) && IsFlat(f[i])
    ensures QuietForest(f, Mode(0, true)) ==
      Some(if |f| == 0 then Mode(0, true) else if |f| == 1 then Mode(0, false) else Mode(-1, true))
  {
    if f != [] {
      ChildEndsSkipping(f[0]);
      if |f| > 1 {
        var rest := f[1..];
        SkippedLeaves(rest[0].children, Mode(0, true));
        SkippedRoots(rest[1..]);
        assert QuietNode(rest[0], Mode(0, false)) == Some(Mode(-1, true));
        assert QuietForest(rest, Mode(0, false)) == Some(Mode(-1, true));
      }
    }
  }

  /** A block past the limit around flat blocks, such as a quotation, is cut out unless it holds exactly one of them. */
  lemma OneChildLeaksIff(kept: seq<Node>, block: Node, maxNodes: nat)
    requires RootBlocks(kept) == maxNodes && block.Element? && AlwaysCloses(block.name)
    requires forall c :: c in block.children ==> c.Element? && IsBlockElement(c.name) && IsFlat(c)
    ensures Run(FRESH, Flatten(kept + [block]), maxNodes).out == Emit(kept, false) <==> |block.children| != 1
  {
    hide Emit, Flatten;
    TruncationIsExactIff(kept, [block], maxNodes);
    FlatChildren(block.children);
    assert [block][1..] == [];
  }

  /** A heading is closed by the tag on the stack, and there is none: around one element it is cut out all the same. */
  lemma HeadingIsQuiet(block: Node)
    requires block.Element? && block.name.Heading? && |block.children| == 1 && block.children[0].Element?
    ensures QuietForest([block], Mode(0, false)) == Some(Mode(-1, false))
  {
    ChildEndsSkipping(block.children[0]);
    assert block.children[1..] == [] && [block][1..] == [];
    assert QuietForest(block.children, Mode(0, true)) == Some(Mode(0, false));
    assert QuietNode(block, Mode(0, false)) == Some(Mode(-1, false));
  }

  /** What is written for a block around one element: its closing tag, without its opening tag. */
  lemma OneNestedChildLeaks(kept: seq<Node>, block: Node, maxNodes: nat)
    requires RootBlocks(kept) == maxNodes && block.Element? && AlwaysCloses(block.name)
    requires |block.children| == 1 && block.children[0].Element?
    ensures Run(FRESH, Flatten(kept + [block]), maxNodes).out == Emit(kept, false) + [Close(HtmlTag(block.name, ""))]
    ensures !WellNested(Run(FRESH, Flatten(kept + [block]), maxNodes).out)
  {
    hide Emit, Flatten, RootBlocks;
    var s, child := Converted(FRESH, kept), block.children[0];
    FlattenOfSum(kept, [block]);
    RunOfSum(FRESH, Flatten(kept), Flatten([block]), maxNodes);
    RunOfForest(FRESH, kept, maxNodes);
    ConversionIsEmit(kept, maxNodes);
    FlattenOfOne(block);
    FlattenOfOne(child);
    assert block.children == [child];
    RunOfBracket(s, Start(block.name, block.level, block.attributes), [child], End(block.name), maxNodes);
    ChildEndsSkipping(child);
    NodeFollows(s.(skipDepth := Some(0)), child, Mode(0, true), maxNodes);
    assert FlattenNode(block) == [Start(block.name, block.level, block.attributes)] + Flatten([child]) + [End(block.name)];
    LoneCloseIsNotNested(kept, HtmlTag(block.name, ""));
  }

  lemma FlattenOfOne(n: Node)
    ensures Flatten([n]) == FlattenNode(n)
  {
  }

  lemma LoneCloseIsNotNested(kept: seq<Node>, tag: string)
    ensures !WellNested(Emit(kept, false) + [Close(tag)])
  {
    NestOfSum(Emit(kept, false), [Close(tag)], []);
    if Orphans(kept, false) == 0 {
      ForestNests(kept, false, []);
    } else if Nest(Emit(kept, false), []).Some? {
      NestedBalance(Emit(kept, false), []);
      ForestBalance(kept, false);
    }
  }
}
