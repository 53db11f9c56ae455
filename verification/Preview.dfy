/**
 The preview converter: one pass over the reader's events with a depth counter, a skip mode, a
 code-block flag and a stack of open tags.
 */
module Preview {
  import opened Wrappers

  /** Element names the converter knows, and any other. */
  datatype Name =
    | Paragraph | Heading | Blockquote | CodeBlock | Code | BulletList | OrderedList | ListItem
    | Table | TableRow | TableHeader | TableCell | Image | HardBreak | Strong | Bold | Em | Italic
    | Other(text: string)

  datatype Attribute = Attribute(key: string, value: string)

  /**
   `level` is the heading level, "1" where the attribute is missing.  The reader reports a reference
   such as `&lt;` and a CDATA section as events of their own; `text` is what they stand for.
   */
  datatype Event =
    | Start(name: Name, level: string, attributes: seq<Attribute>)
    | End(name: Name)
    | Empty(name: Name, attributes: seq<Attribute>)
    | Text(text: string)
    | GeneralRef(text: string)
    | CData(text: string)

  datatype Html = Open(tag: string) | Close(tag: string) | Void(tag: string, attributes: seq<Attribute>) | Chars(text: string)

  predicate IsBlockElement(n: Name) {
    n in {Paragraph, Heading, Blockquote, CodeBlock, BulletList, OrderedList, Table, Image, HardBreak}
  }

  const IMAGE_ATTRIBUTES: set<string> := {"src", "alt", "title", "width", "height"}

  function Kept(attributes: seq<Attribute>): seq<Attribute> {
    if attributes == [] then []
    else (if attributes[0].key in IMAGE_ATTRIBUTES then [attributes[0]] else []) + Kept(attributes[1..])
  }

  /** The tag pushed for an element; empty for elements that are not closed. */
  function HtmlTag(n: Name, level: string): string {
    match n
    case Paragraph => "p"
    case Heading => "h" + level
    case Blockquote => "blockquote"
    case CodeBlock => "code_block"
    case Code => "code"
    case BulletList => "ul"
    case OrderedList => "ol"
    case ListItem => "li"
    case Table => "table"
    case TableRow => "tr"
    case TableHeader => "th"
    case TableCell => "td"
    case Strong => "strong"
    case Bold => "strong"
    case Em => "em"
    case Italic => "em"
    case _ => ""
  }

  predicate Closes(n: Name) {
    !n.Image? && !n.HardBreak? && !n.Other?
  }

  function Opening(n: Name, level: string, attributes: seq<Attribute>, inCode: bool): seq<Html> {
    match n
    case CodeBlock => [Open("pre"), Open("code")]
    case Code => if inCode then [] else [Open("code")]
    case Image => [Void("img", Kept(attributes))]
    case HardBreak => [Void("br", [])]
    case Other(_) => []
    case _ => [Open(HtmlTag(n, level))]
  }

  /** `popped` is the tag taken from the stack; only a heading is closed by it. */
  function Closing(n: Name, popped: Option<string>, inCode: bool): seq<Html> {
    match n
    case Heading => if popped.Some? then [Close(popped.value)] else []
    case CodeBlock => [Close("code"), Close("pre")]
    case Code => if inCode then [] else [Close("code")]
    case Image => []
    case HardBreak => []
    case Other(_) => []
    case _ => [Close(HtmlTag(n, ""))]
  }

  function SelfClosing(n: Name, attributes: seq<Attribute>): seq<Html> {
    match n
    case HardBreak => [Void("br", [])]
    case Image => [Void("img", Kept(attributes))]
    case _ => []
  }

  datatype State = State(depth: int, skipDepth: Option<int>, blockCount: nat, inCode: bool, stack: seq<string>, out: seq<Html>)

  const FRESH: State := State(0, None, 0, false, [], [])

  function Entered(s: State, n: Name, level: string, attributes: seq<Attribute>): State {
    var tag := HtmlTag(n, level);
    s.(depth := s.depth + 1,
       inCode := s.inCode || n.CodeBlock?,
       stack := if tag == "" then s.stack else s.stack + [tag],
       out := s.out + Opening(n, level, attributes, s.inCode))
  }

  function Left(s: State, n: Name): State {
    var pops := s.stack != [] && Closes(n);
    var popped := if pops then Some(s.stack[|s.stack| - 1]) else None;
    s.(depth := s.depth - 1,
       inCode := s.inCode && !n.CodeBlock?,
       stack := if pops then s.stack[..|s.stack| - 1] else s.stack,
       out := s.out + Closing(n, popped, s.inCode))
  }

  /** What one event does. */
  function Step(s: State, e: Event, maxNodes: nat): State {
    match e
    case Start(n, level, attributes) =>
      if s.skipDepth.Some? then s.(depth := s.depth + 1)
      else if s.depth == 0 && IsBlockElement(n) then
        if s.blockCount >= maxNodes then s.(skipDepth := Some(s.depth))
        else Entered(s.(blockCount := s.blockCount + 1), n, level, attributes)
      else Entered(s, n, level, attributes)
    case End(n) =>
      if s.skipDepth.Some? then
        s.(depth := s.depth - 1, skipDepth := if s.depth - 1 == s.skipDepth.value then None else s.skipDepth)
      else Left(s, n)
    case Empty(n, attributes) => if s.skipDepth.Some? then s else s.(out := s.out + SelfClosing(n, attributes))
    case Text(t) => if s.skipDepth.Some? then s else s.(out := s.out + [Chars(t)])
    case GeneralRef(_) => s
    case CData(_) => s
  }

  function Run(s: State, es: seq<Event>, maxNodes: nat): State
    decreases |es|
  {
    if es == [] then s else Run(Step(s, es[0], maxNodes), es[1..], maxNodes)
  }

  lemma {:induction false} RunOfSum(s: State, es: seq<Event>, fs: seq<Event>, maxNodes: nat)
    ensures Run(s, es + fs, maxNodes) == Run(Run(s, es, maxNodes), fs, maxNodes)
    decreases |es|
  {
    if es == [] {
      assert es + fs == fs;
    } else {
      assert (es + fs)[1..] == es[1..] + fs;
      RunOfSum(Step(s, es[0], maxNodes), es[1..], fs, maxNodes);
    }
  }

  lemma RunOfOne(s: State, e: Event, maxNodes: nat)
    ensures Run(s, [e], maxNodes) == Step(s, e, maxNodes)
  {
  }

  /** The loop of the converter, over its own variables. */
  method ConvertProsemirrorToHtml(events: seq<Event>, maxNodes: nat) returns (out: seq<Html>)
    ensures out == Run(FRESH, events, maxNodes).out
  {
    var depth, skipDepth, blockCount, inCode := 0, None, 0, false;
    var stack: seq<string> := [];
    out := [];
    for i := 0 to |events|
      invariant blockCount >= 0
      invariant State(depth, skipDepth, blockCount, inCode, stack, out) == Run(FRESH, events[..i], maxNodes)
    {
      assert events[..i + 1] == events[..i] + [events[i]];
      RunOfSum(FRESH, events[..i], [events[i]], maxNodes);
      RunOfOne(Run(FRESH, events[..i], maxNodes), events[i], maxNodes);
      match events[i] {
        case Start(n, level, attributes) =>
          if skipDepth.Some? {
            depth := depth + 1;
            continue;
          }
          if depth == 0 && IsBlockElement(n) {
            if blockCount >= maxNodes {
              skipDepth := Some(depth);
              continue;
            }
            blockCount := blockCount + 1;
          }
          out := out + Opening(n, level, attributes, inCode);
          if n.CodeBlock? {
            inCode := true;
          }
          var tag := HtmlTag(n, level);
          if tag != "" {
            stack := stack + [tag];
          }
          depth := depth + 1;
        case End(n) =>
          depth := depth - 1;
          if skipDepth.Some? {
            if depth == skipDepth.value {
              skipDepth := None;
            }
            continue;
          }
          var popped: Option<string> := None;
          if stack != [] && Closes(n) {
            popped := Some(stack[|stack| - 1]);
            stack := stack[..|stack| - 1];
          }
          out := out + Closing(n, popped, inCode);
          if n.CodeBlock? {
            inCode := false;
          }
        case Empty(n, attributes) =>
          if skipDepth.None? {
            out := out + SelfClosing(n, attributes);
          }
        case Text(t) =>
          if skipDepth.None? {
            out := out + [Chars(t)];
          }
        case _ =>
      }
    }
    assert events[..|events|] == events;
  }
}
