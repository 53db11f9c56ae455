/**
 Messages on a stream: one JSON text, sent in chunks and received in fragments cut anywhere, also
 inside a character.  The receiver tries to read the message after every fragment.
 */
module Framing {
  import opened Wrappers
  import opened Utf8

  type Text = seq<Scalar>

  const QUOTE: Scalar := 34
  const COMMA: Scalar := 44
  const COLON: Scalar := 58
  const OPEN_BRACKET: Scalar := 91
  const BACKSLASH: Scalar := 92
  const CLOSE_BRACKET: Scalar := 93
  const OPEN_BRACE: Scalar := 123
  const CLOSE_BRACE: Scalar := 125

  // Serialised values, RFC 8259 sections 2, 4, 5 and 7

  /** A number or literal name is an atom: text without structural characters, quotation marks or backslashes. */
  predicate IsAtom(t: Text) {
    t != [] && forall c :: c in t ==> c !in {QUOTE, COMMA, COLON, OPEN_BRACKET, BACKSLASH, CLOSE_BRACKET, OPEN_BRACE, CLOSE_BRACE}
  }

  type Atom = t: Text | IsAtom(t) witness [48]

  datatype Json = Atomic(name: Atom) | Str(text: Text) | Arr(items: seq<Json>) | Obj(members: seq<Member>)
  datatype Member = Member(key: Text, value: Json)

  function Hex(d: int): Scalar
    requires 0 <= d < 16
  {
    if d < 10 then 48 + d else 87 + d
  }

  function EscapeOne(c: Scalar): Text {
    if c == QUOTE || c == BACKSLASH then [BACKSLASH, c]
    else if c == 8 then [BACKSLASH, 98]
    else if c == 9 then [BACKSLASH, 116]
    else if c == 10 then [BACKSLASH, 110]
    else if c == 12 then [BACKSLASH, 102]
    else if c == 13 then [BACKSLASH, 114]
    else if c < 32 then [BACKSLASH, 117, 48, 48, Hex(c / 16), Hex(c % 16)]
    else [c]
  }

  function Escape(t: Text): Text {
    if t == [] then [] else EscapeOne(t[0]) + Escape(t[1..])
  }

  function Quoted(t: Text): Text {
    [QUOTE] + Escape(t) + [QUOTE]
  }

  function Serialise(v: Json): Text {
    match v
    case Atomic(t) => t
    case Str(t) => Quoted(t)
    case Arr(items) => [OPEN_BRACKET] + SerialiseItems(items) + [CLOSE_BRACKET]
    case Obj(members) => [OPEN_BRACE] + SerialiseMembers(members) + [CLOSE_BRACE]
  }

  function SerialiseItems(items: seq<Json>): Text {
    if items == [] then []
    else Serialise(items[0]) + (if |items| > 1 then [COMMA] else []) + SerialiseItems(items[1..])
  }

  function SerialiseMember(m: Member): Text {
    Quoted(m.key) + [COLON] + Serialise(m.value)
  }

  function SerialiseMembers(members: seq<Member>): Text {
    if members == [] then []
    else SerialiseMember(members[0]) + (if |members| > 1 then [COMMA] else []) + SerialiseMembers(members[1..])
  }

  // Reading: where a value ends

  datatype Mode = Plain | InString | Escaped | Finished | Broken

  /** How many brackets and braces are open, and where the reader is. */
  datatype Scan = Scan(depth: nat, mode: Mode)

  function Next(s: Scan, c: Scalar): Scan {
    match s.mode
    case Plain =>
      if c == QUOTE then s.(mode := InString)
      else if c == OPEN_BRACKET || c == OPEN_BRACE then s.(depth := s.depth + 1)
      else if c == CLOSE_BRACKET || c == CLOSE_BRACE then
        if s.depth == 0 then s.(mode := Broken)
        else if s.depth == 1 then Scan(0, Finished)
        else s.(depth := s.depth - 1)
      else s
    case InString =>
      if c == QUOTE then s.(mode := if s.depth == 0 then Finished else Plain)
      else if c == BACKSLASH then s.(mode := Escaped)
      else s
    case Escaped => s.(mode := InString)
    case Finished => s.(mode := Broken)
    case Broken => s
  }

  function Read(s: Scan, t: Text): Scan
    decreases |t|
  {
    if t == [] then s else Read(Next(s, t[0]), t[1..])
  }

  datatype Reading = Complete | Incomplete | Malformed

  /** What the parser says of a text: a value ends with it, it ends inside a value, or text follows a value. */
  function Parse(t: Text): Reading {
    match Read(Scan(0, Plain), t).mode
    case Finished => Complete
    case Broken => Malformed
    case _ => Incomplete
  }

  lemma {:induction false} ReadOfSum(s: Scan, t: Text, u: Text)
    ensures Read(s, t + u) == Read(Read(s, t), u)
    decreases |t|
  {
    if t == [] {
      assert t + u == u;
    } else {
      assert (t + u)[1..] == t[1..] + u;
      ReadOfSum(Next(s, t[0]), t[1..], u);
    }
  }

  lemma ReadOfOne(s: Scan, c: Scalar)
    ensures Read(s, [c]) == Next(s, c)
  {
  }

  lemma ReadOfTwo(s: Scan, c: Scalar, d: Scalar)
    ensures Read(s, [c, d]) == Next(Next(s, c), d)
  {
    assert [c, d] == [c] + [d];
    ReadOfSum(s, [c], [d]);
    ReadOfOne(s, c);
    ReadOfOne(Next(s, c), d);
  }

  lemma ReadEscapeOne(s: Scan, c: Scalar)
    requires s.mode == InString
    ensures Read(s, EscapeOne(c)) == s
  {
    var e := EscapeOne(c);
    if |e| == 1 {
      ReadOfOne(s, c);
    } else if |e| == 2 {
      ReadOfTwo(s, e[0], e[1]);
    } else {
      assert e == [e[0], e[1]] + [e[2], e[3]] + [e[4], e[5]];
      ReadOfSum(s, [e[0], e[1]] + [e[2], e[3]], [e[4], e[5]]);
      ReadOfSum(s, [e[0], e[1]], [e[2], e[3]]);
      ReadOfTwo(s, e[0], e[1]);
      ReadOfTwo(s, e[2], e[3]);
      ReadOfTwo(s, e[4], e[5]);
    }
  }

  lemma {:induction false} ReadEscape(s: Scan, t: Text)
    requires s.mode == InString
    ensures Read(s, Escape(t)) == s
  {
    if t != [] {
      ReadOfSum(s, EscapeOne(t[0]), Escape(t[1..]));
      ReadEscapeOne(s, t[0]);
      ReadEscape(s, t[1..]);
    }
  }

  /** A string ends where its closing quotation mark is, whatever it contains. */
  lemma ReadQuoted(s: Scan, t: Text)
    requires s.mode == Plain
    ensures Read(s, Quoted(t)) == s.(mode := if s.depth == 0 then Finished else Plain)
  {
    var inside := s.(mode := InString);
    ReadOfSum(s, [QUOTE] + Escape(t), [QUOTE]);
    ReadOfSum(s, [QUOTE], Escape(t));
    ReadOfOne(s, QUOTE);
    ReadEscape(inside, t);
    ReadOfOne(inside, QUOTE);
  }

  lemma {:induction false} ReadAtom(s: Scan, t: Text)
    requires s.mode == Plain && (t == [] || IsAtom(t))
    ensures Read(s, t) == s
  {
    if t != [] {
      assert t[0] in t && forall c :: c in t[1..] ==> c in t;
      ReadAtom(s, t[1..]);
    }
  }

  lemma ReadSeparator(s: Scan, more: bool)
    requires s.mode == Plain
    ensures Read(s, if more then [COMMA] else []) == s
    ensures Read(s, [COLON]) == s
  {
  }

  /** Inside brackets a value is read through to its end, and no further. */
  lemma {:induction false} ReadValue(s: Scan, v: Json)
    requires s.mode == Plain && s.depth > 0
    ensures Read(s, Serialise(v)) == s
    decreases v, 1
  {
    match v
    case Atomic(t) => ReadAtom(s, t);
    case Str(t) => ReadQuoted(s, t);
    case Arr(items) =>
      ReadItems(s.(depth := s.depth + 1), items);
      ReadBracketed(s, OPEN_BRACKET, SerialiseItems(items), CLOSE_BRACKET);
    case Obj(members) =>
      ReadMembers(s.(depth := s.depth + 1), members);
      ReadBracketed(s, OPEN_BRACE, SerialiseMembers(members), CLOSE_BRACE);
  }

  lemma BracketSteps(s: Scan, open: Scalar, close: Scalar)
    requires s.mode == Plain
    requires (open == OPEN_BRACKET && close == CLOSE_BRACKET) || (open == OPEN_BRACE && close == CLOSE_BRACE)
    ensures Next(s, open) == s.(depth := s.depth + 1)
    ensures Next(s.(depth := s.depth + 1), close) == if s.depth == 0 then Scan(0, Finished) else s
  {
  }

  lemma ReadBracketed(s: Scan, open: Scalar, t: Text, close: Scalar)
    requires s.mode == Plain
    requires (open == OPEN_BRACKET && close == CLOSE_BRACKET) || (open == OPEN_BRACE && close == CLOSE_BRACE)
    requires Read(s.(depth := s.depth + 1), t) == s.(depth := s.depth + 1)
    ensures Read(s, [open] + t + [close]) == if s.depth == 0 then Scan(0, Finished) else s
  {
    hide Read, Next;
    BracketSteps(s, open, close);
    ReadOfSum(s, [open] + t, [close]);
    ReadOfSum(s, [open], t);
    ReadOfOne(s, open);
    ReadOfOne(s.(depth := s.depth + 1), close);
  }

  lemma {:induction false} ReadItems(s: Scan, items: seq<Json>)
    requires s.mode == Plain && s.depth > 0
    ensures Read(s, SerialiseItems(items)) == s
    decreases items, 0
  {
    if items != [] {
      var separator := if |items| > 1 then [COMMA] else [];
      ReadOfSum(s, Serialise(items[0]) + separator, SerialiseItems(items[1..]));
      ReadOfSum(s, Serialise(items[0]), separator);
      ReadValue(s, items[0]);
      ReadSeparator(s, |items| > 1);
      ReadItems(s, items[1..]);
    }
  }

  lemma {:induction false} ReadMembers(s: Scan, members: seq<Member>)
    requires s.mode == Plain && s.depth > 0
    ensures Read(s, SerialiseMembers(members)) == s
    decreases members, 0
  {
    if members != [] {
      var separator := if |members| > 1 then [COMMA] else [];
      var m := members[0];
      ReadOfSum(s, SerialiseMember(m) + separator, SerialiseMembers(members[1..]));
      ReadOfSum(s, SerialiseMember(m), separator);
      ReadOfSum(s, Quoted(m.key) + [COLON], Serialise(m.value));
      ReadOfSum(s, Quoted(m.key), [COLON]);
      ReadQuoted(s, m.key);
      ReadSeparator(s, |members| > 1);
      ReadValue(s, m.value);
      ReadMembers(s, members[1..]);
    }
  }

  /** Messages serialise to objects, or to strings when they carry nothing. */
  predicate IsMessage(v: Json) {
    v.Obj? || v.Str?
  }

  /** A string, an array or an object ends with its last character, and not before. */
  lemma MessageIsComplete(v: Json)
    requires !v.Atomic?
    ensures Parse(Serialise(v)) == Complete
  {
    var s := Scan(0, Plain);
    match v
    case Str(t) => ReadQuoted(s, t);
    case Arr(items) =>
      ReadItems(s.(depth := 1), items);
      ReadBracketed(s, OPEN_BRACKET, SerialiseItems(items), CLOSE_BRACKET);
    case Obj(members) =>
      ReadMembers(s.(depth := 1), members);
      ReadBracketed(s, OPEN_BRACE, SerialiseMembers(members), CLOSE_BRACE);
  }

  lemma {:induction false} NothingFollows(s: Scan, t: Text)
    requires (s.mode == Finished && t != []) || s.mode == Broken
    ensures Read(s, t).mode == Broken
    decreases |t|
  {
    if t != [] {
      NothingFollows(Next(s, t[0]), t[1..]);
    }
  }

  /** Of a message, every proper prefix is incomplete: neither complete nor malformed. */
  lemma ProperPrefixIsIncomplete(v: Json, p: Text)
    requires !v.Atomic? && p < Serialise(v)
    ensures Parse(p) == Incomplete
  {
    var t, s := Serialise(v), Scan(0, Plain);
    var rest := t[|p|..];
    assert t == p + rest;
    ReadOfSum(s, p, rest);
    MessageIsComplete(v);
    if Parse(p) != Incomplete {
      NothingFollows(Read(s, p), rest);
    }
  }

  lemma FirstCharacter(v: Json)
    ensures Serialise(v) != []
    ensures v.Atomic? <==> Serialise(v)[0] !in {QUOTE, OPEN_BRACKET, OPEN_BRACE}
  {
    if v.Atomic? {
      assert v.name[0] in v.name;
    }
  }

  /** In the grammar's own terms: no proper prefix of a serialised message is the serialisation of any value. */
  lemma NoValueIsAProperPrefix(v: Json, w: Json)
    requires !v.Atomic?
    ensures !(Serialise(w) < Serialise(v))
  {
    hide Serialise, Parse;
    if Serialise(w) < Serialise(v) {
      FirstCharacter(v);
      FirstCharacter(w);
      ProperPrefixIsIncomplete(v, Serialise(w));
      MessageIsComplete(w);
    }
  }

  // Receiving

  function Concatenation(fragments: seq<seq<Byte>>): seq<Byte> {
    if fragments == [] then [] else Concatenation(fragments[..|fragments| - 1]) + fragments[|fragments| - 1]
  }

  lemma {:induction false} FirstFragments(fragments: seq<seq<Byte>>, i: nat)
    requires i <= |fragments|
    ensures Concatenation(fragments[..i]) <= Concatenation(fragments)
    decreases |fragments| - i
  {
    if i < |fragments| {
      FirstFragments(fragments, i + 1);
      assert fragments[..i + 1][..i] == fragments[..i];
      assert Concatenation(fragments[..i + 1]) == Concatenation(fragments[..i]) + fragments[i];
    } else {
      assert fragments[..i] == fragments;
    }
  }

  datatype Received = Message(text: Text) | Refused | StreamEnded

  /** What the receiver makes of the bytes so far, after at least one arrived. */
  lemma BufferReading(v: Json, n: nat)
    requires IsMessage(v) && n <= |Encode(Serialise(v))|
    ensures n == |Encode(Serialise(v))| ==> Decode(Encode(Serialise(v))[..n]).Some?
    ensures var d := Decode(Encode(Serialise(v))[..n]);
      d.Some? ==> if n < |Encode(Serialise(v))| then Parse(d.value) == Incomplete else d.value == Serialise(v) && Parse(d.value) == Complete
  {
    var t := Serialise(v);
    var bytes := Encode(t);
    if n == |bytes| {
      assert bytes[..n] == bytes;
      DecodeOfEncoded(t);
      MessageIsComplete(v);
    } else if Decode(bytes[..n]).Some? {
      DecodedPrefix(t, n);
      ProperPrefixIsIncomplete(v, Decode(bytes[..n]).value);
    }
  }

  /** After the `i`th fragment the bytes so far are the encoding of a text that the parser has done with. */
  ghost predicate Decided(fragments: seq<seq<Byte>>, i: nat) {
    && 0 < i <= |fragments| && fragments[i - 1] != []
    && Decode(Concatenation(fragments[..i])).Some?
    && Parse(Decode(Concatenation(fragments[..i])).value) != Incomplete
  }

  ghost predicate FirstDecided(fragments: seq<seq<Byte>>, i: nat) {
    Decided(fragments, i) && forall j :: 0 < j < i ==> !Decided(fragments, j)
  }

  /** The first such text is what is read, if there is one. */
  ghost predicate Reads(fragments: seq<seq<Byte>>, r: Received) {
    && (r.StreamEnded? <==> forall i: nat :: !Decided(fragments, i))
    && forall i: nat :: FirstDecided(fragments, i) ==>
         var text := Decode(Concatenation(fragments[..i])).value;
         r == if Parse(text) == Complete then Message(text) else Refused
  }

  lemma FirstDecides(fragments: seq<seq<Byte>>, i: nat, r: Received)
    requires FirstDecided(fragments, i)
    requires r == if Parse(Decode(Concatenation(fragments[..i])).value) == Complete
                  then Message(Decode(Concatenation(fragments[..i])).value) else Refused
    ensures Reads(fragments, r)
  {
    hide Decode, Parse, Concatenation;
  }

  lemma {:induction false} LastByteArrives(fragments: seq<seq<Byte>>, n: nat) returns (i: nat)
    requires n <= |fragments| && Concatenation(fragments[..n]) != []
    ensures 0 < i <= n && fragments[i - 1] != [] && Concatenation(fragments[..i]) == Concatenation(fragments[..n])
  {
    assert fragments[..n][..n - 1] == fragments[..n - 1];
    if fragments[n - 1] == [] {
      i := LastByteArrives(fragments, n - 1);
    } else {
      i := n;
    }
  }

  lemma {:induction false} HasFirst(fragments: seq<seq<Byte>>, i: nat) returns (k: nat)
    requires Decided(fragments, i)
    ensures FirstDecided(fragments, k)
  {
    hide Decided;
    if j :| 0 < j < i && Decided(fragments, j) {
      k := HasFirst(fragments, j);
    } else {
      k := i;
    }
  }

  /** Of the bytes of a message, cut anywhere, only all of them decide, and then the message is read. */
  lemma MessageIsRead(fragments: seq<seq<Byte>>, v: Json, r: Received)
    requires Reads(fragments, r) && IsMessage(v) && Concatenation(fragments) <= Encode(Serialise(v))
    ensures r == if Concatenation(fragments) == Encode(Serialise(v)) then Message(Serialise(v)) else StreamEnded
  {
    var bytes := Encode(Serialise(v));
    forall i: nat | Decided(fragments, i)
      ensures Concatenation(fragments) == bytes && Decode(Concatenation(fragments[..i])) == Some(Serialise(v))
      ensures Parse(Serialise(v)) == Complete
    {
      DecidedIsWhole(fragments, i, v);
    }
    assert fragments[..|fragments|] == fragments;
    EncodedMessageIsNotEmpty(v);
    hide Serialise, Encode, Decode, Parse, Decided;
    if Concatenation(fragments) == bytes {
      var i := LastByteArrives(fragments, |fragments|);
      WholeIsDecided(fragments, i, v);
      var k := HasFirst(fragments, i);
      assert Decided(fragments, k);
    }
  }

  lemma DecidedIsWhole(fragments: seq<seq<Byte>>, i: nat, v: Json)
    requires IsMessage(v) && Concatenation(fragments) <= Encode(Serialise(v)) && Decided(fragments, i)
    ensures Concatenation(fragments) == Encode(Serialise(v)) && Decode(Concatenation(fragments[..i])) == Some(Serialise(v))
    ensures Parse(Serialise(v)) == Complete
  {
    hide Serialise, Encode, Decode, Parse;
    FirstFragments(fragments, i);
    var bytes, n := Encode(Serialise(v)), |Concatenation(fragments[..i])|;
    assert Concatenation(fragments[..i]) == bytes[..n];
    BufferReading(v, n);
  }

  lemma WholeIsDecided(fragments: seq<seq<Byte>>, i: nat, v: Json)
    requires IsMessage(v) && 0 < i <= |fragments| && fragments[i - 1] != [] && Concatenation(fragments[..i]) == Encode(Serialise(v))
    ensures Decided(fragments, i)
  {
    hide Serialise, Encode, Decode, Parse;
    var bytes := Encode(Serialise(v));
    assert bytes[..|bytes|] == bytes;
    BufferReading(v, |bytes|);
  }

  /**
   The receive loop of one stream: bytes are collected until they decode to a text that is complete or
   malformed.  However the bytes of a message are cut, exactly the message is read, and nothing before
   all its bytes are there.
   */
  method Receive(fragments: seq<seq<Byte>>) returns (r: Received)
    ensures Reads(fragments, r)
    ensures forall v :: IsMessage(v) && Concatenation(fragments) <= Encode(Serialise(v)) ==>
      r == if Concatenation(fragments) == Encode(Serialise(v)) then Message(Serialise(v)) else StreamEnded
  {
    hide Decode, Parse, Serialise, Encode;
    r := StreamEnded;
    var buffer: seq<Byte> := [];
    for i := 0 to |fragments|
      invariant r.StreamEnded? && buffer == Concatenation(fragments[..i])
      invariant forall j :: 0 < j <= i ==> !Decided(fragments, j)
    {
      assert fragments[..i + 1][..i] == fragments[..i];
      if fragments[i] == [] {
        continue;
      }
      buffer := buffer + fragments[i];
      var text := Decode(buffer);
      if text.Some? && Parse(text.value) != Incomplete {
        r := if Parse(text.value) == Complete then Message(text.value) else Refused;
        FirstDecides(fragments, i + 1, r);
        break;
      }
    }
    assert Reads(fragments, r);
    hide Reads;
    forall v | IsMessage(v) && Concatenation(fragments) <= Encode(Serialise(v))
      ensures r == if Concatenation(fragments) == Encode(Serialise(v)) then Message(Serialise(v)) else StreamEnded
    {
      MessageIsRead(fragments, v, r);
    }
  }

  lemma EncodedMessageIsNotEmpty(v: Json)
    requires IsMessage(v)
    ensures Encode(Serialise(v)) != []
  {
  }

  /** The sender cuts the bytes into chunks. */
  method SendChunks(bytes: seq<Byte>, size: nat) returns (chunks: seq<seq<Byte>>)
    requires size > 0
    ensures Concatenation(chunks) == bytes
    ensures forall i :: 0 <= i < |chunks| ==> 0 < |chunks[i]| <= size
    ensures forall i :: 0 <= i < |chunks| - 1 ==> |chunks[i]| == size
  {
    chunks := [];
    var sent := 0;
    while sent < |bytes|
      invariant sent <= |bytes| && Concatenation(chunks) == bytes[..sent]
      invariant forall i :: 0 <= i < |chunks| ==> 0 < |chunks[i]| <= size
      invariant forall i :: 0 <= i < |chunks| - 1 ==> |chunks[i]| == size
      invariant sent < |bytes| && chunks != [] ==> |chunks[|chunks| - 1]| == size
    {
      var end := if sent + size < |bytes| then sent + size else |bytes|;
      ghost var before := chunks;
      chunks := chunks + [bytes[sent..end]];
      assert chunks[..|chunks| - 1] == before;
      assert bytes[..end] == bytes[..sent] + bytes[sent..end];
      sent := end;
    }
    assert bytes[..sent] == bytes;
  }
}
