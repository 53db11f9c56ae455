/**
 Reading serialised values back, by the grammar of RFC 8259 for texts without white space.  Characters
 are written as their code points.
 */
module JsonReading {
  import opened Wrappers
  import opened Utf8
  import opened Framing

  /** Characters that end a number or a literal name. */
  predicate Ends(c: Scalar) {
    c in {34, 44, 58, 91, 92, 93, 123, 125}
  }

  function HexDigit(c: Scalar): Option<nat> {
    if 48 <= c <= 57 then Some(c - 48)
    else if 97 <= c <= 102 then Some(c - 87)
    else if 65 <= c <= 70 then Some(c - 55)
    else None
  }

  /** The character after a backslash and, for `u`, its four digits; how many characters that takes. */
  function ReadEscape(t: Text): (r: Option<(Scalar, nat)>)
    ensures r.Some? ==> 0 < r.value.1 <= |t|
  {
    if t == [] then None
    else if t[0] == 34 || t[0] == 92 || t[0] == 47 then Some((t[0], 1))
    else if t[0] == 98 then Some((8, 1))
    else if t[0] == 102 then Some((12, 1))
    else if t[0] == 110 then Some((10, 1))
    else if t[0] == 114 then Some((13, 1))
    else if t[0] == 116 then Some((9, 1))
    else if t[0] != 117 || |t| < 5 then None
    else
      var a, b, c, d := HexDigit(t[1]), HexDigit(t[2]), HexDigit(t[3]), HexDigit(t[4]);
      if a.None? || b.None? || c.None? || d.None? then None
      else
        var code := a.value * 4096 + b.value * 256 + c.value * 16 + d.value;
        if 0xD800 <= code < 0xE000 then None else Some((code, 5))
  }

  /** What stands before the closing quotation mark, and what follows it. */
  function ReadString(t: Text): (r: Option<(Text, Text)>)
    ensures r.Some? ==> |r.value.1| < |t|
    decreases |t|
  {
    if t == [] || t[0] < 32 then None
    else if t[0] == 34 then Some(([], t[1..]))
    else if t[0] == 92 then
      match ReadEscape(t[1..])
      case None => None
      case Some(e) =>
        (match ReadString(t[1 + e.1..])
         case None => None
         case Some(s) => Some(([e.0] + s.0, s.1)))
    else
      match ReadString(t[1..])
      case None => None
      case Some(s) => Some(([t[0]] + s.0, s.1))
  }

  function AtomLength(t: Text): (n: nat)
    ensures n <= |t| && (forall i :: 0 <= i < n ==> !Ends(t[i])) && (n < |t| ==> Ends(t[n]))
  {
    if t == [] || Ends(t[0]) then 0 else 1 + AtomLength(t[1..])
  }

  /** The value at the front of the text, and what follows it. */
  function ReadValue(t: Text): (r: Option<(Json, Text)>)
    ensures r.Some? ==> |r.value.1| < |t|
    decreases |t|, 0
  {
    if t == [] then None
    else if t[0] == 34 then
      match ReadString(t[1..])
      case None => None
      case Some(s) => Some((Str(s.0), s.1))
    else if t[0] == 91 then
      if |t| > 1 && t[1] == 93 then Some((Arr([]), t[2..]))
      else
        match ReadItems(t[1..])
        case None => None
        case Some(s) => Some((Arr(s.0), s.1))
    else if t[0] == 123 then
      if |t| > 1 && t[1] == 125 then Some((Obj([]), t[2..]))
      else
        match ReadMembers(t[1..])
        case None => None
        case Some(s) => Some((Obj(s.0), s.1))
    else
      var n := AtomLength(t);
      if n == 0 then None
      else
        assert IsAtom(t[..n]);
        Some((Atomic(t[..n]), t[n..]))
  }

  /** One or more values with commas between them, up to the closing bracket. */
  function ReadItems(t: Text): (r: Option<(seq<Json>, Text)>)
    ensures r.Some? ==> |r.value.1| < |t|
    decreases |t|, 1
  {
    match ReadValue(t)
    case None => None
    case Some(s) =>
      if s.1 == [] then None
      else if s.1[0] == 93 then Some(([s.0], s.1[1..]))
      else if s.1[0] != 44 then None
      else
        match ReadItems(s.1[1..])
        case None => None
        case Some(more) => Some(([s.0] + more.0, more.1))
  }

  /** A name, a colon and a value. */
  function ReadMember(t: Text): (r: Option<(Member, Text)>)
    ensures r.Some? ==> |r.value.1| < |t|
    decreases |t|, 1
  {
    if t == [] || t[0] != 34 then None
    else
      match ReadString(t[1..])
      case None => None
      case Some(s) =>
        if s.1 == [] || s.1[0] != 58 then None
        else
          match ReadValue(s.1[1..])
          case None => None
          case Some(v) => Some((Member(s.0, v.0), v.1))
  }

  function ReadMembers(t: Text): (r: Option<(seq<Member>, Text)>)
    ensures r.Some? ==> |r.value.1| < |t|
    decreases |t|, 2
  {
    match ReadMember(t)
    case None => None
    case Some(s) =>
      if s.1 == [] then None
      else if s.1[0] == 125 then Some(([s.0], s.1[1..]))
      else if s.1[0] != 44 then None
      else
        match ReadMembers(s.1[1..])
        case None => None
        case Some(more) => Some(([s.0] + more.0, more.1))
  }

  // What is written is read

  lemma EscapeRead(c: Scalar, rest: Text)
    requires |EscapeOne(c)| > 1
    ensures EscapeOne(c)[0] == 92 && ReadEscape(EscapeOne(c)[1..] + rest) == Some((c, |EscapeOne(c)| - 1))
  {
  }

  lemma OneRead(c: Scalar, rest: Text)
    ensures ReadString(EscapeOne(c) + rest) ==
      match ReadString(rest) { case None => None case Some(s) => Some(([c] + s.0, s.1)) }
  {
    var e := EscapeOne(c);
    if |e| > 1 {
      EscapeRead(c, rest);
      assert (e + rest)[1..] == e[1..] + rest && (e + rest)[|e|..] == rest;
    } else {
      assert (e + rest)[1..] == rest;
    }
  }

  lemma QuoteRead(rest: Text)
    ensures ReadString([34] + rest) == Some(([], rest))
  {
  }

  lemma {:induction false} StringRead(t: Text, rest: Text)
    ensures ReadString(Escape(t) + ([34] + rest)) == Some((t, rest))
  {
    hide EscapeOne, ReadString;
    if t == [] {
      QuoteRead(rest);
      assert Escape(t) + ([34] + rest) == [34] + rest;
    } else {
      StringRead(t[1..], rest);
      OneRead(t[0], Escape(t[1..]) + ([34] + rest));
      assert Escape(t) + ([34] + rest) == EscapeOne(t[0]) + (Escape(t[1..]) + ([34] + rest));
      assert [t[0]] + t[1..] == t;
    }
  }

  lemma QuotedRead(t: Text, rest: Text)
    ensures (Quoted(t) + rest)[0] == 34 && ReadString((Quoted(t) + rest)[1..]) == Some((t, rest))
  {
    StringRead(t, rest);
    assert (Quoted(t) + rest)[1..] == Escape(t) + ([34] + rest);
  }

  lemma AtomRead(t: Text, rest: Text)
    requires IsAtom(t) && (rest == [] || Ends(rest[0]))
    ensures ReadValue(t + rest) == Some((Atomic(t), rest))
  {
    AtomEnds(t, rest);
    assert t[0] in t && (t + rest)[..|t|] == t && (t + rest)[|t|..] == rest;
  }

  lemma AtomEnds(t: Text, rest: Text)
    requires IsAtom(t) && (rest == [] || Ends(rest[0]))
    ensures AtomLength(t + rest) == |t|
  {
    assert forall i :: 0 <= i < |t| ==> (t + rest)[i] == t[i] && t[i] in t;
    assert rest != [] ==> (t + rest)[|t|] == rest[0];
  }

  lemma ItemsStart(items: seq<Json>)
    requires items != []
    ensures SerialiseItems(items) != [] && SerialiseItems(items)[0] != 93
  {
    FirstCharacter(items[0]);
    NotClosing(items[0]);
  }

  lemma NotClosing(v: Json)
    ensures Serialise(v) != [] && Serialise(v)[0] != 93
  {
    if v.Atomic? {
      assert v.name[0] in v.name;
    }
  }

  lemma MembersStart(members: seq<Member>)
    requires members != []
    ensures SerialiseMembers(members) != [] && SerialiseMembers(members)[0] == 34
  {
  }

  lemma ArrayRead(items: seq<Json>, rest: Text)
    requires items != [] ==> ReadItems(SerialiseItems(items) + ([93] + rest)) == Some((items, rest))
    ensures ReadValue(Serialise(Arr(items)) + rest) == Some((Arr(items), rest))
  {
    hide SerialiseItems, ReadItems, ReadMembers, ReadString;
    var text := Serialise(Arr(items)) + rest;
    if items == [] {
      assert SerialiseItems(items) == [] by {
        NothingSerialised();
      }
      assert text == [91, 93] + rest;
    } else {
      ItemsStart(items);
      assert text[1..] == SerialiseItems(items) + ([93] + rest);
    }
  }

  lemma NothingSerialised()
    ensures SerialiseItems([]) == [] && SerialiseMembers([]) == []
  {
  }

  lemma ObjectRead(members: seq<Member>, rest: Text)
    requires members != [] ==> ReadMembers(SerialiseMembers(members) + ([125] + rest)) == Some((members, rest))
    ensures ReadValue(Serialise(Obj(members)) + rest) == Some((Obj(members), rest))
  {
    hide SerialiseMembers, ReadItems, ReadMembers, ReadString;
    var text := Serialise(Obj(members)) + rest;
    if members == [] {
      assert SerialiseMembers(members) == [] by {
        NothingSerialised();
      }
      assert text == [123, 125] + rest;
    } else {
      MembersStart(members);
      assert text[1..] == SerialiseMembers(members) + ([125] + rest);
    }
  }

  /** A serialised value is read to its end, whatever follows; after a number or a name something that ends it must follow. */
  lemma {:induction false} ValueRead(v: Json, rest: Text)
    requires v.Atomic? ==> rest == [] || Ends(rest[0])
    ensures ReadValue(Serialise(v) + rest) == Some((v, rest))
    decreases v, 1
  {
    match v
    case Atomic(t) => AtomRead(t, rest);
    case Str(t) => TextRead(t, rest);
    case Arr(items) =>
      if items != [] {
        ItemsRead(items, rest);
      }
      ArrayRead(items, rest);
    case Obj(members) =>
      if members != [] {
        MembersRead(members, rest);
      }
      ObjectRead(members, rest);
  }

  lemma TextRead(t: Text, rest: Text)
    ensures ReadValue(Quoted(t) + rest) == Some((Str(t), rest))
  {
    hide ReadString, Escape;
    QuotedRead(t, rest);
  }

  lemma {:induction false} ItemsRead(items: seq<Json>, rest: Text)
    requires items != []
    ensures ReadItems(SerialiseItems(items) + ([93] + rest)) == Some((items, rest))
    decreases items, 0
  {
    hide ReadValue, Serialise;
    if |items| == 1 {
      ValueRead(items[0], [93] + rest);
      assert SerialiseItems(items) + ([93] + rest) == Serialise(items[0]) + ([93] + rest);
      assert items == [items[0]];
    } else {
      var later := SerialiseItems(items[1..]) + ([93] + rest);
      ValueRead(items[0], [44] + later);
      ItemsRead(items[1..], rest);
      assert items == [items[0]] + items[1..];
      assert SerialiseItems(items) + ([93] + rest) == Serialise(items[0]) + ([44] + later);
      assert ([44] + later)[1..] == later;
    }
  }

  lemma {:induction false} MemberRead(m: Member, rest: Text)
    requires rest != [] && Ends(rest[0])
    ensures ReadMember(SerialiseMember(m) + rest) == Some((m, rest))
    decreases m, 2
  {
    hide ReadValue, Serialise, ReadString, Quoted;
    var later := [58] + (Serialise(m.value) + rest);
    QuotedRead(m.key, later);
    ValueRead(m.value, rest);
    assert SerialiseMember(m) + rest == Quoted(m.key) + later;
    assert later[1..] == Serialise(m.value) + rest;
  }

  lemma {:induction false} MembersRead(members: seq<Member>, rest: Text)
    requires members != []
    ensures ReadMembers(SerialiseMembers(members) + ([125] + rest)) == Some((members, rest))
    decreases members, 0
  {
    hide ReadMember, SerialiseMember;
    if |members| == 1 {
      MemberRead(members[0], [125] + rest);
      assert SerialiseMembers(members) + ([125] + rest) == SerialiseMember(members[0]) + ([125] + rest);
      assert members == [members[0]];
    } else {
      var later := SerialiseMembers(members[1..]) + ([125] + rest);
      MemberRead(members[0], [44] + later);
      MembersRead(members[1..], rest);
      assert members == [members[0]] + members[1..];
      assert SerialiseMembers(members) + ([125] + rest) == SerialiseMember(members[0]) + ([44] + later);
      assert ([44] + later)[1..] == later;
    }
  }

  /** Reading a serialised value gives the value back, and nothing is left over. */
  lemma ReadingInvertsSerialising(v: Json)
    ensures ReadValue(Serialise(v)) == Some((v, []))
  {
    hide ReadValue, Serialise;
    ValueRead(v, []);
    assert Serialise(v) + [] == Serialise(v);
  }

  /** So a received message names exactly one value. */
  lemma SerialisingIsInjective(v: Json, w: Json)
    requires Serialise(v) == Serialise(w)
    ensures v == w
  {
    hide ReadValue, Serialise;
    ReadingInvertsSerialising(v);
    ReadingInvertsSerialising(w);
  }
}
