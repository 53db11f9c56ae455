/** UTF-8 as RFC 3629 section 3 lays it out: encoding scalar values, and decoding that refuses anything else. */
module Utf8 {
  import opened Wrappers

  newtype Byte = b: int | 0 <= b < 256

  /** A Unicode scalar value. */
  type Scalar = c: int | 0 <= c < 0x11_0000 && !(0xD800 <= c < 0xE000)

  function EncodeOne(c: Scalar): (bytes: seq<Byte>)
    ensures 1 <= |bytes| <= 4
  {
    if c < 0x80 then [c as Byte]
    else if c < 0x800 then [(0xC0 + c / 64) as Byte, (0x80 + c % 64) as Byte]
    else if c < 0x1_0000 then [(0xE0 + c / 4096) as Byte, (0x80 + c / 64 % 64) as Byte, (0x80 + c % 64) as Byte]
    else [(0xF0 + c / 262144) as Byte, (0x80 + c / 4096 % 64) as Byte, (0x80 + c / 64 % 64) as Byte, (0x80 + c % 64) as Byte]
  }

  function Encode(text: seq<Scalar>): seq<Byte> {
    if text == [] then [] else EncodeOne(text[0]) + Encode(text[1..])
  }

  /** How many bytes the lead byte announces; 0 for a byte that cannot lead. */
  function Announced(lead: Byte): nat {
    if lead < 0x80 then 1
    else if lead < 0xC2 then 0
    else if lead < 0xE0 then 2
    else if lead < 0xF0 then 3
    else if lead < 0xF5 then 4
    else 0
  }

  predicate Continues(b: Byte) {
    0x80 <= b < 0xC0
  }

  /** The bytes after the lead byte are continuation bytes. */
  predicate AllContinue(bytes: seq<Byte>, n: nat)
    requires n <= |bytes|
  {
    && (n > 1 ==> Continues(bytes[1]))
    && (n > 2 ==> Continues(bytes[2]))
    && (n > 3 ==> Continues(bytes[3]))
  }

  function Low(b: Byte): int {
    b as int % 64
  }

  /** The scalar value at the front of the bytes, if they start with the full encoding of one. */
  function DecodeOne(bytes: seq<Byte>): (r: Option<Scalar>)
    ensures r.Some? ==> bytes != [] && 1 <= Announced(bytes[0]) <= |bytes|
  {
    if bytes == [] then None
    else
      var n := Announced(bytes[0]);
      if n == 0 || |bytes| < n || !AllContinue(bytes, n) then None
      else
        var lead := bytes[0] as int;
        var c := if n == 1 then lead
          else if n == 2 then (lead - 0xC0) * 64 + Low(bytes[1])
          else if n == 3 then (lead - 0xE0) * 4096 + Low(bytes[1]) * 64 + Low(bytes[2])
          else (lead - 0xF0) * 262144 + Low(bytes[1]) * 4096 + Low(bytes[2]) * 64 + Low(bytes[3]);
        if (n == 3 && c < 0x800) || (n == 4 && c < 0x1_0000) || 0xD800 <= c < 0xE000 || 0x11_0000 <= c then None else Some(c)
  }

  function Decode(bytes: seq<Byte>): Option<seq<Scalar>>
    decreases |bytes|
  {
    if bytes == [] then Some([])
    else
      match DecodeOne(bytes)
      case None => None
      case Some(c) =>
        match Decode(bytes[Announced(bytes[0])..])
        case None => None
        case Some(rest) => Some([c] + rest)
  }

  lemma AnnouncedLength(c: Scalar)
    ensures Announced(EncodeOne(c)[0]) == |EncodeOne(c)|
  {
  }

  lemma TwoBytes(c: Scalar)
    requires 0x80 <= c < 0x800
    ensures DecodeOne(EncodeOne(c)) == Some(c)
  {
  }

  lemma ThreeBytes(c: Scalar)
    requires 0x800 <= c < 0x1_0000
    ensures DecodeOne(EncodeOne(c)) == Some(c)
  {
    var e := EncodeOne(c);
    assert Low(e[1]) == c / 64 % 64 && Low(e[2]) == c % 64;
    assert c == c / 4096 * 4096 + c / 64 % 64 * 64 + c % 64;
  }

  lemma FourBytes(c: Scalar)
    requires 0x1_0000 <= c
    ensures DecodeOne(EncodeOne(c)) == Some(c)
  {
    var e := EncodeOne(c);
    assert Low(e[1]) == c / 4096 % 64 && Low(e[2]) == c / 64 % 64 && Low(e[3]) == c % 64;
    FourDigits(c);
  }

  lemma DividedTwice(c: int)
    ensures c / 64 / 64 == c / 4096 && c / 4096 / 64 == c / 262144
  {
  }

  lemma FourDigits(c: int)
    ensures c == c / 262144 * 262144 + c / 4096 % 64 * 4096 + c / 64 % 64 * 64 + c % 64
  {
    DividedTwice(c);
    var a, b, d := c / 64, c / 4096, c / 262144;
    assert c == a * 64 + c % 64 && a == b * 64 + a % 64 && b == d * 64 + b % 64;
  }

  /** Only the announced bytes matter. */
  lemma DecodeOneOfFront(bytes: seq<Byte>, rest: seq<Byte>)
    requires bytes != [] && Announced(bytes[0]) == |bytes|
    ensures DecodeOne(bytes + rest) == DecodeOne(bytes)
  {
  }

  lemma DecodeOneOfEncoded(c: Scalar, rest: seq<Byte>)
    ensures DecodeOne(EncodeOne(c) + rest) == Some(c)
    ensures Decode(EncodeOne(c) + rest) == match Decode(rest) { case None => None case Some(t) => Some([c] + t) }
  {
    var e := EncodeOne(c);
    AnnouncedLength(c);
    DecodeOneOfFront(e, rest);
    if 0x80 <= c < 0x800 {
      TwoBytes(c);
    } else if 0x800 <= c < 0x1_0000 {
      ThreeBytes(c);
    } else if 0x1_0000 <= c {
      FourBytes(c);
    }
    assert (e + rest)[0] == e[0] && (e + rest)[|e|..] == rest;
  }

  /** Part of one encoded scalar value is not the encoding of anything. */
  lemma PartOfOneIsRefused(c: Scalar, n: nat)
    requires 0 < n < |EncodeOne(c)|
    ensures Decode(EncodeOne(c)[..n]) == None
  {
  }

  lemma {:induction false} DecodeOfEncoded(text: seq<Scalar>)
    ensures Decode(Encode(text)) == Some(text)
  {
    if text != [] {
      hide EncodeOne, DecodeOne, Decode;
      DecodeOfEncoded(text[1..]);
      DecodeOneOfEncoded(text[0], Encode(text[1..]));
      assert [text[0]] + text[1..] == text;
    } else {
      assert Encode(text) == [];
    }
  }

  lemma DecodedOneIsEncoded(bytes: seq<Byte>)
    requires DecodeOne(bytes).Some?
    ensures EncodeOne(DecodeOne(bytes).value) == bytes[..Announced(bytes[0])]
  {
    var c, n := DecodeOne(bytes).value, Announced(bytes[0]);
    if n == 2 {
      DecodedTwo(bytes[0], bytes[1], c);
    } else if n == 3 {
      DecodedThree(bytes[0], bytes[1], bytes[2], c);
    } else if n == 4 {
      DecodedFour(bytes[0], bytes[1], bytes[2], bytes[3], c);
    }
  }

  lemma DecodedTwo(a: Byte, b: Byte, c: Scalar)
    requires 0xC2 <= a < 0xE0 && Continues(b) && c == (a as int - 0xC0) * 64 + Low(b)
    ensures EncodeOne(c) == [a, b]
  {
    assert c / 64 == a as int - 0xC0 && c % 64 == Low(b);
  }

  lemma DecodedThree(a: Byte, b: Byte, d: Byte, c: Scalar)
    requires 0xE0 <= a < 0xF0 && Continues(b) && Continues(d) && 0x800 <= c
    requires c == (a as int - 0xE0) * 4096 + Low(b) * 64 + Low(d)
    ensures EncodeOne(c) == [a, b, d]
  {
    assert c / 64 == (a as int - 0xE0) * 64 + Low(b) && c % 64 == Low(d);
    DividedTwice(c);
    assert c / 64 / 64 == a as int - 0xE0 && c / 64 % 64 == Low(b);
  }

  lemma DecodedFour(a: Byte, b: Byte, d: Byte, e: Byte, c: Scalar)
    requires 0xF0 <= a < 0xF5 && Continues(b) && Continues(d) && Continues(e) && 0x1_0000 <= c
    requires c == (a as int - 0xF0) * 262144 + Low(b) * 4096 + Low(d) * 64 + Low(e)
    ensures EncodeOne(c) == [a, b, d, e]
  {
    assert c / 64 == (a as int - 0xF0) * 4096 + Low(b) * 64 + Low(d) && c % 64 == Low(e);
    DividedTwice(c);
    assert c / 64 / 64 == (a as int - 0xF0) * 64 + Low(b) && c / 64 % 64 == Low(d);
    assert c / 4096 / 64 == a as int - 0xF0 && c / 4096 % 64 == Low(b);
  }

  /** Nothing but the encoding of a text decodes to it. */
  lemma {:induction false} EncodedOfDecoded(bytes: seq<Byte>)
    requires Decode(bytes).Some?
    ensures Encode(Decode(bytes).value) == bytes
    decreases |bytes|
  {
    if bytes != [] {
      hide EncodeOne, DecodeOne;
      var n := Announced(bytes[0]);
      DecodedOneIsEncoded(bytes);
      EncodedOfDecoded(bytes[n..]);
      var c, rest := DecodeOne(bytes).value, Decode(bytes[n..]).value;
      assert ([c] + rest)[1..] == rest;
      assert bytes[..n] + bytes[n..] == bytes;
    }
  }

  /** Texts of RFC 3629, section 7: one, two, three and four bytes for a character. */
  lemma EncodedExamples()
    ensures Encode([0x41, 0x2262, 0x391, 0x2E]) == [0x41, 0xE2, 0x89, 0xA2, 0xCE, 0x91, 0x2E]
    ensures Encode([0x233B4]) == [0xF0, 0xA3, 0x8E, 0xB4]
  {
    assert [0x41, 0x2262, 0x391, 0x2E][1..] == [0x2262, 0x391, 0x2E] && [0x2262, 0x391, 0x2E][1..] == [0x391, 0x2E];
    assert Encode([0x391, 0x2E]) == [0xCE, 0x91, 0x2E];
  }

  /** A proper prefix of encoded text decodes to a proper prefix of the text, if it decodes at all. */
  lemma {:induction false} DecodedPrefix(text: seq<Scalar>, n: nat)
    requires n < |Encode(text)|
    ensures Decode(Encode(text)[..n]).Some? ==> Decode(Encode(text)[..n]).value < text
  {
    hide DecodeOne, EncodeOne;
    var one, rest := EncodeOne(text[0]), Encode(text[1..]);
    if n < |one| {
      assert (one + rest)[..n] == one[..n];
      if n > 0 {
        PartOfOneIsRefused(text[0], n);
      }
    } else {
      assert (one + rest)[..n] == one + rest[..n - |one|];
      DecodeOneOfEncoded(text[0], rest[..n - |one|]);
      DecodedPrefix(text[1..], n - |one|);
    }
  }
}
