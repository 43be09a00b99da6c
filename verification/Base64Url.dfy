/** Unpadded base64url (Base64UrlEncode in src/calendar/util/encoding.cpp), with the decoder that
    reads it back. */
module Base64Url {
  import opened Wrappers
  import opened Query

  // ---------- the alphabet ----------

  const UPPER: string := "ABCDEFGHIJKLMNOPQRSTUVWXYZ"
  const LOWER: string := "abcdefghijklmnopqrstuvwxyz"
  const REST: string := "0123456789-_"
  const ALPHABET: string := UPPER + LOWER + REST

  /** An unsigned byte, and the six-bit values it is cut into. */
  type Byte = b: int | 0 <= b < 256
  type Sextet = s: int | 0 <= s < 64

  /** The URL-safe alphabet of section 5 of RFC 4648, by value; the code keeps it as the table ALPHABET. */
  function Base64UrlChar(sextet: Sextet): char {
    if sextet < 26 then ('A' as int + sextet) as char
    else if sextet < 52 then ('a' as int + sextet - 26) as char
    else if sextet < 62 then ('0' as int + sextet - 52) as char
    else if sextet == 62 then '-'
    else '_'
  }

  function SextetOf(c: char): Option<Sextet> {
    if 'A' <= c <= 'Z' then Some(c as int - 'A' as int)
    else if 'a' <= c <= 'z' then Some(c as int - 'a' as int + 26)
    else if '0' <= c <= '9' then Some(c as int - '0' as int + 52)
    else if c == '-' then Some(62)
    else if c == '_' then Some(63)
    else None
  }

  lemma UpperIndex(n: int)
    requires 0 <= n < 26
    ensures UPPER[n] as int == 'A' as int + n
  {
    assert n == 0 || n == 1 || n == 2 || n == 3 || n == 4 || n == 5 || n == 6 || n == 7 || n == 8 || n == 9
           || n == 10 || n == 11 || n == 12 || n == 13 || n == 14 || n == 15 || n == 16 || n == 17 || n == 18
           || n == 19 || n == 20 || n == 21 || n == 22 || n == 23 || n == 24 || n == 25;
  }

  lemma LowerIndex(n: int)
    requires 0 <= n < 26
    ensures LOWER[n] as int == 'a' as int + n
  {
    assert n == 0 || n == 1 || n == 2 || n == 3 || n == 4 || n == 5 || n == 6 || n == 7 || n == 8 || n == 9
           || n == 10 || n == 11 || n == 12 || n == 13 || n == 14 || n == 15 || n == 16 || n == 17 || n == 18
           || n == 19 || n == 20 || n == 21 || n == 22 || n == 23 || n == 24 || n == 25;
  }

  lemma AlphabetIsTheTable(sextet: Sextet)
    ensures Base64UrlChar(sextet) == ALPHABET[sextet]
  {
    var n: int := sextet;
    if n < 26 {
      UpperIndex(n);
    } else if n < 52 {
      LowerIndex(n - 26);
    } else {
      assert ALPHABET[n] == REST[n - 52];
      assert n == 52 || n == 53 || n == 54 || n == 55 || n == 56 || n == 57 || n == 58 || n == 59
             || n == 60 || n == 61 || n == 62 || n == 63;
    }
  }

  /** Each value has its own character, which needs no percent-encoding. */
  lemma AlphabetRoundTrip(sextet: Sextet)
    ensures SextetOf(Base64UrlChar(sextet)) == Some(sextet) && IsUnreserved(Base64UrlChar(sextet))
  {
  }

  /** Every character of the alphabet stands for one value only. */
  lemma AlphabetInjective(c: char)
    requires SextetOf(c).Some?
    ensures Base64UrlChar(SextetOf(c).value) == c
  {
    var d := Base64UrlChar(SextetOf(c).value);
    AlphabetRoundTrip(SextetOf(c).value);
    assert d as int == c as int;
  }

  // ---------- three bytes, four sextets ----------

  function First(b0: Byte): Sextet {
    b0 / 4
  }

  function Second(b0: Byte, b1: Byte): Sextet {
    b0 % 4 * 16 + b1 / 16
  }

  function Third(b1: Byte, b2: Byte): Sextet {
    b1 % 16 * 4 + b2 / 64
  }

  function Fourth(b2: Byte): Sextet {
    b2 % 64
  }

  function Byte0(s0: Sextet, s1: Sextet): Byte {
    s0 * 4 + s1 / 16
  }

  function Byte1(s1: Sextet, s2: Sextet): Byte {
    s1 % 16 * 16 + s2 / 4
  }

  function Byte2(s2: Sextet, s3: Sextet): Byte {
    s2 % 4 * 64 + s3
  }

  lemma BytesRestored(b0: Byte, b1: Byte, b2: Byte)
    ensures Byte0(First(b0), Second(b0, b1)) == b0
    ensures Byte1(Second(b0, b1), Third(b1, b2)) == b1
    ensures Byte2(Third(b1, b2), Fourth(b2)) == b2
  {
  }

  lemma SextetsRestored(s0: Sextet, s1: Sextet, s2: Sextet, s3: Sextet)
    ensures First(Byte0(s0, s1)) == s0
    ensures Second(Byte0(s0, s1), Byte1(s1, s2)) == s1
    ensures Third(Byte1(s1, s2), Byte2(s2, s3)) == s2
    ensures Fourth(Byte2(s2, s3)) == s3
  {
  }

  lemma TailsRestored(s0: Sextet, s1: Sextet, s2: Sextet)
    ensures s1 % 16 == 0 ==> Second(Byte0(s0, s1), 0) == s1
    ensures s2 % 4 == 0 ==> Third(Byte1(s1, s2), 0) == s2
  {
  }

  /** The bits of the last sextet that carry no data are zero. */
  lemma TailsZero(b0: Byte, b1: Byte)
    ensures Second(b0, 0) % 16 == 0 && Third(b1, 0) % 4 == 0
  {
  }

  // ---------- masks and shifts ----------

  function TopSix(b: bv8): bv8 {
    (b & 0xFC) >> 2
  }

  function BottomTwoTopFour(b: bv8, c: bv8): bv8 {
    ((b & 0x03) << 4) | ((c & 0xF0) >> 4)
  }

  function BottomFourTopTwo(b: bv8, c: bv8): bv8 {
    ((b & 0x0F) << 2) | ((c & 0xC0) >> 6)
  }

  function BottomSix(b: bv8): bv8 {
    b & 0x3F
  }

  lemma OrOfDisjointBits(x: bv8, y: bv8)
    requires x & y == 0
    ensures (x | y) as int == x as int + y as int
  {
  }

  lemma MaskParts(b: bv8)
    ensures ((b & 0x03) << 4) as int == b as int % 4 * 16
    ensures ((b & 0x0F) << 2) as int == b as int % 16 * 4
    ensures ((b & 0xF0) >> 4) as int == b as int / 16
    ensures ((b & 0xC0) >> 6) as int == b as int / 64
  {
  }

  /** The masks and shifts cut bytes as division and remainder do. */
  lemma TopSixDivides(b: bv8)
    ensures TopSix(b) as int == First(b as int)
    ensures BottomSix(b) as int == Fourth(b as int)
  {
  }

  lemma TwoAndFour(b: bv8, c: bv8)
    ensures BottomTwoTopFour(b, c) as int == Second(b as int, c as int)
  {
    MaskParts(b);
    MaskParts(c);
    assert ((b & 0x03) << 4) & ((c & 0xF0) >> 4) == 0;
    OrOfDisjointBits((b & 0x03) << 4, (c & 0xF0) >> 4);
  }

  lemma FourAndTwo(b: bv8, c: bv8)
    ensures BottomFourTopTwo(b, c) as int == Third(b as int, c as int)
  {
    MaskParts(b);
    MaskParts(c);
    assert ((b & 0x0F) << 2) & ((c & 0xC0) >> 6) == 0;
    OrOfDisjointBits((b & 0x0F) << 2, (c & 0xC0) >> 6);
  }

  // ---------- byte strings ----------

  function Quad(b0: Byte, b1: Byte, b2: Byte): (t: string)
    ensures |t| == 4
  {
    [Base64UrlChar(First(b0)), Base64UrlChar(Second(b0, b1)), Base64UrlChar(Third(b1, b2)), Base64UrlChar(Fourth(b2))]
  }

  function ByteAt(data: seq<Byte>, i: nat): Byte {
    if i < |data| then data[i] else 0
  }

  /** The characters of the first three bytes; one byte takes two characters and two take three. */
  function Head(data: seq<Byte>): string
    requires |data| > 0
  {
    var quad := Quad(data[0], ByteAt(data, 1), ByteAt(data, 2));
    if |data| > 2 then quad else quad[..|data| + 1]
  }

  function Rest(data: seq<Byte>): seq<Byte> {
    if |data| > 3 then data[3..] else []
  }

  function Encode(data: seq<Byte>): string
    decreases |data|
  {
    if data == [] then [] else Head(data) + Encode(Rest(data))
  }

  lemma OneQuad(data: seq<Byte>)
    requires 0 < |data| <= 3
    ensures Encode(data) == Head(data)
  {
    assert Encode(Rest(data)) == [];
  }

  /** The vectors of section 10 of RFC 4648 for one, two and three bytes, without padding, and one that
      needs both characters in which the URL-safe alphabet differs. */
  lemma KnownVectors()
    ensures Encode([102]) == "Zg"
    ensures Encode([102, 111]) == "Zm8"
    ensures Encode([102, 111, 111]) == "Zm9v"
    ensures Encode([251, 239, 255]) == "--__"
  {
    OneQuad([102]);
    OneQuad([102, 111]);
    OneQuad([102, 111, 111]);
    OneQuad([251, 239, 255]);
  }

  /** The strict decoder: no padding, and the unused bits of the last character must be zero (section
      3.5 of RFC 4648). */
  function Decode(t: string): Option<seq<Byte>> {
    if |t| == 0 then Some([])
    else if |t| == 1 then None
    else
      var s0, s1 := SextetOf(t[0]), SextetOf(t[1]);
      if s0.None? || s1.None? then None
      else if |t| == 2 then
        if s1.value % 16 == 0 then Some([Byte0(s0.value, s1.value)]) else None
      else
        var s2 := SextetOf(t[2]);
        if s2.None? then None
        else if |t| == 3 then
          if s2.value % 4 == 0 then Some([Byte0(s0.value, s1.value), Byte1(s1.value, s2.value)]) else None
        else
          var s3, rest := SextetOf(t[3]), Decode(t[4..]);
          if s3.None? || rest.None? then None
          else
            Some([Byte0(s0.value, s1.value), Byte1(s1.value, s2.value), Byte2(s2.value, s3.value)] + rest.value)
  }

  lemma QuadRoundTrip(b0: Byte, b1: Byte, b2: Byte)
    ensures var t := Quad(b0, b1, b2);
            && SextetOf(t[0]) == Some(First(b0)) && SextetOf(t[1]) == Some(Second(b0, b1))
            && SextetOf(t[2]) == Some(Third(b1, b2)) && SextetOf(t[3]) == Some(Fourth(b2))
            && (forall i :: 0 <= i < 4 ==> IsUnreserved(t[i]))
  {
    AlphabetRoundTrip(First(b0));
    AlphabetRoundTrip(Second(b0, b1));
    AlphabetRoundTrip(Third(b1, b2));
    AlphabetRoundTrip(Fourth(b2));
  }

  lemma DecodeTwo(t: string, s0: Sextet, s1: Sextet)
    requires |t| == 2 && SextetOf(t[0]) == Some(s0) && SextetOf(t[1]) == Some(s1) && s1 % 16 == 0
    ensures Decode(t) == Some([Byte0(s0, s1)])
  {
  }

  lemma DecodeThree(t: string, s0: Sextet, s1: Sextet, s2: Sextet)
    requires |t| == 3 && SextetOf(t[0]) == Some(s0) && SextetOf(t[1]) == Some(s1) && SextetOf(t[2]) == Some(s2)
    requires s2 % 4 == 0
    ensures Decode(t) == Some([Byte0(s0, s1), Byte1(s1, s2)])
  {
  }

  lemma OneByteRoundTrip(b0: Byte, b1: Byte, b2: Byte)
    requires b1 == 0
    ensures Decode(Quad(b0, b1, b2)[..2]) == Some([b0])
  {
    QuadRoundTrip(b0, b1, b2);
    BytesRestored(b0, b1, b2);
    TailsZero(b0, b1);
    DecodeTwo(Quad(b0, b1, b2)[..2], First(b0), Second(b0, b1));
  }

  lemma TwoByteRoundTrip(b0: Byte, b1: Byte, b2: Byte)
    requires b2 == 0
    ensures Decode(Quad(b0, b1, b2)[..3]) == Some([b0, b1])
  {
    QuadRoundTrip(b0, b1, b2);
    BytesRestored(b0, b1, b2);
    TailsZero(b0, b1);
    DecodeThree(Quad(b0, b1, b2)[..3], First(b0), Second(b0, b1), Third(b1, b2));
  }

  lemma DecodeQuad(b0: Byte, b1: Byte, b2: Byte, t: string)
    requires Decode(t).Some?
    ensures Decode(Quad(b0, b1, b2) + t) == Some([b0, b1, b2] + Decode(t).value)
  {
    var quad := Quad(b0, b1, b2);
    QuadRoundTrip(b0, b1, b2);
    BytesRestored(b0, b1, b2);
    assert (quad + t)[4..] == t;
    assert forall i :: 0 <= i < 4 ==> (quad + t)[i] == quad[i];
  }

  lemma ShortHead(data: seq<Byte>)
    requires 0 < |data| <= 2
    ensures Decode(Head(data)) == Some(data) && Rest(data) == []
  {
    if |data| == 1 {
      OneByteRoundTrip(data[0], ByteAt(data, 1), ByteAt(data, 2));
      assert data == [data[0]];
    } else {
      TwoByteRoundTrip(data[0], data[1], ByteAt(data, 2));
      assert data == [data[0], data[1]];
    }
  }

  lemma HeadIsQuad(data: seq<Byte>)
    requires |data| > 2
    ensures Head(data) == Quad(data[0], data[1], data[2])
  {
  }

  lemma ThreeAndRest(data: seq<Byte>)
    requires |data| > 2
    ensures [data[0], data[1], data[2]] + Rest(data) == data
  {
  }

  lemma LongHead(data: seq<Byte>, t: string)
    requires |data| > 2 && Decode(t) == Some(Rest(data))
    ensures Decode(Head(data) + t) == Some(data)
  {
    HeadIsQuad(data);
    ThreeAndRest(data);
    DecodeQuad(data[0], data[1], data[2], t);
  }

  /** Decoding what was encoded gives back every byte string. */
  lemma {:induction false} RoundTrip(data: seq<Byte>)
    ensures Decode(Encode(data)) == Some(data)
    decreases |data|
  {
    if data == [] {
    } else {
      if |data| <= 2 {
        ShortHead(data);
        EncodeShort(data);
      } else {
        RoundTrip(Rest(data));
        LongHead(data, Encode(Rest(data)));
      }
    }
  }

  lemma QuadOfSextets(s0: Sextet, s1: Sextet, s2: Sextet, s3: Sextet)
    ensures Quad(Byte0(s0, s1), Byte1(s1, s2), Byte2(s2, s3))
         == [Base64UrlChar(s0), Base64UrlChar(s1), Base64UrlChar(s2), Base64UrlChar(s3)]
  {
    SextetsRestored(s0, s1, s2, s3);
  }

  lemma TailOfSextets(s0: Sextet, s1: Sextet, s2: Sextet)
    ensures s1 % 16 == 0 ==> Quad(Byte0(s0, s1), 0, 0)[..2] == [Base64UrlChar(s0), Base64UrlChar(s1)]
    ensures s2 % 4 == 0 ==>
              Quad(Byte0(s0, s1), Byte1(s1, s2), 0)[..3] == [Base64UrlChar(s0), Base64UrlChar(s1), Base64UrlChar(s2)]
  {
    SextetsRestored(s0, s1, s2, 0);
    TailsRestored(s0, s1, s2);
  }

  lemma TwoCharCanonical(t: string)
    requires |t| == 2 && Decode(t).Some?
    ensures |Decode(t).value| == 1 && Head(Decode(t).value) == t
  {
    AlphabetInjective(t[0]);
    AlphabetInjective(t[1]);
    TailOfSextets(SextetOf(t[0]).value, SextetOf(t[1]).value, 0);
    assert t == [t[0], t[1]];
  }

  lemma ThreeCharCanonical(t: string)
    requires |t| == 3 && Decode(t).Some?
    ensures |Decode(t).value| == 2 && Head(Decode(t).value) == t
  {
    AlphabetInjective(t[0]);
    AlphabetInjective(t[1]);
    AlphabetInjective(t[2]);
    TailOfSextets(SextetOf(t[0]).value, SextetOf(t[1]).value, SextetOf(t[2]).value);
    assert t == [t[0], t[1], t[2]];
  }

  lemma QuadCanonical(t: string)
    requires |t| > 3 && Decode(t).Some?
    ensures Decode(t[4..]).Some?
    ensures var data := Decode(t).value;
            |data| > 2 && Rest(data) == Decode(t[4..]).value && Head(data) == t[..4]
  {
    AlphabetInjective(t[0]);
    AlphabetInjective(t[1]);
    AlphabetInjective(t[2]);
    AlphabetInjective(t[3]);
    QuadOfSextets(SextetOf(t[0]).value, SextetOf(t[1]).value, SextetOf(t[2]).value, SextetOf(t[3]).value);
    assert t[..4] == [t[0], t[1], t[2], t[3]];
  }

  lemma EncodeShort(data: seq<Byte>)
    requires 0 < |data| <= 2
    ensures Encode(data) == Head(data)
  {
    assert Rest(data) == [] && Head(data) + [] == Head(data);
  }

  lemma EncodeAs(data: seq<Byte>, head: string, rest: string)
    requires data != [] && Head(data) == head && Encode(Rest(data)) == rest
    ensures Encode(data) == head + rest
  {
  }

  /** The decoder accepts nothing but encodings: what it decodes encodes back to the same text. */
  lemma {:induction false} Canonical(t: string)
    requires Decode(t).Some?
    ensures Encode(Decode(t).value) == t
  {
    if |t| == 2 {
      TwoCharCanonical(t);
      EncodeShort(Decode(t).value);
    } else if |t| == 3 {
      ThreeCharCanonical(t);
      EncodeShort(Decode(t).value);
    } else if |t| > 3 {
      QuadCanonical(t);
      Canonical(t[4..]);
      EncodeAs(Decode(t).value, t[..4], t[4..]);
      assert t[..4] + t[4..] == t;
    }
  }

  lemma HeadShape(data: seq<Byte>)
    requires |data| > 0
    ensures |Head(data)| == if |data| > 2 then 4 else |data| + 1
    ensures forall i :: 0 <= i < |Head(data)| ==> IsUnreserved(Head(data)[i]) && SextetOf(Head(data)[i]).Some?
  {
    QuadRoundTrip(data[0], ByteAt(data, 1), ByteAt(data, 2));
  }

  /** The encoding of n bytes has ceil(4n/3) characters, all from the URL-safe alphabet, so that
      percent-encoding leaves it as it is. */
  lemma {:induction false} Shape(data: seq<Byte>)
    ensures |Encode(data)| == (4 * |data| + 2) / 3
    ensures forall i :: 0 <= i < |Encode(data)| ==> IsUnreserved(Encode(data)[i]) && SextetOf(Encode(data)[i]).Some?
    decreases |data|
  {
    if |data| == 0 {
    } else {
      HeadShape(data);
      Shape(Rest(data));
    }
  }

  lemma UrlEncodingUnchanged(data: seq<Byte>)
    ensures IsBytes(Encode(data)) && Encoded(Encode(data)) == Encode(data)
  {
    Shape(data);
    UnreservedUnchanged(Encode(data));
  }

  function From(data: seq<Byte>, i: nat): seq<Byte> {
    if i < |data| then data[i..] else []
  }

  lemma EncodeStep(data: seq<Byte>, i: nat)
    requires i < |data|
    ensures Encode(From(data, i)) == Head(From(data, i)) + Encode(From(data, i + 3))
  {
    assert Rest(From(data, i)) == From(data, i + 3);
  }

  lemma HeadAt(data: seq<Byte>, i: nat)
    requires i < |data|
    ensures var b0, b1, b2 := data[i], ByteAt(data, i + 1), ByteAt(data, i + 2);
            Head(From(data, i)) == [Base64UrlChar(First(b0)), Base64UrlChar(Second(b0, b1))]
            + (if i + 1 < |data| then [Base64UrlChar(Third(b1, b2))] else [])
            + (if i + 2 < |data| then [Base64UrlChar(Fourth(b2))] else [])
  {
  }

  lemma AppendAssoc(a: string, b: string, c: string)
    ensures a + (b + c) == (a + b) + c
  {
  }

  method MaskTopSix(b: bv8) returns (sextet: int)
    ensures sextet == First(b as int)
  {
    TopSixDivides(b);
    sextet := TopSix(b) as int;
  }

  method MaskTwoAndFour(b: bv8, c: bv8) returns (sextet: int)
    ensures sextet == Second(b as int, c as int)
  {
    TwoAndFour(b, c);
    sextet := BottomTwoTopFour(b, c) as int;
  }

  method MaskFourAndTwo(b: bv8, c: bv8) returns (sextet: int)
    ensures sextet == Third(b as int, c as int)
  {
    FourAndTwo(b, c);
    sextet := BottomFourTopTwo(b, c) as int;
  }

  method MaskBottomSix(b: bv8) returns (sextet: int)
    ensures sextet == Fourth(b as int)
  {
    TopSixDivides(b);
    sextet := BottomSix(b) as int;
  }

  /** The values of a byte array. */
  function Values(data: seq<bv8>): (values: seq<Byte>)
    ensures |values| == |data|
    ensures forall i :: 0 <= i < |data| ==> values[i] == data[i] as int
  {
    seq(|data|, i requires 0 <= i < |data| => data[i] as int)
  }

  method Base64UrlEncode(data: seq<bv8>) returns (result: string)
    ensures result == Encode(Values(data))
  {
    result := [];
    ghost var values := Values(data);
    var i := 0;
    while i < |data|
      invariant result + Encode(From(values, i)) == Encode(values)
      decreases |data| - i
    {
      EncodeStep(values, i);
      HeadAt(values, i);
      var b0 := data[i];
      var b1 := if i + 1 < |data| then data[i + 1] else 0;
      var b2 := if i + 2 < |data| then data[i + 2] else 0;
      var s0 := MaskTopSix(b0);
      var s1 := MaskTwoAndFour(b0, b1);
      var piece := [Base64UrlChar(s0), Base64UrlChar(s1)];
      if i + 1 < |data| {
        var s2 := MaskFourAndTwo(b1, b2);
        piece := piece + [Base64UrlChar(s2)];
      }
      if i + 2 < |data| {
        var s3 := MaskBottomSix(b2);
        piece := piece + [Base64UrlChar(s3)];
      }
      assert piece == Head(From(values, i));
      AppendAssoc(result, piece, Encode(From(values, i + 3)));
      result := result + piece;
      i := i + 3;
    }
  }
}
