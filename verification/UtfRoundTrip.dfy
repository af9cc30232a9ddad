/** The two converters against each other, and the decoder against the standards. */
module UtfRoundTrip {
  import opened Utf8To16
  import opened Utf16To8

  // ---------- decode after encode ----------

  /** A lead byte followed by its extension bytes is decoded in full. */
  lemma TwoBytes(s: seq<Byte>, c: bv32)
    requires |s| >= 2 && !IsExtension(s[0]) && SeqLength(s[0]) == 2 && IsExtension(s[1])
    requires c == ShiftAndMask(s[0] as bv32 & 0x1f, s[1])
    ensures NextChar(s) == (c, 2)
  {
    assert Follow(c, s, 2, 2) == (c, 2);
  }

  lemma ThreeBytes(s: seq<Byte>, c1: bv32, c: bv32)
    requires |s| >= 3 && !IsExtension(s[0]) && SeqLength(s[0]) == 3 && IsExtension(s[1]) && IsExtension(s[2])
    requires c1 == ShiftAndMask(s[0] as bv32 & 0x0f, s[1]) && c == ShiftAndMask(c1, s[2])
    ensures NextChar(s) == (c, 3)
  {
    assert Follow(c, s, 3, 3) == (c, 3);
    assert Follow(c1, s, 2, 3) == (c, 3);
  }

  lemma FourBytes(s: seq<Byte>, c1: bv32, c2: bv32, c: bv32)
    requires |s| >= 4 && !IsExtension(s[0]) && SeqLength(s[0]) == 4
    requires IsExtension(s[1]) && IsExtension(s[2]) && IsExtension(s[3])
    requires c1 == ShiftAndMask(s[0] as bv32 & 0x07, s[1])
    requires c2 == ShiftAndMask(c1, s[2]) && c == ShiftAndMask(c2, s[3])
    ensures NextChar(s) == (c, 4)
  {
    assert Follow(c, s, 4, 4) == (c, 4);
    assert Follow(c2, s, 3, 4) == (c, 4);
    assert Follow(c1, s, 2, 4) == (c, 4);
  }

  lemma UnitDecodes(u: Unit, rest: seq<Byte>)
    ensures NextChar(EncodeUnit(u) + rest) == (u as bv32, |EncodeUnit(u)|)
    ensures !IsExtension(EncodeUnit(u)[0]) && SeqLength(EncodeUnit(u)[0]) == |EncodeUnit(u)|
  {
    var bs := EncodeUnit(u);
    if u > 0x07ff {
      UnitBits3(u, bs[0], bs[1], bs[2]);
      ThreeBytes(bs + rest, ShiftAndMask(bs[0] as bv32 & 0x0f, bs[1]), u as bv32);
    } else if u > 0x7f || u == 0 {
      UnitBits2(u, bs[0], bs[1]);
      TwoBytes(bs + rest, u as bv32);
    } else {
      UnitBits1(u, bs[0]);
    }
  }

  lemma UnitBits1(u: Unit, b: Byte)
    requires 0 < u <= 0x7f && b == u as Byte
    ensures !IsExtension(b) && SeqLength(b) == 1 && b as bv32 & 0xff == u as bv32
  {
  }

  lemma UnitBits2(u: Unit, b0: Byte, b1: Byte)
    requires u <= 0x07ff && b0 == ((u >> 6) | 0xc0) as Byte && b1 == ((u & 0x3f) | 0x80) as Byte
    ensures !IsExtension(b0) && SeqLength(b0) == 2 && IsExtension(b1)
    ensures ShiftAndMask(b0 as bv32 & 0x1f, b1) == u as bv32
  {
  }

  lemma UnitBits3(u: Unit, b0: Byte, b1: Byte, b2: Byte)
    requires b0 == ((u >> 12) | 0xe0) as Byte
    requires b1 == (((u >> 6) & 0x3f) | 0x80) as Byte && b2 == ((u & 0x3f) | 0x80) as Byte
    ensures !IsExtension(b0) && SeqLength(b0) == 3 && IsExtension(b1) && IsExtension(b2)
    ensures ShiftAndMask(ShiftAndMask(b0 as bv32 & 0x0f, b1), b2) == u as bv32
  {
  }

  lemma SmallCharIsOneUnit(u: Unit)
    ensures UnitsOf(u as bv32) == [u]
  {
  }

  /** A decoded unit comes off the front. */
  lemma PeelUnit(s: seq<Byte>, head: seq<Byte>, rest: seq<Byte>, u: Unit)
    requires s == head + rest && head != [] && NextChar(s) == (u as bv32, |head|) && SeqLength(s[0]) < 4
    ensures Decode(s) == [u] + Decode(rest) && Shortfall(s) == Shortfall(rest)
  {
    assert s[|head|..] == rest;
    SmallCharIsOneUnit(u);
  }

  /** Every sequence of 16-bit units comes back unchanged: zeros, surrogate pairs and lone surrogates
      alike; and the measured length is exactly the original length. */
  lemma {:induction false} RoundTrip(us: seq<Unit>)
    ensures Decode(Encode(us)) == us
    ensures Shortfall(Encode(us)) == 0
    ensures Measure(Encode(us), 0) == Counted(Encode(us), 0) == |us|
  {
    if us != [] {
      RoundTrip(us[1..]);
      EncodedPeels(us[0], Encode(us[1..]));
      EncodedCounts(us[0], Encode(us[1..]));
      assert us == [us[0]] + us[1..];
    }
    MeasureIsExact(Encode(us));
  }

  lemma EncodedPeels(u: Unit, rest: seq<Byte>)
    ensures Decode(EncodeUnit(u) + rest) == [u] + Decode(rest)
    ensures Shortfall(EncodeUnit(u) + rest) == Shortfall(rest)
  {
    UnitDecodes(u, rest);
    assert (EncodeUnit(u) + rest)[0] == EncodeUnit(u)[0];
    PeelUnit(EncodeUnit(u) + rest, EncodeUnit(u), rest, u);
  }

  /** The counter is back at zero after every encoded unit. */
  lemma EncodedCounts(u: Unit, rest: seq<Byte>)
    ensures Counted(EncodeUnit(u) + rest, 0) == 1 + Counted(rest, 0)
  {
    var bs := EncodeUnit(u);
    var s := bs + rest;
    UnitDecodes(u, rest);
    assert s[0] == bs[0] && s[|bs|..] == rest && s[1..] == bs[1..] + rest;
    if u > 0x07ff {
      UnitBits3(u, bs[0], bs[1], bs[2]);
      assert s[1..][0] == bs[1] && s[2..][0] == bs[2];
      assert s[1..][1..] == s[2..] && s[2..][1..] == rest;
      assert Counted(s[2..], 1) == Counted(rest, 0);
      assert Counted(s[1..], 2) == Counted(s[2..], 1);
    } else if u > 0x7f || u == 0 {
      UnitBits2(u, bs[0], bs[1]);
      assert s[1..][0] == bs[1] && s[1..][1..] == rest;
      assert Counted(s[1..], 1) == Counted(rest, 0);
    } else {
      UnitBits1(u, bs[0]);
      assert s[1..] == rest;
    }
  }

  /** Hence different strings have different encodings. */
  lemma EncodeIsInjective(us: seq<Unit>, vs: seq<Unit>)
    requires Encode(us) == Encode(vs)
    ensures us == vs
  {
    RoundTrip(us);
    RoundTrip(vs);
  }

  /** The code end to end: what strndup16to8 returns, strdup8to16 turns back into the original. NULL comes
      back exactly when the length saturates or a malloc fails; and nothing is written astray, except through NULL
      when the second malloc fails and the string is not empty. */
  method ThereAndBack(s: array<Unit>, sizeMax: nat, malloc1Succeeds: bool, malloc2Succeeds: bool)
    returns (back: array?<Unit>, n: nat, strayWrite: bool)
    requires 0xffff <= sizeMax && 2 * s.Length <= sizeMax
    ensures back != null <==> |Encode(s[..])| < sizeMax - 1 && malloc1Succeeds && malloc2Succeeds
    ensures strayWrite <==> |Encode(s[..])| < sizeMax - 1 && malloc1Succeeds && !malloc2Succeeds && s.Length > 0
    ensures back != null ==> back.Length == n == s.Length && back[..] == s[..]
  {
    back, n, strayWrite := null, 0, false;
    RoundTrip(s[..]);
    assert s[..s.Length] == s[..];
    var utf8 := Strndup16to8(s, s.Length, sizeMax, malloc1Succeeds);
    if utf8 != null {
      assert utf8[..utf8.Length - 1] == Encode(s[..]);
      back, n, strayWrite := Strdup8to16(utf8, utf8.Length - 1, sizeMax, malloc2Succeeds);
      assert back != null ==> back[..n] == back[..];
    }
  }

  // ---------- well-formed UTF-8 ----------

  /** A Unicode scalar value. */
  predicate Scalar(c: bv32) {
    c < 0xd800 || 0xe000 <= c <= 0x10ffff
  }

  /** Section 3 of RFC 3629. */
  function Utf8(c: bv32): seq<Byte>
    requires Scalar(c)
  {
    if c < 0x80 then [c as Byte]
    else if c < 0x800 then [(0xc0 | (c >> 6)) as Byte, (0x80 | (c & 0x3f)) as Byte]
    else if c < 0x10000 then
      [(0xe0 | (c >> 12)) as Byte, (0x80 | ((c >> 6) & 0x3f)) as Byte, (0x80 | (c & 0x3f)) as Byte]
    else
      [(0xf0 | (c >> 18)) as Byte, (0x80 | ((c >> 12) & 0x3f)) as Byte,
       (0x80 | ((c >> 6) & 0x3f)) as Byte, (0x80 | (c & 0x3f)) as Byte]
  }

  /** Section 2.1 of RFC 2781. */
  function Utf16(c: bv32): seq<Unit>
    requires Scalar(c)
  {
    if c < 0x10000 then [c as Unit]
    else
      var rest := c - 0x10000;
      [0xd800 + (rest >> 10) as Unit, 0xdc00 + (rest & 0x3ff) as Unit]
  }

  predicate AllScalar(cs: seq<bv32>) {
    forall i | 0 <= i < |cs| :: Scalar(cs[i])
  }

  function Utf8String(cs: seq<bv32>): seq<Byte>
    requires AllScalar(cs)
  {
    if cs == [] then [] else Utf8(cs[0]) + Utf8String(cs[1..])
  }

  /** UTF-16, with one replacement for each of the two characters above the decoder's limit. */
  function Utf16String(cs: seq<bv32>): seq<Unit>
    requires AllScalar(cs)
  {
    if cs == [] then []
    else (if cs[0] <= UPPER_LIMIT then Utf16(cs[0]) else [0xfffd]) + Utf16String(cs[1..])
  }

  lemma ScalarDecodes(c: bv32, rest: seq<Byte>)
    requires Scalar(c)
    ensures NextChar(Utf8(c) + rest) == (c, |Utf8(c)|)
  {
    if c < 0x80 {
      ScalarBits1(c, c as Byte);
    } else if c < 0x800 {
      var b0, b1 := (0xc0 | (c >> 6)) as Byte, (0x80 | (c & 0x3f)) as Byte;
      assert Utf8(c) == [b0, b1];
      ScalarBits2(c, b0, b1);
      TwoBytes([b0, b1] + rest, c);
    } else if c < 0x10000 {
      ThreeByteScalarDecodes(c, rest);
    } else {
      FourByteScalarDecodes(c, rest);
    }
  }

  lemma ThreeByteScalarDecodes(c: bv32, rest: seq<Byte>)
    requires Scalar(c) && 0x800 <= c < 0x10000
    ensures |Utf8(c)| == 3 && NextChar(Utf8(c) + rest) == (c, 3)
  {
    var b0, b1, b2 := (0xe0 | (c >> 12)) as Byte, (0x80 | ((c >> 6) & 0x3f)) as Byte, (0x80 | (c & 0x3f)) as Byte;
    assert Utf8(c) == [b0, b1, b2];
    ScalarBits3(c, b0, b1, b2);
    ThreeBytes([b0, b1, b2] + rest, ShiftAndMask(b0 as bv32 & 0x0f, b1), c);
  }

  lemma FourByteScalarDecodes(c: bv32, rest: seq<Byte>)
    requires Scalar(c) && 0x10000 <= c
    ensures |Utf8(c)| == 4 && NextChar(Utf8(c) + rest) == (c, 4)
  {
    var b0, b1 := (0xf0 | (c >> 18)) as Byte, (0x80 | ((c >> 12) & 0x3f)) as Byte;
    var b2, b3 := (0x80 | ((c >> 6) & 0x3f)) as Byte, (0x80 | (c & 0x3f)) as Byte;
    assert Utf8(c) == [b0, b1, b2, b3];
    ScalarBits4(c, b0, b1, b2, b3);
    var c1 := ShiftAndMask(b0 as bv32 & 0x07, b1);
    FourBytes([b0, b1, b2, b3] + rest, c1, ShiftAndMask(c1, b2), c);
  }

  lemma ScalarBits1(c: bv32, b: Byte)
    requires c < 0x80 && b == c as Byte
    ensures !IsExtension(b) && SeqLength(b) == 1 && b as bv32 & 0xff == c
  {
  }

  lemma ScalarBits2(c: bv32, b0: Byte, b1: Byte)
    requires 0x80 <= c < 0x800 && b0 == (0xc0 | (c >> 6)) as Byte && b1 == (0x80 | (c & 0x3f)) as Byte
    ensures !IsExtension(b0) && SeqLength(b0) == 2 && IsExtension(b1)
    ensures ShiftAndMask(b0 as bv32 & 0x1f, b1) == c
  {
  }

  lemma ScalarBits3(c: bv32, b0: Byte, b1: Byte, b2: Byte)
    requires c < 0x10000 && b0 == (0xe0 | (c >> 12)) as Byte
    requires b1 == (0x80 | ((c >> 6) & 0x3f)) as Byte && b2 == (0x80 | (c & 0x3f)) as Byte
    ensures !IsExtension(b0) && SeqLength(b0) == 3 && IsExtension(b1) && IsExtension(b2)
    ensures ShiftAndMask(ShiftAndMask(b0 as bv32 & 0x0f, b1), b2) == c
  {
  }

  lemma ScalarBits4(c: bv32, b0: Byte, b1: Byte, b2: Byte, b3: Byte)
    requires c <= 0x10ffff && b0 == (0xf0 | (c >> 18)) as Byte && b1 == (0x80 | ((c >> 12) & 0x3f)) as Byte
    requires b2 == (0x80 | ((c >> 6) & 0x3f)) as Byte && b3 == (0x80 | (c & 0x3f)) as Byte
    ensures !IsExtension(b0) && SeqLength(b0) == 4 && IsExtension(b1) && IsExtension(b2) && IsExtension(b3)
    ensures ShiftAndMask(ShiftAndMask(ShiftAndMask(b0 as bv32 & 0x07, b1), b2), b3) == c
  {
  }

  /** Well-formed UTF-8 decodes to the UTF-16 encoding of the same characters, except that each of the
      two characters above U+10FFFD becomes one U+FFFD. */
  lemma {:induction false} WellFormedDecodes(cs: seq<bv32>)
    requires AllScalar(cs)
    ensures Decode(Utf8String(cs)) == Utf16String(cs)
  {
    if cs != [] {
      var s, rest := Utf8String(cs), Utf8String(cs[1..]);
      assert s == Utf8(cs[0]) + rest;
      ScalarDecodes(cs[0], rest);
      assert s[|Utf8(cs[0])|..] == rest;
      ScalarUnits(cs[0]);
      WellFormedDecodes(cs[1..]);
    }
  }

  lemma ScalarUnits(c: bv32)
    requires Scalar(c)
    ensures UnitsOf(c) == if c <= UPPER_LIMIT then Utf16(c) else [0xfffd]
  {
    if 0xffff < c <= UPPER_LIMIT {
      var rest := c - 0x10000;
      assert rest >> 10 < 0x400 && rest & 0x3ff < 0x400;
      assert (0xd800 | (rest >> 10)) as Unit == 0xd800 + (rest >> 10) as Unit;
      assert (0xdc00 | (rest & 0x3ff)) as Unit == 0xdc00 + (rest & 0x3ff) as Unit;
    }
  }

  /** The limit matters for exactly those two: U+10FFFE and U+10FFFF are the only characters lost. */
  lemma OnlyTheTopTwoAreLost(c: bv32)
    requires Scalar(c)
    ensures UnitsOf(c) == Utf16(c) <==> c != 0x10fffe && c != 0x10ffff
  {
    ScalarUnits(c);
  }

  // ---------- every complete sequence ----------

  /** The payload bits of a lead byte with its extension bytes, put together. */
  function Payload(s: seq<Byte>): bv32
    requires 2 <= |s| <= 4
  {
    if |s| == 2 then ((s[0] as bv32 & 0x1f) << 6) | (s[1] as bv32 & 0x3f)
    else if |s| == 3 then ((s[0] as bv32 & 0x0f) << 12) | ((s[1] as bv32 & 0x3f) << 6) | (s[2] as bv32 & 0x3f)
    else
      ((s[0] as bv32 & 0x07) << 18) | ((s[1] as bv32 & 0x3f) << 12) | ((s[2] as bv32 & 0x3f) << 6)
      | (s[3] as bv32 & 0x3f)
  }

  /** A lead byte with all its extension bytes: overlong, surrogate and too large values, and leads of the form
      11111xxx, included. */
  predicate Complete(s: seq<Byte>) {
    && 2 <= |s| <= 4
    && (|s| == 2 ==> 0xc0 <= s[0] < 0xe0) && (|s| == 3 ==> 0xe0 <= s[0] < 0xf0) && (|s| == 4 ==> 0xf0 <= s[0])
    && forall i | 1 <= i < |s| :: 0x80 <= s[i] < 0xc0
  }

  /** It decodes to its payload as one unit, as a surrogate pair above U+FFFF, and as one U+FFFD above U+10FFFD. */
  lemma CompleteDecodes(s: seq<Byte>, rest: seq<Byte>)
    requires Complete(s)
    ensures var c := Payload(s);
      Decode(s + rest) ==
        (if c <= 0xffff then [c as Unit]
         else if c <= 0x10fffd then [0xd800 + ((c - 0x10000) >> 10) as Unit, 0xdc00 + ((c - 0x10000) & 0x3ff) as Unit]
         else [0xfffd])
        + Decode(rest)
  {
    CompleteIsOneChar(s, rest);
    PayloadUnits(Payload(s));
    assert (s + rest)[|s|..] == rest;
  }

  lemma PayloadUnits(c: bv32)
    requires c < 0x20_0000
    ensures UnitsOf(c) ==
      if c <= 0xffff then [c as Unit]
      else if c <= 0x10fffd then [0xd800 + ((c - 0x10000) >> 10) as Unit, 0xdc00 + ((c - 0x10000) & 0x3ff) as Unit]
      else [0xfffd]
  {
    if 0xffff < c <= 0x10fffd {
      ScalarUnits(c);
    }
  }

  lemma CompleteIsOneChar(s: seq<Byte>, rest: seq<Byte>)
    requires Complete(s)
    ensures Payload(s) < 0x20_0000 && NextChar(s + rest) == (Payload(s), |s|)
  {
    var all := s + rest;
    LeadOf(s[0], |s|);
    ExtensionIs(s[1]);
    assert all[0] == s[0] && all[1] == s[1];
    if |s| == 2 {
      Payload2(s[0], s[1]);
      TwoBytes(all, ShiftAndMask(s[0] as bv32 & 0x1f, s[1]));
    } else if |s| == 3 {
      CompleteThree(s, all);
    } else {
      CompleteFour(s, all);
    }
  }

  lemma CompleteThree(s: seq<Byte>, all: seq<Byte>)
    requires Complete(s) && |s| == 3 && s <= all
    ensures Payload(s) < 0x20_0000 && NextChar(all) == (Payload(s), 3)
  {
    LeadOf(s[0], 3);
    ExtensionIs(s[1]);
    ExtensionIs(s[2]);
    Payload3(s[0], s[1], s[2]);
    var c1 := ShiftAndMask(s[0] as bv32 & 0x0f, s[1]);
    ThreeBytes(all, c1, ShiftAndMask(c1, s[2]));
  }

  lemma CompleteFour(s: seq<Byte>, all: seq<Byte>)
    requires Complete(s) && |s| == 4 && s <= all
    ensures Payload(s) < 0x20_0000 && NextChar(all) == (Payload(s), 4)
  {
    LeadOf(s[0], 4);
    ExtensionIs(s[1]);
    ExtensionIs(s[2]);
    ExtensionIs(s[3]);
    Payload4(s[0], s[1], s[2], s[3]);
    var c1 := ShiftAndMask(s[0] as bv32 & 0x07, s[1]);
    var c2 := ShiftAndMask(c1, s[2]);
    FourBytes(all, c1, c2, ShiftAndMask(c2, s[3]));
  }

  lemma LeadOf(b: Byte, n: nat)
    requires (n == 2 && 0xc0 <= b < 0xe0) || (n == 3 && 0xe0 <= b < 0xf0) || (n == 4 && 0xf0 <= b)
    ensures !IsExtension(b) && SeqLength(b) == n
  {
  }

  lemma ExtensionIs(b: Byte)
    requires 0x80 <= b < 0xc0
    ensures IsExtension(b)
  {
  }

  lemma Payload2(b0: Byte, b1: Byte)
    ensures ((b0 as bv32 & 0x1f) << 6) | (b1 as bv32 & 0x3f) == ShiftAndMask(b0 as bv32 & 0x1f, b1) < 0x20_0000
  {
  }

  lemma Payload3(b0: Byte, b1: Byte, b2: Byte)
    ensures ((b0 as bv32 & 0x0f) << 12) | ((b1 as bv32 & 0x3f) << 6) | (b2 as bv32 & 0x3f)
      == ShiftAndMask(ShiftAndMask(b0 as bv32 & 0x0f, b1), b2) < 0x20_0000
  {
  }

  lemma Payload4(b0: Byte, b1: Byte, b2: Byte, b3: Byte)
    ensures ((b0 as bv32 & 0x07) << 18) | ((b1 as bv32 & 0x3f) << 12) | ((b2 as bv32 & 0x3f) << 6)
            | (b3 as bv32 & 0x3f)
      == ShiftAndMask(ShiftAndMask(ShiftAndMask(b0 as bv32 & 0x07, b1), b2), b3) < 0x20_0000
  {
  }

  // ---------- the encoder against the standard ----------

  /** Modified UTF-8 (section 4.4.7 of the JVM specification): every unit that is a character by itself is
      encoded as in UTF-8, in the fewest bytes, except that zero takes two and a surrogate three. */
  lemma EncodesByTheStandard(u: Unit)
    ensures EncodeUnit(u) ==
      if u == 0 then [0xc0, 0x80]
      else if Scalar(u as bv32) then Utf8(u as bv32)
      else [(0xe0 | (u >> 12)) as Byte, (0x80 | ((u >> 6) & 0x3f)) as Byte, (0x80 | (u & 0x3f)) as Byte]
  {
    EncodedBytes(u);
  }

  lemma EncodedBytes(u: Unit)
    ensures u >= 0x80 ==> (0x80 | (u & 0x3f)) as Byte == (0x80 | (u as bv32 & 0x3f)) as Byte
  {
  }
}
