/**
 String items, the hexadecimal escapes, and the bytes the parser writes for each item.
 */
module Escape {
  import opened Text

  // One item between the quotes of a string.
  datatype StrItem =
    | Raw(b: Byte)
    | Esc(c: Byte)
    | Uni(h1: Byte, h2: Byte, h3: Byte, h4: Byte)

  const NOT_HEX: bv8 := 0xFF

  function HexValue(c: Byte): bv8 {
    if c == 0x30 then 0x00 else if c == 0x31 then 0x01
    else if c == 0x32 then 0x02 else if c == 0x33 then 0x03
    else if c == 0x34 then 0x04 else if c == 0x35 then 0x05
    else if c == 0x36 then 0x06 else if c == 0x37 then 0x07
    else if c == 0x38 then 0x08 else if c == 0x39 then 0x09
    else if c == 0x61 || c == 0x41 then 0x0A
    else if c == 0x62 || c == 0x42 then 0x0B
    else if c == 0x63 || c == 0x43 then 0x0C
    else if c == 0x64 || c == 0x44 then 0x0D
    else if c == 0x65 || c == 0x45 then 0x0E
    else if c == 0x66 || c == 0x46 then 0x0F
    else NOT_HEX
  }

  predicate IsHex(c: Byte) {
    IsDigit(c) || 0x41 <= c <= 0x46 || 0x61 <= c <= 0x66
  }

  // hex_value rejects exactly the bytes that are not hexadecimal digits,
  // and a digit's value is a nibble.
  lemma HexValueIsNibble(c: Byte)
    ensures IsHex(c) <==> HexValue(c) != NOT_HEX
    ensures IsHex(c) <==> HexValue(c) & 0xF0 == 0
  {
  }

  // The number a hexadecimal digit stands for.
  function Digit16(c: Byte): nat
    requires IsHex(c)
  {
    if IsDigit(c) then c - 0x30 else if c <= 0x46 then c - 0x41 + 10 else c - 0x61 + 10
  }

  lemma HexValueIsDigit(c: Byte)
    requires IsHex(c)
    ensures HexValue(c) as int == Digit16(c)
  {
  }

  function ByteOf(hi: bv8, lo: bv8): bv8 {
    hi * 16 + lo
  }

  // json_char is signed, so the high byte is sign-extended before it is
  // scaled; the result is truncated to 16 bits.
  function SignExtend(b: bv8): bv16 {
    if b & 0x80 != 0 then 0xFF00 | (b as bv16) else b as bv16
  }

  function CodeUnit(b1: bv8, b2: bv8): bv16 {
    SignExtend(b1) * 0x100 + (b2 as bv16)
  }

  lemma CodeUnitIsConcatenation(b1: bv8, b2: bv8)
    ensures CodeUnit(b1, b2) == ((b1 as bv16) << 8) | (b2 as bv16)
  {
  }

  // The bytes written for the code unit whose high and low byte are b1 and b2.
  function EncodeUnit(b1: bv8, b2: bv8): seq<bv8> {
    if b1 == 0 && b2 <= 0x7F then
      [b2]
    else if CodeUnit(b1, b2) <= 0x7FF then
      [0xC0 | ((b2 & 0xC0) >> 6) | ((b1 & 0x7) << 2), 0x80 | (b2 & 0x3F)]
    else
      [0xE0 | ((b1 & 0xF0) >> 4), 0x80 | ((b1 & 0xF) << 2) | ((b2 & 0xC0) >> 6), 0x80 | (b2 & 0x3F)]
  }

  // RFC 3629 section 3, restricted to one, two and three byte sequences.
  function DecodeUnit(s: seq<bv8>): bv16 {
    if |s| == 1 then s[0] as bv16
    else if |s| == 2 then (((s[0] & 0x1F) as bv16) << 6) | ((s[1] & 0x3F) as bv16)
    else if |s| == 3 then
      (((s[0] & 0x0F) as bv16) << 12) | (((s[1] & 0x3F) as bv16) << 6) | ((s[2] & 0x3F) as bv16)
    else 0
  }

  // The lead and continuation bytes carry the marks of RFC 3629 section 3, and
  // each length is used for exactly the range the RFC assigns to it.
  predicate Utf8Shape(s: seq<bv8>, u: bv16) {
    || (|s| == 1 && u <= 0x7F && s[0] & 0x80 == 0)
    || (|s| == 2 && 0x80 <= u <= 0x7FF && s[0] & 0xE0 == 0xC0 && s[1] & 0xC0 == 0x80)
    || (|s| == 3 && 0x800 <= u && s[0] & 0xF0 == 0xE0 && s[1] & 0xC0 == 0x80 && s[2] & 0xC0 == 0x80)
  }

  lemma OneByteForm(b: bv8)
    ensures DecodeUnit([b]) == b as bv16
  {
  }

  lemma TwoByteForm(b1: bv8, b2: bv8)
    requires b1 & 0xF8 == 0
    ensures var s := [0xC0 | ((b2 & 0xC0) >> 6) | ((b1 & 0x7) << 2), 0x80 | (b2 & 0x3F)];
            && DecodeUnit(s) == ((b1 as bv16) << 8) | (b2 as bv16)
            && s[0] & 0xE0 == 0xC0 && s[1] & 0xC0 == 0x80
  {
  }

  lemma ThreeByteForm(b1: bv8, b2: bv8)
    ensures var s := [0xE0 | ((b1 & 0xF0) >> 4), 0x80 | ((b1 & 0xF) << 2) | ((b2 & 0xC0) >> 6), 0x80 | (b2 & 0x3F)];
            && DecodeUnit(s) == ((b1 as bv16) << 8) | (b2 as bv16)
            && s[0] & 0xF0 == 0xE0 && s[1] & 0xC0 == 0x80 && s[2] & 0xC0 == 0x80
  {
  }

  lemma UnitRanges(b1: bv8, b2: bv8)
    ensures var u := ((b1 as bv16) << 8) | (b2 as bv16);
            && (u <= 0x7FF <==> b1 & 0xF8 == 0)
            && (u <= 0x7F <==> b1 == 0 && b2 <= 0x7F)
            && (b1 == 0 && b2 <= 0x7F ==> u == b2 as bv16 && b2 & 0x80 == 0)
  {
  }

  lemma EncodeDecodes(b1: bv8, b2: bv8)
    ensures DecodeUnit(EncodeUnit(b1, b2)) == CodeUnit(b1, b2)
    ensures Utf8Shape(EncodeUnit(b1, b2), CodeUnit(b1, b2))
  {
    hide DecodeUnit, CodeUnit;
    CodeUnitIsConcatenation(b1, b2);
    UnitRanges(b1, b2);
    if b1 == 0 && b2 <= 0x7F {
      OneByteForm(b2);
    } else if CodeUnit(b1, b2) <= 0x7FF {
      TwoByteForm(b1, b2);
    } else {
      ThreeByteForm(b1, b2);
    }
  }

  // Distinct code units are written as distinct byte strings.
  lemma EncodeInjective(b1: bv8, b2: bv8, c1: bv8, c2: bv8)
    requires EncodeUnit(b1, b2) == EncodeUnit(c1, c2)
    ensures b1 == c1 && b2 == c2
  {
    EncodeDecodes(b1, b2);
    EncodeDecodes(c1, c2);
    CodeUnitIsConcatenation(b1, b2);
    CodeUnitIsConcatenation(c1, c2);
  }

  function ToBytes(s: seq<bv8>): (r: Bytes)
    ensures |r| == |s|
  {
    if s == [] then [] else ToBytes(s[..|s| - 1]) + [s[|s| - 1] as int]
  }

  function EscapeByte(c: Byte): Byte {
    if c == LOWER_B then 0x08
    else if c == LOWER_F then 0x0C
    else if c == LOWER_N then 0x0A
    else if c == LOWER_R then 0x0D
    else if c == LOWER_T then 0x09
    else c
  }

  function UnitOf(h1: Byte, h2: Byte, h3: Byte, h4: Byte): seq<bv8> {
    EncodeUnit(ByteOf(HexValue(h1), HexValue(h2)), ByteOf(HexValue(h3), HexValue(h4)))
  }

  predicate ItemOk(it: StrItem) {
    match it
    case Raw(b) => b != 0 && b != QUOTE && b != BACKSLASH
    case Esc(c) => c != 0 && c != LOWER_U
    case Uni(h1, h2, h3, h4) => IsHex(h1) && IsHex(h2) && IsHex(h3) && IsHex(h4)
  }

  function ItemYield(it: StrItem): (r: Bytes)
    ensures r != []
  {
    match it
    case Raw(b) => [b]
    case Esc(c) => [BACKSLASH, c]
    case Uni(h1, h2, h3, h4) => [BACKSLASH, LOWER_U, h1, h2, h3, h4]
  }

  function ItemBytes(it: StrItem): (r: Bytes)
    ensures 1 <= |r| <= 3
  {
    match it
    case Raw(b) => [b]
    case Esc(c) => [EscapeByte(c)]
    case Uni(h1, h2, h3, h4) => ToBytes(UnitOf(h1, h2, h3, h4))
  }

  // What the first pass adds to string_length for an item.
  function ItemLength(it: StrItem): (n: nat)
    ensures 1 <= n <= 3
  {
    if !it.Uni? then 1
    else if it.h1 == DIGIT_0 && it.h2 == DIGIT_0 && DIGIT_0 <= it.h3 <= 0x37 then 1
    else if it.h1 == DIGIT_0 && DIGIT_0 <= it.h2 <= 0x37 then 2
    else 3
  }

  function StrLength(items: seq<StrItem>): nat {
    if items == [] then 0 else StrLength(items[..|items| - 1]) + ItemLength(items[|items| - 1])
  }

  predicate StrOk(items: seq<StrItem>) {
    forall k :: 0 <= k < |items| ==> ItemOk(items[k])
  }

  function StrYield(items: seq<StrItem>): Bytes {
    if items == [] then [] else StrYield(items[..|items| - 1]) + ItemYield(items[|items| - 1])
  }

  function StrBytes(items: seq<StrItem>): Bytes {
    if items == [] then [] else StrBytes(items[..|items| - 1]) + ItemBytes(items[|items| - 1])
  }

  lemma StrYieldSnoc(items: seq<StrItem>, it: StrItem)
    ensures StrYield(items + [it]) == StrYield(items) + ItemYield(it)
    ensures StrBytes(items + [it]) == StrBytes(items) + ItemBytes(it)
    ensures StrLength(items + [it]) == StrLength(items) + ItemLength(it)
    ensures StrOk(items + [it]) <==> StrOk(items) && ItemOk(it)
  {
  }

  // A high nibble of at most 7 is a digit character of at most '7'.
  lemma SmallNibbles(c: Byte)
    requires IsHex(c)
    ensures HexValue(c) == 0 <==> c == DIGIT_0
    ensures HexValue(c) <= 7 <==> DIGIT_0 <= c <= 0x37
    ensures HexValue(c) <= 15
  {
  }

  lemma ByteOfRanges(hi: bv8, lo: bv8)
    requires hi <= 15 && lo <= 15
    ensures ByteOf(hi, lo) == 0 <==> hi == 0 && lo == 0
    ensures ByteOf(hi, lo) <= 0x7F <==> hi <= 7
    ensures ByteOf(hi, lo) & 0xF8 == 0 <==> hi == 0 && lo <= 7
  {
  }

  lemma FourNibbles(n1: bv8, n2: bv8, n3: bv8, n4: bv8)
    requires n1 <= 15 && n2 <= 15 && n3 <= 15 && n4 <= 15
    ensures ((ByteOf(n1, n2) as bv16) << 8) | (ByteOf(n3, n4) as bv16)
            == ((n1 as bv16) << 12) | ((n2 as bv16) << 8) | ((n3 as bv16) << 4) | (n4 as bv16)
  {
  }

  // The bytes written for an escape decode to the number its four digits spell.
  lemma UnitIsFourDigits(h1: Byte, h2: Byte, h3: Byte, h4: Byte)
    requires IsHex(h1) && IsHex(h2) && IsHex(h3) && IsHex(h4)
    ensures DecodeUnit(UnitOf(h1, h2, h3, h4))
            == ((HexValue(h1) as bv16) << 12) | ((HexValue(h2) as bv16) << 8)
               | ((HexValue(h3) as bv16) << 4) | (HexValue(h4) as bv16)
  {
    hide DecodeUnit, EncodeUnit, CodeUnit, HexValue, ByteOf;
    SmallNibbles(h1);
    SmallNibbles(h2);
    SmallNibbles(h3);
    SmallNibbles(h4);
    var b1, b2 := ByteOf(HexValue(h1), HexValue(h2)), ByteOf(HexValue(h3), HexValue(h4));
    EncodeDecodes(b1, b2);
    CodeUnitIsConcatenation(b1, b2);
    FourNibbles(HexValue(h1), HexValue(h2), HexValue(h3), HexValue(h4));
  }

  // ---------- In integers ----------

  // s is the form of RFC 3629 section 3 for the number v, by the arithmetic of its bytes.
  predicate Encodes(s: Bytes, v: int) {
    || (|s| == 1 && 0 <= v <= 0x7F && s[0] == v)
    || (|s| == 2 && 0x80 <= v <= 0x7FF && 0xC0 <= s[0] <= 0xDF && 0x80 <= s[1] <= 0xBF
        && v == (s[0] as int - 0xC0) * 64 + (s[1] as int - 0x80))
    || (|s| == 3 && 0x800 <= v <= 0xFFFF && 0xE0 <= s[0] <= 0xEF && 0x80 <= s[1] <= 0xBF && 0x80 <= s[2] <= 0xBF
        && v == (s[0] as int - 0xE0) * 4096 + (s[1] as int - 0x80) * 64 + (s[2] as int - 0x80))
  }

  lemma OneEncoding(s: Bytes, s': Bytes, v: int)
    requires Encodes(s, v) && Encodes(s', v)
    ensures s == s'
  {
    assert |s| == |s'|;
    if |s| == 2 {
      OnePlace(s[0] as int - 0xC0, s[1] as int - 0x80, s'[0] as int - 0xC0, s'[1] as int - 0x80);
    } else if |s| == 3 {
      var a, b, a', b' := s[0] as int - 0xE0, s[1] as int - 0x80, s'[0] as int - 0xE0, s'[1] as int - 0x80;
      OnePlace(a * 64 + b, s[2] as int - 0x80, a' * 64 + b', s'[2] as int - 0x80);
      OnePlace(a, b, a', b');
    }
  }

  lemma OnePlace(a: int, b: int, a': int, b': int)
    requires 0 <= b < 64 && 0 <= b' < 64 && a * 64 + b == a' * 64 + b'
    ensures a == a' && b == b'
  {
  }

  // The number that four hexadecimal digits spell.
  function Number16(h1: Byte, h2: Byte, h3: Byte, h4: Byte): nat
    requires IsHex(h1) && IsHex(h2) && IsHex(h3) && IsHex(h4)
  {
    Digit16(h1) * 4096 + Digit16(h2) * 256 + Digit16(h3) * 16 + Digit16(h4)
  }

  // The bytes of the encoding, half a byte at a time.
  lemma NibbleBytes(n1: bv8, n2: bv8, n3: bv8, n4: bv8)
    requires n1 <= 15 && n2 <= 15 && n3 <= 15 && n4 <= 15
    ensures var b1, b2 := ByteOf(n1, n2), ByteOf(n3, n4);
            && 0xE0 | ((b1 & 0xF0) >> 4) == 0xE0 | n1
            && 0x80 | ((b1 & 0xF) << 2) | ((b2 & 0xC0) >> 6) == 0x80 | (n2 << 2) | (n3 >> 2)
            && 0x80 | (b2 & 0x3F) == 0x80 | (((n3 & 3) << 4) | n4)
            && 0xC0 | ((b2 & 0xC0) >> 6) | ((b1 & 0x7) << 2) == 0xC0 | ((n2 & 7) << 2) | (n3 >> 2)
            && (b1 == 0 && b2 <= 0x7F <==> n1 == 0 && n2 == 0 && n3 <= 7)
  {
  }

  lemma NibbleInts(n1: bv8, n2: bv8, n3: bv8, n4: bv8)
    requires n1 <= 15 && n2 <= 15 && n3 <= 15 && n4 <= 15
    ensures (0xE0 | n1) as int == 0xE0 + n1 as int
    ensures (0x80 | (n2 << 2) | (n3 >> 2)) as int == 0x80 + 4 * (n2 as int) + (n3 as int) / 4
    ensures (0x80 | (((n3 & 3) << 4) | n4)) as int == 0x80 + 16 * ((n3 as int) % 4) + n4 as int
    ensures n2 <= 7 ==> (0xC0 | ((n2 & 7) << 2) | (n3 >> 2)) as int == 0xC0 + 4 * (n2 as int) + (n3 as int) / 4
    ensures n3 <= 7 ==> ByteOf(n3, n4) as int == 16 * (n3 as int) + n4 as int
  {
  }

  lemma OneByte(c: bv8)
    ensures ToBytes([c]) == [c as int]
  {
  }

  lemma TwoBytes(c1: bv8, c2: bv8)
    ensures ToBytes([c1, c2]) == [c1 as int, c2 as int]
  {
  }

  lemma ThreeBytes(c1: bv8, c2: bv8, c3: bv8)
    ensures ToBytes([c1, c2, c3]) == [c1 as int, c2 as int, c3 as int]
  {
    assert [c1, c2, c3][..2] == [c1, c2];
    TwoBytes(c1, c2);
  }

  // The unit's own bytes, as nibbles give them.
  lemma UnitBytes(n1: bv8, n2: bv8, n3: bv8, n4: bv8)
    requires n1 <= 15 && n2 <= 15 && n3 <= 15 && n4 <= 15
    ensures EncodeUnit(ByteOf(n1, n2), ByteOf(n3, n4))
            == if n1 == 0 && n2 == 0 && n3 <= 7 then [ByteOf(n3, n4)]
               else if n1 == 0 && n2 <= 7 then
                 [0xC0 | ((n2 & 7) << 2) | (n3 >> 2), 0x80 | (((n3 & 3) << 4) | n4)]
               else
                 [0xE0 | n1, 0x80 | (n2 << 2) | (n3 >> 2), 0x80 | (((n3 & 3) << 4) | n4)]
  {
    hide CodeUnit, ByteOf;
    var b1, b2 := ByteOf(n1, n2), ByteOf(n3, n4);
    NibbleBytes(n1, n2, n3, n4);
    CodeUnitIsConcatenation(b1, b2);
    UnitRanges(b1, b2);
    ByteOfRanges(n1, n2);
  }

  // What is stored for an escape is the encoding of the number its four digits spell.
  lemma EscapeEncodes(h1: Byte, h2: Byte, h3: Byte, h4: Byte)
    requires IsHex(h1) && IsHex(h2) && IsHex(h3) && IsHex(h4)
    ensures Encodes(ItemBytes(Uni(h1, h2, h3, h4)), Number16(h1, h2, h3, h4))
  {
    hide HexValue, ByteOf, EncodeUnit, ToBytes, Digit16;
    SmallNibbles(h1);
    SmallNibbles(h2);
    SmallNibbles(h3);
    SmallNibbles(h4);
    HexValueIsDigit(h1);
    HexValueIsDigit(h2);
    HexValueIsDigit(h3);
    HexValueIsDigit(h4);
    NibblesEncode(HexValue(h1), HexValue(h2), HexValue(h3), HexValue(h4));
  }

  lemma OneForm(m3: nat, m4: nat)
    requires m3 <= 7 && m4 <= 15
    ensures Encodes([16 * m3 + m4], 16 * m3 + m4)
  {
  }

  lemma TwoForm(m2: nat, m3: nat, m4: nat)
    requires m2 <= 7 && m3 <= 15 && m4 <= 15 && (m2 > 0 || m3 > 7)
    ensures Encodes([0xC0 + 4 * m2 + m3 / 4, 0x80 + 16 * (m3 % 4) + m4], 256 * m2 + 16 * m3 + m4)
  {
  }

  lemma ThreeForm(m1: nat, m2: nat, m3: nat, m4: nat)
    requires m1 <= 15 && m2 <= 15 && m3 <= 15 && m4 <= 15 && (m1 > 0 || m2 > 7)
    ensures Encodes([0xE0 + m1, 0x80 + 4 * m2 + m3 / 4, 0x80 + 16 * (m3 % 4) + m4],
              4096 * m1 + 256 * m2 + 16 * m3 + m4)
  {
  }

  lemma OneCase(c: bv8, m3: nat, m4: nat)
    requires m3 <= 7 && m4 <= 15 && c as int == 16 * m3 + m4
    ensures Encodes(ToBytes([c]), 16 * m3 + m4)
  {
    OneByte(c);
    OneForm(m3, m4);
  }

  lemma TwoCase(c1: bv8, c2: bv8, m2: nat, m3: nat, m4: nat)
    requires m2 <= 7 && m3 <= 15 && m4 <= 15 && (m2 > 0 || m3 > 7)
    requires c1 as int == 0xC0 + 4 * m2 + m3 / 4 && c2 as int == 0x80 + 16 * (m3 % 4) + m4
    ensures Encodes(ToBytes([c1, c2]), 256 * m2 + 16 * m3 + m4)
  {
    hide ToBytes;
    TwoBytes(c1, c2);
    TwoForm(m2, m3, m4);
  }

  lemma ThreeCase(c1: bv8, c2: bv8, c3: bv8, m1: nat, m2: nat, m3: nat, m4: nat)
    requires m1 <= 15 && m2 <= 15 && m3 <= 15 && m4 <= 15 && (m1 > 0 || m2 > 7)
    requires c1 as int == 0xE0 + m1 && c2 as int == 0x80 + 4 * m2 + m3 / 4 && c3 as int == 0x80 + 16 * (m3 % 4) + m4
    ensures Encodes(ToBytes([c1, c2, c3]), 4096 * m1 + 256 * m2 + 16 * m3 + m4)
  {
    hide ToBytes;
    ThreeBytes(c1, c2, c3);
    ThreeForm(m1, m2, m3, m4);
  }

  lemma NibblesEncode(n1: bv8, n2: bv8, n3: bv8, n4: bv8)
    requires n1 <= 15 && n2 <= 15 && n3 <= 15 && n4 <= 15
    ensures Encodes(ToBytes(EncodeUnit(ByteOf(n1, n2), ByteOf(n3, n4))),
              4096 * (n1 as int) + 256 * (n2 as int) + 16 * (n3 as int) + n4 as int)
  {
    hide *;
    UnitBytes(n1, n2, n3, n4);
    NibbleInts(n1, n2, n3, n4);
    NibbleRange(n1);
    NibbleRange(n2);
    NibbleRange(n3);
    NibbleRange(n4);
    if n1 == 0 && n2 == 0 && n3 <= 7 {
      OneCase(ByteOf(n3, n4), n3 as int, n4 as int);
    } else if n1 == 0 && n2 <= 7 {
      TwoCase(0xC0 | ((n2 & 7) << 2) | (n3 >> 2), 0x80 | (((n3 & 3) << 4) | n4), n2 as int, n3 as int, n4 as int);
    } else {
      ThreeCase(0xE0 | n1, 0x80 | (n2 << 2) | (n3 >> 2), 0x80 | (((n3 & 3) << 4) | n4),
        n1 as int, n2 as int, n3 as int, n4 as int);
    }
  }

  lemma NibbleRange(n: bv8)
    requires n <= 15
    ensures n as int <= 15
    ensures n as int == 0 <==> n == 0
    ensures n as int <= 7 <==> n <= 7
  {
  }

  // The length the first pass counts for an item is the number of bytes the
  // second pass writes for it.
  lemma CountedIsWritten(it: StrItem)
    requires ItemOk(it)
    ensures ItemLength(it) == |ItemBytes(it)|
  {
    if it.Uni? {
      SmallNibbles(it.h1);
      SmallNibbles(it.h2);
      SmallNibbles(it.h3);
      SmallNibbles(it.h4);
      ByteOfRanges(HexValue(it.h1), HexValue(it.h2));
      ByteOfRanges(HexValue(it.h3), HexValue(it.h4));
      var b1, b2 := ByteOf(HexValue(it.h1), HexValue(it.h2)), ByteOf(HexValue(it.h3), HexValue(it.h4));
      hide HexValue, ByteOf, ToBytes, CodeUnit;
      CodeUnitIsConcatenation(b1, b2);
      UnitRanges(b1, b2);
    }
  }

  lemma {:induction false} StringCountedIsWritten(items: seq<StrItem>)
    requires StrOk(items)
    ensures StrLength(items) == |StrBytes(items)|
  {
    if items != [] {
      StringCountedIsWritten(items[..|items| - 1]);
      CountedIsWritten(items[|items| - 1]);
      hide ItemBytes, ItemLength;
    }
  }

  lemma {:induction false} BytesFromText(items: seq<StrItem>)
    ensures |StrBytes(items)| <= |StrYield(items)|
  {
    hide ItemBytes;
    if items != [] {
      BytesFromText(items[..|items| - 1]);
      ItemFromText(items[|items| - 1]);
    }
  }

  lemma ItemFromText(it: StrItem)
    ensures |ItemBytes(it)| <= |ItemYield(it)|
  {
    hide ToBytes, EncodeUnit;
  }
}
