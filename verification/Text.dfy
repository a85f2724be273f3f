/**
 The input of the parser: a byte string followed by a 0 sentinel.
 */
module Text {

  type Byte = b: int | 0 <= b < 256

  type Bytes = seq<Byte>

  const QUOTE: Byte := 0x22
  const PLUS: Byte := 0x2B
  const COMMA: Byte := 0x2C
  const MINUS: Byte := 0x2D
  const DOT: Byte := 0x2E
  const DIGIT_0: Byte := 0x30
  const COLON: Byte := 0x3A
  const LBRACKET: Byte := 0x5B
  const BACKSLASH: Byte := 0x5C
  const RBRACKET: Byte := 0x5D
  const LOWER_E: Byte := 0x65
  const UPPER_E: Byte := 0x45
  const LOWER_B: Byte := 0x62
  const LOWER_F: Byte := 0x66
  const LOWER_N: Byte := 0x6E
  const LOWER_R: Byte := 0x72
  const LOWER_T: Byte := 0x74
  const LOWER_U: Byte := 0x75
  const LBRACE: Byte := 0x7B
  const RBRACE: Byte := 0x7D

  const TRUE_BYTES: Bytes := [0x74, 0x72, 0x75, 0x65]
  const FALSE_BYTES: Bytes := [0x66, 0x61, 0x6C, 0x73, 0x65]
  const NULL_BYTES: Bytes := [0x6E, 0x75, 0x6C, 0x6C]

  // uint_max after the 8 units of slack have been taken off a 32-bit maximum.
  const UINT_LIMIT: int := 0xFFFF_FFFF - 8

  // ulong_max after the same adjustment of a 64-bit maximum.
  const ULONG_LIMIT: int := 0xFFFF_FFFF_FFFF_FFFF - 8

  const TWO_32: int := 0x1_0000_0000
  const TWO_64: int := 0x1_0000_0000_0000_0000

  predicate IsWs(b: Byte) {
    b == 0x20 || b == 0x09 || b == 0x0A || b == 0x0D
  }

  predicate IsDigit(b: Byte) {
    0x30 <= b <= 0x39
  }

  // Bytes the second pass skips when it meets a number.
  predicate IsNumberByte(b: Byte) {
    IsDigit(b) || b == PLUS || b == MINUS || b == LOWER_E || b == UPPER_E || b == DOT
  }

  predicate AllWs(w: Bytes) {
    forall k :: 0 <= k < |w| ==> IsWs(w[k])
  }

  predicate AllDigits(d: Bytes) {
    forall k :: 0 <= k < |d| ==> IsDigit(d[k])
  }

  // The byte the loop reads at i: the sentinel once the text is used up.
  function At(text: Bytes, i: nat): Byte
    requires i <= |text|
  {
    if i == |text| then 0 else text[i]
  }

  // The text continues with ys at position p.
  predicate Matches(text: Bytes, p: nat, ys: Bytes) {
    p + |ys| <= |text| && text[p..p + |ys|] == ys
  }

  lemma MatchesAt(text: Bytes, p: nat, ys: Bytes, k: nat)
    requires Matches(text, p, ys) && k < |ys|
    ensures text[p + k] == ys[k] && At(text, p + k) == ys[k]
  {
  }

  lemma MatchesSplit(text: Bytes, p: nat, a: Bytes, b: Bytes)
    requires Matches(text, p, a + b)
    ensures Matches(text, p, a) && Matches(text, p + |a|, b)
  {
    assert a == (a + b)[..|a|] == text[p..p + |a + b|][..|a|] == text[p..p + |a|];
    assert b == (a + b)[|a|..] == text[p..p + |a + b|][|a|..] == text[p + |a|..p + |a| + |b|];
  }
}
