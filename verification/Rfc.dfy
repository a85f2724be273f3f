/**
 RFC 8259: every text of the standard is accepted, and what is accepted besides it are exactly six kinds
 of extras: four of syntax, strings that are not UTF-8, and bytes behind a 0 byte.
 */
module Rfc {
  import opened Text
  import opened Escape
  import opened Numbers
  import opened Grammar
  import opened Machine
  import Completeness
  import Soundness
  import opened Spelling

  // RFC 8259 section 7: a quotation mark, a reverse solidus and the control
  // characters must be escaped, and the escapes are the listed ones.
  predicate RfcItem(it: StrItem) {
    match it
    case Raw(b) => b >= 0x20 && b != '"' as int && b != '\\' as int
    case Esc(c) => c in ESCAPES
    case Uni(h1, h2, h3, h4) => Hex(h1) && Hex(h2) && Hex(h3) && Hex(h4)
  }

  // The characters that the escapes of section 7 stand for.
  const ESCAPES: map<Byte, Byte> :=
    map['"' as int := '"' as int, '\\' as int := '\\' as int, '/' as int := '/' as int, 'b' as int := 0x08,
        'f' as int := 0x0C, 'n' as int := 0x0A, 'r' as int := 0x0D, 't' as int := 0x09]

  // An escape of RFC 8259 is stored as the character it stands for, any other as the escaped byte.
  lemma EscapeStored(c: Byte)
    ensures ItemBytes(Esc(c)) == if c in ESCAPES then [ESCAPES[c]] else [c]
  {
  }

  // A continuation byte of RFC 3629 section 4.
  predicate Tail(b: Byte) {
    0x80 <= b <= 0xBF
  }

  // The length of the character that s starts with, or 0 if it starts with none of RFC 3629 section 4.
  function CharLength(s: Bytes): (n: nat)
    requires s != []
    ensures n <= |s|
  {
    if s[0] <= 0x7F then 1
    else if 0xC2 <= s[0] <= 0xDF then
      if |s| >= 2 && Tail(s[1]) then 2 else 0
    else if 0xE0 <= s[0] <= 0xEF then
      if |s| >= 3 && Tail(s[1]) && Tail(s[2]) && (s[0] == 0xE0 ==> s[1] >= 0xA0) && (s[0] == 0xED ==> s[1] <= 0x9F)
      then 3 else 0
    else if 0xF0 <= s[0] <= 0xF4 then
      if |s| >= 4 && Tail(s[1]) && Tail(s[2]) && Tail(s[3])
         && (s[0] == 0xF0 ==> s[1] >= 0x90) && (s[0] == 0xF4 ==> s[1] <= 0x8F)
      then 4 else 0
    else 0
  }

  predicate Utf8(s: Bytes) {
    s != [] ==> CharLength(s) > 0 && Utf8(s[CharLength(s)..])
  }

  // What stands between the quotes is UTF-8 and consists of the characters and escapes of section 7.
  predicate RfcString(items: seq<StrItem>) {
    Utf8(StringText(items)) && forall k :: 0 <= k < |items| ==> RfcItem(items[k])
  }

  // RFC 8259 section 6: int is zero, or a nonzero digit and any digits; frac
  // and exp have at least one digit.
  predicate RfcNumber(t: NumTok) {
    && (t.ip == ['0' as int] || (t.ip != [] && '1' as int <= t.ip[0] <= '9' as int && Digits(t.ip)))
    && (t.frac.Some? ==> t.frac.value != [] && Digits(t.frac.value))
    && (t.exp.Some? ==>
          && t.exp.value.mark in {'e' as int, 'E' as int}
          && (t.exp.value.sign.Some? ==> t.exp.value.sign.value in {'-' as int, '+' as int})
          && t.exp.value.digits != [] && Digits(t.exp.value.digits))
  }

  // RFC 8259 sections 3 to 5: no comma after the last element or member.
  predicate RfcValue(c: Cst)
    decreases c
  {
    match c
    case Num(tok) => RfcNumber(tok)
    case Str(str) => RfcString(str)
    case Box(isObj, items, close) =>
      RfcItems(isObj, items) && Blank(close) && (items != [] ==> items[|items| - 1].comma.NoComma?)
    case _ => true
  }

  predicate RfcItems(isObj: bool, items: seq<Item>)
    decreases items
  {
    items != [] ==>
      var init, last := items[..|items| - 1], items[|items| - 1];
      && RfcItems(isObj, init)
      && (init != [] ==> init[|init| - 1].comma.Comma?)
      && last.lead.Keyed? == isObj
      && (isObj ==> Blank(last.lead.pre) && RfcString(last.lead.key) && Blank(last.lead.colon))
      && Blank(last.pre) && (last.comma.Comma? ==> Blank(last.comma.pre))
      && RfcValue(last.val)
  }

  // ---------- What the parser accepts besides ----------

  // A raw control byte, and a backslash before a byte that RFC 8259 does not let one stand before.
  predicate ItemExtra(it: StrItem) {
    match it
    case Raw(b) => b < 0x20
    case Esc(c) => c !in ESCAPES
    case Uni(_, _, _, _) => false
  }

  // Besides: bytes that are not UTF-8.
  predicate StringExtra(items: seq<StrItem>) {
    !Utf8(StringText(items)) || exists k :: 0 <= k < |items| && ItemExtra(items[k])
  }

  // Besides: a '-' without digits, and a comma after the last element or member.
  predicate HasExtra(c: Cst)
    decreases c
  {
    match c
    case Num(tok) => tok.ip == []
    case Str(str) => StringExtra(str)
    case Box(_, items, _) => ItemsExtra(items) || (items != [] && items[|items| - 1].comma.Comma?)
    case _ => false
  }

  predicate ItemsExtra(items: seq<Item>)
    decreases items
  {
    items != [] &&
      var last := items[|items| - 1];
      || ItemsExtra(items[..|items| - 1])
      || (last.lead.Keyed? && StringExtra(last.lead.key))
      || HasExtra(last.val)
  }

  lemma StringRfc(items: seq<StrItem>)
    ensures RfcString(items) <==> StringCorrect(items) && !StringExtra(items)
  {
    hide Utf8;
  }

  lemma NumberRfc(t: NumTok)
    ensures RfcNumber(t) <==> NumberCorrect(t) && t.ip != []
  {
  }

  // A tree is one of RFC 8259 exactly when it is correct and has none of the extras.
  lemma {:induction false} RfcIffNoExtra(c: Cst)
    ensures RfcValue(c) <==> Correct(c) && !HasExtra(c)
    decreases c
  {
    hide RfcNumber, NumberCorrect, RfcString, StringCorrect, StringExtra, Blank, RfcItems, MembersCorrect, ItemsExtra;
    match c
    case Num(tok) => NumberRfc(tok);
    case Str(str) => StringRfc(str);
    case Box(isObj, items, _) => ItemsRfc(isObj, items);
    case _ =>
  }

  lemma {:induction false} ItemsRfc(isObj: bool, items: seq<Item>)
    ensures RfcItems(isObj, items) <==> MembersCorrect(isObj, items) && !ItemsExtra(items)
    decreases items
  {
    hide RfcString, StringCorrect, StringExtra, Blank, Correct, HasExtra, RfcValue;
    if items != [] {
      var last := items[|items| - 1];
      ItemsRfc(isObj, items[..|items| - 1]);
      RfcIffNoExtra(last.val);
      if last.lead.Keyed? {
        StringRfc(last.lead.key);
      }
    }
  }

  // RFC 8259 section 2.
  predicate RfcDoc(d: Doc) {
    Blank(d.pre) && RfcValue(d.val) && Blank(d.post)
  }

  // The text is one of RFC 8259, spelled by d.
  predicate RfcText(d: Doc, text: Bytes) {
    RfcDoc(d) && DocText(d) == text
  }

  // Every text of RFC 8259 within the limits is accepted, and so is every one of at most 2^32 - 9 bytes.
  lemma RfcAccepted(d: Doc, text: Bytes)
    requires RfcText(d, text) && (Within(d.val) || |text| <= 4294967287)
    ensures Parse(text) == Accepted(d)
  {
    hide Parse, RfcValue, Correct, HasExtra, TextOf, Within, Blank;
    RfcIffNoExtra(d.val);
    if |text| <= 4294967287 {
      ShortIsAccepted(text, d);
    } else {
      assert text[..|text|] == text;
      ParseIffSpelled(text, d);
    }
  }

  // An accepted text is one of RFC 8259 exactly when its tree has none of the extras and spells all of it;
  // otherwise a 0 byte follows what the tree spells.
  lemma AcceptedIsRfcOrExtra(text: Bytes)
    requires Parse(text).Accepted?
    ensures var d := Parse(text).doc; var n := |DocText(d)|;
            && n <= |text| && text[..n] == DocText(d) && (n < |text| ==> text[n] == 0)
            && ((exists e :: RfcText(e, text) && Within(e.val)) <==> !HasExtra(d.val) && n == |text|)
  {
    hide Parse, Correct, Within, RfcValue, HasExtra, TextOf, Blank;
    var d := Parse(text).doc;
    ParseIffSpelled(text, d);
    RfcIffNoExtra(d.val);
    forall e | RfcText(e, text) && Within(e.val) ensures e == d {
      RfcAccepted(e, text);
    }
    if !HasExtra(d.val) && |DocText(d)| == |text| {
      assert text[..|text|] == text;
      assert RfcText(d, text);
    }
  }

  // The last two extras do occur.
  lemma BytesAccepted()
    ensures var text := ['"' as int, 0xFF, '"' as int]; Parse(text).Accepted? && HasExtra(Parse(text).doc.val)
    ensures var text := ['n' as int, 'u' as int, 'l' as int, 'l' as int, 0, '}' as int];
            Parse(text).Accepted? && |DocText(Parse(text).doc)| < |text|
  {
    BadBytes();
    AfterNul();
  }

  lemma BadBytes()
    ensures var text := ['"' as int, 0xFF, '"' as int]; Parse(text).Accepted? && HasExtra(Parse(text).doc.val)
  {
    var items := [Raw(0xFF)];
    assert items[..0] == [];
    assert StringText(items) == [0xFF];
    var d := Doc([], Str(items), []);
    hide Parse;
    ShortIsAccepted(['"' as int, 0xFF, '"' as int], d);
  }

  lemma AfterNul()
    ensures var text := ['n' as int, 'u' as int, 'l' as int, 'l' as int, 0, '}' as int];
            Parse(text).Accepted? && |DocText(Parse(text).doc)| < |text|
  {
    var text: Bytes := ['n' as int, 'u' as int, 'l' as int, 'l' as int, 0, '}' as int];
    var d := Doc([], Null, []);
    assert DocText(d) == text[..4];
    hide Parse;
    ParseIffSpelled(text, d);
  }

  // ---------- What is stored for a string ----------

  // The bytes bs are what an item stands for: the byte itself, the character of the escape, or the UTF-8 form of
  // the number that four hexadecimal digits spell.
  predicate ItemStored(it: StrItem, bs: Bytes) {
    match it
    case Raw(b) => bs == [b]
    case Esc(c) => bs == if c in ESCAPES then [ESCAPES[c]] else [c]
    case Uni(h1, h2, h3, h4) => IsHex(h1) && IsHex(h2) && IsHex(h3) && IsHex(h4) && Encodes(bs, Number16(h1, h2, h3, h4))
  }

  // bs is made of what the items stand for, in their order.
  predicate StringStored(items: seq<StrItem>, bs: Bytes)
    decreases |items|
  {
    if items == [] then bs == []
    else
      exists n :: 0 <= n <= |bs| && StringStored(items[..|items| - 1], bs[..n]) && ItemStored(items[|items| - 1], bs[n..])
  }

  lemma ItemStoredIff(it: StrItem, bs: Bytes)
    requires ItemCorrect(it)
    ensures ItemStored(it, bs) <==> bs == ItemBytes(it)
  {
    hide HexValue, EncodeUnit, ToBytes, Encodes, Number16;
    match it
    case Raw(_) =>
    case Esc(c) => EscapeStored(c);
    case Uni(h1, h2, h3, h4) =>
      EscapeEncodes(h1, h2, h3, h4);
      if ItemStored(it, bs) {
        OneEncoding(bs, ItemBytes(it), Number16(h1, h2, h3, h4));
      }
  }

  // What the parser stores for a string is exactly that.
  lemma {:induction false} StringStoredIff(items: seq<StrItem>, bs: Bytes)
    requires StringCorrect(items)
    ensures StringStored(items, bs) <==> bs == StrBytes(items)
    decreases |items|
  {
    hide ItemStored, ItemBytes, ItemCorrect;
    if items != [] {
      var init, last := items[..|items| - 1], items[|items| - 1];
      forall n | 0 <= n <= |bs|
        ensures StringStored(init, bs[..n]) <==> bs[..n] == StrBytes(init)
        ensures ItemStored(last, bs[n..]) <==> bs[n..] == ItemBytes(last)
      {
        StringStoredIff(init, bs[..n]);
        ItemStoredIff(last, bs[n..]);
      }
      if bs == StrBytes(items) {
        var n := |StrBytes(init)|;
        assert bs[..n] == StrBytes(init) && bs[n..] == ItemBytes(last);
      }
      if StringStored(items, bs) {
        var n :| 0 <= n <= |bs| && StringStored(init, bs[..n]) && ItemStored(last, bs[n..]);
        assert bs == bs[..n] + bs[n..];
      }
    }
  }

  // ---------- Characters of RFC 3629 ----------

  // The number that n bytes stand for, when the marks of the lead byte and of the others are taken off.
  function CharNumber(s: Bytes, n: nat): int
    requires 2 <= n <= 4 && n <= |s|
  {
    var a: int, b: int := s[0], s[1];
    if n == 2 then (a - 0xC0) * 64 + (b - 0x80)
    else
      var c: int := s[2];
      if n == 3 then (a - 0xE0) * 4096 + (b - 0x80) * 64 + (c - 0x80)
      else
        var d: int := s[3];
        (a - 0xF0) * 262144 + (b - 0x80) * 4096 + (c - 0x80) * 64 + (d - 0x80)
  }

  // The first n bytes of s are the form of a character: its number is one for which RFC 3629 section 3 prescribes
  // n bytes, and no surrogate.
  predicate CharForm(s: Bytes, n: nat) {
    |s| >= n &&
    if n == 1 then s[0] <= 0x7F
    else if n == 2 then 0xC0 <= s[0] <= 0xDF && Tail(s[1]) && 0x80 <= CharNumber(s, n)
    else if n == 3 then
      && 0xE0 <= s[0] <= 0xEF && Tail(s[1]) && Tail(s[2])
      && 0x800 <= CharNumber(s, n) && !(0xD800 <= CharNumber(s, n) <= 0xDFFF)
    else
      && n == 4 && 0xF0 <= s[0] <= 0xF7 && Tail(s[1]) && Tail(s[2]) && Tail(s[3])
      && 0x10000 <= CharNumber(s, n) <= 0x10FFFF
  }

  lemma CharLengthIff(s: Bytes, n: nat)
    requires s != []
    ensures CharLength(s) == n > 0 <==> CharForm(s, n)
  {
  }

  // What is stored for an escape is UTF-8 exactly when its number is no surrogate.
  lemma EscapeIsUtf8(h1: Byte, h2: Byte, h3: Byte, h4: Byte)
    requires Hex(h1) && Hex(h2) && Hex(h3) && Hex(h4)
    ensures Utf8(ItemBytes(Uni(h1, h2, h3, h4))) <==> !(0xD800 <= Number16(h1, h2, h3, h4) <= 0xDFFF)
  {
    hide ItemBytes, Number16, CharLength, HexValue;
    EscapeEncodes(h1, h2, h3, h4);
    EncodedIsUtf8(ItemBytes(Uni(h1, h2, h3, h4)), Number16(h1, h2, h3, h4));
  }

  lemma EncodedIsUtf8(s: Bytes, v: int)
    requires Encodes(s, v)
    ensures Utf8(s) <==> !(0xD800 <= v <= 0xDFFF)
  {
    hide CharLength;
    CharLengthIff(s, |s|);
    CharLengthIff(s, CharLength(s));
    assert s[|s|..] == [];
  }

  // ---------- RFC 8259 section 8.1 ----------

  lemma FirstChar(a: Bytes, b: Bytes)
    requires a != [] && CharLength(a) > 0
    ensures CharLength(a + b) == CharLength(a) && (a + b)[CharLength(a)..] == a[CharLength(a)..] + b
  {
  }

  lemma {:induction false} Utf8Join(a: Bytes, b: Bytes)
    requires Utf8(a) && Utf8(b)
    ensures Utf8(a + b)
    decreases |a|
  {
    hide CharLength;
    if a == [] {
      assert a + b == b;
    } else {
      var n := CharLength(a);
      FirstChar(a, b);
      Utf8Join(a[n..], b);
    }
  }

  predicate Ascii(w: Bytes) {
    forall k :: 0 <= k < |w| ==> w[k] <= 0x7F
  }

  lemma {:induction false} AsciiIsUtf8(w: Bytes)
    requires Ascii(w)
    ensures Utf8(w)
    decreases |w|
  {
    if w != [] {
      AsciiIsUtf8(w[1..]);
    }
  }

  lemma BlankIsUtf8(w: Bytes)
    requires Blank(w)
    ensures Utf8(w)
  {
    AsciiIsUtf8(w);
  }

  lemma QuotedIsUtf8(items: seq<StrItem>)
    requires RfcString(items)
    ensures Utf8(Quoted(items))
  {
    StringTextIs(items);
    AsciiIsUtf8([QUOTE]);
    Utf8Join([QUOTE], StrYield(items));
    Utf8Join([QUOTE] + StrYield(items), [QUOTE]);
  }

  lemma NumberIsUtf8(t: NumTok)
    requires RfcNumber(t)
    ensures Utf8(TokYield(t))
  {
    hide Utf8;
    AsciiIsUtf8(TokYield(t));
  }

  lemma {:induction false} ValueIsUtf8(c: Cst)
    requires RfcValue(c)
    ensures Utf8(Yield(c))
    decreases c
  {
    hide Utf8, Quoted, TokYield, RfcNumber, RfcString, Blank, RfcItems, ItemsYield;
    match c
    case Num(tok) => NumberIsUtf8(tok);
    case Str(str) => QuotedIsUtf8(str);
    case Box(isObj, items, close) =>
      ItemsAreUtf8(isObj, items);
      BlankIsUtf8(close);
      AsciiIsUtf8([Opener(isObj)]);
      AsciiIsUtf8([Closer(isObj)]);
      Utf8Join([Opener(isObj)], ItemsYield(items));
      Utf8Join([Opener(isObj)] + ItemsYield(items), close);
      Utf8Join([Opener(isObj)] + ItemsYield(items) + close, [Closer(isObj)]);
    case _ => AsciiIsUtf8(Yield(c));
  }

  lemma {:induction false} ItemsAreUtf8(isObj: bool, items: seq<Item>)
    requires RfcItems(isObj, items)
    ensures Utf8(ItemsYield(items))
    decreases items
  {
    hide Utf8, RfcValue, Yield, LeadYield, CommaYield, RfcString, Blank;
    if items == [] {
      AsciiIsUtf8([]);
    } else {
      var last := items[|items| - 1];
      ItemsAreUtf8(isObj, items[..|items| - 1]);
      LeadIsUtf8(last.lead);
      BlankIsUtf8(last.pre);
      ValueIsUtf8(last.val);
      CommaIsUtf8(last.comma);
      Utf8Join(LeadYield(last.lead), last.pre);
      Utf8Join(LeadYield(last.lead) + last.pre, Yield(last.val));
      Utf8Join(LeadYield(last.lead) + last.pre + Yield(last.val), CommaYield(last.comma));
      Utf8Join(ItemsYield(items[..|items| - 1]), ItemYieldOf(last));
    }
  }

  lemma LeadIsUtf8(lead: Lead)
    requires lead.Keyed? ==> Blank(lead.pre) && RfcString(lead.key) && Blank(lead.colon)
    ensures Utf8(LeadYield(lead))
  {
    hide Utf8, Quoted, RfcString, Blank;
    AsciiIsUtf8([]);
    if lead.Keyed? {
      BlankIsUtf8(lead.pre);
      BlankIsUtf8(lead.colon);
      QuotedIsUtf8(lead.key);
      AsciiIsUtf8([COLON]);
      Utf8Join(lead.pre, Quoted(lead.key));
      Utf8Join(lead.pre + Quoted(lead.key), lead.colon);
      Utf8Join(lead.pre + Quoted(lead.key) + lead.colon, [COLON]);
    }
  }

  lemma CommaIsUtf8(comma: Comma)
    requires comma.Comma? ==> Blank(comma.pre)
    ensures Utf8(CommaYield(comma))
  {
    hide Utf8, Blank;
    AsciiIsUtf8([]);
    AsciiIsUtf8([COMMA]);
    if comma.Comma? {
      BlankIsUtf8(comma.pre);
      Utf8Join(comma.pre, [COMMA]);
    }
  }

  // A text of RFC 8259 is UTF-8 as a whole.
  lemma RfcIsUtf8(d: Doc)
    requires RfcDoc(d)
    ensures Utf8(DocText(d))
  {
    hide Utf8, RfcValue, Yield, Blank;
    DocTextIs(d);
    BlankIsUtf8(d.pre);
    BlankIsUtf8(d.post);
    ValueIsUtf8(d.val);
    Utf8Join(d.pre, Yield(d.val));
    Utf8Join(d.pre + Yield(d.val), d.post);
  }
}
