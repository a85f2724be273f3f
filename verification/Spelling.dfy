/**
 The language once more, in characters: which trees are correct, what they spell, and within which limits
 the parser takes them. Nothing here is said in terms of the parser's own constants, and what the machine
 accepts is proved to be exactly this.
 */
module Spelling {
  import opened Text
  import opened Escape
  import opened Numbers
  import opened Grammar
  import opened Machine
  import Completeness

  // ---------- What a tree spells ----------

  function NumberText(t: NumTok): Bytes {
    (if t.neg then ['-' as int] else []) + t.ip
    + (if t.frac.Some? then ['.' as int] + t.frac.value else [])
    + (if t.exp.Some? then
         [t.exp.value.mark] + (if t.exp.value.sign.Some? then [t.exp.value.sign.value] else []) + t.exp.value.digits
       else [])
  }

  function ItemText(it: StrItem): Bytes {
    match it
    case Raw(b) => [b]
    case Esc(c) => ['\\' as int, c]
    case Uni(h1, h2, h3, h4) => ['\\' as int, 'u' as int, h1, h2, h3, h4]
  }

  function StringText(items: seq<StrItem>): Bytes {
    if items == [] then [] else StringText(items[..|items| - 1]) + ItemText(items[|items| - 1])
  }

  function QuotedText(items: seq<StrItem>): Bytes {
    ['"' as int] + StringText(items) + ['"' as int]
  }

  function TextOf(c: Cst): Bytes
    decreases c
  {
    match c
    case Null => ['n' as int, 'u' as int, 'l' as int, 'l' as int]
    case True => ['t' as int, 'r' as int, 'u' as int, 'e' as int]
    case False => ['f' as int, 'a' as int, 'l' as int, 's' as int, 'e' as int]
    case Num(tok) => NumberText(tok)
    case Str(str) => QuotedText(str)
    case Box(isObj, items, close) =>
      if isObj then ['{' as int] + MembersText(items) + close + ['}' as int]
      else ['[' as int] + MembersText(items) + close + [']' as int]
  }

  // Each value with its key, if it has one, and with the comma that may follow it.
  function MembersText(items: seq<Item>): Bytes
    decreases items
  {
    if items == [] then []
    else
      var last := items[|items| - 1];
      MembersText(items[..|items| - 1])
      + ((match last.lead
          case NoKey => []
          case Keyed(pre, key, colon) => pre + QuotedText(key) + colon + [':' as int])
         + last.pre + TextOf(last.val)
         + (match last.comma
            case NoComma => []
            case Comma(pre) => pre + [',' as int]))
  }

  function DocText(d: Doc): Bytes {
    d.pre + TextOf(d.val) + d.post
  }

  lemma {:induction false} StringTextIs(items: seq<StrItem>)
    ensures StringText(items) == StrYield(items)
  {
    if items != [] {
      StringTextIs(items[..|items| - 1]);
      hide StringText, StrYield;
    }
  }

  lemma {:induction false} TextIs(c: Cst)
    ensures TextOf(c) == Yield(c)
    decreases c
  {
    hide StringText, StrYield, MembersText, ItemsYield;
    match c
    case Num(tok) =>
    case Str(str) => StringTextIs(str);
    case Box(_, items, _) => MembersTextIs(items);
    case _ =>
  }

  lemma {:induction false} MembersTextIs(items: seq<Item>)
    ensures MembersText(items) == ItemsYield(items)
    decreases items
  {
    hide StringText, StrYield, TextOf, Yield;
    if items != [] {
      var last := items[|items| - 1];
      MembersTextIs(items[..|items| - 1]);
      TextIs(last.val);
      if last.lead.Keyed? {
        StringTextIs(last.lead.key);
      }
    }
  }

  lemma DocTextIs(d: Doc)
    ensures DocText(d) == DocYield(d)
  {
    TextIs(d.val);
  }

  // ---------- Which trees are correct ----------

  predicate Blank(w: Bytes) {
    forall k :: 0 <= k < |w| ==> w[k] in {' ' as int, '\t' as int, '\n' as int, '\r' as int}
  }

  predicate Digit(b: Byte) {
    '0' as int <= b <= '9' as int
  }

  predicate Digits(d: Bytes) {
    forall k :: 0 <= k < |d| ==> Digit(d[k])
  }

  predicate Hex(b: Byte) {
    Digit(b) || 'a' as int <= b <= 'f' as int || 'A' as int <= b <= 'F' as int
  }

  // Any byte but 0 may be escaped; a 'u' takes four hexadecimal digits.
  predicate ItemCorrect(it: StrItem) {
    match it
    case Raw(b) => b != 0 && b != '"' as int && b != '\\' as int
    case Esc(c) => c != 0 && c != 'u' as int
    case Uni(h1, h2, h3, h4) => Hex(h1) && Hex(h2) && Hex(h3) && Hex(h4)
  }

  predicate StringCorrect(items: seq<StrItem>) {
    forall k :: 0 <= k < |items| ==> ItemCorrect(items[k])
  }

  // The integer part has no leading zero and may be missing after a '-', before no dot.
  predicate NumberCorrect(t: NumTok) {
    && Digits(t.ip) && (|t.ip| > 1 ==> t.ip[0] != '0' as int) && (t.ip == [] ==> t.neg && t.frac.None?)
    && (t.frac.Some? ==> t.frac.value != [] && Digits(t.frac.value))
    && (t.exp.Some? ==>
          var e := t.exp.value;
          && (e.mark == 'e' as int || e.mark == 'E' as int)
          && (e.sign.Some? ==> e.sign.value == '+' as int || e.sign.value == '-' as int)
          && e.digits != [] && Digits(e.digits))
  }

  predicate Correct(c: Cst)
    decreases c
  {
    match c
    case Num(tok) => NumberCorrect(tok)
    case Str(str) => StringCorrect(str)
    case Box(isObj, items, close) => MembersCorrect(isObj, items) && Blank(close)
    case _ => true
  }

  // Members have keys, elements have none; a comma stands after each but the last, and may stand there as well.
  predicate MembersCorrect(isObj: bool, items: seq<Item>)
    decreases items
  {
    items != [] ==>
      var init, last := items[..|items| - 1], items[|items| - 1];
      && MembersCorrect(isObj, init)
      && (init != [] ==> init[|init| - 1].comma.Comma?)
      && last.lead.Keyed? == isObj
      && (isObj ==> Blank(last.lead.pre) && StringCorrect(last.lead.key) && Blank(last.lead.colon))
      && Blank(last.pre) && (last.comma.Comma? ==> Blank(last.comma.pre))
      && Correct(last.val)
  }

  lemma BlankIs(w: Bytes)
    ensures Blank(w) <==> AllWs(w)
  {
    forall b: Byte ensures b in {' ' as int, '\t' as int, '\n' as int, '\r' as int} <==> IsWs(b) {
    }
  }

  lemma StringCorrectIs(items: seq<StrItem>)
    ensures StringCorrect(items) <==> StrOk(items)
  {
    forall it: StrItem ensures ItemCorrect(it) <==> ItemOk(it) {
    }
  }

  lemma NumberCorrectIs(t: NumTok)
    ensures NumberCorrect(t) <==> TokOk(t)
  {
    forall d: Bytes ensures Digits(d) <==> AllDigits(d) {
    }
  }

  lemma {:induction false} CorrectIs(c: Cst)
    ensures Correct(c) <==> WellFormed(c)
    decreases c
  {
    hide NumberCorrect, TokOk, StringCorrect, StrOk, MembersCorrect, ItemsOk, Blank, AllWs;
    match c
    case Num(tok) => NumberCorrectIs(tok);
    case Str(str) => StringCorrectIs(str);
    case Box(isObj, items, close) =>
      MembersCorrectIs(isObj, items);
      BlankIs(close);
    case _ =>
  }

  lemma {:induction false} MembersCorrectIs(isObj: bool, items: seq<Item>)
    ensures MembersCorrect(isObj, items) <==> ItemsOk(isObj, items)
    decreases items
  {
    hide StringCorrect, StrOk, Correct, WellFormed, Blank, AllWs;
    if items != [] {
      var last := items[|items| - 1];
      MembersCorrectIs(isObj, items[..|items| - 1]);
      CorrectIs(last.val);
      BlankIs(last.pre);
      if last.lead.Keyed? {
        BlankIs(last.lead.pre);
        BlankIs(last.lead.colon);
        StringCorrectIs(last.lead.key);
      }
      if last.comma.Comma? {
        BlankIs(last.comma.pre);
      }
    }
  }

  // ---------- The limits ----------

  // No string, no key and no container is longer than 2^32 - 9.
  predicate Within(c: Cst)
    decreases c
  {
    match c
    case Str(str) => |StrBytes(str)| <= 4294967287
    case Box(_, items, _) => |items| <= 4294967287 && MembersWithin(items)
    case _ => true
  }

  predicate MembersWithin(items: seq<Item>)
    decreases items
  {
    items != [] ==>
      var last := items[|items| - 1];
      && MembersWithin(items[..|items| - 1])
      && (last.lead.Keyed? ==> |StrBytes(last.lead.key)| <= 4294967287)
      && Within(last.val)
  }

  lemma {:induction false} WithinIs(c: Cst)
    requires WellFormed(c)
    ensures Within(c) <==> Fits(c)
    decreases c
  {
    hide StrBytes, StrLength, StrOk, MembersWithin, ItemsFit, ItemsOk;
    match c
    case Str(str) => StringCountedIsWritten(str);
    case Box(isObj, items, _) => MembersWithinIs(isObj, items);
    case _ =>
  }

  lemma {:induction false} MembersWithinIs(isObj: bool, items: seq<Item>)
    requires ItemsOk(isObj, items)
    ensures MembersWithin(items) <==> ItemsFit(items)
    decreases items
  {
    hide StrBytes, StrLength, StrOk, Within, Fits, WellFormed;
    if items != [] {
      var last := items[|items| - 1];
      MembersWithinIs(isObj, items[..|items| - 1]);
      WithinIs(last.val);
      if last.lead.Keyed? {
        StringCountedIsWritten(last.lead.key);
      }
    }
  }

  // A tree that spells at most that many bytes is within the limits.
  lemma {:induction false} ShortIsWithin(c: Cst)
    requires Correct(c) && |TextOf(c)| <= 4294967287
    ensures Within(c)
    decreases c
  {
    hide StrBytes, StringText, StrYield, MembersText, MembersWithin;
    match c
    case Str(str) =>
      BytesFromText(str);
      StringTextIs(str);
    case Box(isObj, items, _) => ShortMembers(isObj, items);
    case _ =>
  }

  lemma SomeText(c: Cst)
    requires Correct(c)
    ensures |TextOf(c)| >= 1
  {
  }

  lemma {:induction false} ShortMembers(isObj: bool, items: seq<Item>)
    requires MembersCorrect(isObj, items) && |MembersText(items)| <= 4294967287
    ensures |items| <= |MembersText(items)| && MembersWithin(items)
    decreases items
  {
    hide StrBytes, StringText, StrYield, TextOf, Within;
    if items != [] {
      var last := items[|items| - 1];
      ShortMembers(isObj, items[..|items| - 1]);
      SomeText(last.val);
      ShortIsWithin(last.val);
      if last.lead.Keyed? {
        BytesFromText(last.lead.key);
        StringTextIs(last.lead.key);
      }
    }
  }

  // ---------- The language ----------

  // d is a correct tree within the limits that spells the text, or all of it before a 0 byte.
  predicate Spells(d: Doc, text: Bytes) {
    var n := |DocText(d)|;
    && Blank(d.pre) && Correct(d.val) && Blank(d.post) && Within(d.val)
    && n <= |text| && text[..n] == DocText(d) && (n < |text| ==> text[n] == 0)
  }

  lemma SpellsIs(d: Doc, text: Bytes)
    ensures Spells(d, text) <==> Derives(d, text)
  {
    BlankIs(d.pre);
    BlankIs(d.post);
    CorrectIs(d.val);
    DocTextIs(d);
    if WellFormed(d.val) {
      WithinIs(d.val);
    }
    hide Correct, WellFormed, Within, Fits, DocText, DocYield, Blank, AllWs;
  }

  // The byte loop accepts a text with a tree exactly when the tree spells it.
  lemma ParseIffSpelled(text: Bytes, d: Doc)
    ensures Parse(text) == Accepted(d) <==> Spells(d, text)
  {
    hide Parse, Spells, Derives;
    SpellsIs(d, text);
    Completeness.ParseIffDerives(text, d);
  }

  // Within 2^32 - 9 bytes every correct tree is accepted.
  lemma ShortIsAccepted(text: Bytes, d: Doc)
    requires Blank(d.pre) && Correct(d.val) && Blank(d.post) && DocText(d) == text && |text| <= 4294967287
    ensures Parse(text) == Accepted(d)
  {
    hide Parse, Correct, TextOf, Within;
    ShortIsWithin(d.val);
    assert text[..|text|] == text;
    ParseIffSpelled(text, d);
  }
}
