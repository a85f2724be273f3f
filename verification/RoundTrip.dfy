/**
 A printer for values, the inverse of parsing: whatever is printed, with any white space put between
 its tokens, parses back to the value.
 */
module RoundTrip {
  import opened Text
  import opened Escape
  import opened Numbers
  import opened Grammar
  import opened Machine
  import Completeness
  import Soundness
  import Spelling

  // ---------- Printing ----------

  function Digits(n: nat): Bytes {
    if n < 10 then [DIGIT_0 + n] else Digits(n / 10) + [DIGIT_0 + n % 10]
  }

  function PrintByte(b: Byte): StrItem {
    if b == 0 then Uni(DIGIT_0, DIGIT_0, DIGIT_0, DIGIT_0)
    else if b == QUOTE || b == BACKSLASH then Esc(b)
    else Raw(b)
  }

  function PrintString(s: Bytes): seq<StrItem> {
    if s == [] then [] else PrintString(s[..|s| - 1]) + [PrintByte(s[|s| - 1])]
  }

  function PrintInt(n: int): NumTok {
    NumTok(n < 0, Digits(if n < 0 then -n else n), None, None)
  }

  function Separator(more: bool): Comma {
    if more then Comma([]) else NoComma
  }

  // The tree that spells a value without white space. Only integers are printed as numbers.
  function Print(v: Value): Cst
    decreases v, 0
  {
    match v
    case VNull => Null
    case VBool(b) => if b then True else False
    case VNumber(n) => if n.Int? then Num(PrintInt(n.n)) else Null
    case VString(s) => Str(PrintString(s))
    case VArray(elems) => Box(false, PrintElems(elems, false), [])
    case VObject(members) => Box(true, PrintMembers(members, false), [])
  }

  function PrintElems(elems: seq<Value>, more: bool): (r: seq<Item>)
    ensures |r| == |elems|
    decreases elems
  {
    if elems == [] then [] else PrintElems(elems[..|elems| - 1], true) + [PrintElem(elems[|elems| - 1], more)]
  }

  function PrintElem(v: Value, more: bool): Item
    decreases v, 1
  {
    Item(NoKey, [], Print(v), Separator(more))
  }

  function PrintMembers(members: seq<Pair>, more: bool): (r: seq<Item>)
    ensures |r| == |members|
    decreases members
  {
    if members == [] then [] else PrintMembers(members[..|members| - 1], true) + [PrintMember(members[|members| - 1], more)]
  }

  function PrintMember(p: Pair, more: bool): Item
    decreases p
  {
    Item(Keyed([], PrintString(p.name), []), [], Print(p.value), Separator(more))
  }

  // Values without doubles, within the 64-bit and 32-bit ranges of the parser.
  predicate Printable(v: Value)
    decreases v
  {
    match v
    case VNumber(n) => n.Int? && -0x7FFF_FFFF_FFFF_FFFF <= n.n <= 0x7FFF_FFFF_FFFF_FFFF
    case VString(s) => |s| <= 4294967287
    case VArray(elems) => ElemsPrintable(elems) && |elems| <= 4294967287
    case VObject(members) => MembersPrintable(members) && |members| <= 4294967287
    case _ => true
  }

  predicate ElemsPrintable(elems: seq<Value>)
    decreases elems
  {
    elems != [] ==> ElemsPrintable(elems[..|elems| - 1]) && Printable(elems[|elems| - 1])
  }

  predicate MembersPrintable(members: seq<Pair>)
    decreases members
  {
    members != [] ==>
      var last := members[|members| - 1];
      && MembersPrintable(members[..|members| - 1])
      && |last.name| <= 4294967287 && Printable(last.value)
  }

  lemma {:induction false} DigitsDecimal(n: nat)
    ensures AllDigits(Digits(n)) && Digits(n) != [] && Decimal(Digits(n)) == n
    ensures n > 0 ==> Digits(n)[0] != DIGIT_0
    ensures n == 0 ==> |Digits(n)| == 1
  {
    if n >= 10 {
      DigitsDecimal(n / 10);
      AccumulateDigit(Digits(n / 10), DIGIT_0 + n % 10);
    } else {
      assert Decimal(Digits(n)[..0]) == 0;
    }
  }

  lemma PrintIntOk(n: int)
    requires -INT64_MAX <= n <= INT64_MAX
    ensures TokOk(PrintInt(n)) && InRange(PrintInt(n)) && NumberOf(PrintInt(n), Exact) == Int(n)
  {
    DigitsDecimal(if n < 0 then -n else n);
    assert n == 0 ==> Digits(0) == [DIGIT_0];
  }

  lemma PrintByteOk(b: Byte)
    ensures ItemOk(PrintByte(b)) && ItemLength(PrintByte(b)) == 1 && ItemBytes(PrintByte(b)) == [b]
  {
  }

  lemma {:induction false} PrintStringOk(s: Bytes)
    ensures StrOk(PrintString(s)) && StrLength(PrintString(s)) == |s| && StrBytes(PrintString(s)) == s
  {
    hide ItemOk, ItemBytes, ItemLength, PrintByte, StrBytes, StrLength, StrOk, StrYield;
    if s == [] {
      EmptyString();
    } else {
      var init, last := s[..|s| - 1], s[|s| - 1];
      PrintStringOk(init);
      PrintByteOk(last);
      StrYieldSnoc(PrintString(init), PrintByte(last));
      assert s == init + [last];
    }
  }

  lemma EmptyString()
    ensures StrOk([]) && StrLength([]) == 0 && StrBytes([]) == []
  {
  }

  lemma {:induction false} PrintOk(v: Value)
    requires Printable(v)
    ensures WellFormed(Print(v)) && Fits(Print(v)) && NumbersInRange(Print(v))
    ensures Meaning(Print(v), Exact) == v
    decreases v
  {
    hide StrBytes, StrLength, StrOk, PrintString, PrintInt, PrintElems, PrintMembers, TokOk, InRange, NumberOf,
         ItemsOk, ItemsFit, ItemsInRange, Elems, Members, ElemsPrintable, MembersPrintable;
    match v
    case VNumber(n) => PrintIntOk(n.n);
    case VString(s) => PrintStringOk(s);
    case VArray(elems) => PrintElemsOk(elems, false);
    case VObject(members) => PrintMembersOk(members, false);
    case _ =>
  }

  lemma Snoc(items: seq<Item>, it: Item, w: Width)
    ensures ItemsInRange(items + [it]) <==> ItemsInRange(items) && NumbersInRange(it.val)
    ensures Elems(items + [it], w) == Elems(items, w) + [Meaning(it.val, w)]
    ensures Members(items + [it], w) == Members(items, w) + [Pair(KeyBytes(it.lead), Meaning(it.val, w))]
  {
  }

  // An item whose value is printed properly joins items that are.
  lemma SnocOk(isObj: bool, items: seq<Item>, it: Item)
    requires ItemsOk(isObj, items) && ItemsFit(items) && ItemsInRange(items) && LastHasComma(items)
    requires WellFormed(it.val) && Fits(it.val) && NumbersInRange(it.val) && it.lead.Keyed? == isObj
    requires it.lead.Keyed? ==>
               it.lead.pre == it.lead.colon == [] && StrOk(it.lead.key) && StrLength(it.lead.key) <= UINT_LIMIT
    requires it.pre == [] && CommaOk(it.comma)
    ensures ItemsOk(isObj, items + [it]) && ItemsFit(items + [it]) && ItemsInRange(items + [it])
  {
  }

  lemma {:induction false} PrintElemsOk(elems: seq<Value>, more: bool)
    requires ElemsPrintable(elems)
    ensures var items := PrintElems(elems, more);
            && ItemsOk(false, items) && ItemsFit(items) && ItemsInRange(items)
            && Elems(items, Exact) == elems && (more ==> LastHasComma(items))
    decreases elems
  {
    hide Print, Printable, ItemsOk, ItemsFit, ItemsInRange, Elems, WellFormed, Fits, NumbersInRange, Meaning;
    if elems == [] {
      NoMembers();
    } else {
      var init, last := elems[..|elems| - 1], elems[|elems| - 1];
      PrintElemsOk(init, true);
      PrintOk(last);
      SnocOk(false, PrintElems(init, true), PrintElem(last, more));
      Snoc(PrintElems(init, true), PrintElem(last, more), Exact);
      assert elems == init + [last];
    }
  }

  lemma {:induction false} PrintMembersOk(members: seq<Pair>, more: bool)
    requires MembersPrintable(members)
    ensures var items := PrintMembers(members, more);
            && ItemsOk(true, items) && ItemsFit(items) && ItemsInRange(items)
            && Members(items, Exact) == members && (more ==> LastHasComma(items))
    decreases members
  {
    hide Print, PrintString, StrBytes, StrLength, StrOk, Printable, ItemsOk, ItemsFit, ItemsInRange, Members,
         WellFormed, Fits, NumbersInRange, Meaning;
    if members == [] {
      NoMembers();
    } else {
      var init, last := members[..|members| - 1], members[|members| - 1];
      PrintMembersOk(init, true);
      PrintOk(last.value);
      PrintStringOk(last.name);
      SnocOk(true, PrintMembers(init, true), PrintMember(last, more));
      Snoc(PrintMembers(init, true), PrintMember(last, more), Exact);
      assert members == init + [last];
    }
  }

  lemma NoMembers()
    ensures forall isObj :: ItemsOk(isObj, [])
    ensures ItemsFit([]) && ItemsInRange([]) && Elems([], Exact) == [] && Members([], Exact) == []
  {
  }

  // ---------- White space between tokens ----------

  function Bare(c: Cst): Cst
    decreases c
  {
    if c.Box? then Box(c.isObj, BareItems(c.items), []) else c
  }

  function BareItem(it: Item): Item
    decreases it
  {
    Item(
      if it.lead.Keyed? then Keyed([], it.lead.key, []) else NoKey,
      [], Bare(it.val), Separator(it.comma.Comma?))
  }

  function BareItems(items: seq<Item>): (r: seq<Item>)
    ensures |r| == |items|
    decreases items
  {
    if items == [] then [] else BareItems(items[..|items| - 1]) + [BareItem(items[|items| - 1])]
  }

  // All blanks of the tree are white space.
  predicate Spaced(c: Cst)
    decreases c
  {
    c.Box? ==> ItemsSpaced(c.items) && AllWs(c.close)
  }

  predicate ItemsSpaced(items: seq<Item>)
    decreases items
  {
    items != [] ==>
      var last := items[|items| - 1];
      && ItemsSpaced(items[..|items| - 1])
      && (last.lead.Keyed? ==> AllWs(last.lead.pre) && AllWs(last.lead.colon))
      && AllWs(last.pre) && CommaOk(last.comma) && Spaced(last.val)
  }

  // White space has no influence on well-formedness, counters or meaning.
  lemma {:induction false} BareSame(c: Cst, w: Width)
    requires Spaced(c)
    ensures WellFormed(Bare(c)) == WellFormed(c) && Fits(Bare(c)) == Fits(c)
    ensures Meaning(Bare(c), w) == Meaning(c, w)
    decreases c
  {
    if c.Box? {
      BareItemsSame(c.isObj, c.items, w);
    }
  }

  lemma {:induction false} BareItemsSame(isObj: bool, items: seq<Item>, w: Width)
    requires ItemsSpaced(items)
    ensures ItemsOk(isObj, BareItems(items)) == ItemsOk(isObj, items)
    ensures ItemsFit(BareItems(items)) == ItemsFit(items)
    ensures Elems(BareItems(items), w) == Elems(items, w)
    ensures Members(BareItems(items), w) == Members(items, w)
    ensures LastHasComma(BareItems(items)) == LastHasComma(items)
    decreases items
  {
    hide StrBytes, StrLength, StrOk, WellFormed, Fits, Meaning, NumbersInRange, Bare, ItemsOk, ItemsFit, ItemsInRange,
         Elems, Members, ItemsYield;
    if items != [] {
      var init, last := items[..|items| - 1], items[|items| - 1];
      BareItemsSame(isObj, init, w);
      BareSame(last.val, w);
      assert items == init + [last];
      Soundness.ItemsSnoc(init, last);
      Soundness.ItemsSnoc(BareItems(init), BareItem(last));
      Snoc(init, last, w);
      Snoc(BareItems(init), BareItem(last), w);
    }
  }

  // ---------- Round trip ----------

  // However the tokens of a printed value are spaced, the parser accepts the
  // text and what it stores is the value.
  lemma PrintParses(v: Value, d: Doc)
    requires Printable(v)
    requires Bare(d.val) == Print(v) && Spaced(d.val) && AllWs(d.pre) && AllWs(d.post)
    ensures Parse(Spelling.DocText(d)) == Accepted(d)
    ensures Meaning(d.val, Exact) == v && Meaning(d.val, Int64) == v
  {
    PrintOk(v);
    MeaningExact(Print(v));
    BareSame(d.val, Exact);
    BareSame(d.val, Int64);
    Spelling.DocTextIs(d);
    Completeness.OwnText(d);
  }

  // Different printable values are never spelled alike.
  lemma PrintInjective(v: Value, v': Value, d: Doc, d': Doc)
    requires Printable(v) && Bare(d.val) == Print(v) && Spaced(d.val) && AllWs(d.pre) && AllWs(d.post)
    requires Printable(v') && Bare(d'.val) == Print(v') && Spaced(d'.val) && AllWs(d'.pre) && AllWs(d'.post)
    requires Spelling.DocText(d) == Spelling.DocText(d')
    ensures v == v'
  {
    PrintParses(v, d);
    PrintParses(v', d');
  }
}
