/**
 The language the parser decides with relaxed commas off, as concrete syntax trees: what a tree
 spells (Yield), which trees are well formed, and which value a tree denotes (Meaning).
 */
module Grammar {
  import opened Text
  import opened Escape
  import opened Numbers

  // White space and, in an object, the key that precede an item's value.
  datatype Lead = NoKey | Keyed(pre: Bytes, key: seq<StrItem>, colon: Bytes)

  datatype Comma = NoComma | Comma(pre: Bytes)

  // An array element or an object member, with the comma that follows it if there is one.
  datatype Item = Item(lead: Lead, pre: Bytes, val: Cst, comma: Comma)

  datatype Cst =
    | Null
    | True
    | False
    | Num(tok: NumTok)
    | Str(str: seq<StrItem>)
    | Box(isObj: bool, items: seq<Item>, close: Bytes)

  datatype Doc = Doc(pre: Bytes, val: Cst, post: Bytes)

  // ---------- Spelling ----------

  function Opener(isObj: bool): Byte {
    if isObj then LBRACE else LBRACKET
  }

  function Closer(isObj: bool): Byte {
    if isObj then RBRACE else RBRACKET
  }

  function Quoted(items: seq<StrItem>): Bytes {
    [QUOTE] + StrYield(items) + [QUOTE]
  }

  function LeadYield(lead: Lead): Bytes {
    match lead
    case NoKey => []
    case Keyed(pre, key, colon) => pre + Quoted(key) + colon + [COLON]
  }

  function CommaYield(comma: Comma): Bytes {
    match comma
    case NoComma => []
    case Comma(pre) => pre + [COMMA]
  }

  function Yield(c: Cst): Bytes {
    match c
    case Null => NULL_BYTES
    case True => TRUE_BYTES
    case False => FALSE_BYTES
    case Num(tok) => TokYield(tok)
    case Str(str) => Quoted(str)
    case Box(isObj, items, close) => [Opener(isObj)] + ItemsYield(items) + close + [Closer(isObj)]
  }

  function ItemYieldOf(item: Item): Bytes {
    LeadYield(item.lead) + item.pre + Yield(item.val) + CommaYield(item.comma)
  }

  function ItemsYield(items: seq<Item>): Bytes {
    if items == [] then [] else ItemsYield(items[..|items| - 1]) + ItemYieldOf(items[|items| - 1])
  }

  function DocYield(d: Doc): Bytes {
    d.pre + Yield(d.val) + d.post
  }

  // ---------- Well-formedness ----------

  predicate LeadOk(lead: Lead) {
    lead.Keyed? ==> AllWs(lead.pre) && StrOk(lead.key) && AllWs(lead.colon)
  }

  predicate CommaOk(comma: Comma) {
    comma.Comma? ==> AllWs(comma.pre)
  }

  predicate LastHasComma(items: seq<Item>) {
    items != [] ==> items[|items| - 1].comma.Comma?
  }

  // Items of an object carry keys, items of an array do not; a comma stands
  // between neighbours and may also follow the last item.
  predicate WellFormed(c: Cst)
    decreases c
  {
    match c
    case Num(tok) => TokOk(tok)
    case Str(str) => StrOk(str)
    case Box(isObj, items, close) => ItemsOk(isObj, items) && AllWs(close)
    case _ => true
  }

  predicate ItemsOk(isObj: bool, items: seq<Item>)
    decreases items
  {
    items != [] ==>
      var init, last := items[..|items| - 1], items[|items| - 1];
      && ItemsOk(isObj, init)
      && LastHasComma(init)
      && last.lead.Keyed? == isObj
      && LeadOk(last.lead) && AllWs(last.pre) && CommaOk(last.comma)
      && WellFormed(last.val)
  }

  // The text fits the parser's 32-bit counters: no string and no container is
  // longer than uint_max.
  predicate Fits(c: Cst) {
    match c
    case Str(str) => StrLength(str) <= UINT_LIMIT
    case Box(isObj, items, close) => ItemsFit(items) && |items| <= UINT_LIMIT
    case _ => true
  }

  predicate ItemsFit(items: seq<Item>) {
    items != [] ==>
      var last := items[|items| - 1];
      && ItemsFit(items[..|items| - 1])
      && (last.lead.Keyed? ==> StrLength(last.lead.key) <= UINT_LIMIT)
      && Fits(last.val)
  }

  predicate DocOk(d: Doc) {
    AllWs(d.pre) && WellFormed(d.val) && Fits(d.val) && AllWs(d.post)
  }

  // d derives the text: it spells the whole text, or all of it before a 0 byte.
  predicate Derives(d: Doc, text: Bytes) {
    && DocOk(d)
    && Matches(text, 0, DocYield(d))
    && At(text, |DocYield(d)|) == 0
  }

  // ---------- Meaning ----------

  datatype Value =
    | VNull
    | VBool(b: bool)
    | VNumber(n: Number)
    | VString(s: Bytes)
    | VArray(elems: seq<Value>)
    | VObject(members: seq<Pair>)

  datatype Pair = Pair(name: Bytes, value: Value)

  // Objects keep their members in order, duplicates included.
  function Meaning(c: Cst, w: Width): Value {
    match c
    case Null => VNull
    case True => VBool(true)
    case False => VBool(false)
    case Num(tok) => VNumber(NumberOf(tok, w))
    case Str(str) => VString(StrBytes(str))
    case Box(isObj, items, close) =>
      if isObj then VObject(Members(items, w)) else VArray(Elems(items, w))
  }

  function Elems(items: seq<Item>, w: Width): (r: seq<Value>)
    ensures |r| == |items|
  {
    if items == [] then []
    else Elems(items[..|items| - 1], w) + [Meaning(items[|items| - 1].val, w)]
  }

  function KeyBytes(lead: Lead): Bytes {
    if lead.Keyed? then StrBytes(lead.key) else []
  }

  function Members(items: seq<Item>, w: Width): (r: seq<Pair>)
    ensures |r| == |items|
  {
    if items == [] then []
    else
      var last := items[|items| - 1];
      Members(items[..|items| - 1], w) + [Pair(KeyBytes(last.lead), Meaning(last.val, w))]
  }

  // Every number of the tree is within the 64-bit accumulators.
  predicate NumbersInRange(c: Cst) {
    match c
    case Num(tok) => InRange(tok)
    case Box(isObj, items, close) => ItemsInRange(items)
    case _ => true
  }

  predicate ItemsInRange(items: seq<Item>) {
    items != [] ==> ItemsInRange(items[..|items| - 1]) && NumbersInRange(items[|items| - 1].val)
  }

  // Within range the stored value is the exact one.
  lemma {:induction false} MeaningExact(c: Cst)
    requires WellFormed(c) && NumbersInRange(c)
    ensures Meaning(c, Int64) == Meaning(c, Exact)
    decreases c
  {
    match c
    case Num(tok) => StoredExactly(tok);
    case Box(isObj, items, close) => ItemsExact(isObj, items);
    case _ =>
  }

  lemma {:induction false} ItemsExact(isObj: bool, items: seq<Item>)
    requires ItemsOk(isObj, items) && ItemsInRange(items)
    ensures Elems(items, Int64) == Elems(items, Exact)
    ensures Members(items, Int64) == Members(items, Exact)
    decreases items
  {
    if items != [] {
      ItemsExact(isObj, items[..|items| - 1]);
      MeaningExact(items[|items| - 1].val);
    }
  }
}
