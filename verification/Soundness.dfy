/**
 What every step keeps: the bytes consumed so far are exactly what the partial tree spells, and the
 partial tree is well formed and within the counters. Hence an accepted tree derives the text.
 */
module Soundness {
  import opened Text
  import opened Escape
  import opened Numbers
  import opened Grammar
  import opened Machine

  function PartYield(part: Part): Bytes {
    match part
    case NoPart => []
    case KeyRead(pre, key) => pre + Quoted(key)
    case ColonRead(pre, key, colon) => pre + Quoted(key) + colon + [COLON]
  }

  function FrameYield(f: Frame): Bytes {
    f.pre + [Opener(f.isObj)] + ItemsYield(f.items) + PartYield(f.part)
  }

  function StackYield(s: Stack): Bytes {
    if s.Bottom? then [] else StackYield(s.rest) + FrameYield(s.top)
  }

  function ModeYield(m: Mode): Bytes {
    match m
    case Seek(ws) => ws
    case InObj(ws) => ws
    case InStr(_, ws, items, escaped) =>
      ws + [QUOTE] + StrYield(items) + (if escaped then [BACKSLASH] else [])
    case InNum(ws, tok) => ws + TokYield(tok)
    case Done(pre, val, post) => pre + Yield(val) + post
  }

  function Spelled(z: State): Bytes {
    StackYield(z.stack) + ModeYield(z.mode)
  }

  predicate PartOk(part: Part) {
    match part
    case NoPart => true
    case KeyRead(pre, key) => AllWs(pre) && StrOk(key) && StrLength(key) <= UINT_LIMIT
    case ColonRead(pre, key, colon) =>
      AllWs(pre) && StrOk(key) && StrLength(key) <= UINT_LIMIT && AllWs(colon)
  }

  // An open container. Only an object has a next key, and only where a
  // member may start.
  predicate FrameOk(f: Frame) {
    && AllWs(f.pre)
    && ItemsOk(f.isObj, f.items) && ItemsFit(f.items) && |f.items| <= UINT_LIMIT
    && PartOk(f.part)
    && (!f.part.NoPart? ==> f.isObj && LastHasComma(f.items))
  }

  // A container inside which a value is being read.
  predicate Awaiting(f: Frame) {
    FrameOk(f) && LastHasComma(f.items) && f.part.ColonRead? == f.isObj
  }

  predicate AllAwaiting(s: Stack) {
    s.Push? ==> Awaiting(s.top) && AllAwaiting(s.rest)
  }

  // An object that awaits a value has read key and colon.
  lemma AwaitingParts(s: Stack)
    requires s.Push? && AllAwaiting(s)
    ensures s.top.part.NoPart? == !s.top.isObj && !s.top.part.KeyRead?
  {
  }

  // The pushdown invariant of the machine.
  predicate StateOk(z: State) {
    var s := z.stack;
    match z.mode
    case Seek(ws) =>
      AllWs(ws) && (s.Push? ==> FrameOk(s.top) && s.top.isObj == !s.top.part.NoPart? && AllAwaiting(s.rest))
    case InObj(ws) =>
      AllWs(ws) && s.Push? && FrameOk(s.top) && s.top.isObj && s.top.part.NoPart? && AllAwaiting(s.rest)
    case InStr(isKey, ws, items, escaped) =>
      && AllWs(ws) && StrOk(items) && StrLength(items) <= UINT_LIMIT + 3
      && (escaped ==> StrLength(items) <= UINT_LIMIT)
      && (if isKey
          then s.Push? && FrameOk(s.top) && s.top.isObj && s.top.part.NoPart?
               && LastHasComma(s.top.items) && AllAwaiting(s.rest)
          else AllAwaiting(s))
    case InNum(ws, tok) => AllWs(ws) && PartialOk(tok) && AllAwaiting(s)
    case Done(pre, val, post) =>
      s.Bottom? && AllWs(pre) && WellFormed(val) && Fits(val) && AllWs(post)
  }

  // A number that has no byte yet starts at a digit.
  predicate NumberStarts(text: Bytes, i: nat, z: State)
    requires i <= |text|
  {
    z.mode.InNum? && !z.mode.tok.neg && z.mode.tok.ip == [] ==> IsDigit(At(text, i))
  }

  predicate Inv(text: Bytes, i: nat, z: State) {
    && i <= |text|
    && StateOk(z)
    && NumberStarts(text, i, z)
    && Spelled(z) == text[..i]
  }

  // ---------- One step ----------

  lemma Extend(text: Bytes, i: nat, ys: Bytes)
    requires Matches(text, i, ys)
    ensures text[..i] + ys == text[..i + |ys|]
  {
  }

  lemma ItemsSnoc(items: seq<Item>, it: Item)
    ensures ItemsYield(items + [it]) == ItemsYield(items) + ItemYieldOf(it)
    ensures ItemsFit(items + [it]) <==>
            ItemsFit(items) && (it.lead.Keyed? ==> StrLength(it.lead.key) <= UINT_LIMIT) && Fits(it.val)
    ensures forall isObj :: ItemsOk(isObj, items + [it]) <==>
              && ItemsOk(isObj, items) && LastHasComma(items) && it.lead.Keyed? == isObj
              && LeadOk(it.lead) && AllWs(it.pre) && CommaOk(it.comma) && WellFormed(it.val)
  {
  }

  lemma Regroup(r: Bytes, f: Bytes, s: Bytes, l: Bytes, p: Bytes, y: Bytes)
    ensures r + (f + (s + (l + p + y + [])) + []) + [] == r + (f + s + l) + (p + y)
  {
  }

  lemma AttachSpelled(s: Stack, pre: Bytes, v: Cst)
    requires s.Push? && !s.top.part.KeyRead?
    ensures Spelled(Attached(s, pre, v)) == StackYield(s) + (pre + Yield(v))
  {
    var f := s.top;
    var it := Item(LeadOf(f.part), pre, v, NoComma);
    assert (f.items + [it])[..|f.items|] == f.items;
    assert ItemsYield(f.items + [it]) == ItemsYield(f.items) + ItemYieldOf(it);
    assert StackYield(Attached(s, pre, v).stack.rest) == StackYield(s.rest);
    hide Yield, ItemsYield;
    Regroup(StackYield(s.rest), f.pre + [Opener(f.isObj)], ItemsYield(f.items), LeadYield(it.lead), pre, Yield(v));
  }

  lemma AttachOk(s: Stack, pre: Bytes, v: Cst)
    requires AllAwaiting(s) && AllWs(pre) && WellFormed(v) && Fits(v)
    requires s.Push? ==> |s.top.items| + 1 <= UINT_LIMIT
    ensures StateOk(Attached(s, pre, v))
  {
    hide Yield, ItemsYield, StackYield, WellFormed, Fits, ItemsOk, ItemsFit;
    if s.Push? {
      ItemsSnoc(s.top.items, Item(LeadOf(s.top.part), pre, v, NoComma));
    }
  }

  lemma AttachSound(s: Stack, pre: Bytes, v: Cst)
    requires AllAwaiting(s) && AllWs(pre) && WellFormed(v) && Fits(v)
    requires s.Push? ==> |s.top.items| + 1 <= UINT_LIMIT
    ensures StateOk(Attached(s, pre, v))
    ensures Spelled(Attached(s, pre, v)) == StackYield(s) + (pre + Yield(v))
  {
    hide StateOk, Yield, ItemsYield, WellFormed, Fits, ItemsOk, ItemsFit;
    AttachOk(s, pre, v);
    if s.Push? {
      AttachSpelled(s, pre, v);
    }
  }

  lemma CommaItems(f: Frame, ws: Bytes)
    requires f.items != [] && f.items[|f.items| - 1].comma.NoComma?
    ensures var f' := AddComma(f, ws);
            && |f'.items| == |f.items| && LastHasComma(f'.items)
            && ItemsYield(f'.items) == ItemsYield(f.items) + (ws + [COMMA])
            && (ItemsFit(f.items) ==> ItemsFit(f'.items))
            && (AllWs(ws) && ItemsOk(f.isObj, f.items) ==> ItemsOk(f.isObj, f'.items))
  {
  }

  lemma CommaSound(s: Stack, ws: Bytes)
    requires s.Push? && FrameOk(s.top) && NeedComma(s) && AllWs(ws)
    ensures FrameOk(AddComma(s.top, ws)) && LastHasComma(AddComma(s.top, ws).items)
    ensures StackYield(WithTop(s, AddComma(s.top, ws))) == StackYield(s) + (ws + [COMMA])
  {
    hide ItemsYield, ItemsOk, ItemsFit, Yield;
    CommaItems(s.top, ws);
    assert PartYield(s.top.part) == [];
  }

  lemma QuoteSpelled(z: State)
    requires z.mode.InStr? && !z.mode.escaped
    ensures Spelled(z) + [QUOTE] == StackYield(z.stack) + (z.mode.ws + Quoted(z.mode.items))
  {
  }

  lemma KeySpelled(s: Stack, ws: Bytes, key: seq<StrItem>)
    requires s.Push? && s.top.part.NoPart?
    ensures Spelled(State(WithTop(s, s.top.(part := KeyRead(ws, key))), Seek([])))
            == StackYield(s) + (ws + Quoted(key))
  {
  }

  lemma StrItemSpelled(s: Stack, m: Mode, it: StrItem)
    requires m.InStr? && (!m.escaped ==> it.Raw?) && (m.escaped ==> !it.Raw?)
    ensures Spelled(State(s, m.(items := m.items + [it], escaped := false)))
            == Spelled(State(s, m)) + ItemYield(it)[(if m.escaped then 1 else 0)..]
  {
    hide StackYield, StrYield, ItemYield;
    StrYieldSnoc(m.items, it);
    BackslashFirst(it);
    var n := if m.escaped then 1 else 0;
    var front, tail := ItemYield(it)[..n], ItemYield(it)[n..];
    SplitTail(StackYield(s), m.ws + [QUOTE], StrYield(m.items), front, tail);
    assert ItemYield(it) == front + tail;
    assert front == if m.escaped then [BACKSLASH] else [];
  }

  lemma BackslashFirst(it: StrItem)
    ensures ItemYield(it) != [] && (!it.Raw? ==> ItemYield(it)[0] == BACKSLASH)
  {
  }

  lemma SplitTail(a: Bytes, b: Bytes, c: Bytes, d: Bytes, e: Bytes)
    ensures a + (b + (c + (d + e)) + []) == a + (b + c + d) + e
  {
  }

  lemma StrSound(text: Bytes, i: nat, z: State)
    requires Inv(text, i, z) && z.mode.InStr? && StepStr(text, i, z.stack, z.mode).Next?
    ensures var r := StepStr(text, i, z.stack, z.mode); Inv(text, r.i, r.z)
  {
    var m := z.mode;
    var b := At(text, i);
    if !m.escaped && b == QUOTE {
      CloseStrSound(text, i, z);
    } else if !m.escaped && b == BACKSLASH {
      Extend(text, i, [b]);
      EscapeSpelled(z);
      hide StackYield, ItemsOk, ItemsFit, Spelled;
    } else {
      StrItemSound(text, i, z);
    }
  }

  lemma CloseStrSound(text: Bytes, i: nat, z: State)
    requires Inv(text, i, z) && z.mode.InStr? && StepStr(text, i, z.stack, z.mode).Next?
    requires At(text, i) == QUOTE && !z.mode.escaped
    ensures var r := StepStr(text, i, z.stack, z.mode); Inv(text, r.i, r.z)
  {
    var s, m := z.stack, z.mode;
    Extend(text, i, [QUOTE]);
    QuoteSpelled(z);
    hide StackYield, Quoted, Yield, ItemsYield, WellFormed, Fits, ItemsOk, ItemsFit, Spelled;
    if m.isKey {
      KeySpelled(s, m.ws, m.items);
    } else {
      StrValue(m.items);
      AttachSound(s, m.ws, Str(m.items));
    }
  }

  lemma StrItemSound(text: Bytes, i: nat, z: State)
    requires Inv(text, i, z) && z.mode.InStr? && StepStr(text, i, z.stack, z.mode).Next?
    requires !z.mode.escaped ==> At(text, i) != QUOTE && At(text, i) != BACKSLASH
    ensures var r := StepStr(text, i, z.stack, z.mode); Inv(text, r.i, r.z)
  {
    var r := StepStr(text, i, z.stack, z.mode);
    var m := z.mode;
    var it := r.z.mode.items[|m.items|];
    StrItemStep(text, i, z, it);
    StrItemSpelled(z.stack, m, it);
    ItemTail(text, i, m.escaped, it, r.i);
    StrYieldSnoc(m.items, it);
    hide StepStr, StackYield, StrYield, StrLength, ItemYield, ItemOk, ItemsOk, ItemsFit, Spelled, FrameOk;
  }

  lemma StrItemStep(text: Bytes, i: nat, z: State, it: StrItem)
    requires i <= |text| && z.mode.InStr? && StepStr(text, i, z.stack, z.mode).Next?
    requires !z.mode.escaped ==> At(text, i) != QUOTE && At(text, i) != BACKSLASH
    requires StepStr(text, i, z.stack, z.mode).z.mode.items[|z.mode.items|..] == [it]
    ensures var r := StepStr(text, i, z.stack, z.mode); var m := z.mode;
            && r.z == State(z.stack, m.(items := m.items + [it], escaped := false))
            && ItemOk(it) && StrLength(m.items) <= UINT_LIMIT
            && i < r.i <= |text|
            && (if !m.escaped then it == Raw(text[i]) && r.i == i + 1
                else if text[i] == LOWER_U
                then HexAt(text, i + 1) && it == Uni(text[i + 1], text[i + 2], text[i + 3], text[i + 4]) && r.i == i + 5
                else it == Esc(text[i]) && r.i == i + 1)
  {
  }

  lemma EscapeSpelled(z: State)
    requires z.mode.InStr? && !z.mode.escaped
    ensures Spelled(z.(mode := z.mode.(escaped := true))) == Spelled(z) + [BACKSLASH]
  {
  }

  lemma StrValue(items: seq<StrItem>)
    ensures Yield(Str(items)) == Quoted(items)
    ensures WellFormed(Str(items)) == StrOk(items)
    ensures Fits(Str(items)) <==> StrLength(items) <= UINT_LIMIT
  {
  }

  // The bytes of an item, less the backslash already consumed.
  lemma ItemTail(text: Bytes, i: nat, escaped: bool, it: StrItem, i': nat)
    requires i < i' <= |text|
    requires if !escaped then it == Raw(text[i]) && i' == i + 1
             else if text[i] == LOWER_U
             then HexAt(text, i + 1) && it == Uni(text[i + 1], text[i + 2], text[i + 3], text[i + 4]) && i' == i + 5
             else it == Esc(text[i]) && i' == i + 1
    ensures text[..i'] == text[..i] + ItemYield(it)[(if escaped then 1 else 0)..]
  {
  }

  lemma CloseSound(s: Stack, ws: Bytes)
    requires s.Push? && FrameOk(s.top) && s.top.part.NoPart? && AllWs(ws)
    ensures WellFormed(Box(s.top.isObj, s.top.items, ws)) && Fits(Box(s.top.isObj, s.top.items, ws))
    ensures StackYield(s.rest) + (s.top.pre + Yield(Box(s.top.isObj, s.top.items, ws)))
            == StackYield(s) + ws + [Closer(s.top.isObj)]
  {
    BoxSpelled(s, ws);
    hide Yield, StackYield;
  }

  lemma BoxSpelled(s: Stack, ws: Bytes)
    requires s.Push? && s.top.part.NoPart?
    ensures StackYield(s.rest) + (s.top.pre + Yield(Box(s.top.isObj, s.top.items, ws)))
            == StackYield(s) + ws + [Closer(s.top.isObj)]
  {
    var f := s.top;
    BoxRegroup(StackYield(s.rest), f.pre, [Opener(f.isObj)], ItemsYield(f.items), ws, [Closer(f.isObj)]);
  }

  lemma BoxRegroup(r: Bytes, p: Bytes, o: Bytes, y: Bytes, w: Bytes, c: Bytes)
    ensures r + (p + (o + y + w + c)) == r + (p + o + y + []) + w + c
  {
  }

  lemma ColonSpelled(s: Stack, ws: Bytes)
    requires s.Push? && s.top.part.KeyRead?
    ensures var part := ColonRead(s.top.part.pre, s.top.part.key, ws);
            Spelled(State(WithTop(s, s.top.(part := part)), Seek([])))
            == StackYield(s) + ws + [COLON]
  {
    hide Quoted, ItemsYield;
  }

  lemma LiteralSound(text: Bytes, i: nat, z: State, word: Bytes, v: Cst)
    requires Inv(text, i, z) && z.mode.Seek? && AllAwaiting(z.stack)
    requires Yield(v) == word && WellFormed(v) && Fits(v)
    requires StepLiteral(text, i, z.stack, z.mode.ws, word, v).Next?
    ensures var r := StepLiteral(text, i, z.stack, z.mode.ws, word, v); Inv(text, r.i, r.z)
  {
    hide Yield, ItemsYield, WellFormed, Fits, ItemsOk, ItemsFit;
    Extend(text, i, word);
    AttachSound(z.stack, z.mode.ws, v);
  }

  // One byte is consumed and becomes part of what is spelled.
  lemma Consumed(text: Bytes, i: nat, z: State, z': State)
    requires Inv(text, i, z) && At(text, i) != 0 && StateOk(z') && NumberStarts(text, i + 1, z')
    requires Spelled(z') == Spelled(z) + [At(text, i)]
    ensures Inv(text, i + 1, z')
  {
    hide StateOk, Spelled, NumberStarts;
    Extend(text, i, [At(text, i)]);
  }

  lemma BracketSpelled(s: Stack, ws: Bytes, isObj: bool)
    ensures Spelled(State(Push(Frame(isObj, ws, [], NoPart), s), Seek([]))) == Spelled(State(s, Seek(ws))) + [Opener(isObj)]
  {
    var f := Frame(isObj, ws, [], NoPart);
    assert FrameYield(f) == ws + [Opener(isObj)];
    hide FrameYield;
    assert StackYield(Push(f, s)) == StackYield(s) + (ws + [Opener(isObj)]);
  }

  lemma QuoteStartSpelled(s: Stack, ws: Bytes)
    ensures Spelled(State(s, InStr(false, ws, [], false))) == Spelled(State(s, Seek(ws))) + [QUOTE]
  {
    hide StackYield;
  }

  lemma NumberStartSpelled(s: Stack, ws: Bytes, neg: bool)
    ensures Spelled(State(s, InNum(ws, NumTok(neg, [], None, None))))
            == Spelled(State(s, Seek(ws))) + (if neg then [MINUS] else [])
  {
    hide StackYield;
  }

  // A bracket, a quote, or the start of a number.
  lemma StartSound(text: Bytes, i: nat, z: State)
    requires Inv(text, i, z) && z.mode.Seek? && AllAwaiting(z.stack)
    requires At(text, i) != LOWER_T && At(text, i) != LOWER_F && At(text, i) != LOWER_N
    requires StepValue(text, i, z.stack, z.mode.ws).Next?
    ensures var r := StepValue(text, i, z.stack, z.mode.ws); Inv(text, r.i, r.z)
  {
    hide Spelled, StepLiteral;
    var r := StepValue(text, i, z.stack, z.mode.ws);
    BracketSpelled(z.stack, z.mode.ws, At(text, i) == LBRACE);
    QuoteStartSpelled(z.stack, z.mode.ws);
    NumberStartSpelled(z.stack, z.mode.ws, At(text, i) == MINUS);
    if r.z.mode.InObj? {
      SpelledAnyway(r.z);
    }
    if r.i == i + 1 {
      Consumed(text, i, z, r.z);
    }
  }

  // Between its items a container spells the same whether it seeks a value or a key.
  lemma SpelledAnyway(z: State)
    requires z.mode.InObj?
    ensures Spelled(z) == Spelled(State(z.stack, Seek(z.mode.ws)))
  {
  }

  lemma ValueSound(text: Bytes, i: nat, z: State)
    requires i <= |text| && Inv(text, i, z) && z.mode.Seek? && AllAwaiting(z.stack)
    requires StepValue(text, i, z.stack, z.mode.ws).Next?
    ensures var r := StepValue(text, i, z.stack, z.mode.ws); Inv(text, r.i, r.z)
  {
    hide Inv, AllAwaiting, StepLiteral;
    var b := At(text, i);
    if b == LOWER_T {
      LiteralSound(text, i, z, TRUE_BYTES, True);
    } else if b == LOWER_F {
      LiteralSound(text, i, z, FALSE_BYTES, False);
    } else if b == LOWER_N {
      LiteralSound(text, i, z, NULL_BYTES, Null);
    } else {
      StartSound(text, i, z);
    }
  }

  lemma WsSound(text: Bytes, i: nat, z: State, z': State)
    requires Inv(text, i, z) && IsWs(At(text, i)) && z'.stack == z.stack
    requires (z.mode.Seek? && z'.mode == Seek(z.mode.ws + [At(text, i)]))
             || (z.mode.InObj? && z'.mode == InObj(z.mode.ws + [At(text, i)]))
    ensures Inv(text, i + 1, z')
  {
    hide StackYield, FrameOk, AllAwaiting;
    assert Spelled(z') == Spelled(z) + [At(text, i)];
    Consumed(text, i, z, z');
  }

  lemma BracketSound(text: Bytes, i: nat, z: State)
    requires Inv(text, i, z) && z.mode.Seek? && At(text, i) == RBRACKET
    requires StepSeek(text, i, z.stack, z.mode.ws).Next?
    ensures var r := StepSeek(text, i, z.stack, z.mode.ws); Inv(text, r.i, r.z)
  {
    var s, ws := z.stack, z.mode.ws;
    hide StackYield, Yield, ItemsYield, WellFormed, Fits, ItemsOk, ItemsFit, StepValue;
    Extend(text, i, [RBRACKET]);
    CloseSound(s, ws);
    AttachSound(s.rest, s.top.pre, Box(false, s.top.items, ws));
  }

  lemma MarkSound(text: Bytes, i: nat, z: State)
    requires Inv(text, i, z) && z.mode.Seek? && !IsWs(At(text, i)) && At(text, i) != RBRACKET
    requires NeedComma(z.stack) || NeedColon(z.stack)
    requires StepSeek(text, i, z.stack, z.mode.ws).Next?
    ensures var r := StepSeek(text, i, z.stack, z.mode.ws); Inv(text, r.i, r.z)
  {
    var s, ws := z.stack, z.mode.ws;
    hide StackYield, Quoted, ItemsYield, ItemsOk, ItemsFit, StepValue;
    if NeedComma(s) {
      CommaSound(s, ws);
    } else {
      ColonSpelled(s, ws);
    }
    Consumed(text, i, z, StepSeek(text, i, s, ws).z);
  }

  lemma SeekSound(text: Bytes, i: nat, z: State)
    requires Inv(text, i, z) && z.mode.Seek? && StepSeek(text, i, z.stack, z.mode.ws).Next?
    ensures var r := StepSeek(text, i, z.stack, z.mode.ws); Inv(text, r.i, r.z)
  {
    hide Spelled, FrameOk, NeedComma, NeedColon, StepValue;
    var r := StepSeek(text, i, z.stack, z.mode.ws);
    if IsWs(At(text, i)) {
      WsSound(text, i, z, r.z);
    } else if At(text, i) == RBRACKET {
      BracketSound(text, i, z);
    } else if NeedComma(z.stack) || NeedColon(z.stack) {
      MarkSound(text, i, z);
    } else {
      NowAwaiting(z);
      ValueSound(text, i, z);
    }
  }

  // Past its comma or colon a container awaits a value.
  lemma NowAwaiting(z: State)
    requires StateOk(z) && z.mode.Seek? && !NeedComma(z.stack) && !NeedColon(z.stack)
    ensures AllAwaiting(z.stack)
  {
  }

  lemma BraceSound(text: Bytes, i: nat, z: State)
    requires Inv(text, i, z) && z.mode.InObj? && At(text, i) == RBRACE
    requires StepObj(text, i, z.stack, z.mode.ws).Next?
    ensures var r := StepObj(text, i, z.stack, z.mode.ws); Inv(text, r.i, r.z)
  {
    var s, ws := z.stack, z.mode.ws;
    hide StackYield, Yield, ItemsYield, WellFormed, Fits, ItemsOk, ItemsFit;
    Extend(text, i, [RBRACE]);
    CloseSound(s, ws);
    AttachSound(s.rest, s.top.pre, Box(true, s.top.items, ws));
  }

  // A comma or a quote inside an object.
  lemma MemberSound(text: Bytes, i: nat, z: State)
    requires Inv(text, i, z) && z.mode.InObj? && (At(text, i) == COMMA || At(text, i) == QUOTE)
    requires StepObj(text, i, z.stack, z.mode.ws).Next?
    ensures var r := StepObj(text, i, z.stack, z.mode.ws); Inv(text, r.i, r.z)
  {
    var s, ws := z.stack, z.mode.ws;
    hide StackYield, ItemsYield, ItemsOk, ItemsFit, AllAwaiting;
    if At(text, i) == COMMA {
      CommaSound(s, ws);
    }
    Consumed(text, i, z, StepObj(text, i, s, ws).z);
  }

  lemma ObjSound(text: Bytes, i: nat, z: State)
    requires i <= |text| && Inv(text, i, z) && z.mode.InObj? && StepObj(text, i, z.stack, z.mode.ws).Next?
    ensures var r := StepObj(text, i, z.stack, z.mode.ws); Inv(text, r.i, r.z)
  {
    hide Inv, NeedComma, Complete;
    if At(text, i) == RBRACE {
      BraceSound(text, i, z);
    } else if IsWs(At(text, i)) {
      WsSound(text, i, z, StepObj(text, i, z.stack, z.mode.ws).z);
    } else {
      MemberSound(text, i, z);
    }
  }

  lemma MoreSound(text: Bytes, i: nat, z: State)
    requires Inv(text, i, z) && z.mode.InNum? && StepNum(z.mode.tok, At(text, i)).More?
    ensures var r := StepNumber(text, i, z.stack, z.mode); Inv(text, r.i, r.z)
  {
    hide TokYield, StepNum, StackYield, AllAwaiting, PartialOk;
    var t := StepNum(z.mode.tok, At(text, i)).t;
    StepNumYield(z.mode.tok, At(text, i));
    SplitTail(StackYield(z.stack), z.mode.ws, TokYield(z.mode.tok), [], [At(text, i)]);
    Consumed(text, i, z, State(z.stack, InNum(z.mode.ws, t)));
  }

  lemma NumSound(text: Bytes, i: nat, z: State)
    requires Inv(text, i, z) && z.mode.InNum? && StepNumber(text, i, z.stack, z.mode).Next?
    ensures var r := StepNumber(text, i, z.stack, z.mode); Inv(text, r.i, r.z)
  {
    var m := z.mode;
    if StepNum(m.tok, At(text, i)).More? {
      MoreSound(text, i, z);
    } else {
      StepNumYield(m.tok, At(text, i));
      NumValue(m.tok);
      hide TokYield, StepNum, Yield, ItemsYield, WellFormed, Fits, ItemsOk, ItemsFit;
      AttachSound(z.stack, m.ws, Num(m.tok));
    }
  }

  lemma NumValue(t: NumTok)
    ensures Yield(Num(t)) == TokYield(t) && WellFormed(Num(t)) == TokOk(t) && Fits(Num(t))
  {
  }

  lemma DoneSound(text: Bytes, i: nat, z: State)
    requires Inv(text, i, z) && z.mode.Done? && StepDone(text, i, z.mode).Next?
    ensures var r := StepDone(text, i, z.mode); Inv(text, r.i, r.z)
  {
  }

  // Every step keeps the invariant.
  lemma StepSound(text: Bytes, i: nat, z: State)
    requires Inv(text, i, z) && Step(text, i, z).Next?
    ensures Inv(text, Step(text, i, z).i, Step(text, i, z).z)
  {
    match z.mode
    case Seek(_) => SeekSound(text, i, z);
    case InObj(_) => ObjSound(text, i, z);
    case InStr(_, _, _, _) => StrSound(text, i, z);
    case InNum(_, _) => NumSound(text, i, z);
    case Done(_, _, _) => DoneSound(text, i, z);
  }

  // ---------- Whole runs ----------

  lemma {:induction false} RunSound(text: Bytes, i: nat, z: State)
    requires Inv(text, i, z) && Run(text, i, z).Accepted?
    ensures Derives(Run(text, i, z).doc, text)
    decreases |text| - i, Rank(text, i, z)
  {
    var r := Step(text, i, z);
    if r.Next? {
      StepSound(text, i, z);
      RunSound(text, r.i, r.z);
    } else {
      assert DocYield(r.doc) == Spelled(z);
    }
  }

  // Whatever the parser accepts, the tree it accepts derives the text.
  lemma ParseSound(text: Bytes)
    requires Parse(text).Accepted?
    ensures Derives(Parse(text).doc, text)
  {
    RunSound(text, 0, START);
  }

  // The invariant holds of every state that is reached.
  lemma {:induction false} ReachesSound(text: Bytes, i: nat, z: State, j: nat, z': State, n: nat)
    requires Inv(text, i, z) && Reaches(text, i, z, j, z', n)
    ensures Inv(text, j, z')
    decreases n
  {
    hide Inv, Step;
    if n > 0 {
      StepSound(text, i, z);
      ReachesSound(text, Step(text, i, z).i, Step(text, i, z).z, j, z', n - 1);
    }
  }

  // ---------- A bracket before any container ----------

  function Blanks(text: Bytes, i: nat): State
    requires i <= |text|
  {
    State(Bottom, Seek(text[..i]))
  }

  lemma {:induction false} BlanksReached(text: Bytes, i: nat, k: nat)
    requires i <= k <= |text| && AllWs(text[..k])
    ensures Reaches(text, i, Blanks(text, i), k, Blanks(text, k), k - i)
    decreases k - i
  {
    if i < k {
      assert IsWs(text[..k][i]);
      assert text[..i] + [text[i]] == text[..i + 1];
      assert Step(text, i, Blanks(text, i)) == Next(i + 1, Blanks(text, i + 1));
      BlanksReached(text, i + 1, k);
    }
  }

  // After n steps the parser meets a ']' while no container is open.
  predicate BracketMet(text: Bytes, i: nat, ws: Bytes, n: nat) {
    Reaches(text, 0, START, i, State(Bottom, Seek(ws)), n) && i <= |text| && At(text, i) == RBRACKET
  }

  // It does exactly when that is the first byte that is no white space. There the source reads through the
  // null pointer top.
  lemma LeadingBracket(text: Bytes)
    ensures (exists i: nat, ws: Bytes, n: nat :: BracketMet(text, i, ws, n))
            <==> exists k :: 0 <= k < |text| && AllWs(text[..k]) && text[k] == RBRACKET
  {
    hide Reaches;
    if exists i: nat, ws: Bytes, n: nat :: BracketMet(text, i, ws, n) {
      var i: nat, ws: Bytes, n: nat :| BracketMet(text, i, ws, n);
      ReachesSound(text, 0, START, i, State(Bottom, Seek(ws)), n);
      assert AllWs(text[..i]) && text[i] == RBRACKET;
    }
    if exists k :: 0 <= k < |text| && AllWs(text[..k]) && text[k] == RBRACKET {
      var k :| 0 <= k < |text| && AllWs(text[..k]) && text[k] == RBRACKET;
      BlanksReached(text, 0, k);
      assert Blanks(text, 0) == START;
      assert BracketMet(text, k, text[..k], k);
    }
  }
}
