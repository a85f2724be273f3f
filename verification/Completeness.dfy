/**
 Every text the grammar derives is accepted, with the deriving tree: the machine runs through the
 spelling of a tree by induction on the tree. Together with Soundness, acceptance is derivability.
 */
module Completeness {
  import opened Text
  import opened Escape
  import opened Numbers
  import opened Grammar
  import opened Machine
  import Soundness

  function Resume(text: Bytes, r: StepResult): Verdict
    requires r.Next? ==> r.i <= |text|
  {
    match r
    case Next(i, z) => Run(text, i, z)
    case Reject => Rejected
    case Accept(doc) => Accepted(doc)
  }

  // From z at i the run goes on as from z' at j.
  predicate Leads(text: Bytes, i: nat, z: State, j: nat, z': State) {
    i <= |text| && j <= |text| && Run(text, i, z) == Run(text, j, z')
  }

  predicate Results(text: Bytes, i: nat, z: State, r: StepResult) {
    i <= |text| && (r.Next? ==> r.i <= |text|) && Run(text, i, z) == Resume(text, r)
  }

  lemma ChainRuns(text: Bytes, i: nat, z: State, j: nat, z': State, k: nat, z'': State)
    requires Leads(text, i, z, j, z') && Leads(text, j, z', k, z'')
    ensures Leads(text, i, z, k, z'')
  {
  }

  lemma Stay(text: Bytes, i: nat, z: State)
    requires i <= |text|
    ensures Leads(text, i, z, i, z)
  {
  }

  lemma ChainRunsTo(text: Bytes, i: nat, z: State, j: nat, z': State, r: StepResult)
    requires Leads(text, i, z, j, z') && Results(text, j, z', r)
    ensures Results(text, i, z, r)
  {
  }

  lemma ChainRunsFrom(text: Bytes, i: nat, z: State, j: nat, z': State, k: nat, z'': State)
    requires Results(text, i, z, Next(j, z')) && Leads(text, j, z', k, z'')
    ensures Leads(text, i, z, k, z'')
  {
  }

  lemma OneStep(text: Bytes, i: nat, z: State, i': nat, z': State)
    requires i <= |text| && Step(text, i, z) == Next(i', z')
    ensures Leads(text, i, z, i', z')
  {
  }

  lemma FromStep(text: Bytes, i: nat, z: State)
    requires i <= |text|
    ensures Results(text, i, z, Step(text, i, z))
  {
  }

  // ---------- White space ----------

  predicate TakesWs(z: State) {
    z.mode.Seek? || (z.mode.InObj? && z.stack.Push?) || (z.mode.Done? && z.stack.Bottom?)
  }

  function AddWs(z: State, w: Bytes): State
    requires TakesWs(z)
  {
    match z.mode
    case Seek(ws) => z.(mode := Seek(ws + w))
    case InObj(ws) => z.(mode := InObj(ws + w))
    case Done(pre, v, post) => z.(mode := Done(pre, v, post + w))
  }

  lemma {:induction false} WsRun(text: Bytes, i: nat, z: State, w: Bytes)
    requires TakesWs(z) && AllWs(w) && Matches(text, i, w)
    ensures Leads(text, i, z, i + |w|, AddWs(z, w))
    decreases |w|
  {
    if w == [] {
      assert AddWs(z, w) == z;
    } else {
      var z' := AddWs(z, [w[0]]);
      MatchesAt(text, i, w, 0);
      assert Step(text, i, z) == Next(i + 1, z');
      assert w == [w[0]] + w[1..];
      MatchesSplit(text, i, [w[0]], w[1..]);
      WsRun(text, i + 1, z', w[1..]);
      assert AddWs(z', w[1..]) == AddWs(z, w) by { AddWsTwice(z, [w[0]], w[1..]); }
    }
  }

  lemma AddWsTwice(z: State, a: Bytes, b: Bytes)
    requires TakesWs(z)
    ensures AddWs(AddWs(z, a), b) == AddWs(z, a + b)
  {
    match z.mode
    case Seek(ws) => assert ws + a + b == ws + (a + b);
    case InObj(ws) => assert ws + a + b == ws + (a + b);
    case Done(_, _, post) => assert post + a + b == post + (a + b);
  }

  // ---------- Strings ----------

  lemma OneItem(text: Bytes, p: nat, s: Stack, m: Mode, it: StrItem)
    requires m.InStr? && !m.escaped && StrLength(m.items) <= UINT_LIMIT
    requires ItemOk(it) && Matches(text, p, ItemYield(it))
    ensures Leads(text, p, State(s, m), p + |ItemYield(it)|, State(s, m.(items := m.items + [it])))
  {
    hide StrLength, Run;
    MatchesAt(text, p, ItemYield(it), 0);
    var z' := State(s, m.(items := m.items + [it]));
    if it.Raw? {
      OneStep(text, p, State(s, m), p + 1, z');
    } else {
      MatchesAt(text, p, ItemYield(it), 1);
      OneStep(text, p, State(s, m), p + 1, State(s, m.(escaped := true)));
      if it.Uni? {
        MatchesAt(text, p, ItemYield(it), 2);
        MatchesAt(text, p, ItemYield(it), 3);
        MatchesAt(text, p, ItemYield(it), 4);
        MatchesAt(text, p, ItemYield(it), 5);
      }
      OneStep(text, p + 1, State(s, m.(escaped := true)), p + |ItemYield(it)|, z');
    }
  }

  lemma {:induction false} StrRun(text: Bytes, p: nat, s: Stack, isKey: bool, ws: Bytes, items: seq<StrItem>)
    requires StrOk(items) && StrLength(items) <= UINT_LIMIT
    requires Matches(text, p, StrYield(items))
    ensures Leads(text, p, State(s, InStr(isKey, ws, [], false)), p + |StrYield(items)|,
              State(s, InStr(isKey, ws, items, false)))
    decreases |items|
  {
    hide Run, Leads, Step, ItemYield, ItemLength, ItemOk;
    var z0 := State(s, InStr(isKey, ws, [], false));
    if items == [] {
      Stay(text, p, z0);
    } else {
      var init, last := items[..|items| - 1], items[|items| - 1];
      assert init + [last] == items;
      MatchesSplit(text, p, StrYield(init), ItemYield(last));
      StrRun(text, p, s, isKey, ws, init);
      hide StrYield, StrLength, Matches;
      StrRunMore(text, p, p + |StrYield(init)|, z0, State(s, InStr(isKey, ws, init, false)), last);
    }
  }

  lemma StrRunMore(text: Bytes, p: nat, q: nat, z0: State, z: State, it: StrItem)
    requires z.mode.InStr? && !z.mode.escaped && StrLength(z.mode.items) <= UINT_LIMIT
    requires ItemOk(it) && Matches(text, q, ItemYield(it)) && Leads(text, p, z0, q, z)
    ensures Leads(text, p, z0, q + |ItemYield(it)|, z.(mode := z.mode.(items := z.mode.items + [it])))
  {
    hide Run, Leads, Step, ItemYield, ItemLength, ItemOk, StrLength, Matches;
    OneItem(text, q, z.stack, z.mode, it);
    ChainRuns(text, p, z0, q, z, q + |ItemYield(it)|, z.(mode := z.mode.(items := z.mode.items + [it])));
  }

  lemma QuotedParts(text: Bytes, p: nat, items: seq<StrItem>)
    requires Matches(text, p, Quoted(items))
    ensures At(text, p) == QUOTE && Matches(text, p + 1, StrYield(items))
    ensures var q := p + 1 + |StrYield(items)|; q < |text| && At(text, q) == QUOTE
  {
    hide StrYield;
    MatchesAt(text, p, Quoted(items), 0);
    MatchesAt(text, p, Quoted(items), 1 + |StrYield(items)|);
    MatchesSplit(text, p, [QUOTE] + StrYield(items), [QUOTE]);
    MatchesSplit(text, p, [QUOTE], StrYield(items));
  }

  // A string between its quotes, up to its closing quote.
  lemma QuotedRun(text: Bytes, p: nat, s: Stack, isKey: bool, ws: Bytes, items: seq<StrItem>)
    requires StrOk(items) && StrLength(items) <= UINT_LIMIT
    requires Matches(text, p, Quoted(items))
    ensures At(text, p) == QUOTE
    ensures var q := p + 1 + |StrYield(items)|;
            && q < |text| && At(text, q) == QUOTE
            && Leads(text, p + 1, State(s, InStr(isKey, ws, [], false)), q, State(s, InStr(isKey, ws, items, false)))
  {
    hide Leads, StrLength, StrOk, StrYield, Quoted, Matches;
    QuotedParts(text, p, items);
    StrRun(text, p + 1, s, isKey, ws, items);
  }

  // ---------- Numbers ----------

  function NumState(s: Stack, ws: Bytes, t: NumTok): State {
    State(s, InNum(ws, t))
  }

  // The token before its last byte, and that byte.
  function Shorter(t: NumTok): (NumTok, Byte)
    requires PartialOk(t) && (t.ip != [] || t.exp.Some?)
  {
    if t.exp.Some? then
      var e := t.exp.value;
      if e.digits != [] then
        (t.(exp := Some(e.(digits := e.digits[..|e.digits| - 1]))), e.digits[|e.digits| - 1])
      else if e.sign.Some? then (t.(exp := Some(e.(sign := None))), e.sign.value)
      else (t.(exp := None), e.mark)
    else if t.frac.Some? then
      var d := t.frac.value;
      if d != [] then (t.(frac := Some(d[..|d| - 1])), d[|d| - 1]) else (t.(frac := None), DOT)
    else (t.(ip := t.ip[..|t.ip| - 1]), t.ip[|t.ip| - 1])
  }

  lemma ShorterMore(t: NumTok)
    requires PartialOk(t) && (t.ip != [] || t.exp.Some?)
    ensures var (t0, b) := Shorter(t);
            PartialOk(t0) && StepNum(t0, b) == More(t) && (!t0.neg && t0.ip == [] ==> IsDigit(b))
  {
    if t.exp.Some? {
      LastApart(t.exp.value.digits);
    } else if t.frac.Some? {
      LastApart(t.frac.value);
    } else {
      LastApart(t.ip);
    }
  }

  lemma LastApart(d: Bytes)
    ensures d != [] ==> d[..|d| - 1] + [d[|d| - 1]] == d
    ensures d != [] && AllDigits(d) ==> AllDigits(d[..|d| - 1]) && IsDigit(d[|d| - 1])
  {
  }

  lemma ShorterStep(t: NumTok)
    requires PartialOk(t) && (t.ip != [] || t.exp.Some?)
    ensures var (t0, b) := Shorter(t);
            && PartialOk(t0) && StepNum(t0, b) == More(t)
            && (!t0.neg && t0.ip == [] ==> IsDigit(b))
            && TokYield(t) == TokYield(t0) + [b]
  {
    hide TokYield, Shorter, StepNum, PartialOk;
    var (t0, b) := Shorter(t);
    ShorterMore(t);
    StepNumYield(t0, b);
  }

  lemma {:induction false} TokRun(text: Bytes, p: nat, s: Stack, ws: Bytes, t: NumTok)
    requires PartialOk(t) && (t.neg || t.ip != [])
    requires Matches(text, p, TokYield(t))
    requires !NeedComma(s) && !NeedColon(s)
    ensures Leads(text, p, State(s, Seek(ws)), p + |TokYield(t)|, NumState(s, ws, t))
    decreases |TokYield(t)|
  {
    hide Run;
    if t.ip == [] && t.exp.None? {
      MatchesAt(text, p, TokYield(t), 0);
      OneStep(text, p, State(s, Seek(ws)), p + 1, NumState(s, ws, t));
    } else {
      ShorterStep(t);
      var (t0, b) := Shorter(t);
      hide TokYield, Shorter, StepNum, PartialOk, Step;
      TokStep(text, p, s, ws, t, t0, b);
      if t0.neg || t0.ip != [] {
        TokRun(text, p, s, ws, t0);
      }
    }
  }

  lemma TokStep(text: Bytes, p: nat, s: Stack, ws: Bytes, t: NumTok, t0: NumTok, b: Byte)
    requires PartialOk(t0) && StepNum(t0, b) == More(t) && TokYield(t) == TokYield(t0) + [b]
    requires !t0.neg && t0.ip == [] ==> IsDigit(b)
    requires Matches(text, p, TokYield(t)) && Ready(s)
    ensures Matches(text, p, TokYield(t0))
    ensures var q := p + |TokYield(t0)|; Leads(text, q, NumState(s, ws, t0), q + 1, NumState(s, ws, t))
    ensures !t0.neg && t0.ip == [] ==>
              p == p + |TokYield(t0)| && Leads(text, p, State(s, Seek(ws)), p, NumState(s, ws, t0))
  {
    MatchesSplit(text, p, TokYield(t0), [b]);
    MatchesAt(text, p, TokYield(t), |TokYield(t0)|);
    if !t0.neg && t0.ip == [] {
      TokFirst(t0);
      OneStep(text, p, State(s, Seek(ws)), p, NumState(s, ws, t0));
    }
    hide TokYield, StepNum, Run;
    var q := p + |TokYield(t0)|;
    OneStep(text, q, NumState(s, ws, t0), q + 1, NumState(s, ws, t));
  }

  lemma TokFirst(t: NumTok)
    requires PartialOk(t) && !t.neg && t.ip == []
    ensures TokYield(t) == []
  {
  }

  // The byte at p does not continue a number.
  predicate Ends(text: Bytes, p: nat) {
    p <= |text| && !IsNumberByte(At(text, p))
  }

  lemma NumberRun(text: Bytes, p: nat, s: Stack, ws: Bytes, t: NumTok)
    requires TokOk(t) && Matches(text, p, TokYield(t)) && Ends(text, p + |TokYield(t)|)
    requires !NeedComma(s) && !NeedColon(s)
    ensures Results(text, p, State(s, Seek(ws)), Complete(p + |TokYield(t)|, s, ws, Num(t)))
  {
    hide Run;
    TokRun(text, p, s, ws, t);
    hide TokYield;
    FromStep(text, p + |TokYield(t)|, NumState(s, ws, t));
  }

  // ---------- Values ----------

  predicate Ready(s: Stack) {
    !NeedComma(s) && !NeedColon(s)
  }

  function Fresh(isObj: bool): Mode {
    if isObj then InObj([]) else Seek([])
  }

  function Inside(rest: Stack, isObj: bool, pre: Bytes, items: seq<Item>): State {
    State(Push(Frame(isObj, pre, items, NoPart), rest), Fresh(isObj))
  }

  lemma LiteralRun(text: Bytes, i: nat, s: Stack, pre: Bytes, c: Cst)
    requires c.Null? || c.True? || c.False?
    requires Matches(text, i, Yield(c)) && Ready(s)
    ensures Results(text, i, State(s, Seek(pre)), Complete(i + |Yield(c)|, s, pre, c))
  {
    hide Run, Results, Complete, Resume;
    MatchesAt(text, i, Yield(c), 0);
    assert Step(text, i, State(s, Seek(pre))) == Complete(i + |Yield(c)|, s, pre, c);
    FromStep(text, i, State(s, Seek(pre)));
  }

  lemma StringSteps(text: Bytes, i: nat, q: nat, s: Stack, pre: Bytes, items: seq<StrItem>)
    requires i <= |text| && At(text, i) == QUOTE && Ready(s)
    requires q <= |text| && At(text, q) == QUOTE && StrLength(items) <= UINT_LIMIT
    ensures Leads(text, i, State(s, Seek(pre)), i + 1, State(s, InStr(false, pre, [], false)))
    ensures Results(text, q, State(s, InStr(false, pre, items, false)), Complete(q + 1, s, pre, Str(items)))
  {
    hide StrLength, Run, Leads, Results, Complete;
    OneStep(text, i, State(s, Seek(pre)), i + 1, State(s, InStr(false, pre, [], false)));
    FromStep(text, q, State(s, InStr(false, pre, items, false)));
  }

  lemma StringRun(text: Bytes, i: nat, s: Stack, pre: Bytes, items: seq<StrItem>)
    requires StrOk(items) && StrLength(items) <= UINT_LIMIT
    requires Matches(text, i, Quoted(items)) && Ready(s)
    ensures Results(text, i, State(s, Seek(pre)), Complete(i + |Quoted(items)|, s, pre, Str(items)))
  {
    hide StrYield, StrLength, StrOk, Run, Leads, Results, Complete, Matches, Ready;
    var z0, z1, z2 := State(s, Seek(pre)), State(s, InStr(false, pre, [], false)), State(s, InStr(false, pre, items, false));
    var q := i + 1 + |StrYield(items)|;
    QuotedRun(text, i, s, false, pre, items);
    StringSteps(text, i, q, s, pre, items);
    ChainRuns(text, i, z0, i + 1, z1, q, z2);
    ChainRunsTo(text, i, z0, q, z2, Complete(q + 1, s, pre, Str(items)));
  }

  lemma {:induction false} ValueRun(text: Bytes, i: nat, s: Stack, pre: Bytes, c: Cst)
    requires WellFormed(c) && Fits(c) && Matches(text, i, Yield(c)) && Ready(s)
    requires Ends(text, i + |Yield(c)|)
    ensures Results(text, i, State(s, Seek(pre)), Complete(i + |Yield(c)|, s, pre, c))
    decreases c, 1
  {
    hide Run, Results, Matches, StrYield, TokYield, TokOk, StrOk, ItemsYield, ItemsOk, ItemsFit, Complete, StrLength,
         Quoted, Ends;
    match c
    case Num(tok) => NumberRun(text, i, s, pre, tok);
    case Str(items) => StringRun(text, i, s, pre, items);
    case Box(isObj, items, close) => BoxRun(text, i, s, pre, isObj, items, close);
    case _ => LiteralRun(text, i, s, pre, c);
  }

  lemma OpenRun(text: Bytes, i: nat, s: Stack, pre: Bytes, isObj: bool)
    requires i <= |text| && At(text, i) == Opener(isObj) && Ready(s)
    ensures Leads(text, i, State(s, Seek(pre)), i + 1, Inside(s, isObj, pre, []))
  {
  }

  lemma CloseRun(text: Bytes, q: nat, s: Stack, pre: Bytes, isObj: bool, items: seq<Item>, close: Bytes)
    requires AllWs(close) && Matches(text, q, close) && q + |close| < |text| && At(text, q + |close|) == Closer(isObj)
    ensures Results(text, q, Inside(s, isObj, pre, items), Complete(q + |close| + 1, s, pre, Box(isObj, items, close)))
  {
    var z := Inside(s, isObj, pre, items);
    var r := q + |close|;
    hide Run, Leads, Results, Matches;
    WsRun(text, q, z, close);
    assert [] + close == close;
    FromStep(text, r, AddWs(z, close));
    ChainRunsTo(text, q, z, r, AddWs(z, close), Complete(r + 1, s, pre, Box(isObj, items, close)));
  }

  lemma {:induction false} BoxRun(text: Bytes, i: nat, s: Stack, pre: Bytes, isObj: bool, items: seq<Item>, close: Bytes)
    requires ItemsOk(isObj, items) && ItemsFit(items) && |items| <= UINT_LIMIT && AllWs(close)
    requires Matches(text, i, Yield(Box(isObj, items, close))) && Ready(s)
    ensures var c := Box(isObj, items, close);
            Results(text, i, State(s, Seek(pre)), Complete(i + |Yield(c)|, s, pre, c))
    decreases Box(isObj, items, close), 0
  {
    hide Run, Leads, Results, Matches, ItemsYield, ItemsOk, ItemsFit, Yield, Inside, Complete, AllWs;
    var z0, z1, z2 := State(s, Seek(pre)), Inside(s, isObj, pre, []), Inside(s, isObj, pre, items);
    var q := i + 1 + |ItemsYield(items)|;
    BoxParts(text, i, isObj, items, close);
    OpenRun(text, i, s, pre, isObj);
    AfterWs(text, q, close, Closer(isObj));
    ItemsRun(text, i + 1, s, isObj, pre, items);
    ChainRuns(text, i, z0, i + 1, z1, q, z2);
    CloseRun(text, q, s, pre, isObj, items, close);
    ChainRunsTo(text, i, z0, q, z2, Complete(q + |close| + 1, s, pre, Box(isObj, items, close)));
  }

  lemma BoxParts(text: Bytes, i: nat, isObj: bool, items: seq<Item>, close: Bytes)
    requires Matches(text, i, Yield(Box(isObj, items, close)))
    ensures var q := i + 1 + |ItemsYield(items)|;
            && At(text, i) == Opener(isObj)
            && Matches(text, i + 1, ItemsYield(items))
            && Matches(text, q, close)
            && q + |close| < |text| && At(text, q + |close|) == Closer(isObj)
            && q + |close| + 1 == i + |Yield(Box(isObj, items, close))|
  {
    hide ItemsYield;
    var o, y, c := [Opener(isObj)], ItemsYield(items), [Closer(isObj)];
    assert Yield(Box(isObj, items, close)) == o + y + close + c;
    SplitFour(text, i, o, y, close, c);
  }

  lemma SplitFour(text: Bytes, i: nat, o: Bytes, y: Bytes, w: Bytes, c: Bytes)
    requires Matches(text, i, o + y + w + c) && |o| == |c| == 1
    ensures At(text, i) == o[0] && Matches(text, i + 1, y) && Matches(text, i + 1 + |y|, w)
    ensures var r := i + 1 + |y| + |w|; r < |text| && At(text, r) == c[0]
  {
    MatchesSplit(text, i, o + y + w, c);
    MatchesSplit(text, i, o + y, w);
    MatchesSplit(text, i, o, y);
    hide Matches;
    MatchesAt(text, i, o, 0);
    MatchesAt(text, i + 1 + |y| + |w|, c, 0);
  }

  // White space followed by a mark does not continue a number.
  lemma AfterWs(text: Bytes, q: nat, w: Bytes, mark: Byte)
    requires AllWs(w) && Matches(text, q, w) && q + |w| < |text| && At(text, q + |w|) == mark
    requires !IsNumberByte(mark)
    ensures Ends(text, q)
  {
  }

  lemma MatchesWithin(text: Bytes, p: nat, ys: Bytes)
    requires Matches(text, p, ys)
    ensures p + |ys| <= |text|
  {
  }

  lemma {:induction false} ItemsRun(text: Bytes, p: nat, s: Stack, isObj: bool, pre: Bytes, items: seq<Item>)
    requires ItemsOk(isObj, items) && ItemsFit(items) && |items| <= UINT_LIMIT
    requires Matches(text, p, ItemsYield(items))
    requires !LastHasComma(items) ==> Ends(text, p + |ItemsYield(items)|)
    ensures Leads(text, p, Inside(s, isObj, pre, []), p + |ItemsYield(items)|, Inside(s, isObj, pre, items))
    decreases items
  {
    hide Run, Leads, Step, ItemYieldOf, WellFormed, Fits, Inside, Matches, Ends, LeadOk, CommaOk, AllWs, StrLength;
    var z0 := Inside(s, isObj, pre, []);
    MatchesWithin(text, p, ItemsYield(items));
    if items == [] {
      Stay(text, p, z0);
    } else {
      var init, last := items[..|items| - 1], items[|items| - 1];
      assert init + [last] == items;
      assert ItemsYield(items) == ItemsYield(init) + ItemYieldOf(last);
      var q := p + |ItemsYield(init)|;
      assert p + |ItemsYield(items)| == q + |ItemYieldOf(last)|;
      MatchesSplit(text, p, ItemsYield(init), ItemYieldOf(last));
      ItemsRun(text, p, s, isObj, pre, init);
      OneItemRun(text, q, s, isObj, pre, init, last);
      ChainRuns(text, p, z0, q, Inside(s, isObj, pre, init), q + |ItemYieldOf(last)|, Inside(s, isObj, pre, items));
    }
  }

  // An item up to the comma that may follow it.
  lemma {:induction false} ItemValueRun(text: Bytes, p: nat, s: Stack, isObj: bool, pre: Bytes, init: seq<Item>, it: Item)
    requires LastHasComma(init) && |init| + 1 <= UINT_LIMIT
    requires it.lead.Keyed? == isObj && LeadOk(it.lead) && AllWs(it.pre)
    requires it.lead.Keyed? ==> StrLength(it.lead.key) <= UINT_LIMIT
    requires WellFormed(it.val) && Fits(it.val)
    requires var p1 := p + |LeadYield(it.lead)|; var p2 := p1 + |it.pre|; var p3 := p2 + |Yield(it.val)|;
             && Matches(text, p, LeadYield(it.lead)) && Matches(text, p1, it.pre)
             && Matches(text, p2, Yield(it.val)) && Ends(text, p3)
    ensures Results(text, p, Inside(s, isObj, pre, init),
              Next(p + |LeadYield(it.lead)| + |it.pre| + |Yield(it.val)|,
                   Inside(s, isObj, pre, init + [it.(comma := NoComma)])))
    decreases it, 0
  {
    var p1 := p + |LeadYield(it.lead)|;
    var p2 := p1 + |it.pre|;
    var p3 := p2 + |Yield(it.val)|;
    hide Run, Leads, Results, Step, Yield, WellFormed, Fits, StrYield, StrLength, StrOk, Matches, LeadYield, Complete,
         Inside, AddWs, AllWs, LeadOk, LastHasComma;
    var s1 := Awaited(s, isObj, pre, init, it.lead);
    var z0, z1, z2 := Inside(s, isObj, pre, init), State(s1, Seek([])), State(s1, Seek(it.pre));
    LeadingRun(text, p, s, isObj, pre, init, it.lead);
    WsRun(text, p1, z1, it.pre);
    SeekAddWs(s1, it.pre);
    ChainRuns(text, p, z0, p1, z1, p2, z2);
    ValueRun(text, p2, s1, it.pre, it.val);
    AttachedItem(p3, s1, it);
    ChainRunsTo(text, p, z0, p2, z2, Next(p3, Inside(s, isObj, pre, init + [it.(comma := NoComma)])));
  }

  // The stack in which the value of the next item is read.
  function Awaited(s: Stack, isObj: bool, pre: Bytes, init: seq<Item>, lead: Lead): (r: Stack)
    ensures r.Push? && LastHasComma(init) ==> Ready(r)
    ensures r.Push? && r.top.items == init && r.rest == s
    ensures isObj == lead.Keyed? ==> LeadOf(r.top.part) == lead
    ensures forall it: Item ::
              Inside(s, isObj, pre, init + [it])
              == State(WithTop(r, r.top.(items := init + [it], part := NoPart)), Fresh(isObj))
  {
    Push(Frame(isObj, pre, init, if isObj && lead.Keyed? then ColonRead(lead.pre, lead.key, lead.colon) else NoPart), s)
  }

  lemma SeekAddWs(s: Stack, w: Bytes)
    ensures TakesWs(State(s, Seek([]))) && AddWs(State(s, Seek([])), w) == State(s, Seek(w))
  {
    assert [] + w == w;
  }

  lemma LeadingRun(text: Bytes, p: nat, s: Stack, isObj: bool, pre: Bytes, init: seq<Item>, lead: Lead)
    requires LastHasComma(init) && lead.Keyed? == isObj && LeadOk(lead)
    requires lead.Keyed? ==> StrLength(lead.key) <= UINT_LIMIT
    requires Matches(text, p, LeadYield(lead))
    ensures Leads(text, p, Inside(s, isObj, pre, init), p + |LeadYield(lead)|,
              State(Awaited(s, isObj, pre, init, lead), Seek([])))
  {
    hide Run, Leads, StrLength, StrOk;
    if isObj {
      LeadRun(text, p, s, pre, init, lead);
    } else {
      Stay(text, p, Inside(s, isObj, pre, init));
    }
  }

  lemma {:induction false} OneItemRun(text: Bytes, p: nat, s: Stack, isObj: bool, pre: Bytes, init: seq<Item>, it: Item)
    requires LastHasComma(init) && |init| + 1 <= UINT_LIMIT
    requires it.lead.Keyed? == isObj && LeadOk(it.lead) && AllWs(it.pre) && CommaOk(it.comma)
    requires it.lead.Keyed? ==> StrLength(it.lead.key) <= UINT_LIMIT
    requires WellFormed(it.val) && Fits(it.val)
    requires Matches(text, p, ItemYieldOf(it))
    requires it.comma.NoComma? ==> Ends(text, p + |ItemYieldOf(it)|)
    ensures Leads(text, p, Inside(s, isObj, pre, init), p + |ItemYieldOf(it)|, Inside(s, isObj, pre, init + [it]))
    decreases it, 1
  {
    hide Run, Leads, Results, Step, Yield, WellFormed, Fits, StrLength, Matches, ItemYieldOf, LeadYield, CommaYield,
         LeadOk, AllWs, CommaOk, Ends, LastHasComma, Inside, Fresh;
    var p3 := p + |LeadYield(it.lead)| + |it.pre| + |Yield(it.val)|;
    var z0, z3 := Inside(s, isObj, pre, init), Inside(s, isObj, pre, init + [it.(comma := NoComma)]);
    ItemParts(text, p, it);
    ItemEnds(text, p3, it.comma);
    ItemValueRun(text, p, s, isObj, pre, init, it);
    ItemCommaRun(text, p3, s, isObj, pre, init, it);
    ChainRunsFrom(text, p, z0, p3, z3, p3 + |CommaYield(it.comma)|, Inside(s, isObj, pre, init + [it]));
  }

  // Neither a comma nor the white space before it continues a number.
  lemma ItemEnds(text: Bytes, p: nat, comma: Comma)
    requires CommaOk(comma) && Matches(text, p, CommaYield(comma))
    requires comma.NoComma? ==> Ends(text, p + |CommaYield(comma)|)
    ensures Ends(text, p)
  {
  }

  lemma ItemCommaRun(text: Bytes, p: nat, s: Stack, isObj: bool, pre: Bytes, init: seq<Item>, it: Item)
    requires CommaOk(it.comma) && Matches(text, p, CommaYield(it.comma))
    ensures Leads(text, p, Inside(s, isObj, pre, init + [it.(comma := NoComma)]), p + |CommaYield(it.comma)|,
              Inside(s, isObj, pre, init + [it]))
  {
    hide CommaYield, Matches, Leads, CommaOk;
    var items := init + [it.(comma := NoComma)];
    assert items[..|items| - 1] == init;
    CommaRun(text, p, Inside(s, isObj, pre, items), it);
  }

  lemma AttachedItem(p: nat, s: Stack, it: Item)
    requires s.Push? && |s.top.items| + 1 <= UINT_LIMIT && LeadOf(s.top.part) == it.lead
    ensures Complete(p, s, it.pre, it.val)
            == Next(p, Inside(s.rest, s.top.isObj, s.top.pre, s.top.items + [it.(comma := NoComma)]))
  {
  }

  lemma ItemParts(text: Bytes, p: nat, it: Item)
    requires Matches(text, p, ItemYieldOf(it))
    ensures var p1 := p + |LeadYield(it.lead)|; var p2 := p1 + |it.pre|; var p3 := p2 + |Yield(it.val)|;
            && Matches(text, p, LeadYield(it.lead)) && Matches(text, p1, it.pre)
            && Matches(text, p2, Yield(it.val)) && Matches(text, p3, CommaYield(it.comma))
            && p3 + |CommaYield(it.comma)| == p + |ItemYieldOf(it)|
  {
    hide LeadYield, Yield, CommaYield;
    MatchesSplit(text, p, LeadYield(it.lead) + it.pre + Yield(it.val), CommaYield(it.comma));
    MatchesSplit(text, p, LeadYield(it.lead) + it.pre, Yield(it.val));
    MatchesSplit(text, p, LeadYield(it.lead), it.pre);
  }

  lemma CommaAt(text: Bytes, p: nat, comma: Comma)
    requires comma.Comma? && CommaOk(comma) && Matches(text, p, CommaYield(comma))
    ensures Matches(text, p, comma.pre) && p + |comma.pre| < |text| && At(text, p + |comma.pre|) == COMMA
    ensures Ends(text, p)
  {
    MatchesSplit(text, p, comma.pre, [COMMA]);
    AfterWs(text, p, comma.pre, COMMA);
  }

  // The comma step, on a container whose last item has no comma yet.
  lemma CommaTaken(text: Bytes, q: nat, z: State, it: Item)
    requires q <= |text| && At(text, q) == COMMA && it.comma.Comma?
    requires z.stack.Push? && z.stack.top.part.NoPart? && z.stack.top.items != []
    requires z.stack.top.items[|z.stack.top.items| - 1] == it.(comma := NoComma)
    requires z.mode == AddWs(State(z.stack, Fresh(z.stack.top.isObj)), it.comma.pre).mode
    ensures var f := z.stack.top;
            Leads(text, q, z, q + 1, Inside(z.stack.rest, f.isObj, f.pre, f.items[..|f.items| - 1] + [it]))
  {
    var f := z.stack.top;
    assert [] + it.comma.pre == it.comma.pre;
    assert f.items[|f.items| - 1].(comma := Comma(it.comma.pre)) == it;
    hide Run, Leads;
    OneStep(text, q, z, q + 1, Inside(z.stack.rest, f.isObj, f.pre, f.items[..|f.items| - 1] + [it]));
  }

  lemma CommaRun(text: Bytes, p: nat, z: State, it: Item)
    requires CommaOk(it.comma) && Matches(text, p, CommaYield(it.comma))
    requires z.stack.Push? && z.stack.top.part.NoPart? && z.stack.top.items != []
    requires z.stack.top.items[|z.stack.top.items| - 1] == it.(comma := NoComma)
    requires z.mode == Fresh(z.stack.top.isObj)
    ensures var f := z.stack.top;
            Leads(text, p, z, p + |CommaYield(it.comma)|,
              Inside(z.stack.rest, f.isObj, f.pre, f.items[..|f.items| - 1] + [it]))
  {
    hide Run, Leads, Step, AddWs, CommaOk, Matches, AllWs, Inside;
    var f := z.stack.top;
    var z' := Inside(z.stack.rest, f.isObj, f.pre, f.items[..|f.items| - 1] + [it]);
    if it.comma.Comma? {
      var q := p + |it.comma.pre|;
      CommaWs(it.comma);
      CommaAt(text, p, it.comma);
      TakesWsInside(z);
      WsRun(text, p, z, it.comma.pre);
      AddWsKeeps(z, it.comma.pre);
      CommaTaken(text, q, AddWs(z, it.comma.pre), it);
      ChainRuns(text, p, z, q, AddWs(z, it.comma.pre), q + 1, z');
    } else {
      MatchesWithin(text, p, CommaYield(it.comma));
      assert f.items[..|f.items| - 1] + [it] == f.items;
      SameInside(z);
      Stay(text, p, z);
    }
  }

  lemma CommaWs(comma: Comma)
    requires comma.Comma? && CommaOk(comma)
    ensures AllWs(comma.pre) && |CommaYield(comma)| == |comma.pre| + 1
  {
  }

  lemma TakesWsInside(z: State)
    requires z.stack.Push? && z.stack.top.part.NoPart? && z.mode == Fresh(z.stack.top.isObj)
    ensures TakesWs(z)
  {
  }

  lemma AddWsKeeps(z: State, w: Bytes)
    requires TakesWs(z)
    ensures AddWs(z, w).stack == z.stack && AddWs(State(z.stack, z.mode), w) == AddWs(z, w)
  {
  }

  lemma SameInside(z: State)
    requires z.stack.Push? && z.stack.top.part.NoPart? && z.mode == Fresh(z.stack.top.isObj)
    ensures var f := z.stack.top; Inside(z.stack.rest, f.isObj, f.pre, f.items) == z
  {
  }

  // From the place where a member may start to the place where its value starts.
  lemma LeadRun(text: Bytes, p: nat, s: Stack, pre: Bytes, init: seq<Item>, lead: Lead)
    requires lead.Keyed? && LeadOk(lead) && StrLength(lead.key) <= UINT_LIMIT
    requires LastHasComma(init) && Matches(text, p, LeadYield(lead))
    ensures var part := ColonRead(lead.pre, lead.key, lead.colon);
            Leads(text, p, Inside(s, true, pre, init), p + |LeadYield(lead)|,
              State(Push(Frame(true, pre, init, part), s), Seek([])))
  {
    hide Run, Leads, Quoted, StrOk, StrLength, LeadYield, Matches, AllWs, AddWs;
    var f := Frame(true, pre, init, NoPart);
    var p1 := p + |lead.pre|;
    var p2 := p1 + |Quoted(lead.key)|;
    var p3 := p2 + |lead.colon|;
    var s1 := Push(f.(part := KeyRead(lead.pre, lead.key)), s);
    var z0, z1 := Inside(s, true, pre, init), State(Push(f, s), InObj(lead.pre));
    var z2, z3 := State(s1, Seek([])), State(s1, Seek(lead.colon));
    var z4 := State(Push(f.(part := ColonRead(lead.pre, lead.key, lead.colon)), s), Seek([]));
    LeadParts(text, p, lead);
    WsRun(text, p, z0, lead.pre);
    ObjAddWs(Push(f, s), lead.pre);
    KeyRun(text, p1, Push(f, s), lead.pre, lead.key);
    ChainRuns(text, p, z0, p1, z1, p2, z2);
    WsRun(text, p2, z2, lead.colon);
    SeekAddWs(s1, lead.colon);
    ChainRuns(text, p, z0, p2, z2, p3, z3);
    OneStep(text, p3, z3, p3 + 1, z4);
    ChainRuns(text, p, z0, p3, z3, p3 + 1, z4);
  }

  lemma ObjAddWs(s: Stack, w: Bytes)
    requires s.Push? && s.top.isObj && s.top.part.NoPart?
    ensures TakesWs(State(s, InObj([]))) && AddWs(State(s, InObj([])), w) == State(s, InObj(w))
  {
    assert [] + w == w;
  }

  lemma LeadParts(text: Bytes, p: nat, lead: Lead)
    requires lead.Keyed? && Matches(text, p, LeadYield(lead))
    ensures var p1 := p + |lead.pre|; var p2 := p1 + |Quoted(lead.key)|; var p3 := p2 + |lead.colon|;
            && Matches(text, p, lead.pre) && Matches(text, p1, Quoted(lead.key)) && Matches(text, p2, lead.colon)
            && p3 < |text| && At(text, p3) == COLON && p3 + 1 == p + |LeadYield(lead)|
  {
    hide Quoted;
    MatchesSplit(text, p, lead.pre + Quoted(lead.key) + lead.colon, [COLON]);
    MatchesSplit(text, p, lead.pre + Quoted(lead.key), lead.colon);
    MatchesSplit(text, p, lead.pre, Quoted(lead.key));
  }

  lemma KeySteps(text: Bytes, p: nat, q: nat, s: Stack, ws: Bytes, key: seq<StrItem>)
    requires p <= |text| && At(text, p) == QUOTE && q <= |text| && At(text, q) == QUOTE && StrLength(key) <= UINT_LIMIT
    requires s.Push? && s.top.isObj && !NeedComma(s)
    ensures Leads(text, p, State(s, InObj(ws)), p + 1, State(s, InStr(true, ws, [], false)))
    ensures Leads(text, q, State(s, InStr(true, ws, key, false)), q + 1,
              State(WithTop(s, s.top.(part := KeyRead(ws, key))), Seek([])))
  {
    hide StrLength, Run, Leads;
    OneStep(text, p, State(s, InObj(ws)), p + 1, State(s, InStr(true, ws, [], false)));
    var z := State(WithTop(s, s.top.(part := KeyRead(ws, key))), Seek([]));
    OneStep(text, q, State(s, InStr(true, ws, key, false)), q + 1, z);
  }

  lemma KeyRun(text: Bytes, p: nat, s: Stack, ws: Bytes, key: seq<StrItem>)
    requires StrOk(key) && StrLength(key) <= UINT_LIMIT && Matches(text, p, Quoted(key))
    requires s.Push? && s.top.isObj && !NeedComma(s)
    ensures Leads(text, p, State(s, InObj(ws)), p + |Quoted(key)|,
              State(WithTop(s, s.top.(part := KeyRead(ws, key))), Seek([])))
  {
    hide StrYield, StrLength, StrOk, Run, Leads, Matches, NeedComma, WithTop;
    var z0, z1, z2 := State(s, InObj(ws)), State(s, InStr(true, ws, [], false)), State(s, InStr(true, ws, key, false));
    var z3 := State(WithTop(s, s.top.(part := KeyRead(ws, key))), Seek([]));
    var q := p + 1 + |StrYield(key)|;
    QuotedRun(text, p, s, true, ws, key);
    KeySteps(text, p, q, s, ws, key);
    ChainRuns(text, p, z0, p + 1, z1, q, z2);
    ChainRuns(text, p, z0, q, z2, q + 1, z3);
  }

  // ---------- Whole texts ----------

  lemma DocParts(text: Bytes, d: Doc)
    requires Derives(d, text)
    ensures var p1 := |d.pre|; var p2 := p1 + |Yield(d.val)|; var p3 := p2 + |d.post|;
            && AllWs(d.pre) && WellFormed(d.val) && Fits(d.val) && AllWs(d.post)
            && Matches(text, 0, d.pre) && Matches(text, p1, Yield(d.val)) && Matches(text, p2, d.post)
            && Ends(text, p2) && At(text, p3) == 0
  {
    hide Yield, WellFormed, Fits;
    var p2 := |d.pre| + |Yield(d.val)|;
    MatchesSplit(text, 0, d.pre + Yield(d.val), d.post);
    MatchesSplit(text, 0, d.pre, Yield(d.val));
    if d.post != [] {
      MatchesAt(text, p2, d.post, 0);
    }
  }

  lemma ParseComplete(text: Bytes, d: Doc)
    requires Derives(d, text)
    ensures Parse(text) == Accepted(d)
  {
    hide Derives, Leads, Results, Yield, WellFormed, Fits, Run, Step, Matches, AllWs, Parse;
    DocParts(text, d);
    var p1 := |d.pre|;
    var p2 := p1 + |Yield(d.val)|;
    var p3 := p2 + |d.post|;
    var z1, z2 := State(Bottom, Seek(d.pre)), State(Bottom, Done(d.pre, d.val, []));
    var z3 := State(Bottom, Done(d.pre, d.val, d.post));
    WsRun(text, 0, START, d.pre);
    assert [] + d.pre == d.pre;
    ValueRun(text, p1, Bottom, d.pre, d.val);
    ChainRunsTo(text, 0, START, p1, z1, Next(p2, z2));
    WsRun(text, p2, z2, d.post);
    assert [] + d.post == d.post;
    ChainRunsFrom(text, 0, START, p2, z2, p3, z3);
    AcceptsHere(text, p3, z3, d);
  }

  lemma AcceptsHere(text: Bytes, p: nat, z: State, d: Doc)
    requires Leads(text, 0, START, p, z) && z == State(Bottom, Done(d.pre, d.val, d.post)) && At(text, p) == 0
    ensures Parse(text) == Accepted(d)
  {
  }

  // The text that a tree spells is accepted with that tree.
  lemma OwnText(d: Doc)
    requires DocOk(d)
    ensures Parse(DocYield(d)) == Accepted(d)
  {
    hide Yield, Parse;
    ParseComplete(DocYield(d), d);
  }

  // The parser accepts a text exactly when the grammar derives it, and the tree
  // it accepts is the only one that does.
  lemma ParseIffDerives(text: Bytes, d: Doc)
    ensures Parse(text) == Accepted(d) <==> Derives(d, text)
  {
    if Parse(text) == Accepted(d) {
      Soundness.ParseSound(text);
    }
    if Derives(d, text) {
      ParseComplete(text, d);
    }
  }

  lemma GrammarUnambiguous(text: Bytes, d: Doc, e: Doc)
    requires Derives(d, text) && Derives(e, text)
    ensures d == e
  {
    ParseComplete(text, d);
    ParseComplete(text, e);
  }
}
