/**
 The parser as a pushdown machine whose states are partial syntax trees. One step is one trip
 round the byte loop of the first pass. The flag bits of the source are a function of this state
 (see Representation.FlagsOf), and no state holds more than what has been read so far.
 */
module Machine {
  import opened Text
  import opened Escape
  import opened Numbers
  import opened Grammar

  // What an open object has read of its next member.
  datatype Part =
    | NoPart
    | KeyRead(pre: Bytes, key: seq<StrItem>)
    | ColonRead(pre: Bytes, key: seq<StrItem>, colon: Bytes)

  // An open container: the white space before it, its complete items, its next key.
  datatype Frame = Frame(isObj: bool, pre: Bytes, items: seq<Item>, part: Part)

  datatype Stack = Bottom | Push(top: Frame, rest: Stack)

  datatype Mode =
    | Seek(ws: Bytes)
    | InObj(ws: Bytes)
    | InStr(isKey: bool, ws: Bytes, items: seq<StrItem>, escaped: bool)
    | InNum(ws: Bytes, tok: NumTok)
    | Done(pre: Bytes, val: Cst, post: Bytes)

  datatype State = State(stack: Stack, mode: Mode)

  datatype StepResult = Next(i: nat, z: State) | Reject | Accept(doc: Doc)

  datatype Verdict = Accepted(doc: Doc) | Rejected

  const START := State(Bottom, Seek([]))

  predicate NeedComma(s: Stack) {
    s.Push? && s.top.items != [] && s.top.items[|s.top.items| - 1].comma.NoComma?
  }

  predicate NeedColon(s: Stack) {
    s.Push? && s.top.part.KeyRead?
  }

  function WithTop(s: Stack, f: Frame): Stack
    requires s.Push?
  {
    s.(top := f)
  }

  function AddComma(f: Frame, ws: Bytes): Frame
    requires f.items != []
  {
    var last := |f.items| - 1;
    f.(items := f.items[..last] + [f.items[last].(comma := Comma(ws))])
  }

  function LeadOf(part: Part): Lead {
    if part.ColonRead? then Keyed(part.pre, part.key, part.colon) else NoKey
  }

  // A complete value joins the container that is open, or ends the text's value.
  function Attached(s: Stack, pre: Bytes, v: Cst): State {
    if s.Bottom? then State(Bottom, Done(pre, v, []))
    else
      var f := s.top;
      var f' := f.(items := f.items + [Item(LeadOf(f.part), pre, v, NoComma)], part := NoPart);
      State(Push(f', s.rest), if f.isObj then InObj([]) else Seek([]))
  }

  // The count of attached children is checked right after it is incremented.
  function Complete(i: nat, s: Stack, pre: Bytes, v: Cst): StepResult {
    if s.Push? && |s.top.items| + 1 > UINT_LIMIT then Reject else Next(i, Attached(s, pre, v))
  }

  predicate HexAt(text: Bytes, p: nat) {
    p + 4 <= |text| && IsHex(text[p]) && IsHex(text[p + 1]) && IsHex(text[p + 2]) && IsHex(text[p + 3])
  }

  function StepStr(text: Bytes, i: nat, s: Stack, m: Mode): StepResult
    requires i <= |text| && m.InStr?
  {
    var b := At(text, i);
    if b == 0 || StrLength(m.items) > UINT_LIMIT then Reject
    else if m.escaped then
      if b == LOWER_U then
        if !HexAt(text, i + 1) then Reject
        else
          var it := Uni(text[i + 1], text[i + 2], text[i + 3], text[i + 4]);
          Next(i + 5, State(s, m.(items := m.items + [it], escaped := false)))
      else Next(i + 1, State(s, m.(items := m.items + [Esc(b)], escaped := false)))
    else if b == BACKSLASH then Next(i + 1, State(s, m.(escaped := true)))
    else if b == QUOTE then
      if m.isKey && s.Push? then
        Next(i + 1, State(WithTop(s, s.top.(part := KeyRead(m.ws, m.items))), Seek([])))
      else Complete(i + 1, s, m.ws, Str(m.items))
    else Next(i + 1, State(s, m.(items := m.items + [Raw(b)])))
  }

  function StepLiteral(text: Bytes, i: nat, s: Stack, ws: Bytes, word: Bytes, v: Cst): StepResult {
    if Matches(text, i, word) then Complete(i + |word|, s, ws, v) else Reject
  }

  function StepValue(text: Bytes, i: nat, s: Stack, ws: Bytes): StepResult
    requires i <= |text|
  {
    var b := At(text, i);
    if b == 0 then Reject
    else if b == LBRACE then Next(i + 1, State(Push(Frame(true, ws, [], NoPart), s), InObj([])))
    else if b == LBRACKET then Next(i + 1, State(Push(Frame(false, ws, [], NoPart), s), Seek([])))
    else if b == QUOTE then Next(i + 1, State(s, InStr(false, ws, [], false)))
    else if b == LOWER_T then StepLiteral(text, i, s, ws, TRUE_BYTES, True)
    else if b == LOWER_F then StepLiteral(text, i, s, ws, FALSE_BYTES, False)
    else if b == LOWER_N then StepLiteral(text, i, s, ws, NULL_BYTES, Null)
    else if b == MINUS then Next(i + 1, State(s, InNum(ws, NumTok(true, [], None, None))))
    else if IsDigit(b) then Next(i, State(s, InNum(ws, NumTok(false, [], None, None))))
    else Reject
  }

  function StepSeek(text: Bytes, i: nat, s: Stack, ws: Bytes): StepResult
    requires i <= |text|
  {
    var b := At(text, i);
    if b == 0 then Reject
    else if IsWs(b) then Next(i + 1, State(s, Seek(ws + [b])))
    else if b == RBRACKET then
      if s.Push? && !s.top.isObj then Complete(i + 1, s.rest, s.top.pre, Box(false, s.top.items, ws))
      else Reject
    else if NeedComma(s) then
      if b == COMMA then Next(i + 1, State(WithTop(s, AddComma(s.top, ws)), Seek([]))) else Reject
    else if NeedColon(s) then
      if b == COLON then
        var part := ColonRead(s.top.part.pre, s.top.part.key, ws);
        Next(i + 1, State(WithTop(s, s.top.(part := part)), Seek([])))
      else Reject
    else StepValue(text, i, s, ws)
  }

  function StepObj(text: Bytes, i: nat, s: Stack, ws: Bytes): StepResult
    requires i <= |text|
  {
    var b := At(text, i);
    if b == 0 || s.Bottom? then Reject
    else if IsWs(b) then Next(i + 1, State(s, InObj(ws + [b])))
    else if b == QUOTE then
      if NeedComma(s) then Reject else Next(i + 1, State(s, InStr(true, ws, [], false)))
    else if b == RBRACE then Complete(i + 1, s.rest, s.top.pre, Box(true, s.top.items, ws))
    else if b == COMMA && NeedComma(s) then
      Next(i + 1, State(WithTop(s, AddComma(s.top, ws)), InObj([])))
    else Reject
  }

  // A finished number does not consume the byte that ends it.
  function StepNumber(text: Bytes, i: nat, s: Stack, m: Mode): StepResult
    requires i <= |text| && m.InNum?
  {
    match StepNum(m.tok, At(text, i))
    case More(t) => Next(i + 1, State(s, InNum(m.ws, t)))
    case Finished => Complete(i, s, m.ws, Num(m.tok))
    case Bad => Reject
  }

  function StepDone(text: Bytes, i: nat, m: Mode): StepResult
    requires i <= |text| && m.Done?
  {
    var b := At(text, i);
    if b == 0 then Accept(Doc(m.pre, m.val, m.post))
    else if IsWs(b) then Next(i + 1, State(Bottom, m.(post := m.post + [b])))
    else Reject
  }

  function Rank(text: Bytes, i: nat, z: State): nat
    requires i <= |text|
  {
    if z.mode.InNum? == IsDigit(At(text, i)) then 0 else 1
  }

  // Every step moves forward, or leaves the position and lowers the rank: a byte is processed again
  // only when a digit starts a number and when a byte that is no digit ends one.
  function Step(text: Bytes, i: nat, z: State): (r: StepResult)
    requires i <= |text|
    ensures r.Next? ==> i <= r.i <= |text|
    ensures r.Next? && r.i == i ==> Rank(text, i, r.z) < Rank(text, i, z)
  {
    match z.mode
    case Seek(ws) => StepSeek(text, i, z.stack, ws)
    case InObj(ws) => StepObj(text, i, z.stack, ws)
    case InStr(_, _, _, _) => StepStr(text, i, z.stack, z.mode)
    case InNum(_, tok) => StepNumber(text, i, z.stack, z.mode)
    case Done(_, _, _) => StepDone(text, i, z.mode)
  }

  function Run(text: Bytes, i: nat, z: State): Verdict
    requires i <= |text|
    decreases |text| - i, Rank(text, i, z)
  {
    match Step(text, i, z)
    case Next(i', z') => Run(text, i', z')
    case Reject => Rejected
    case Accept(doc) => Accepted(doc)
  }

  function Parse(text: Bytes): Verdict {
    Run(text, 0, START)
  }

  // n steps lead from z at i to z' at j.
  predicate Reaches(text: Bytes, i: nat, z: State, j: nat, z': State, n: nat)
    decreases n
  {
    && i <= |text|
    && if n == 0 then j == i && z' == z
       else
         var r := Step(text, i, z);
         r.Next? && Reaches(text, r.i, r.z, j, z', n - 1)
  }
}
