/**
 How the parser's variables represent the machine's state, and one lemma for each way in which the
 loop body changes them.
 */
module Representation {
  import opened Text
  import opened Escape
  import opened Numbers
  import opened Grammar
  import opened Machine
  import opened Soundness
  import opened Completeness
  import opened Table
  import opened Growth
  import opened Skip
  import opened Memory
  import opened Layout
  import opened Requests

  // The flag bits that control the loop.
  datatype Flags = Flags(next: bool, reproc: bool, needComma: bool, seekValue: bool,
                         escaped: bool, inString: bool, needColon: bool, done: bool)

  // The flag bits of the number that is being read.
  datatype NumFlags = NumFlags(negative: bool, zero: bool, e: bool, gotSign: bool, eNegative: bool)

  const CLEAR := Flags(false, false, false, false, false, false, false, false)
  const NUM_CLEAR := NumFlags(false, false, false, false, false)

  // The parser's variables apart from the position and the memory.
  datatype Registers = Registers(flags: Flags, num: NumFlags, top: Ref, buffer: Target, stringLength: int,
                                 numDigits: nat, numE: int, numFraction: int)

  // ---------- The registers as functions of the machine's state ----------

  function FlagsOf(z: State): Flags {
    match z.mode
    case Seek(_) => CLEAR.(seekValue := true, needComma := NeedComma(z.stack), needColon := NeedColon(z.stack))
    case InObj(_) => CLEAR.(needComma := NeedComma(z.stack))
    case InStr(_, _, _, escaped) => CLEAR.(inString := true, escaped := escaped)
    case InNum(_, _) => CLEAR
    case Done(_, _, _) => CLEAR.(needComma := true, done := true)
  }

  function TopOf(z: State): Ref {
    match z.mode
    case InStr(false, _, _, _) => Ref(|StackRows(z.stack, [])|)
    case InNum(_, _) => Ref(|StackRows(z.stack, [])|)
    case Done(_, _, _) => Ref(0)
    case _ => TopRef(z.stack)
  }

  function NumFlagsOf(t: NumTok): NumFlags {
    NumFlags(t.neg, t.ip != [] && t.ip[0] == DIGIT_0 && t.exp.None?, t.exp.Some?,
             t.exp.Some? && (t.exp.value.sign.Some? || t.exp.value.digits != []), ExpNegative(t))
  }

  // The digits that num_digits counts.
  function Counted(t: NumTok): Bytes {
    if t.exp.Some? then t.exp.value.digits else if t.frac.Some? then t.frac.value else t.ip
  }

  // The index of the row whose string or key is being read.
  function TextIndex(z: State): nat
    requires z.mode.InStr? && (z.mode.isKey ==> z.stack.Push?)
  {
    if z.mode.isKey then TopIndex(z.stack) else |StackRows(z.stack, [])|
  }

  function ZeroRow(kind: Kind, parent: Ref): Row {
    match kind
    case KObject => RBox(parent, true, [], [], [])
    case KArray => RBox(parent, false, [], [], [])
    case KString => RStr(parent, [], true)
    case KInteger => RScalar(parent, SNum(Int(0)), true)
    case KDouble => RScalar(parent, SNum(Real(0.0)), true)
    case KBoolean => RScalar(parent, SBool(false), true)
    case KNull => RScalar(parent, SNull, true)
  }

  lemma ZeroNode(kind: Kind, parent: Ref)
    ensures Node1(ZeroRow(kind, parent), NoRef) == Node(parent, kind, ZeroUnion(kind), NextAlloc(NoRef))
  {
  }

  // Appending a zeroed node to the chain of the first pass.
  lemma StoreAppend(m: Store, kind: Kind, parent: Ref)
    requires StoreOk(m) && m.first
    ensures m.nextNode == |m.rows| && StoreCleanable(m)
    ensures if m.nextNode == 0 then m.alloc.NoRef? else m.alloc == Ref(m.nextNode - 1) && m.alloc.addr in m.nodes
    ensures var a := m.nextNode;
            StoreOk(m.(nodes := Linked(m.nodes, a)[a := Node(parent, kind, ZeroUnion(kind), NextAlloc(NoRef))],
                       nextNode := a + 1, root := if m.root.NoRef? then Ref(a) else m.root, alloc := Ref(a),
                       rows := m.rows + [ZeroRow(kind, parent)]))
  {
    OkIsCleanable(m);
    assert m.rows != [] ==> |m.rows| - 1 in m.nodes;
    MeasuredAppend(m.nodes, m.rows, ZeroRow(kind, parent));
    ZeroNode(kind, parent);
    hide Measured, Linked, ZeroRow, ZeroUnion, StoreCleanable;
  }

  lemma TextRow(z: State)
    requires z.mode.InStr? && (z.mode.isKey ==> z.stack.Push? && z.stack.top.isObj && z.stack.top.part.NoPart?)
    ensures var k := TextIndex(z);
            && k < |Rows(z)| && IsOpenText(Rows(z)[k]) && TextOf(Rows(z)[k]) == StrBytes(z.mode.items)
            && (z.mode.isKey ==> Rows(z)[k].RBox? && |Rows(z)[k].names| == |Rows(z)[k].kids|)
            && (!z.mode.isKey ==> Rows(z)[k].RStr?)
  {
  }

  lemma TextRowsExtend(z: State, it: StrItem)
    requires z.mode.InStr? && (z.mode.isKey ==> z.stack.Push? && z.stack.top.isObj && z.stack.top.part.NoPart?)
    ensures var k := TextIndex(z); var z' := z.(mode := z.mode.(items := z.mode.items + [it], escaped := false));
            && k < |Rows(z)| && IsOpenText(Rows(z)[k])
            && Rows(z') == Rows(z)[k := ExtendedBy(Rows(z)[k], ItemBytes(it))]
  {
    TextRow(z);
    StrYieldSnoc(z.mode.items, it);
    hide StrBytes, StackRows, ItemBytes;
    if z.mode.isKey {
      TopRow(z.stack, [StrBytes(z.mode.items)]);
      RetopRows(z.stack, [StrBytes(z.mode.items)], z.stack.top, [StrBytes(z.mode.items + [it])]);
      assert WithTop(z.stack, z.stack.top) == z.stack;
    }
  }

  // Popping the next measured node and giving it its block visits it.
  lemma Placed(nodes: Nodes, blocks: Blocks, rows: seq<Row>, fin: seq<Row>, kind: Kind, parent: Ref)
    requires Filled(nodes, blocks, rows, fin) && |rows| < |fin| && AllClosed(fin) && AllBounded(fin)
    requires RowLe(ZeroRow(kind, parent), fin[|rows|])
    ensures var a := |rows|;
            && Poppable(nodes, a)
            && Filled(PoppedNodes(nodes, a), PoppedBlocks(nodes, blocks, a),
                      rows + [if fin[a].RScalar? then fin[a] else ZeroRow(kind, parent)], fin)
  {
    var a := |rows|;
    NextUnvisited(nodes, blocks, rows, fin);
    var cap := fin[a];
    assert RowClosed(cap) && RowBounded(cap);
    hide Filled, BlockFits, AllClosed, AllBounded, NameTotal;
    if cap.RScalar? {
      FilledAppendScalar(nodes, blocks, rows, fin);
    } else {
      var zero := ZeroRow(kind, parent);
      var next := NextRef(a + 1, |fin|);
      PoppedNode(nodes, blocks, cap, zero, a, next);
      FreshFits(zero, cap);
      FilledAppend(nodes, blocks, rows, fin, zero, FreshBlock(cap));
    }
  }

  lemma PoppedNode(nodes: Nodes, blocks: Blocks, cap: Row, zero: Row, a: nat, next: Ref)
    requires a in nodes && nodes[a] == Node1(cap, next) && RowClosed(cap) && RowBounded(cap) && !cap.RScalar?
    requires zero == FreshRow(cap)
    ensures Poppable(nodes, a)
    ensures PoppedNodes(nodes, a) == nodes[a := Node2(zero, a, next)]
    ensures PoppedBlocks(nodes, blocks, a) == blocks[a := FreshBlock(cap)]
  {
  }

  // Popping the next node of the chain in the second pass.
  lemma StorePop(m: Store, kind: Kind, parent: Ref)
    requires StoreOk(m) && !m.first && |m.rows| < |m.fin| && RowLe(ZeroRow(kind, parent), m.fin[|m.rows|])
    ensures var a := |m.rows|;
            && m.alloc == Ref(a) && a in m.nodes && Poppable(m.nodes, a) && m.nodes[a].reserved.NextAlloc?
            && PoppedSizes(m.nodes, a) == RowSizes(m.fin[a])
            && StoreOk(m.(nodes := PoppedNodes(m.nodes, a), blocks := PoppedBlocks(m.nodes, m.blocks, a),
                          root := if m.root.NoRef? then Ref(a) else m.root, alloc := m.nodes[a].reserved.next,
                          rows := m.rows + [if m.fin[a].RScalar? then m.fin[a] else ZeroRow(kind, parent)]))
  {
    NextUnvisited(m.nodes, m.blocks, m.rows, m.fin);
    Placed(m.nodes, m.blocks, m.rows, m.fin, kind, parent);
    var cap, next := m.fin[|m.rows|], NextRef(|m.rows| + 1, |m.fin|);
    Node1Next(cap, next);
    assert RowClosed(cap) && RowBounded(cap);
    PoppedAsks(m.nodes, |m.rows|, cap, next);
    hide Filled, AllClosed, AllBounded, ZeroRow, RowLe, Node1, Poppable, PoppedNodes, PoppedBlocks, PoppedSizes,
         RowSizes;
  }

  lemma Node1Next(r: Row, next: Ref)
    ensures Node1(r, next).reserved == NextAlloc(next)
  {
  }

  // The state after one more item of the string or key.
  function WithItem(z: State, it: StrItem): (z': State)
    requires z.mode.InStr?
    ensures z'.mode.InStr? && z'.stack == z.stack && z'.mode.isKey == z.mode.isKey && !z'.mode.escaped
  {
    z.(mode := z.mode.(items := z.mode.items + [it], escaped := false))
  }

  lemma StepEsc(text: Bytes, i: nat, z: State)
    requires i <= |text| && z.mode.InStr? && z.mode.escaped && StrLength(z.mode.items) <= UINT_LIMIT
    requires At(text, i) != 0 && At(text, i) != LOWER_U
    ensures Step(text, i, z) == Next(i + 1, WithItem(z, Esc(At(text, i))))
  {
  }

  lemma StepRaw(text: Bytes, i: nat, z: State)
    requires i <= |text| && z.mode.InStr? && !z.mode.escaped && StrLength(z.mode.items) <= UINT_LIMIT
    requires At(text, i) != 0 && At(text, i) != QUOTE && At(text, i) != BACKSLASH
    ensures Step(text, i, z) == Next(i + 1, WithItem(z, Raw(At(text, i))))
  {
  }

  lemma StepUni(text: Bytes, i: nat, z: State)
    requires i <= |text| && z.mode.InStr? && z.mode.escaped && StrLength(z.mode.items) <= UINT_LIMIT
    requires At(text, i) == LOWER_U
    ensures Step(text, i, z)
            == if HexAt(text, i + 1)
               then Next(i + 5, WithItem(z, Uni(text[i + 1], text[i + 2], text[i + 3], text[i + 4])))
               else Reject
  {
  }

  // ---------- Representation ----------

  predicate NumRegisters(r: Registers, t: NumTok) {
    && r.num == NumFlagsOf(t) && r.numDigits == |Counted(t)|
    && r.numFraction == InWidth(Int64, Decimal(FracDigits(t)))
    && r.numE == InWidth(Int64, Decimal(ExpDigits(t)))
  }

  // The parser's variables represent the machine's state z.
  predicate Represents(r: Registers, m: Store, z: State) {
    && r.flags == FlagsOf(z) && r.top == TopOf(z) && m.rows == Rows(z) && StoreOk(m)
    && (z.mode.InStr? ==> (z.mode.isKey ==> z.stack.Push?) && TextAt(m, TextIndex(z), r.stringLength, r.buffer))
    && (z.mode.InNum? ==> m.first && NumRegisters(r, z.mode.tok))
  }

  // The loop is about to process the byte at i in state z; in the second pass
  // the rest of the run is known to accept, and fin is its final table.
  predicate Current(text: Bytes, i: int, r: Registers, m: Store, z: State): (b: bool)
    ensures b ==> 0 <= i <= |text|
  {
    && 0 <= i && Inv(text, i, z) && Represents(r, m, z)
    && (!m.first ==> Run(text, i, z).Accepted? && m.fin == Final(Run(text, i, z).doc))
  }

  // The position has moved, or the rank has dropped.
  predicate Progresses(text: Bytes, i0: nat, z: State, i: nat, z': State)
    requires i0 <= |text| && i <= |text|
  {
    i0 < i || (i0 == i && Rank(text, i, z') < Rank(text, i0, z))
  }

  // From i0 in state z the machine gets to i in state z', which is what the
  // variables represent.
  predicate Moved(text: Bytes, i0: nat, z: State, i: int, r: Registers, m: Store, z': State) {
    && i0 <= |text| && 0 <= i <= |text| && Inv(text, i, z') && Leads(text, i0, z, i, z')
    && Progresses(text, i0, z, i, z')
    && Represents(r, m, z')
  }

  // The value v of the innermost container is complete and its node is on top;
  // the position will be i.
  predicate Pending(text: Bytes, i0: nat, z: State, i: int, r: Registers, m: Store, s: Stack, pre: Bytes, v: Cst) {
    && i0 <= |text| && 0 <= i <= |text|
    && r.flags == CLEAR.(next := true, reproc := r.flags.reproc)
    && StoreOk(m) && m.rows == Detached(s, v) && r.top == Ref(|StackRows(s, [])|)
    && AllAwaiting(s)
    && var c := Complete(i, s, pre, v);
       if c.Reject? then m.first && Step(text, i0, z).Reject?
       else
         && Inv(text, i, c.z) && Leads(text, i0, z, i, c.z) && Progresses(text, i0, z, i, c.z)
         && (!m.first ==> Grows(Rows(c.z), m.fin))
  }

  // The loop fails at i in state z: only the first pass can, and its nodes can still be freed.
  predicate Failed(text: Bytes, i: nat, z: State, m: Store) {
    i <= |text| && m.first && Step(text, i, z).Reject? && StoreCleanable(m)
  }

  lemma FailHere(text: Bytes, i: nat, r: Registers, m: Store, z: State)
    requires Current(text, i, r, m, z) && Step(text, i, z).Reject?
    ensures Failed(text, i, z, m)
  {
    if !m.first {
      Ahead(text, i, z);
    }
    OkIsCleanable(m);
  }

  lemma MovedIntro(text: Bytes, i: nat, r: Registers, m: Store, z: State, r': Registers, m': Store)
    requires Current(text, i, r, m, z) && Step(text, i, z).Next?
    requires Represents(r', m', Step(text, i, z).z)
    ensures var s := Step(text, i, z); Moved(text, i, z, s.i, r', m', s.z)
  {
    var s := Step(text, i, z);
    StepSound(text, i, z);
    OneStep(text, i, z, s.i, s.z);
    hide Inv, Step, Run, Represents, Leads, Final;
  }

  // A step that changes neither the table nor the node on top.
  lemma QuietStep(text: Bytes, i: nat, r: Registers, m: Store, z: State, r': Registers)
    requires Current(text, i, r, m, z) && Step(text, i, z).Next?
    requires var s := Step(text, i, z);
             && Rows(s.z) == Rows(z) && !s.z.mode.InNum?
             && (s.z.mode.InStr? ==> z.mode.InStr? && (z.mode.isKey ==> z.stack.Push?) && s.z.stack == z.stack
                                     && s.z.mode.isKey == z.mode.isKey && TextIndex(s.z) == TextIndex(z))
             && r' == r.(flags := FlagsOf(s.z)) && TopOf(s.z) == TopOf(z)
    ensures var s := Step(text, i, z); Moved(text, i, z, s.i, r', m, s.z)
  {
    hide Inv, Step, Run, Rows, StoreOk, TextAt, FlagsOf, TopOf, TextIndex, Moved, Final, NumRegisters;
    MovedIntro(text, i, r, m, z, r', m);
  }

  // ---------- Strings and keys ----------

  // What holds before the bytes of an item are added.
  lemma TextReady(text: Bytes, i: nat, r: Registers, m: Store, z: State)
    requires Current(text, i, r, m, z) && z.mode.InStr?
    ensures z.mode.isKey ==> z.stack.Push?
    ensures TextAt(m, TextIndex(z), r.stringLength, r.buffer) && StoreOk(m)
    ensures r.stringLength == StrLength(z.mode.items) <= UINT_LIMIT + 3
    ensures z.mode.escaped ==> StrLength(z.mode.items) <= UINT_LIMIT
    ensures r.flags == CLEAR.(inString := true, escaped := z.mode.escaped)
  {
    TextRow(z);
    StringCountedIsWritten(z.mode.items);
    hide StrLength, StrBytes, Spelled, FrameOk, StoreOk;
  }

  lemma TextRoom(text: Bytes, i: nat, r: Registers, m: Store, z: State, it: StrItem)
    requires Current(text, i, r, m, z) && z.mode.InStr?
    requires Step(text, i, z).Next? && Step(text, i, z).z == WithItem(z, it)
    ensures z.mode.isKey ==> z.stack.Push?
    ensures RoomAt(m.first, m.rows, m.fin, TextIndex(z), |ItemBytes(it)|)
  {
    TextRow(z);
    TextRowsExtend(z, it);
    if !m.first {
      var k := TextIndex(z);
      Ahead(text, i, z);
      assert RowLe(Rows(WithItem(z, it))[k], m.fin[k]);
      assert RowClosed(m.fin[k]);
      RoomWithin(Rows(z)[k], ItemBytes(it), m.fin[k]);
    }
    hide Inv, Run, Step, Rows, StackRows, ItemBytes, ExtendedBy, IsOpenText;
  }

  lemma TextDone(text: Bytes, i: nat, r: Registers, m: Store, z: State, it: StrItem, i': nat, r': Registers, m': Store)
    requires Current(text, i, r, m, z) && z.mode.InStr? && Step(text, i, z) == Next(i', WithItem(z, it))
    requires z.mode.isKey ==> z.stack.Push?
    requires StoreOk(m') && TextAt(m', TextIndex(z), r'.stringLength, r'.buffer)
    requires TextIndex(z) < |m.rows| && IsOpenText(m.rows[TextIndex(z)])
    requires m'.rows == WithText(m.rows, TextIndex(z), ItemBytes(it))
    requires r'.flags == CLEAR.(inString := true) && r'.top == r.top
    ensures Moved(text, i, z, i', r', m', WithItem(z, it))
  {
    if z.mode.isKey {
      TextKey(text, i, z);
    }
    TextRowsExtend(z, it);
    WithItemView(z, it);
    hide Inv, Run, Step, Rows, ItemBytes, WithText, ExtendedBy, IsOpenText, StoreOk, TextAt, TextIndex, Moved, Final,
         WithItem, FlagsOf, TopOf;
    MovedIntro(text, i, r, m, z, r', m');
  }

  lemma TextKey(text: Bytes, i: nat, z: State)
    requires Inv(text, i, z) && z.mode.InStr? && z.mode.isKey
    ensures z.stack.Push? && z.stack.top.isObj && z.stack.top.part.NoPart?
  {
  }

  lemma WithItemView(z: State, it: StrItem)
    requires z.mode.InStr? && (z.mode.isKey ==> z.stack.Push?)
    ensures FlagsOf(WithItem(z, it)) == CLEAR.(inString := true) && TopOf(WithItem(z, it)) == TopOf(z)
    ensures TextIndex(WithItem(z, it)) == TextIndex(z)
    ensures WithItem(z, it) == z.(mode := z.mode.(items := z.mode.items + [it], escaped := false))
  {
  }

  // A value is complete: what has to be shown of the variables.
  lemma PendingIntro(text: Bytes, i0: nat, r0: Registers, m0: Store, z: State,
                     i: nat, r: Registers, m: Store, s: Stack, pre: Bytes, v: Cst)
    requires Current(text, i0, r0, m0, z) && Step(text, i0, z) == Complete(i, s, pre, v)
    requires i <= |text| && AllAwaiting(s)
    requires m.first == m0.first && m.fin == m0.fin
    requires StoreOk(m) && m.rows == Detached(s, v) && r.top == Ref(|StackRows(s, [])|)
    requires r.flags == CLEAR.(next := true, reproc := r.flags.reproc)
    ensures Pending(text, i0, z, i, r, m, s, pre, v)
  {
    var c := Complete(i, s, pre, v);
    if c.Next? {
      StepSound(text, i0, z);
      OneStep(text, i0, z, i, c.z);
    }
    if !m0.first {
      Ahead(text, i0, z);
    }
    hide Inv, Run, Rows, Detached, StackRows, StoreOk, Step, Grows, FrameOk;
  }

  // A string ends nowhere but at its quote, and is cut off at the limit.
  lemma StepLimits(text: Bytes, i: nat, z: State)
    requires i <= |text| && z.mode.InStr?
    ensures At(text, i) == 0 || StrLength(z.mode.items) > UINT_LIMIT ==> Step(text, i, z).Reject?
  {
  }

  lemma BackslashDone(text: Bytes, i: nat, r: Registers, m: Store, z: State)
    requires Current(text, i, r, m, z) && z.mode.InStr? && !z.mode.escaped && At(text, i) == BACKSLASH
    requires StrLength(z.mode.items) <= UINT_LIMIT
    ensures Moved(text, i, z, i + 1, r.(flags := r.flags.(escaped := true)), m, z.(mode := z.mode.(escaped := true)))
  {
    hide StackRows, StrLength, StrBytes, StoreOk, TextAt, Moved, Spelled, FrameOk, Run;
    QuietStep(text, i, r, m, z, r.(flags := r.flags.(escaped := true)));
  }

  function KeyEnd(z: State): State
    requires z.mode.InStr? && z.stack.Push?
  {
    State(WithTop(z.stack, z.stack.top.(part := KeyRead(z.mode.ws, z.mode.items))), Seek([]))
  }

  lemma StepQuote(text: Bytes, i: nat, z: State)
    requires i <= |text| && z.mode.InStr? && !z.mode.escaped && StrLength(z.mode.items) <= UINT_LIMIT
    requires At(text, i) == QUOTE && (z.mode.isKey ==> z.stack.Push?)
    ensures Step(text, i, z)
            == if z.mode.isKey then Next(i + 1, KeyEnd(z)) else Complete(i + 1, z.stack, z.mode.ws, Str(z.mode.items))
  {
  }

  lemma TopIsText(z: State)
    requires z.mode.InStr? && (z.mode.isKey ==> z.stack.Push?)
    ensures TopOf(z) == Ref(TextIndex(z))
  {
  }

  // A row with a key that is being read, within the final row: there is room for one more member.
  lemma KeyRoom(row: Row, cap: Row)
    requires row.RBox? && row.isObj && |row.cur| == 1 && |row.names| == |row.kids| && RowLe(row, cap) && RowClosed(cap)
    ensures cap.RBox? && |row.names| < |cap.kids| && Room(row, cap, 0)
  {
    hide NameTotal;
    assert cap.names + cap.cur == cap.names;
    NameTotalSnoc(row.names, row.cur[0]);
    assert row.names + row.cur == row.names + [row.cur[0]];
  }

  lemma KeyAhead(text: Bytes, i: nat, r: Registers, m: Store, z: State)
    requires Current(text, i, r, m, z) && z.mode.InStr? && z.mode.isKey && z.stack.Push? && !m.first
    requires z.stack.top.isObj && z.stack.top.part.NoPart?
    ensures MemberRoom(m, TextIndex(z))
  {
    hide Inv, Run, Step, Rows, StackRows, StrBytes, NameTotal, TextAt, FlagsOf, TopOf, RowLe, RowClosed, Room, Filled,
         AllBounded, NumRegisters, IsOpenText;
    var k := TextIndex(z);
    TextRow(z);
    RowIsOpen(m.rows[k]);
    Ahead(text, i, z);
    KeyRoom(m.rows[k], m.fin[k]);
  }

  lemma RowIsOpen(row: Row)
    requires IsOpenText(row) && row.RBox?
    ensures row.isObj && |row.cur| == 1
  {
  }

  // The node on top is the one whose string or key is being read.
  lemma TextTop(text: Bytes, i: nat, r: Registers, m: Store, z: State)
    requires Current(text, i, r, m, z) && z.mode.InStr?
    ensures z.mode.isKey ==> z.stack.Push?
    ensures var k := TextIndex(z);
            && r.top == Ref(k) && k < |m.rows| && m.rows[k].RBox? == z.mode.isKey && !m.rows[k].RScalar?
            && (z.mode.isKey ==> MemberRoom(m, k))
  {
    hide Inv, Run, Step, Rows, StackRows, StrBytes, NameTotal, StoreOk, TextAt, FlagsOf, TopOf, TextIndex,
         NumRegisters;
    if z.mode.isKey {
      TextKey(text, i, z);
      if !m.first {
        KeyAhead(text, i, r, m, z);
      }
    }
    TextRow(z);
    TopIsText(z);
  }

  lemma KeyEndRows(z: State)
    requires z.mode.InStr? && z.mode.isKey && z.stack.Push? && z.stack.top.part.NoPart?
    ensures var k := TextIndex(z);
            && k < |Rows(z)| && Rows(z)[k].RBox? && |Rows(z)[k].cur| == 1
            && Rows(KeyEnd(z)) == Rows(z)[k := KeyClosed(Rows(z)[k])]
  {
    var s, cur := z.stack, [StrBytes(z.mode.items)];
    var part := KeyRead(z.mode.ws, z.mode.items);
    hide StackRows, StrBytes, Names, Kids;
    TopRow(s, cur);
    RetopRows(s, cur, s.top.(part := part), []);
    assert Names(s.top.isObj, s.top.items) + [] + cur == Names(s.top.isObj, s.top.items) + cur;
  }

  lemma KeyDone(text: Bytes, i: nat, r: Registers, m: Store, z: State, r': Registers, m': Store)
    requires Current(text, i, r, m, z) && z.mode.InStr? && z.mode.isKey && z.stack.Push?
    requires Step(text, i, z) == Next(i + 1, KeyEnd(z))
    requires TextIndex(z) < |m.rows| && m.rows[TextIndex(z)].RBox? && |m.rows[TextIndex(z)].cur| == 1
    requires StoreOk(m') && m'.rows == m.rows[TextIndex(z) := KeyClosed(m.rows[TextIndex(z)])]
    requires r'.flags == CLEAR.(seekValue := true, needColon := true) && r'.top == r.top
    ensures Moved(text, i, z, i + 1, r', m', KeyEnd(z))
  {
    hide Inv, Run, Step, Rows, StackRows, StoreOk, TextAt, FlagsOf, TopOf, TextIndex, NumRegisters, KeyEnd, KeyClosed,
         Moved;
    TextKey(text, i, z);
    KeyEndRows(z);
    KeyEndMode(text, i, z);
    MovedIntro(text, i, r, m, z, r', m');
  }

  lemma KeyEndMode(text: Bytes, i: nat, z: State)
    requires Inv(text, i, z) && z.mode.InStr? && z.mode.isKey && z.stack.Push?
    ensures KeyEnd(z).mode.Seek? && FlagsOf(KeyEnd(z)) == CLEAR.(seekValue := true, needColon := true)
    ensures TopOf(KeyEnd(z)) == TopOf(z)
  {
  }

  lemma StringDone(text: Bytes, i: nat, r: Registers, m: Store, z: State, r': Registers, m': Store)
    requires Current(text, i, r, m, z) && z.mode.InStr? && !z.mode.isKey
    requires Step(text, i, z) == Complete(i + 1, z.stack, z.mode.ws, Str(z.mode.items)) && i < |text|
    requires TextIndex(z) < |m.rows| && m.rows[TextIndex(z)].RStr? && m'.first == m.first && m'.fin == m.fin
    requires StoreOk(m') && m'.rows == m.rows[TextIndex(z) := StringClosed(m.rows[TextIndex(z)])]
    requires r'.flags == CLEAR.(next := true) && r'.top == r.top
    ensures Pending(text, i, z, i + 1, r', m', z.stack, z.mode.ws, Str(z.mode.items))
  {
    hide StackRows, StrBytes, StoreOk, TextAt, Spelled, FrameOk, Step, Run;
    PendingIntro(text, i, r, m, z, i + 1, r', m', z.stack, z.mode.ws, Str(z.mode.items));
  }

  // ---------- Seeking a value, and inside an object ----------

  lemma SeekWs(text: Bytes, i: nat, r: Registers, m: Store, z: State)
    requires Current(text, i, r, m, z) && (z.mode.Seek? || z.mode.InObj?) && IsWs(At(text, i))
    ensures Step(text, i, z).Next? && Moved(text, i, z, i + 1, r, m, Step(text, i, z).z)
  {
    hide StackRows, StoreOk, TextAt, Leads, Moved, Spelled, FrameOk;
    QuietStep(text, i, r, m, z, r);
  }

  lemma DoneWs(text: Bytes, i: nat, r: Registers, m: Store, z: State)
    requires Current(text, i, r, m, z) && z.mode.Done? && IsWs(At(text, i))
    ensures Step(text, i, z).Next? && Moved(text, i, z, i + 1, r, m, Step(text, i, z).z)
  {
    hide StackRows, CstRows, StoreOk, TextAt, Leads, Moved, Spelled, FrameOk;
    QuietStep(text, i, r, m, z, r);
  }

  lemma CommaStep(text: Bytes, i: nat, z: State)
    requires i <= |text| && (z.mode.Seek? || z.mode.InObj?) && NeedComma(z.stack) && At(text, i) == COMMA
    ensures var r := Step(text, i, z);
            && r.Next? && r.i == i + 1 && (r.z.mode.Seek? || r.z.mode.InObj?)
            && Rows(r.z) == Rows(z) && TopOf(r.z) == TopOf(z)
            && FlagsOf(r.z) == FlagsOf(z).(needComma := false)
  {
    AddCommaRows(z.stack, z.mode.ws);
    hide StackRows;
    assert TopRef(WithTop(z.stack, AddComma(z.stack.top, z.mode.ws))) == TopRef(z.stack);
  }

  lemma CommaDone(text: Bytes, i: nat, r: Registers, m: Store, z: State)
    requires Current(text, i, r, m, z) && (z.mode.Seek? || z.mode.InObj?) && NeedComma(z.stack) && At(text, i) == COMMA
    ensures Step(text, i, z).Next?
    ensures Moved(text, i, z, i + 1, r.(flags := r.flags.(needComma := false)), m, Step(text, i, z).z)
  {
    CommaStep(text, i, z);
    hide Step, Rows, FlagsOf, TopOf, Inv, Run, StoreOk, TextAt, NumRegisters, Moved, Final;
    QuietStep(text, i, r, m, z, r.(flags := r.flags.(needComma := false)));
  }

  lemma ColonStep(text: Bytes, i: nat, z: State)
    requires i <= |text| && z.mode.Seek? && NeedColon(z.stack) && !NeedComma(z.stack) && At(text, i) == COLON
    ensures var r := Step(text, i, z);
            && r.Next? && r.i == i + 1 && r.z.mode.Seek?
            && Rows(r.z) == Rows(z) && TopOf(r.z) == TopOf(z)
            && FlagsOf(r.z) == FlagsOf(z).(needColon := false)
  {
  }

  lemma ColonDone(text: Bytes, i: nat, r: Registers, m: Store, z: State)
    requires Current(text, i, r, m, z) && z.mode.Seek? && NeedColon(z.stack) && !NeedComma(z.stack) && At(text, i) == COLON
    ensures Step(text, i, z).Next?
    ensures Moved(text, i, z, i + 1, r.(flags := r.flags.(needColon := false)), m, Step(text, i, z).z)
  {
    ColonStep(text, i, z);
    hide Step, Rows, FlagsOf, TopOf, Inv, Run, StoreOk, TextAt, NumRegisters, Moved, Final;
    QuietStep(text, i, r, m, z, r.(flags := r.flags.(needColon := false)));
  }

  lemma SeekFlags(text: Bytes, i: nat, r: Registers, m: Store, z: State)
    requires Current(text, i, r, m, z) && z.mode.Seek?
    ensures r.flags == CLEAR.(seekValue := true, needComma := NeedComma(z.stack), needColon := NeedColon(z.stack))
  {
  }

  lemma ObjFlags(text: Bytes, i: nat, r: Registers, m: Store, z: State)
    requires Current(text, i, r, m, z) && z.mode.InObj?
    ensures r.flags == CLEAR.(needComma := NeedComma(z.stack))
  {
  }

  // What is between the items of a container.
  lemma BetweenItems(z: State)
    requires StateOk(z) && (z.mode.Seek? || z.mode.InObj?)
    ensures z.mode.InObj? ==> z.stack.Push? && z.stack.top.isObj && z.stack.top.part.NoPart?
    ensures z.mode.Seek? && z.stack.Push? && !z.stack.top.isObj ==> z.stack.top.part.NoPart?
    ensures !NeedColon(z.stack) && !NeedComma(z.stack) && z.mode.Seek? ==> AllAwaiting(z.stack)
    ensures NeedColon(z.stack) ==> !NeedComma(z.stack) && z.stack.top.isObj
  {
    hide ItemsOk, ItemsFit;
  }

  // What the kind of the node on top tells about the open container.
  lemma TopKind(text: Bytes, i: nat, r: Registers, m: Store, z: State)
    requires Current(text, i, r, m, z) && (z.mode.Seek? || z.mode.InObj?)
    ensures r.top.Ref? <==> z.stack.Push?
    ensures r.top.Ref? ==> r.top.addr in m.nodes && m.nodes[r.top.addr].kind == BoxKind(z.stack.top.isObj)
    ensures z.mode.InObj? ==> z.stack.Push? && z.stack.top.isObj && z.stack.top.part.NoPart?
    ensures z.mode.Seek? && z.stack.Push? && !z.stack.top.isObj ==> z.stack.top.part.NoPart?
    ensures !NeedColon(z.stack) && !NeedComma(z.stack) && z.mode.Seek? ==> AllAwaiting(z.stack)
    ensures NeedColon(z.stack) ==> !NeedComma(z.stack)
  {
    hide StackRows, StoreOk, StateOk, Spelled, NeedComma, NeedColon, AllAwaiting, FlagsOf, NumRegisters, TextAt;
    BetweenItems(z);
    if z.stack.Push? {
      TopRow(z.stack, []);
      StoreNode(m, TopIndex(z.stack));
    }
  }

  lemma CloseStep(text: Bytes, i: nat, z: State)
    requires i < |text| && StateOk(z) && z.stack.Push?
    requires if z.stack.top.isObj then z.mode.InObj? && At(text, i) == RBRACE else z.mode.Seek? && At(text, i) == RBRACKET
    ensures var f := z.stack.top; var v := Box(f.isObj, f.items, z.mode.ws);
            && Step(text, i, z) == Complete(i + 1, z.stack.rest, f.pre, v)
            && Rows(z) == Detached(z.stack.rest, v) && TopOf(z) == Ref(|StackRows(z.stack.rest, [])|)
            && AllAwaiting(z.stack.rest)
  {
    hide ItemsOk, ItemsFit;
    ClosedBoxRows(z.stack, z.mode.ws);
    hide StackRows, CstRows, Detached;
  }

  // The bracket that closes the open container.
  lemma CloseBoxDone(text: Bytes, i: nat, r: Registers, m: Store, z: State, r': Registers)
    requires Current(text, i, r, m, z) && z.stack.Push? && i < |text|
    requires if z.stack.top.isObj then z.mode.InObj? && At(text, i) == RBRACE else z.mode.Seek? && At(text, i) == RBRACKET
    requires r' == r.(flags := CLEAR.(next := true))
    ensures var f := z.stack.top;
            Pending(text, i, z, i + 1, r', m, z.stack.rest, f.pre, Box(f.isObj, f.items, z.mode.ws))
  {
    var f := z.stack.top;
    CloseStep(text, i, z);
    hide Step, Rows, StackRows, Detached, TopOf, Inv, Run, StoreOk, TextAt, NumRegisters, Pending, Final, Complete,
         AllAwaiting;
    PendingIntro(text, i, r, m, z, i + 1, r', m, z.stack.rest, f.pre, Box(f.isObj, f.items, z.mode.ws));
  }

  // The bytes that no branch of the loop body takes.
  lemma SeekRejects(text: Bytes, i: nat, z: State)
    requires i <= |text| && z.mode.Seek? && !IsWs(At(text, i))
    requires var b := At(text, i); var s := z.stack;
             || (b == RBRACKET && !(s.Push? && !s.top.isObj))
             || (b != RBRACKET && NeedComma(s) && b != COMMA)
             || (b != RBRACKET && !NeedComma(s) && NeedColon(s) && b != COLON)
    ensures Step(text, i, z).Reject?
  {
  }

  lemma ValueRejects(text: Bytes, i: nat, z: State)
    requires i <= |text| && z.mode.Seek? && Ready(z.stack) && !IsWs(At(text, i)) && At(text, i) != RBRACKET
    requires var b := At(text, i);
             && b != LBRACE && b != LBRACKET && b != QUOTE && b != LOWER_T && b != LOWER_F && b != LOWER_N
             && b != MINUS && !IsDigit(b)
    ensures Step(text, i, z).Reject?
  {
  }

  lemma ObjRejects(text: Bytes, i: nat, z: State)
    requires i <= |text| && z.mode.InObj? && !IsWs(At(text, i)) && At(text, i) != RBRACE
    requires var b := At(text, i); if NeedComma(z.stack) then b != COMMA else b != QUOTE
    ensures Step(text, i, z).Reject?
  {
  }

  lemma KeyStartRows(z: State)
    requires z.mode.InObj? && z.stack.Push? && z.stack.top.isObj && z.stack.top.part.NoPart?
    ensures var z' := State(z.stack, InStr(true, z.mode.ws, [], false)); var k := TopIndex(z.stack);
            && k < |Rows(z)| && Rows(z)[k].RBox?
            && Rows(z') == Rows(z)[k := Rows(z)[k].(cur := [[]])] && IsOpenText(Rows(z')[k]) && TextOf(Rows(z')[k]) == []
            && TargetOf(Rows(z')[k], k) == NameTarget(k, NameTotal(Rows(z)[k].names))
            && TextIndex(z') == k && TopOf(z') == TopOf(z) && FlagsOf(z') == CLEAR.(inString := true)
  {
    var s := z.stack;
    hide StackRows, Names, NameTotal;
    TopRow(s, []);
    RetopRows(s, [], s.top, [[]]);
    assert WithTop(s, s.top) == s;
    assert StrBytes([]) == [];
  }

  lemma KeyStartDone(text: Bytes, i: nat, r: Registers, m: Store, z: State, r': Registers, m': Store)
    requires Current(text, i, r, m, z) && z.mode.InObj? && At(text, i) == QUOTE && !NeedComma(z.stack) && z.stack.Push?
    requires var k := TopIndex(z.stack);
             && k < |m.rows| && m.rows[k].RBox? && StoreOk(m') && m'.first == m.first && m'.fin == m.fin
             && m'.rows == m.rows[k := m.rows[k].(cur := [[]])]
             && r' == r.(flags := CLEAR.(inString := true), stringLength := 0, buffer := r'.buffer)
             && (!m.first ==> r'.buffer == NameTarget(k, NameTotal(m.rows[k].names)))
    ensures Step(text, i, z).Next? && Moved(text, i, z, i + 1, r', m', Step(text, i, z).z)
  {
    hide Inv, Run, Rows, StackRows, StoreOk, Names, NameTotal, FlagsOf, TopOf, TextIndex, NumRegisters, Moved,
         IsOpenText, TextOf, TargetOf, TopIndex;
    KeyStartReady(text, i, r, m, z);
    KeyStartRows(z);
    MovedIntro(text, i, r, m, z, r', m');
  }

  lemma KeyStartReady(text: Bytes, i: nat, r: Registers, m: Store, z: State)
    requires Current(text, i, r, m, z) && z.mode.InObj?
    ensures z.stack.Push? && r.top == Ref(TopIndex(z.stack)) && StoreOk(m)
    ensures z.stack.top.isObj && z.stack.top.part.NoPart?
    ensures var k := TopIndex(z.stack); k < |m.rows| && m.rows[k].RBox? && m.rows[k].isObj && m.rows[k].cur == []
  {
    TopRow(z.stack, []);
    hide StackRows, StoreOk, Spelled, ItemsOk, ItemsFit;
  }

  // ---------- Starting values ----------

  // The second pass may pop a node for the row that is about to start.
  predicate NewRoom(m: Store, kind: Kind, top: Ref): (b: bool)
    ensures b && !m.first ==> |m.rows| < |m.fin|
    ensures b && !m.first && (kind.KArray? || kind.KObject? || kind.KString?) ==> !m.fin[|m.rows|].RScalar?
  {
    !m.first ==> |m.rows| < |m.fin| && RowLe(ZeroRow(kind, top), m.fin[|m.rows|])
  }

  lemma FirstHasRoom(m: Store, kind: Kind, top: Ref)
    requires m.first
    ensures NewRoom(m, kind, top)
  {
  }

  lemma CurrentRepresents(text: Bytes, i: nat, r: Registers, m: Store, z: State)
    requires Current(text, i, r, m, z)
    ensures Represents(r, m, z)
  {
  }

  lemma CurrentStore(text: Bytes, i: nat, r: Registers, m: Store, z: State)
    requires Current(text, i, r, m, z)
    ensures StoreOk(m)
  {
  }

  lemma RoomBelow(m: Store, rows: seq<Row>, kind: Kind, top: Ref)
    requires !m.first ==> Grows(rows, m.fin)
    requires |m.rows| < |rows| && RowLe(ZeroRow(kind, top), rows[|m.rows|])
    requires rows[|m.rows|].RScalar? ==> kind != KArray && kind != KObject && kind != KString
    ensures NewRoom(m, kind, top)
  {
  }

  lemma StartWanted(text: Bytes, i: nat, r: Registers, m: Store, z: State)
    requires Current(text, i, r, m, z) && z.mode.Seek? && AllAwaiting(z.stack) && At(text, i) != 0
    requires Step(text, i, z).Next? ==> |Rows(Step(text, i, z).z)| == |m.rows| + 1
    ensures Wanted(text, i, z, |m.rows|)
  {
    hide Inv, Run, Step, Rows, AllAwaiting, StoreOk, Wanted;
    NodeWanted(text, i, z);
  }

  // The state after an opening bracket.
  function Opened(z: State, isObj: bool): State
    requires z.mode.Seek?
  {
    State(Push(Frame(isObj, z.mode.ws, [], NoPart), z.stack), Fresh(isObj))
  }

  lemma OpenStep(text: Bytes, i: nat, z: State, isObj: bool)
    requires i <= |text| && z.mode.Seek? && Ready(z.stack) && At(text, i) == Opener(isObj)
    ensures Step(text, i, z) == Next(i + 1, Opened(z, isObj))
  {
  }

  lemma OpenedRows(z: State, isObj: bool)
    requires z.mode.Seek?
    ensures Rows(Opened(z, isObj)) == Rows(z) + [ZeroRow(BoxKind(isObj), TopOf(z))]
    ensures TopOf(Opened(z, isObj)) == Ref(|Rows(z)|) && FlagsOf(Opened(z, isObj)) == CLEAR.(seekValue := !isObj)
    ensures Opened(z, isObj).mode.Seek? || Opened(z, isObj).mode.InObj?
  {
    hide StackRows;
    NewBoxRows(z.stack, isObj, z.mode.ws);
  }

  lemma BoxReady(text: Bytes, i: nat, r: Registers, m: Store, z: State, isObj: bool)
    requires Current(text, i, r, m, z) && z.mode.Seek? && Ready(z.stack) && At(text, i) == Opener(isObj)
    requires AllAwaiting(z.stack)
    ensures Step(text, i, z) == Next(i + 1, Opened(z, isObj))
    ensures StoreOk(m) && NewRoom(m, BoxKind(isObj), r.top) && Wanted(text, i, z, |m.rows|)
  {
    hide StackRows, StoreOk, Inv, Run, Step, Rows, TopOf, FlagsOf, Opened, ZeroRow, NumRegisters, Ready, AllAwaiting,
         Wanted;
    OpenStep(text, i, z, isObj);
    OpenedRows(z, isObj);
    StartWanted(text, i, r, m, z);
    BoxRow(isObj, r.top);
    if !m.first {
      Ahead(text, i, z);
      RoomBelow(m, Rows(Opened(z, isObj)), BoxKind(isObj), r.top);
    }
  }

  lemma BoxRow(isObj: bool, parent: Ref)
    ensures ZeroRow(BoxKind(isObj), parent) == RBox(parent, isObj, [], [], [])
    ensures RowLe(ZeroRow(BoxKind(isObj), parent), ZeroRow(BoxKind(isObj), parent))
  {
  }

  lemma BoxDone(text: Bytes, i: nat, r: Registers, m: Store, z: State, isObj: bool, r': Registers, m': Store)
    requires Current(text, i, r, m, z) && z.mode.Seek? && Step(text, i, z) == Next(i + 1, Opened(z, isObj))
    requires StoreOk(m') && m'.rows == m.rows + [ZeroRow(BoxKind(isObj), r.top)]
    requires r'.flags == CLEAR.(seekValue := !isObj) && r'.top == Ref(|m.rows|)
    ensures Moved(text, i, z, i + 1, r', m', Step(text, i, z).z)
  {
    hide StackRows, StoreOk, Inv, Run, Step, Rows, TopOf, FlagsOf, Opened, ZeroRow, NumRegisters, Moved;
    OpenedRows(z, isObj);
    MovedIntro(text, i, r, m, z, r', m');
  }

  // The state after an opening quote.
  function StringOpened(z: State): State
    requires z.mode.Seek?
  {
    State(z.stack, InStr(false, z.mode.ws, [], false))
  }

  lemma StringOpenedRows(z: State)
    requires z.mode.Seek?
    ensures var z' := StringOpened(z); var k := |Rows(z)|;
            && z'.mode.InStr? && !z'.mode.isKey && !z'.mode.InNum?
            && Rows(z') == Rows(z) + [ZeroRow(KString, TopOf(z))] && TextIndex(z') == k && TopOf(z') == Ref(k)
            && FlagsOf(z') == CLEAR.(inString := true)
            && IsOpenText(Rows(z')[k]) && TextOf(Rows(z')[k]) == [] && TargetOf(Rows(z')[k], k) == StrTarget(k)
            && RowLe(Rows(z')[k], Rows(z')[k]) && !Rows(z')[k].RScalar?
  {
  }

  lemma StringStep(text: Bytes, i: nat, z: State)
    requires i <= |text| && z.mode.Seek? && Ready(z.stack) && At(text, i) == QUOTE
    ensures Step(text, i, z) == Next(i + 1, StringOpened(z))
  {
  }

  lemma StringReady(text: Bytes, i: nat, r: Registers, m: Store, z: State)
    requires Current(text, i, r, m, z) && z.mode.Seek? && Ready(z.stack) && At(text, i) == QUOTE
    requires AllAwaiting(z.stack)
    ensures Step(text, i, z) == Next(i + 1, StringOpened(z))
    ensures StoreOk(m) && NewRoom(m, KString, r.top) && Wanted(text, i, z, |m.rows|)
  {
    hide StackRows, StoreOk, Inv, Run, Step, Rows, TopOf, FlagsOf, StringOpened, NumRegisters, Ready, AllAwaiting,
         Wanted;
    StringStep(text, i, z);
    StringOpenedRows(z);
    StartWanted(text, i, r, m, z);
    if !m.first {
      Ahead(text, i, z);
      RoomBelow(m, Rows(StringOpened(z)), KString, r.top);
    }
  }

  lemma StringStartDone(text: Bytes, i: nat, r: Registers, m: Store, z: State, r': Registers, m': Store)
    requires Current(text, i, r, m, z) && z.mode.Seek? && Step(text, i, z) == Next(i + 1, StringOpened(z))
    requires StoreOk(m') && m'.rows == m.rows + [ZeroRow(KString, r.top)] && m'.first == m.first
    requires r'.flags == CLEAR.(inString := true) && r'.top == Ref(|m.rows|) && r'.stringLength == 0
    requires !m.first ==> r'.buffer == StrTarget(|m.rows|)
    ensures Moved(text, i, z, i + 1, r', m', Step(text, i, z).z)
  {
    hide StackRows, StoreOk, Inv, Run, Step, Rows, TopOf, FlagsOf, StringOpened, ZeroRow, NumRegisters, Moved,
         IsOpenText, TextOf, TargetOf, TextIndex;
    StringOpenedRows(z);
    MovedIntro(text, i, r, m, z, r', m');
  }

  lemma StringNode(m: Store, k: nat, parent: Ref)
    requires StoreOk(m) && k < |m.rows| && m.rows[k] == ZeroRow(KString, parent)
    ensures k in m.nodes && m.nodes[k].u.UString? && (!m.first ==> m.nodes[k].u.ptr == Ref(k))
  {
  }

  function ScalarOf(v: Cst): Scalar {
    match v
    case True => SBool(true)
    case False => SBool(false)
    case Num(tok) => SNum(NumberOf(tok, Int64))
    case _ => SNull
  }

  predicate IsScalar(v: Cst) {
    v.Null? || v.True? || v.False? || v.Num?
  }

  // In the second pass the node popped for a scalar already holds its value.
  lemma ScalarReady(m: Store, s: Stack, pre: Bytes, v: Cst)
    requires IsScalar(v) && AllAwaiting(s) && m.rows == StackRows(s, []) && StoreOk(m)
    requires !m.first ==> Grows(Rows(Attached(s, pre, v)), m.fin)
    ensures Detached(s, v) == m.rows + [RScalar(TopRef(s), ScalarOf(v), false)]
    ensures !m.first ==> |m.rows| < |m.fin| && m.fin[|m.rows|] == RScalar(TopRef(s), ScalarOf(v), false)
  {
    hide StackRows, NumberOf, FrameOk, Attached;
    assert CstRows(v, |m.rows|, TopRef(s)) == [RScalar(TopRef(s), ScalarOf(v), false)];
    if !m.first {
      AttachGrows(s, pre, v);
      hide CstRows, Rows;
      GrowsTrans(Detached(s, v), Rows(Attached(s, pre, v)), m.fin);
      var k := |m.rows|;
      assert RowLe(Detached(s, v)[k], m.fin[k]) && RowClosed(m.fin[k]);
    }
  }

  // ---------- Literals ----------

  function LiteralWord(v: Cst): Bytes {
    match v
    case True => TRUE_BYTES
    case False => FALSE_BYTES
    case _ => NULL_BYTES
  }

  function LiteralKind(v: Cst): Kind {
    if v.True? || v.False? then KBoolean else KNull
  }

  predicate IsLiteral(v: Cst) {
    v.Null? || v.True? || v.False?
  }

  lemma LiteralStep(text: Bytes, i: nat, z: State, v: Cst)
    requires i <= |text| && z.mode.Seek? && Ready(z.stack) && IsLiteral(v) && At(text, i) == LiteralWord(v)[0]
    ensures Step(text, i, z) == if Matches(text, i, LiteralWord(v))
                                then Complete(i + |LiteralWord(v)|, z.stack, z.mode.ws, v) else Reject
  {
  }

  lemma LiteralStarts(text: Bytes, i: nat, v: Cst)
    requires i <= |text| && IsLiteral(v) && At(text, i) == LiteralWord(v)[0]
    ensures i < |text| && text[i] == LiteralWord(v)[0] != 0 && |LiteralWord(v)| >= 1
  {
  }

  lemma WordAt(text: Bytes, i: nat, word: Bytes)
    requires i < |text| && word != [] && text[i] == word[0]
    ensures Matches(text, i, word) <==> Matches(text, i + 1, word[1..])
  {
  }

  lemma LiteralReady(text: Bytes, i: nat, r: Registers, m: Store, z: State, v: Cst)
    requires Current(text, i, r, m, z) && z.mode.Seek? && AllAwaiting(z.stack) && IsLiteral(v)
    requires Step(text, i, z) == Complete(i + |LiteralWord(v)|, z.stack, z.mode.ws, v)
    ensures StoreOk(m) && NewRoom(m, LiteralKind(v), r.top)
    ensures !m.first ==> |m.rows| < |m.fin| && m.fin[|m.rows|] == RScalar(r.top, ScalarOf(v), false)
    ensures Detached(z.stack, v) == m.rows + [RScalar(r.top, ScalarOf(v), false)]
  {
    hide StackRows, Inv, Run, Step, StoreOk, FrameOk, Detached, Grows;
    if !m.first {
      Ahead(text, i, z);
    }
    ScalarReady(m, z.stack, z.mode.ws, v);
  }

  lemma LiteralWanted(text: Bytes, i: nat, r: Registers, m: Store, z: State, v: Cst)
    requires Current(text, i, r, m, z) && z.mode.Seek? && AllAwaiting(z.stack) && IsLiteral(v) && At(text, i) != 0
    requires Step(text, i, z) == Complete(i + |LiteralWord(v)|, z.stack, z.mode.ws, v)
    requires Detached(z.stack, v) == m.rows + [RScalar(r.top, ScalarOf(v), false)]
    ensures Wanted(text, i, z, |m.rows|)
  {
    hide Inv, Step, Rows, AllAwaiting, StoreOk, Wanted, Detached, LiteralWord, ScalarOf, Attached, Run, StackRows;
    AttachedCount(z.stack, z.mode.ws, v);
    StartWanted(text, i, r, m, z);
  }

  lemma AttachedCount(s: Stack, pre: Bytes, v: Cst)
    requires AllAwaiting(s)
    ensures |Rows(Attached(s, pre, v))| == |Detached(s, v)|
  {
    hide StackRows, AllAwaiting, Rows, Attached, Detached;
    if s.Push? {
      AwaitingParts(s);
    }
    AttachedRows(s, pre, v);
  }

  lemma LiteralDone(text: Bytes, i: nat, r: Registers, m: Store, z: State, v: Cst, r': Registers, m': Store)
    requires Current(text, i, r, m, z) && z.mode.Seek? && AllAwaiting(z.stack) && IsLiteral(v)
    requires Step(text, i, z) == Complete(i + |LiteralWord(v)|, z.stack, z.mode.ws, v)
    requires i + |LiteralWord(v)| <= |text|
    requires Detached(z.stack, v) == m.rows + [RScalar(r.top, ScalarOf(v), false)]
    requires StoreOk(m') && m'.first == m.first && m'.fin == m.fin
    requires m'.rows == m.rows + [RScalar(r.top, ScalarOf(v), false)]
    requires r'.flags == CLEAR.(next := true) && r'.top == Ref(|m.rows|)
    ensures Pending(text, i, z, i + |LiteralWord(v)|, r', m', z.stack, z.mode.ws, v)
  {
    hide StackRows, Inv, Run, Step, StoreOk, AllAwaiting, Detached, Complete, Pending, LiteralWord, ScalarOf;
    PendingIntro(text, i, r, m, z, i + |LiteralWord(v)|, r', m', z.stack, z.mode.ws, v);
  }

  // The node of a literal, fresh or measured, once its boolean is set.
  lemma LiteralNode(m: Store, k: nat, p: Ref, v: Cst)
    requires StoreOk(m) && k < |m.rows| && IsLiteral(v)
    requires m.rows[k] == if m.first then ZeroRow(LiteralKind(v), p) else RScalar(p, ScalarOf(v), false)
    ensures k in m.nodes
    ensures var nodes := if v.True? then m.nodes[k := m.nodes[k].(u := UBool(true))] else m.nodes;
            StoreOk(m.(nodes := nodes, rows := m.rows[k := RScalar(p, ScalarOf(v), false)]))
  {
    StoreNode(m, k);
    if m.first {
      StoreScalar(m, k, ScalarOf(v), false);
      assert m.nodes[k].(kind := ScalarKind(ScalarOf(v)), u := ScalarUnion(ScalarOf(v)))
          == if v.True? then m.nodes[k].(u := UBool(true)) else m.nodes[k];
    } else {
      assert m.rows[k := RScalar(p, ScalarOf(v), false)] == m.rows;
    }
    hide StoreOk;
    assert m.nodes[k := m.nodes[k]] == m.nodes;
  }

  // ---------- Numbers ----------

  lemma NumStart(text: Bytes, i: nat, z: State)
    requires i <= |text| && z.mode.Seek? && Ready(z.stack) && (At(text, i) == MINUS || IsDigit(At(text, i)))
    ensures var neg := At(text, i) == MINUS;
            Step(text, i, z) == Next(if neg then i + 1 else i, NumState(z.stack, z.mode.ws, NumTok(neg, [], None, None)))
  {
  }

  lemma NumStartWanted(text: Bytes, i: nat, r: Registers, m: Store, z: State)
    requires Current(text, i, r, m, z) && z.mode.Seek? && Ready(z.stack) && AllAwaiting(z.stack)
    requires At(text, i) == MINUS || IsDigit(At(text, i))
    ensures Wanted(text, i, z, |m.rows|)
  {
    hide Inv, Step, AllAwaiting, StoreOk, Wanted, Run, StackRows, InProgress;
    NumStart(text, i, z);
    StartWanted(text, i, r, m, z);
  }

  lemma NumStartDone(text: Bytes, i: nat, r: Registers, m: Store, z: State, r': Registers, m': Store)
    requires Current(text, i, r, m, z) && m.first && z.mode.Seek?
    requires var neg := At(text, i) == MINUS;
             && Step(text, i, z) == Next(if neg then i + 1 else i, NumState(z.stack, z.mode.ws, NumTok(neg, [], None, None)))
             && r'.flags == CLEAR && r'.num == NUM_CLEAR.(negative := neg)
             && r'.numDigits == 0 && r'.numFraction == 0 && r'.numE == 0 && r'.top == Ref(|m.rows|)
    requires StoreOk(m') && m'.first && m'.rows == m.rows + [ZeroRow(KInteger, r.top)]
    ensures Moved(text, i, z, Step(text, i, z).i, r', m', Step(text, i, z).z)
  {
    assert Decimal([]) == 0 && Wrap64(0) == 0;
    hide StackRows, Inv, Run, StoreOk, Step, Moved, Wrap64, Decimal;
    MovedIntro(text, i, r, m, z, r', m');
  }

  // The number's node is on top and holds what has been read.
  lemma NumTop(text: Bytes, i: nat, r: Registers, m: Store, z: State)
    requires Current(text, i, r, m, z) && z.mode.InNum?
    ensures m.first && StoreOk(m) && r.flags == CLEAR && NumRegisters(r, z.mode.tok)
    ensures PartialOk(z.mode.tok)
    ensures var k := |StackRows(z.stack, [])|;
            && k < |m.rows| && r.top == Ref(k) && k in m.nodes
            && m.rows[k] == RScalar(TopRef(z.stack), SNum(InProgress(z.mode.tok)), true)
            && m.nodes[k].kind == (if IsDouble(z.mode.tok) then KDouble else KInteger)
            && m.nodes[k].u == ScalarUnion(SNum(InProgress(z.mode.tok)))
  {
    StoreNode(m, |StackRows(z.stack, [])|);
    hide StackRows, StoreOk, Spelled, AllAwaiting, InWidth, Mantissa, Whole;
  }

  lemma NumMoreStep(text: Bytes, i: nat, z: State, t: NumTok)
    requires i <= |text| && z.mode.InNum? && StepNum(z.mode.tok, At(text, i)) == More(t)
    ensures var z' := NumState(z.stack, z.mode.ws, t);
            && Step(text, i, z) == Next(i + 1, z') && z'.mode == InNum(z.mode.ws, t) && z'.stack == z.stack
            && FlagsOf(z') == FlagsOf(z) && TopOf(z') == TopOf(z)
            && var k := |StackRows(z.stack, [])|;
               k < |Rows(z)| && Rows(z') == Rows(z)[k := RScalar(TopRef(z.stack), SNum(InProgress(t)), true)]
  {
  }

  lemma NumMore(text: Bytes, i: nat, r: Registers, m: Store, z: State, t: NumTok, r': Registers, m': Store)
    requires Current(text, i, r, m, z) && z.mode.InNum? && StepNum(z.mode.tok, At(text, i)) == More(t)
    requires var k := |StackRows(z.stack, [])|;
             k < |m.rows| && m'.rows == m.rows[k := RScalar(TopRef(z.stack), SNum(InProgress(t)), true)]
    requires StoreOk(m') && m'.first && NumRegisters(r', t) && r'.flags == CLEAR && r'.top == r.top
    ensures Step(text, i, z) == Next(i + 1, NumState(z.stack, z.mode.ws, t))
    ensures Moved(text, i, z, i + 1, r', m', NumState(z.stack, z.mode.ws, t))
  {
    hide StackRows, Inv, Run, Step, StepNum, StoreOk, Moved, NumRegisters, InProgress, NumState;
    NumMoreStep(text, i, z, t);
    MovedIntro(text, i, r, m, z, r', m');
  }

  lemma NumFinished(text: Bytes, i: nat, r: Registers, m: Store, z: State, r': Registers, m': Store)
    requires Current(text, i, r, m, z) && z.mode.InNum? && StepNum(z.mode.tok, At(text, i)) == Finished
    requires var k := |StackRows(z.stack, [])|;
             k < |m.rows| && m'.rows == m.rows[k := RScalar(TopRef(z.stack), SNum(NumberOf(z.mode.tok, Int64)), false)]
    requires StoreOk(m') && m'.first && m'.fin == m.fin && r'.top == r.top
    requires r'.flags == CLEAR.(next := true, reproc := true)
    ensures Pending(text, i, z, i, r', m', z.stack, z.mode.ws, Num(z.mode.tok))
  {
    var v := Num(z.mode.tok);
    var s := z.stack;
    assert Step(text, i, z) == Complete(i, s, z.mode.ws, v);
    assert AllAwaiting(s) && m.first;
    assert CstRows(v, |StackRows(s, [])|, TopRef(s)) == [RScalar(TopRef(s), SNum(NumberOf(z.mode.tok, Int64)), false)];
    hide StackRows, CstRows, Inv, Run, Step, StepNum, StoreOk, Pending, NumRegisters, InProgress, NumberOf, Complete,
         AllAwaiting;
    PendingIntro(text, i, r, m, z, i, r', m', s, z.mode.ws, v);
  }

  // The number that a number's node holds.
  function NumberIn(node: Node): Number {
    match node.u
    case UInt(n) => Int(n)
    case UDbl(r) => Real(r)
    case _ => Int(0)
  }

  // What the branches of the source test, in terms of the token.
  lemma NumView(r: Registers, t: NumTok)
    requires NumRegisters(r, t)
    ensures r.num.e <==> t.exp.Some?
    ensures InProgress(t).Int? <==> !IsDouble(t)
    ensures r.num.negative <==> t.neg
  {
  }

  lemma NumRejects(text: Bytes, i: nat, r: Registers, m: Store, z: State)
    requires Current(text, i, r, m, z) && z.mode.InNum? && StepNum(z.mode.tok, At(text, i)).Bad?
    ensures Failed(text, i, z, m)
  {
    hide StepNum, Inv, StoreOk, StoreCleanable, Represents, Run;
    FailHere(text, i, r, m, z);
  }

  // A number's node with the value n.
  function NumberNode(node: Node, n: Number): Node {
    node.(kind := ScalarKind(SNum(n)), u := ScalarUnion(SNum(n)))
  }

  // The registers after each kind of byte.

  lemma IntDigit(r: Registers, t: NumTok, b: Byte)
    requires NumRegisters(r, t) && IsDigit(b) && !IsDouble(t)
    ensures r.num.zero <==> StepNum(t, b).Bad?
    ensures !r.num.zero ==>
              var t' := t.(ip := t.ip + [b]);
              && StepNum(t, b) == More(t')
              && NumRegisters(r.(numDigits := r.numDigits + 1,
                                 num := if r.numDigits == 0 && b == DIGIT_0 then r.num.(zero := true) else r.num), t')
              && InProgress(t).Int?
              && InProgress(t') == Int(Wrap64(InProgress(t).n * 10 + (b - DIGIT_0)))
  {
    AccumulateDigit(t.ip, b);
    hide Decimal, Wrap64;
  }

  lemma FracDigit(r: Registers, t: NumTok, b: Byte)
    requires NumRegisters(r, t) && IsDigit(b) && t.frac.Some? && t.exp.None?
    ensures var t' := t.(frac := Some(t.frac.value + [b]));
            && StepNum(t, b) == More(t') && InProgress(t') == InProgress(t)
            && NumRegisters(r.(numDigits := r.numDigits + 1,
                               numFraction := Wrap64(r.numFraction * 10 + (b - DIGIT_0))), t')
  {
    AccumulateDigit(t.frac.value, b);
    hide Decimal, Wrap64;
  }

  lemma ExpDigit(r: Registers, t: NumTok, b: Byte)
    requires NumRegisters(r, t) && IsDigit(b) && t.exp.Some?
    ensures var t' := t.(exp := Some(t.exp.value.(digits := t.exp.value.digits + [b])));
            && StepNum(t, b) == More(t') && InProgress(t') == InProgress(t)
            && NumRegisters(r.(numDigits := r.numDigits + 1, num := r.num.(gotSign := true),
                               numE := Wrap64(r.numE * 10 + (b - DIGIT_0))), t')
  {
    AccumulateDigit(t.exp.value.digits, b);
    hide Decimal, Wrap64, Mantissa;
    assert Mantissa(t, Int64) == Mantissa(t.(exp := Some(t.exp.value.(digits := t.exp.value.digits + [b]))), Int64) by {
      MantissaOf(t, t.(exp := Some(t.exp.value.(digits := t.exp.value.digits + [b]))));
    }
  }

  lemma MantissaOf(t: NumTok, t': NumTok)
    requires t.ip == t'.ip && t.frac == t'.frac
    ensures Mantissa(t, Int64) == Mantissa(t', Int64) && Whole(t, Int64) == Whole(t', Int64)
  {
  }

  lemma ExpSign(r: Registers, t: NumTok, b: Byte)
    requires NumRegisters(r, t) && IsSign(b) && PartialOk(t)
    ensures r.num.e && !r.num.gotSign <==> StepNum(t, b).More?
    ensures r.num.e && !r.num.gotSign ==>
              var t' := StepNum(t, b).t;
              && InProgress(t') == InProgress(t)
              && NumRegisters(r.(num := r.num.(gotSign := true, eNegative := b == MINUS || r.num.eNegative)), t')
  {
  }

  lemma FracDot(r: Registers, t: NumTok)
    requires NumRegisters(r, t) && !IsDouble(t)
    ensures r.numDigits == 0 <==> StepNum(t, DOT).Bad?
    ensures r.numDigits != 0 ==>
              var t' := t.(frac := Some([]));
              && StepNum(t, DOT) == More(t') && InProgress(t).Int?
              && InProgress(t') == Real(InProgress(t).n as real)
              && NumRegisters(r.(numDigits := 0), t')
  {
  }

  // The value after the fraction has been added at its end.
  function AddFraction(r: Registers, n: Number): Number {
    match n
    case Int(i) => Int(i)
    case Real(x) => Real(x + r.numFraction as real / Power10(r.numDigits))
  }

  function AsReal(n: Number): real {
    match n
    case Int(i) => i as real
    case Real(x) => x
  }

  // A byte that ends the digits before any exponent.
  lemma BeforeExponent(r: Registers, t: NumTok, b: Byte)
    requires NumRegisters(r, t) && PartialOk(t) && t.exp.None? && !IsDigit(b) && (b == DOT ==> IsDouble(t))
    ensures IsDouble(t) && r.numDigits == 0 <==> StepNum(t, b).Bad?
    ensures !StepNum(t, b).Bad? ==>
              if IsE(b) then
                var t' := t.(exp := Some(Exponent(b, None, [])));
                && StepNum(t, b) == More(t')
                && InProgress(t') == Real(AsReal(AddFraction(r, InProgress(t))))
                && NumRegisters(r.(numDigits := 0, num := r.num.(e := true, zero := false)), t')
              else
                StepNum(t, b) == Finished && Magnitude(t, Int64) == AddFraction(r, InProgress(t))
  {
  }

  lemma ExponentMark(r: Registers, t: NumTok, b: Byte)
    requires NumRegisters(r, t) && PartialOk(t) && t.exp.None? && IsE(b)
    requires StepNum(t, b) == More(t.(exp := Some(Exponent(b, None, []))))
    ensures var t' := t.(exp := Some(Exponent(b, None, [])));
            && InProgress(t') == Real(AsReal(AddFraction(r, InProgress(t))))
            && NumRegisters(r.(numDigits := 0, num := r.num.(e := true, zero := false)), t')
  {
  }

  // A byte that ends an exponent.
  lemma AfterExponent(r: Registers, t: NumTok, b: Byte)
    requires NumRegisters(r, t) && PartialOk(t) && t.exp.Some? && !IsDigit(b)
    requires IsSign(b) ==> r.num.gotSign
    ensures r.numDigits == 0 <==> StepNum(t, b).Bad?
    ensures r.numDigits != 0 ==>
              && StepNum(t, b) == Finished && InProgress(t).Real?
              && Magnitude(t, Int64) == Real(InProgress(t).r * Scale10(if r.num.eNegative then -r.numE else r.numE))
  {
    hide Decimal, Wrap64, Power10, Mantissa, Scale10;
  }

  lemma SignApplied(r: Registers, t: NumTok)
    requires NumRegisters(r, t)
    ensures NumberOf(t, Int64) == if !r.num.negative then Magnitude(t, Int64)
                                  else match Magnitude(t, Int64) case Int(n) => Int(Wrap64(-n)) case Real(x) => Real(-x)
  {
  }

  // The skip of the second pass takes the machine from the number's first byte to the state in which
  // the number is attached.
  predicate Skipped(text: Bytes, i: nat, z: State, tok: NumTok, fin: seq<Row>) {
    && i <= |text| && z.mode.Seek?
    && var j := SkipEnd(text, i); var c := Complete(j, z.stack, z.mode.ws, Num(tok));
       j > i && c.Next? && Inv(text, j, c.z) && Leads(text, i, z, j, c.z) && Grows(Rows(c.z), fin)
  }

  lemma NumSkipRun(text: Bytes, i: nat, r: Registers, m: Store, z: State) returns (tok: NumTok)
    requires Current(text, i, r, m, z) && !m.first && z.mode.Seek? && Ready(z.stack) && AllAwaiting(z.stack)
    requires At(text, i) == MINUS || IsDigit(At(text, i))
    ensures Skipped(text, i, z, tok, m.fin)
  {
    tok := NumberSkipAgrees(text, i, z.stack, z.mode.ws);
    var j := SkipEnd(text, i);
    hide Inv, Run, Step, StackRows, AllAwaiting, Detached, StoreOk, Attached, Grows, NumberOf, Rows;
    RunGrows(text, j, Attached(z.stack, z.mode.ws, Num(tok)));
  }

  lemma NumSkipReady(text: Bytes, i: nat, r: Registers, m: Store, z: State, tok: NumTok)
    requires Represents(r, m, z) && !m.first && z.mode.Seek? && AllAwaiting(z.stack) && Skipped(text, i, z, tok, m.fin)
    ensures StoreOk(m) && NewRoom(m, KInteger, r.top)
    ensures |m.rows| < |m.fin| && m.fin[|m.rows|] == RScalar(r.top, ScalarOf(Num(tok)), false)
    ensures Detached(z.stack, Num(tok)) == m.rows + [RScalar(r.top, ScalarOf(Num(tok)), false)]
  {
    hide Inv, Leads, StackRows, AllAwaiting, Detached, StoreOk, Attached, Grows, NumberOf;
    ScalarReady(m, z.stack, z.mode.ws, Num(tok));
  }

  lemma NumSkipDone(text: Bytes, i: nat, r: Registers, m: Store, z: State, tok: NumTok, r': Registers, m': Store)
    requires Current(text, i, r, m, z) && !m.first && AllAwaiting(z.stack) && Skipped(text, i, z, tok, m.fin)
    requires Detached(z.stack, Num(tok)) == m.rows + [RScalar(r.top, ScalarOf(Num(tok)), false)]
    requires StoreOk(m') && m'.first == m.first && m'.fin == m.fin
    requires m'.rows == m.rows + [RScalar(r.top, ScalarOf(Num(tok)), false)]
    requires r'.flags == CLEAR.(next := true, reproc := true) && r'.top == Ref(|m.rows|)
    ensures Pending(text, i, z, SkipEnd(text, i), r', m', z.stack, z.mode.ws, Num(tok))
  {
    hide Inv, Run, Step, StackRows, AllAwaiting, Detached, StoreOk, Grows, ScalarOf, Leads;
  }

  // ---------- Attaching ----------

  lemma FirstRowParent(c: Cst, self: nat, parent: Ref)
    ensures CstRows(c, self, parent)[0].parent == parent
  {
  }

  // The parent of the node on top is the open container.
  lemma PendingParent(text: Bytes, i0: nat, z: State, i: int, r: Registers, m: Store, s: Stack, pre: Bytes, v: Cst)
    requires Pending(text, i0, z, i, r, m, s, pre, v)
    ensures StoreOk(m) && r.top.Ref? && r.top.addr == |StackRows(s, [])| && r.top.addr in m.nodes
    ensures m.nodes[r.top.addr].parent == TopRef(s)
    ensures s.Bottom? <==> TopRef(s).NoRef?
    ensures s.Push? ==>
              var t := TopIndex(s);
              && TopRef(s) == Ref(t) && t < |m.rows| && m.rows[t].RBox? && KidRoom(m, t)
              && |m.rows[t].kids| == |s.top.items| <= UINT_LIMIT
              && t in m.nodes && m.nodes[t].kind == BoxKind(s.top.isObj)
    ensures s.Push? && Complete(i, s, pre, v).Reject? <==> s.Push? && |s.top.items| + 1 > UINT_LIMIT
  {
    var k := |StackRows(s, [])|;
    FirstRowParent(v, k, TopRef(s));
    StoreNode(m, k);
    if s.Push? {
      AttachedRows(s, pre, v);
      TopRow(s, []);
      var t := TopIndex(s);
      var c := Complete(i, s, pre, v);
      if !m.first {
        assert RowLe(Rows(c.z)[t], m.fin[t]);
      }
      StoreNode(m, t);
    }
    hide StackRows, CstRows, StoreOk, Inv, ItemsOk, ItemsFit, Leads, Step, Rows;
  }

  // Whether the byte is processed again is no part of what is pending.
  lemma PendingFlags(text: Bytes, i0: nat, z: State, i: int, r: Registers, m: Store, s: Stack, pre: Bytes, v: Cst)
    requires Pending(text, i0, z, i, r, m, s, pre, v)
    ensures r.flags == CLEAR.(next := true, reproc := r.flags.reproc)
    ensures Pending(text, i0, z, i, r.(flags := r.flags.(reproc := false)), m, s, pre, v)
  {
    hide StackRows, Detached, StoreOk, Inv, AllAwaiting, Leads, Step, Rows, Grows, Complete;
  }

  lemma PendingRejects(text: Bytes, i0: nat, z: State, i: int, r: Registers, m: Store, s: Stack, pre: Bytes, v: Cst)
    requires Pending(text, i0, z, i, r, m, s, pre, v) && s.Push? && |s.top.items| + 1 > UINT_LIMIT
    ensures i0 <= |text| && m.first && Step(text, i0, z).Reject?
  {
    hide StackRows, Detached, StoreOk, Inv, AllAwaiting, Leads, Step, Rows, Grows;
  }

  lemma AttachDone(text: Bytes, i0: nat, z: State, i: int, r: Registers, m: Store, s: Stack, pre: Bytes, v: Cst,
                   r': Registers, m': Store)
    requires Pending(text, i0, z, i, r, m, s, pre, v) && s.Push? && Complete(i, s, pre, v).Next?
    requires TopIndex(s) < |m.rows| && m.rows[TopIndex(s)].RBox?
    requires StoreOk(m') && m'.rows == WithKid(m.rows, TopIndex(s), |StackRows(s, [])|)
    requires r'.flags == CLEAR.(needComma := true, seekValue := !s.top.isObj) && r'.top == TopRef(s)
    ensures Moved(text, i0, z, i, r', m', Attached(s, pre, v))
  {
    hide StackRows, Detached, CstRows, StoreOk, Inv, AllAwaiting, Leads, Step, Rows, FlagsOf, TopOf, Grows, Attached,
         NumRegisters, TopRef, TopIndex, Progresses;
    AwaitingParts(s);
    AttachedRows(s, pre, v);
    AttachedView(s, pre, v);
  }

  lemma AttachedView(s: Stack, pre: Bytes, v: Cst)
    requires s.Push?
    ensures var z := Attached(s, pre, v);
            && FlagsOf(z) == CLEAR.(needComma := true, seekValue := !s.top.isObj) && TopOf(z) == TopRef(s)
            && (z.mode.Seek? || z.mode.InObj?)
  {
  }

  lemma RootDone(text: Bytes, i0: nat, z: State, i: int, r: Registers, m: Store, s: Stack, pre: Bytes, v: Cst, r': Registers)
    requires Pending(text, i0, z, i, r, m, s, pre, v) && s.Bottom?
    requires r' == r.(flags := CLEAR.(needComma := true, done := true))
    ensures Moved(text, i0, z, i, r', m, Attached(s, pre, v))
  {
    hide CstRows, StoreOk, Inv, Leads, Step, Grows;
  }

  // ---------- The pushdown invariant ----------

  // Following the parent links from r meets exactly the open containers, innermost first, with their
  // kinds and their numbers of children.
  predicate Climbs(nodes: Nodes, r: Ref, s: Stack)
    decreases s
  {
    if s.Bottom? then r.NoRef?
    else
      && r.Ref? && r.addr in nodes && nodes[r.addr].kind == BoxKind(s.top.isObj)
      && nodes[r.addr].u.UBox? && nodes[r.addr].u.length == |s.top.items|
      && Climbs(nodes, nodes[r.addr].parent, s.rest)
  }

  lemma {:induction false} StackClimbs(m: Store, s: Stack, cur: seq<Bytes>)
    requires StoreOk(m) && StackRows(s, cur) <= m.rows
    ensures Climbs(m.nodes, TopRef(s), s)
    decreases s
  {
    if s.Push? {
      TopRow(s, cur);
      assert StackRows(s.rest, []) <= StackRows(s, cur);
      var row := m.rows[TopIndex(s)];
      assert row == FrameRow(s.top, TopIndex(s), TopRef(s.rest), cur);
      StoreNode(m, TopIndex(s));
      StoreBox(m, TopIndex(s));
      hide StackRows, ForestRows, StoreOk, Names;
      StackClimbs(m, s.rest, []);
    }
  }

  lemma StoreBox(m: Store, k: nat)
    requires StoreOk(m) && k < |m.rows| && m.rows[k].RBox?
    ensures k in m.nodes && m.nodes[k].u.UBox? && m.nodes[k].u.length == |m.rows[k].kids|
  {
  }

  // Where top and its parents stand and what the flags may be, whenever the loop comes round.
  lemma PushdownInvariant(text: Bytes, i: nat, r: Registers, m: Store, z: State)
    requires Current(text, i, r, m, z)
    ensures r.flags.done ==> z.stack.Bottom?
    ensures !r.flags.done ==>
              var scalar := z.mode.InNum? || (z.mode.InStr? && !z.mode.isKey);
              && (scalar ==> r.top.Ref? && r.top.addr in m.nodes)
              && Climbs(m.nodes, if scalar then m.nodes[r.top.addr].parent else r.top, z.stack)
    ensures r.flags.needColon ==>
              && r.flags.seekValue && !r.flags.needComma
              && r.top.Ref? && r.top.addr in m.nodes && m.nodes[r.top.addr].kind.KObject?
    ensures r.flags.escaped ==> r.flags.inString
    ensures r.flags.inString ==> r.flags == CLEAR.(inString := true, escaped := r.flags.escaped)
    ensures z.mode.InObj? ==>
              r.top.Ref? && r.top.addr < |m.rows| && m.rows[r.top.addr].RBox?
              && |m.rows[r.top.addr].names| == |m.rows[r.top.addr].kids|
  {
    if z.mode.Seek? || z.mode.InObj? {
      TopKind(text, i, r, m, z);
    }
    OpenAbove(m, z);
    if !z.mode.Done? {
      StackClimbs(m, z.stack, if z.mode.InStr? && z.mode.isKey then [StrBytes(z.mode.items)] else []);
    }
    hide StackRows, StoreOk, Inv, StrBytes;
    if z.mode.InObj? {
      KeyStartReady(text, i, r, m, z);
      TopRow(z.stack, []);
    }
  }

  // While a comma or a colon is due, nothing but it, white space and a closing bracket is taken, and no value starts.
  lemma NoEarlyValue(text: Bytes, i: nat, r: Registers, m: Store, z: State)
    requires Current(text, i, r, m, z) && (r.flags.needComma || r.flags.needColon) && Step(text, i, z).Next?
    ensures var b := At(text, i);
            || IsWs(b) || (r.flags.needComma && b == COMMA) || (r.flags.needColon && b == COLON)
            || b == RBRACKET || b == RBRACE
    ensures |Rows(Step(text, i, z).z)| == |m.rows|
  {
    DueBytes(text, i, z);
    hide StackRows, CstRows, StoreOk, Inv, Run, NumRegisters, AllAwaiting, Spelled;
    var b := At(text, i);
    if IsWs(b) {
    } else if b == COMMA {
      CommaStep(text, i, z);
    } else if b == COLON {
      ColonStep(text, i, z);
    } else {
      ClosedCount(text, i, z);
    }
  }

  lemma DueBytes(text: Bytes, i: nat, z: State)
    requires i <= |text| && StateOk(z) && Step(text, i, z).Next? && (FlagsOf(z).needComma || FlagsOf(z).needColon)
    ensures z.mode.Seek? || z.mode.InObj? || z.mode.Done?
    ensures var b := At(text, i);
            || IsWs(b)
            || (NeedComma(z.stack) && b == COMMA && !z.mode.Done?)
            || (NeedColon(z.stack) && !NeedComma(z.stack) && b == COLON && z.mode.Seek?)
            || (z.stack.Push? && i < |text|
                && if z.stack.top.isObj then z.mode.InObj? && b == RBRACE else z.mode.Seek? && b == RBRACKET)
  {
    hide ItemsOk, ItemsFit;
  }

  lemma ClosedCount(text: Bytes, i: nat, z: State)
    requires i < |text| && StateOk(z) && z.stack.Push? && Step(text, i, z).Next?
    requires if z.stack.top.isObj then z.mode.InObj? && At(text, i) == RBRACE else z.mode.Seek? && At(text, i) == RBRACKET
    ensures |Rows(Step(text, i, z).z)| == |Rows(z)|
  {
    hide StackRows, Detached, Rows, Step, TopOf, AllAwaiting, StateOk, Attached;
    var f := z.stack.top;
    CloseStep(text, i, z);
    AttachedCount(z.stack.rest, f.pre, Box(f.isObj, f.items, z.mode.ws));
  }

  // The 8 units of slack keep every 32-bit counter from wrapping, with one more added to it.
  lemma CounterBound(text: Bytes, i: nat, r: Registers, m: Store, z: State)
    requires Current(text, i, r, m, z)
    ensures z.mode.InStr? ==> r.stringLength == StrLength(z.mode.items) && 0 <= r.stringLength < 0xFFFF_FFFF
    ensures forall k :: 0 <= k < |m.rows| && m.rows[k].RBox? ==>
              k in m.nodes && m.nodes[k].u.UBox? && m.nodes[k].u.length + 1 < 0x1_0000_0000
  {
    hide StackRows, StoreOk, Rows, TextAt, StrLength, NumRegisters, StrOk, ItemsOk, ItemsFit;
    if z.mode.InStr? {
      TextReady(text, i, r, m, z);
    }
    ChildCountBound(z);
    forall k | 0 <= k < |m.rows| && m.rows[k].RBox?
      ensures k in m.nodes && m.nodes[k].u.UBox? && m.nodes[k].u.length + 1 < 0x1_0000_0000
    {
      StoreBox(m, k);
    }
  }

  lemma OpenAbove(m: Store, z: State)
    requires StoreOk(m) && m.rows == Rows(z)
    ensures !z.mode.Done? ==>
              StackRows(z.stack, if z.mode.InStr? && z.mode.isKey then [StrBytes(z.mode.items)] else []) <= m.rows
    ensures z.mode.InNum? || (z.mode.InStr? && !z.mode.isKey) ==>
              var k := |StackRows(z.stack, [])|; k in m.nodes && m.nodes[k].parent == TopRef(z.stack)
  {
    var k := |StackRows(z.stack, [])|;
    hide StackRows, StoreOk, InProgress, StrBytes;
    if z.mode.InNum? || (z.mode.InStr? && !z.mode.isKey) {
      StoreNode(m, k);
    }
  }

  // ---------- The loop ----------

  // Each test at the head of the loop body tells the machine's mode.
  lemma ModeShown(text: Bytes, i: nat, r: Registers, m: Store, z: State)
    requires Current(text, i, r, m, z)
    ensures r.flags.done <==> z.mode.Done?
    ensures r.flags.inString <==> z.mode.InStr?
    ensures r.flags.seekValue <==> z.mode.Seek?
    ensures z.mode.InObj? || z.mode.InNum? ==>
              r.top.Ref? && r.top.addr in m.nodes && (z.mode.InObj? <==> m.nodes[r.top.addr].kind.KObject?)
  {
    if z.mode.InObj? {
      TopKind(text, i, r, m, z);
    } else if z.mode.InNum? {
      NumTop(text, i, r, m, z);
    }
    hide StackRows, StoreOk, Inv, Run, Rows, InProgress;
  }

  lemma DoneSteps(text: Bytes, i: nat, z: State)
    requires i <= |text| && z.mode.Done?
    ensures At(text, i) == 0 ==> Step(text, i, z).Accept?
    ensures At(text, i) != 0 && !IsWs(At(text, i)) ==> Step(text, i, z).Reject?
  {
  }

  // The variables as they are set before the loop.
  lemma Begins(text: Bytes, r: Registers, m: Store)
    requires r.flags == CLEAR.(seekValue := true) && r.top == NoRef && m.rows == [] && StoreOk(m)
    requires !m.first ==> Parse(text).Accepted? && m.fin == Final(Parse(text).doc)
    ensures Current(text, 0, r, m, START) && Leads(text, 0, START, 0, START)
  {
    hide StoreOk, Run, Final;
  }

  lemma GoesOn(text: Bytes, i0: nat, z: State, i: int, r: Registers, m: Store, z': State)
    requires Moved(text, i0, z, i, r, m, z') && Leads(text, 0, START, i0, z)
    requires !m.first ==> Parse(text).Accepted? && m.fin == Final(Parse(text).doc)
    ensures Current(text, i, r, m, z') && Leads(text, 0, START, i, z') && Progresses(text, i0, z, i, z')
  {
    hide Inv, Represents, Run, Final;
  }

  // The loop ends where the machine does.
  lemma Stops(text: Bytes, i: nat, r: Registers, m: Store, z: State)
    requires i <= |text| && Leads(text, 0, START, i, z)
    ensures Step(text, i, z).Reject? ==> Parse(text).Rejected?
    ensures Step(text, i, z).Accept? && Represents(r, m, z) ==>
              StoreOk(m) && Parse(text).Accepted? && m.rows == Final(Parse(text).doc)
  {
    hide StoreOk, StackRows, CstRows;
  }
}
