/**
 The nodes of a (partial) tree in the order in which the parser creates them. Row k describes the
 node that new_value creates k-th; that order is the preorder of the tree, and it is the order of
 the chain that links the two passes.
 */
module Table {
  import opened Text
  import opened Escape
  import opened Numbers
  import opened Grammar
  import opened Machine

  datatype Ref = NoRef | Ref(addr: nat)

  datatype Scalar = SNull | SBool(b: bool) | SNum(n: Number)

  // A container with the names of its complete keys, its attached children and the key being read (at
  // most one); a string or a scalar, marked open while it is being read.
  datatype Row =
    | RBox(parent: Ref, isObj: bool, names: seq<Bytes>, kids: seq<nat>, cur: seq<Bytes>)
    | RStr(parent: Ref, bytes: Bytes, open: bool)
    | RScalar(parent: Ref, s: Scalar, open: bool)

  // ---------- Complete trees ----------

  function NamesOf(items: seq<Item>): (r: seq<Bytes>)
    ensures |r| == |items|
  {
    if items == [] then [] else NamesOf(items[..|items| - 1]) + [KeyBytes(items[|items| - 1].lead)]
  }

  function Names(isObj: bool, items: seq<Item>): seq<Bytes> {
    if isObj then NamesOf(items) else []
  }

  function CstRows(c: Cst, self: nat, parent: Ref): (r: seq<Row>)
    ensures r != []
    decreases c
  {
    match c
    case Null => [RScalar(parent, SNull, false)]
    case True => [RScalar(parent, SBool(true), false)]
    case False => [RScalar(parent, SBool(false), false)]
    case Num(tok) => [RScalar(parent, SNum(NumberOf(tok, Int64)), false)]
    case Str(str) => [RStr(parent, StrBytes(str), false)]
    case Box(isObj, items, _) =>
      [RBox(parent, isObj, Names(isObj, items), Kids(items, self), [])] + ForestRows(items, self)
  }

  // The rows of the items' values, which follow the row of their container.
  function ForestRows(items: seq<Item>, self: nat): seq<Row>
    decreases items
  {
    if items == [] then []
    else
      var front := ForestRows(items[..|items| - 1], self);
      front + CstRows(items[|items| - 1].val, self + 1 + |front|, Ref(self))
  }

  function Kids(items: seq<Item>, self: nat): (r: seq<nat>)
    ensures |r| == |items|
    decreases items
  {
    if items == [] then []
    else Kids(items[..|items| - 1], self) + [self + 1 + |ForestRows(items[..|items| - 1], self)|]
  }

  function Final(d: Doc): seq<Row> {
    CstRows(d.val, 0, NoRef)
  }

  // ---------- Partial trees ----------

  function PartNames(part: Part): seq<Bytes> {
    match part
    case NoPart => []
    case KeyRead(_, key) => [StrBytes(key)]
    case ColonRead(_, key, _) => [StrBytes(key)]
  }

  function FrameRow(f: Frame, self: nat, parent: Ref, cur: seq<Bytes>): Row {
    RBox(parent, f.isObj, Names(f.isObj, f.items) + PartNames(f.part), Kids(f.items, self), cur)
  }

  function StackRows(s: Stack, cur: seq<Bytes>): seq<Row> {
    if s.Bottom? then []
    else
      var below := StackRows(s.rest, []);
      below + [FrameRow(s.top, |below|, TopRef(s.rest), cur)] + ForestRows(s.top.items, |below|)
  }

  // The node of the innermost open container.
  function TopRef(s: Stack): Ref {
    if s.Bottom? then NoRef else Ref(|StackRows(s.rest, [])|)
  }

  // The value a number's node holds while the number is being read: no sign,
  // and the fraction only once an exponent follows.
  function InProgress(t: NumTok): Number {
    if !IsDouble(t) then Int(InWidth(Int64, Decimal(t.ip)))
    else if t.exp.Some? then Real(Mantissa(t, Int64))
    else Real(Whole(t, Int64))
  }

  function Rows(z: State): seq<Row> {
    var s := z.stack;
    match z.mode
    case InStr(true, _, items, _) => StackRows(s, [StrBytes(items)])
    case InStr(false, _, items, _) => StackRows(s, []) + [RStr(TopRef(s), StrBytes(items), true)]
    case InNum(_, tok) => StackRows(s, []) + [RScalar(TopRef(s), SNum(InProgress(tok)), true)]
    case Done(_, val, _) => CstRows(val, 0, NoRef)
    case _ => StackRows(s, [])
  }

  // ---------- Growth ----------

  // Bytes the names take, each with its terminator.
  function NameTotal(names: seq<Bytes>): nat {
    if names == [] then 0 else NameTotal(names[..|names| - 1]) + |names[|names| - 1]| + 1
  }

  lemma NameTotalSnoc(names: seq<Bytes>, n: Bytes)
    ensures NameTotal(names + [n]) == NameTotal(names) + |n| + 1
  {
  }

  // What a describes is part of what b describes: b needs at least the room a
  // needs, and what a has closed is final.
  predicate RowLe(a: Row, b: Row) {
    && a.parent == b.parent
    && match a
       case RBox(_, isObj, names, kids, cur) =>
         && b.RBox? && b.isObj == isObj
         && |kids| <= |b.kids|
         && |names + cur| <= |b.names + b.cur|
         && NameTotal(names + cur) <= NameTotal(b.names + b.cur)
       case RStr(_, bytes, _) => b.RStr? && |bytes| <= |b.bytes|
       case RScalar(_, s, open) => b.RScalar? && (!open ==> s == b.s)
  }

  predicate TableLe(a: seq<Row>, b: seq<Row>) {
    |a| <= |b| && forall k :: 0 <= k < |a| ==> RowLe(a[k], b[k])
  }

  predicate RowClosed(r: Row) {
    match r
    case RBox(_, isObj, names, kids, cur) => cur == [] && |names| == (if isObj then |kids| else 0)
    case RStr(_, _, open) => !open
    case RScalar(_, _, open) => !open
  }

  // Within the 32-bit counters.
  predicate RowBounded(r: Row) {
    match r
    case RBox(_, _, _, kids, _) => |kids| <= UINT_LIMIT
    case RStr(_, bytes, _) => |bytes| <= UINT_LIMIT
    case RScalar(_, _, _) => true
  }

  predicate AllBounded(rows: seq<Row>) {
    forall k :: 0 <= k < |rows| ==> RowBounded(rows[k])
  }

  predicate AllClosed(rows: seq<Row>) {
    forall k :: 0 <= k < |rows| ==> RowClosed(rows[k])
  }

  // Once a scalar is complete it stays so.
  predicate StaysClosed(a: seq<Row>, b: seq<Row>) {
    |a| <= |b| && forall k :: 0 <= k < |a| ==> a[k].RScalar? && !a[k].open && b[k].RScalar? ==> !b[k].open
  }

  predicate Grows(a: seq<Row>, b: seq<Row>) {
    TableLe(a, b) && StaysClosed(a, b)
  }

  lemma GrowsTrans(a: seq<Row>, b: seq<Row>, c: seq<Row>)
    requires Grows(a, b) && Grows(b, c)
    ensures Grows(a, c)
  {
  }

  lemma GrowsRefl(a: seq<Row>)
    ensures Grows(a, a)
  {
  }

  lemma GrowsAppend(a: seq<Row>, b: seq<Row>)
    ensures Grows(a, a + b)
  {
  }

  lemma GrowsUpdate(a: seq<Row>, k: nat, r: Row)
    requires k < |a| && RowLe(a[k], r) && (a[k].RScalar? && !a[k].open ==> !r.open)
    ensures Grows(a, a[k := r])
  {
  }

  // ---------- The table after each kind of step ----------

  lemma {:induction false} CommaRows(items: seq<Item>, ws: Bytes, self: nat)
    requires items != []
    ensures var last := |items| - 1; var items' := items[..last] + [items[last].(comma := Comma(ws))];
            ForestRows(items', self) == ForestRows(items, self) && Kids(items', self) == Kids(items, self)
            && NamesOf(items') == NamesOf(items)
  {
  }

  // The index of the innermost open container.
  function TopIndex(s: Stack): nat
    requires s.Push?
  {
    |StackRows(s.rest, [])|
  }

  lemma TopRow(s: Stack, cur: seq<Bytes>)
    requires s.Push?
    ensures TopIndex(s) < |StackRows(s, cur)|
    ensures StackRows(s, cur)[TopIndex(s)] == FrameRow(s.top, TopIndex(s), TopRef(s.rest), cur)
    ensures TopRef(s) == Ref(TopIndex(s))
  {
  }

  // Changing only the innermost container's own row.
  lemma RetopRows(s: Stack, cur: seq<Bytes>, f: Frame, cur': seq<Bytes>)
    requires s.Push? && f.items == s.top.items
    ensures StackRows(WithTop(s, f), cur')
            == StackRows(s, cur)[TopIndex(s) := FrameRow(f, TopIndex(s), TopRef(s.rest), cur')]
    ensures TopIndex(s) < |StackRows(s, cur)|
  {
  }

  // The table when the value v of the innermost container is complete but not
  // yet attached to it.
  function Detached(s: Stack, v: Cst): seq<Row> {
    StackRows(s, []) + CstRows(v, |StackRows(s, [])|, TopRef(s))
  }

  lemma StackParts(s: Stack)
    requires s.Push?
    ensures var t := TopIndex(s);
            StackRows(s, []) == StackRows(s.rest, []) + [FrameRow(s.top, t, TopRef(s.rest), [])] + ForestRows(s.top.items, t)
    ensures TopRef(s) == Ref(TopIndex(s))
  {
  }

  // A comma changes no row.
  lemma AddCommaRows(s: Stack, ws: Bytes)
    requires s.Push? && s.top.items != []
    ensures StackRows(WithTop(s, AddComma(s.top, ws)), []) == StackRows(s, [])
  {
    hide StackRows, ForestRows, Kids, NamesOf;
    var s' := WithTop(s, AddComma(s.top, ws));
    CommaRows(s.top.items, ws, TopIndex(s));
    StackParts(s);
    StackParts(s');
  }

  // Attaching adds the value's index to its container's row, and nothing else.
  lemma AttachedRows(s: Stack, pre: Bytes, v: Cst)
    requires s.Push? ==> s.top.part.NoPart? == !s.top.isObj && !s.top.part.KeyRead?
    ensures s.Bottom? ==> Rows(Attached(s, pre, v)) == Detached(s, v)
    ensures s.Push? ==>
              var t := TopIndex(s);
              && t < |StackRows(s, [])| <= |Detached(s, v)|
              && var r := Detached(s, v)[t];
                 && r.RBox? && r == StackRows(s, [])[t]
                 && Rows(Attached(s, pre, v)) == Detached(s, v)[t := r.(kids := r.kids + [|StackRows(s, [])|])]
  {
    if s.Push? {
      PushAttachedRows(s, pre, v);
    }
  }

  lemma PushAttachedRows(s: Stack, pre: Bytes, v: Cst)
    requires s.Push? && s.top.part.NoPart? == !s.top.isObj && !s.top.part.KeyRead?
    ensures var t := TopIndex(s);
            && t < |StackRows(s, [])| <= |Detached(s, v)|
            && var r := Detached(s, v)[t];
               && r.RBox? && r == StackRows(s, [])[t]
               && Rows(Attached(s, pre, v)) == Detached(s, v)[t := r.(kids := r.kids + [|StackRows(s, [])|])]
  {
    hide StackRows, CstRows, ForestRows, Kids, Names, NamesOf, StrBytes;
    var f, t, z := s.top, TopIndex(s), Attached(s, pre, v);
    var it := Item(LeadOf(f.part), pre, v, NoComma);
    SnocRows(f, it, t, TopRef(s.rest));
    StackParts(s);
    StackParts(z.stack);
    ReplaceRow(StackRows(s.rest, []), FrameRow(f, t, TopRef(s.rest), []), FrameRow(z.stack.top, t, TopRef(s.rest), []),
      ForestRows(f.items, t), CstRows(v, |StackRows(s, [])|, Ref(t)));
  }

  lemma ReplaceRow(a: seq<Row>, x: Row, y: Row, f: seq<Row>, c: seq<Row>)
    ensures (a + [x] + f + c)[|a| := y] == a + [y] + (f + c)
    ensures (a + [x] + f + c)[|a|] == x == (a + [x] + f)[|a|]
  {
  }

  lemma SnocRows(f: Frame, it: Item, self: nat, parent: Ref)
    requires f.part.NoPart? == !f.isObj && !f.part.KeyRead? && it.lead == LeadOf(f.part)
    ensures var f' := f.(items := f.items + [it], part := NoPart);
            var n := self + 1 + |ForestRows(f.items, self)|;
            && FrameRow(f', self, parent, []) == FrameRow(f, self, parent, []).(kids := Kids(f.items, self) + [n])
            && ForestRows(f'.items, self) == ForestRows(f.items, self) + CstRows(it.val, n, Ref(self))
  {
    assert (f.items + [it])[..|f.items|] == f.items;
    assert NamesOf(f.items + [it]) == NamesOf(f.items) + [KeyBytes(it.lead)];
    assert Names(f.isObj, f.items + [it]) + [] == Names(f.isObj, f.items) + PartNames(f.part);
  }

  lemma BoxRows(f: Frame, ws: Bytes, self: nat, parent: Ref)
    requires f.part.NoPart?
    ensures CstRows(Box(f.isObj, f.items, ws), self, parent) == [FrameRow(f, self, parent, [])] + ForestRows(f.items, self)
  {
    hide ForestRows, Kids, Names;
    assert Names(f.isObj, f.items) + [] == Names(f.isObj, f.items);
  }

  lemma ClosedBoxRows(s: Stack, ws: Bytes)
    requires s.Push? && s.top.part.NoPart?
    ensures Detached(s.rest, Box(s.top.isObj, s.top.items, ws)) == StackRows(s, [])
  {
    hide StackRows, ForestRows, FrameRow, CstRows;
    StackParts(s);
    BoxRows(s.top, ws, TopIndex(s), TopRef(s.rest));
    var own, kids := [FrameRow(s.top, TopIndex(s), TopRef(s.rest), [])], ForestRows(s.top.items, TopIndex(s));
    assert StackRows(s.rest, []) + own + kids == StackRows(s.rest, []) + (own + kids);
  }

  lemma NewBoxRows(s: Stack, isObj: bool, ws: Bytes)
    ensures StackRows(Push(Frame(isObj, ws, [], NoPart), s), []) == StackRows(s, []) + [RBox(TopRef(s), isObj, [], [], [])]
  {
    assert Names(isObj, []) + [] == [];
  }
}
