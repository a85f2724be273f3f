/**
 How a table lies in memory: measured, after the first pass has created its nodes, and filled, while
 the second pass turns the measured nodes into a tree with blocks of exactly the measured sizes.
 */
module Layout {
  import opened Text
  import opened Table
  import opened Memory

  // A node of the first pass: lengths and key bytes counted so far.
  function Node1(r: Row, next: Ref): Node {
    match r
    case RBox(parent, isObj, names, kids, _) =>
      Node(parent, BoxKind(isObj), UBox(|kids|, Count(if isObj then NameTotal(names) else 0)), NextAlloc(next))
    case RStr(parent, bytes, open) =>
      Node(parent, KString, UString(if open then 0 else |bytes|, NoRef), NextAlloc(next))
    case RScalar(parent, s, _) => Node(parent, ScalarKind(s), ScalarUnion(s), NextAlloc(next))
  }

  // A node the second pass has visited: it owns block k, and an object's chain
  // link has been overwritten by the place of its next name.
  function Node2(r: Row, k: nat, next: Ref): Node {
    match r
    case RBox(parent, isObj, names, kids, _) =>
      Node(parent, BoxKind(isObj), UBox(|kids|, Block(k)), if isObj then ObjectMem(k, NameTotal(names)) else NextAlloc(next))
    case RStr(parent, bytes, open) =>
      Node(parent, KString, UString(if open then 0 else |bytes|, Ref(k)), NextAlloc(next))
    case RScalar(_, _, _) => Node1(r, next)
  }

  predicate Measured(nodes: Nodes, rows: seq<Row>) {
    && (forall a :: a in nodes ==> a < |rows|)
    && (forall k :: 0 <= k < |rows| ==> k in nodes && nodes[k] == Node1(rows[k], NextRef(k + 1, |rows|)))
  }

  // Names one after the other, each with its terminator.
  function Flat(names: seq<Bytes>): (r: seq<int>)
    ensures |r| == NameTotal(names)
  {
    if names == [] then [] else Flat(names[..|names| - 1]) + names[|names| - 1] + [0]
  }

  function CurBytes(cur: seq<Bytes>): Bytes {
    if cur == [] then [] else cur[0]
  }

  // A block of the size that cap needs, filled as far as r goes.
  predicate BlockFits(b: Chunk, r: Row, cap: Row) {
    match r
    case RStr(_, bytes, open) =>
      && cap.RStr? && b.StrBlock? && |b.cells| == |cap.bytes| + 1
      && |bytes| <= |cap.bytes| && b.cells[..|bytes|] == bytes
      && (!open ==> b.cells[|bytes|] == 0)
    case RBox(_, isObj, names, kids, cur) =>
      && cap.RBox? && |kids| <= |cap.kids|
      && (if isObj then
            && b.ObjBlock? && |b.members| == |cap.kids| && |b.names| == NameTotal(cap.names)
            && |names| <= |cap.kids|
            && NameTotal(names) + |CurBytes(cur)| <= |b.names|
            && b.names[..NameTotal(names) + |CurBytes(cur)|] == Flat(names) + CurBytes(cur)
            && (forall k :: 0 <= k < |kids| ==> b.members[k].value == Ref(kids[k]))
            && (forall k :: 0 <= k < |names| ==> b.members[k].name == NameTotal(names[..k]))
          else
            && b.ArrBlock? && |b.slots| == |cap.kids|
            && (forall k :: 0 <= k < |kids| ==> b.slots[k] == Ref(kids[k])))
    case RScalar(_, _, _) => true
  }

  // The first |rows| nodes are visited; the others are as the first pass left them.
  predicate Filled(nodes: Nodes, blocks: Blocks, rows: seq<Row>, fin: seq<Row>) {
    && |rows| <= |fin|
    && (forall a :: a in nodes ==> a < |fin|)
    && (forall k :: 0 <= k < |rows| ==> k in nodes && nodes[k] == Node2(rows[k], k, NextRef(k + 1, |fin|)))
    && (forall k :: |rows| <= k < |fin| ==> k in nodes && nodes[k] == Node1(fin[k], NextRef(k + 1, |fin|)))
    && (forall a :: a in blocks ==> a < |rows| && !rows[a].RScalar?)
    && (forall k :: 0 <= k < |rows| && !rows[k].RScalar? ==> k in blocks && BlockFits(blocks[k], rows[k], fin[k]))
  }

  // ---------- Changing one row ----------

  lemma MeasuredSet(nodes: Nodes, rows: seq<Row>, k: nat, r: Row)
    requires Measured(nodes, rows) && k < |rows|
    ensures Measured(nodes[k := Node1(r, NextRef(k + 1, |rows|))], rows[k := r])
  {
  }

  lemma MeasuredAppend(nodes: Nodes, rows: seq<Row>, r: Row)
    requires Measured(nodes, rows)
    ensures Measured(Linked(nodes, |rows|)[|rows| := Node1(r, NoRef)], rows + [r])
  {
  }

  // At the start of the second pass nothing is visited.
  lemma MeasuredIsUnfilled(nodes: Nodes, fin: seq<Row>)
    requires Measured(nodes, fin)
    ensures Filled(nodes, map[], [], fin)
  {
  }

  lemma NextUnvisited(nodes: Nodes, blocks: Blocks, rows: seq<Row>, fin: seq<Row>)
    requires Filled(nodes, blocks, rows, fin) && |rows| < |fin|
    ensures |rows| in nodes && nodes[|rows|] == Node1(fin[|rows|], NextRef(|rows| + 1, |fin|))
  {
  }

  lemma FilledSet(nodes: Nodes, blocks: Blocks, rows: seq<Row>, fin: seq<Row>, k: nat, r: Row, b: Chunk)
    requires Filled(nodes, blocks, rows, fin) && k < |rows|
    requires !rows[k].RScalar? && !r.RScalar? && BlockFits(b, r, fin[k])
    ensures Filled(nodes[k := Node2(r, k, NextRef(k + 1, |fin|))], blocks[k := b], rows[k := r], fin)
  {
    hide Node1, Node2, BlockFits;
  }

  lemma FilledAppendScalar(nodes: Nodes, blocks: Blocks, rows: seq<Row>, fin: seq<Row>)
    requires Filled(nodes, blocks, rows, fin) && |rows| < |fin| && fin[|rows|].RScalar?
    ensures Filled(nodes, blocks, rows + [fin[|rows|]], fin)
  {
    hide BlockFits;
  }

  lemma FilledAppend(nodes: Nodes, blocks: Blocks, rows: seq<Row>, fin: seq<Row>, r: Row, b: Chunk)
    requires Filled(nodes, blocks, rows, fin) && |rows| < |fin|
    requires !r.RScalar? && BlockFits(b, r, fin[|rows|])
    ensures var n := |rows|;
            Filled(nodes[n := Node2(r, n, NextRef(n + 1, |fin|))], blocks[n := b], rows + [r], fin)
  {
    hide Node1, Node2, BlockFits;
  }

  // ---------- Writing into blocks ----------

  // The row with more bytes of its string or of the key being read.
  function ExtendedBy(r: Row, bs: Bytes): Row
    requires r.RStr? || (r.RBox? && |r.cur| == 1)
  {
    if r.RStr? then r.(bytes := r.bytes + bs) else r.(cur := [r.cur[0] + bs])
  }

  // The string or key that is being read into the row.
  predicate IsOpenText(r: Row) {
    (r.RStr? && r.open) || (r.RBox? && r.isObj && |r.cur| == 1)
  }

  function TextOf(r: Row): Bytes
    requires IsOpenText(r)
  {
    if r.RStr? then r.bytes else r.cur[0]
  }

  lemma ExtendedText(r: Row, bs: Bytes, k: nat)
    requires IsOpenText(r)
    ensures var r' := ExtendedBy(r, bs);
            IsOpenText(r') && TextOf(r') == TextOf(r) + bs && TargetOf(r', k) == TargetOf(r, k)
  {
  }

  lemma ExtendedTwice(r: Row, a: Bytes, b: Bytes, cap: Row)
    requires IsOpenText(r)
    ensures IsOpenText(ExtendedBy(r, a)) && ExtendedBy(ExtendedBy(r, a), b) == ExtendedBy(r, a + b)
    ensures Room(r, cap, |a + b|) ==> Room(r, cap, |a|) && Room(ExtendedBy(r, a), cap, |b|)
  {
    assert TextOf(r) + a + b == TextOf(r) + (a + b);
  }

  // ---------- Names in their region ----------

  lemma {:induction false} FlatAt(names: seq<Bytes>, k: nat)
    requires k < |names|
    ensures NameTotal(names[..k + 1]) == NameTotal(names[..k]) + |names[k]| + 1 <= NameTotal(names)
    ensures Flat(names)[NameTotal(names[..k])..NameTotal(names[..k + 1])] == names[k] + [0]
  {
    var init, last := names[..|names| - 1], names[|names| - 1];
    if k == |names| - 1 {
      assert names[..k + 1] == names && names[..k] == init;
      assert Flat(names) == Flat(init) + (last + [0]);
    } else {
      FlatAt(init, k);
      assert init[..k] == names[..k] && init[..k + 1] == names[..k + 1];
      assert Flat(names)[..NameTotal(init)] == Flat(init);
      SliceOfPrefix(Flat(names), NameTotal(init), NameTotal(names[..k]), NameTotal(names[..k + 1]));
    }
  }

  lemma SliceOfPrefix(s: seq<int>, n: nat, i: nat, j: nat)
    requires i <= j <= n <= |s|
    ensures s[..n][i..j] == s[i..j]
  {
  }

  lemma NameAt(b: Chunk, r: Row, cap: Row, k: nat)
    requires BlockFits(b, r, cap) && r.RBox? && r.isObj && k < |r.names|
    ensures b.members[k].name == NameTotal(r.names[..k])
    ensures NameEnd(b, r.names, k) == NameTotal(r.names[..k + 1]) <= NameTotal(r.names) <= |b.names|
    ensures b.names[NameTotal(r.names[..k])..NameTotal(r.names[..k + 1])] == r.names[k] + [0]
  {
    hide NameTotal, Flat;
    var names, total := r.names, NameTotal(r.names);
    FlatAt(names, k);
    assert b.names[..total] == b.names[..total + |CurBytes(r.cur)|][..total] == Flat(names);
    SliceOfPrefix(b.names, total, NameTotal(names[..k]), NameTotal(names[..k + 1]));
  }

  // What fits the row has the row's names laid out, up to their total length.
  lemma FitsLaid(b: Chunk, r: Row, cap: Row)
    requires BlockFits(b, r, cap) && r.RBox? && r.isObj
    ensures NamesLaid(b, r.names)
    ensures NameTotal(r.names) == if r.names == [] then 0 else NameEnd(b, r.names, |r.names| - 1)
  {
    var names := r.names;
    FitsMembers(b, r, cap);
    hide BlockFits, NameTotal;
    NoNames();
    assert names[..0] == [] && names[..|names|] == names;
    forall k | 0 <= k < |names| ensures NameLaid(b, names, k) {
      NameAt(b, r, cap, k);
      if k > 0 {
        NameAt(b, r, cap, k - 1);
      }
    }
    if names != [] {
      NameAt(b, r, cap, |names| - 1);
    }
  }

  lemma FitsMembers(b: Chunk, r: Row, cap: Row)
    requires BlockFits(b, r, cap) && r.RBox? && r.isObj
    ensures b.ObjBlock? && |r.names| <= |b.members|
  {
  }

  lemma NoNames()
    ensures NameTotal([]) == 0
  {
  }

  // There is room for n more bytes and the terminator.
  predicate Room(r: Row, cap: Row, n: nat) {
    if r.RStr? then cap.RStr? && |r.bytes| + n <= |cap.bytes|
    else r.RBox? && cap.RBox? && NameTotal(r.names) + |CurBytes(r.cur)| + n + 1 <= NameTotal(cap.names)
  }

  // The block after the byte b has been written behind the row's last byte.
  function WithByte(chunk: Chunk, r: Row, b: int): Chunk
    requires chunk.StrBlock? && r.RStr? ==> |r.bytes| < |chunk.cells|
    requires chunk.ObjBlock? && r.RBox? ==> NameTotal(r.names) + |CurBytes(r.cur)| < |chunk.names|
  {
    if chunk.StrBlock? && r.RStr? then StrBlock(chunk.cells[|r.bytes| := b])
    else if chunk.ObjBlock? && r.RBox? then
      chunk.(names := chunk.names[NameTotal(r.names) + |CurBytes(r.cur)| := b])
    else chunk
  }

  lemma ByteFits(chunk: Chunk, r: Row, cap: Row, b: Byte)
    requires BlockFits(chunk, r, cap) && Room(r, cap, 1)
    requires (r.RStr? && r.open) || (r.RBox? && r.isObj && |r.cur| == 1)
    ensures BlockFits(WithByte(chunk, r, b), ExtendedBy(r, [b]), cap)
  {
  }

  function StringClosed(r: Row): Row
    requires r.RStr?
  {
    RStr(r.parent, r.bytes, false)
  }

  function TargetOf(r: Row, k: nat): Target {
    if r.RBox? then NameTarget(k, NameTotal(r.names)) else StrTarget(k)
  }

  lemma ByteWritten(blocks: Blocks, k: nat, r: Row, cap: Row, b: Byte)
    requires k in blocks && IsOpenText(r) && BlockFits(blocks[k], r, cap) && Room(r, cap, 1)
    ensures var t := TargetOf(r, k); var n := |TextOf(r)|;
            && Writable(blocks, t, n)
            && (blocks[k].StrBlock? && r.RStr? ==> |r.bytes| < |blocks[k].cells|)
            && (blocks[k].ObjBlock? && r.RBox? ==> NameTotal(r.names) + |CurBytes(r.cur)| < |blocks[k].names|)
            && Written(blocks, t, n, b) == blocks[k := WithByte(blocks[k], r, b)]
            && BlockFits(WithByte(blocks[k], r, b), ExtendedBy(r, [b]), cap)
  {
    ByteFits(blocks[k], r, cap, b);
    hide NameTotal;
  }

  lemma ExtendedNode(r: Row, bs: Bytes, k: nat, next: Ref)
    requires IsOpenText(r)
    ensures Node2(ExtendedBy(r, bs), k, next) == Node2(r, k, next)
    ensures Node1(ExtendedBy(r, bs), next) == Node1(r, next)
    ensures !r.RScalar? && !ExtendedBy(r, bs).RScalar?
  {
  }

  lemma SameNode(nodes: Nodes, k: nat)
    requires k in nodes
    ensures nodes[k := nodes[k]] == nodes
  {
  }

  // One byte of a string or key: in memory and in the table.
  lemma FilledByte(nodes: Nodes, blocks: Blocks, rows: seq<Row>, fin: seq<Row>, k: nat, b: Byte)
    requires Filled(nodes, blocks, rows, fin) && k < |rows| && IsOpenText(rows[k]) && Room(rows[k], fin[k], 1)
    ensures var t := TargetOf(rows[k], k); var n := |TextOf(rows[k])|;
            && Writable(blocks, t, n)
            && Filled(nodes, Written(blocks, t, n, b), rows[k := ExtendedBy(rows[k], [b])], fin)
  {
    hide BlockFits, NameTotal, Room, Node1, Node2, ExtendedBy, TextOf, TargetOf, Writable, Written, WithByte;
    var r, next := rows[k], NextRef(k + 1, |fin|);
    ExtendedNode(r, [b], k, next);
    ByteWritten(blocks, k, r, fin[k], b);
    FilledSet(nodes, blocks, rows, fin, k, ExtendedBy(r, [b]), WithByte(blocks[k], r, b));
    SameNode(nodes, k);
  }

  lemma MeasuredBytes(nodes: Nodes, rows: seq<Row>, k: nat, bs: Bytes)
    requires Measured(nodes, rows) && k < |rows| && IsOpenText(rows[k])
    ensures Measured(nodes, rows[k := ExtendedBy(rows[k], bs)])
  {
  }

  lemma TerminatorFitsString(chunk: Chunk, r: Row, cap: Row)
    requires BlockFits(chunk, r, cap) && r.RStr?
    ensures BlockFits(WithByte(chunk, r, 0), StringClosed(r), cap)
  {
  }

  function KeyClosed(r: Row): Row
    requires r.RBox? && |r.cur| == 1
  {
    r.(names := r.names + r.cur, cur := [])
  }

  // Terminating a key and recording where its name starts.
  lemma KeyFits(chunk: Chunk, r: Row, cap: Row)
    requires BlockFits(chunk, r, cap) && r.RBox? && r.isObj && |r.cur| == 1
    requires Room(r, cap, 0) && |r.names| == |r.kids| < |cap.kids|
    ensures var c := WithByte(chunk, r, 0); var m := |r.names|;
            BlockFits(c.(members := c.members[m := c.members[m].(name := NameTotal(r.names))]), KeyClosed(r), cap)
  {
    var key := r.cur[0];
    var names := r.names + [key];
    assert r.cur == [key];
    NameTotalSnoc(r.names, key);
    assert names[..|r.names|] == r.names;
    assert Flat(names) == Flat(r.names) + key + [0];
    var n := NameTotal(r.names) + |key|;
    var cells := chunk.names[n := 0];
    assert cells[..n + 1] == chunk.names[..n] + [0];
    assert Flat(names) + [] == Flat(names);
    forall k | 0 <= k < |names| ensures names[..k] == if k < |r.names| then r.names[..k] else r.names {
    }
  }

  lemma KidFits(chunk: Chunk, r: Row, cap: Row, kid: nat)
    requires BlockFits(chunk, r, cap) && r.RBox? && |r.kids| < |cap.kids|
    ensures var n := |r.kids|;
            BlockFits(
              if r.isObj then chunk.(members := chunk.members[n := chunk.members[n].(value := Ref(kid))])
              else chunk.(slots := chunk.slots[n := Ref(kid)]),
              r.(kids := r.kids + [kid]), cap)
  {
  }

  // A row that the final row bounds leaves room for what it was extended by.
  lemma RoomWithin(r: Row, bs: Bytes, cap: Row)
    requires IsOpenText(r) && RowClosed(cap) && RowLe(ExtendedBy(r, bs), cap)
    ensures Room(r, cap, |bs|)
  {
    if r.RBox? {
      NameTotalSnoc(r.names, r.cur[0] + bs);
      assert cap.names + cap.cur == cap.names;
    }
  }

  // ---------- Fresh blocks ----------

  // What the second pass starts from for a row that will end up as cap.
  function FreshRow(cap: Row): Row {
    match cap
    case RBox(parent, isObj, _, _, _) => RBox(parent, isObj, [], [], [])
    case RStr(parent, _, _) => RStr(parent, [], true)
    case RScalar(_, _, _) => cap
  }

  function FreshBlock(cap: Row): Chunk {
    match cap
    case RBox(_, true, names, kids, _) => ObjBlock(NoSlots(|kids|), Unset(NameTotal(names)))
    case RBox(_, false, names, kids, _) => ArrBlock(NoRefs(|kids|))
    case RStr(_, bytes, _) => StrBlock(Unset(|bytes| + 1))
    case RScalar(_, _, _) => StrBlock([])
  }

  lemma FreshFits(r: Row, cap: Row)
    requires RowClosed(cap) && !cap.RScalar? && r == FreshRow(cap)
    ensures BlockFits(FreshBlock(cap), r, cap)
  {
  }

  // ---------- Memory and table together ----------

  // All that the memory of a pass consists of: nodes and blocks, the three chain pointers, the table
  // of the nodes met so far, and in the second pass the table of the whole text.
  datatype Store = Store(first: bool, nodes: Nodes, blocks: Blocks, nextNode: nat, root: Ref, alloc: Ref,
                         rows: seq<Row>, fin: seq<Row>)

  // Memory is the image of the table, and the chain pointers stand where the
  // pass is.
  predicate StoreOk(m: Store) {
    && m.root == NextRef(0, |m.rows|)
    && (if m.first then
          && Measured(m.nodes, m.rows) && m.blocks == map[] && m.nextNode == |m.rows|
          && m.alloc == (if m.rows == [] then NoRef else Ref(|m.rows| - 1))
        else
          && Filled(m.nodes, m.blocks, m.rows, m.fin) && AllClosed(m.fin) && AllBounded(m.fin)
          && m.alloc == NextRef(|m.rows|, |m.fin|) && m.nextNode == |m.fin|)
  }

  // The chain is empty exactly when the second pass has visited every node.
  lemma ChainLeft(m: Store)
    requires StoreOk(m) && !m.first
    ensures m.alloc.NoRef? <==> |m.rows| == |m.fin|
  {
    hide AllClosed, AllBounded, BlockFits;
  }

  // The first pass can still free all it has allocated.
  predicate StoreCleanable(m: Store) {
    Chain(m.nodes, 0, |m.rows|) && m.nextNode == |m.rows| && m.root == NextRef(0, |m.rows|) && m.blocks == map[]
  }

  lemma OkIsCleanable(m: Store)
    requires StoreOk(m) && m.first
    ensures StoreCleanable(m)
  {
  }

  // The string or key of row k is being read, and length and buffer say so.
  predicate TextAt(m: Store, k: nat, length: int, buffer: Target): (r: bool)
    ensures r ==> k < |m.rows| && IsOpenText(m.rows[k])
  {
    && k < |m.rows| && IsOpenText(m.rows[k]) && length == |TextOf(m.rows[k])|
    && (!m.first ==> buffer == TargetOf(m.rows[k], k))
  }

  // In the second pass, the block of row k has room for n more bytes.
  predicate RoomAt(first: bool, rows: seq<Row>, fin: seq<Row>, k: nat, n: nat) {
    !first ==> k < |rows| && k < |fin| && Room(rows[k], fin[k], n)
  }

  // Row k extended by bs.
  function WithText(rows: seq<Row>, k: nat, bs: Bytes): (r: seq<Row>)
    requires k < |rows| && IsOpenText(rows[k])
    ensures |r| == |rows|
  {
    rows[k := ExtendedBy(rows[k], bs)]
  }

  lemma StoreByte(m: Store, k: nat, length: int, buffer: Target, b: Byte)
    requires StoreOk(m) && TextAt(m, k, length, buffer) && RoomAt(m.first, m.rows, m.fin, k, 1)
    ensures !m.first ==> Writable(m.blocks, buffer, length)
    ensures var blocks := if m.first then m.blocks else Written(m.blocks, buffer, length, b);
            var m' := m.(rows := WithText(m.rows, k, [b]), blocks := blocks);
            StoreOk(m') && TextAt(m', k, length + 1, buffer)
  {
    ExtendedText(m.rows[k], [b], k);
    if m.first {
      MeasuredBytes(m.nodes, m.rows, k, [b]);
    } else {
      FilledByte(m.nodes, m.blocks, m.rows, m.fin, k, b);
    }
    hide Measured, Filled, Room, AllClosed, AllBounded, Writable, Written, ExtendedBy, IsOpenText, TextOf, TargetOf;
  }

  lemma StoreCount(m: Store, k: nat, length: int, buffer: Target, bs: Bytes)
    requires StoreOk(m) && TextAt(m, k, length, buffer) && m.first
    ensures var m' := m.(rows := WithText(m.rows, k, bs));
            StoreOk(m') && TextAt(m', k, length + |bs|, buffer)
  {
  }

  lemma TextTwice(first: bool, rows: seq<Row>, fin: seq<Row>, k: nat, a: Bytes, b: Bytes)
    requires k < |rows| && IsOpenText(rows[k])
    ensures IsOpenText(WithText(rows, k, a)[k])
    ensures WithText(WithText(rows, k, a), k, b) == WithText(rows, k, a + b)
    ensures RoomAt(first, rows, fin, k, |a + b|) ==>
              RoomAt(first, rows, fin, k, |a|) && RoomAt(first, WithText(rows, k, a), fin, k, |b|)
  {
    ExtendedTwice(rows[k], a, b, if k < |fin| then fin[k] else rows[k]);
    hide ExtendedBy, IsOpenText, Room;
  }

  // ---------- Closing strings and keys, attaching, numbers ----------

  // Closing a string writes the terminator and the length.
  lemma StoreCloseString(m: Store, k: nat, length: nat, buffer: Target)
    requires StoreOk(m) && TextAt(m, k, length, buffer) && m.rows[k].RStr?
    ensures k in m.nodes && m.nodes[k].kind.KString? && m.nodes[k].u.UString?
    ensures !m.first ==> Writable(m.blocks, buffer, length)
    ensures StoreOk(m.(
              nodes := m.nodes[k := m.nodes[k].(u := UString(length, m.nodes[k].u.ptr))],
              blocks := if m.first then m.blocks else Written(m.blocks, buffer, length, 0),
              rows := m.rows[k := StringClosed(m.rows[k])]))
  {
    var r := m.rows[k];
    if m.first {
      MeasuredSet(m.nodes, m.rows, k, StringClosed(r));
    } else {
      var chunk := m.blocks[k];
      assert BlockFits(chunk, r, m.fin[k]);
      TerminatorFitsString(chunk, r, m.fin[k]);
      FilledSet(m.nodes, m.blocks, m.rows, m.fin, k, StringClosed(r), WithByte(chunk, r, 0));
      assert m.nodes[k] == Node2(r, k, NextRef(k + 1, |m.fin|));
      hide Filled, BlockFits;
    }
  }

  // The node of an object after a key of the given length has been read.
  function KeyNode(first: bool, n: Node, length: nat): Node {
    if first && n.u.UBox? && n.u.values.Count? then n.(u := UBox(n.u.length, Count(n.u.values.n + length + 1)))
    else if !first && n.reserved.ObjectMem? then n.(reserved := ObjectMem(n.reserved.block, n.reserved.off + length + 1))
    else n
  }

  // In the second pass an object may take one more member.
  predicate MemberRoom(m: Store, k: nat) {
    k < |m.rows| && m.rows[k].RBox? &&
    (!m.first ==>
       k < |m.fin| && m.fin[k].RBox? && |m.rows[k].names| == |m.rows[k].kids| < |m.fin[k].kids|
       && Room(m.rows[k], m.fin[k], 0))
  }

  lemma KeyNodeFirst(n: Node, length: nat)
    requires n.u.UBox? && n.u.values.Count? && length + 1 < TWO_32
    ensures KeyNode(true, n, length) == n.(u := UBox(n.u.length, Count(n.u.values.n + U32(length + 1))))
  {
  }

  lemma KeyNodeSecond(n: Node, length: nat)
    requires n.reserved.ObjectMem? && length + 1 < TWO_32
    ensures KeyNode(false, n, length) == n.(reserved := ObjectMem(n.reserved.block, n.reserved.off + U32(length + 1)))
  {
  }

  lemma OpenKey(m: Store, k: nat, length: int, buffer: Target)
    requires TextAt(m, k, length, buffer) && m.rows[k].RBox?
    ensures |m.rows[k].cur| == 1 && length >= 0
  {
  }

  lemma StoreCloseKeyFirst(m: Store, k: nat, length: nat, buffer: Target)
    requires m.first && StoreOk(m) && TextAt(m, k, length, buffer) && m.rows[k].RBox?
    ensures k in m.nodes && m.nodes[k].kind.KObject? && m.nodes[k].u.UBox? && m.nodes[k].u.values.Count?
    ensures StoreOk(m.(nodes := m.nodes[k := KeyNode(true, m.nodes[k], length)],
                       rows := m.rows[k := KeyClosed(m.rows[k])]))
  {
    var r := m.rows[k];
    NameTotalSnoc(r.names, r.cur[0]);
    assert r.cur == [r.cur[0]];
    MeasuredSet(m.nodes, m.rows, k, KeyClosed(r));
    hide NameTotal;
  }

  // The object's block after a key has been terminated and recorded.
  function KeyBlock(chunk: Chunk, r: Row): Chunk
    requires chunk.ObjBlock? && r.RBox? && |r.names| < |chunk.members|
    requires NameTotal(r.names) + |CurBytes(r.cur)| < |chunk.names|
  {
    ObjBlock(
      chunk.members[|r.names| := chunk.members[|r.names|].(name := NameTotal(r.names))],
      chunk.names[NameTotal(r.names) + |CurBytes(r.cur)| := 0])
  }

  lemma KeyWritten(blocks: Blocks, k: nat, r: Row, cap: Row)
    requires k in blocks && BlockFits(blocks[k], r, cap) && r.RBox? && r.isObj && |r.cur| == 1
    requires Room(r, cap, 0) && |r.names| == |r.kids| < |cap.kids|
    ensures var t := NameTarget(k, NameTotal(r.names)); var n := |r.cur[0]|;
            && Writable(blocks, t, n) && HasSlot(Written(blocks, t, n, 0), k, |r.kids|)
            && blocks[k].ObjBlock? && |r.names| < |blocks[k].members|
            && NameTotal(r.names) + |CurBytes(r.cur)| < |blocks[k].names|
            && BlockFits(KeyBlock(blocks[k], r), KeyClosed(r), cap)
            && NamedSlot(Written(blocks, t, n, 0), k, |r.kids|, NameTotal(r.names)) == blocks[k := KeyBlock(blocks[k], r)]
  {
    KeyFits(blocks[k], r, cap);
    hide NameTotal;
  }

  lemma KeyNode2(r: Row, k: nat, next: Ref, length: nat)
    requires r.RBox? && r.isObj && |r.cur| == 1 && length == |r.cur[0]|
    ensures KeyNode(false, Node2(r, k, next), length) == Node2(KeyClosed(r), k, next)
  {
  }

  lemma StoreCloseKeySecond(m: Store, k: nat, length: nat, buffer: Target)
    requires !m.first && StoreOk(m) && TextAt(m, k, length, buffer) && m.rows[k].RBox? && MemberRoom(m, k)
    ensures k in m.nodes && m.nodes[k].kind.KObject? && m.nodes[k].u.UBox? && m.nodes[k].u.values == Block(k)
    ensures m.nodes[k].reserved == ObjectMem(k, NameTotal(m.rows[k].names))
    ensures Writable(m.blocks, buffer, length)
    ensures var blocks := Written(m.blocks, buffer, length, 0);
            && HasSlot(blocks, k, m.nodes[k].u.length)
            && StoreOk(m.(nodes := m.nodes[k := KeyNode(false, m.nodes[k], length)],
                          blocks := NamedSlot(blocks, k, m.nodes[k].u.length, m.nodes[k].reserved.off),
                          rows := m.rows[k := KeyClosed(m.rows[k])]))
            && NamesLaid(NamedSlot(blocks, k, m.nodes[k].u.length, m.nodes[k].reserved.off)[k], KeyClosed(m.rows[k]).names)
  {
    hide BlockFits, NameTotal, Room, AllClosed, AllBounded, Writable, Written, HasSlot, NamedSlot, KeyNode, KeyBlock,
         NamesLaid;
    var r, next := m.rows[k], NextRef(k + 1, |m.fin|);
    assert m.nodes[k] == Node2(r, k, next) && BlockFits(m.blocks[k], r, m.fin[k]);
    KeyWritten(m.blocks, k, r, m.fin[k]);
    KeyNode2(r, k, next, length);
    FitsLaid(KeyBlock(m.blocks[k], r), KeyClosed(r), m.fin[k]);
    FilledSet(m.nodes, m.blocks, m.rows, m.fin, k, KeyClosed(r), KeyBlock(m.blocks[k], r));
  }

  // Starting a key reads where the next name goes and writes nothing.
  lemma BegunKey(r: Row, k: nat, next: Ref, chunk: Chunk, cap: Row)
    requires r.RBox? && r.isObj && r.cur == []
    ensures Node1(r.(cur := [[]]), next) == Node1(r, next) && Node2(r.(cur := [[]]), k, next) == Node2(r, k, next)
    ensures Node1(r, next).kind.KObject? && Node2(r, k, next).kind.KObject?
    ensures Node2(r, k, next).reserved == ObjectMem(k, NameTotal(r.names))
    ensures BlockFits(chunk, r, cap) ==> BlockFits(chunk, r.(cur := [[]]), cap)
  {
  }

  lemma StoreBeginKey(m: Store, k: nat)
    requires StoreOk(m) && k < |m.rows| && m.rows[k].RBox? && m.rows[k].isObj && m.rows[k].cur == []
    ensures k in m.nodes && m.nodes[k].kind.KObject?
    ensures !m.first ==> m.nodes[k].reserved == ObjectMem(k, NameTotal(m.rows[k].names))
    ensures StoreOk(m.(rows := m.rows[k := m.rows[k].(cur := [[]])]))
  {
    hide BlockFits, NameTotal, Node1, Node2, AllClosed, AllBounded;
    var r, next := m.rows[k], NextRef(k + 1, if m.first then |m.rows| else |m.fin|);
    if m.first {
      BegunKey(r, k, next, StrBlock([]), r);
      MeasuredSet(m.nodes, m.rows, k, r.(cur := [[]]));
    } else {
      BegunKey(r, k, next, m.blocks[k], m.fin[k]);
      FilledSet(m.nodes, m.blocks, m.rows, m.fin, k, r.(cur := [[]]), m.blocks[k]);
      assert m.blocks[k := m.blocks[k]] == m.blocks;
    }
    SameNode(m.nodes, k);
  }

  // The row of the container t with one more child.
  function WithKid(rows: seq<Row>, t: nat, kid: nat): (r: seq<Row>)
    requires t < |rows| && rows[t].RBox?
    ensures |r| == |rows|
  {
    rows[t := rows[t].(kids := rows[t].kids + [kid])]
  }

  // Container t has room for one more child in the second pass.
  predicate KidRoom(m: Store, t: nat) {
    t < |m.rows| && m.rows[t].RBox? &&
    (!m.first ==> t < |m.fin| && m.fin[t].RBox? && |m.rows[t].kids| < |m.fin[t].kids|)
  }

  lemma KidWritten(blocks: Blocks, t: nat, r: Row, cap: Row, kid: nat)
    requires t in blocks && BlockFits(blocks[t], r, cap) && r.RBox? && cap.RBox? && |r.kids| < |cap.kids|
    ensures HasKidSlot(blocks, t, r.isObj, |r.kids|)
    ensures var blocks' := KidSlot(blocks, t, r.isObj, |r.kids|, Ref(kid));
            blocks' == blocks[t := blocks'[t]] && BlockFits(blocks'[t], r.(kids := r.kids + [kid]), cap)
  {
    hide NameTotal, Flat;
    KidFits(blocks[t], r, cap, kid);
  }

  lemma KidNode(r: Row, t: nat, next: Ref, kid: nat)
    requires r.RBox?
    ensures var n, r' := Node1(r, next), r.(kids := r.kids + [kid]);
            n.kind == BoxKind(r.isObj) && n.u.UBox? && n.u.length == |r.kids|
            && n.(u := UBox(n.u.length + 1, n.u.values)) == Node1(r', next)
    ensures var n, r' := Node2(r, t, next), r.(kids := r.kids + [kid]);
            n.kind == BoxKind(r.isObj) && n.u.UBox? && n.u.length == |r.kids| && n.u.values == Block(t)
            && n.(u := UBox(n.u.length + 1, n.u.values)) == Node2(r', t, next)
  {
    hide NameTotal;
  }

  lemma StoreAttach(m: Store, t: nat, kid: nat)
    requires StoreOk(m) && KidRoom(m, t)
    ensures t in m.nodes && m.nodes[t].kind == BoxKind(m.rows[t].isObj) && m.nodes[t].u.UBox?
    ensures m.nodes[t].u.length == |m.rows[t].kids|
    ensures !m.first ==> m.nodes[t].u.values == Block(t) && HasKidSlot(m.blocks, t, m.rows[t].isObj, m.nodes[t].u.length)
    ensures StoreOk(m.(
              nodes := m.nodes[t := m.nodes[t].(u := UBox(m.nodes[t].u.length + 1, m.nodes[t].u.values))],
              blocks := if m.first then m.blocks
                        else KidSlot(m.blocks, t, m.rows[t].isObj, m.nodes[t].u.length, Ref(kid)),
              rows := WithKid(m.rows, t, kid)))
  {
    hide Node1, Node2, BlockFits, NameTotal, AllClosed, AllBounded, HasKidSlot, KidSlot;
    var r, next := m.rows[t], NextRef(t + 1, if m.first then |m.rows| else |m.fin|);
    KidNode(r, t, next, kid);
    if m.first {
      MeasuredSet(m.nodes, m.rows, t, r.(kids := r.kids + [kid]));
    } else {
      KidWritten(m.blocks, t, r, m.fin[t], kid);
      var chunk := KidSlot(m.blocks, t, r.isObj, |r.kids|, Ref(kid))[t];
      FilledSet(m.nodes, m.blocks, m.rows, m.fin, t, r.(kids := r.kids + [kid]), chunk);
    }
  }

  // Changing a scalar's node in the first pass.
  lemma StoreScalar(m: Store, k: nat, s: Scalar, open: bool)
    requires m.first && StoreOk(m) && k < |m.rows| && m.rows[k].RScalar?
    ensures k in m.nodes && m.nodes[k].kind == ScalarKind(m.rows[k].s) && m.nodes[k].u == ScalarUnion(m.rows[k].s)
    ensures StoreOk(m.(nodes := m.nodes[k := m.nodes[k].(kind := ScalarKind(s), u := ScalarUnion(s))],
                       rows := m.rows[k := RScalar(m.rows[k].parent, s, open)]))
  {
  }

  // What the parser reads from the nodes of visited rows.
  lemma StoreNode(m: Store, k: nat)
    requires StoreOk(m) && k < |m.rows|
    ensures k in m.nodes && m.nodes[k].parent == m.rows[k].parent
    ensures match m.rows[k]
            case RBox(_, isObj, _, _, _) => m.nodes[k].kind == BoxKind(isObj)
            case RStr(_, _, _) => m.nodes[k].kind.KString? && m.nodes[k].u.UString?
                                  && (!m.first ==> m.nodes[k].u.ptr == Ref(k))
            case RScalar(_, s, _) => m.nodes[k].kind == ScalarKind(s) && m.nodes[k].u == ScalarUnion(s)
  {
  }
}
