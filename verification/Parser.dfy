/**
 json_parse_ex: one loop over the bytes, driven by flags, run twice. The first pass creates the chain
 of nodes and measures; the second fills them. Every method below is tied to the pushdown machine:
 the flags, the pointers and the memory are functions of the machine's state.
 */
module Parser {
  import opened Text
  import opened Escape
  import opened Numbers
  import opened Grammar
  import opened Machine
  import opened Soundness
  import opened Completeness
  import opened Table
  import opened Skip
  import opened Memory
  import opened Layout
  import opened Representation
  import opened Built
  import opened Requests
  import opened Spelling
  import opened Rfc
  import opened Reading

  // How a piece of the loop body ends: with continue, at the bottom of the body, with the break that
  // leaves the loop, or at one of the failure labels.
  datatype Flow = Loop | ToBottom | Leave | Fail | NoMemory

  // What arrives at the bottom of the loop body: nothing but a byte to process again, or a complete
  // value to attach.
  datatype Pend = NoValue(z: State) | Value(s: Stack, pre: Bytes, v: Cst)

  datatype ParseResult = Parsed(root: Ref) | SyntaxError | OutOfMemory

  class Parser {
    const text: Bytes
    const heap: Heap
    var firstPass: bool
    var flags: Flags
    var num: NumFlags
    var i: int
    var top: Ref
    var root: Ref
    var alloc: Ref
    var buffer: Target
    var stringLength: int
    var numDigits: nat
    var numE: int
    var numFraction: int
    // The table of the nodes met in this pass, and the table of the whole text
    // once the first pass has accepted it.
    ghost var rows: seq<Row>
    ghost var fin: seq<Row>

    constructor (text: Bytes, heap: Heap)
      ensures this.text == text && this.heap == heap
    {
      this.text, this.heap := text, heap;
      firstPass, flags, num, i := true, CLEAR, NUM_CLEAR, 0;
      top, root, alloc, buffer, stringLength := NoRef, NoRef, NoRef, NoTarget, 0;
      numDigits, numE, numFraction := 0, 0, 0;
      rows, fin := [], [];
    }

    ghost function Mem(): Store
      reads this, heap
    {
      Store(firstPass, heap.nodes, heap.blocks, heap.nextNode, root, alloc, rows, fin)
    }

    ghost predicate MemOk()
      reads this, heap
    {
      Solvent() && StoreOk(Mem())
    }

    ghost predicate Cleanable()
      reads this, heap
    {
      StoreCleanable(Mem())
    }

    ghost predicate Writing(k: nat)
      reads this, heap
    {
      TextAt(Mem(), k, stringLength, buffer)
    }

    ghost function Regs(): Registers
      reads this
    {
      Registers(flags, num, top, buffer, stringLength, numDigits, numE, numFraction)
    }

    // So far all requests have been granted, and they are those of the nodes visited.
    ghost predicate Solvent()
      reads this, heap
    {
      heap.Budget() && !heap.refused && heap.granted == Asked(firstPass, |rows|, fin)
    }

    // The next request has been refused.
    ghost predicate Starved()
      reads this, heap
    {
      && heap.Budget() && heap.refused
      && (if firstPass then
            Cleanable() && heap.granted == Asked(true, |rows|, fin) && heap.denied == SIZEOF_NODE
          else
            heap.granted + [heap.denied] <= Asked(false, |fin|, fin))
    }

    ghost predicate AtByte(z: State)
      reads this, heap
    {
      Solvent() && Current(text, i, Regs(), Mem(), z)
    }

    // How a piece of the loop body that started at i0 in state z may end, short of the bottom.
    ghost predicate Outcome(flow: Flow, i0: nat, z: State, z': State)
      reads this, heap
    {
      match flow
      case Loop => Solvent() && Moved(text, i0, z, i + 1, Regs(), Mem(), z')
      case ToBottom => true
      case Leave => Solvent() && i0 <= |text| && Step(text, i0, z).Accept? && Represents(Regs(), Mem(), z)
      case Fail => Solvent() && Failed(text, i0, z, Mem())
      case NoMemory => Starved() && (firstPass ==> Wanted(text, i0, z, |rows|))
    }

    // ---------- new_value ----------

    method NewValue(kind: Kind) returns (ok: bool)
      requires MemOk()
      requires NewRoom(Mem(), kind, top)
      modifies this`top, this`root, this`alloc, this`rows
      modifies heap`nodes, heap`blocks, heap`nextNode, heap`used, heap`calls, heap`granted, heap`refused, heap`denied
      ensures ok ==> MemOk() && top == Ref(|old(rows)|)
      ensures ok ==> rows == old(rows) + [if !firstPass && fin[|old(rows)|].RScalar?
                                          then fin[|old(rows)|] else ZeroRow(kind, old(top))]
      ensures !ok ==> Starved() && (firstPass ==> rows == old(rows))
    {
      if firstPass {
        ok := FirstNewValue(kind);
      } else {
        ok := SecondNewValue(kind);
      }
    }

    method FirstNewValue(kind: Kind) returns (ok: bool)
      requires MemOk() && firstPass
      modifies this`top, this`root, this`alloc, this`rows
      modifies heap`nodes, heap`nextNode, heap`used, heap`calls, heap`granted, heap`refused, heap`denied
      ensures ok ==> MemOk() && top == Ref(|old(rows)|) && rows == old(rows) + [ZeroRow(kind, old(top))]
      ensures !ok ==> Starved() && rows == old(rows)
    {
      hide StoreOk, StoreCleanable, Linked, ZeroRow, ZeroUnion, NodeRequests;
      StoreAppend(Mem(), kind, top);
      AskedNode(|rows|, fin);
      var value := Ref(heap.nextNode);
      ok := heap.AppendNode(alloc, top, kind);
      if ok {
        if root.NoRef? {
          root := value;
        }
        rows := rows + [ZeroRow(kind, top)];
        alloc, top := value, value;
      }
    }

    method SecondNewValue(kind: Kind) returns (ok: bool)
      requires MemOk() && !firstPass
      requires |rows| < |fin| && RowLe(ZeroRow(kind, top), fin[|rows|])
      modifies this`top, this`root, this`alloc, this`rows
      modifies heap`nodes, heap`blocks, heap`used, heap`calls, heap`granted, heap`refused, heap`denied
      ensures ok ==> MemOk() && top == Ref(|old(rows)|)
      ensures ok ==> rows == old(rows) + [if fin[|old(rows)|].RScalar? then fin[|old(rows)|] else ZeroRow(kind, old(top))]
      ensures !ok ==> Starved()
    {
      hide StoreOk, ZeroRow, Poppable, PoppedNodes, PoppedBlocks, PoppedSizes, RowSizes, Asked, Heap.Budget;
      StorePop(Mem(), kind, top);
      AskedNext(|rows|, fin);
      BlockWithin(|rows|, fin);
      ghost var row := if fin[|rows|].RScalar? then fin[|rows|] else ZeroRow(kind, top);
      top := alloc;
      alloc := heap.nodes[top.addr].reserved.next;
      if root.NoRef? {
        root := top;
      }
      ok := heap.PlaceBlock(top.addr);
      rows := rows + [row];
    }

    // ---------- Strings and keys ----------

    // string_add
    method StringAdd(b: Byte, ghost k: nat)
      requires MemOk() && Writing(k) && RoomAt(firstPass, rows, fin, k, 1) && 0 <= stringLength && stringLength + 1 < TWO_32
      modifies this`stringLength, this`rows, heap`blocks
      ensures MemOk() && Writing(k) && stringLength == old(stringLength) + 1
      ensures rows == WithText(old(rows), k, [b])
    {
      hide StoreOk, TextAt, RoomAt, Writable, Written, WithText, IsOpenText, Asked, Heap.Budget;
      StoreByte(Mem(), k, stringLength, buffer, b);
      rows := WithText(rows, k, [b]);
      if !firstPass {
        heap.Write(buffer, stringLength, b);
      }
      stringLength := U32(stringLength + 1);
    }

    // The first pass counts the bytes of a unit; the second writes them.
    method CountBytes(n: nat, ghost bs: Bytes, ghost k: nat)
      requires firstPass && MemOk() && Writing(k) && 0 <= stringLength && stringLength + n < TWO_32 && n == |bs|
      modifies this`stringLength, this`rows
      ensures MemOk() && Writing(k) && stringLength == old(stringLength) + n
      ensures rows == WithText(old(rows), k, bs)
    {
      hide StoreOk, TextAt, WithText, IsOpenText, Asked, Heap.Budget;
      StoreCount(Mem(), k, stringLength, buffer, bs);
      rows := WithText(rows, k, bs);
      stringLength := U32(stringLength + n);
    }

    method AddThreeBytes(c1: bv8, c2: bv8, c3: bv8, ghost k: nat)
      requires MemOk() && Writing(k) && RoomAt(firstPass, rows, fin, k, 3) && 0 <= stringLength && stringLength + 3 < TWO_32
      modifies this`stringLength, this`rows, heap`blocks
      ensures MemOk() && Writing(k) && stringLength == old(stringLength) + 3
      ensures rows == WithText(old(rows), k, ToBytes([c1, c2, c3]))
    {
      TwoBytes(c1, c2);
      ThreeBytes(c1, c2, c3);
      assert ToBytes([c1, c2]) + [c3 as int] == ToBytes([c1, c2, c3]);
      hide StoreOk, TextAt, WithText, RoomAt, ToBytes, IsOpenText, Asked, Heap.Budget;
      TextTwice(firstPass, rows, fin, k, ToBytes([c1, c2]), [c3 as int]);
      if firstPass {
        CountBytes(3, ToBytes([c1, c2, c3]), k);
      } else {
        AddBytes(c1, c2, k);
        StringAdd(c3 as int, k);
      }
    }

    method AddBytes(c1: bv8, c2: bv8, ghost k: nat)
      requires MemOk() && Writing(k) && RoomAt(firstPass, rows, fin, k, 2) && 0 <= stringLength && stringLength + 2 < TWO_32
      modifies this`stringLength, this`rows, heap`blocks
      ensures MemOk() && Writing(k) && stringLength == old(stringLength) + 2
      ensures rows == WithText(old(rows), k, ToBytes([c1, c2]))
    {
      TwoBytes(c1, c2);
      assert [c1 as int] + [c2 as int] == ToBytes([c1, c2]);
      hide StoreOk, TextAt, WithText, RoomAt, ToBytes, IsOpenText, Asked, Heap.Budget;
      TextTwice(firstPass, rows, fin, k, [c1 as int], [c2 as int]);
      if firstPass {
        CountBytes(2, ToBytes([c1, c2]), k);
      } else {
        StringAdd(c1 as int, k);
        StringAdd(c2 as int, k);
      }
    }

    // The bytes of a code unit, as its two halves are laid out.
    method AddUnit(b1: bv8, b2: bv8, ghost k: nat)
      requires MemOk() && Writing(k) && RoomAt(firstPass, rows, fin, k, |EncodeUnit(b1, b2)|)
      requires 0 <= stringLength && stringLength + 3 < TWO_32
      modifies this`stringLength, this`rows, heap`blocks
      ensures MemOk() && Writing(k) && stringLength == old(stringLength) + |EncodeUnit(b1, b2)|
      ensures rows == WithText(old(rows), k, ToBytes(EncodeUnit(b1, b2)))
    {
      hide StoreOk, TextAt, WithText, RoomAt, ToBytes, IsOpenText, CodeUnit, Asked, Heap.Budget;
      if b1 == 0 && b2 <= 0x7F {
        OneByte(b2);
        StringAdd(b2 as int, k);
      } else if CodeUnit(b1, b2) <= 0x7FF {
        AddBytes(0xC0 | ((b2 & 0xC0) >> 6) | ((b1 & 0x7) << 2), 0x80 | (b2 & 0x3F), k);
      } else {
        AddThreeBytes(0xE0 | ((b1 & 0xF0) >> 4), 0x80 | ((b1 & 0xF) << 2) | ((b2 & 0xC0) >> 6), 0x80 | (b2 & 0x3F), k);
      }
    }

    // hex_value (*++ i)
    method NextHex() returns (h: bv8)
      requires 0 <= i < |text|
      modifies this`i
      ensures i == old(i) + 1 && h == HexValue(At(text, i))
      ensures h != NOT_HEX <==> IsHex(At(text, i))
      ensures h != NOT_HEX ==> i < |text|
    {
      i := i + 1;
      h := HexValue(At(text, i));
      HexValueIsNibble(At(text, i));
    }

    method FourHex() returns (ok: bool, h1: bv8, h2: bv8, h3: bv8, h4: bv8)
      requires 0 <= i < |text|
      modifies this`i
      ensures ok <==> HexAt(text, old(i) + 1)
      ensures ok ==> i == old(i) + 4
                     && h1 == HexValue(text[i - 3]) && h2 == HexValue(text[i - 2])
                     && h3 == HexValue(text[i - 1]) && h4 == HexValue(text[i])
    {
      hide HexValue, Asked, Heap.Budget;
      ok, h2, h3, h4 := false, 0, 0, 0;
      h1 := NextHex();
      if h1 == NOT_HEX { return; }
      h2 := NextHex();
      if h2 == NOT_HEX { return; }
      h3 := NextHex();
      if h3 == NOT_HEX { return; }
      h4 := NextHex();
      ok := h4 != NOT_HEX;
    }

    method UnicodeEscape(ghost z: State) returns (flow: Flow, ghost z': State)
      requires AtByte(z) && z.mode.InStr? && z.mode.escaped && At(text, i) == LOWER_U
      modifies this`i, this`flags, this`stringLength, this`rows, heap`blocks
      ensures flow.Loop? || flow.Fail?
      ensures Outcome(flow, old(i), z, z')
    {
      hide Current, Moved, Failed, StoreOk, TextAt, RoomAt, WithText, WithItem, IsOpenText, Step, HexAt, HexValue,
           StrLength, TextIndex, EncodeUnit, ToBytes, Asked, Heap.Budget;
      ghost var i0, r0, m0 := i, Regs(), Mem();
      z' := z;
      TextReady(text, i, r0, m0, z);
      ghost var k := TextIndex(z);
      StepUni(text, i, z);
      flags := flags.(escaped := false);
      var ok, h1, h2, h3, h4 := FourHex();
      if !ok {
        FailHere(text, i0, r0, m0, z);
        return Fail, z;
      }
      ghost var it := Uni(text[i0 + 1], text[i0 + 2], text[i0 + 3], text[i0 + 4]);
      TextRoom(text, i0, r0, m0, z, it);
      AddUnit(ByteOf(h1, h2), ByteOf(h3, h4), k);
      z' := WithItem(z, it);
      TextDone(text, i0, r0, m0, z, it, i + 1, Regs(), Mem());
      flow := Loop;
    }

    // One byte after a backslash.
    method EscapedByte(b: Byte, ghost z: State) returns (flow: Flow, ghost z': State)
      requires AtByte(z) && z.mode.InStr? && z.mode.escaped && b == At(text, i) && b != 0
      modifies this`i, this`flags, this`stringLength, this`rows, heap`blocks
      ensures flow.Loop? || flow.Fail?
      ensures Outcome(flow, old(i), z, z')
    {
      hide Current, Moved, Failed, StoreOk, TextAt, RoomAt, WithText, WithItem, IsOpenText, Step, StrLength,
           TextIndex, Asked, Heap.Budget;
      if b == LOWER_U {
        flow, z' := UnicodeEscape(z);
        return;
      }
      ghost var r0, m0 := Regs(), Mem();
      TextReady(text, i, r0, m0, z);
      ghost var it := Esc(b);
      StepEsc(text, i, z);
      TextRoom(text, i, r0, m0, z, it);
      flags := flags.(escaped := false);
      var c := b;
      if b == LOWER_B {
        c := 0x08;
      } else if b == LOWER_F {
        c := 0x0C;
      } else if b == LOWER_N {
        c := 0x0A;
      } else if b == LOWER_R {
        c := 0x0D;
      } else if b == LOWER_T {
        c := 0x09;
      }
      StringAdd(c, TextIndex(z));
      z' := WithItem(z, it);
      TextDone(text, i, r0, m0, z, it, i + 1, Regs(), Mem());
      flow := Loop;
    }

    // The object's node takes note of a key: in the first pass of its length, in the second of where it is.
    method RecordKey(ghost k: nat)
      requires MemOk() && Writing(k) && top == Ref(k) && rows[k].RBox? && MemberRoom(Mem(), k) && stringLength + 1 < TWO_32
      modifies this`rows, heap`nodes, heap`blocks
      ensures MemOk() && |old(rows)[k].cur| == 1 && rows == old(rows)[k := KeyClosed(old(rows)[k])]
    {
      hide StoreOk, TextAt, KeyClosed, MemberRoom, Writable, Written, HasSlot, NamedSlot, KeyNode, Asked, Heap.Budget;
      ghost var m0 := Mem();
      OpenKey(m0, k, stringLength, buffer);
      if firstPass {
        StoreCloseKeyFirst(m0, k, stringLength, buffer);
        KeyNodeFirst(heap.nodes[top.addr], stringLength);
        var n := heap.nodes[top.addr];
        heap.nodes := heap.nodes[top.addr := n.(u := UBox(n.u.length, Count(n.u.values.n + U32(stringLength + 1))))];
      } else {
        StoreCloseKeySecond(m0, k, stringLength, buffer);
        KeyNodeSecond(heap.nodes[top.addr], stringLength);
        heap.Write(buffer, stringLength, 0);
        var n := heap.nodes[top.addr];
        heap.NameMember(n.u.values.a, n.u.length, n.reserved.off);
        var mem := ObjectMem(n.reserved.block, n.reserved.off + U32(stringLength + 1));
        heap.nodes := heap.nodes[top.addr := n.(reserved := mem)];
      }
      rows := rows[k := KeyClosed(rows[k])];
    }

    // The quote that ends a key.
    method CloseKey(ghost z: State) returns (ghost z': State)
      requires AtByte(z) && z.mode.InStr? && z.mode.isKey && !z.mode.escaped && At(text, i) == QUOTE
      requires StrLength(z.mode.items) <= UINT_LIMIT
      modifies this`flags, this`buffer, this`rows, heap`nodes, heap`blocks
      ensures Outcome(Loop, i, z, z')
    {
      hide Current, Moved, Failed, StoreOk, TextAt, KeyClosed, KeyEnd, Step, StrLength, TextIndex, MemberRoom, Asked,
           Heap.Budget;
      ghost var r0, m0 := Regs(), Mem();
      TextReady(text, i, r0, m0, z);
      TextTop(text, i, r0, m0, z);
      StepQuote(text, i, z);
      flags := flags.(inString := false);
      RecordKey(TextIndex(z));
      buffer := NoTarget;
      flags := flags.(seekValue := true, needColon := true);
      z' := KeyEnd(z);
      KeyDone(text, i, r0, m0, z, Regs(), Mem());
    }

    // The string's node takes its length; in the second pass the terminator follows the bytes.
    method RecordString(ghost k: nat)
      requires MemOk() && Writing(k) && top == Ref(k) && rows[k].RStr? && stringLength >= 0
      modifies this`rows, heap`nodes, heap`blocks
      ensures MemOk() && rows == old(rows)[k := StringClosed(old(rows)[k])]
    {
      hide StoreOk, TextAt, StringClosed, Writable, Written, IsOpenText, Asked, Heap.Budget;
      StoreCloseString(Mem(), k, stringLength, buffer);
      if !firstPass {
        heap.Write(buffer, stringLength, 0);
      }
      var n := heap.nodes[top.addr];
      heap.nodes := heap.nodes[top.addr := n.(u := UString(stringLength, n.u.ptr))];
      rows := rows[k := StringClosed(rows[k])];
    }

    // The quote that ends a string value.
    method CloseString(ghost z: State)
      requires AtByte(z) && z.mode.InStr? && !z.mode.isKey && !z.mode.escaped && At(text, i) == QUOTE
      requires StrLength(z.mode.items) <= UINT_LIMIT
      modifies this`flags, this`buffer, this`rows, heap`nodes, heap`blocks
      ensures Solvent() && Pending(text, i, z, i + 1, Regs(), Mem(), z.stack, z.mode.ws, Str(z.mode.items))
      ensures !flags.reproc
    {
      hide Current, Pending, StoreOk, TextAt, Step, StrLength, TextIndex, StringClosed, IsOpenText, Asked,
           Heap.Budget;
      ghost var r0, m0 := Regs(), Mem();
      TextReady(text, i, r0, m0, z);
      TextTop(text, i, r0, m0, z);
      StepQuote(text, i, z);
      RecordString(TextIndex(z));
      flags := flags.(inString := false);
      buffer := NoTarget;
      flags := flags.(next := true);
      StringDone(text, i, r0, m0, z, Regs(), Mem());
    }

    // A byte inside a string or key.
    method StringByte(b: Byte, ghost z: State) returns (flow: Flow, ghost z': State)
      requires AtByte(z) && z.mode.InStr? && b == At(text, i)
      modifies this`i, this`flags, this`buffer, this`stringLength, this`rows, heap`nodes, heap`blocks
      ensures flow.Loop? || flow.Fail? || flow.ToBottom?
      ensures Outcome(flow, old(i), z, z')
      ensures flow.ToBottom? ==>
                && !flags.reproc && Solvent()
                && Pending(text, old(i), z, i + 1, Regs(), Mem(), z.stack, z.mode.ws, Str(z.mode.items))
    {
      hide Current, Moved, Failed, Pending, StoreOk, TextAt, RoomAt, WithText, WithItem, IsOpenText, Step, StrLength,
           TextIndex, Asked, Heap.Budget;
      ghost var r0, m0 := Regs(), Mem();
      z' := z;
      TextReady(text, i, r0, m0, z);
      StepLimits(text, i, z);
      if b == 0 {
        FailHere(text, i, r0, m0, z);
        return Fail, z;
      }
      if stringLength > UINT_LIMIT {
        FailHere(text, i, r0, m0, z);
        return Fail, z;
      }
      if flags.escaped {
        flow, z' := EscapedByte(b, z);
      } else if b == BACKSLASH {
        flags := flags.(escaped := true);
        z' := z.(mode := z.mode.(escaped := true));
        BackslashDone(text, i, r0, m0, z);
        flow := Loop;
      } else if b == QUOTE {
        TextTop(text, i, r0, m0, z);
        StoreNode(m0, TextIndex(z));
        if heap.nodes[top.addr].kind.KString? {
          CloseString(z);
          flow := ToBottom;
        } else {
          z' := CloseKey(z);
          flow := Loop;
        }
      } else {
        ghost var it := Raw(b);
        StepRaw(text, i, z);
        TextRoom(text, i, r0, m0, z, it);
        StringAdd(b, TextIndex(z));
        z' := WithItem(z, it);
        TextDone(text, i, r0, m0, z, it, i + 1, Regs(), Mem());
        flow := Loop;
      }
    }

    // ---------- Starting values ----------

    // The byte at i starts a value; flag_seek_value is already off.
    ghost predicate Starting(z: State)
      reads this, heap
    {
      Solvent() && Current(text, i, Regs().(flags := FlagsOf(z)), Mem(), z)
      && z.mode.Seek? && Ready(z.stack) && AllAwaiting(z.stack) && flags == CLEAR
    }

    method OpenBox(isObj: bool, ghost z: State) returns (flow: Flow, ghost z': State)
      requires Starting(z) && At(text, i) == Opener(isObj)
      modifies this`flags, this`top, this`root, this`alloc, this`rows
      modifies heap`nodes, heap`blocks, heap`nextNode, heap`used, heap`calls, heap`granted, heap`refused, heap`denied
      ensures flow.Loop? || flow.NoMemory?
      ensures Outcome(flow, i, z, z')
    {
      hide Current, Moved, Failed, StoreOk, Step, ZeroRow, NewRoom, Fresh, Ready, AllAwaiting, Asked, Heap.Budget,
           Wanted;
      ghost var r0, m0 := Regs().(flags := FlagsOf(z)), Mem();
      z' := Opened(z, isObj);
      BoxReady(text, i, r0, m0, z, isObj);
      var ok := NewValue(BoxKind(isObj));
      if !ok {
        return NoMemory, z;
      }
      if !isObj {
        flags := flags.(seekValue := true);
      }
      BoxDone(text, i, r0, m0, z, isObj, Regs(), Mem());
      flow := Loop;
    }

    // string = top->u.string.ptr
    method StartBuffer(ghost k: nat, ghost parent: Ref)
      requires MemOk() && top == Ref(k) && k < |rows| && rows[k] == ZeroRow(KString, parent)
      modifies this`buffer, this`stringLength
      ensures stringLength == 0 && (!firstPass ==> buffer == StrTarget(k))
    {
      hide StoreOk, ZeroRow, Asked, Heap.Budget;
      StringNode(Mem(), k, parent);
      buffer := match heap.nodes[top.addr].u.ptr case Ref(b) => StrTarget(b) case NoRef => NoTarget;
      stringLength := 0;
    }

    method OpenString(ghost z: State) returns (flow: Flow, ghost z': State)
      requires Starting(z) && At(text, i) == QUOTE
      modifies this`flags, this`top, this`root, this`alloc, this`rows, this`buffer, this`stringLength
      modifies heap`nodes, heap`blocks, heap`nextNode, heap`used, heap`calls, heap`granted, heap`refused, heap`denied
      ensures flow.Loop? || flow.NoMemory?
      ensures Outcome(flow, i, z, z')
    {
      hide Current, Moved, Failed, StoreOk, StoreCleanable, Step, NewRoom, Ready, AllAwaiting, ZeroRow, FlagsOf,
           StringOpened, Represents, Asked, Heap.Budget, Wanted;
      ghost var r0, m0 := Regs().(flags := FlagsOf(z)), Mem();
      z' := StringOpened(z);
      StringReady(text, i, r0, m0, z);
      var ok := NewValue(KString);
      if !ok {
        return NoMemory, z;
      }
      flags := flags.(inString := true);
      StartBuffer(|m0.rows|, r0.top);
      StringStartDone(text, i, r0, m0, z, Regs(), Mem());
      flow := Loop;
    }

    method ThreeFollow(c1: Byte, c2: Byte, c3: Byte) returns (ok: bool)
      requires 0 <= i < |text| && c1 != 0 && c2 != 0 && c3 != 0
      modifies this`i
      ensures ok <==> Matches(text, old(i) + 1, [c1, c2, c3])
      ensures ok ==> i == old(i) + 3 < |text|
    {
      ok := false;
      if |text| - i < 3 { return; }
      i := i + 1;
      if At(text, i) != c1 { return; }
      i := i + 1;
      if At(text, i) != c2 { return; }
      i := i + 1;
      ok := At(text, i) == c3;
    }

    method FourFollow(c1: Byte, c2: Byte, c3: Byte, c4: Byte) returns (ok: bool)
      requires 0 <= i < |text| && c1 != 0 && c2 != 0 && c3 != 0 && c4 != 0
      modifies this`i
      ensures ok <==> Matches(text, old(i) + 1, [c1, c2, c3, c4])
      ensures ok ==> i == old(i) + 4 < |text|
    {
      ok := false;
      if |text| - i < 4 { return; }
      i := i + 1;
      if At(text, i) != c1 { return; }
      i := i + 1;
      if At(text, i) != c2 { return; }
      i := i + 1;
      if At(text, i) != c3 { return; }
      i := i + 1;
      ok := At(text, i) == c4;
    }

    // The letters of a literal after its first.
    method MatchLiteral(v: Cst) returns (ok: bool)
      requires 0 <= i < |text| && IsLiteral(v) && text[i] == LiteralWord(v)[0]
      modifies this`i
      ensures ok <==> Matches(text, old(i), LiteralWord(v))
      ensures ok ==> i == old(i) + |LiteralWord(v)| - 1 < |text|
    {
      WordAt(text, i, LiteralWord(v));
      hide Matches, Asked, Heap.Budget;
      if v.True? {
        ok := ThreeFollow(0x72, 0x75, 0x65);
      } else if v.False? {
        ok := FourFollow(0x61, 0x6C, 0x73, 0x65);
      } else {
        ok := ThreeFollow(0x75, 0x6C, 0x6C);
      }
    }

    method Literal(v: Cst, ghost z: State) returns (flow: Flow)
      requires Starting(z) && IsLiteral(v) && At(text, i) == LiteralWord(v)[0]
      modifies this`i, this`flags, this`top, this`root, this`alloc, this`rows
      modifies heap`nodes, heap`blocks, heap`nextNode, heap`used, heap`calls, heap`granted, heap`refused, heap`denied
      ensures flow.ToBottom? || flow.Fail? || flow.NoMemory?
      ensures Outcome(flow, old(i), z, z)
      ensures flow.ToBottom? ==>
                !flags.reproc && Solvent() && Pending(text, old(i), z, i + 1, Regs(), Mem(), z.stack, z.mode.ws, v)
    {
      hide Current, Moved, Failed, Pending, StoreOk, Step, NewRoom, Ready, AllAwaiting, Complete, Detached, Matches,
           LiteralWord, FlagsOf, ScalarOf, ZeroRow, Asked, Heap.Budget, Wanted;
      ghost var i0, r0, m0 := i, Regs().(flags := FlagsOf(z)), Mem();
      LiteralStep(text, i, z, v);
      LiteralStarts(text, i, v);
      var ok := MatchLiteral(v);
      if !ok {
        FailHere(text, i0, r0, m0, z);
        return Fail;
      }
      LiteralReady(text, i0, r0, m0, z, v);
      LiteralWanted(text, i0, r0, m0, z, v);
      ok := NewLiteral(v);
      if !ok {
        return NoMemory;
      }
      flags := flags.(next := true);
      LiteralDone(text, i0, r0, m0, z, v, Regs(), Mem());
      flow := ToBottom;
    }

    // The node of a literal.
    method NewLiteral(v: Cst) returns (ok: bool)
      requires MemOk() && NewRoom(Mem(), LiteralKind(v), top) && IsLiteral(v)
      requires !firstPass ==> fin[|rows|] == RScalar(top, ScalarOf(v), false)
      modifies this`top, this`root, this`alloc, this`rows
      modifies heap`nodes, heap`blocks, heap`nextNode, heap`used, heap`calls, heap`granted, heap`refused, heap`denied
      ensures ok ==> MemOk() && top == Ref(|old(rows)|) && rows == old(rows) + [RScalar(old(top), ScalarOf(v), false)]
      ensures !ok ==> Starved() && (firstPass ==> rows == old(rows))
    {
      hide StoreOk, StoreCleanable, NewRoom, ScalarOf, ZeroRow, IsLiteral, Asked, Heap.Budget;
      ghost var parent, k := top, |rows|;
      ok := NewValue(LiteralKind(v));
      if ok {
        LiteralNode(Mem(), k, parent, v);
        if v.True? {
          heap.nodes := heap.nodes[top.addr := heap.nodes[top.addr].(u := UBool(true))];
        }
        rows := rows[k := RScalar(parent, ScalarOf(v), false)];
      }
    }

    method ClearNumber(negative: bool)
      modifies this`num, this`numDigits, this`numFraction, this`numE
      ensures Regs() == old(Regs()).(num := NUM_CLEAR.(negative := negative), numDigits := 0, numFraction := 0, numE := 0)
    {
      num := NUM_CLEAR.(negative := negative);
      numDigits, numFraction, numE := 0, 0, 0;
    }

    method NewNumber(b: Byte, ghost z: State) returns (ok: bool, ghost z': State)
      requires Starting(z) && firstPass && b == At(text, i) && (b == MINUS || IsDigit(b))
      modifies this`num, this`numDigits, this`numFraction, this`numE, this`top, this`root, this`alloc, this`rows
      modifies heap`nodes, heap`blocks, heap`nextNode, heap`used, heap`calls, heap`granted, heap`refused, heap`denied
      ensures !ok ==> Outcome(NoMemory, i, z, z')
      ensures ok ==> Solvent() && Moved(text, i, z, if b == MINUS then i + 1 else i, Regs(), Mem(), z')
    {
      hide Current, Moved, Failed, StoreOk, StoreCleanable, Step, NewRoom, Ready, AllAwaiting, Represents, FlagsOf,
           ZeroRow, NumState, IsDigit, At, Inv, Asked, Heap.Budget, Wanted;
      ghost var r0, m0 := Regs().(flags := FlagsOf(z)), Mem();
      NumStart(text, i, z);
      z' := NumState(z.stack, z.mode.ws, NumTok(b == MINUS, [], None, None));
      CurrentStore(text, i, r0, m0, z);
      FirstHasRoom(m0, KInteger, top);
      NumStartWanted(text, i, r0, m0, z);
      ok := NewValue(KInteger);
      if ok {
        ClearNumber(b == MINUS);
        NumStartDone(text, i, r0, m0, z, Regs(), Mem());
      }
    }

    // In the first pass a number starts here and is read byte by byte: again
    // from this byte, unless it is the sign.
    method FirstNumber(b: Byte, ghost z: State) returns (flow: Flow, ghost z': State)
      requires Starting(z) && firstPass && b == At(text, i) && (b == MINUS || IsDigit(b))
      modifies this`flags, this`num, this`numDigits, this`numFraction, this`numE
      modifies this`top, this`root, this`alloc, this`rows
      modifies heap`nodes, heap`blocks, heap`nextNode, heap`used, heap`calls, heap`granted, heap`refused, heap`denied
      ensures flow.ToBottom? || flow.Loop? || flow.NoMemory?
      ensures Outcome(flow, i, z, z')
      ensures flow.ToBottom? ==>
                Solvent() && flags == CLEAR.(reproc := true) && Moved(text, i, z, i, Regs().(flags := CLEAR), Mem(), z')
    {
      hide Current, Moved, Failed, Represents, FlagsOf, Ready, AllAwaiting, StoreOk, Asked, Heap.Budget, Wanted;
      var ok;
      ok, z' := NewNumber(b, z);
      if !ok {
        flow := NoMemory;
      } else if b != MINUS {
        flags := flags.(reproc := true);
        flow := ToBottom;
      } else {
        flow := Loop;
      }
    }

    // The second pass skips the number; its node holds the value already.
    method SecondNumber(b: Byte, ghost z: State) returns (flow: Flow, ghost tok: NumTok)
      requires Starting(z) && !firstPass && b == At(text, i) && (b == MINUS || IsDigit(b))
      modifies this`i, this`flags, this`top, this`root, this`alloc, this`rows
      modifies heap`nodes, heap`blocks, heap`nextNode, heap`used, heap`calls, heap`granted, heap`refused, heap`denied
      ensures flow.ToBottom? || flow.NoMemory?
      ensures Outcome(flow, old(i), z, z)
      ensures flow.ToBottom? ==>
                flags.reproc && Solvent() && Pending(text, old(i), z, i, Regs(), Mem(), z.stack, z.mode.ws, Num(tok))
    {
      hide Current, Moved, Failed, Pending, StoreOk, Step, NewRoom, Ready, AllAwaiting, Skipped, Detached, ScalarOf,
           Asked, Heap.Budget, Wanted;
      ghost var i0, r0, m0 := i, Regs().(flags := FlagsOf(z)), Mem();
      tok := NumSkipRun(text, i, r0, m0, z);
      CurrentRepresents(text, i, r0, m0, z);
      NumSkipReady(text, i, r0, m0, z, tok);
      var ok := NewValue(KInteger);
      if !ok {
        return NoMemory, tok;
      }
      SkipNumber(b);
      flags := flags.(next := true, reproc := true);
      NumSkipDone(text, i0, r0, m0, z, tok, Regs(), Mem());
      flow := ToBottom;
    }

    method SkipNumber(first: Byte)
      requires 0 <= i <= |text| && first == At(text, i)
      modifies this`i
      ensures i == SkipEnd(text, old(i))
    {
      var b := first;
      while IsNumberByte(b)
        invariant 0 <= i <= |text| && b == At(text, i) && SkipEnd(text, i) == SkipEnd(text, old(i))
        decreases |text| - i
      {
        i := i + 1;
        if i == |text| {
          b := 0;
          break;
        }
        b := text[i];
      }
    }

    // ---------- The branches of the loop body ----------

    ghost predicate AtBottom(i0: nat, z: State, p: Pend)
      reads this, heap
    {
      && Solvent()
      && match p
         case NoValue(z') => flags == CLEAR.(reproc := true) && Moved(text, i0, z, i, Regs().(flags := CLEAR), Mem(), z')
         case Value(s, pre, v) => Pending(text, i0, z, if flags.reproc then i else i + 1, Regs(), Mem(), s, pre, v)
    }

    lemma NoValueHere(z: State)
      requires Starting(z) && 0 <= i <= |text| && Step(text, i, z).Reject?
      ensures Outcome(Fail, i, z, z)
    {
      hide Current, Failed, StoreOk, Step, FlagsOf, Asked, Heap.Budget, Ready, AllAwaiting;
      FailHere(text, i, Regs().(flags := FlagsOf(z)), Mem(), z);
    }

    method StartValue(b: Byte, ghost z: State) returns (flow: Flow, ghost z': State, ghost p: Pend)
      requires Starting(z) && b == At(text, i) && !IsWs(b) && b != RBRACKET
      modifies this`i, this`flags, this`num, this`numDigits, this`numFraction, this`numE
      modifies this`top, this`root, this`alloc, this`rows, this`buffer, this`stringLength
      modifies heap`nodes, heap`blocks, heap`nextNode, heap`used, heap`calls, heap`granted, heap`refused, heap`denied
      ensures !flow.Leave? && Outcome(flow, old(i), z, z')
      ensures flow.ToBottom? ==> AtBottom(old(i), z, p)
    {
      hide Current, Moved, Failed, Pending, Represents, FlagsOf, Ready, AllAwaiting, StoreOk, Step, Asked,
           Heap.Budget, Wanted, Outcome;
      z', p := z, NoValue(z);
      if b == LBRACE {
        flow, z' := OpenBox(true, z);
      } else if b == LBRACKET {
        flow, z' := OpenBox(false, z);
      } else if b == QUOTE {
        flow, z' := OpenString(z);
      } else if b == LOWER_T {
        flow := Literal(True, z);
        p := Value(z.stack, z.mode.ws, True);
      } else if b == LOWER_F {
        flow := Literal(False, z);
        p := Value(z.stack, z.mode.ws, False);
      } else if b == LOWER_N {
        flow := Literal(Null, z);
        p := Value(z.stack, z.mode.ws, Null);
      } else if IsDigit(b) || b == MINUS {
        if firstPass {
          flow, z' := FirstNumber(b, z);
          p := NoValue(z');
        } else {
          ghost var tok;
          flow, tok := SecondNumber(b, z);
          p := Value(z.stack, z.mode.ws, Num(tok));
        }
      } else {
        ValueRejects(text, i, z);
        NoValueHere(z);
        flow := Fail;
      }
    }

    // A byte while flag_seek_value is set. A ']' before any container is opened
    // counts as a failure.
    method SeekValue(b: Byte, ghost z: State) returns (flow: Flow, ghost z': State, ghost p: Pend)
      requires AtByte(z) && z.mode.Seek? && b == At(text, i)
      modifies this`i, this`flags, this`num, this`numDigits, this`numFraction, this`numE
      modifies this`top, this`root, this`alloc, this`rows, this`buffer, this`stringLength
      modifies heap`nodes, heap`blocks, heap`nextNode, heap`used, heap`calls, heap`granted, heap`refused, heap`denied
      ensures !flow.Leave? && Outcome(flow, old(i), z, z')
      ensures flow.ToBottom? ==> AtBottom(old(i), z, p)
    {
      hide Current, Moved, Failed, Pending, Represents, AllAwaiting, StoreOk, Step, Asked, Heap.Budget, Wanted;
      ghost var r0, m0 := Regs(), Mem();
      z', p := z, NoValue(z);
      SeekFlags(text, i, r0, m0, z);
      TopKind(text, i, r0, m0, z);
      if IsWs(b) {
        SeekWs(text, i, r0, m0, z);
        z' := Step(text, i, z).z;
        flow := Loop;
      } else if b == RBRACKET {
        if top.Ref? && heap.nodes[top.addr].kind.KArray? {
          flags := flags.(needComma := false, seekValue := false, next := true);
          p := Value(z.stack.rest, z.stack.top.pre, Box(false, z.stack.top.items, z.mode.ws));
          CloseBoxDone(text, i, r0, m0, z, Regs());
          flow := ToBottom;
        } else {
          SeekRejects(text, i, z);
          FailHere(text, i, r0, m0, z);
          flow := Fail;
        }
      } else if flags.needComma {
        if b == COMMA {
          flags := flags.(needComma := false);
          CommaDone(text, i, r0, m0, z);
          z' := Step(text, i, z).z;
          flow := Loop;
        } else {
          SeekRejects(text, i, z);
          FailHere(text, i, r0, m0, z);
          flow := Fail;
        }
      } else if flags.needColon {
        if b == COLON {
          flags := flags.(needColon := false);
          ColonDone(text, i, r0, m0, z);
          z' := Step(text, i, z).z;
          flow := Loop;
        } else {
          SeekRejects(text, i, z);
          FailHere(text, i, r0, m0, z);
          flow := Fail;
        }
      } else {
        flags := flags.(seekValue := false);
        flow, z', p := StartValue(b, z);
      }
    }

    // A byte inside an object, where a key may start.
    method InObject(b: Byte, ghost z: State) returns (flow: Flow, ghost z': State, ghost p: Pend)
      requires AtByte(z) && z.mode.InObj? && b == At(text, i)
      modifies this`flags, this`rows, this`buffer, this`stringLength
      ensures !flow.Leave? && !flow.NoMemory? && Outcome(flow, i, z, z')
      ensures flow.ToBottom? ==> AtBottom(i, z, p)
    {
      hide Current, Moved, Failed, Pending, Represents, StoreOk, Step, Asked, Heap.Budget;
      ghost var r0, m0 := Regs(), Mem();
      z', p := z, NoValue(z);
      ObjFlags(text, i, r0, m0, z);
      TopKind(text, i, r0, m0, z);
      if IsWs(b) {
        SeekWs(text, i, r0, m0, z);
        z' := Step(text, i, z).z;
        flow := Loop;
      } else if b == QUOTE && !flags.needComma {
        z' := StartKey(z);
        flow := Loop;
      } else if b == RBRACE {
        flags := flags.(needComma := false, next := true);
        p := Value(z.stack.rest, z.stack.top.pre, Box(true, z.stack.top.items, z.mode.ws));
        CloseBoxDone(text, i, r0, m0, z, Regs());
        flow := ToBottom;
      } else if b == COMMA && flags.needComma {
        flags := flags.(needComma := false);
        CommaDone(text, i, r0, m0, z);
        z' := Step(text, i, z).z;
        flow := Loop;
      } else {
        ObjRejects(text, i, z);
        FailHere(text, i, r0, m0, z);
        flow := Fail;
      }
    }

    method StartKey(ghost z: State) returns (ghost z': State)
      requires AtByte(z) && z.mode.InObj? && At(text, i) == QUOTE && !NeedComma(z.stack) && flags == CLEAR
      modifies this`flags, this`rows, this`buffer, this`stringLength
      ensures Outcome(Loop, i, z, z')
    {
      hide Current, Moved, Failed, Represents, StoreOk, Step, TopIndex, FlagsOf, Asked, Heap.Budget;
      ghost var r0, m0 := Regs(), Mem();
      KeyStartReady(text, i, r0, m0, z);
      ghost var k := TopIndex(z.stack);
      StoreBeginKey(m0, k);
      flags := flags.(inString := true);
      buffer := match heap.nodes[top.addr].reserved
                case ObjectMem(b, off) => NameTarget(b, off)
                case NextAlloc(_) => StaleTarget;
      stringLength := 0;
      rows := rows[k := rows[k].(cur := [[]])];
      KeyStartDone(text, i, r0, m0, z, Regs(), Mem());
      z' := Step(text, i, z).z;
    }

    // ---------- The bottom of the loop body ----------

    // The child on top goes into the next slot of its container; the new count.
    method LinkKid(parent: nat, ghost kid: nat) returns (length: nat)
      requires MemOk() && top == Ref(kid) && KidRoom(Mem(), parent) && |rows[parent].kids| <= UINT_LIMIT
      modifies this`rows, heap`nodes, heap`blocks
      ensures MemOk() && rows == WithKid(old(rows), parent, kid) && length == |old(rows)[parent].kids| + 1
    {
      hide StoreOk, HasKidSlot, KidSlot, Asked, Heap.Budget;
      ghost var m0 := Mem();
      StoreAttach(m0, parent, kid);
      var n := heap.nodes[parent];
      if !firstPass {
        heap.PutKid(n.u.values.a, n.kind.KObject?, n.u.length, top);
      }
      length := U32(n.u.length + 1);
      heap.nodes := heap.nodes[parent := n.(u := UBox(length, n.u.values))];
      rows := WithKid(rows, parent, kid);
    }

    method Attach(ghost i0: nat, ghost z: State, ghost s: Stack, ghost pre: Bytes, ghost v: Cst)
        returns (flow: Flow, ghost z': State)
      requires flags == CLEAR.(next := true) && Solvent() && Pending(text, i0, z, i + 1, Regs(), Mem(), s, pre, v)
      modifies this`flags, this`top, this`rows, heap`nodes, heap`blocks
      ensures (flow.Loop? || flow.Fail?) && Outcome(flow, i0, z, z')
    {
      hide Moved, StoreOk, StoreCleanable, Pending, TopIndex, WithKid, KidRoom, TopRef, StackRows, Asked, Heap.Budget;
      ghost var r0, m0 := Regs(), Mem();
      PendingParent(text, i0, z, i + 1, r0, m0, s, pre, v);
      z' := Attached(s, pre, v);
      flags := flags.(next := false, needComma := true);
      var up := heap.nodes[top.addr].parent;
      if up.NoRef? {
        flags := flags.(done := true);
        RootDone(text, i0, z, i + 1, r0, m0, s, pre, v, Regs());
        return Loop, z';
      }
      if heap.nodes[up.addr].kind.KArray? {
        flags := flags.(seekValue := true);
      }
      var length := LinkKid(up.addr, top.addr);
      if length > UINT_LIMIT {
        PendingRejects(text, i0, z, i + 1, r0, m0, s, pre, v);
        OkIsCleanable(Mem());
        return Fail, z';
      }
      top := up;
      AttachDone(text, i0, z, i + 1, r0, m0, s, pre, v, Regs(), Mem());
      flow := Loop;
    }

    // The byte may have to be processed again; a complete value is attached to
    // its container, or ends the text's value.
    method Bottom(ghost i0: nat, ghost z: State, ghost p: Pend) returns (flow: Flow, ghost z': State)
      requires AtBottom(i0, z, p)
      modifies this`i, this`flags, this`top, this`rows, heap`nodes, heap`blocks
      ensures (flow.Loop? || flow.Fail?) && Outcome(flow, i0, z, z')
    {
      hide Moved, Failed, StoreOk, Pending, Asked, Heap.Budget;
      if p.Value? {
        PendingFlags(text, i0, z, if flags.reproc then i else i + 1, Regs(), Mem(), p.s, p.pre, p.v);
      }
      if flags.reproc {
        flags := flags.(reproc := false);
        i := i - 1;
      }
      if flags.next {
        flow, z' := Attach(i0, z, p.s, p.pre, p.v);
      } else {
        flow, z' := Loop, p.z;
      }
    }

    // ---------- Numbers, in the first pass ----------

    // The node on top gets the value n; the registers already stand for t.
    method SetNumber(n: Number, ghost k: nat, ghost open: bool)
      requires MemOk() && firstPass && top == Ref(k) && k < |rows| && rows[k].RScalar?
      modifies this`rows, heap`nodes
      ensures MemOk() && rows == old(rows)[k := RScalar(old(rows)[k].parent, SNum(n), open)]
    {
      hide StoreOk, Asked, Heap.Budget;
      StoreScalar(Mem(), k, SNum(n), open);
      heap.nodes := heap.nodes[top.addr := NumberNode(heap.nodes[top.addr], n)];
      rows := rows[k := RScalar(rows[k].parent, SNum(n), open)];
    }

    method NumberDigit(b: Byte, ghost z: State) returns (flow: Flow, ghost z': State)
      requires AtByte(z) && z.mode.InNum? && b == At(text, i) && IsDigit(b)
      modifies this`num, this`numDigits, this`numE, this`numFraction, this`rows, heap`nodes
      ensures (flow.Loop? || flow.Fail?) && Outcome(flow, i, z, z')
    {
      hide Current, Moved, Failed, Represents, StoreOk, Step, NumRegisters, InProgress, NumState, StackRows, IsDigit,
           Asked, Heap.Budget;
      ghost var r0, m0, t := Regs(), Mem(), z.mode.tok;
      NumTop(text, i, r0, m0, z);
      NumView(r0, t);
      if heap.nodes[top.addr].kind.KInteger? && !num.e {
        flow, z' := IntegerDigit(b, z);
        return;
      }
      numDigits := numDigits + 1;
      if num.e {
        ExpDigit(r0, t, b);
        num := num.(gotSign := true);
        numE := Wrap64(numE * 10 + (b - DIGIT_0));
      } else {
        FracDigit(r0, t, b);
        numFraction := Wrap64(numFraction * 10 + (b - DIGIT_0));
      }
      z' := NumberWent(z, r0, m0);
      flow := Loop;
    }

    // A digit of the integer part.
    method IntegerDigit(b: Byte, ghost z: State) returns (flow: Flow, ghost z': State)
      requires AtByte(z) && z.mode.InNum? && b == At(text, i) && IsDigit(b) && !IsDouble(z.mode.tok)
      modifies this`num, this`numDigits, this`rows, heap`nodes
      ensures (flow.Loop? || flow.Fail?) && Outcome(flow, i, z, z')
    {
      hide Current, Moved, Failed, Represents, StoreOk, Step, NumRegisters, InProgress, NumState, StackRows, IsDigit,
           StepNum, Wrap64, Asked, Heap.Budget;
      ghost var r0, m0, t := Regs(), Mem(), z.mode.tok;
      NumTop(text, i, r0, m0, z);
      IntDigit(r0, t, b);
      numDigits := numDigits + 1;
      if num.zero {
        NumRejects(text, i, r0, m0, z);
        return Fail, z;
      }
      if numDigits == 1 && b == DIGIT_0 {
        num := num.(zero := true);
      }
      SetNumber(Int(Wrap64(heap.nodes[top.addr].u.n * 10 + (b - DIGIT_0))), |StackRows(z.stack, [])|, true);
      z' := NumberWent(z, r0, m0);
      flow := Loop;
    }

    // The registers stand for the number with one more byte.
    ghost method NumberWent(z: State, r0: Registers, m0: Store) returns (z': State)
      requires Solvent() && Current(text, i, r0, m0, z) && z.mode.InNum? && StepNum(z.mode.tok, At(text, i)).More?
      requires var t := StepNum(z.mode.tok, At(text, i)).t; var k := |StackRows(z.stack, [])|;
               && k < |m0.rows| && m0.rows[k] == RScalar(TopRef(z.stack), SNum(InProgress(z.mode.tok)), true)
               && MemOk() && firstPass && NumRegisters(Regs(), t) && flags == CLEAR && top == r0.top
               && (rows == m0.rows[k := RScalar(TopRef(z.stack), SNum(InProgress(t)), true)]
                   || (rows == m0.rows && InProgress(t) == InProgress(z.mode.tok)))
      ensures Outcome(Loop, i, z, z')
    {
      hide Current, Moved, Failed, Represents, StoreOk, Step, NumRegisters, InProgress, StackRows, StepNum, Asked,
           Heap.Budget;
      var t := StepNum(z.mode.tok, At(text, i)).t;
      NumMore(text, i, r0, m0, z, t, Regs(), Mem());
      z' := NumState(z.stack, z.mode.ws, t);
    }

    method NumberByte(b: Byte, ghost z: State) returns (flow: Flow, ghost z': State)
      requires AtByte(z) && z.mode.InNum? && b == At(text, i)
      modifies this`flags, this`num, this`numDigits, this`numE, this`numFraction, this`rows, heap`nodes
      ensures !flow.Leave? && !flow.NoMemory? && Outcome(flow, i, z, z')
      ensures flow.ToBottom? ==> AtBottom(i, z, Value(z.stack, z.mode.ws, Num(z.mode.tok)))
    {
      hide Current, Moved, Failed, Pending, Represents, StoreOk, Step, NumRegisters, InProgress, StackRows, StepNum,
           Asked, Heap.Budget;
      ghost var r0, m0, t := Regs(), Mem(), z.mode.tok;
      NumTop(text, i, r0, m0, z);
      NumView(r0, t);
      if IsDigit(b) {
        flow, z' := NumberDigit(b, z);
        return;
      }
      if b == PLUS || b == MINUS {
        ExpSign(r0, t, b);
        if num.e && !num.gotSign {
          num := num.(gotSign := true);
          if b == MINUS {
            num := num.(eNegative := true);
          }
          z' := NumberWent(z, r0, m0);
          return Loop, z';
        }
      } else if b == DOT && heap.nodes[top.addr].kind.KInteger? {
        flow, z' := NumberDot(z);
        return;
      }
      if !num.e {
        flow, z' := NumberBeforeExponent(b, z);
      } else {
        flow, z' := NumberAfterExponent(b, z);
      }
    }

    method NumberDot(ghost z: State) returns (flow: Flow, ghost z': State)
      requires AtByte(z) && z.mode.InNum? && At(text, i) == DOT && !IsDouble(z.mode.tok)
      modifies this`numDigits, this`rows, heap`nodes
      ensures (flow.Loop? || flow.Fail?) && Outcome(flow, i, z, z')
    {
      hide Current, Moved, Failed, Represents, StoreOk, Step, NumRegisters, InProgress, StackRows, StepNum, Asked,
           Heap.Budget;
      ghost var r0, m0, t := Regs(), Mem(), z.mode.tok;
      NumTop(text, i, r0, m0, z);
      FracDot(r0, t);
      if numDigits == 0 {
        NumRejects(text, i, r0, m0, z);
        return Fail, z;
      }
      SetNumber(Real(heap.nodes[top.addr].u.n as real), |StackRows(z.stack, [])|, true);
      numDigits := 0;
      z' := NumberWent(z, r0, m0);
      flow := Loop;
    }

    // The byte after the digits of the integer part or of the fraction.
    method NumberBeforeExponent(b: Byte, ghost z: State) returns (flow: Flow, ghost z': State)
      requires AtByte(z) && z.mode.InNum? && b == At(text, i) && !IsDigit(b) && z.mode.tok.exp.None?
      requires b == DOT ==> IsDouble(z.mode.tok)
      modifies this`flags, this`num, this`numDigits, this`rows, heap`nodes
      ensures !flow.Leave? && !flow.NoMemory? && Outcome(flow, i, z, z')
      ensures flow.ToBottom? ==> AtBottom(i, z, Value(z.stack, z.mode.ws, Num(z.mode.tok)))
    {
      hide Current, Moved, Failed, Pending, Represents, StoreOk, Step, NumRegisters, InProgress, StackRows, StepNum,
           Magnitude, Power10, Asked, Heap.Budget;
      ghost var r0, m0, t := Regs(), Mem(), z.mode.tok;
      NumTop(text, i, r0, m0, z);
      NumView(r0, t);
      BeforeExponent(r0, t, b);
      var n := NumberIn(heap.nodes[top.addr]);
      if n.Real? {
        if numDigits == 0 {
          NumRejects(text, i, r0, m0, z);
          return Fail, z;
        }
        n := Real(n.r + numFraction as real / Power10(numDigits));
      }
      if IsE(b) {
        flow, z' := StartExponent(n, z);
      } else {
        FinishNumber(n, z, r0, m0);
        flow, z' := ToBottom, z;
      }
    }

    // From an 'e' on the node holds a double.
    method StartExponent(n: Number, ghost z: State) returns (flow: Flow, ghost z': State)
      requires AtByte(z) && z.mode.InNum? && z.mode.tok.exp.None? && IsE(At(text, i))
      requires var t := z.mode.tok; StepNum(t, At(text, i)) == More(t.(exp := Some(Exponent(At(text, i), None, []))))
      requires n == AddFraction(Regs(), InProgress(z.mode.tok))
      modifies this`num, this`numDigits, this`rows, heap`nodes
      ensures flow.Loop? && Outcome(flow, i, z, z')
    {
      hide Current, Moved, Failed, Represents, StoreOk, Step, NumRegisters, InProgress, StackRows, StepNum,
           AddFraction, IsDigit, Asked, Heap.Budget;
      ghost var r0, m0, t := Regs(), Mem(), z.mode.tok;
      NumTop(text, i, r0, m0, z);
      ExponentMark(r0, t, At(text, i));
      num := num.(e := true);
      SetNumber(Real(AsReal(n)), |StackRows(z.stack, [])|, true);
      numDigits := 0;
      num := num.(zero := false);
      z' := NumberWent(z, r0, m0);
      flow := Loop;
    }

    method NumberAfterExponent(b: Byte, ghost z: State) returns (flow: Flow, ghost z': State)
      requires AtByte(z) && z.mode.InNum? && b == At(text, i) && !IsDigit(b) && z.mode.tok.exp.Some?
      requires IsSign(b) ==> num.gotSign
      modifies this`flags, this`rows, heap`nodes
      ensures !flow.Leave? && !flow.NoMemory? && Outcome(flow, i, z, z')
      ensures flow.ToBottom? ==> AtBottom(i, z, Value(z.stack, z.mode.ws, Num(z.mode.tok)))
    {
      hide Current, Moved, Failed, Pending, Represents, StoreOk, Step, NumRegisters, InProgress, StackRows, StepNum,
           Magnitude, Asked, Heap.Budget;
      ghost var r0, m0, t := Regs(), Mem(), z.mode.tok;
      NumTop(text, i, r0, m0, z);
      NumView(r0, t);
      AfterExponent(r0, t, b);
      if numDigits == 0 {
        NumRejects(text, i, r0, m0, z);
        return Fail, z;
      }
      var n := Real(heap.nodes[top.addr].u.r * Scale10(if num.eNegative then -numE else numE));
      FinishNumber(n, z, r0, m0);
      flow, z' := ToBottom, z;
    }

    // The sign is applied, and the byte that ended the number is processed again.
    method FinishNumber(magnitude: Number, ghost z: State, ghost r0: Registers, ghost m0: Store)
      requires r0 == Regs() && m0 == Mem() && AtByte(z) && z.mode.InNum? && StepNum(z.mode.tok, At(text, i)) == Finished
      requires magnitude == Magnitude(z.mode.tok, Int64)
      modifies this`flags, this`rows, heap`nodes
      ensures AtBottom(i, z, Value(z.stack, z.mode.ws, Num(z.mode.tok)))
    {
      hide Current, Moved, Failed, Pending, Represents, StoreOk, Step, NumRegisters, InProgress, StackRows, StepNum,
           Magnitude, NumberOf, Asked, Heap.Budget;
      NumTop(text, i, r0, m0, z);
      SignApplied(r0, z.mode.tok);
      var n := magnitude;
      if num.negative {
        n := match n case Int(x) => Int(Wrap64(-x)) case Real(x) => Real(-x);
      }
      SetNumber(n, |StackRows(z.stack, [])|, false);
      flags := flags.(next := true, reproc := true);
      NumFinished(text, i, r0, m0, z, Regs(), Mem());
    }

    // ---------- The loop ----------

    method Body(ghost z: State) returns (flow: Flow, ghost z': State)
      requires AtByte(z)
      modifies this`i, this`flags, this`num, this`numDigits, this`numFraction, this`numE
      modifies this`top, this`root, this`alloc, this`rows, this`buffer, this`stringLength
      modifies heap`nodes, heap`blocks, heap`nextNode, heap`used, heap`calls, heap`granted, heap`refused, heap`denied
      ensures !flow.ToBottom? && Outcome(flow, old(i), z, z')
    {
      hide Current, Moved, Failed, Pending, Represents, StoreOk, StoreCleanable, Step, Asked, Heap.Budget, Wanted;
      ghost var i0 := i;
      var b := At(text, i);
      ModeShown(text, i, Regs(), Mem(), z);
      ghost var p := NoValue(z);
      if flags.done {
        flow, z' := AfterValue(b, z);
        return;
      } else if flags.inString {
        p := Value(z.stack, z.mode.ws, Str(z.mode.items));
        flow, z' := StringByte(b, z);
      } else if flags.seekValue {
        flow, z', p := SeekValue(b, z);
      } else if heap.nodes[top.addr].kind.KObject? {
        flow, z', p := InObject(b, z);
      } else {
        p := Value(z.stack, z.mode.ws, Num(z.mode.tok));
        flow, z' := NumberByte(b, z);
      }
      if flow.ToBottom? {
        flow, z' := Bottom(i0, z, p);
      }
    }

    // Once the value is complete only white space may follow.
    method AfterValue(b: Byte, ghost z: State) returns (flow: Flow, ghost z': State)
      requires AtByte(z) && z.mode.Done? && b == At(text, i)
      ensures (flow.Leave? || flow.Loop? || flow.Fail?) && Outcome(flow, i, z, z')
    {
      hide Current, Moved, Failed, Represents, StoreOk, Step, Asked, Heap.Budget;
      ghost var r0, m0 := Regs(), Mem();
      z' := z;
      DoneSteps(text, i, z);
      CurrentRepresents(text, i, r0, m0, z);
      if b == 0 {
        flow := Leave;
      } else if IsWs(b) {
        DoneWs(text, i, r0, m0, z);
        z' := Step(text, i, z).z;
        flow := Loop;
      } else {
        FailHere(text, i, r0, m0, z);
        flow := Fail;
      }
    }

    // How a pass ends: the table is that of the whole text, or the text is rejected, by the first pass, or an
    // allocation has failed.
    ghost predicate PassEnds(flow: Flow)
      reads this, heap
    {
      match flow
      case Leave => MemOk() && Parse(text).Accepted? && rows == Final(Parse(text).doc) && (!firstPass ==> alloc.NoRef?)
      case Fail => Solvent() && firstPass && Parse(text).Rejected? && Cleanable()
      case NoMemory => heap.Budget() && heap.refused && (firstPass ==> Cleanable()) && Short(text, heap.granted, heap.denied)
      case _ => false
    }

    lemma LeavesLoop(flow: Flow, i0: nat, z: State, z': State)
      requires i0 <= |text| && Leads(text, 0, START, i0, z) && Outcome(flow, i0, z, z') && !flow.Loop? && !flow.ToBottom?
      requires !firstPass ==> Parse(text).Accepted? && fin == Final(Parse(text).doc)
      ensures PassEnds(flow)
    {
      hide Represents, StoreOk, StoreCleanable, Step, Parse, Final, Leads, Wanted, NodeRequests, BlockRequests;
      Stops(text, i0, Regs(), Mem(), z);
      if flow.NoMemory? && firstPass {
        WantedFromStart(text, i0, z, |rows|);
      } else if flow.Leave? && !firstPass {
        ChainLeft(Mem());
      }
    }

    lemma StaysInLoop(i0: nat, z: State, z': State)
      requires Leads(text, 0, START, i0, z) && Outcome(Loop, i0, z, z')
      requires !firstPass ==> Parse(text).Accepted? && fin == Final(Parse(text).doc)
      ensures Solvent() && Current(text, i + 1, Regs(), Mem(), z')
      ensures i0 <= |text| && i + 1 <= |text| && Leads(text, 0, START, i + 1, z') && Progresses(text, i0, z, i + 1, z')
    {
      hide Represents, Parse, Final, Leads, Asked, Heap.Budget;
      GoesOn(text, i0, z, i + 1, Regs(), Mem(), z');
    }

    // One trip round the loop.
    method Trip(ghost z: State) returns (flow: Flow, ghost z': State)
      requires AtByte(z) && 0 <= i <= |text| && Leads(text, 0, START, i, z)
      requires !firstPass ==> Parse(text).Accepted? && fin == Final(Parse(text).doc)
      modifies this`i, this`flags, this`num, this`numDigits, this`numFraction, this`numE
      modifies this`top, this`root, this`alloc, this`rows, this`buffer, this`stringLength
      modifies heap`nodes, heap`blocks, heap`nextNode, heap`used, heap`calls, heap`granted, heap`refused, heap`denied
      ensures flow.Loop? ==> AtByte(z') && 0 <= i <= |text| && Leads(text, 0, START, i, z')
      ensures flow.Loop? ==> old(i) < i || (old(i) == i && Rank(text, i, z') < Rank(text, old(i), z))
      ensures !flow.Loop? ==> PassEnds(flow)
    {
      hide Current, Moved, Represents, StoreOk, StoreCleanable, Step, Parse, Final, Leads, PassEnds, Outcome, Asked,
           Heap.Budget;
      ghost var i0 := i;
      flow, z' := Body(z);
      if flow.Loop? {
        StaysInLoop(i0, z, z');
        i := i + 1;
      } else {
        LeavesLoop(flow, i0, z, z');
      }
    }

    // Memory as a pass may start on it.
    ghost predicate PassReady()
      reads this, heap
    {
      && heap.Budget() && !heap.refused && heap.granted == Asked(firstPass, 0, fin)
      && StoreOk(Mem().(root := NoRef, rows := []))
    }

    // What is set before each pass.
    method Begin()
      requires PassReady()
      requires !firstPass ==> Parse(text).Accepted? && fin == Final(Parse(text).doc)
      modifies this`i, this`flags, this`top, this`root, this`rows, this`buffer, this`stringLength
      ensures AtByte(START) && i == 0 && Leads(text, 0, START, 0, START)
    {
      hide Current, StoreOk, Parse, Final, Leads, Asked, Heap.Budget;
      buffer, stringLength := NoTarget, 0;
      top, root := NoRef, NoRef;
      flags := CLEAR.(seekValue := true);
      i := 0;
      rows := [];
      Begins(text, Regs(), Mem());
    }

    // One pass over the text: the first on empty memory, the second on what the first has measured.
    method Pass() returns (flow: Flow)
      requires PassReady()
      requires !firstPass ==> Parse(text).Accepted? && fin == Final(Parse(text).doc)
      modifies this`i, this`flags, this`num, this`numDigits, this`numFraction, this`numE
      modifies this`top, this`root, this`alloc, this`rows, this`buffer, this`stringLength
      modifies heap`nodes, heap`blocks, heap`nextNode, heap`used, heap`calls, heap`granted, heap`refused, heap`denied
      ensures PassEnds(flow)
    {
      hide *;
      Begin();
      ghost var z := START;
      flow := Loop;
      while flow.Loop?
        invariant flow.Loop? ==> AtByte(z) && 0 <= i <= |text| && Leads(text, 0, START, i, z)
        invariant !flow.Loop? ==> PassEnds(flow)
        decreases flow.Loop?, |text| - i, if 0 <= i <= |text| then Rank(text, i, z) else 0
      {
        flow, z := Trip(z);
      }
    }

    // The first pass: afterwards the chain is measured, or nothing is left of it.
    method Measure() returns (flow: Flow)
      requires heap.nodes == map[] && heap.blocks == map[] && heap.nextNode == 0
      modifies this, heap
      ensures heap.Budget() && heap.log == old(heap.log) + (if flow.Leave? then [] else ChainLog(heap.nextNode))
      ensures flow.Leave? ==> PassReady() && !firstPass && Parse(text).Accepted? && fin == Final(Parse(text).doc)
      ensures !flow.Leave? ==>
                && firstPass && heap.nodes == map[] && heap.blocks == map[]
                && (if heap.refused then flow.NoMemory? else flow.Fail?)
      ensures flow.Fail? ==> Parse(text).Rejected?
      ensures flow.NoMemory? ==> Short(text, heap.granted, heap.denied)
    {
      hide Parse, Derives, Final, Chain, Short, Asked, StoreOk, Heap.Budget;
      firstPass, alloc := true, NoRef;
      rows, fin := [], [];
      heap.StartCounting();
      EmptyStart();
      flow := Pass();
      if flow.Leave? {
        Verdicts(text);
        MeasuredStarts(Mem(), Parse(text).doc);
        alloc := root;
        firstPass, fin := false, rows;
      } else {
        heap.FreeChain(root, |rows|);
      }
    }

    // json_parse_ex: the tree of the text's meaning, or an error and nothing left of the first pass.
    method ParseEx() returns (result: ParseResult)
      requires heap.nodes == map[] && heap.blocks == map[] && heap.nextNode == 0
      modifies this, heap
      ensures result.Parsed? <==> exists d :: Spells(d, text) && Affordable(heap.maxMemory, heap.grants, RequestsOf(d))
      ensures result.Parsed? ==>
                exists d ::
                  && Spells(d, text) && Delivered(heap.nodes, heap.blocks, result.root, d)
                  && Reads(heap.nodes, heap.blocks, result.root, Meaning(d.val, Int64))
                  && heap.granted == RequestsOf(d) && Sum(heap.granted) == Cost(Meaning(d.val, Int64))
      ensures result.SyntaxError? ==> !exists d :: Spells(d, text)
      ensures heap.Budget() && (result.OutOfMemory? <==> heap.refused)
      ensures result.OutOfMemory? ==>
                Short(text, heap.granted, heap.denied) && Sum(heap.granted) + heap.denied <= 56 * |text|
      ensures Ample(heap.maxMemory, heap.grants, text) ==>
                !result.OutOfMemory? && (result.Parsed? <==> exists d :: Spells(d, text))
      ensures heap.maxMemory > 0 && (forall n: nat :: heap.grants(n)) ==>
                (result.Parsed? <==> exists d :: Spells(d, text) && Costs(d, heap.maxMemory))
      ensures result.Parsed? ==>
                && heap.log == old(heap.log)
                && Footprint(heap.nodes, heap.blocks, heap.nextNode) == Sum(heap.granted)
                && (heap.maxMemory > 0 ==> heap.used == Sum(heap.granted) <= heap.maxMemory)
      ensures result.SyntaxError? || (result.OutOfMemory? && firstPass) ==>
                heap.nodes == map[] && heap.blocks == map[] && heap.log == old(heap.log) + ChainLog(heap.nextNode)
    {
      hide Parse, Derives, Spells, Delivered, Reads, Meaning, Cost, Costs, Final, StoreOk, NodeRequests, BlockRequests,
           Affordable, Allowed, Short, Footprint, Ample, Sum;
      Verdicts(text);
      LimitDecides(text, heap.maxMemory, heap.grants);
      var flow := Measure();
      if flow.Leave? {
        flow := Pass();
      }
      if flow.NoMemory? {
        Shortage(text, heap.granted, heap.denied, heap.maxMemory, heap.grants);
        return OutOfMemory;
      } else if flow.Fail? {
        return SyntaxError;
      }
      ghost var d := Parse(text).doc;
      FilledDelivers(Mem(), d);
      DeliveredReads(heap.nodes, heap.blocks, root, d);
      RequestsCost(d);
      Paid(Mem(), d);
      AffordableSum(heap.maxMemory, heap.grants, heap.granted);
      alloc := root;
      result := Parsed(root);
    }
  }

  lemma Verdicts(text: Bytes)
    ensures Parse(text).Accepted? ==> Spells(Parse(text).doc, text) && DocOk(Parse(text).doc)
    ensures Parse(text).Rejected? ==> !exists d :: Spells(d, text)
    ensures forall d :: Spells(d, text) <==> Derives(d, text)
  {
    hide Parse, Spells;
    forall d ensures Parse(text) == Accepted(d) <==> Derives(d, text) {
      ParseIffDerives(text, d);
    }
    forall d ensures Spells(d, text) <==> Derives(d, text) {
      SpellsIs(d, text);
    }
  }

  // The limit leaves room for the value of d.
  predicate Costs(d: Doc, max: nat) {
    Cost(Meaning(d.val, Int64)) <= max && Cost(Meaning(d.val, Int64)) <= 0xFFFF_FFFF_FFFF_FFF7
  }

  lemma LimitDecides(text: Bytes, max: nat, grants: nat -> bool)
    ensures max > 0 && (forall n: nat :: grants(n)) ==>
              ((exists d :: Spells(d, text) && Affordable(max, grants, RequestsOf(d)))
               <==> exists d :: Spells(d, text) && Costs(d, max))
  {
    hide Spells, Affordable, RequestsOf, Cost, Meaning;
    if max > 0 && forall n: nat :: grants(n) {
      forall d ensures Affordable(max, grants, RequestsOf(d)) <==> Costs(d, max) {
        CostDecides(d, max, grants);
      }
    }
  }

  lemma ShortIsAmple(text: Bytes, grants: nat -> bool)
    requires |text| <= 4294967287 && forall n: nat :: grants(n)
    ensures Ample(0, grants, text)
  {
  }

  // json_parse: without a memory limit.
  method JsonParse(text: Bytes, grants: nat -> bool) returns (heap: Heap, result: ParseResult)
    ensures fresh(heap) && heap.maxMemory == 0 && heap.grants == grants
    ensures result.Parsed? <==> exists d :: Spells(d, text) && Affordable(0, grants, RequestsOf(d))
    ensures |text| <= 4294967287 && (forall n: nat :: grants(n)) ==> (result.Parsed? <==> exists d :: Spells(d, text))
    ensures |text| <= 4294967287 && (forall n: nat :: grants(n)) && (exists d :: RfcText(d, text)) ==> result.Parsed?
    ensures result.Parsed? ==>
              exists d ::
                && Spells(d, text) && Delivered(heap.nodes, heap.blocks, result.root, d)
                && Reads(heap.nodes, heap.blocks, result.root, Meaning(d.val, Int64))
    ensures result.SyntaxError? ==> !(exists d :: Spells(d, text)) && heap.nodes == map[] && heap.blocks == map[]
  {
    heap := new Heap(0, grants);
    var parser := new Parser(text, heap);
    hide Parse, RfcText, Spells, Delivered, Reads, Meaning, Cost, Affordable, Ample, RequestsOf, Sum;
    result := parser.ParseEx();
    if |text| <= 4294967287 && forall n: nat :: grants(n) {
      ShortIsAmple(text, grants);
      forall d | RfcText(d, text) ensures Spells(d, text) {
        RfcAccepted(d, text);
        ParseIffSpelled(text, d);
      }
    }
  }

  // A parse and, if it succeeds, json_value_free_ex: memory is as before, and what has been freed has
  // been freed once.
  method ParseAndFree(text: Bytes, maxMemory: nat, grants: nat -> bool) returns (heap: Heap, result: ParseResult)
    ensures fresh(heap)
    ensures result.Parsed? <==> exists d :: Spells(d, text) && Affordable(maxMemory, grants, RequestsOf(d))
    ensures Ample(maxMemory, grants, text) ==> (result.Parsed? <==> exists d :: Spells(d, text))
    ensures result.Parsed? || result.SyntaxError? ==> heap.nodes == map[] && heap.blocks == map[]
    ensures result.Parsed? ==> NoDup(heap.log)
    ensures result.Parsed? ==>
              exists d :: Spells(d, text) && heap.log == FreeLog(TreeOf(d.val, 0))
  {
    heap := new Heap(maxMemory, grants);
    var parser := new Parser(text, heap);
    hide Spells, Delivered, Reads, Meaning, Cost, Holds, TreeOf, FreeLog, Kept, Gone, NoDup, ChainLog, Affordable, Ample,
         RequestsOf;
    result := parser.ParseEx();
    if result.Parsed? {
      ghost var d :| Spells(d, text) && Delivered(heap.nodes, heap.blocks, result.root, d);
      ghost var nodes, blocks := heap.nodes, heap.blocks;
      DeliveredTree(nodes, blocks, result.root, d);
      assert [] + FreeLog(TreeOf(d.val, 0)) == FreeLog(TreeOf(d.val, 0));
      heap.FreeTree(result.root, TreeOf(d.val, 0), NoRef);
      NothingLeft(nodes, blocks, result.root, d, heap.nodes, heap.blocks);
    }
  }
}
