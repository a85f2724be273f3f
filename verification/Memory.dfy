/**
 The memory of one parse: json_value nodes and the blocks they own, the allocator with its budget,
 and the destructor. Reading, writing or freeing an address requires that it is live, so a verified
 method never touches freed memory and never frees twice.
 */
module Memory {
  import opened Text
  import opened Table

  datatype Kind = KObject | KArray | KInteger | KDouble | KString | KBoolean | KNull

  // The values pointer of a container: in the first pass it counts the bytes
  // of the keys (and is the null pointer for an array), in the second it
  // points to the container's block.
  datatype Values = Count(n: nat) | Block(a: nat)

  datatype Union =
    | UNone
    | UBool(b: bool)
    | UInt(n: int)
    | UDbl(r: real)
    | UString(length: nat, ptr: Ref)
    | UBox(length: nat, values: Values)

  // The two readings of the reserved field.
  datatype Reserved = NextAlloc(next: Ref) | ObjectMem(block: nat, off: nat)

  datatype Node = Node(parent: Ref, kind: Kind, u: Union, reserved: Reserved)

  // A slot of an object: where its name starts in the block's name region (or
  // UNSET), and its value.
  datatype Slot = Slot(name: int, value: Ref)

  // Cells hold a byte or UNSET.
  datatype Chunk =
    | StrBlock(cells: seq<int>)
    | ArrBlock(slots: seq<Ref>)
    | ObjBlock(members: seq<Slot>, names: seq<int>)

  const UNSET := -1

  type Nodes = map<nat, Node>
  type Blocks = map<nat, Chunk>

  const SIZEOF_NODE := 40
  const SIZEOF_REF := 8
  const SIZEOF_MEMBER := 16

  datatype Freed = FNode(a: nat) | FBlock(b: nat)

  // ---------- Trees in memory ----------

  datatype Tree =
    | TLeaf(addr: nat, s: Scalar)
    | TStr(addr: nat, block: nat, bytes: Bytes)
    | TBox(addr: nat, block: nat, isObj: bool, names: seq<Bytes>, kids: seq<Tree>)

  function BoxKind(isObj: bool): Kind {
    if isObj then KObject else KArray
  }

  function ScalarKind(s: Scalar): Kind {
    match s
    case SNull => KNull
    case SBool(_) => KBoolean
    case SNum(n) => if n.Int? then KInteger else KDouble
  }

  function ScalarUnion(s: Scalar): Union {
    match s
    case SNull => UNone
    case SBool(b) => UBool(b)
    case SNum(n) => if n.Int? then UInt(n.n) else UDbl(n.r)
  }

  // Where the k-th name ends, behind its terminator.
  function NameEnd(b: Chunk, names: seq<Bytes>, k: nat): int
    requires b.ObjBlock? && k < |names| <= |b.members|
  {
    b.members[k].name + |names[k]| + 1
  }

  // A name stands at its slot's offset, followed by its terminator, and starts where the one before ends.
  predicate NameLaid(b: Chunk, names: seq<Bytes>, k: nat)
    requires b.ObjBlock? && k < |names| <= |b.members|
  {
    var off := b.members[k].name;
    && 0 <= off < NameEnd(b, names, k) <= |b.names|
    && b.names[off..NameEnd(b, names, k)] == names[k] + [0]
    && off == (if k == 0 then 0 else NameEnd(b, names, k - 1))
  }

  // The names are in order and do not overlap.
  predicate NamesLaid(b: Chunk, names: seq<Bytes>) {
    b.ObjBlock? && |names| <= |b.members| && forall k :: 0 <= k < |names| ==> NameLaid(b, names, k)
  }

  // The block of a container whose children are at the given addresses.
  predicate BoxBlock(b: Chunk, isObj: bool, names: seq<Bytes>, kids: seq<nat>) {
    if isObj then
      && b.ObjBlock?
      && |b.members| == |kids| == |names|
      && NamesLaid(b, names) && |b.names| == (if names == [] then 0 else NameEnd(b, names, |names| - 1))
      && (forall k :: 0 <= k < |kids| ==> b.members[k].value == Ref(kids[k]))
    else
      && b.ArrBlock? && names == []
      && |b.slots| == |kids|
      && forall k :: 0 <= k < |kids| ==> b.slots[k] == Ref(kids[k])
  }

  function KidAddrs(kids: seq<Tree>): (r: seq<nat>)
    ensures |r| == |kids|
    ensures forall k :: 0 <= k < |kids| ==> r[k] == kids[k].addr
  {
    if kids == [] then [] else KidAddrs(kids[..|kids| - 1]) + [kids[|kids| - 1].addr]
  }

  // The node of t, with r of its children still attached.
  predicate NodeHolds(nodes: Nodes, blocks: Blocks, t: Tree, r: nat, parent: Ref) {
    && t.addr in nodes && nodes[t.addr].parent == parent
    && match t
       case TLeaf(a, s) => r == 0 && nodes[a].kind == ScalarKind(s) && nodes[a].u == ScalarUnion(s)
       case TStr(a, b, bytes) =>
         && r == 0 && nodes[a].kind == KString && nodes[a].u == UString(|bytes|, Ref(b))
         && b in blocks && blocks[b] == StrBlock(bytes + [0])
       case TBox(a, b, isObj, names, kids) =>
         && r <= |kids| && nodes[a].kind == BoxKind(isObj) && nodes[a].u == UBox(r, Block(b))
         && b in blocks && BoxBlock(blocks[b], isObj, names, KidAddrs(kids))
  }

  function KidCount(t: Tree): nat {
    if t.TBox? then |t.kids| else 0
  }

  // Memory holds the tree t, under the given parent.
  predicate Holds(nodes: Nodes, blocks: Blocks, t: Tree, parent: Ref)
    decreases t
  {
    && NodeHolds(nodes, blocks, t, KidCount(t), parent)
    && (t.TBox? ==> forall k :: 0 <= k < |t.kids| ==> Holds(nodes, blocks, t.kids[k], Ref(t.addr)))
  }

  // ---------- Memory determines the tree ----------

  lemma {:induction false} SameNames(b: Chunk, names: seq<Bytes>, names': seq<Bytes>, n: nat)
    requires |names| == |names'| && n <= |names|
    requires NamesLaid(b, names) && |b.names| == (if names == [] then 0 else NameEnd(b, names, |names| - 1))
    requires NamesLaid(b, names') && |b.names| == (if names' == [] then 0 else NameEnd(b, names', |names'| - 1))
    ensures names[..n] == names'[..n]
  {
    if n > 0 {
      SameNames(b, names, names', n - 1);
      var k := n - 1;
      assert NameLaid(b, names, k) && NameLaid(b, names', k);
      if n < |names| {
        assert NameLaid(b, names, n) && NameLaid(b, names', n);
      }
      assert NameEnd(b, names, k) == NameEnd(b, names', k);
      assert names[k] == (names[k] + [0])[..|names[k]|];
      assert names'[k] == (names'[k] + [0])[..|names'[k]|];
    }
  }

  // Two trees held at one address are the same tree.
  lemma {:induction false} SameTree(nodes: Nodes, blocks: Blocks, t: Tree, t': Tree, parent: Ref, parent': Ref)
    requires Holds(nodes, blocks, t, parent) && Holds(nodes, blocks, t', parent') && t.addr == t'.addr
    ensures t == t'
    decreases t
  {
    SameOwn(nodes, blocks, t, t', parent, parent');
    if t.TBox? {
      hide NodeHolds, KidAddrs;
      forall k | 0 <= k < |t.kids| ensures t.kids[k] == t'.kids[k] {
        SameTree(nodes, blocks, t.kids[k], t'.kids[k], Ref(t.addr), Ref(t.addr));
      }
      assert t.kids == t'.kids;
    }
  }

  lemma SameOwn(nodes: Nodes, blocks: Blocks, t: Tree, t': Tree, parent: Ref, parent': Ref)
    requires NodeHolds(nodes, blocks, t, KidCount(t), parent) && NodeHolds(nodes, blocks, t', KidCount(t'), parent')
    requires t.addr == t'.addr
    ensures !t.TBox? ==> t == t'
    ensures t.TBox? ==>
              && t'.TBox? && t.block == t'.block && t.isObj == t'.isObj && t.names == t'.names && |t.kids| == |t'.kids|
              && forall k :: 0 <= k < |t.kids| ==> t.kids[k].addr == t'.kids[k].addr
  {
    if t.TBox? {
      SameBox(blocks[t.block], t, t');
    } else if t.TStr? {
      assert t.bytes == (t.bytes + [0])[..|t.bytes|];
      assert t'.bytes == (t'.bytes + [0])[..|t'.bytes|];
    }
    hide BoxBlock, KidAddrs;
  }

  lemma SameBox(b: Chunk, t: Tree, t': Tree)
    requires t.TBox? && t'.TBox? && t.isObj == t'.isObj && |t.kids| == |t'.kids|
    requires BoxBlock(b, t.isObj, t.names, KidAddrs(t.kids)) && BoxBlock(b, t'.isObj, t'.names, KidAddrs(t'.kids))
    ensures t.names == t'.names
    ensures forall k :: 0 <= k < |t.kids| ==> t.kids[k].addr == t'.kids[k].addr
  {
    if t.isObj {
      SameNames(b, t.names, t'.names, |t.names|);
      assert t.names[..|t.names|] == t.names && t'.names[..|t.names|] == t'.names;
    }
    hide NamesLaid;
    forall k | 0 <= k < |t.kids| ensures t.kids[k].addr == t'.kids[k].addr {
      var kids, kids' := KidAddrs(t.kids), KidAddrs(t'.kids);
      assert Ref(kids[k]) == Ref(kids'[k]);
    }
  }

  // ---------- What freeing a tree frees, in order ----------

  function Own(t: Tree): (r: seq<Freed>)
    ensures r != []
  {
    match t
    case TLeaf(a, _) => [FNode(a)]
    case TStr(a, b, _) => [FBlock(b), FNode(a)]
    case TBox(a, b, _, _, _) => [FBlock(b), FNode(a)]
  }

  // The last child first; a container after all its children.
  function FreeLog(t: Tree): (r: seq<Freed>)
    decreases t
  {
    if t.TBox? then KidsLog(t.kids) + Own(t) else Own(t)
  }

  function KidsLog(kids: seq<Tree>): seq<Freed>
    decreases kids
  {
    if kids == [] then [] else FreeLog(kids[|kids| - 1]) + KidsLog(kids[..|kids| - 1])
  }

  predicate NoDup(s: seq<Freed>) {
    forall i, j :: 0 <= i < j < |s| ==> s[i] != s[j]
  }

  // The two memories agree on everything in s.
  predicate AgreeOn(s: seq<Freed>, n1: Nodes, b1: Blocks, n2: Nodes, b2: Blocks) {
    && (forall x :: x in s && x.FNode? && x.a in n1 ==> x.a in n2 && n1[x.a] == n2[x.a])
    && (forall x :: x in s && x.FBlock? && x.b in b1 ==> x.b in b2 && b1[x.b] == b2[x.b])
  }

  lemma {:induction false} KidsLogContains(kids: seq<Tree>, k: nat)
    requires k < |kids|
    ensures forall x :: x in FreeLog(kids[k]) ==> x in KidsLog(kids)
  {
    var last := |kids| - 1;
    if k < last {
      KidsLogContains(kids[..last], k);
    }
  }

  lemma {:induction false} HoldsFrame(n1: Nodes, b1: Blocks, n2: Nodes, b2: Blocks, t: Tree, parent: Ref)
    requires Holds(n1, b1, t, parent) && AgreeOn(FreeLog(t), n1, b1, n2, b2)
    ensures Holds(n2, b2, t, parent)
    decreases t
  {
    OwnFrame(n1, b1, n2, b2, t, KidCount(t), parent);
    if t.TBox? {
      forall k | 0 <= k < |t.kids| ensures Holds(n2, b2, t.kids[k], Ref(t.addr)) {
        KidsLogContains(t.kids, k);
        HoldsFrame(n1, b1, n2, b2, t.kids[k], Ref(t.addr));
      }
    }
  }

  lemma OwnFrame(n1: Nodes, b1: Blocks, n2: Nodes, b2: Blocks, t: Tree, r: nat, parent: Ref)
    requires NodeHolds(n1, b1, t, r, parent) && AgreeOn(FreeLog(t), n1, b1, n2, b2)
    ensures NodeHolds(n2, b2, t, r, parent)
  {
  }

  // ---------- The destructor's work list ----------

  // The nodes from the current one up to the root; r children of each are left.
  datatype Work = Top | In(t: Tree, r: nat, up: Work)

  function ParentOf(w: Work): (r: Ref)
    ensures r.Ref? <==> w.In?
    ensures w.In? ==> r == Ref(w.t.addr)
  {
    if w.Top? then NoRef else Ref(w.t.addr)
  }

  function Left(t: Tree, r: nat): seq<Freed> {
    if t.TBox? && r <= |t.kids| then KidsLog(t.kids[..r]) + Own(t) else Own(t)
  }

  function Todo(w: Work): seq<Freed> {
    if w.Top? then [] else Left(w.t, w.r) + Todo(w.up)
  }

  function Depth(w: Work): nat {
    if w.Top? then 0 else 1 + Depth(w.up)
  }

  predicate WorkOk(nodes: Nodes, blocks: Blocks, w: Work) {
    w.In? ==>
      && NodeHolds(nodes, blocks, w.t, w.r, ParentOf(w.up))
      && (w.t.TBox? ==> forall k :: 0 <= k < w.r ==> Holds(nodes, blocks, w.t.kids[k], Ref(w.t.addr)))
      && WorkOk(nodes, blocks, w.up)
  }

  lemma {:induction false} WorkFrame(n1: Nodes, b1: Blocks, n2: Nodes, b2: Blocks, w: Work)
    requires WorkOk(n1, b1, w) && AgreeOn(Todo(w), n1, b1, n2, b2)
    ensures WorkOk(n2, b2, w)
    decreases w
  {
    if w.In? {
      var t, r := w.t, w.r;
      assert forall x :: x in Left(t, r) ==> x in Todo(w);
      LeftFrame(n1, b1, n2, b2, t, r, ParentOf(w.up));
      assert forall x :: x in Todo(w.up) ==> x in Todo(w);
      WorkFrame(n1, b1, n2, b2, w.up);
    }
  }

  lemma LeftFrame(n1: Nodes, b1: Blocks, n2: Nodes, b2: Blocks, t: Tree, r: nat, parent: Ref)
    requires NodeHolds(n1, b1, t, r, parent) && AgreeOn(Left(t, r), n1, b1, n2, b2)
    requires t.TBox? ==> forall k :: 0 <= k < r ==> Holds(n1, b1, t.kids[k], Ref(t.addr))
    ensures NodeHolds(n2, b2, t, r, parent)
    ensures t.TBox? ==> forall k :: 0 <= k < r ==> Holds(n2, b2, t.kids[k], Ref(t.addr))
  {
    var own := Own(t);
    assert own[|own| - 1] == FNode(t.addr);
    assert !t.TLeaf? ==> own[0] == FBlock(t.block);
    assert forall x :: x in own ==> x in Left(t, r);
    if t.TBox? {
      forall k | 0 <= k < r ensures Holds(n2, b2, t.kids[k], Ref(t.addr)) {
        KidsLogContains(t.kids[..r], k);
        HoldsFrame(n1, b1, n2, b2, t.kids[k], Ref(t.addr));
      }
    }
    hide BoxBlock, KidsLog;
  }

  // Going down to the last remaining child leaves the same work to do.
  lemma DescendTodo(t: Tree, r: nat, up: Work)
    requires t.TBox? && 0 < r <= |t.kids|
    ensures var c := t.kids[r - 1];
            Todo(In(c, KidCount(c), In(t, r - 1, up))) == Todo(In(t, r, up))
  {
    var c := t.kids[r - 1];
    assert t.kids[..r][..r - 1] == t.kids[..r - 1];
    assert c.TBox? ==> c.kids[..|c.kids|] == c.kids;
    assert Left(c, KidCount(c)) == FreeLog(c);
    assert KidsLog(t.kids[..r]) == FreeLog(c) + KidsLog(t.kids[..r - 1]);
  }

  lemma NoDupSplit(a: seq<Freed>, b: seq<Freed>)
    requires NoDup(a + b)
    ensures NoDup(a) && NoDup(b)
    ensures forall x :: x in a ==> x !in b
  {
    forall i, j | 0 <= i < j < |b| ensures b[i] != b[j] {
      assert (a + b)[|a| + i] != (a + b)[|a| + j];
    }
    forall i, j | 0 <= i < j < |a| ensures a[i] != a[j] {
      assert (a + b)[i] != (a + b)[j];
    }
    forall i, j | 0 <= i < |a| && 0 <= j < |b| ensures a[i] != b[j] {
      assert (a + b)[i] != (a + b)[|a| + j];
    }
  }

  lemma TodoCoversDepth(w: Work)
    ensures Depth(w) <= |Todo(w)|
  {
  }

  lemma TodoHead(w: Work)
    requires w.In?
    ensures FNode(w.t.addr) in Todo(w) && (!w.t.TLeaf? ==> FBlock(w.t.block) in Todo(w))
  {
  }

  lemma ReleaseTodo(w: Work)
    requires w.In? && w.r == 0
    ensures Todo(w) == Own(w.t) + Todo(w.up)
  {
  }

  // What the destructor reads when it goes down.
  lemma DescendReads(nodes: Nodes, blocks: Blocks, w: Work)
    requires w.In? && WorkOk(nodes, blocks, w) && w.t.TBox? && w.r > 0
    ensures w.t.addr in nodes && w.r <= |w.t.kids|
    ensures var n := nodes[w.t.addr];
            && n.kind == BoxKind(w.t.isObj) && n.u == UBox(w.r, Block(w.t.block)) && w.t.block in blocks
            && var c := blocks[w.t.block];
               if n.kind.KArray? then c.ArrBlock? && w.r - 1 < |c.slots| && c.slots[w.r - 1] == Ref(w.t.kids[w.r - 1].addr)
               else c.ObjBlock? && w.r - 1 < |c.members| && c.members[w.r - 1].value == Ref(w.t.kids[w.r - 1].addr)
  {
  }

  lemma DescendFrame(n0: Nodes, nodes: Nodes, blocks: Blocks, w: Work, length: nat)
    requires w.In? && w.t.TBox? && w.r == length + 1 && WorkOk(n0, blocks, w) && NoDup(Todo(w))
    requires nodes == n0[w.t.addr := n0[w.t.addr].(u := UBox(length, n0[w.t.addr].u.values))]
    ensures var c := w.t.kids[length]; WorkOk(nodes, blocks, In(c, KidCount(c), In(w.t, length, w.up)))
  {
    hide BoxBlock, KidsLog, FreeLog, NoDup;
    var t := w.t;
    NoDupSplit(KidsLog(t.kids[..w.r]) + Own(t), Todo(w.up));
    NoDupSplit(KidsLog(t.kids[..w.r]), Own(t));
    assert Own(t)[1] == FNode(t.addr);
    assert FNode(t.addr) in KidsLog(t.kids[..w.r]) + Own(t);
    WorkFrame(n0, blocks, nodes, blocks, w.up);
    forall k | 0 <= k < w.r ensures Holds(nodes, blocks, t.kids[k], Ref(t.addr)) {
      KidsLogContains(t.kids[..w.r], k);
      HoldsFrame(n0, blocks, nodes, blocks, t.kids[k], Ref(t.addr));
    }
  }

  lemma ReleaseFrame(n0: Nodes, b0: Blocks, nodes: Nodes, blocks: Blocks, w: Work)
    requires w.In? && w.r == 0 && WorkOk(n0, b0, w) && NoDup(Todo(w))
    requires nodes == n0 - {w.t.addr} && blocks == if w.t.TLeaf? then b0 else b0 - {w.t.block}
    ensures WorkOk(nodes, blocks, w.up)
  {
    ReleaseTodo(w);
    NoDupSplit(Own(w.t), Todo(w.up));
    assert Own(w.t)[|Own(w.t)| - 1] == FNode(w.t.addr);
    assert !w.t.TLeaf? ==> Own(w.t)[0] == FBlock(w.t.block);
    WorkFrame(n0, b0, nodes, blocks, w.up);
  }

  lemma DepthUp(w: Work)
    requires w.In?
    ensures Depth(w) == Depth(w.up) + 1
  {
  }

  // Everything not in s is as it was.
  ghost predicate Kept(s: seq<Freed>, n0: Nodes, b0: Blocks, n: Nodes, b: Blocks) {
    && (forall x :: FNode(x) !in s ==> (x in n <==> x in n0))
    && (forall x :: x in n0 && FNode(x) !in s ==> n[x] == n0[x])
    && (forall x :: FBlock(x) !in s ==> (x in b <==> x in b0))
    && (forall x :: x in b0 && FBlock(x) !in s ==> b[x] == b0[x])
  }

  // Nothing of s is live.
  predicate Gone(s: seq<Freed>, n: Nodes, b: Blocks) {
    && (forall x :: x in s && x.FNode? ==> x.a !in n)
    && (forall x :: x in s && x.FBlock? ==> x.b !in b)
  }

  // The destructor has freed done, and Todo(w) is what remains of all.
  ghost predicate Progress(all: seq<Freed>, done: seq<Freed>, w: Work, n0: Nodes, b0: Blocks, n: Nodes, b: Blocks) {
    && WorkOk(n, b, w) && done + Todo(w) == all && NoDup(all)
    && Kept(all, n0, b0, n, b) && Gone(done, n, b)
  }

  lemma HoldsAt(nodes: Nodes, blocks: Blocks, t: Tree, parent: Ref)
    requires Holds(nodes, blocks, t, parent)
    ensures t.addr in nodes
  {
  }

  lemma StartWork(n0: Nodes, nodes: Nodes, blocks: Blocks, t: Tree, parent: Ref)
    requires Holds(n0, blocks, t, parent) && NoDup(FreeLog(t))
    requires nodes == n0[t.addr := n0[t.addr].(parent := NoRef)]
    ensures Progress(FreeLog(t), [], In(t, KidCount(t), Top), n0, blocks, nodes, blocks)
  {
    hide WorkOk, Todo, NoDup, FreeLog, NodeHolds, Holds, KidCount;
    StartWorkOk(n0, nodes, blocks, t, parent);
    TodoHead(In(t, KidCount(t), Top));
    HoldsAt(n0, blocks, t, parent);
    assert [] + FreeLog(t) == FreeLog(t);
  }

  lemma ProgressParts(all: seq<Freed>, done: seq<Freed>, w: Work, n0: Nodes, b0: Blocks, n: Nodes, b: Blocks)
    requires Progress(all, done, w, n0, b0, n, b) && w.In?
    ensures WorkOk(n, b, w) && NoDup(Todo(w)) && w.t.addr in n
    ensures var node := n[w.t.addr];
            var box := node.kind.KArray? || node.kind.KObject?;
            && (box ==> node.u.UBox?)
            && (if box && node.u.length > 0 then w.t.TBox? && w.r > 0 else w.r == 0)
    ensures 0 <= 2 * |Todo(w)| - Depth(w)
  {
    NoDupSplit(done, Todo(w));
    TodoCoversDepth(w);
    hide NoDup, Todo, Depth, BoxBlock, Kept, Gone;
  }

  lemma AllDone(all: seq<Freed>, done: seq<Freed>, w: Work, n0: Nodes, b0: Blocks, n: Nodes, b: Blocks)
    requires Progress(all, done, w, n0, b0, n, b) && w.Top?
    ensures done == all && Kept(all, n0, b0, n, b) && Gone(all, n, b)
  {
  }

  lemma StartWorkOk(n0: Nodes, nodes: Nodes, blocks: Blocks, t: Tree, parent: Ref)
    requires Holds(n0, blocks, t, parent) && NoDup(FreeLog(t))
    requires nodes == n0[t.addr := n0[t.addr].(parent := NoRef)]
    ensures WorkOk(nodes, blocks, In(t, KidCount(t), Top)) && Todo(In(t, KidCount(t), Top)) == FreeLog(t)
  {
    if t.TBox? {
      assert t.kids[..|t.kids|] == t.kids;
      NoDupSplit(KidsLog(t.kids), Own(t));
      forall k | 0 <= k < |t.kids| ensures Holds(nodes, blocks, t.kids[k], Ref(t.addr)) {
        KidsLogContains(t.kids, k);
        assert Own(t)[1] == FNode(t.addr);
        HoldsFrame(n0, blocks, nodes, blocks, t.kids[k], Ref(t.addr));
      }
    }
    hide BoxBlock;
  }

  lemma DescendProgress(all: seq<Freed>, done: seq<Freed>, w: Work, w': Work,
                        n0: Nodes, b0: Blocks, n: Nodes, n': Nodes, b: Blocks)
    requires w.In? && Progress(all, done, w, n0, b0, n, b)
    requires WorkOk(n', b, w') && Todo(w') == Todo(w)
    requires n'.Keys == n.Keys && forall a :: a in n && a != w.t.addr ==> n'[a] == n[a]
    ensures Progress(all, done, w', n0, b0, n', b)
  {
  }

  lemma InRest(done: seq<Freed>, rest: seq<Freed>, all: seq<Freed>)
    requires done + rest == all
    ensures forall x :: x in rest ==> x in all
  {
  }

  lemma ReleaseProgress(all: seq<Freed>, done: seq<Freed>, w: Work,
                        n0: Nodes, b0: Blocks, n: Nodes, b: Blocks, n': Nodes, b': Blocks)
    requires w.In? && w.r == 0 && Progress(all, done, w, n0, b0, n, b)
    requires WorkOk(n', b', w.up)
    requires n' == n - {w.t.addr} && b' == if w.t.TLeaf? then b else b - {w.t.block}
    ensures Progress(all, done + Own(w.t), w.up, n0, b0, n', b')
    ensures |Todo(w.up)| < |Todo(w)|
  {
    hide WorkOk, Todo, NoDup, Gone, Kept, Own;
    ReleaseTodo(w);
    TodoHead(w);
    InRest(done, Todo(w), all);
    ReleaseSets(all, done, w.t, n0, b0, n, b);
    assert done + Own(w.t) + Todo(w.up) == done + (Own(w.t) + Todo(w.up));
  }

  lemma ReleaseSets(all: seq<Freed>, done: seq<Freed>, t: Tree, n0: Nodes, b0: Blocks, n: Nodes, b: Blocks)
    requires Kept(all, n0, b0, n, b) && Gone(done, n, b)
    requires FNode(t.addr) in all && (!t.TLeaf? ==> FBlock(t.block) in all)
    ensures var n', b' := n - {t.addr}, if t.TLeaf? then b else b - {t.block};
            Kept(all, n0, b0, n', b') && Gone(done + Own(t), n', b')
  {
  }

  // ---------- The order of freeing ----------

  predicate Within(s: Tree, t: Tree)
    decreases t
  {
    s == t || (t.TBox? && exists k :: 0 <= k < |t.kids| && Within(s, t.kids[k]))
  }

  // The children's logs stand one after the other.
  lemma {:induction false} KidsLogSplit(kids: seq<Tree>, k: nat) returns (a: seq<Freed>, b: seq<Freed>)
    requires k < |kids|
    ensures KidsLog(kids) == a + FreeLog(kids[k]) + b
  {
    var last := |kids| - 1;
    if k == last {
      a, b := [], KidsLog(kids[..last]);
    } else {
      var a';
      a', b := KidsLogSplit(kids[..last], k);
      a := FreeLog(kids[last]) + a';
    }
  }

  lemma NoDupInside(a: seq<Freed>, s: seq<Freed>, b: seq<Freed>, i: nat)
    requires NoDup(a + s + b) && i < |a + s + b| && (a + s + b)[i] in s
    ensures NoDup(s) && |a| <= i < |a| + |s| && (a + s + b)[i] == s[i - |a|]
  {
    NoDupSplit(a + s, b);
    NoDupSplit(a, s);
    var k :| 0 <= k < |s| && s[k] == (a + s + b)[i];
    assert (a + s + b)[|a| + k] == s[k];
  }

  lemma KidInLog(t: Tree, m: nat) returns (a: seq<Freed>, b: seq<Freed>)
    requires t.TBox? && m < |t.kids|
    ensures FreeLog(t) == a + FreeLog(t.kids[m]) + b
  {
    hide KidsLog, Own;
    var b';
    a, b' := KidsLogSplit(t.kids, m);
    b := b' + Own(t);
    assert FreeLog(t) == a + FreeLog(t.kids[m]) + b' + Own(t);
  }

  lemma KidsBeforeOwn(t: Tree, k: nat, i: nat, j: nat)
    requires NoDup(FreeLog(t)) && t.TBox? && k < |t.kids| && i < |FreeLog(t)| && j < |FreeLog(t)|
    requires FreeLog(t)[i] in FreeLog(t.kids[k]) && FreeLog(t)[j] in Own(t)
    ensures i < j
  {
    KidsLogContains(t.kids, k);
    var kids, own := KidsLog(t.kids), Own(t);
    assert FreeLog(t) == kids + own;
    hide FreeLog, KidsLog, Own, NoDup;
    assert [] + kids + own == kids + own + [] == kids + own;
    NoDupInside([], kids, own, i);
    NoDupInside(kids, own, [], j);
  }

  // Wherever a container is in the tree, everything of its children is freed before its block and its node.
  lemma {:induction false} ChildrenFirst(t: Tree, s: Tree, k: nat, i: nat, j: nat)
    requires NoDup(FreeLog(t)) && Within(s, t) && s.TBox? && k < |s.kids|
    requires i < |FreeLog(t)| && j < |FreeLog(t)|
    requires FreeLog(t)[i] in FreeLog(s.kids[k]) && FreeLog(t)[j] in Own(s)
    ensures i < j
    decreases t
  {
    hide FreeLog, KidsLog, Own, NoDup;
    if s == t {
      KidsBeforeOwn(t, k, i, j);
    } else {
      var m :| 0 <= m < |t.kids| && Within(s, t.kids[m]);
      var a, b := KidInLog(t, m);
      WithinLog(s, t.kids[m], k);
      NoDupInside(a, FreeLog(t.kids[m]), b, i);
      NoDupInside(a, FreeLog(t.kids[m]), b, j);
      ChildrenFirst(t.kids[m], s, k, i - |a|, j - |a|);
    }
  }

  lemma {:induction false} WithinLog(s: Tree, t: Tree, k: nat)
    requires Within(s, t) && s.TBox? && k < |s.kids|
    ensures forall x :: x in FreeLog(s.kids[k]) || x in Own(s) ==> x in FreeLog(t)
    decreases t
  {
    if s == t {
      KidsLogContains(t.kids, k);
    } else {
      var m :| 0 <= m < |t.kids| && Within(s, t.kids[m]);
      WithinLog(s, t.kids[m], k);
      KidsLogContains(t.kids, m);
    }
  }

  lemma {:induction false} OwnWithin(s: Tree, t: Tree)
    requires Within(s, t)
    ensures forall x :: x in Own(s) ==> x in FreeLog(t)
    decreases t
  {
    if s != t {
      var m :| 0 <= m < |t.kids| && Within(s, t.kids[m]);
      OwnWithin(s, t.kids[m]);
      KidsLogContains(t.kids, m);
    }
  }

  // And the block of a container or string before its node.
  lemma {:induction false} BlockFirst(t: Tree, s: Tree, i: nat, j: nat)
    requires NoDup(FreeLog(t)) && Within(s, t) && !s.TLeaf?
    requires i < |FreeLog(t)| && j < |FreeLog(t)|
    requires FreeLog(t)[i] == FBlock(s.block) && FreeLog(t)[j] == FNode(s.addr)
    ensures i < j
    decreases t
  {
    hide FreeLog, KidsLog, Own, NoDup;
    if s == t {
      OwnBlockFirst(t, i, j);
    } else {
      var m :| 0 <= m < |t.kids| && Within(s, t.kids[m]);
      var a, b := KidInLog(t, m);
      OwnWithin(s, t.kids[m]);
      OwnIs(s);
      NoDupInside(a, FreeLog(t.kids[m]), b, i);
      NoDupInside(a, FreeLog(t.kids[m]), b, j);
      BlockFirst(t.kids[m], s, i - |a|, j - |a|);
    }
  }

  lemma OwnBlockFirst(t: Tree, i: nat, j: nat)
    requires NoDup(FreeLog(t)) && !t.TLeaf? && i < |FreeLog(t)| && j < |FreeLog(t)|
    requires FreeLog(t)[i] == FBlock(t.block) && FreeLog(t)[j] == FNode(t.addr)
    ensures i < j
  {
    var log := FreeLog(t);
    var n := |log|;
    assert log[n - 2] == FBlock(t.block) && log[n - 1] == FNode(t.addr);
    assert i >= n - 2;
    assert j >= n - 1;
  }

  lemma OwnIs(s: Tree)
    requires !s.TLeaf?
    ensures FBlock(s.block) in Own(s) && FNode(s.addr) in Own(s)
  {
  }

  // ---------- Fresh nodes and blocks ----------

  function U32(x: int): int {
    x % TWO_32
  }

  function ZeroUnion(kind: Kind): Union {
    match kind
    case KObject | KArray => UBox(0, Count(0))
    case KString => UString(0, NoRef)
    case KInteger => UInt(0)
    case KDouble => UDbl(0.0)
    case KBoolean => UBool(false)
    case KNull => UNone
  }

  function Unset(n: nat): (s: seq<int>)
    ensures |s| == n
  {
    seq(n, _ => UNSET)
  }

  function NoRefs(n: nat): (s: seq<Ref>)
    ensures |s| == n
  {
    seq(n, _ => NoRef)
  }

  function NoSlots(n: nat): (s: seq<Slot>)
    ensures |s| == n
  {
    seq(n, _ => Slot(UNSET, NoRef))
  }

  // A measured node, as the second pass expects it.
  predicate Poppable(nodes: Nodes, a: nat) {
    && a in nodes
    && match nodes[a].kind
       case KArray => nodes[a].u.UBox?
       case KObject => nodes[a].u.UBox? && nodes[a].u.values.Count?
       case KString => nodes[a].u.UString?
       case _ => true
  }

  function PoppedNodes(nodes: Nodes, a: nat): Nodes
    requires Poppable(nodes, a)
  {
    var value := nodes[a];
    match value.kind
    case KArray => nodes[a := value.(u := UBox(0, Block(a)))]
    case KObject => nodes[a := value.(u := UBox(0, Block(a)), reserved := ObjectMem(a, 0))]
    case KString => nodes[a := value.(u := UString(0, Ref(a)))]
    case _ => nodes
  }

  function PoppedBlocks(nodes: Nodes, blocks: Blocks, a: nat): Blocks
    requires Poppable(nodes, a)
  {
    var value := nodes[a];
    match value.kind
    case KArray => blocks[a := ArrBlock(NoRefs(value.u.length))]
    case KObject => blocks[a := ObjBlock(NoSlots(value.u.length), Unset(value.u.values.n))]
    case KString => blocks[a := StrBlock(Unset(U32(value.u.length + 1)))]
    case _ => blocks
  }

  // ---------- Writing ----------

  // Where the local variable string points.
  datatype Target = NoTarget | StrTarget(block: nat) | NameTarget(block: nat, off: nat) | StaleTarget

  // Cell index of the target exists.
  predicate Writable(blocks: Blocks, target: Target, index: int) {
    match target
    case StrTarget(b) => b in blocks && blocks[b].StrBlock? && 0 <= index < |blocks[b].cells|
    case NameTarget(b, off) => b in blocks && blocks[b].ObjBlock? && 0 <= index && off + index < |blocks[b].names|
    case _ => false
  }

  function Written(blocks: Blocks, target: Target, index: int, x: int): Blocks
    requires Writable(blocks, target, index)
  {
    match target
    case StrTarget(b) => blocks[b := StrBlock(blocks[b].cells[index := x])]
    case NameTarget(b, off) => blocks[b := blocks[b].(names := blocks[b].names[off + index := x])]
    case _ => blocks
  }

  // The slot at index m of an object's block, with its name set.
  predicate HasSlot(blocks: Blocks, b: nat, m: nat) {
    b in blocks && blocks[b].ObjBlock? && m < |blocks[b].members|
  }

  function NamedSlot(blocks: Blocks, b: nat, m: nat, off: int): Blocks
    requires HasSlot(blocks, b, m)
  {
    blocks[b := blocks[b].(members := blocks[b].members[m := blocks[b].members[m].(name := off)])]
  }

  // The block of container b after the child has been put in slot n.
  predicate HasKidSlot(blocks: Blocks, b: nat, isObj: bool, n: nat) {
    && b in blocks
    && (if isObj then blocks[b].ObjBlock? && n < |blocks[b].members|
        else blocks[b].ArrBlock? && n < |blocks[b].slots|)
  }

  function KidSlot(blocks: Blocks, b: nat, isObj: bool, n: nat, kid: Ref): Blocks
    requires HasKidSlot(blocks, b, isObj, n)
  {
    var c := blocks[b];
    blocks[b := if isObj then c.(members := c.members[n := c.members[n].(value := kid)])
                else c.(slots := c.slots[n := kid])]
  }

  // ---------- The chain of the first pass ----------

  // The node before the new one is linked to it; that is all that changes.
  function Linked(nodes: Nodes, n: nat): Nodes {
    if 0 < n && n - 1 in nodes then nodes[n - 1 := nodes[n - 1].(reserved := NextAlloc(Ref(n)))] else nodes
  }

  // The node at position k of n, if there is one.
  function NextRef(k: nat, n: nat): Ref {
    if k < n then Ref(k) else NoRef
  }

  // The live nodes are k, ..., n-1, each linked to the one created after it.
  predicate Chain(nodes: Nodes, k: nat, n: nat) {
    && (forall a :: a in nodes ==> k <= a < n)
    && (forall a :: k <= a < n ==> a in nodes && nodes[a].reserved == NextAlloc(NextRef(a + 1, n)))
  }

  function ChainLog(n: nat): seq<Freed> {
    if n == 0 then [] else ChainLog(n - 1) + [FNode(n - 1)]
  }

  // ---------- The allocator ----------

  function Sum(s: seq<nat>): nat {
    if s == [] then 0 else Sum(s[..|s| - 1]) + s[|s| - 1]
  }

  // A request for size bytes, once the sizes in g have been granted: it keeps to the limit, if there is
  // one, and to the counter, and the next call of mem_alloc succeeds. Without a limit nothing is counted.
  predicate Allowed(max: nat, grants: nat -> bool, g: seq<nat>, size: nat) {
    && (max > 0 ==> Sum(g) + size <= max)
    && (if max > 0 then Sum(g) else 0) + size <= ULONG_LIMIT
    && grants(|g|)
  }

  // All requests in g are granted, one after the other.
  predicate Affordable(max: nat, grants: nat -> bool, g: seq<nat>) {
    g != [] ==>
      var n := |g| - 1;
      Affordable(max, grants, g[..n]) && Allowed(max, grants, g[..n], g[n])
  }

  lemma AffordableSnoc(max: nat, grants: nat -> bool, g: seq<nat>, size: nat)
    ensures Affordable(max, grants, g + [size]) <==> Affordable(max, grants, g) && Allowed(max, grants, g, size)
    ensures Sum(g + [size]) == Sum(g) + size
  {
    assert (g + [size])[..|g|] == g;
  }

  lemma {:induction false} SumJoin(a: seq<nat>, b: seq<nat>)
    ensures Sum(a + b) == Sum(a) + Sum(b)
  {
    if b == [] {
      assert a + b == a;
    } else {
      assert (a + b)[..|a + b| - 1] == a + b[..|b| - 1];
      SumJoin(a, b[..|b| - 1]);
    }
  }

  lemma {:induction false} AffordablePrefix(max: nat, grants: nat -> bool, a: seq<nat>, g: seq<nat>)
    requires Affordable(max, grants, g) && a <= g
    ensures Affordable(max, grants, a)
  {
    if a == g {
    } else {
      assert a <= g[..|g| - 1];
      AffordablePrefix(max, grants, a, g[..|g| - 1]);
    }
  }

  lemma AffordableSum(max: nat, grants: nat -> bool, g: seq<nat>)
    requires Affordable(max, grants, g)
    ensures max > 0 ==> Sum(g) <= max
  {
  }

  // ---------- What is held ----------

  function ChunkSize(c: Chunk): nat {
    match c
    case StrBlock(cells) => |cells|
    case ArrBlock(slots) => |slots| * SIZEOF_REF
    case ObjBlock(members, names) => |members| * SIZEOF_MEMBER + |names|
  }

  // The bytes in use at addresses below n.
  function Footprint(nodes: Nodes, blocks: Blocks, n: nat): nat {
    if n == 0 then 0
    else
      Footprint(nodes, blocks, n - 1)
      + (if n - 1 in nodes then SIZEOF_NODE else 0)
      + (if n - 1 in blocks then ChunkSize(blocks[n - 1]) else 0)
  }

  // What the second pass asks for when it pops node a.
  function PoppedSizes(nodes: Nodes, a: nat): seq<nat>
    requires Poppable(nodes, a)
  {
    var value := nodes[a];
    match value.kind
    case KArray => [value.u.length * SIZEOF_REF]
    case KObject => [SIZEOF_MEMBER * value.u.length + value.u.values.n]
    case KString => [U32(value.u.length + 1)]
    case _ => []
  }

  class Heap {
    var nodes: Nodes
    var blocks: Blocks
    var nextNode: nat
    var used: int
    var calls: nat
    const maxMemory: nat
    // Whether the n-th call of mem_alloc succeeds.
    const grants: nat -> bool
    // The sizes granted so far, and the one that has been refused.
    ghost var granted: seq<nat>
    ghost var refused: bool
    ghost var denied: nat
    ghost var log: seq<Freed>

    constructor (maxMemory: nat, grants: nat -> bool)
      ensures nodes == map[] && blocks == map[] && nextNode == 0 && log == []
      ensures this.maxMemory == maxMemory && this.grants == grants
    {
      this.maxMemory, this.grants := maxMemory, grants;
      nodes, blocks, nextNode, used, calls := map[], map[], 0, 0, 0;
      granted, refused, denied, log := [], false, 0, [];
    }

    // What counts against the limit, if there is one.
    ghost function Charged(): nat
      reads `granted
    {
      if maxMemory > 0 then Sum(granted) else 0
    }

    // used_memory is the sum of the sizes granted so far, each of which was allowed in its turn. What has
    // been refused was not allowed.
    ghost predicate Budget()
      reads `used, `calls, `granted, `refused, `denied
    {
      && 0 <= used < TWO_64
      && Affordable(maxMemory, grants, granted)
      && (!refused ==> used == Charged() <= ULONG_LIMIT && calls == |granted|)
      && (refused ==> !Allowed(maxMemory, grants, granted, denied))
    }

    // The state of json_parse_ex starts from zero.
    method StartCounting()
      modifies this`used, this`calls, this`granted, this`refused, this`denied
      ensures Budget() && !refused && granted == []
    {
      used, calls := 0, 0;
      granted, refused := [], false;
    }

    method JsonAlloc(size: nat) returns (ok: bool)
      requires Budget() && !refused
      modifies this`used, this`calls, this`granted, this`refused, this`denied
      ensures Budget() && refused == !ok
      ensures ok <==> Allowed(maxMemory, grants, old(granted), size)
      ensures granted == if ok then old(granted) + [size] else old(granted)
      ensures !ok ==> denied == size
    {
      AffordableSnoc(maxMemory, grants, granted, size);
      denied := size;
      if (ULONG_LIMIT - used) % TWO_64 < size {
        refused := true;
        return false;
      }
      if maxMemory > 0 {
        used := (used + size) % TWO_64;
        if used > maxMemory {
          refused := true;
          return false;
        }
      }
      ok := grants(calls);
      calls := calls + 1;
      if ok {
        granted := granted + [size];
      } else {
        refused := true;
      }
    }

    // A zeroed node, linked to the node allocated before it.
    method AppendNode(alloc: Ref, top: Ref, kind: Kind) returns (ok: bool)
      requires Budget() && !refused
      requires if nextNode == 0 then alloc.NoRef? else alloc == Ref(nextNode - 1) && alloc.addr in nodes
      modifies this`nodes, this`nextNode, this`used, this`calls, this`granted, this`refused, this`denied
      ensures Budget() && refused == !ok
      ensures granted == if ok then old(granted) + [SIZEOF_NODE] else old(granted)
      ensures !ok ==> denied == SIZEOF_NODE && nodes == old(nodes) && nextNode == old(nextNode)
      ensures ok ==> nextNode == old(nextNode) + 1
      ensures ok ==> nodes == Linked(old(nodes), old(nextNode))
                              [old(nextNode) := Node(top, kind, ZeroUnion(kind), NextAlloc(NoRef))]
    {
      ok := JsonAlloc(SIZEOF_NODE);
      if !ok {
        return;
      }
      var value := nextNode;
      nextNode := value + 1;
      if alloc.Ref? {
        nodes := nodes[alloc.addr := nodes[alloc.addr].(reserved := NextAlloc(Ref(value)))];
      }
      nodes := nodes[value := Node(top, kind, ZeroUnion(kind), NextAlloc(NoRef))];
    }

    // The blocks of the second pass, of the sizes measured in the first.
    method PlaceArray(a: nat) returns (ok: bool)
      requires Budget() && !refused && Poppable(nodes, a) && nodes[a].kind.KArray?
      modifies this`nodes, this`blocks, this`used, this`calls, this`granted, this`refused, this`denied
      ensures PlacedBlock(ok, a, old(nodes), old(blocks), old(granted))
    {
      var value := nodes[a];
      ok := JsonAlloc(value.u.length * SIZEOF_REF);
      if ok {
        blocks := blocks[a := ArrBlock(NoRefs(value.u.length))];
        nodes := nodes[a := value.(u := UBox(0, Block(a)))];
      }
    }

    method PlaceObject(a: nat) returns (ok: bool)
      requires Budget() && !refused && Poppable(nodes, a) && nodes[a].kind.KObject?
      modifies this`nodes, this`blocks, this`used, this`calls, this`granted, this`refused, this`denied
      ensures PlacedBlock(ok, a, old(nodes), old(blocks), old(granted))
    {
      var value := nodes[a];
      var valuesSize := SIZEOF_MEMBER * value.u.length;
      ok := JsonAlloc(valuesSize + value.u.values.n);
      if ok {
        blocks := blocks[a := ObjBlock(NoSlots(value.u.length), Unset(value.u.values.n))];
        nodes := nodes[a := value.(u := UBox(0, Block(a)), reserved := ObjectMem(a, 0))];
      }
    }

    method PlaceString(a: nat) returns (ok: bool)
      requires Budget() && !refused && Poppable(nodes, a) && nodes[a].kind.KString?
      modifies this`nodes, this`blocks, this`used, this`calls, this`granted, this`refused, this`denied
      ensures PlacedBlock(ok, a, old(nodes), old(blocks), old(granted))
    {
      var value := nodes[a];
      ok := JsonAlloc(U32(value.u.length + 1));
      if ok {
        blocks := blocks[a := StrBlock(Unset(U32(value.u.length + 1)))];
        nodes := nodes[a := value.(u := UString(0, Ref(a)))];
      }
    }

    // Node a has been popped: it has a block of the measured size, which has been counted, or the request
    // for that size has been refused.
    ghost predicate PlacedBlock(ok: bool, a: nat, nodes0: Nodes, blocks0: Blocks, granted0: seq<nat>)
      requires Poppable(nodes0, a)
      reads this
    {
      && Budget() && refused == !ok
      && (ok ==> granted == granted0 + PoppedSizes(nodes0, a))
      && (!ok ==> granted == granted0 && PoppedSizes(nodes0, a) == [denied])
      && (ok ==> nodes == PoppedNodes(nodes0, a) && blocks == PoppedBlocks(nodes0, blocks0, a))
    }

    // The node and the block after the second pass has popped node a.
    method PlaceBlock(a: nat) returns (ok: bool)
      requires Budget() && !refused && Poppable(nodes, a)
      modifies this`nodes, this`blocks, this`used, this`calls, this`granted, this`refused, this`denied
      ensures PlacedBlock(ok, a, old(nodes), old(blocks), old(granted))
    {
      match nodes[a].kind
      {
        case KArray => ok := PlaceArray(a);
        case KObject => ok := PlaceObject(a);
        case KString => ok := PlaceString(a);
        case _ => ok := true;
      }
    }

    // string [index] = x
    method Write(target: Target, index: int, x: int)
      requires Writable(blocks, target, index)
      modifies this`blocks
      ensures blocks == Written(old(blocks), target, index, x)
    {
      match target
      {
        case StrTarget(b) => blocks := blocks[b := StrBlock(blocks[b].cells[index := x])];
        case NameTarget(b, off) => blocks := blocks[b := blocks[b].(names := blocks[b].names[off + index := x])];
        case _ =>
      }
    }

    // values [m].name = off
    method NameMember(b: nat, m: nat, off: int)
      requires HasSlot(blocks, b, m)
      modifies this`blocks
      ensures blocks == NamedSlot(old(blocks), b, m, off)
    {
      blocks := blocks[b := blocks[b].(members := blocks[b].members[m := blocks[b].members[m].(name := off)])];
    }

    // values [n].value = kid, or values [n] = kid
    method PutKid(b: nat, isObj: bool, n: nat, kid: Ref)
      requires HasKidSlot(blocks, b, isObj, n)
      modifies this`blocks
      ensures blocks == KidSlot(old(blocks), b, isObj, n, kid)
    {
      var c := blocks[b];
      if isObj {
        blocks := blocks[b := c.(members := c.members[n := c.members[n].(value := kid)])];
      } else {
        blocks := blocks[b := c.(slots := c.slots[n := kid])];
      }
    }

    method FreeNode(a: nat)
      requires a in nodes
      modifies this`nodes, this`log
      ensures nodes == old(nodes) - {a} && log == old(log) + [FNode(a)]
    {
      nodes := nodes - {a};
      log := log + [FNode(a)];
    }

    method FreeBlock(b: nat)
      requires b in blocks
      modifies this`blocks, this`log
      ensures blocks == old(blocks) - {b} && log == old(log) + [FBlock(b)]
    {
      blocks := blocks - {b};
      log := log + [FBlock(b)];
    }

    // Go to the last child of a container that still has children.
    method Descend(cur: Ref, ghost w: Work) returns (next: Ref, ghost w': Work)
      requires w.In? && cur == Ref(w.t.addr) && WorkOk(nodes, blocks, w) && NoDup(Todo(w))
      requires w.t.TBox? && w.r > 0
      modifies this`nodes
      ensures nodes.Keys == old(nodes.Keys)
      ensures forall a :: a in nodes && a != w.t.addr ==> nodes[a] == old(nodes)[a]
      ensures w'.In? && next == Ref(w'.t.addr) && WorkOk(nodes, blocks, w')
      ensures Todo(w') == Todo(w) && Depth(w') == Depth(w) + 1
    {
      hide WorkOk, Todo, NoDup, NodeHolds, Holds, KidCount, BoxBlock, BoxKind, KidAddrs;
      DescendReads(nodes, blocks, w);
      var n := nodes[cur.addr];
      var length := n.u.length - 1;
      nodes := nodes[cur.addr := n.(u := UBox(length, n.u.values))];
      var block := blocks[n.u.values.a];
      next := if n.kind.KArray? then block.slots[length] else block.members[length].value;
      ghost var c := w.t.kids[length];
      ghost var up := In(w.t, length, w.up);
      w' := In(c, KidCount(c), up);
      DescendTodo(w.t, w.r, w.up);
      DescendFrame(old(nodes), nodes, blocks, w, length);
    }

    // Free a node whose children are gone, and its block, and go to its parent.
    method Release(cur: Ref, ghost w: Work) returns (next: Ref)
      requires w.In? && cur == Ref(w.t.addr) && WorkOk(nodes, blocks, w) && NoDup(Todo(w)) && w.r == 0
      modifies this`nodes, this`blocks, this`log
      ensures log == old(log) + Own(w.t) && next == ParentOf(w.up)
      ensures nodes == old(nodes) - {w.t.addr}
      ensures blocks == if w.t.TLeaf? then old(blocks) else old(blocks) - {w.t.block}
      ensures WorkOk(nodes, blocks, w.up)
    {
      var n := nodes[cur.addr];
      match n.kind
      {
        case KArray | KObject => FreeBlock(n.u.values.a);
        case KString => FreeBlock(n.u.ptr.addr);
        case _ =>
      }
      next := n.parent;
      FreeNode(cur.addr);
      ReleaseFrame(old(nodes), old(blocks), nodes, blocks, w);
    }

    // json_value_free_ex: frees every node and block of the tree exactly once, children before their
    // container, and nothing else.
    method FreeTree(value: Ref, ghost t: Tree, ghost parent: Ref)
      requires value.Ref? ==> t.addr == value.addr && Holds(nodes, blocks, t, parent) && NoDup(FreeLog(t))
      modifies this`nodes, this`blocks, this`log
      ensures value.NoRef? ==> nodes == old(nodes) && blocks == old(blocks) && log == old(log)
      ensures value.Ref? ==>
                && log == old(log) + FreeLog(t)
                && Kept(FreeLog(t), old(nodes), old(blocks), nodes, blocks)
                && Gone(FreeLog(t), nodes, blocks)
    {
      if value.NoRef? {
        return;
      }
      nodes := nodes[value.addr := nodes[value.addr].(parent := NoRef)];
      StartWork(old(nodes), nodes, blocks, t, parent);
      FreeLoop(value, In(t, KidCount(t), Top), FreeLog(t), old(nodes), old(blocks));
    }

    method FreeLoop(value: Ref, ghost w0: Work, ghost all: seq<Freed>, ghost n0: Nodes, ghost b0: Blocks)
      requires value == ParentOf(w0) && Progress(all, [], w0, n0, b0, nodes, blocks)
      modifies this`nodes, this`blocks, this`log
      ensures log == old(log) + all && Kept(all, n0, b0, nodes, blocks) && Gone(all, nodes, blocks)
    {
      hide *;
      var cur := value;
      ghost var w := w0;
      ghost var done: seq<Freed> := [];
      while cur.Ref?
        invariant cur == ParentOf(w) && log == old(log) + done
        invariant Progress(all, done, w, n0, b0, nodes, blocks)
        decreases 2 * |Todo(w)| - Depth(w)
      {
        ghost var freed;
        cur, w, freed := FreeStep(cur, w, done, all, n0, b0);
        assert old(log) + done + freed == old(log) + (done + freed);
        done := done + freed;
      }
      AllDone(all, done, w, n0, b0, nodes, blocks);
    }

    // One trip round the loop of the destructor.
    method FreeStep(cur: Ref, ghost w: Work, ghost done: seq<Freed>, ghost all: seq<Freed>, ghost n0: Nodes, ghost b0: Blocks)
        returns (next: Ref, ghost w': Work, ghost freed: seq<Freed>)
      requires w.In? && cur == ParentOf(w) && Progress(all, done, w, n0, b0, nodes, blocks)
      modifies this`nodes, this`blocks, this`log
      ensures next == ParentOf(w') && Progress(all, done + freed, w', n0, b0, nodes, blocks)
      ensures log == old(log) + freed
      ensures 0 <= 2 * |Todo(w')| - Depth(w') < 2 * |Todo(w)| - Depth(w)
    {
      hide *;
      ProgressParts(all, done, w, n0, b0, nodes, blocks);
      if (nodes[cur.addr].kind.KArray? || nodes[cur.addr].kind.KObject?) && nodes[cur.addr].u.length > 0 {
        next, w' := Descend(cur, w);
        freed := [];
        DescendProgress(all, done, w, w', n0, b0, old(nodes), nodes, blocks);
        assert done + [] == done;
      } else {
        next := Release(cur, w);
        freed := Own(w.t);
        ReleaseProgress(all, done, w, n0, b0, old(nodes), old(blocks), nodes, blocks);
        w' := w.up;
        DepthUp(w);
      }
      TodoCoversDepth(w');
    }

    // The failure path of the first pass: every node of the chain is freed, in
    // creation order.
    method FreeChain(root: Ref, ghost n: nat)
      requires Chain(nodes, 0, n) && root == NextRef(0, n)
      modifies this`nodes, this`log
      ensures nodes == map[] && log == old(log) + ChainLog(n)
    {
      var alloc := root;
      ghost var k := 0;
      while alloc.Ref?
        invariant k <= n && alloc == NextRef(k, n) && Chain(nodes, k, n)
        invariant log == old(log) + ChainLog(k)
        decreases n - k
      {
        var top := nodes[alloc.addr].reserved.next;
        FreeNode(alloc.addr);
        alloc := top;
        k := k + 1;
      }
    }
  }
}
