/**
 The tree the second pass leaves in memory: which tree it is, that it is well formed for the
 destructor, and that it accounts for every allocation.
 */
module Built {
  import opened Text
  import opened Escape
  import opened Numbers
  import opened Grammar
  import opened Table
  import opened Growth
  import opened Memory
  import opened Layout
  import opened Representation
  import opened Requests

  // The tree of c, when its own node is at address self and the others follow in preorder.
  function TreeOf(c: Cst, self: nat): (t: Tree)
    ensures t.addr == self
    decreases c
  {
    match c
    case Str(str) => TStr(self, self, StrBytes(str))
    case Box(isObj, items, _) => TBox(self, self, isObj, Names(isObj, items), KidTrees(items, self))
    case _ => TLeaf(self, ScalarOf(c))
  }

  function KidTrees(items: seq<Item>, self: nat): (ts: seq<Tree>)
    ensures |ts| == |items|
    decreases items
  {
    if items == [] then []
    else
      var last := |items| - 1;
      KidTrees(items[..last], self) + [TreeOf(items[last].val, self + 1 + |ForestRows(items[..last], self)|)]
  }

  // ---------- The value a tree in memory denotes ----------

  function ValueOf(t: Tree): Value
    decreases t
  {
    match t
    case TLeaf(_, s) =>
      (match s
       case SNull => VNull
       case SBool(b) => VBool(b)
       case SNum(n) => VNumber(n))
    case TStr(_, _, bytes) => VString(bytes)
    case TBox(_, _, isObj, names, kids) =>
      if isObj then VObject(PairsOf(names, kids)) else VArray(ValuesOf(kids))
  }

  function ValuesOf(kids: seq<Tree>): seq<Value>
    decreases kids
  {
    if kids == [] then [] else ValuesOf(kids[..|kids| - 1]) + [ValueOf(kids[|kids| - 1])]
  }

  function PairsOf(names: seq<Bytes>, kids: seq<Tree>): seq<Pair>
    decreases kids
  {
    if kids == [] || |names| != |kids| then []
    else
      var last := |kids| - 1;
      PairsOf(names[..last], kids[..last]) + [Pair(names[last], ValueOf(kids[last]))]
  }

  lemma {:induction false} BuiltValue(c: Cst, self: nat)
    ensures ValueOf(TreeOf(c, self)) == Meaning(c, Int64)
    decreases c
  {
    hide StrBytes, NumberOf;
    if c.Box? {
      BuiltValues(c.items, self);
    }
  }

  lemma {:induction false} BuiltValues(items: seq<Item>, self: nat)
    ensures ValuesOf(KidTrees(items, self)) == Elems(items, Int64)
    ensures PairsOf(NamesOf(items), KidTrees(items, self)) == Members(items, Int64)
    decreases items
  {
    if items != [] {
      var init, last := items[..|items| - 1], items[|items| - 1];
      var at := self + 1 + |ForestRows(init, self)|;
      BuiltValues(init, self);
      BuiltValue(last.val, at);
      var kids, names := KidTrees(items, self), NamesOf(items);
      assert kids[..|kids| - 1] == KidTrees(init, self) && kids[|kids| - 1] == TreeOf(last.val, at);
      assert names[..|names| - 1] == NamesOf(init) && names[|names| - 1] == KeyBytes(last.lead);
      hide TreeOf, KidTrees, ValueOf, Meaning, NamesOf, KeyBytes, ForestRows;
    }
  }

  // ---------- Memory holds it ----------

  // The rows of c stand in the table from self on.
  predicate Segment(fin: seq<Row>, at: nat, rows: seq<Row>) {
    at + |rows| <= |fin| && fin[at..at + |rows|] == rows
  }

  lemma SegmentSplit(fin: seq<Row>, at: nat, a: seq<Row>, b: seq<Row>)
    requires Segment(fin, at, a + b)
    ensures Segment(fin, at, a) && Segment(fin, at + |a|, b)
  {
    assert a == (a + b)[..|a|];
    assert b == (a + b)[|a|..];
    assert fin[at..at + |a|] == fin[at..at + |a + b|][..|a|];
    assert fin[at + |a|..at + |a| + |b|] == fin[at..at + |a + b|][|a|..];
  }

  lemma {:induction false} KidAddrsAre(items: seq<Item>, self: nat)
    ensures KidAddrs(KidTrees(items, self)) == Kids(items, self)
  {
    if items != [] {
      var init := items[..|items| - 1];
      KidAddrsAre(init, self);
      var kids := KidTrees(items, self);
      assert kids[..|kids| - 1] == KidTrees(init, self);
      hide ForestRows, TreeOf;
    }
  }

  // The row of the tree's own node.
  predicate OwnRow(row: Row, t: Tree, parent: Ref) {
    match t
    case TLeaf(_, s) => row == RScalar(parent, s, false)
    case TStr(a, b, bytes) => b == a && row == RStr(parent, bytes, false)
    case TBox(a, b, isObj, names, kids) => b == a && row == RBox(parent, isObj, names, KidAddrs(kids), [])
  }

  lemma FirstRow(c: Cst, self: nat, parent: Ref)
    ensures OwnRow(CstRows(c, self, parent)[0], TreeOf(c, self), parent)
    ensures c.Box? ==> CstRows(c, self, parent) == CstRows(c, self, parent)[..1] + ForestRows(c.items, self)
    ensures TreeOf(c, self).TBox? <==> c.Box?
    ensures c.Box? ==> TreeOf(c, self).kids == KidTrees(c.items, self)
  {
    hide StrBytes, NumberOf, ForestRows, KidTrees, Kids, KidAddrs, Names;
    if c.Box? {
      KidAddrsAre(c.items, self);
    }
  }

  lemma OwnHolds(nodes: Nodes, blocks: Blocks, fin: seq<Row>, t: Tree, parent: Ref)
    requires Filled(nodes, blocks, fin, fin) && t.addr < |fin| && RowClosed(fin[t.addr]) && OwnRow(fin[t.addr], t, parent)
    ensures NodeHolds(nodes, blocks, t, KidCount(t), parent)
  {
    var a := t.addr;
    var r := fin[a];
    assert nodes[a] == Node2(r, a, NextRef(a + 1, |fin|));
    if t.TStr? {
      assert BlockFits(blocks[a], r, r);
      assert blocks[a].cells == t.bytes + [0];
    } else if t.TBox? {
      ClosedBox(blocks[a], r, KidAddrs(t.kids));
    }
    hide BlockFits, NameTotal, NamesLaid;
  }

  // The block of a complete container is exactly full.
  lemma ClosedBox(b: Chunk, r: Row, kids: seq<nat>)
    requires BlockFits(b, r, r) && r.RBox? && RowClosed(r) && r.kids == kids
    ensures BoxBlock(b, r.isObj, r.names, kids)
  {
    if r.isObj {
      FitsLaid(b, r, r);
    }
    hide NameTotal, Flat, NamesLaid;
  }

  lemma {:induction false} TreeHolds(nodes: Nodes, blocks: Blocks, fin: seq<Row>, c: Cst, self: nat, parent: Ref)
    requires Filled(nodes, blocks, fin, fin) && AllClosed(fin) && Segment(fin, self, CstRows(c, self, parent))
    ensures Holds(nodes, blocks, TreeOf(c, self), parent)
    decreases c
  {
    hide Filled, StrBytes, NumberOf, BlockFits, NodeHolds, CstRows, ForestRows, TreeOf, KidTrees, OwnRow, RowClosed;
    var t, rows := TreeOf(c, self), CstRows(c, self, parent);
    FirstRow(c, self, parent);
    assert rows == rows[..1] + rows[1..];
    SegmentSplit(fin, self, rows[..1], rows[1..]);
    assert fin[self] == fin[self..self + 1][0] == rows[0];
    if c.Box? {
      assert rows[1..] == ForestRows(c.items, self);
      ForestHolds(nodes, blocks, fin, c.items, self);
    }
    OwnHolds(nodes, blocks, fin, t, parent);
  }

  lemma KidTreesSnoc(items: seq<Item>, self: nat)
    requires items != []
    ensures var init, last := items[..|items| - 1], items[|items| - 1];
            var at := self + 1 + |ForestRows(init, self)|;
            && KidTrees(items, self) == KidTrees(init, self) + [TreeOf(last.val, at)]
            && ForestRows(items, self) == ForestRows(init, self) + CstRows(last.val, at, Ref(self))
  {
    hide TreeOf, CstRows;
  }

  lemma {:induction false} ForestHolds(nodes: Nodes, blocks: Blocks, fin: seq<Row>, items: seq<Item>, self: nat)
    requires Filled(nodes, blocks, fin, fin) && AllClosed(fin) && Segment(fin, self + 1, ForestRows(items, self))
    ensures forall k :: 0 <= k < |items| ==> Holds(nodes, blocks, KidTrees(items, self)[k], Ref(self))
    decreases items
  {
    hide Filled, AllClosed, CstRows, ForestRows, KidTrees, Holds, TreeOf, Segment;
    if items != [] {
      var init, last := items[..|items| - 1], items[|items| - 1];
      var front := ForestRows(init, self);
      var at := self + 1 + |front|;
      KidTreesSnoc(items, self);
      SegmentSplit(fin, self + 1, front, CstRows(last.val, at, Ref(self)));
      ForestHolds(nodes, blocks, fin, init, self);
      TreeHolds(nodes, blocks, fin, last.val, at, Ref(self));
    }
  }

  // ---------- It accounts for every allocation, once ----------

  // Everything in the log lies in [lo, hi); each node there is in it, and each block that a row of fin has.
  predicate Accounts(log: seq<Freed>, rows: seq<Row>, lo: nat) {
    && NoDup(log)
    && (forall x :: x in log ==> lo <= (if x.FNode? then x.a else x.b) < lo + |rows|)
    && (forall a :: lo <= a < lo + |rows| ==> FNode(a) in log)
    && (forall a :: lo <= a < lo + |rows| ==> (FBlock(a) in log <==> !rows[a - lo].RScalar?))
  }

  lemma AccountsJoin(a: seq<Freed>, ra: seq<Row>, b: seq<Freed>, rb: seq<Row>, lo: nat)
    requires Accounts(a, ra, lo) && Accounts(b, rb, lo + |ra|)
    ensures Accounts(b + a, ra + rb, lo)
  {
  }

  lemma {:induction false} TreeAccounts(c: Cst, self: nat, parent: Ref)
    ensures Accounts(FreeLog(TreeOf(c, self)), CstRows(c, self, parent), self)
    decreases c
  {
    var t := TreeOf(c, self);
    var row := CstRows(c, self, parent)[0];
    OwnAccounts(t, row);
    hide StrBytes, NumberOf, ScalarOf;
    if c.Box? {
      ForestAccounts(c.items, self);
      hide Accounts, ForestRows, KidTrees, Kids, Names;
      OwnLast(KidsLog(t.kids), ForestRows(c.items, self), t, row);
    }
  }

  lemma OwnAccounts(t: Tree, row: Row)
    requires match t
             case TLeaf(_, _) => row.RScalar?
             case TStr(a, b, _) => b == a && row.RStr?
             case TBox(a, b, _, _, _) => b == a && row.RBox?
    ensures Accounts(Own(t), [row], t.addr)
  {
  }

  lemma OwnLast(log: seq<Freed>, rows: seq<Row>, t: Tree, row: Row)
    requires Accounts(Own(t), [row], t.addr) && Accounts(log, rows, t.addr + 1)
    ensures Accounts(log + Own(t), [row] + rows, t.addr)
  {
  }

  lemma {:induction false} ForestAccounts(items: seq<Item>, self: nat)
    ensures Accounts(KidsLog(KidTrees(items, self)), ForestRows(items, self), self + 1)
    decreases items
  {
    if items != [] {
      var init, last := items[..|items| - 1], items[|items| - 1];
      ForestAccounts(init, self);
      TreeAccounts(last.val, self + 1 + |ForestRows(init, self)|, Ref(self));
      hide Accounts;
      ForestSnoc(items, self);
    }
  }

  lemma ForestSnoc(items: seq<Item>, self: nat)
    requires items != []
    requires var init, last := items[..|items| - 1], items[|items| - 1];
             var at := self + 1 + |ForestRows(init, self)|;
             && Accounts(KidsLog(KidTrees(init, self)), ForestRows(init, self), self + 1)
             && Accounts(FreeLog(TreeOf(last.val, at)), CstRows(last.val, at, Ref(self)), at)
    ensures Accounts(KidsLog(KidTrees(items, self)), ForestRows(items, self), self + 1)
  {
    hide Accounts, CstRows, TreeOf, FreeLog;
    var init, last := items[..|items| - 1], items[|items| - 1];
    var front := ForestRows(init, self);
    var at := self + 1 + |front|;
    var kids := KidTrees(items, self);
    assert kids[..|kids| - 1] == KidTrees(init, self);
    AccountsJoin(
      KidsLog(KidTrees(init, self)), front, FreeLog(TreeOf(last.val, at)), CstRows(last.val, at, Ref(self)), self + 1);
  }

  // Memory holds the tree of d, which denotes what d means, and nothing else.
  ghost predicate Delivered(nodes: Nodes, blocks: Blocks, root: Ref, d: Doc) {
    var t := TreeOf(d.val, 0);
    && root == Ref(t.addr)
    && Holds(nodes, blocks, t, NoRef) && NoDup(FreeLog(t)) && ValueOf(t) == Meaning(d.val, Int64)
    && (forall a: nat :: a in nodes <==> FNode(a) in FreeLog(t))
    && (forall b: nat :: b in blocks <==> FBlock(b) in FreeLog(t))
  }

  lemma BuiltTree(nodes: Nodes, blocks: Blocks, d: Doc)
    requires Filled(nodes, blocks, Final(d), Final(d)) && AllClosed(Final(d))
    ensures Delivered(nodes, blocks, Ref(0), d)
  {
    var fin := Final(d);
    assert fin[0..|fin|] == fin;
    TreeHolds(nodes, blocks, fin, d.val, 0, NoRef);
    TreeAccounts(d.val, 0, NoRef);
    BuiltValue(d.val, 0);
    hide Holds, TreeOf, FreeLog, CstRows, ValueOf, Meaning, BlockFits;
    var log := FreeLog(TreeOf(d.val, 0));
    forall b: nat ensures b in blocks <==> FBlock(b) in log {
      if b < |fin| {
        assert FBlock(b) in log <==> !fin[b - 0].RScalar?;
      }
    }
  }

  // The second pass may start on what the first has measured.
  lemma MeasuredStarts(m: Store, d: Doc)
    requires StoreOk(m) && m.first && m.rows == Final(d) && DocOk(d)
    ensures StoreOk(Store(false, m.nodes, m.blocks, m.nextNode, NoRef, m.root, [], m.rows))
    ensures Asked(false, 0, m.rows) == Asked(true, |m.rows|, m.fin)
  {
    CstRowsClosed(d.val, 0, NoRef);
    MeasuredIsUnfilled(m.nodes, m.rows);
    AskedAgain(m.rows);
    hide Measured, Filled, CstRows, AllClosed, AllBounded, WellFormed, Fits;
  }

  lemma FilledDelivers(m: Store, d: Doc)
    requires StoreOk(m) && !m.first && m.rows == Final(d) == m.fin
    ensures Delivered(m.nodes, m.blocks, m.root, d)
  {
    BuiltTree(m.nodes, m.blocks, d);
    hide Filled, AllClosed, AllBounded, Delivered;
  }

  lemma DeliveredTree(nodes: Nodes, blocks: Blocks, root: Ref, d: Doc)
    requires Delivered(nodes, blocks, root, d)
    ensures var t := TreeOf(d.val, 0); root == Ref(t.addr) && Holds(nodes, blocks, t, NoRef) && NoDup(FreeLog(t))
  {
  }

  // What is delivered determines the value.
  lemma DeliveredOnce(nodes: Nodes, blocks: Blocks, root: Ref, d: Doc, d': Doc)
    requires Delivered(nodes, blocks, root, d) && Delivered(nodes, blocks, root, d')
    ensures Meaning(d.val, Int64) == Meaning(d'.val, Int64)
  {
    hide Holds, FreeLog, NoDup, ValueOf, Meaning;
    SameTree(nodes, blocks, TreeOf(d.val, 0), TreeOf(d'.val, 0), NoRef, NoRef);
  }

  // Freeing the tree leaves nothing.
  lemma NothingLeft(n0: Nodes, b0: Blocks, root: Ref, d: Doc, n: Nodes, b: Blocks)
    requires Delivered(n0, b0, root, d)
    requires var log := FreeLog(TreeOf(d.val, 0)); Kept(log, n0, b0, n, b) && Gone(log, n, b)
    ensures n == map[] && b == map[]
  {
  }
}
