/**
 What a parse asks of the allocator, in order: a node for each value, then a block for each container
 and each string. The requests are a function of the tree, their sum is what the tree occupies, and
 they are linear in the length of the text.
 */
module Requests {
  import opened Text
  import opened Escape
  import opened Numbers
  import opened Grammar
  import opened Machine
  import opened Soundness
  import opened Growth
  import opened Table
  import opened Memory
  import opened Layout
  import opened Completeness

  // The size of a row's block, if it has one.
  function RowSizes(r: Row): seq<nat> {
    match r
    case RBox(_, isObj, names, kids, _) =>
      [if isObj then SIZEOF_MEMBER * |kids| + NameTotal(names) else |kids| * SIZEOF_REF]
    case RStr(_, bytes, _) => [|bytes| + 1]
    case RScalar(_, _, _) => []
  }

  function BlockRequests(rows: seq<Row>): seq<nat> {
    if rows == [] then [] else BlockRequests(rows[..|rows| - 1]) + RowSizes(rows[|rows| - 1])
  }

  function NodeRequests(n: nat): seq<nat> {
    if n == 0 then [] else NodeRequests(n - 1) + [SIZEOF_NODE]
  }

  // What has been asked for when n nodes have been visited: in the first pass those nodes, in the second all nodes
  // of the text and the blocks of those n.
  function Asked(first: bool, n: nat, fin: seq<Row>): seq<nat> {
    if first then NodeRequests(n)
    else NodeRequests(|fin|) + BlockRequests(if n <= |fin| then fin[..n] else fin)
  }

  // All that a parse of d asks for.
  function RequestsOf(d: Doc): seq<nat> {
    Asked(false, |Final(d)|, Final(d))
  }

  lemma AskedNext(n: nat, fin: seq<Row>)
    requires n < |fin|
    ensures Asked(false, n + 1, fin) == Asked(false, n, fin) + RowSizes(fin[n])
  {
    assert fin[..n + 1][..n] == fin[..n];
    hide RowSizes, NodeRequests;
  }

  lemma {:induction false} NodesFirst(n: nat, m: nat)
    requires n <= m
    ensures NodeRequests(n) <= NodeRequests(m)
  {
    if n < m {
      NodesFirst(n, m - 1);
    }
  }

  lemma {:induction false} BlocksInOrder(rows: seq<Row>, n: nat)
    requires n <= |rows|
    ensures BlockRequests(rows[..n]) <= BlockRequests(rows)
  {
    if n == |rows| {
      assert rows[..n] == rows;
    } else {
      var init := rows[..|rows| - 1];
      BlocksInOrder(init, n);
      assert init[..n] == rows[..n];
    }
  }

  // The next request of either pass is the next of the whole list.
  lemma NodeWithin(n: nat, fin: seq<Row>)
    requires n < |fin|
    ensures Asked(true, n, fin) + [SIZEOF_NODE] <= Asked(false, |fin|, fin)
  {
    NodesFirst(n + 1, |fin|);
    assert NodeRequests(n + 1) == NodeRequests(n) + [SIZEOF_NODE];
    hide NodeRequests, BlockRequests;
  }

  lemma BlockWithin(n: nat, fin: seq<Row>)
    requires n < |fin|
    ensures Asked(false, n, fin) + RowSizes(fin[n]) <= Asked(false, |fin|, fin)
  {
    AskedNext(n, fin);
    BlocksInOrder(fin, n + 1);
    assert fin[..|fin|] == fin;
    PrefixUnder(NodeRequests(|fin|), BlockRequests(fin[..n + 1]), BlockRequests(fin));
    hide NodeRequests, BlockRequests, RowSizes;
  }

  lemma PrefixUnder(a: seq<nat>, b: seq<nat>, c: seq<nat>)
    requires b <= c
    ensures a + b <= a + c
  {
  }

  // At the start of the second pass the nodes have been asked for, and no blocks.
  lemma AskedAgain(fin: seq<Row>)
    ensures Asked(false, 0, fin) == Asked(true, |fin|, fin)
  {
    assert fin[..0] == [];
  }

  // ---------- Their sum ----------

  // What the nodes and blocks of a table occupy.
  function TableSize(rows: seq<Row>): nat {
    if rows == [] then 0 else TableSize(rows[..|rows| - 1]) + SIZEOF_NODE + Sum(RowSizes(rows[|rows| - 1]))
  }

  lemma {:induction false} NodesSum(n: nat)
    ensures Sum(NodeRequests(n)) == n * SIZEOF_NODE
  {
    if n > 0 {
      NodesSum(n - 1);
      SumJoin(NodeRequests(n - 1), [SIZEOF_NODE]);
      assert Sum([SIZEOF_NODE]) == SIZEOF_NODE by { assert [SIZEOF_NODE][..0] == []; }
    }
  }

  lemma {:induction false} BlocksSum(rows: seq<Row>)
    ensures |rows| * SIZEOF_NODE + Sum(BlockRequests(rows)) == TableSize(rows)
  {
    if rows != [] {
      var init, last := rows[..|rows| - 1], rows[|rows| - 1];
      BlocksSum(init);
      SumJoin(BlockRequests(init), RowSizes(last));
      hide RowSizes;
    }
  }

  lemma RequestsSum(d: Doc)
    ensures Sum(RequestsOf(d)) == TableSize(Final(d))
  {
    var fin := Final(d);
    assert fin[..|fin|] == fin;
    NodesSum(|fin|);
    BlocksSum(fin);
    SumJoin(NodeRequests(|fin|), BlockRequests(fin));
    hide Final, NodeRequests, BlockRequests, TableSize;
  }

  // ---------- It is what memory holds ----------

  lemma OneSum(n: nat)
    ensures Sum([n]) == n
  {
    assert [n][..0] == [];
  }

  // A popped node asks for the block of its row.
  lemma PoppedAsks(nodes: Nodes, a: nat, cap: Row, next: Ref)
    requires a in nodes && nodes[a] == Node1(cap, next) && RowClosed(cap) && RowBounded(cap)
    ensures Poppable(nodes, a) && PoppedSizes(nodes, a) == RowSizes(cap)
  {
    hide NameTotal;
  }

  lemma BlockSize(b: Chunk, cap: Row)
    requires BlockFits(b, cap, cap) && !cap.RScalar?
    ensures RowSizes(cap) == [ChunkSize(b)]
  {
    hide NameTotal, Flat;
  }

  // What node k and its block occupy.
  lemma RowHeld(nodes: Nodes, blocks: Blocks, fin: seq<Row>, k: nat)
    requires Filled(nodes, blocks, fin, fin) && k < |fin|
    ensures k in nodes
    ensures Sum(RowSizes(fin[k])) == if k in blocks then ChunkSize(blocks[k]) else 0
  {
    var r := fin[k];
    hide BlockFits, Node2, ChunkSize;
    if r.RScalar? {
      NoSum(r);
    } else {
      BlockSize(blocks[k], r);
      OneSum(ChunkSize(blocks[k]));
    }
  }

  lemma {:induction false} FilledFootprint(nodes: Nodes, blocks: Blocks, fin: seq<Row>, n: nat)
    requires Filled(nodes, blocks, fin, fin) && n <= |fin|
    ensures Footprint(nodes, blocks, n) == TableSize(fin[..n])
  {
    hide Filled, RowSizes, ChunkSize, Sum;
    if n > 0 {
      FilledFootprint(nodes, blocks, fin, n - 1);
      assert fin[..n][..n - 1] == fin[..n - 1];
      RowHeld(nodes, blocks, fin, n - 1);
    }
  }

  // ---------- It is linear in the text ----------

  // What a byte of the text may cost: a node and a member's slot.
  const BYTES_PER_BYTE := SIZEOF_NODE + SIZEOF_MEMBER

  lemma {:induction false} TableJoin(a: seq<Row>, b: seq<Row>)
    ensures TableSize(a + b) == TableSize(a) + TableSize(b)
  {
    hide RowSizes;
    if b == [] {
      assert a + b == a;
    } else {
      assert (a + b)[..|a + b| - 1] == a + b[..|b| - 1];
      TableJoin(a, b[..|b| - 1]);
    }
  }

  lemma OneRow(r: Row)
    ensures TableSize([r]) == SIZEOF_NODE + Sum(RowSizes(r))
  {
    assert [r][..0] == [];
  }

  lemma YieldsByte(t: NumTok)
    requires TokOk(t)
    ensures |TokYield(t)| >= 1
  {
  }

  lemma {:induction false} TreeLinear(c: Cst, self: nat, parent: Ref)
    requires WellFormed(c)
    ensures TableSize(CstRows(c, self, parent)) + SIZEOF_MEMBER <= BYTES_PER_BYTE * |Yield(c)|
    decreases c
  {
    hide StrBytes, StrYield, NumberOf, TokYield, TokOk, Names, Kids, ForestRows, ItemsYield, ItemsOk, TableSize, Sum,
         NameTotal;
    var rows := CstRows(c, self, parent);
    OneRow(rows[0]);
    match c
    case Num(tok) =>
      YieldsByte(tok);
      NoSum(rows[0]);
    case Str(str) =>
      BytesFromText(str);
      OneSum(|StrBytes(str)| + 1);
    case Box(isObj, items, close) =>
      ForestLinear(isObj, items, self);
      TableJoin([rows[0]], ForestRows(items, self));
      BoxSum(rows[0], isObj, items);
    case _ =>
      NoSum(rows[0]);
  }

  lemma NoSum(r: Row)
    requires r.RScalar?
    ensures Sum(RowSizes(r)) == 0
  {
  }

  lemma BoxSum(r: Row, isObj: bool, items: seq<Item>)
    requires r.RBox? && r.isObj == isObj && r.names == Names(isObj, items) && |r.kids| == |items|
    ensures Sum(RowSizes(r)) <= SIZEOF_MEMBER * |items| + NameTotal(Names(isObj, items))
  {
    hide NameTotal, Names, Sum;
    OneSum(RowSizes(r)[0]);
  }

  lemma LastItem(isObj: bool, items: seq<Item>, self: nat)
    requires ItemsOk(isObj, items) && items != []
    ensures var init, last := items[..|items| - 1], items[|items| - 1];
            var front := ForestRows(init, self);
            && ItemsOk(isObj, init) && WellFormed(last.val) && last.lead.Keyed? == isObj
            && ForestRows(items, self) == front + CstRows(last.val, self + 1 + |front|, Ref(self))
            && |ItemsYield(items)| >= |ItemsYield(init)| + |LeadYield(last.lead)| + |Yield(last.val)|
  {
    hide CstRows, Yield, LeadYield, CommaYield, WellFormed, LeadOk;
  }

  lemma {:induction false} ForestLinear(isObj: bool, items: seq<Item>, self: nat)
    requires ItemsOk(isObj, items)
    ensures TableSize(ForestRows(items, self)) + SIZEOF_MEMBER * |items| + NameTotal(Names(isObj, items))
            <= BYTES_PER_BYTE * |ItemsYield(items)|
    decreases items
  {
    hide CstRows, ForestRows, ItemsYield, ItemsOk, TableSize, Yield, WellFormed, NameTotal, Names, LeadYield;
    if items == [] {
      NothingToHold(isObj);
    } else {
      var init, last := items[..|items| - 1], items[|items| - 1];
      var front := ForestRows(init, self);
      LastItem(isObj, items, self);
      ForestLinear(isObj, init, self);
      TreeLinear(last.val, self + 1 + |front|, Ref(self));
      TableJoin(front, CstRows(last.val, self + 1 + |front|, Ref(self)));
      assert items == init + [last];
      KeyLinear(isObj, init, last);
    }
  }

  lemma NothingToHold(isObj: bool)
    ensures NameTotal(Names(isObj, [])) == TableSize([]) == 0
    ensures forall self :: ForestRows([], self) == []
  {
  }

  lemma KeyLinear(isObj: bool, init: seq<Item>, it: Item)
    requires it.lead.Keyed? == isObj
    ensures NameTotal(Names(isObj, init + [it])) <= NameTotal(Names(isObj, init)) + |LeadYield(it.lead)|
  {
    hide StrBytes, StrYield, NameTotal;
    assert (init + [it])[..|init|] == init;
    if isObj {
      NameTotalSnoc(NamesOf(init), KeyBytes(it.lead));
      BytesFromText(it.lead.key);
    }
  }

  // A derivable text asks for less than 56 bytes a byte.
  lemma RequestsLinear(d: Doc, text: Bytes)
    requires Derives(d, text)
    ensures Sum(RequestsOf(d)) <= 56 * |text|
  {
    hide RequestsOf, Yield, WellFormed, Fits, CstRows, TableSize;
    RequestsSum(d);
    TreeLinear(d.val, 0, NoRef);
  }

  lemma StackLengths(s: Stack, cur: seq<Bytes>)
    requires s.Push?
    ensures var below := StackRows(s.rest, []);
            && |StackRows(s, cur)| == |below| + 1 + |ForestRows(s.top.items, |below|)|
            && |StackYield(s)| >= |StackYield(s.rest)| + 1 + |ItemsYield(s.top.items)|
  {
    hide ForestRows, ItemsYield, PartYield;
  }

  // And so do the open containers of any state.
  lemma {:induction false} StackLinear(s: Stack, cur: seq<Bytes>)
    requires s.Push? ==> FrameOk(s.top) && AllAwaiting(s.rest)
    ensures SIZEOF_NODE * |StackRows(s, cur)| <= BYTES_PER_BYTE * |StackYield(s)|
    decreases s
  {
    hide StackRows, StackYield, ForestRows, ItemsYield, FrameOk, AllAwaiting, ItemsOk, TableSize, NameTotal, Names;
    if s.Bottom? {
      NoStack(cur);
    } else {
      var below := StackRows(s.rest, []);
      FrameAbove(s);
      StackLinear(s.rest, []);
      StackLengths(s, cur);
      ForestLinear(s.top.isObj, s.top.items, |below|);
      RowsCounted(ForestRows(s.top.items, |below|));
      OneMore(|below|, |ForestRows(s.top.items, |below|)|, |StackYield(s.rest)|, |ItemsYield(s.top.items)|);
    }
  }

  lemma NoStack(cur: seq<Bytes>)
    ensures StackRows(Bottom, cur) == []
  {
  }

  lemma OneMore(m: nat, n: nat, a: nat, b: nat)
    requires SIZEOF_NODE * m <= BYTES_PER_BYTE * a && SIZEOF_NODE * n <= BYTES_PER_BYTE * b
    ensures SIZEOF_NODE * (m + 1 + n) <= BYTES_PER_BYTE * (a + 1 + b)
  {
  }

  lemma FrameAbove(s: Stack)
    requires s.Push? && FrameOk(s.top) && AllAwaiting(s.rest)
    ensures ItemsOk(s.top.isObj, s.top.items)
    ensures s.rest.Push? ==> FrameOk(s.rest.top) && AllAwaiting(s.rest.rest)
  {
    hide ItemsOk, ItemsFit;
  }

  lemma {:induction false} RowsCounted(rows: seq<Row>)
    ensures SIZEOF_NODE * |rows| <= TableSize(rows)
  {
    if rows != [] {
      RowsCounted(rows[..|rows| - 1]);
    }
  }

  // ---------- The request that is refused ----------

  // In state z at i, with n nodes created, one more is called for: it keeps to the linear bound, and an accepting
  // run goes on to have it.
  predicate Wanted(text: Bytes, i: nat, z: State, n: nat) {
    && i <= |text| && SIZEOF_NODE * (n + 1) <= BYTES_PER_BYTE * |text|
    && (Run(text, i, z).Accepted? ==> n < |Final(Run(text, i, z).doc)|)
  }

  lemma StackWithin(text: Bytes, i: nat, z: State)
    requires Inv(text, i, z) && z.mode.Seek? && AllAwaiting(z.stack) && At(text, i) != 0
    ensures SIZEOF_NODE * (|Rows(z)| + 1) <= BYTES_PER_BYTE * |text|
  {
    hide StackRows, StackYield, FrameOk;
    StackLinear(z.stack, []);
    assert |StackYield(z.stack)| <= i;
    OneMore(|StackRows(z.stack, [])|, 0, |StackYield(z.stack)|, 0);
  }

  lemma NodeWanted(text: Bytes, i: nat, z: State)
    requires Inv(text, i, z) && z.mode.Seek? && AllAwaiting(z.stack) && At(text, i) != 0
    requires Step(text, i, z).Next? ==> |Rows(Step(text, i, z).z)| == |Rows(z)| + 1
    ensures Wanted(text, i, z, |Rows(z)|)
  {
    StackWithin(text, i, z);
    NoAccept(text, i, z);
    hide Inv, Run, Step, Rows, AllAwaiting, Final;
    if Run(text, i, z).Accepted? {
      Ahead(text, i, z);
    }
  }

  lemma NoAccept(text: Bytes, i: nat, z: State)
    requires i <= |text| && z.mode.Seek?
    ensures !Step(text, i, z).Accept?
  {
  }

  lemma WantedFromStart(text: Bytes, i: nat, z: State, n: nat)
    requires Leads(text, 0, START, i, z) && Wanted(text, i, z, n)
    ensures Wanted(text, 0, START, n)
  {
    hide Run, Final;
  }

  // ---------- Running out of memory ----------

  // The request for denied bytes comes after those in granted: it is for one more node of the first pass,
  // or the next of all requests that the text's tree makes.
  ghost predicate Short(text: Bytes, granted: seq<nat>, denied: nat) {
    || (denied == SIZEOF_NODE && exists n: nat :: granted == NodeRequests(n) && Wanted(text, 0, START, n))
    || (Parse(text).Accepted? && granted + [denied] <= RequestsOf(Parse(text).doc))
  }

  // Memory is no concern: mem_alloc never fails, and the limit leaves room for what the text may cost.
  ghost predicate Ample(max: nat, grants: nat -> bool, text: Bytes) {
    && (forall n: nat :: grants(n))
    && 56 * |text| <= 0xFFFF_FFFF_FFFF_FFF7
    && (max > 0 ==> 56 * |text| <= max)
  }

  lemma ShortOfNext(text: Bytes, granted: seq<nat>, denied: nat, d: Doc)
    requires Short(text, granted, denied) && Parse(text) == Accepted(d)
    ensures granted + [denied] <= RequestsOf(d)
  {
    hide Parse, Final;
    if denied == SIZEOF_NODE && exists n: nat :: granted == NodeRequests(n) && Wanted(text, 0, START, n) {
      var n: nat :| granted == NodeRequests(n) && Wanted(text, 0, START, n);
      StartAccepts(text, d);
      NodeWithin(n, Final(d));
    }
  }

  lemma StartAccepts(text: Bytes, d: Doc)
    requires Parse(text) == Accepted(d)
    ensures Run(text, 0, START) == Accepted(d)
  {
  }

  lemma {:induction false} SumPrefix(a: seq<nat>, b: seq<nat>)
    requires a <= b
    ensures Sum(a) <= Sum(b)
  {
    assert b == a + b[|a|..];
    SumJoin(a, b[|a|..]);
  }

  lemma ShortBound(text: Bytes, granted: seq<nat>, denied: nat)
    requires Short(text, granted, denied)
    ensures Sum(granted) + denied <= BYTES_PER_BYTE * |text|
  {
    hide Parse, Derives, RequestsOf, Sum, NodeRequests, Final;
    if denied == SIZEOF_NODE && exists n: nat :: granted == NodeRequests(n) && Wanted(text, 0, START, n) {
      var n: nat :| granted == NodeRequests(n) && Wanted(text, 0, START, n);
      NodesSum(n);
    } else {
      var d := Parse(text).doc;
      ParseIffDerives(text, d);
      RequestsLinear(d, text);
      SumPrefix(granted + [denied], RequestsOf(d));
      SumJoin(granted, [denied]);
      OneSum(denied);
    }
  }

  // A refused request is one that a tree of the text could not do without, and it is never refused where memory is
  // ample.
  lemma Shortage(text: Bytes, granted: seq<nat>, denied: nat, max: nat, grants: nat -> bool)
    requires Short(text, granted, denied) && !Allowed(max, grants, granted, denied)
    ensures forall d :: Derives(d, text) ==> !Affordable(max, grants, RequestsOf(d))
    ensures Sum(granted) + denied <= 56 * |text|
    ensures !Ample(max, grants, text)
  {
    hide Parse, Derives, RequestsOf, Affordable, Short, Sum;
    ShortBound(text, granted, denied);
    forall d | Derives(d, text) ensures !Affordable(max, grants, RequestsOf(d)) {
      ParseIffDerives(text, d);
      ShortOfNext(text, granted, denied, d);
      AffordableSnoc(max, grants, granted, denied);
      if Affordable(max, grants, RequestsOf(d)) {
        AffordablePrefix(max, grants, granted + [denied], RequestsOf(d));
        assert false;
      }
    }
  }

  // What has been granted in the end is what memory holds.
  lemma Paid(m: Store, d: Doc)
    requires StoreOk(m) && !m.first && m.rows == Final(d) == m.fin
    ensures Footprint(m.nodes, m.blocks, m.nextNode) == Sum(RequestsOf(d))
  {
    hide Filled, Final, RequestsOf, Footprint, TableSize, Sum, AllClosed, AllBounded;
    RequestsSum(d);
    FilledFootprint(m.nodes, m.blocks, m.fin, |m.fin|);
    assert m.fin[..|m.fin|] == m.fin;
  }

  // The first pass starts on nothing, having asked for nothing.
  lemma EmptyStart()
    ensures StoreOk(Store(true, map[], map[], 0, NoRef, NoRef, [], []))
    ensures Asked(true, 0, []) == []
  {
  }

  lemma AskedNode(n: nat, fin: seq<Row>)
    ensures Asked(true, n + 1, fin) == Asked(true, n, fin) + [SIZEOF_NODE]
  {
  }
}
