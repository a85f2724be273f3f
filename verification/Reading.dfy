/**
 What the result is to whoever reads it: the value found by following the pointers from the root, what that
 value has to do with the text's tree, and how many bytes it occupies. None of it is said in terms of the
 table of rows or of the trees that the proofs about the two passes use.
 */
module Reading {
  import opened Text
  import opened Escape
  import opened Numbers
  import opened Grammar
  import opened Table
  import opened Memory
  import opened Requests
  import opened Built
  import opened Spelling
  import opened Rfc

  // ---------- Following the pointers ----------

  // A reader of the node at address a finds the value v.
  predicate Denotes(nodes: Nodes, blocks: Blocks, a: nat, v: Value)
    decreases v
  {
    a in nodes &&
    var node := nodes[a];
    match v
    case VNull => node.kind == KNull
    case VBool(b) => node.kind == KBoolean && node.u == UBool(b)
    case VNumber(Int(n)) => node.kind == KInteger && node.u == UInt(n)
    case VNumber(Real(r)) => node.kind == KDouble && node.u == UDbl(r)
    case VString(s) =>
      && node.kind == KString && node.u.UString? && node.u.length == |s| && node.u.ptr.Ref?
      && node.u.ptr.addr in blocks && blocks[node.u.ptr.addr] == StrBlock(s + [0])
    case VArray(elems) =>
      && node.kind == KArray && node.u.UBox? && node.u.length == |elems| && node.u.values.Block?
      && node.u.values.a in blocks && blocks[node.u.values.a].ArrBlock?
      && var slots := blocks[node.u.values.a].slots;
         && |slots| == |elems|
         && forall k :: 0 <= k < |elems| ==>
              IsChild(nodes, slots[k], a) && Denotes(nodes, blocks, slots[k].addr, elems[k])
    case VObject(members) =>
      && node.kind == KObject && node.u.UBox? && node.u.length == |members| && node.u.values.Block?
      && node.u.values.a in blocks && blocks[node.u.values.a].ObjBlock?
      && var slots, names := blocks[node.u.values.a].members, blocks[node.u.values.a].names;
         && |slots| == |members|
         && forall k :: 0 <= k < |members| ==>
              && NameAt(names, slots[k].name, members[k].name) && IsChild(nodes, slots[k].value, a)
              && Denotes(nodes, blocks, slots[k].value.addr, members[k].value)
  }

  // A pointer to a live node whose parent is at a.
  predicate IsChild(nodes: Nodes, r: Ref, a: nat) {
    r.Ref? && r.addr in nodes && nodes[r.addr].parent == Ref(a)
  }

  // The name stands at the offset, with its terminator.
  predicate NameAt(names: seq<int>, off: int, name: Bytes) {
    0 <= off <= off + |name| < |names| && names[off..off + |name|] == name && names[off + |name|] == 0
  }

  lemma {:induction false} ValueAt(kids: seq<Tree>, k: nat)
    requires k < |kids|
    ensures |ValuesOf(kids)| == |kids| && ValuesOf(kids)[k] == ValueOf(kids[k])
  {
    hide ValueOf;
    var last := |kids| - 1;
    if last > 0 {
      ValueAt(kids[..last], if k < last then k else 0);
    }
  }

  lemma {:induction false} PairAt(names: seq<Bytes>, kids: seq<Tree>, k: nat)
    requires k < |kids| == |names|
    ensures |PairsOf(names, kids)| == |kids| && PairsOf(names, kids)[k] == Pair(names[k], ValueOf(kids[k]))
  {
    hide ValueOf;
    var last := |kids| - 1;
    if last > 0 {
      PairAt(names[..last], kids[..last], if k < last then k else 0);
    }
  }

  lemma LaidNameAt(b: Chunk, names: seq<Bytes>, k: nat)
    requires NamesLaid(b, names) && k < |names|
    ensures NameAt(b.names, b.members[k].name, names[k])
  {
    assert NameLaid(b, names, k);
    var off, n := b.members[k].name, |names[k]|;
    var s := b.names[off..off + n + 1];
    assert s == names[k] + [0];
    assert b.names[off..off + n] == s[..n] == names[k];
    assert b.names[off + n] == s[n];
  }

  // Where memory holds a tree, its reader finds the tree's value.
  lemma {:induction false} HoldsDenotes(nodes: Nodes, blocks: Blocks, t: Tree, parent: Ref)
    requires Holds(nodes, blocks, t, parent)
    ensures nodes[t.addr].parent == parent && Denotes(nodes, blocks, t.addr, ValueOf(t))
    decreases t
  {
    if t.TBox? {
      forall k | 0 <= k < |t.kids|
        ensures IsChild(nodes, Ref(t.kids[k].addr), t.addr)
        ensures Denotes(nodes, blocks, t.kids[k].addr, ValueOf(t.kids[k]))
      {
        HoldsDenotes(nodes, blocks, t.kids[k], Ref(t.addr));
      }
      BoxDenotes(nodes, blocks, t, parent);
    }
  }

  lemma BoxDenotes(nodes: Nodes, blocks: Blocks, t: Tree, parent: Ref)
    requires t.TBox? && NodeHolds(nodes, blocks, t, |t.kids|, parent)
    requires forall k :: 0 <= k < |t.kids| ==>
               IsChild(nodes, Ref(t.kids[k].addr), t.addr) && Denotes(nodes, blocks, t.kids[k].addr, ValueOf(t.kids[k]))
    ensures Denotes(nodes, blocks, t.addr, ValueOf(t))
  {
    hide NamesLaid, KidAddrs, NameAt;
    var b := blocks[t.block];
    if t.isObj {
      assert |PairsOf(t.names, t.kids)| == |t.kids| by {
        if t.kids != [] { PairAt(t.names, t.kids, 0); }
      }
      forall k | 0 <= k < |t.kids|
        ensures PairsOf(t.names, t.kids)[k] == Pair(t.names[k], ValueOf(t.kids[k]))
        ensures NameAt(b.names, b.members[k].name, t.names[k]) && b.members[k].value == Ref(t.kids[k].addr)
      {
        PairAt(t.names, t.kids, k);
        LaidNameAt(b, t.names, k);
      }
    } else {
      assert |ValuesOf(t.kids)| == |t.kids| by {
        if t.kids != [] { ValueAt(t.kids, 0); }
      }
      forall k | 0 <= k < |t.kids|
        ensures ValuesOf(t.kids)[k] == ValueOf(t.kids[k]) && b.slots[k] == Ref(t.kids[k].addr)
      {
        ValueAt(t.kids, k);
      }
    }
  }

  // root has no parent, and its reader finds the value v.
  predicate Reads(nodes: Nodes, blocks: Blocks, root: Ref, v: Value) {
    root.Ref? && Denotes(nodes, blocks, root.addr, v) && nodes[root.addr].parent == NoRef
  }

  // What is delivered reads as the meaning of the text.
  lemma DeliveredReads(nodes: Nodes, blocks: Blocks, root: Ref, d: Doc)
    requires Delivered(nodes, blocks, root, d)
    ensures Reads(nodes, blocks, root, Meaning(d.val, Int64))
  {
    hide Holds, FreeLog, NoDup, ValueOf, Meaning, Denotes;
    HoldsDenotes(nodes, blocks, TreeOf(d.val, 0), NoRef);
  }

  // ---------- What a tree means ----------

  // The number that a token spells. An integer is stored modulo 2^64. A double is all its digits, scaled by its
  // exponent less the number of digits behind the dot, as long as no group of digits exceeds 63 bits.
  predicate NumberMeans(t: NumTok, n: Number) {
    if t.frac.None? && t.exp.None? then
      && n.Int? && -0x8000_0000_0000_0000 <= n.n <= 0x7FFF_FFFF_FFFF_FFFF
      && (n.n - (if t.neg then -Decimal(t.ip) else Decimal(t.ip))) % 0x1_0000_0000_0000_0000 == 0
    else
      && n.Real?
      && (Decimal(t.ip) <= 0x7FFF_FFFF_FFFF_FFFF
          && (t.frac.Some? ==> Decimal(t.frac.value) <= 0x7FFF_FFFF_FFFF_FFFF)
          && (t.exp.Some? ==> Decimal(t.exp.value.digits) <= 0x7FFF_FFFF_FFFF_FFFF)
          ==> n.r == (if t.neg then -1.0 else 1.0)
                     * (Decimal(t.ip + FracDigits(t)) as real * Scale10(TokenExponent(t) - |FracDigits(t)|)))
  }

  // v is what the tree c stands for; members keep their order, and names may be repeated.
  predicate Means(c: Cst, v: Value)
    decreases c
  {
    match c
    case Null => v == VNull
    case True => v == VBool(true)
    case False => v == VBool(false)
    case Num(tok) => v.VNumber? && NumberMeans(tok, v.n)
    case Str(str) => v.VString? && StringStored(str, v.s)
    case Box(isObj, items, _) =>
      if isObj then
        && v.VObject? && |v.members| == |items|
        && forall k :: 0 <= k < |items| ==> MemberMeans(items[k], v.members[k])
      else
        && v.VArray? && |v.elems| == |items|
        && forall k :: 0 <= k < |items| ==> Means(items[k].val, v.elems[k])
  }

  predicate MemberMeans(it: Item, p: Pair)
    decreases it
  {
    it.lead.Keyed? && StringStored(it.lead.key, p.name) && Means(it.val, p.value)
  }

  lemma WrapIs(x: int)
    ensures -0x8000_0000_0000_0000 <= Wrap64(x) <= 0x7FFF_FFFF_FFFF_FFFF
    ensures (Wrap64(x) - x) % 0x1_0000_0000_0000_0000 == 0
  {
    var q := (x + TWO_64 / 2) / TWO_64;
    assert Wrap64(x) - x == -q * TWO_64;
    DivUnique(-q * TWO_64, -q, 0);
  }

  lemma WrapNegated(x: int)
    ensures Wrap64(-Wrap64(x)) == Wrap64(-x)
  {
    var q := (x + TWO_64 / 2) / TWO_64;
    assert -Wrap64(x) == -x + q * TWO_64;
    WrapShift(-x, q);
  }

  lemma StoredMeans(t: NumTok)
    requires TokOk(t)
    ensures NumberMeans(t, NumberOf(t, Int64))
  {
    hide Wrap64, Decimal, Power10, Scale10;
    if IsDouble(t) {
      assert Decimal([]) == 0 by { AccumulateDigit([], 0); }
      if InRange(t) {
        StoredExactly(t);
        DoubleMeaning(t);
      }
    } else {
      var x := Decimal(t.ip);
      WrapIs(x);
      WrapIs(-x);
      WrapNegated(x);
    }
  }

  // What the parser takes a correct tree to mean is what it means.
  lemma {:induction false} MeaningIsMeant(c: Cst)
    requires Correct(c)
    ensures Means(c, Meaning(c, Int64))
    decreases c
  {
    hide NumberOf, NumberMeans, NumberCorrect, TokOk, StringStored, StringCorrect, StrBytes, MembersCorrect, Elems,
         Members, MemberMeans;
    match c
    case Num(tok) =>
      NumberCorrectIs(tok);
      StoredMeans(tok);
    case Str(str) => StringStoredIff(str, StrBytes(str));
    case Box(isObj, items, _) => MembersMeant(isObj, items);
    case _ =>
  }

  lemma {:induction false} MembersMeant(isObj: bool, items: seq<Item>)
    requires MembersCorrect(isObj, items)
    ensures forall k :: 0 <= k < |items| ==> Means(items[k].val, Elems(items, Int64)[k])
    ensures isObj ==> forall k :: 0 <= k < |items| ==> MemberMeans(items[k], Members(items, Int64)[k])
    decreases items
  {
    hide Correct, Meaning, Means, StringStored, StringCorrect, StrBytes;
    if items != [] {
      var last := items[|items| - 1];
      MembersMeant(isObj, items[..|items| - 1]);
      MeaningIsMeant(last.val);
      if isObj {
        StringStoredIff(last.lead.key, StrBytes(last.lead.key));
      }
    }
  }

  lemma NumberMeantIff(t: NumTok, n: Number)
    requires TokOk(t) && InRange(t)
    ensures NumberMeans(t, n) <==> n == NumberOf(t, Int64)
  {
    hide Wrap64, Decimal, Power10, Scale10;
    StoredMeans(t);
    assert Decimal([]) == 0 by { AccumulateDigit([], 0); }
    if NumberMeans(t, n) && !IsDouble(t) {
      SameResidue(n.n, NumberOf(t, Int64).n, if t.neg then -Decimal(t.ip) else Decimal(t.ip));
    }
  }

  lemma SameResidue(n: int, m: int, x: int)
    requires -0x8000_0000_0000_0000 <= n <= 0x7FFF_FFFF_FFFF_FFFF && -0x8000_0000_0000_0000 <= m <= 0x7FFF_FFFF_FFFF_FFFF
    requires (n - x) % 0x1_0000_0000_0000_0000 == 0 == (m - x) % 0x1_0000_0000_0000_0000
    ensures n == m
  {
    var q, r := (n - x) / 0x1_0000_0000_0000_0000, (m - x) / 0x1_0000_0000_0000_0000;
    assert n - m == (q - r) * 0x1_0000_0000_0000_0000;
  }

  // As long as all numbers are within 63 bits, a tree means one value.
  lemma {:induction false} MeantIff(c: Cst, v: Value)
    requires Correct(c) && NumbersInRange(c)
    ensures Means(c, v) <==> v == Meaning(c, Int64)
    decreases c
  {
    hide NumberOf, NumberMeans, InRange, NumberCorrect, TokOk, StringStored, StringCorrect, StrBytes, MembersCorrect,
         Elems, Members, MemberMeans, ItemsInRange;
    MeaningIsMeant(c);
    if Means(c, v) {
      match c
      case Num(tok) =>
        NumberCorrectIs(tok);
        NumberMeantIff(tok, v.n);
      case Str(str) => StringStoredIff(str, v.s);
      case Box(isObj, items, _) =>
        if isObj { MembersMeantIff(items, v.members); } else { ElemsMeantIff(items, v.elems); }
      case _ =>
    }
  }

  lemma {:induction false} ElemsMeantIff(items: seq<Item>, elems: seq<Value>)
    requires MembersCorrect(false, items) && ItemsInRange(items) && |elems| == |items|
    requires forall k :: 0 <= k < |items| ==> Means(items[k].val, elems[k])
    ensures elems == Elems(items, Int64)
    decreases items
  {
    hide Correct, Meaning, Means, StringCorrect, NumbersInRange;
    if items != [] {
      var last := |items| - 1;
      ElemsMeantIff(items[..last], elems[..last]);
      MeantIff(items[last].val, elems[last]);
    }
  }

  lemma {:induction false} MembersMeantIff(items: seq<Item>, members: seq<Pair>)
    requires MembersCorrect(true, items) && ItemsInRange(items) && |members| == |items|
    requires forall k :: 0 <= k < |items| ==> MemberMeans(items[k], members[k])
    ensures members == Members(items, Int64)
    decreases items
  {
    hide Correct, Meaning, Means, StringStored, StringCorrect, StrBytes, NumbersInRange;
    if items != [] {
      var last := |items| - 1;
      MembersMeantIff(items[..last], members[..last]);
      assert MemberMeans(items[last], members[last]);
      MeantIff(items[last].val, members[last].value);
      StringStoredIff(items[last].lead.key, members[last].name);
    }
  }

  // ---------- What a value occupies ----------

  // The bytes of the value's nodes and blocks: 40 for each node, the bytes of a string and its terminator, 8 for
  // each element of an array, 16 for each member of an object, and its name with the terminator.
  function Cost(v: Value): nat
    decreases v
  {
    match v
    case VString(s) => 40 + |s| + 1
    case VArray(elems) => 40 + ElemsCost(elems)
    case VObject(members) => 40 + MembersCost(members)
    case _ => 40
  }

  function ElemsCost(elems: seq<Value>): nat
    decreases elems
  {
    if elems == [] then 0 else ElemsCost(elems[..|elems| - 1]) + 8 + Cost(elems[|elems| - 1])
  }

  function MembersCost(members: seq<Pair>): nat
    decreases members
  {
    if members == [] then 0
    else
      var last := members[|members| - 1];
      MembersCost(members[..|members| - 1]) + 16 + |last.name| + 1 + Cost(last.value)
  }

  lemma {:induction false} TreeCosts(c: Cst, self: nat, parent: Ref)
    ensures TableSize(CstRows(c, self, parent)) == Cost(Meaning(c, Int64))
    decreases c
  {
    hide StrBytes, NumberOf, Names, Kids, ForestRows, Elems, Members, ElemsCost, MembersCost, TableSize, Sum, NameTotal;
    var rows := CstRows(c, self, parent);
    OneRow(rows[0]);
    match c
    case Str(str) => OneSum(|StrBytes(str)| + 1);
    case Box(isObj, items, _) =>
      ForestCosts(isObj, items, self);
      TableJoin([rows[0]], ForestRows(items, self));
      OneSum(RowSizes(rows[0])[0]);
    case _ =>
      NoSum(rows[0]);
  }

  lemma {:induction false} ForestCosts(isObj: bool, items: seq<Item>, self: nat)
    ensures TableSize(ForestRows(items, self))
            + (if isObj then 16 * |items| + NameTotal(Names(isObj, items)) else 8 * |items|)
            == if isObj then MembersCost(Members(items, Int64)) else ElemsCost(Elems(items, Int64))
    decreases items
  {
    hide CstRows, StrBytes, Meaning, Cost;
    if items != [] {
      var init, last := items[..|items| - 1], items[|items| - 1];
      var front := ForestRows(init, self);
      ForestCosts(isObj, init, self);
      TreeCosts(last.val, self + 1 + |front|, Ref(self));
      TableJoin(front, CstRows(last.val, self + 1 + |front|, Ref(self)));
      NameTotalSnoc(NamesOf(init), KeyBytes(last.lead));
      hide TableSize, NameTotal;
    }
  }

  // What a parse asks for is what the value occupies, whatever the spelling.
  lemma RequestsCost(d: Doc)
    ensures Sum(RequestsOf(d)) == Cost(Meaning(d.val, Int64))
  {
    hide RequestsOf, CstRows, Sum, TableSize, Meaning;
    RequestsSum(d);
    TreeCosts(d.val, 0, NoRef);
  }

  // With a limit and a mem_alloc that never fails, the requests are granted exactly when their sum keeps to it.
  lemma {:induction false} LimitedIff(max: nat, grants: nat -> bool, g: seq<nat>)
    requires max > 0 && forall n: nat :: grants(n)
    ensures Affordable(max, grants, g) <==> Sum(g) <= max && Sum(g) <= 0xFFFF_FFFF_FFFF_FFF7
  {
    if g != [] {
      LimitedIff(max, grants, g[..|g| - 1]);
    }
  }

  // With no limit, exactly when none of them alone is beyond the counter.
  lemma {:induction false} UnlimitedIff(grants: nat -> bool, g: seq<nat>)
    requires forall n: nat :: grants(n)
    ensures Affordable(0, grants, g) <==> forall k :: 0 <= k < |g| ==> g[k] <= 0xFFFF_FFFF_FFFF_FFF7
  {
    if g != [] {
      UnlimitedIff(grants, g[..|g| - 1]);
    }
  }

  lemma CostDecides(d: Doc, max: nat, grants: nat -> bool)
    requires max > 0 && forall n: nat :: grants(n)
    ensures var n := Cost(Meaning(d.val, Int64));
            Affordable(max, grants, RequestsOf(d)) <==> n <= max && n <= 0xFFFF_FFFF_FFFF_FFF7
  {
    hide RequestsOf, Affordable, Cost, Sum, Meaning;
    RequestsCost(d);
    LimitedIff(max, grants, RequestsOf(d));
  }
}
