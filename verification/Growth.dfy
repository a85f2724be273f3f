/**
 Along every run the table only grows, so each node's row at any moment is within the row it ends
 up with. This is what lets the second pass trust the sizes measured by the first.
 */
module Growth {
  import opened Text
  import opened Escape
  import opened Numbers
  import opened Grammar
  import opened Machine
  import opened Soundness
  import opened Table

  lemma AttachGrows(s: Stack, pre: Bytes, v: Cst)
    requires AllAwaiting(s)
    ensures Grows(Detached(s, v), Rows(Attached(s, pre, v)))
  {
    hide StackRows, CstRows, AllAwaiting, Detached, Rows, Attached, TableLe, StaysClosed, TopIndex;
    if s.Push? {
      AwaitingParts(s);
      AttachedRows(s, pre, v);
      var t := TopIndex(s);
      var r := Detached(s, v)[t];
      GrowsUpdate(Detached(s, v), t, r.(kids := r.kids + [|StackRows(s, [])|]));
    } else {
      AttachedRows(s, pre, v);
      GrowsRefl(Detached(s, v));
    }
  }

  lemma LastGrows(a: seq<Row>, x: Row, y: Row)
    requires RowLe(x, y) && (x.RScalar? && !x.open ==> !y.open)
    ensures Grows(a + [x], a + [y])
  {
  }

  // Any table the finished value extends is within the table after the value
  // is attached.
  lemma CompleteGrows(rows: seq<Row>, i: nat, s: Stack, pre: Bytes, v: Cst)
    requires AllAwaiting(s) && Grows(rows, Detached(s, v)) && Complete(i, s, pre, v).Next?
    ensures Grows(rows, Rows(Complete(i, s, pre, v).z))
  {
    AttachGrows(s, pre, v);
    hide StackRows, CstRows, Detached, Rows, Attached, TableLe, StaysClosed;
    GrowsTrans(rows, Detached(s, v), Rows(Complete(i, s, pre, v).z));
  }

  lemma BytesGrow(items: seq<StrItem>, it: StrItem)
    ensures |StrBytes(items)| <= |StrBytes(items + [it])|
  {
  }

  lemma TopGrows(s: Stack, cur: seq<Bytes>, f: Frame, cur': seq<Bytes>)
    requires s.Push? && f.items == s.top.items
    requires RowLe(FrameRow(s.top, TopIndex(s), TopRef(s.rest), cur), FrameRow(f, TopIndex(s), TopRef(s.rest), cur'))
    ensures Grows(StackRows(s, cur), StackRows(WithTop(s, f), cur'))
  {
    TopRow(s, cur);
    RetopRows(s, cur, f, cur');
    hide StackRows, FrameRow, RowLe;
    GrowsUpdate(StackRows(s, cur), TopIndex(s), FrameRow(f, TopIndex(s), TopRef(s.rest), cur'));
  }

  // Reading a key: nothing, then the key so far, then a name.
  lemma KeyGrows(s: Stack, cur: seq<Bytes>, cur': seq<Bytes>, part: Part)
    requires s.Push? && s.top.part.NoPart? && |cur| <= 1
    requires var names := PartNames(part) + cur';
             |cur| <= |names| <= 1 && (cur != [] ==> |cur[0]| <= |names[0]|)
    ensures Grows(StackRows(s, cur), StackRows(WithTop(s, s.top.(part := part)), cur'))
  {
    hide StrBytes, Names, StackRows, Kids, NameTotal;
    var base := Names(s.top.isObj, s.top.items);
    var names := PartNames(part) + cur';
    NamesGrow(base, cur, names);
    assert (base + []) + cur == base + cur;
    assert (base + PartNames(part)) + cur' == base + names;
    TopGrows(s, cur, s.top.(part := part), cur');
  }

  lemma NamesGrow(base: seq<Bytes>, cur: seq<Bytes>, names: seq<Bytes>)
    requires |cur| <= |names| <= 1 && (cur != [] ==> |cur[0]| <= |names[0]|)
    ensures |base + cur| <= |base + names| && NameTotal(base + cur) <= NameTotal(base + names)
  {
    if names != [] {
      NameTotalSnoc(base, names[0]);
      assert names == [names[0]];
    }
    if cur != [] {
      NameTotalSnoc(base, cur[0]);
      assert cur == [cur[0]];
    } else {
      assert base + cur == base;
    }
    if names == [] {
      assert base + names == base;
    }
  }

  lemma StrGrows(text: Bytes, i: nat, z: State)
    requires i <= |text| && StateOk(z) && z.mode.InStr? && StepStr(text, i, z.stack, z.mode).Next?
    ensures Grows(Rows(z), Rows(StepStr(text, i, z.stack, z.mode).z))
  {
    var m := z.mode;
    hide StrBytes, StackRows;
    if !m.escaped && At(text, i) == QUOTE {
      QuoteGrows(i, z);
    } else if !m.escaped && At(text, i) == BACKSLASH {
      GrowsRefl(Rows(z));
    } else {
      ItemGrows(z, StepStr(text, i, z.stack, m).z.mode.items[|m.items|]);
    }
  }

  lemma QuoteGrows(i: nat, z: State)
    requires StateOk(z) && z.mode.InStr?
    ensures z.mode.isKey ==>
              Grows(Rows(z), StackRows(WithTop(z.stack, z.stack.top.(part := KeyRead(z.mode.ws, z.mode.items))), []))
    ensures var r := Complete(i + 1, z.stack, z.mode.ws, Str(z.mode.items));
            !z.mode.isKey && r.Next? ==> Grows(Rows(z), Rows(r.z))
  {
    var s, m := z.stack, z.mode;
    hide StrBytes, StackRows, FrameOk;
    if m.isKey {
      KeyGrows(s, [StrBytes(m.items)], [], KeyRead(m.ws, m.items));
    } else if Complete(i + 1, s, m.ws, Str(m.items)).Next? {
      LastGrows(StackRows(s, []), RStr(TopRef(s), StrBytes(m.items), true), RStr(TopRef(s), StrBytes(m.items), false));
      CompleteGrows(Rows(z), i + 1, s, m.ws, Str(m.items));
    }
  }

  lemma ItemGrows(z: State, it: StrItem)
    requires StateOk(z) && z.mode.InStr?
    ensures Grows(Rows(z), Rows(z.(mode := z.mode.(items := z.mode.items + [it], escaped := false))))
  {
    var s, m := z.stack, z.mode;
    BytesGrow(m.items, it);
    hide StrBytes, StackRows, FrameOk;
    if m.isKey {
      KeyGrows(s, [StrBytes(m.items)], [StrBytes(m.items + [it])], NoPart);
    } else {
      LastGrows(StackRows(s, []), RStr(TopRef(s), StrBytes(m.items), true), RStr(TopRef(s), StrBytes(m.items + [it]), true));
    }
  }

  lemma LiteralGrows(text: Bytes, i: nat, z: State, word: Bytes, v: Cst)
    requires z.mode.Seek? && AllAwaiting(z.stack)
    requires StepLiteral(text, i, z.stack, z.mode.ws, word, v).Next?
    ensures Grows(Rows(z), Rows(StepLiteral(text, i, z.stack, z.mode.ws, word, v).z))
  {
    hide StackRows, CstRows;
    GrowsAppend(StackRows(z.stack, []), CstRows(v, |StackRows(z.stack, [])|, TopRef(z.stack)));
    CompleteGrows(Rows(z), i + |word|, z.stack, z.mode.ws, v);
  }

  lemma ValueGrows(text: Bytes, i: nat, z: State)
    requires i <= |text| && z.mode.Seek? && AllAwaiting(z.stack)
    requires StepValue(text, i, z.stack, z.mode.ws).Next?
    ensures Grows(Rows(z), Rows(StepValue(text, i, z.stack, z.mode.ws).z))
  {
    var s, ws := z.stack, z.mode.ws;
    var b := At(text, i);
    hide StackRows, CstRows, FrameOk, StrBytes;
    if b == LOWER_T {
      LiteralGrows(text, i, z, TRUE_BYTES, True);
    } else if b == LOWER_F {
      LiteralGrows(text, i, z, FALSE_BYTES, False);
    } else if b == LOWER_N {
      LiteralGrows(text, i, z, NULL_BYTES, Null);
    } else {
      NewBoxRows(s, b == LBRACE, ws);
    }
  }

  lemma SeekGrows(text: Bytes, i: nat, z: State)
    requires i <= |text| && StateOk(z) && z.mode.Seek? && StepSeek(text, i, z.stack, z.mode.ws).Next?
    ensures Grows(Rows(z), Rows(StepSeek(text, i, z.stack, z.mode.ws).z))
  {
    var s, ws := z.stack, z.mode.ws;
    var b := At(text, i);
    hide StackRows, CstRows, StrBytes, StepValue;
    if IsWs(b) {
    } else if b == RBRACKET {
      ClosedBoxRows(s, ws);
      CompleteGrows(Rows(z), i + 1, s.rest, s.top.pre, Box(false, s.top.items, ws));
    } else if NeedComma(s) {
      AddCommaRows(s, ws);
    } else if NeedColon(s) {
      TopGrows(s, [], s.top.(part := ColonRead(s.top.part.pre, s.top.part.key, ws)), []);
    } else {
      ValueGrows(text, i, z);
    }
  }

  lemma ObjGrows(text: Bytes, i: nat, z: State)
    requires i <= |text| && StateOk(z) && z.mode.InObj? && StepObj(text, i, z.stack, z.mode.ws).Next?
    ensures Grows(Rows(z), Rows(StepObj(text, i, z.stack, z.mode.ws).z))
  {
    var s, ws := z.stack, z.mode.ws;
    var b := At(text, i);
    hide StackRows, CstRows, StrBytes;
    if b == QUOTE {
      KeyGrows(s, [], [StrBytes([])], NoPart);
    } else if b == RBRACE {
      ClosedBoxRows(s, ws);
      CompleteGrows(Rows(z), i + 1, s.rest, s.top.pre, Box(true, s.top.items, ws));
    } else if b == COMMA {
      AddCommaRows(s, ws);
    }
  }

  lemma NumGrows(text: Bytes, i: nat, z: State)
    requires i <= |text| && StateOk(z) && z.mode.InNum? && StepNumber(text, i, z.stack, z.mode).Next?
    ensures Grows(Rows(z), Rows(StepNumber(text, i, z.stack, z.mode).z))
  {
    var s, m := z.stack, z.mode;
    hide StackRows, InProgress, NumberOf, StepNum;
    var row := RScalar(TopRef(s), SNum(InProgress(m.tok)), true);
    match StepNum(m.tok, At(text, i))
    case More(t) =>
      LastGrows(StackRows(s, []), row, RScalar(TopRef(s), SNum(InProgress(t)), true));
    case Finished =>
      LastGrows(StackRows(s, []), row, RScalar(TopRef(s), SNum(NumberOf(m.tok, Int64)), false));
      CompleteGrows(Rows(z), i, s, m.ws, Num(m.tok));
  }

  lemma StepGrows(text: Bytes, i: nat, z: State)
    requires i <= |text| && StateOk(z) && Step(text, i, z).Next?
    ensures Grows(Rows(z), Rows(Step(text, i, z).z))
  {
    match z.mode
    case Seek(_) => SeekGrows(text, i, z);
    case InObj(_) => ObjGrows(text, i, z);
    case InStr(_, _, _, _) => StrGrows(text, i, z);
    case InNum(_, _) => NumGrows(text, i, z);
    case Done(_, _, _) => GrowsRefl(Rows(z));
  }

  // Every state of an accepting run has its table within the final one.
  lemma {:induction false} RunGrows(text: Bytes, i: nat, z: State)
    requires Inv(text, i, z) && Run(text, i, z).Accepted?
    ensures Grows(Rows(z), Final(Run(text, i, z).doc))
    decreases |text| - i, Rank(text, i, z)
  {
    var r := Step(text, i, z);
    if r.Next? {
      StepSound(text, i, z);
      StepGrows(text, i, z);
      RunGrows(text, r.i, r.z);
      hide Inv, Rows, TableLe, StaysClosed;
      GrowsTrans(Rows(z), Rows(r.z), Final(Run(text, i, z).doc));
    } else {
      GrowsRefl(Rows(z));
    }
  }

  // What an accepting run says about its next state.
  lemma Ahead(text: Bytes, i: nat, z: State)
    requires Inv(text, i, z) && Run(text, i, z).Accepted?
    ensures var r := Step(text, i, z); var fin := Final(Run(text, i, z).doc);
            && !r.Reject? && Grows(Rows(z), fin)
            && (r.Next? ==>
                  && Inv(text, r.i, r.z) && Run(text, r.i, r.z) == Run(text, i, z)
                  && Grows(Rows(r.z), fin))
  {
    RunGrows(text, i, z);
    var r := Step(text, i, z);
    if r.Next? {
      StepSound(text, i, z);
      RunGrows(text, r.i, r.z);
    }
  }

  // ---------- Final tables ----------

  lemma {:induction false} CstRowsClosed(c: Cst, self: nat, parent: Ref)
    requires WellFormed(c) && Fits(c)
    ensures AllClosed(CstRows(c, self, parent)) && AllBounded(CstRows(c, self, parent))
    decreases c
  {
    if c.Str? {
      StringCountedIsWritten(c.str);
    }
    hide StrBytes, StrLength;
    if c.Box? {
      ForestClosed(c.isObj, c.items, self);
    }
  }

  lemma {:induction false} ForestClosed(isObj: bool, items: seq<Item>, self: nat)
    requires ItemsOk(isObj, items) && ItemsFit(items)
    ensures AllClosed(ForestRows(items, self)) && AllBounded(ForestRows(items, self))
    decreases items
  {
    if items != [] {
      var front := ForestRows(items[..|items| - 1], self);
      ForestClosed(isObj, items[..|items| - 1], self);
      CstRowsClosed(items[|items| - 1].val, self + 1 + |front|, Ref(self));
    }
  }

  // ---------- Child counts ----------

  predicate CountsBounded(rows: seq<Row>) {
    forall k :: 0 <= k < |rows| && rows[k].RBox? ==> |rows[k].kids| <= UINT_LIMIT
  }

  lemma BoundedCounts(rows: seq<Row>)
    requires AllBounded(rows)
    ensures CountsBounded(rows)
  {
  }

  lemma {:induction false} StackBounded(s: Stack, cur: seq<Bytes>)
    requires s.Push? ==> FrameOk(s.top) && AllAwaiting(s.rest)
    ensures CountsBounded(StackRows(s, cur))
    decreases s
  {
    if s.Push? {
      var below := StackRows(s.rest, []);
      StackBounded(s.rest, []);
      ForestClosed(s.top.isObj, s.top.items, |below|);
      BoundedCounts(ForestRows(s.top.items, |below|));
      hide ItemsOk, ItemsFit, ForestRows, AllBounded, AllClosed;
    }
  }

  // In every state no container has more children than uint_max.
  lemma ChildCountBound(z: State)
    requires StateOk(z)
    ensures CountsBounded(Rows(z))
  {
    if z.mode.Done? {
      CstRowsClosed(z.mode.val, 0, NoRef);
      BoundedCounts(CstRows(z.mode.val, 0, NoRef));
    } else {
      StackBounded(z.stack, if z.mode.InStr? && z.mode.isKey then [StrBytes(z.mode.items)] else []);
    }
    hide StackRows, CstRows, StrBytes, InProgress, WellFormed, Fits, ItemsOk, ItemsFit;
  }
}
