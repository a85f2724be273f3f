/**
 The two passes read numbers differently: the first with the digit, sign, dot and exponent machine, the
 second by skipping every byte of [0-9+-eE.]. On accepted texts both stop at the same place.
 */
module Skip {
  import opened Text
  import opened Numbers
  import opened Grammar
  import opened Machine
  import opened Soundness
  import opened Completeness

  // Where the skipping stops.
  function SkipEnd(text: Bytes, p: nat): (q: nat)
    requires p <= |text|
    ensures p <= q <= |text| && !IsNumberByte(At(text, q))
    decreases |text| - p
  {
    if IsNumberByte(At(text, p)) then SkipEnd(text, p + 1) else p
  }

  // The bytes of [0-9+-eE.].
  predicate OfNumber(b: Byte) {
    '0' as int <= b <= '9' as int || b in {'+' as int, '-' as int, 'e' as int, 'E' as int, '.' as int}
  }

  // The skip passes those, and stops at the first other byte or at the end.
  lemma {:induction false} SkipEndIff(text: Bytes, p: nat, q: nat)
    requires p <= q <= |text|
    ensures q == SkipEnd(text, p)
            <==> (forall k :: p <= k < q ==> OfNumber(text[k])) && (q < |text| ==> !OfNumber(text[q]))
    decreases |text| - p
  {
    if IsNumberByte(At(text, p)) {
      assert p < |text| && OfNumber(text[p]);
      if p < q {
        SkipEndIff(text, p + 1, q);
      }
    }
  }

  // A text that is accepted after a value was attached at p does not go on with
  // a byte of a number there.
  lemma NoNumberAfterValue(text: Bytes, p: nat, s: Stack, pre: Bytes, v: Cst)
    requires p <= |text| && AllAwaiting(s)
    requires Run(text, p, Attached(s, pre, v)).Accepted?
    ensures !IsNumberByte(At(text, p))
  {
  }

  lemma StepSoundHere(text: Bytes, i: nat, z: State)
    requires Inv(text, i, z)
    ensures Step(text, i, z).Next? ==> Inv(text, Step(text, i, z).i, Step(text, i, z).z)
  {
    if Step(text, i, z).Next? {
      StepSound(text, i, z);
    }
  }

  // One byte more of the number: the run goes on, and the skip passes the byte as well.
  lemma DigitMachineGoesOn(text: Bytes, p: nat, s: Stack, ws: Bytes, t: NumTok, t': NumTok)
    requires Inv(text, p, NumState(s, ws, t)) && StepNum(t, At(text, p)) == More(t')
    ensures p < |text| && Inv(text, p + 1, NumState(s, ws, t'))
    ensures Leads(text, p, NumState(s, ws, t), p + 1, NumState(s, ws, t'))
    ensures SkipEnd(text, p) == SkipEnd(text, p + 1)
  {
    hide Run, Leads, TokYield, StepNum, Spelled, AllAwaiting;
    var z, z' := NumState(s, ws, t), NumState(s, ws, t');
    assert Step(text, p, z) == Next(p + 1, z');
    StepNumYield(t, At(text, p));
    StepSound(text, p, z);
    OneStep(text, p, z, p + 1, z');
  }

  // The byte that ends a number of an accepted text ends the skip.
  lemma DigitMachineEnds(text: Bytes, p: nat, s: Stack, ws: Bytes, t: NumTok)
    requires Inv(text, p, NumState(s, ws, t)) && StepNum(t, At(text, p)) == Finished
    requires Run(text, p, NumState(s, ws, t)).Accepted?
    ensures TokOk(t) && SkipEnd(text, p) == p
    ensures Complete(p, s, ws, Num(t)).Next? && Inv(text, p, Attached(s, ws, Num(t)))
    ensures Run(text, p, NumState(s, ws, t)) == Run(text, p, Attached(s, ws, Num(t)))
  {
    hide TokYield, StepNum, Spelled, AllAwaiting, TokOk, FrameOk;
    var z := NumState(s, ws, t);
    assert Step(text, p, z) == Complete(p, s, ws, Num(t));
    StepNumYield(t, At(text, p));
    StepSoundHere(text, p, z);
    FromStep(text, p, z);
    hide Run;
    NoNumberAfterValue(text, p, s, ws, Num(t));
  }

  lemma {:induction false} DigitMachineStops(text: Bytes, p: nat, s: Stack, ws: Bytes, t: NumTok) returns (tok: NumTok)
    requires p <= |text| && Inv(text, p, NumState(s, ws, t))
    requires Run(text, p, NumState(s, ws, t)).Accepted?
    ensures TokOk(tok)
    ensures Complete(SkipEnd(text, p), s, ws, Num(tok)).Next?
    ensures Inv(text, SkipEnd(text, p), Attached(s, ws, Num(tok)))
    ensures Run(text, p, NumState(s, ws, t)) == Run(text, SkipEnd(text, p), Attached(s, ws, Num(tok)))
    decreases |text| - p
  {
    hide Inv, Run, StepNum, TokOk, Complete, Attached, SkipEnd, NumState;
    match StepNum(t, At(text, p))
    case More(t') =>
      DigitMachineGoesOn(text, p, s, ws, t, t');
      tok := DigitMachineStops(text, p + 1, s, ws, t');
    case Finished =>
      tok := t;
      DigitMachineEnds(text, p, s, ws, t);
    case Bad =>
      BadRejects(text, p, s, ws, t);
  }

  lemma BadRejects(text: Bytes, p: nat, s: Stack, ws: Bytes, t: NumTok)
    requires p <= |text| && StepNum(t, At(text, p)).Bad?
    ensures Run(text, p, NumState(s, ws, t)).Rejected?
  {
    hide StepNum;
  }

  // On every text the first pass accepts, the skip of the second pass started at
  // the same number stops exactly where the digit machine does.
  lemma NumberSkipAgrees(text: Bytes, i: nat, s: Stack, ws: Bytes) returns (tok: NumTok)
    requires Inv(text, i, State(s, Seek(ws))) && AllAwaiting(s) && Ready(s)
    requires At(text, i) == MINUS || IsDigit(At(text, i))
    requires Run(text, i, State(s, Seek(ws))).Accepted?
    ensures TokOk(tok)
    ensures Complete(SkipEnd(text, i), s, ws, Num(tok)).Next?
    ensures SkipEnd(text, i) > i && Inv(text, SkipEnd(text, i), Attached(s, ws, Num(tok)))
    ensures Run(text, i, State(s, Seek(ws))) == Run(text, SkipEnd(text, i), Attached(s, ws, Num(tok)))
  {
    var t := NumTok(At(text, i) == MINUS, [], None, None);
    var j := if t.neg then i + 1 else i;
    OneStep(text, i, State(s, Seek(ws)), j, NumState(s, ws, t));
    StepSound(text, i, State(s, Seek(ws)));
    hide Run, Inv, Step;
    tok := DigitMachineStops(text, j, s, ws, t);
  }

  // On its own the skip takes far more than a number.
  lemma SkipTakesMore()
    ensures var text := [DIGIT_0, MINUS, UPPER_E, DOT]; SkipEnd(text, 0) == |text| && Parse(text).Rejected?
  {
    var text := [DIGIT_0, MINUS, UPPER_E, DOT];
    assert SkipEnd(text, 4) == 4 && SkipEnd(text, 3) == 4 && SkipEnd(text, 2) == 4 && SkipEnd(text, 1) == 4;
    assert SkipEnd(text, 0) == 4;
    var t0 := NumTok(false, [], None, None);
    var t1 := t0.(ip := [DIGIT_0]);
    var z0, z1 := NumState(Bottom, [], t0), NumState(Bottom, [], t1);
    var z2 := State(Bottom, Done([], Num(t1), []));
    assert Step(text, 0, START) == Next(0, z0);
    assert t0.ip + [DIGIT_0] == t1.ip;
    assert Step(text, 0, z0) == Next(1, z1);
    assert Step(text, 1, z1) == Next(1, z2);
    assert Run(text, 1, z2) == Rejected;
    assert Run(text, 1, z1) == Rejected;
    assert Run(text, 0, z0) == Rejected;
  }
}
