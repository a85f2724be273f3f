/**
 Number tokens: the digit, sign, dot and exponent machine of the first pass, what a token denotes,
 and the registers in which the parser accumulates it.
 */
module Numbers {
  import opened Text

  datatype Option<+T> = None | Some(value: T)

  datatype Exponent = Exponent(mark: Byte, sign: Option<Byte>, digits: Bytes)

  // A number token, complete or as far as it has been read.
  datatype NumTok = NumTok(neg: bool, ip: Bytes, frac: Option<Bytes>, exp: Option<Exponent>)

  predicate IsE(b: Byte) {
    b == LOWER_E || b == UPPER_E
  }

  predicate IsSign(b: Byte) {
    b == PLUS || b == MINUS
  }

  function SignYield(sign: Option<Byte>): Bytes {
    if sign.Some? then [sign.value] else []
  }

  function ExpYield(exp: Option<Exponent>): Bytes {
    if exp.None? then [] else [exp.value.mark] + SignYield(exp.value.sign) + exp.value.digits
  }

  function FracYield(frac: Option<Bytes>): Bytes {
    if frac.None? then [] else [DOT] + frac.value
  }

  function TokYield(t: NumTok): Bytes {
    (if t.neg then [MINUS] else []) + t.ip + FracYield(t.frac) + ExpYield(t.exp)
  }

  // No leading zero, and a fraction needs an integer part.
  predicate IpOk(t: NumTok) {
    && AllDigits(t.ip)
    && (|t.ip| > 1 ==> t.ip[0] != DIGIT_0)
    && (t.frac.Some? ==> t.ip != [])
  }

  predicate ExpOk(e: Exponent) {
    IsE(e.mark) && (e.sign.Some? ==> IsSign(e.sign.value)) && AllDigits(e.digits)
  }

  // A token that may still be continued.
  predicate PartialOk(t: NumTok) {
    && IpOk(t)
    && (t.frac.Some? ==> AllDigits(t.frac.value))
    && (t.exp.Some? ==> ExpOk(t.exp.value) && (t.frac.Some? ==> t.frac.value != []))
    && (!t.neg && t.ip == [] ==> t.frac.None? && t.exp.None?)
  }

  // A token the parser accepts: RFC 8259 section 6, and also a '-' without digits.
  predicate TokOk(t: NumTok) {
    && PartialOk(t)
    && (t.frac.Some? ==> t.frac.value != [])
    && (t.exp.Some? ==> t.exp.value.digits != [])
    && (t.ip == [] ==> t.neg)
  }

  predicate IsDouble(t: NumTok) {
    t.frac.Some? || t.exp.Some?
  }

  // The effect of one byte on a number that is being read.
  datatype NumStep = More(t: NumTok) | Finished | Bad

  function StepNum(t: NumTok, b: Byte): NumStep {
    if IsDigit(b) then
      if t.exp.Some? then More(t.(exp := Some(t.exp.value.(digits := t.exp.value.digits + [b]))))
      else if t.frac.Some? then More(t.(frac := Some(t.frac.value + [b])))
      else if t.ip != [] && t.ip[0] == DIGIT_0 then Bad
      else More(t.(ip := t.ip + [b]))
    else if IsSign(b) && t.exp.Some? && t.exp.value.sign.None? && t.exp.value.digits == [] then
      More(t.(exp := Some(t.exp.value.(sign := Some(b)))))
    else if b == DOT && !IsDouble(t) then
      if t.ip == [] then Bad else More(t.(frac := Some([])))
    else if t.exp.None? then
      if t.frac == Some([]) then Bad
      else if IsE(b) then More(t.(exp := Some(Exponent(b, None, []))))
      else Finished
    else
      if t.exp.value.digits == [] then Bad else Finished
  }

  lemma DigitYield(t: NumTok, b: Byte)
    requires PartialOk(t) && IsDigit(b) && StepNum(t, b).More?
    ensures PartialOk(StepNum(t, b).t) && TokYield(StepNum(t, b).t) == TokYield(t) + [b]
  {
    var sign := if t.neg then [MINUS] else [];
    if t.exp.Some? {
      var e := t.exp.value;
      var front := sign + t.ip + FracYield(t.frac);
      var mark := [e.mark] + SignYield(e.sign);
      assert front + (mark + (e.digits + [b])) == front + (mark + e.digits) + [b];
    } else if t.frac.Some? {
      assert sign + t.ip + ([DOT] + (t.frac.value + [b])) == sign + t.ip + ([DOT] + t.frac.value) + [b];
    } else {
      assert sign + (t.ip + [b]) == sign + t.ip + [b];
    }
  }

  lemma MarkYield(t: NumTok, b: Byte)
    requires PartialOk(t) && !IsDigit(b) && StepNum(t, b).More?
    requires t.neg || t.ip != []
    ensures PartialOk(StepNum(t, b).t) && TokYield(StepNum(t, b).t) == TokYield(t) + [b]
  {
    var sign := if t.neg then [MINUS] else [];
    if t.exp.Some? {
      var e := t.exp.value;
      var front := sign + t.ip + FracYield(t.frac);
      assert front + ([e.mark] + [b] + e.digits) == front + ([e.mark] + [] + e.digits) + [b];
    } else if b == DOT {
      assert sign + t.ip + ([DOT] + []) + [] == sign + t.ip + [] + [] + [b];
    } else {
      var front := sign + t.ip + FracYield(t.frac);
      assert front + ([b] + [] + []) == front + [] + [b];
    }
  }

  // A consumed byte extends the spelling; a finished token is acceptable, and the byte that
  // finished it could not have continued it.
  lemma StepNumYield(t: NumTok, b: Byte)
    requires PartialOk(t)
    requires !t.neg && t.ip == [] ==> IsDigit(b)
    ensures StepNum(t, b).More? ==>
              && PartialOk(StepNum(t, b).t)
              && TokYield(StepNum(t, b).t) == TokYield(t) + [b]
              && IsNumberByte(b)
              && (StepNum(t, b).t.neg || StepNum(t, b).t.ip != [])
    ensures StepNum(t, b).Finished? ==> TokOk(t) && !IsDigit(b)
  {
    if StepNum(t, b).More? {
      if IsDigit(b) {
        DigitYield(t, b);
      } else {
        MarkYield(t, b);
      }
      hide TokYield;
    }
  }

  // ---------- What a token denotes ----------

  // Numbers as the parser's 64-bit registers hold them, or exactly.
  datatype Width = Exact | Int64

  function Wrap64(x: int): int {
    (x + TWO_64 / 2) % TWO_64 - TWO_64 / 2
  }

  const INT64_MAX: int := 0x7FFF_FFFF_FFFF_FFFF

  function InWidth(w: Width, x: int): int {
    if w.Int64? then Wrap64(x) else x
  }

  function Decimal(d: Bytes): int {
    if d == [] then 0 else Decimal(d[..|d| - 1]) * 10 + (d[|d| - 1] - DIGIT_0)
  }

  function Power10(n: nat): (r: real)
    ensures r > 0.0
  {
    if n == 0 then 1.0 else 10.0 * Power10(n - 1)
  }

  function Scale10(e: int): real {
    if e >= 0 then Power10(e) else 1.0 / Power10(-e)
  }

  datatype Number = Int(n: int) | Real(r: real)

  function FracDigits(t: NumTok): Bytes {
    if t.frac.Some? then t.frac.value else []
  }

  function ExpDigits(t: NumTok): Bytes {
    if t.exp.Some? then t.exp.value.digits else []
  }

  predicate ExpNegative(t: NumTok) {
    t.exp.Some? && t.exp.value.sign == Some(MINUS)
  }

  // The integer part, as a double.
  function Whole(t: NumTok, w: Width): real {
    InWidth(w, Decimal(t.ip)) as real
  }

  // Integer part and fraction together.
  function Mantissa(t: NumTok, w: Width): real {
    if t.frac.Some?
    then Whole(t, w) + InWidth(w, Decimal(t.frac.value)) as real / Power10(|t.frac.value|)
    else Whole(t, w)
  }

  function ExponentValue(t: NumTok, w: Width): int {
    var e := InWidth(w, Decimal(ExpDigits(t)));
    if ExpNegative(t) then -e else e
  }

  function Magnitude(t: NumTok, w: Width): Number {
    if !IsDouble(t) then Int(InWidth(w, Decimal(t.ip)))
    else if t.exp.Some? then Real(Mantissa(t, w) * Scale10(ExponentValue(t, w)))
    else Real(Mantissa(t, w))
  }

  // sign * (int + frac / 10^k) * 10^e
  function NumberOf(t: NumTok, w: Width): Number {
    match Magnitude(t, w)
    case Int(n) => if t.neg then Int(InWidth(w, -n)) else Int(n)
    case Real(r) => if t.neg then Real(-r) else Real(r)
  }

  // ---------- Registers against tokens ----------

  lemma DivUnique(y: int, a: int, m: int)
    requires y == a * TWO_64 + m && 0 <= m < TWO_64
    ensures y % TWO_64 == m
  {
  }

  lemma WrapShift(x: int, q: int)
    ensures Wrap64(x + q * TWO_64) == Wrap64(x)
  {
    var h := TWO_64 / 2;
    var a := (x + h) / TWO_64;
    var m := (x + h) % TWO_64;
    assert x + q * TWO_64 + h == (a + q) * TWO_64 + m;
    DivUnique(x + q * TWO_64 + h, a + q, m);
  }

  lemma WrapStep(x: int, d: int)
    ensures Wrap64(Wrap64(x) * 10 + d) == Wrap64(x * 10 + d)
  {
    var h := TWO_64 / 2;
    var q := (x + h) / TWO_64;
    assert Wrap64(x) == x - q * TWO_64;
    WrapShift(x * 10 + d, -10 * q);
  }

  lemma WrapFits(x: int)
    ensures Wrap64(x) == x <==> -INT64_MAX - 1 <= x <= INT64_MAX
  {
  }

  // The accumulator after one more digit.
  lemma AccumulateDigit(d: Bytes, b: Byte)
    ensures Decimal([]) == 0 && Decimal(d + [b]) == Decimal(d) * 10 + (b - '0' as int)
    ensures Wrap64(Wrap64(Decimal(d)) * 10 + (b - '0' as int)) == Wrap64(Decimal(d + [b]))
  {
    assert (d + [b])[..|d|] == d;
    WrapStep(Decimal(d), b - '0' as int);
  }

  lemma {:induction false} DecimalMonotone(d: Bytes, k: nat)
    requires AllDigits(d) && k <= |d|
    ensures 0 <= Decimal(d[..k]) <= Decimal(d)
  {
    if k == |d| {
      assert d[..k] == d;
      if d != [] {
        DecimalMonotone(d[..|d| - 1], |d| - 1);
        assert d[..|d| - 1][..|d| - 1] == d[..|d| - 1];
      }
    } else {
      DecimalMonotone(d[..|d| - 1], k);
      assert d[..|d| - 1][..k] == d[..k];
    }
  }

  // No step of the accumulation leaves the signed 64-bit range exactly when
  // the whole magnitude is in range.
  lemma NoOverflowIff(d: Bytes)
    requires AllDigits(d)
    ensures (forall k :: 0 <= k <= |d| ==> -0x7FFF_FFFF_FFFF_FFFF - 1 <= Decimal(d[..k]) <= 0x7FFF_FFFF_FFFF_FFFF)
            <==> Decimal(d) <= 0x7FFF_FFFF_FFFF_FFFF
  {
    forall k | 0 <= k <= |d| ensures 0 <= Decimal(d[..k]) <= Decimal(d) {
      DecimalMonotone(d, k);
    }
    assert d[..|d|] == d;
  }

  // All accumulators of the token stay within 64 bits.
  predicate InRange(t: NumTok) {
    && Decimal(t.ip) <= INT64_MAX
    && Decimal(FracDigits(t)) <= INT64_MAX
    && Decimal(ExpDigits(t)) <= INT64_MAX
  }

  lemma WidthIrrelevant(d: Bytes)
    requires AllDigits(d) && Decimal(d) <= INT64_MAX
    ensures InWidth(Int64, Decimal(d)) == Decimal(d) && InWidth(Int64, -Decimal(d)) == -Decimal(d)
  {
    DecimalMonotone(d, |d|);
    assert d[..|d|] == d;
    WrapFits(Decimal(d));
    WrapFits(-Decimal(d));
  }

  // Within range the registers hold the exact value of the token.
  lemma StoredExactly(t: NumTok)
    requires TokOk(t) && InRange(t)
    ensures NumberOf(t, Int64) == NumberOf(t, Exact)
  {
    hide Wrap64, Decimal, Power10, Scale10;
    WidthIrrelevant(t.ip);
    WidthIrrelevant(FracDigits(t));
    WidthIrrelevant(ExpDigits(t));
    assert Mantissa(t, Int64) == Mantissa(t, Exact);
    assert Magnitude(t, Int64) == Magnitude(t, Exact);
  }

  // For integers the stored value is the signed decimal value exactly when that
  // value is a 64-bit integer.
  lemma IntegerStoredIff(t: NumTok)
    requires TokOk(t) && !IsDouble(t)
    ensures NumberOf(t, Int64) == NumberOf(t, Exact)
            <==> -0x7FFF_FFFF_FFFF_FFFF - 1 <= NumberOf(t, Exact).n <= 0x7FFF_FFFF_FFFF_FFFF
  {
    var x := Decimal(t.ip);
    DecimalMonotone(t.ip, |t.ip|);
    assert t.ip[..|t.ip|] == t.ip;
    WrapFits(x);
    WrapFits(-x);
    if t.neg {
      var q := (x + TWO_64 / 2) / TWO_64;
      assert -Wrap64(x) == -x + q * TWO_64;
      WrapShift(-x, q);
    }
  }

  // No signed 64-bit operation on an integer overflows, in its accumulation or its negation, exactly when its
  // magnitude is within the positive range; then the stored value is the exact one.
  lemma IntegerWithoutOverflow(t: NumTok)
    requires TokOk(t) && !IsDouble(t)
    ensures (forall k :: 0 <= k <= |t.ip| ==> -0x7FFF_FFFF_FFFF_FFFF - 1 <= Decimal(t.ip[..k]) <= 0x7FFF_FFFF_FFFF_FFFF)
            <==> -0x7FFF_FFFF_FFFF_FFFF <= NumberOf(t, Exact).n <= 0x7FFF_FFFF_FFFF_FFFF
    ensures -0x7FFF_FFFF_FFFF_FFFF <= NumberOf(t, Exact).n <= 0x7FFF_FFFF_FFFF_FFFF ==>
              NumberOf(t, Int64) == NumberOf(t, Exact)
  {
    hide Wrap64, Decimal;
    NoOverflowIff(t.ip);
    DecimalMonotone(t.ip, |t.ip|);
    assert t.ip[..|t.ip|] == t.ip;
    if Decimal(t.ip) <= INT64_MAX {
      WidthIrrelevant(t.ip);
    }
  }

  // ---------- Doubles, over exact reals ----------

  // Scale10 is ten to the power e, for every integer e.
  lemma ScaleStep(e: int)
    ensures Scale10(0) == 1.0
    ensures Scale10(e + 1) == 10.0 * Scale10(e)
    ensures e >= 0 ==> Power10(e) == Scale10(e)
    ensures Scale10(e) > 0.0
  {
    if e < 0 {
      var p := Power10(-(e + 1));
      assert Power10(-e) == 10.0 * p;
      TenTimes(p);
    }
  }

  lemma TenTimes(p: real)
    requires p > 0.0
    ensures 1.0 / p == 10.0 * (1.0 / (10.0 * p))
  {
    var q := 1.0 / (10.0 * p);
    assert q * (10.0 * p) == 1.0;
    assert (10.0 * q) * p == 1.0;
  }

  lemma {:induction false} ScaleSum(a: int, b: int)
    ensures Scale10(a + b) == Scale10(a) * Scale10(b)
    decreases if b >= 0 then b else -b
  {
    hide Scale10;
    if b > 0 {
      ScaleSum(a, b - 1);
      ScaleStep(a + b - 1);
      ScaleStep(b - 1);
      Regroup10(Scale10(a), Scale10(b - 1));
    } else if b < 0 {
      ScaleSum(a, b + 1);
      ScaleStep(a + b);
      ScaleStep(b);
      Regroup10(Scale10(a), Scale10(b));
      assert 10.0 * Scale10(a + b) == 10.0 * (Scale10(a) * Scale10(b));
    } else {
      ScaleStep(0);
    }
  }

  lemma Regroup10(x: real, y: real)
    ensures 10.0 * (x * y) == x * (10.0 * y)
  {
  }

  // Digits behind digits: the value in front is shifted by their number.
  lemma {:induction false} DecimalJoin(a: Bytes, b: Bytes)
    ensures Decimal(a + b) as real == Decimal(a) as real * Power10(|b|) + Decimal(b) as real
  {
    hide Decimal, Power10;
    if b == [] {
      assert a + b == a;
      NoDigits();
    } else {
      var init, last := b[..|b| - 1], b[|b| - 1];
      DecimalJoin(a, init);
      Shifted(Decimal(a) as real, Power10(|init|), Decimal(init) as real);
      DecimalSnoc(a + init, last);
      DecimalSnoc(init, last);
      NextPower(|init|);
      assert init + [last] == b && a + init + [last] == a + b;
    }
  }

  lemma NoDigits()
    ensures Decimal([]) == 0 && Power10(0) == 1.0
  {
  }

  lemma NextPower(n: nat)
    ensures Power10(n + 1) == 10.0 * Power10(n)
  {
  }

  lemma DecimalSnoc(d: Bytes, b: Byte)
    ensures Decimal(d + [b]) as real == 10.0 * Decimal(d) as real + (b - '0' as int) as real
  {
    assert (d + [b])[..|d|] == d;
  }

  lemma Shifted(x: real, p: real, y: real)
    ensures 10.0 * (x * p + y) == x * (10.0 * p) + 10.0 * y
  {
  }

  // The exponent a token gives: zero where it has none.
  function TokenExponent(t: NumTok): int {
    match t.exp
    case None => 0
    case Some(e) => if e.sign == Some('-' as int) then -Decimal(e.digits) else Decimal(e.digits)
  }

  // A token with a fraction or an exponent denotes all its digits, scaled by its exponent less the number of
  // digits behind the dot.
  lemma DoubleMeaning(t: NumTok)
    requires TokOk(t) && IsDouble(t)
    ensures NumberOf(t, Exact)
            == Real((if t.neg then -1.0 else 1.0)
                    * (Decimal(t.ip + FracDigits(t)) as real * Scale10(TokenExponent(t) - |FracDigits(t)|)))
  {
    hide Decimal, Power10, Scale10;
    var f, e := FracDigits(t), TokenExponent(t);
    DecimalJoin(t.ip, f);
    MantissaScaled(t);
    ScaleSum(-|f|, e);
    ScaleStep(0);
    NoExponent(t);
    Product(Decimal(t.ip + f) as real, Scale10(-|f|), Scale10(e));
    SignFactor(Decimal(t.ip + f) as real * Scale10(e - |f|));
  }

  lemma NoExponent(t: NumTok)
    ensures TokenExponent(t) == ExponentValue(t, Exact)
  {
    assert Decimal([]) == 0;
    hide Decimal;
  }

  lemma Product(a: real, b: real, c: real)
    ensures a * b * c == a * (b * c)
  {
  }

  lemma SignFactor(x: real)
    ensures -1.0 * x == -x && 1.0 * x == x
  {
  }

  lemma MantissaScaled(t: NumTok)
    ensures Mantissa(t, Exact) == Decimal(t.ip + FracDigits(t)) as real * Scale10(-|FracDigits(t)|)
  {
    hide Decimal;
    var f := FracDigits(t);
    DecimalJoin(t.ip, f);
    Inverse(|f|);
    if t.frac.Some? {
      OverPower(Decimal(t.ip) as real, Power10(|f|), Decimal(f) as real);
    } else {
      assert t.ip + f == t.ip;
      assert Scale10(0) == 1.0;
    }
  }

  lemma Inverse(n: nat)
    ensures Scale10(0 - n) == 1.0 / Power10(n)
  {
  }

  lemma OverPower(x: real, p: real, y: real)
    requires p > 0.0
    ensures x + y / p == (x * p + y) * (1.0 / p)
  {
    assert (x * p + y) / p == x * p / p + y / p;
  }
}
