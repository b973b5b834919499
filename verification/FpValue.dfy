/** The numbers that doubles and extended doubles stand for, and what the
    conversions do to them. */
module FpValue {
  import opened FpBits
  import opened Fp80

  /** m times two to the power of e. */
  function Scaled(m: nat, e: int): (r: real)
    ensures r >= 0.0
    decreases if e < 0 then -e else e
  {
    if e == 0 then m as real else if e > 0 then 2.0 * Scaled(m, e - 1) else Scaled(m, e + 1) / 2.0
  }

  lemma {:induction false} ScaledNext(m: nat, e: int)
    ensures Scaled(m, e + 1) == 2.0 * Scaled(m, e)
  {
  }

  lemma {:induction false} ScaledSum(m: nat, n: nat, e: int)
    ensures Scaled(m + n, e) == Scaled(m, e) + Scaled(n, e)
    decreases if e < 0 then -e else e
  {
    if e > 0 { ScaledSum(m, n, e - 1); } else if e < 0 { ScaledSum(m, n, e + 1); }
  }

  /** A factor of two in the significand is one in the exponent. */
  lemma {:induction false} ScaledDouble(m: nat, e: int)
    ensures Scaled(2 * m, e) == Scaled(m, e + 1)
  {
    ScaledSum(m, m, e);
    ScaledNext(m, e);
  }

  lemma {:induction false} ScaledPow(m: nat, s: nat, e: int)
    ensures Scaled(m * Pow2(s), e) == Scaled(m, e + s)
  {
    if s > 0 {
      ScaledPow(m, s - 1, e + 1);
      ScaledDouble(m * Pow2(s - 1), e);
      assert m * Pow2(s) == 2 * (m * Pow2(s - 1));
    }
  }

  lemma {:induction false} Scaled2048(m: nat, e: int)
    ensures Scaled(m * 2048, e) == Scaled(m, e + 11)
  {
    assert Pow2(11) == 2048;
    ScaledPow(m, 11, e);
  }

  lemma {:induction false} ScaledPositive(m: nat, e: int)
    requires m > 0
    ensures Scaled(m, e) > 0.0
    decreases if e < 0 then -e else e
  {
    if e > 0 { ScaledPositive(m, e - 1); } else if e < 0 { ScaledPositive(m, e + 1); }
  }

  lemma {:induction false} ScaledLess(m: nat, n: nat, e: int)
    requires m < n
    ensures Scaled(m, e) < Scaled(n, e)
  {
    ScaledSum(m, n - m, e);
    ScaledPositive(n - m, e);
  }

  lemma {:induction false} ScaledGrows(m: nat, e: int, e': int)
    requires e <= e'
    ensures Scaled(m, e) <= Scaled(m, e')
    decreases e' - e
  {
    if e < e' {
      ScaledGrows(m, e, e' - 1);
      ScaledNext(m, e' - 1);
    }
  }

  /** The magnitude of a finite double. */
  function Magnitude64(x: F64): real
    requires Exp64(x) < SPECIAL64
  {
    if Exp64(x) == 0 then Scaled(Frac64(x), -1074) else Scaled(P52 + Frac64(x), Exp64(x) - 1075)
  }

  /** The magnitude of a finite extended double. */
  function Magnitude80(f: F80): real
    requires Exp80(f) < SPECIAL80
  {
    if Exp80(f) == 0 then Scaled(f.fi, -16445) else Scaled(f.fi, Exp80(f) - 16446)
  }

  // ---- To extended doubles ----------------------------------------------------------

  lemma {:induction false} NormalFields(x: F64)
    requires 0 < Exp64(x) < SPECIAL64
    ensures Exp80(Extended(x)) == Exp64(x) + 15360 && Extended(x).fi == (P52 + Frac64(x)) * 2048
  {
    Fields80(Sign64(x), Frac64(x) * P11, Exp64(x) - BIAS64 + BIAS80);
  }

  lemma {:induction false} SubnormalValue(frac: nat, s: nat, fi: nat)
    requires frac > 0 && fi == frac * Pow2(s) * 2048
    ensures Scaled(fi, -1086 - s as int) == Scaled(frac, -1074) / 2.0 > 0.0
  {
    Scaled2048(frac * Pow2(s), -1086 - s as int);
    ScaledPow(frac, s, -1075 - s as int);
    ScaledNext(frac, -1075);
    ScaledPositive(frac, -1075);
  }

  /** Conversion to an extended double keeps the number exactly for zero and every
      normal double, and halves every subnormal one. */
  lemma {:induction false} ValueKept(x: F64)
    requires Exp64(x) < SPECIAL64
    ensures Exp80(Extended(x)) < SPECIAL80
    ensures Magnitude80(Extended(x)) == Magnitude64(x) <==> !Classify64(x).Subnormal?
    ensures Classify64(x).Subnormal? ==> Magnitude80(Extended(x)) == Magnitude64(x) / 2.0
  {
    if Classify64(x).Subnormal? {
      var s := SubnormalExtended(x);
      SubnormalValue(Frac64(x), s, Extended(x).fi);
    } else if Exp64(x) != 0 {
      NormalFields(x);
      Scaled2048(P52 + Frac64(x), Exp64(x) as int - 1086);
    } else {
      ScaledZero(-1074);
      ScaledZero(-16445);
    }
  }

  lemma {:induction false} ScaledZero(e: int)
    ensures Scaled(0, e) == 0.0
  {
    ScaledSum(0, 0, e);
  }

  // ---- To doubles -------------------------------------------------------------------

  /** A normalised extended double in the range of the normal doubles. */
  predicate InRange(f: F80) { f.fi >= P63 && 0 < Exp80(f) - 15360 < SPECIAL64 }

  /** y has the leading bits of f. */
  predicate Leading(f: F80, y: F64) {
    Sign64(y) == Sign80(f) && Exp64(y) == Exp80(f) - 15360 && P52 + Frac64(y) == f.fi / P11
  }

  lemma {:induction false} RoundedLeading(f: F80)
    requires InRange(f)
    ensures Leading(f, Rounded(f))
  {
    LeadingBit(f.fi);
    Fields64(Sign80(f), f.fi / P11 - P52, Exp80(f) - 15360);
  }

  lemma {:induction false} LeadingBit(fi: nat)
    requires P63 <= fi < P64
    ensures P52 <= fi / P11 < 2 * P52 && fi / P11 % P52 == fi / P11 - P52
  {
  }

  lemma {:induction false} LeadingValue(f: F80, y: F64)
    requires InRange(f) && Leading(f, y)
    ensures 0.0 <= Magnitude80(f) - Magnitude64(y) < Scaled(1, Exp64(y) - 1075)
  {
    var e: int := Exp80(f) - 16446;
    var q := P52 + Frac64(y);
    var r := f.fi - q * 2048;
    assert 0 <= r < 2048;
    assert Magnitude80(f) == Scaled(f.fi, e) && Magnitude64(y) == Scaled(q, e + 11);
    Remainder(q, r, e, f.fi);
  }

  lemma {:induction false} Remainder(q: nat, r: nat, e: int, fi: nat)
    requires r < 2048 && fi == q * 2048 + r
    ensures 0.0 <= Scaled(fi, e) - Scaled(q, e + 11) < Scaled(1, e + 11)
  {
    ScaledSum(q * 2048, r, e);
    Scaled2048(q, e);
    Scaled2048(1, e);
    ScaledLess(r, 2048, e);
  }

  /** Conversion to a double truncates toward zero by less than one unit in the
      last place. */
  lemma {:induction false} Truncates(f: F80)
    requires InRange(f)
    ensures var y := Rounded(f);
            && Exp64(y) < SPECIAL64 && Sign64(y) == Sign80(f)
            && 0.0 <= Magnitude80(f) - Magnitude64(y) < Scaled(1, Exp64(y) - 1075)
  {
    RoundedLeading(f);
    LeadingValue(f, Rounded(f));
  }

  /** Converting back gives the original with its low 11 bits cleared. */
  lemma {:induction false} BackAgain(f: F80)
    requires InRange(f)
    ensures Extended(Rounded(f)) == F80Bits(f.se, f.fi - f.fi % P11)
  {
    RoundedLeading(f);
    var y := Rounded(f);
    Fields80(Sign64(y), Frac64(y) * P11, Exp64(y) - BIAS64 + BIAS80);
    assert Frac64(y) * P11 == f.fi - f.fi % P11 - P63;
  }

  /** One binary exponent below the range the leading bit is lost: the result is
      what follows it, as a subnormal. */
  lemma {:induction false} LeadingBitLost(f: F80)
    requires f.fi >= P63 && Exp80(f) == 15360
    ensures Exp64(Rounded(f)) == 0 && P52 + Frac64(Rounded(f)) == f.fi / P11
  {
    Fields64(Sign80(f), f.fi / P11 - P52, 0);
    assert f.fi / P11 % P52 == f.fi / P11 - P52;
    assert Shifted(f.fi / P11, 0) == f.fi / P11;
  }

  /** The magnitude of a normalised number lies between two powers of two. */
  lemma {:induction false} MagnitudeBounds(f: F80)
    requires f.fi >= P63 && 0 < Exp80(f) < SPECIAL80
    ensures Scaled(1, Exp80(f) - 16383) <= Magnitude80(f) < Scaled(1, Exp80(f) - 16382)
  {
    var e: int := Exp80(f) - 16446;
    Pow63();
    ScaledPow(1, 63, e);
    ScaledPow(1, 64, e);
    if f.fi > P63 { ScaledLess(P63, f.fi, e); }
    ScaledLess(f.fi, P64, e);
  }

  lemma {:induction false} Pow63()
    ensures Pow2(63) == P63 && Pow2(64) == P64
  {
    Pow64();
  }

  /** A finite number becomes infinite if and only if it is two to the power of 1024
      or larger. */
  lemma {:induction false} OverflowExactly(f: F80)
    requires f.fi >= P63 && 0 < Exp80(f) < SPECIAL80
    ensures Classify64(Rounded(f)).Infinite? <==> Magnitude80(f) >= Scaled(1, 1024)
    ensures Sign64(Rounded(f)) == Sign80(f)
  {
    MagnitudeBounds(f);
    if Exp80(f) - 15360 >= SPECIAL64 {
      Fields64(Sign80(f), 0, SPECIAL64);
      ScaledGrows(1, 1024, Exp80(f) - 16383);
    } else {
      ScaledGrows(1, Exp80(f) - 16382, 1024);
      if Exp80(f) > 15360 { RoundedLeading(f); } else { RoundedSmall(f); }
    }
  }

  lemma {:induction false} RoundedSmall(f: F80)
    requires !IsSpecial(f) && Exp80(f) <= 15360
    ensures Exp64(Rounded(f)) == 0 && Sign64(Rounded(f)) == Sign80(f)
  {
    var frac := Shifted(f.fi / P11, 15360 - Exp80(f));
    Fields64(Sign80(f), frac % P52, 0);
  }

  lemma {:induction false} ShiftedBounds(x: nat, n: nat)
    ensures Shifted(x, n) * Pow2(n) <= x < (Shifted(x, n) + 1) * Pow2(n)
  {
    if n > 0 {
      ShiftedBounds(x / 2, n - 1);
      var s, p := Shifted(x, n), Pow2(n - 1);
      Twice(s, p);
      Twice(s + 1, p);
    }
  }

  lemma {:induction false} Twice(a: nat, b: nat)
    ensures a * (2 * b) == 2 * (a * b)
  {
  }

  lemma {:induction false} ShiftedSmall(x: nat, n: nat)
    requires x < 2 * P52 && n > 0
    ensures Shifted(x, n) < P52
    decreases n
  {
    if n > 1 { ShiftedSmall(x / 2, n - 1); } else { assert Shifted(x / 2, 0) == x / 2; }
  }

  lemma {:induction false} SubnormalBounds(fi: nat, q: nat, n: nat, frac: nat)
    requires q == fi / 2048 && frac * Pow2(n) <= q < (frac + 1) * Pow2(n)
    ensures Scaled(frac, -1074) <= Scaled(fi, -1085 - n as int) < Scaled(frac, -1074) + Scaled(1, -1074)
  {
    var e: int := -1085 - n as int;
    var lo, hi := frac * Pow2(n) * 2048, (frac + 1) * Pow2(n) * 2048;
    Scaled2048(frac * Pow2(n), e);
    ScaledPow(frac, n, e + 11);
    Scaled2048((frac + 1) * Pow2(n), e);
    ScaledPow(frac + 1, n, e + 11);
    ScaledSum(frac, 1, -1074);
    ScaledSum(lo, fi - lo, e);
    ScaledLess(fi, hi, e);
  }

  /** The conversion shifts by fewer places than a word has, if it shifts. */
  predicate ShiftDefined(f: F80) { IsSpecial(f) || 15360 - Exp80(f) < 64 }

  /** The shift is undefined in C if and only if the magnitude is below two to the
      power of -1086; in particular for zero. */
  lemma {:induction false} ShiftDefinedExactly(f: F80)
    requires Exp80(f) < SPECIAL80 && (f.fi >= P63 || Exp80(f) == 0)
    ensures ShiftDefined(f) <==> Magnitude80(f) >= Scaled(1, -1086)
  {
    if Exp80(f) == 0 {
      Pow63();
      ScaledPow(1, 64, -16445);
      ScaledLess(f.fi, P64, -16445);
      ScaledGrows(1, -16381, -1086);
    } else {
      MagnitudeBounds(f);
      if Exp80(f) <= 15296 {
        ScaledGrows(1, Exp80(f) - 16382, -1086);
      } else {
        ScaledGrows(1, -1086, Exp80(f) - 16383);
      }
    }
  }

  /** On the way back from an extended double the shift is defined for every double
      but zero. */
  lemma {:induction false} TripDefined(x: F64)
    requires Exp64(x) < SPECIAL64
    ensures ShiftDefined(Extended(x)) <==> !Classify64(x).Zero?
  {
    if Classify64(x).Subnormal? {
      var s := SubnormalExtended(x);
    } else if Exp64(x) != 0 {
      NormalFields(x);
    }
  }

  lemma {:induction false} ShiftedZero(x: nat, n: nat)
    ensures Shifted(x, n) == 0 <==> x < Pow2(n)
  {
    if n > 0 { ShiftedZero(x / 2, n - 1); }
  }

  lemma {:induction false} Pow53()
    ensures Pow2(52) == P52 && Pow2(53) == 2 * P52
  {
    PowSum(32, 20);
    assert Pow2(20) == 0x10_0000 by { PowSum(10, 10); assert Pow2(10) == 0x400; }
    assert Pow2(32) == 0x1_0000_0000 by { PowSquare(8, 0x100); PowSquare(16, 0x1_0000); }
  }

  /** A machine that takes only the low six bits of the count gets the zero that the
      full shift gives if and only if those bits shift everything out. */
  lemma {:induction false} WildShift(f: F80)
    requires f.fi >= P63 && !ShiftDefined(f)
    ensures var n, q := 15360 - Exp80(f), f.fi / P11;
            Shifted(q, n) == 0 && (Shifted(q, n % 64) == 0 <==> n % 64 >= 53)
  {
    var n: nat, q := 15360 - Exp80(f), f.fi / P11;
    Pow53();
    ShiftedZero(q, n);
    PowGrows(53, n);
    ShiftedZero(q, n % 64);
    if n % 64 >= 53 { PowGrows(53, n % 64); } else { PowGrows(n % 64, 52); }
  }

  /** Below the normal range the result is about twice the value: it is the double
      of the value, truncated to the subnormal grid. */
  lemma {:induction false} SubnormalDoubled(f: F80)
    requires f.fi >= P63 && 0 < Exp80(f) < 15360 && ShiftDefined(f)
    ensures Exp64(Rounded(f)) == 0
    ensures 0.0 <= 2.0 * Magnitude80(f) - Magnitude64(Rounded(f)) < Scaled(1, -1074)
  {
    var n: nat := 15360 - Exp80(f);
    var q := f.fi / P11;
    var frac := Shifted(q, n);
    ShiftedSmall(q, n);
    ShiftedBounds(q, n);
    Fields64(Sign80(f), frac, 0);
    SubnormalBounds(f.fi, q, n, frac);
    ScaledNext(f.fi, Exp80(f) - 16446);
  }

  // ---- Order ------------------------------------------------------------------------

  lemma {:induction false} Below(m: nat, e: int, m': nat, e': int, w: nat)
    requires 0 < w <= m < 2 * w && w <= m' < 2 * w && e < e'
    ensures Scaled(m, e) < Scaled(m', e')
  {
    ScaledLess(m, 2 * w, e);
    ScaledDouble(w, e);
    ScaledGrows(w, e + 1, e');
    ScaledSum(w, m' - w, e');
  }

  /** Significands of one width with exponents are ordered by exponent first. */
  lemma {:induction false} Lexicographic(m: nat, e: int, m': nat, e': int, w: nat)
    requires 0 < w <= m < 2 * w && w <= m' < 2 * w
    ensures Scaled(m, e) <= Scaled(m', e') <==> e < e' || (e == e' && m <= m')
  {
    if e < e' { Below(m, e, m', e', w); }
    else if e' < e { Below(m', e', m, e, w); }
    else if m < m' { ScaledLess(m, m', e); }
    else if m' < m { ScaledLess(m', m, e); }
  }

  lemma {:induction false} LeadingOrder(f: F80, x: F64, g: F80, y: F64)
    requires InRange(f) && Leading(f, x) && InRange(g) && Leading(g, y) && Magnitude80(f) <= Magnitude80(g)
    ensures Magnitude64(x) <= Magnitude64(y)
  {
    Lexicographic(f.fi, Exp80(f) - 16446, g.fi, Exp80(g) - 16446, P63);
    Lexicographic(P52 + Frac64(x), Exp64(x) - 1075, P52 + Frac64(y), Exp64(y) - 1075, P52);
  }

  /** The conversion is monotone in magnitude on the normal range. */
  lemma {:induction false} Monotone(f: F80, g: F80)
    requires InRange(f) && InRange(g) && Magnitude80(f) <= Magnitude80(g)
    ensures Exp64(Rounded(f)) < SPECIAL64 && Exp64(Rounded(g)) < SPECIAL64
    ensures Magnitude64(Rounded(f)) <= Magnitude64(Rounded(g))
  {
    RoundedLeading(f);
    RoundedLeading(g);
    LeadingOrder(f, Rounded(f), g, Rounded(g));
  }

  // ---- Exactly when truncation and order hold -----------------------------------------

  /** A normalised number that does not overflow and is not shifted by too much. */
  predicate Converts(f: F80) { f.fi >= P63 && 0 < Exp80(f) && Exp80(f) - 15360 < SPECIAL64 && ShiftDefined(f) }

  /** The fraction of the subnormal double that f becomes. */
  function SmallFrac(f: F80): nat
    requires f.fi >= P63 && Exp80(f) <= 15360
  {
    if Exp80(f) == 15360 then f.fi / P11 - P52 else Shifted(f.fi / P11, 15360 - Exp80(f))
  }

  lemma {:induction false} RoundedFrac(f: F80)
    requires Converts(f) && Exp80(f) <= 15360
    ensures Exp64(Rounded(f)) == 0 && Frac64(Rounded(f)) == SmallFrac(f) < P52
    ensures Magnitude64(Rounded(f)) == Scaled(SmallFrac(f), -1074)
  {
    if Exp80(f) == 15360 {
      LeadingBitLost(f);
    } else {
      ShiftedSmall(f.fi / P11, 15360 - Exp80(f));
      Fields64(Sign80(f), SmallFrac(f), 0);
    }
  }

  lemma {:induction false} RoundedFinite(f: F80)
    requires Converts(f)
    ensures Exp64(Rounded(f)) < SPECIAL64
  {
    if Exp80(f) > 15360 { RoundedLeading(f); } else { RoundedFrac(f); }
  }

  /** The last place of a double. */
  function LastPlace(y: F64): int { if Exp64(y) == 0 then -1074 else Exp64(y) - 1075 }

  /** y is f truncated toward zero by less than one unit in the last place of y. */
  ghost predicate Truncated(f: F80, y: F64)
    requires Exp80(f) < SPECIAL80 && Exp64(y) < SPECIAL64
  {
    0.0 <= Magnitude80(f) - Magnitude64(y) < Scaled(1, LastPlace(y))
  }

  lemma {:induction false} TruncatedAtEdge(f: F80)
    requires Converts(f) && Exp80(f) == 15360
    ensures Exp64(Rounded(f)) < SPECIAL64
    ensures Truncated(f, Rounded(f)) <==> f.fi / P11 == 2 * P52 - 1
  {
    RoundedFrac(f);
    EdgeTruncates(f.fi, f.fi / P11, f.fi % P11, -1086);
  }

  lemma {:induction false} EdgeTruncates(fi: nat, q: nat, r: nat, e: int)
    requires r < 2048 && fi == q * 2048 + r && P52 <= q < 2 * P52
    ensures 0.0 <= Scaled(fi, e) - Scaled(q - P52, e + 12) < Scaled(1, e + 12) <==> q == 2 * P52 - 1
  {
    Remainder(q, r, e, fi);
    EdgeGap(q, q - P52, e + 11);
    EdgeDecides(2 * P52 - q, Scaled(fi, e) - Scaled(q, e + 11), e + 11);
  }

  lemma {:induction false} EdgeDecides(gap: nat, rest: real, e: int)
    requires gap >= 1 && 0.0 <= rest < Scaled(1, e)
    ensures 0.0 <= Scaled(gap, e) + rest < Scaled(1, e + 1) <==> gap == 1
  {
    ScaledNext(1, e);
    if gap >= 2 { AtLeastTwo(gap, e); }
  }

  lemma {:induction false} EdgeGap(q: nat, k: nat, e: int)
    requires k == q - P52 && q < 2 * P52
    ensures Scaled(q, e) - Scaled(k, e + 1) == Scaled(2 * P52 - q, e)
  {
    ScaledDouble(k, e);
    ScaledSum(2 * k, 2 * P52 - q, e);
  }

  lemma {:induction false} AtLeastTwo(m: nat, e: int)
    requires m >= 2
    ensures Scaled(m, e) >= Scaled(1, e + 1)
  {
    ScaledDouble(1, e);
    ScaledSum(2, m - 2, e);
  }

  lemma {:induction false} TruncatedBelow(f: F80)
    requires Converts(f) && Exp80(f) < 15360
    ensures Exp64(Rounded(f)) < SPECIAL64
    ensures Truncated(f, Rounded(f)) <==> Magnitude80(f) < Scaled(1, -1075)
  {
    RoundedFrac(f);
    SubnormalDoubled(f);
    ScaledNext(1, -1075);
    var m, k := Magnitude80(f), SmallFrac(f);
    if k == 0 {
      ScaledZero(-1074);
    } else {
      ScaledSum(1, k - 1, -1074);
    }
  }

  /** The conversion truncates exactly on the normal range, at its lower edge for the
      largest fraction, and where the result is zero. */
  lemma {:induction false} TruncatesExactly(f: F80)
    requires Converts(f)
    ensures Exp64(Rounded(f)) < SPECIAL64
    ensures Truncated(f, Rounded(f)) <==>
      || Exp80(f) > 15360
      || (Exp80(f) == 15360 && f.fi / P11 == 2 * P52 - 1)
      || (Exp80(f) < 15360 && Magnitude80(f) < Scaled(1, -1075))
  {
    if Exp80(f) > 15360 {
      RoundedLeading(f);
      LeadingValue(f, Rounded(f));
    } else if Exp80(f) == 15360 {
      TruncatedAtEdge(f);
    } else {
      TruncatedBelow(f);
    }
  }

  lemma {:induction false} ShiftedMono(x: nat, y: nat, n: nat)
    requires x <= y
    ensures Shifted(x, n) <= Shifted(y, n)
  {
    if n > 0 { ShiftedMono(x / 2, y / 2, n - 1); }
  }

  lemma {:induction false} ShiftedSplit(x: nat, m: nat, n: nat)
    ensures Shifted(x, m + n) == Shifted(Shifted(x, m), n)
  {
    if m > 0 { ShiftedSplit(x / 2, m - 1, n); }
  }

  lemma {:induction false} SmallOrder(f: F80, g: F80)
    requires Converts(f) && Converts(g) && Exp80(f) <= Exp80(g) <= 15360
    requires Exp80(f) == Exp80(g) ==> f.fi <= g.fi
    requires Exp80(g) == 15360 ==> g.fi / P11 == 2 * P52 - 1
    ensures SmallFrac(f) <= SmallFrac(g)
  {
    RoundedFrac(f);
    if Exp80(g) < 15360 {
      var q, p := f.fi / P11, g.fi / P11;
      var d, n: nat := Exp80(g) - Exp80(f), 15360 - Exp80(g);
      ShiftedSplit(q, d, n);
      if d > 0 { ShiftedSmall(q, d); }
      ShiftedMono(Shifted(q, d), p, n);
    }
  }

  lemma {:induction false} MixedOrder(f: F80, g: F80)
    requires Converts(f) && Converts(g) && Exp80(f) <= 15360 < Exp80(g)
    ensures Exp64(Rounded(f)) < SPECIAL64 && Exp64(Rounded(g)) < SPECIAL64
    ensures Magnitude64(Rounded(f)) <= Magnitude64(Rounded(g))
  {
    RoundedFrac(f);
    RoundedLeading(g);
    var y := Rounded(g);
    ScaledLess(SmallFrac(f), P52, -1074);
    ScaledGrows(P52, -1074, Exp64(y) - 1075);
    ScaledSum(P52, Frac64(y), Exp64(y) - 1075);
  }

  lemma {:induction false} SmallMagnitudes(f: F80, g: F80)
    requires Converts(f) && Converts(g) && Exp80(f) <= 15360 && Exp80(g) <= 15360 && SmallFrac(f) <= SmallFrac(g)
    ensures Exp64(Rounded(f)) < SPECIAL64 && Exp64(Rounded(g)) < SPECIAL64
    ensures Magnitude64(Rounded(f)) <= Magnitude64(Rounded(g))
  {
    RoundedFrac(f);
    RoundedFrac(g);
    ScaledSum(SmallFrac(f), SmallFrac(g) - SmallFrac(f), -1074);
  }

  lemma {:induction false} ByMagnitude(f: F80, g: F80)
    requires Converts(f) && Converts(g) && Magnitude80(f) <= Magnitude80(g)
    ensures Exp80(f) < Exp80(g) || (Exp80(f) == Exp80(g) && f.fi <= g.fi)
  {
    Lexicographic(f.fi, Exp80(f) - 16446, g.fi, Exp80(g) - 16446, P63);
  }

  /** The order of f and g is kept. */
  ghost predicate InOrder(f: F80, g: F80)
    requires Converts(f) && Converts(g)
  {
    RoundedFinite(f);
    RoundedFinite(g);
    Magnitude80(f) <= Magnitude80(g) ==> Magnitude64(Rounded(f)) <= Magnitude64(Rounded(g))
  }

  lemma {:induction false} PairOrder(f: F80, g: F80)
    requires Converts(f) && Converts(g) && (Exp80(g) == 15360 ==> g.fi / P11 == 2 * P52 - 1)
    ensures InOrder(f, g)
  {
    if Magnitude80(f) <= Magnitude80(g) {
      ByMagnitude(f, g);
      if Exp80(f) > 15360 {
        Monotone(f, g);
      } else if Exp80(g) > 15360 {
        MixedOrder(f, g);
      } else {
        SmallOrder(f, g);
        SmallMagnitudes(f, g);
      }
    }
  }

  /** The largest number one exponent below that at which the leading bit is lost. */
  const BELOW_EDGE: F80 := F80Bits(15359, P64 - 1)

  lemma {:induction false} OrderLost(g: F80)
    requires Converts(g) && Exp80(g) == 15360 && g.fi / P11 != 2 * P52 - 1
    ensures Converts(BELOW_EDGE) && !InOrder(BELOW_EDGE, g)
  {
    var f := BELOW_EDGE;
    Lexicographic(f.fi, Exp80(f) - 16446, g.fi, Exp80(g) - 16446, P63);
    RoundedFrac(f);
    RoundedFrac(g);
    assert Shifted(f.fi / P11, 1) == Shifted(f.fi / P11 / 2, 0) == P52 - 1;
    ScaledLess(SmallFrac(g), SmallFrac(f), -1074);
  }

  /** No smaller number becomes a larger double than g if and only if g does not lose
      its leading bit, or has the largest fraction. */
  lemma {:induction false} MonotoneExactly(g: F80)
    requires Converts(g)
    ensures (forall f: F80 :: Converts(f) ==> InOrder(f, g)) <==> (Exp80(g) == 15360 ==> g.fi / P11 == 2 * P52 - 1)
  {
    if Exp80(g) == 15360 ==> g.fi / P11 == 2 * P52 - 1 {
      forall f: F80 | Converts(f) ensures InOrder(f, g) { PairOrder(f, g); }
    } else {
      OrderLost(g);
    }
  }
}
