/** Conversion between doubles and extended doubles. */
module Fp80 {
  import opened FpBits

  // ---- Classes ------------------------------------------------------------------

  predicate IsSpecial(f: F80) { Exp80(f) == SPECIAL80 }

  predicate IsInf(f: F80) { IsSpecial(f) && Frac80(f) == 0 }

  predicate IsQuiet(f: F80) { IsSpecial(f) && Frac80(f) / P62 % 2 == 1 }

  /** The quiet not-a-number of invalid operations. */
  predicate IsIndefinite(f: F80) { IsQuiet(f) && Sign80(f) && f.fi % P62 == 0 }

  predicate IsSignalling(f: F80) { IsSpecial(f) && Frac80(f) / P62 % 2 == 0 && Frac80(f) != 0 }

  predicate IsZero(f: F80) { f.fi == 0 && Exp80(f) == 0 }

  predicate IsSubnormal(f: F80) { Frac80(f) != 0 && Exp80(f) == 0 }

  datatype Class = Subnormal | Zero | Infinite | NaN | Normal

  function Classify(f: F80): Class {
    if IsSubnormal(f) then Subnormal
    else if IsZero(f) then Zero
    else if IsInf(f) then Infinite
    else if IsSignalling(f) || IsQuiet(f) then NaN
    else Normal
  }

  function Classify64(x: F64): Class {
    if Exp64(x) == 0 then (if Frac64(x) == 0 then Zero else Subnormal)
    else if Exp64(x) == SPECIAL64 then (if Frac64(x) == 0 then Infinite else NaN)
    else Normal
  }

  predicate IsQuiet64(x: F64) { Classify64(x).NaN? && Frac64(x) >= P51 }

  // ---- From double to extended double ---------------------------------------------

  function Pow2(n: nat): (p: nat)
    ensures p > 0
  {
    if n == 0 then 1 else 2 * Pow2(n - 1)
  }

  /** The significand shifted left until its integer bit is set, and by how much. */
  function Normalise(fi: nat): (r: (nat, nat))
    requires 0 < fi < P64
    ensures P63 <= r.0 < P64 && r.0 == fi * Pow2(r.1)
    decreases P64 - fi
  {
    if fi >= P63 then (fi, 0)
    else
      var (m, s) := Normalise(2 * fi);
      assert 2 * fi * Pow2(s) == fi * Pow2(s + 1);
      (m, s + 1)
  }

  function Extended(x: F64): F80 {
    var frac := Frac64(x);
    var exp := Exp64(x);
    if exp != 0 then
      Build80(Sign64(x), frac * P11, if exp == SPECIAL64 then SPECIAL80 else exp - BIAS64 + BIAS80)
    else if frac == 0 then Build80(Sign64(x), 0, 0)
    else
      var (m, s) := Normalise(frac * P11);
      ShiftBound(frac * P11);
      Build80(Sign64(x), m, BIAS80 - BIAS64 - s)
  }

  lemma {:induction false} ShiftBound(fi: nat)
    requires 0 < fi < P64
    ensures Normalise(fi).1 <= 63
  {
    var s := Normalise(fi).1;
    if s > 63 {
      PowGrows(64, s);
      assert Pow2(64) == P64 by { Pow64(); }
      MulGrows(fi, P64, Pow2(s));
    }
  }

  lemma {:induction false} PowGrows(m: nat, n: nat)
    requires m <= n
    ensures Pow2(m) <= Pow2(n)
  {
    if m < n { PowGrows(m, n - 1); }
  }

  lemma {:induction false} PowSum(m: nat, n: nat)
    ensures Pow2(m + n) == Pow2(m) * Pow2(n)
  {
    if m > 0 {
      PowSum(m - 1, n);
      assert 2 * Pow2(m - 1) * Pow2(n) == 2 * (Pow2(m - 1) * Pow2(n));
    }
  }

  lemma {:induction false} Pow64()
    ensures Pow2(64) == P64
  {
    PowSquare(8, 0x100);
    PowSquare(16, 0x1_0000);
    PowSquare(32, 0x1_0000_0000);
  }

  lemma {:induction false} PowSquare(n: nat, p: nat)
    requires Pow2(n) == p
    ensures Pow2(n + n) == p * p
  {
    PowSum(n, n);
  }

  lemma {:induction false} MulGrows(a: nat, b: nat, c: nat)
    requires a > 0 && b <= c
    ensures a * c >= b
  {
  }

  method ConvertFromDouble(x: F64) returns (f: F80)
    ensures f == Extended(x)
  {
    var frac := Frac64(x);
    var exp := Exp64(x);
    if exp != 0 {
      f := Build80(Sign64(x), frac * P11, if exp == SPECIAL64 then SPECIAL80 else exp - BIAS64 + BIAS80);
    } else if frac == 0 {
      f := Build80(Sign64(x), 0, 0);
    } else {
      var fi: nat := frac * P11;
      var shift: nat := 0;
      while fi < P63
        invariant 0 < fi < P64
        invariant Normalise(fi).0 == Normalise(frac * P11).0 && Normalise(fi).1 + shift == Normalise(frac * P11).1
        decreases P64 - fi
      {
        fi, shift := 2 * fi, shift + 1;
      }
      ShiftBound(frac * P11);
      f := Build80(Sign64(x), fi, BIAS80 - BIAS64 - shift);
    }
  }

  // ---- From extended double to double ---------------------------------------------

  function Shifted(x: nat, n: nat): nat { if n == 0 then x else Shifted(x / 2, n - 1) }

  lemma {:induction false} ShiftedBack(x: nat, n: nat)
    ensures Shifted(x * Pow2(n), n) == x
  {
    if n > 0 {
      assert x * Pow2(n) == 2 * (x * Pow2(n - 1));
      ShiftedBack(x, n - 1);
    }
  }

  lemma {:induction false} ShiftedZero(n: nat)
    ensures Shifted(0, n) == 0
  {
    if n > 0 { ShiftedZero(n - 1); }
  }

  const QNAN := 0xf_ffff_ffff_ffff
  const QNANI := 0x8_0000_0000_0000
  const SNAN := 0x7_ffff_ffff_ffff

  function Rounded(f: F80): F64 {
    if !IsSpecial(f) then
      var exp := Exp80(f) - BIAS80 + BIAS64;
      var frac := f.fi / P11;
      if 0 < exp < SPECIAL64 then Build64(Sign80(f), frac, exp)
      else if exp <= 0 then Build64(Sign80(f), Shifted(frac, -exp), 0)
      else Build64(Sign80(f), 0, SPECIAL64)
    else if IsInf(f) then Build64(Sign80(f), 0, SPECIAL64)
    else if IsSignalling(f) then Build64(Sign80(f), SNAN, SPECIAL64)
    else if IsIndefinite(f) then Build64(true, QNANI, SPECIAL64)
    else Build64(Sign80(f), QNAN, SPECIAL64)
  }

  // ---- Round trips ----------------------------------------------------------------

  lemma {:induction false} NormalTrip(x: F64)
    requires 0 < Exp64(x) < SPECIAL64
    ensures Rounded(Extended(x)) == x
  {
    var frac, exp := Frac64(x), Exp64(x);
    Fields80(Sign64(x), frac * P11, exp - BIAS64 + BIAS80);
    var f := Extended(x);
    assert f.fi == P63 + frac * P11;
    assert f.fi / P11 == P52 + frac;
    Built64(x);
  }

  /** The extended double of a subnormal double. */
  lemma {:induction false} SubnormalExtended(x: F64) returns (s: nat)
    requires Exp64(x) == 0 && Frac64(x) != 0
    ensures 0 < s <= 63
    ensures var f := Extended(x);
            && Sign80(f) == Sign64(x) && Exp80(f) == BIAS80 - BIAS64 - s
            && f.fi >= P63 && f.fi == Frac64(x) * Pow2(s) * P11
  {
    var frac := Frac64(x);
    var m := Normalise(frac * P11).0;
    s := Normalise(frac * P11).1;
    ShiftBound(frac * P11);
    Fields80(Sign64(x), m - P63, BIAS80 - BIAS64 - s);
    Commute(frac, P11, Pow2(s));
  }

  lemma {:induction false} Commute(a: nat, b: nat, c: nat)
    ensures a * b * c == a * c * b
  {
  }

  lemma {:induction false} SubnormalTrip(x: F64)
    requires Exp64(x) == 0 && Frac64(x) != 0
    ensures Rounded(Extended(x)) == x
  {
    var s := SubnormalExtended(x);
    var f := Extended(x);
    var m := Frac64(x) * Pow2(s);
    assert f.fi / P11 == m;
    ShiftedBack(Frac64(x), s);
    Built64(x);
  }

  /** Converting a double to an extended double and back returns the same bits, for
      every double that is a number. */
  lemma {:induction false} RoundTrip(x: F64)
    requires !Classify64(x).NaN?
    ensures Rounded(Extended(x)) == x
  {
    if Exp64(x) == 0 && Frac64(x) != 0 { SubnormalTrip(x); }
    else if 0 < Exp64(x) < SPECIAL64 { NormalTrip(x); }
    else {
      Built64(x);
      ShiftedZero(BIAS80 - BIAS64);
    }
  }

  /** The round trip of a not-a-number keeps the sign and whether it is quiet, and
      a second round trip changes nothing. */
  lemma {:induction false} NanTrip(x: F64)
    requires Classify64(x).NaN?
    ensures var y := Rounded(Extended(x));
            && Classify64(y).NaN? && Sign64(y) == Sign64(x) && (IsQuiet64(y) <==> IsQuiet64(x))
            && Rounded(Extended(y)) == y
  {
    NanOnce(x);
    NanOnce(Rounded(Extended(x)));
  }

  function NanOf(sign: bool, frac: nat): F64 {
    if frac < P51 then Build64(sign, SNAN, SPECIAL64)
    else if sign && frac == P51 then Build64(true, QNANI, SPECIAL64)
    else Build64(sign, QNAN, SPECIAL64)
  }

  lemma {:induction false} NanOnce(x: F64)
    requires Classify64(x).NaN?
    ensures Rounded(Extended(x)) == NanOf(Sign64(x), Frac64(x))
  {
    var frac := Frac64(x);
    Fields80(Sign64(x), frac * P11, SPECIAL80);
    var f := Extended(x);
    assert f.fi == P63 + frac * P11 && Frac80(f) == frac * P11;
  }

  /** The conversion keeps the class, but that subnormals become normal. */
  lemma {:induction false} ClassKept(x: F64)
    ensures Classify(Extended(x)) == (if Classify64(x).Subnormal? then Normal else Classify64(x))
    ensures Sign80(Extended(x)) == Sign64(x)
  {
    var frac, exp := Frac64(x), Exp64(x);
    if exp == 0 && frac != 0 {
      var (m, s) := Normalise(frac * P11);
      ShiftBound(frac * P11);
      Fields80(Sign64(x), m - P63, BIAS80 - BIAS64 - s);
    } else {
      Fields80(Sign64(x), frac * P11,
               if exp == 0 then 0 else if exp == SPECIAL64 then SPECIAL80 else exp - BIAS64 + BIAS80);
    }
  }
}
