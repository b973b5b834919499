/** Bit fields of the 64-bit and 80-bit floating-point formats.  Words are natural
    numbers; masks and shifts are remainders, quotients and products of powers of
    two. */
module FpBits {

  const P11 := 0x800
  const P15 := 0x8000
  const P51 := 0x8_0000_0000_0000
  const P52 := 0x10_0000_0000_0000
  const P62 := 0x4000_0000_0000_0000
  const P63 := 0x8000_0000_0000_0000
  const P64 := 0x1_0000_0000_0000_0000

  const BIAS64 := 0x3ff
  const BIAS80 := 0x3fff
  const SPECIAL64 := 0x7ff
  const SPECIAL80 := 0x7fff

  /** A double as its 64 bits. */
  type F64 = x: nat | x < P64

  datatype F80Bits = F80Bits(se: nat, fi: nat)

  /** An extended double: sign and exponent, integer bit and fraction. */
  type F80 = f: F80Bits | f.se < 0x1_0000 && f.fi < P64 witness F80Bits(0, 0)

  function Sign64(x: F64): bool { x >= P63 }

  function Exp64(x: F64): (e: nat)
    ensures e <= SPECIAL64
  {
    x / P52 % P11
  }

  function Frac64(x: F64): (f: nat)
    ensures f < P52
  {
    x % P52
  }

  function Build64(sign: bool, frac: nat, exp: nat): F64 {
    (if sign then P63 else 0) + exp % P11 * P52 + frac % P52
  }

  function Sign80(f: F80): bool { f.se >= P15 }

  function Exp80(f: F80): (e: nat)
    ensures e <= SPECIAL80
  {
    f.se % P15
  }

  function Frac80(f: F80): (r: nat)
    ensures r < P63
  {
    f.fi % P63
  }

  /** The integer bit is set unless the exponent is zero. */
  function Build80(sign: bool, frac: nat, exp: nat): F80 {
    F80Bits((if sign then P15 else 0) + exp % P15, (if exp != 0 then P63 else 0) + frac % P63)
  }

  lemma {:induction false} Fields64(sign: bool, frac: nat, exp: nat)
    requires frac < P52 && exp <= SPECIAL64
    ensures var x := Build64(sign, frac, exp); Sign64(x) == sign && Exp64(x) == exp && Frac64(x) == frac
  {
  }

  lemma {:induction false} Built64(x: F64)
    ensures Build64(Sign64(x), Frac64(x), Exp64(x)) == x
  {
  }

  lemma {:induction false} Fields80(sign: bool, frac: nat, exp: nat)
    requires frac < P63 && exp <= SPECIAL80
    ensures var f := Build80(sign, frac, exp); Sign80(f) == sign && Exp80(f) == exp && Frac80(f) == frac
  {
  }
}
