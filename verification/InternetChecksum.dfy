/** The Internet checksum: an unrolled word sum and a carry fold. */
module InternetChecksum {

  newtype byte = x: int | 0 <= x < 256

  const INT_MAX := 0x7fff_ffff
  const IP_LEN_MAX := 65535

  /** Two bytes in memory as a host word. */
  function Word(big: bool, b0: byte, b1: byte): (w: nat)
    ensures w <= 65535
  {
    if big then 256 * (b0 as int) + b1 as int else b0 as int + 256 * (b1 as int)
  }

  /** The plain sum of the words of a buffer, an odd last byte padded with zero. */
  function Sum(big: bool, s: seq<byte>): nat {
    if s == [] then 0
    else if |s| == 1 then Word(big, s[0], 0)
    else Word(big, s[0], s[1]) + Sum(big, s[2..])
  }

  /** An odd last byte counts as if a zero followed it. */
  lemma {:induction false} OddPadded(big: bool, s: seq<byte>)
    requires |s| % 2 == 1
    ensures Sum(big, s) == Sum(big, s + [0])
  {
    if |s| > 1 {
      OddPadded(big, s[2..]);
      assert (s + [0])[2..] == s[2..] + [0];
    } else {
      assert (s + [0])[2..] == [];
    }
  }

  /** The sum of every other byte. */
  function Alternate(s: seq<byte>): nat {
    if s == [] then 0 else s[0] as int + if |s| == 1 then 0 else Alternate(s[2..])
  }

  /** In a big-endian sum the bytes at even positions are worth 256, in a little-endian
      one the others are. */
  lemma {:induction false} SumOfBytes(big: bool, s: seq<byte>)
    requires |s| > 0
    ensures Sum(big, s) == (if big then 256 else 1) * Alternate(s) + (if big then 1 else 256) * Alternate(s[1..])
  {
    if |s| > 2 {
      SumOfBytes(big, s[2..]);
      assert s[1..][2..] == s[2..][1..];
    }
  }

  // ---- The unrolled loop --------------------------------------------------------

  lemma {:induction false} SumFrom(big: bool, s: seq<byte>, i: nat, end: nat)
    requires i + 2 <= end <= |s|
    ensures Sum(big, s[i..end]) == Word(big, s[i], s[i + 1]) + Sum(big, s[i + 2..end])
  {
    assert s[i..end][2..] == s[i + 2..end];
  }

  /** One pass through the loop body entered at case k: k words are added. */
  method Pass(big: bool, mem: seq<byte>, sp: nat, k: nat, cksum: int, ghost end: nat) returns (cksum': int)
    requires 2 * (sp + k) <= end <= |mem|
    ensures cksum' + Sum(big, mem[2 * (sp + k)..end]) == cksum + Sum(big, mem[2 * sp..end])
  {
    cksum' := cksum;
    for j := 0 to k
      invariant cksum' + Sum(big, mem[2 * (sp + j)..end]) == cksum + Sum(big, mem[2 * sp..end])
    {
      SumFrom(big, mem, 2 * (sp + j), end);
      cksum' := cksum' + Word(big, mem[2 * (sp + j)], mem[2 * (sp + j) + 1]);
    }
  }

  /** The number of words the device reads: with no words to add it still makes
      one full pass. */
  function WordsRead(len: nat): nat { if len < 2 then 16 else len / 2 }

  /** The switch into the do loop, for sn words. */
  method Device(big: bool, mem: seq<byte>, sn: nat, cksum: int, ghost end: nat) returns (r: int, sp: nat)
    requires 2 * (if sn == 0 then 16 else sn) <= end <= |mem|
    ensures sp == (if sn == 0 then 16 else sn) && r + Sum(big, mem[2 * sp..end]) == cksum + Sum(big, mem[0..end])
  {
    var n: int := (sn + 15) / 16;
    var entry := if sn % 16 == 0 then 16 else sn % 16;
    sp := 0;
    r := Pass(big, mem, sp, entry, cksum, end);
    sp, n := sp + entry, n - 1;
    while n > 0
      invariant if n > 0 then sp + 16 * n == sn else sp == if sn == 0 then 16 else sn
      invariant 2 * sp <= end && r + Sum(big, mem[2 * sp..end]) == cksum + Sum(big, mem[0..end])
      decreases n
    {
      r := Pass(big, mem, sp, 16, r, end);
      sp, n := sp + 16, n - 1;
    }
  }

  /** Duff's device over the first len bytes of mem: the switch enters the body of
      a do loop at the case for the remainder.  For a buffer of at least one word
      it adds the plain sum of the buffer. */
  method CksumAdd(big: bool, mem: seq<byte>, len: nat, cksum: int) returns (r: int)
    requires len <= |mem| && 2 * WordsRead(len) + len % 2 <= |mem|
    ensures len >= 2 ==> r == cksum + Sum(big, mem[..len])
    ensures len < 2 ==> r == cksum + Sum(big, mem[..32 + len])
  {
    ghost var end := 2 * WordsRead(len) + len % 2;
    var sp: nat;
    r, sp := Device(big, mem, len / 2, cksum, end);
    if len % 2 == 1 {
      r := r + Word(big, mem[2 * sp], 0);
    }
    assert mem[0..end] == mem[..end];
  }

  predicate Zero(s: seq<byte>) { forall i :: 0 <= i < |s| ==> s[i] == 0 }

  lemma {:induction false} SumZero(big: bool, s: seq<byte>)
    ensures Sum(big, s) == 0 <==> Zero(s)
  {
    if |s| >= 2 {
      SumZero(big, s[2..]);
      assert Zero(s) <==> s[0] == 0 && s[1] == 0 && Zero(s[2..]) by {
        assert forall i :: 2 <= i < |s| ==> s[i] == s[2..][i - 2];
      }
    }
  }

  /** A buffer of less than one word is summed correctly exactly when the bytes
      read past it are zero. */
  lemma {:induction false} ShortBuffer(big: bool, mem: seq<byte>, len: nat)
    requires len < 2 && 32 + len <= |mem|
    ensures Sum(big, mem[..32 + len]) == Sum(big, mem[..len]) <==> Zero(mem[len..32 + len])
  {
    if len == 0 {
      assert mem[..32] == mem[0..32];
      SumZero(big, mem[0..32]);
    } else {
      assert mem[..33][2..] == mem[2..33];
      SumZero(big, mem[2..33]);
      assert forall i :: 1 <= i < 32 ==> mem[1..33][i] == mem[2..33][i - 1];
      assert forall i :: 0 <= i < 31 ==> mem[2..33][i] == mem[1..33][i + 1];
      assert mem[1..33][0] == mem[1];
    }
  }

  // ---- Sums -----------------------------------------------------------------------

  /** Sums of parts add up when the cut is at an even position. */
  lemma {:induction false} SumConcat(big: bool, a: seq<byte>, b: seq<byte>)
    requires |a| % 2 == 0
    ensures Sum(big, a + b) == Sum(big, a) + Sum(big, b)
  {
    if a == [] {
      assert a + b == b;
    } else {
      SumConcat(big, a[2..], b);
      assert (a + b)[2..] == a[2..] + b;
    }
  }

  lemma {:induction false} SumBound(big: bool, s: seq<byte>)
    ensures Sum(big, s) <= 65535 * ((|s| + 1) / 2)
  {
    if |s| >= 2 { SumBound(big, s[2..]); }
  }

  /** The sum of an IP packet fits in a signed 32-bit integer. */
  lemma {:induction false} NoOverflow(big: bool, s: seq<byte>)
    requires |s| <= IP_LEN_MAX
    ensures Sum(big, s) <= INT_MAX
  {
    SumBound(big, s);
  }

  // ---- The carry fold -------------------------------------------------------------

  function Carry(x: nat): (r: nat)
    requires x <= INT_MAX
  {
    var y := x / 65536 + x % 65536;
    65535 - (y + y / 65536) % 65536
  }

  /** The ones' complement residue: x modulo 65535, with 65535 instead of zero
      unless x is zero. */
  function Residue(x: nat): nat { if x == 0 then 0 else (x - 1) % 65535 + 1 }

  lemma {:induction false} ResidueUnique(x: nat, r: nat, k: int)
    requires x == r + 65535 * k && r <= 65535 && (r == 0 <==> x == 0)
    ensures Residue(x) == r
  {
  }

  /** The fold is the complement of the residue. */
  lemma {:induction false} CarryResidue(x: nat)
    requires x <= INT_MAX
    ensures Carry(x) == 65535 - Residue(x)
  {
    var h, l := x / 65536, x % 65536;
    var y := h + l;
    assert x == y + 65535 * h;
    if y < 65536 { ResidueUnique(x, y, h); } else { ResidueUnique(x, y - 65535, h + 1); }
  }

  lemma {:induction false} ResidueForm(x: nat) returns (k: nat)
    ensures x == Residue(x) + 65535 * k && Residue(x) <= 65535 && (Residue(x) == 0 <==> x == 0)
  {
    k := if x == 0 then 0 else (x - 1) / 65535;
  }

  /** Adding the checksum to the sum makes the fold zero. */
  lemma {:induction false} CarryVerifies(x: nat)
    requires x + 65535 <= INT_MAX
    ensures Carry(x + Carry(x)) == 0
  {
    CarryResidue(x);
    var k := ResidueForm(x);
    ResidueUnique(x + Carry(x), 65535, k);
    CarryResidue(x + Carry(x));
  }

  function Hi(w: nat): byte
    requires w <= 65535
  {
    (w / 256) as byte
  }

  function Lo(w: nat): byte { (w % 256) as byte }

  /** The bytes of a host word as they lie in memory. */
  function Bytes(big: bool, w: nat): (s: seq<byte>)
    requires w <= 65535
    ensures |s| == 2 && Word(big, s[0], s[1]) == w
  {
    if big then [Hi(w), Lo(w)] else [Lo(w), Hi(w)]
  }

  lemma {:induction false} SumPatched(big: bool, a: seq<byte>, w: seq<byte>, b: seq<byte>)
    requires |a| % 2 == 0 && |w| == 2
    ensures Sum(big, a + w + b) == Sum(big, a) + Word(big, w[0], w[1]) + Sum(big, b)
  {
    SumConcat(big, a, w + b);
    assert a + w + b == a + (w + b);
    SumConcat(big, w, b);
    assert Sum(big, w[2..]) == 0;
  }

  /** A packet whose checksum field holds the checksum of the packet with a zero
      field passes verification. */
  lemma {:induction false} PacketVerifies(big: bool, a: seq<byte>, b: seq<byte>)
    requires |a| % 2 == 0 && |a| + 2 + |b| <= IP_LEN_MAX
    ensures Sum(big, a + [0, 0] + b) <= INT_MAX
    ensures var c := Carry(Sum(big, a + [0, 0] + b));
            var p := a + Bytes(big, c) + b;
            Sum(big, p) <= INT_MAX && Carry(Sum(big, p)) == 0
  {
    NoOverflow(big, a + [0, 0] + b);
    var x := Sum(big, a + [0, 0] + b);
    var c := Carry(x);
    SumPatched(big, a, [0, 0], b);
    SumPatched(big, a, Bytes(big, c), b);
    NoOverflow(big, a + Bytes(big, c) + b);
    SumBound(big, a);
    SumBound(big, b);
    CarryVerifies(x);
  }

  // ---- Byte order -------------------------------------------------------------------

  function Swap(w: nat): (r: nat)
    requires w <= 65535
    ensures r <= 65535
  {
    256 * (w % 256) + w / 256
  }

  /** The sum of the high bytes of the words. */
  function HighSum(big: bool, s: seq<byte>): nat {
    if s == [] then 0
    else if |s| == 1 then Word(big, s[0], 0) / 256
    else Word(big, s[0], s[1]) / 256 + HighSum(big, s[2..])
  }

  lemma {:induction false} SwappedSum(big: bool, s: seq<byte>)
    ensures Sum(!big, s) == 256 * Sum(big, s) - 65535 * HighSum(big, s)
  {
    if |s| >= 2 {
      SwappedWord(big, s[0], s[1]);
      SwappedSum(big, s[2..]);
    } else if |s| == 1 {
      SwappedWord(big, s[0], 0);
    }
  }

  lemma {:induction false} SwappedWord(big: bool, b0: byte, b1: byte)
    ensures Word(!big, b0, b1) == 256 * Word(big, b0, b1) - 65535 * (Word(big, b0, b1) / 256)
  {
  }

  lemma {:induction false} ResidueSwapped(x: nat, y: nat, q: nat)
    requires y == 256 * x - 65535 * q && (x == 0 <==> y == 0)
    ensures Residue(y) == Swap(Residue(x))
  {
    var k := ResidueForm(x);
    var r := Residue(x);
    assert 256 * r == Swap(r) + 65535 * (r / 256);
    assert Swap(r) == 0 <==> r == 0;
    ResidueUnique(y, Swap(r), 256 * k - q + r / 256);
  }

  /** The checksum does not depend on the byte order: computed with swapped words
      it is the swapped checksum. */
  lemma {:induction false} ByteOrderIndependent(big: bool, s: seq<byte>)
    requires |s| <= IP_LEN_MAX
    ensures Sum(big, s) <= INT_MAX && Sum(!big, s) <= INT_MAX
    ensures Carry(Sum(!big, s)) == Swap(Carry(Sum(big, s)))
    ensures Bytes(!big, Carry(Sum(!big, s))) == Bytes(big, Carry(Sum(big, s)))
  {
    NoOverflow(big, s);
    NoOverflow(!big, s);
    SwappedSum(big, s);
    SumZero(big, s);
    SumZero(!big, s);
    ResidueSwapped(Sum(big, s), Sum(!big, s), HighSum(big, s));
    CarryResidue(Sum(big, s));
    CarryResidue(Sum(!big, s));
    SwapComplement(Residue(Sum(big, s)));
    BytesSwapped(big, Carry(Sum(big, s)));
  }

  lemma {:induction false} SwapComplement(r: nat)
    requires r <= 65535
    ensures Swap(65535 - r) == 65535 - Swap(r)
  {
  }

  lemma {:induction false} BytesSwapped(big: bool, w: nat)
    requires w <= 65535
    ensures Bytes(!big, Swap(w)) == Bytes(big, w)
  {
  }
}
