/** File sizes and alignments of ELF structures, alignment arithmetic and the
    power-of-two test. */
module ElfTypes {
  import opened Wrappers

  datatype ElfClass = Class32 | Class64

  /** The data types a section's contents can have. */
  datatype ElfType = TAddr | TByte | TDyn | TMove | TNote | TRel | TRela | TSym | TSyminfo | TVdef | TVneed | TWord

  /** Section types; `Unknown` stands for those that cannot be translated. */
  datatype ShType =
    | ShtNull | ShtProgbits | ShtSymtab | ShtStrtab | ShtRela | ShtHash | ShtDynamic | ShtNote | ShtNobits | ShtRel
    | ShtDynsym | ShtInitArray | ShtFiniArray | ShtPreinitArray | ShtGroup | ShtSymtabShndx
    | ShtMove | ShtSyminfo | ShtVerdef | ShtVerneed | Unknown

  function XlateShType(t: ShType): Option<ElfType> {
    match t
    case ShtDynamic => Some(TDyn)
    case ShtDynsym | ShtSymtab => Some(TSym)
    case ShtFiniArray | ShtInitArray | ShtPreinitArray => Some(TAddr)
    case ShtGroup | ShtHash | ShtSymtabShndx => Some(TWord)
    case ShtNobits | ShtProgbits | ShtStrtab => Some(TByte)
    case ShtNote => Some(TNote)
    case ShtRel => Some(TRel)
    case ShtRela => Some(TRela)
    case ShtVerdef => Some(TVdef)
    case ShtVerneed => Some(TVneed)
    case ShtMove => Some(TMove)
    case ShtSyminfo => Some(TSyminfo)
    case ShtNull | Unknown => None
  }

  function FAlign(t: ElfType, c: ElfClass): nat {
    match t
    case TByte => 1
    case TSyminfo => 2
    case TNote | TVdef | TVneed | TWord => 4
    case TMove => 8
    case TAddr | TDyn | TRel | TRela | TSym => AddrAlign(c)
  }

  /** The size of one object of a type in memory, on a host that aligns 64-bit
      words to eight bytes. */
  function MSize(t: ElfType, c: ElfClass): (m: nat)
    ensures FSize(t, c) <= m && m > 0
  {
    match t
    case TMove => if c.Class32? then 24 else 32
    case _ => FSize(t, c)
  }

  /** The alignment of a type in memory, on the same host. */
  function MAlign(t: ElfType, c: ElfClass): (a: nat)
    ensures a > 0
  {
    FAlign(t, c)
  }

  /** The size of one object of a type in the file. */
  function FSize(t: ElfType, c: ElfClass): (f: nat)
    ensures f > 0
  {
    match t
    case TByte | TNote => 1
    case TSyminfo | TWord => 4
    case TVneed => 16
    case TVdef => 20
    case TAddr => if c.Class32? then 4 else 8
    case TDyn | TRel => if c.Class32? then 8 else 16
    case TRela => if c.Class32? then 12 else 24
    case TSym => if c.Class32? then 16 else 24
    case TMove => if c.Class32? then 20 else 28
  }

  /** Alignment of addresses, and of the two header tables. */
  function AddrAlign(c: ElfClass): (a: nat)
    ensures a > 0 && EhSize(c) % a == 0
  {
    if c.Class32? then 4 else 8
  }

  function EhSize(c: ElfClass): nat { if c.Class32? then 52 else 64 }

  function PhSize(c: ElfClass): nat { if c.Class32? then 32 else 56 }

  function ShSize(c: ElfClass): nat { if c.Class32? then 40 else 64 }

  const SHN_LORESERVE := 0xff00

  /** x is a multiple of a. */
  predicate Divides(a: nat, x: nat) {
    a > 0 && (x == 0 || (x >= a && Divides(a, x - a)))
  }

  lemma {:induction false} DividesMod(a: nat, x: nat)
    requires a > 0
    ensures Divides(a, x) <==> x % a == 0
  {
    if x >= a {
      DividesMod(a, x - a);
      AddMod(x - a, a);
    }
  }

  lemma {:induction false} DividesSum(a: nat, x: nat, y: nat)
    requires Divides(a, x) && Divides(a, y)
    ensures Divides(a, x + y)
  {
    if x > 0 { DividesSum(a, x - a, y); }
  }

  lemma {:induction false} DividesTrans(a: nat, b: nat, c: nat)
    requires Divides(a, b) && Divides(b, c)
    ensures Divides(a, c)
  {
    if c > 0 {
      DividesTrans(a, b, c - b);
      DividesSum(a, b, c - b);
    }
  }

  lemma {:induction false} DividesTwice(a: nat, x: nat)
    requires Divides(a, x)
    ensures Divides(2 * a, 2 * x)
  {
    if x > 0 { DividesTwice(a, x - a); }
  }

  lemma {:induction false} DividesBound(a: nat, x: nat)
    requires Divides(a, x) && x > 0
    ensures a <= x
  {
  }

  lemma {:induction false} DividesSelf(a: nat)
    requires a > 0
    ensures Divides(a, a)
  {
  }

  lemma {:induction false} DividesMultiple(a: nat, q: nat)
    requires a > 0
    ensures Divides(a, q * a)
  {
    if q > 0 {
      DividesMultiple(a, q - 1);
      assert q * a == (q - 1) * a + a;
    } else {
      assert q * a == 0;
    }
  }

  /** The least multiple of y that is not below x. */
  function RoundUp(x: nat, y: nat): (r: nat)
    requires y > 0
    ensures x <= r < x + y && Divides(y, r)
  {
    if x == 0 then 0 else if x <= y then y else y + RoundUp(x - y, y)
  }

  /** The roundup macro of the C headers. */
  method Roundup(x: nat, y: nat) returns (r: nat)
    requires y > 0
    ensures r == RoundUp(x, y)
  {
    var q := (x + (y - 1)) / y;
    r := q * y;
    assert x + (y - 1) == q * y + (x + (y - 1)) % y;
    DividesMultiple(y, q);
    RoundUpLeast(x, y, r);
    if RoundUp(x, y) < r {
      DividesApart(y, RoundUp(x, y), r);
    }
  }

  /** The remainder test of the C code. */
  method IsMultiple(x: nat, a: nat) returns (b: bool)
    requires a > 0
    ensures b == Divides(a, x)
  {
    DividesMod(a, x);
    b := x % a == 0;
  }

  /** A multiple is its own round-up, and rounding up does not skip a multiple. */
  lemma {:induction false} RoundUpLeast(x: nat, y: nat, m: nat)
    requires y > 0 && Divides(y, m) && x <= m
    ensures RoundUp(x, y) <= m
  {
    var r := RoundUp(x, y);
    if m < r {
      DividesApart(y, m, r);
    }
  }

  lemma {:induction false} DividesApart(a: nat, x: nat, y: nat)
    requires Divides(a, x) && Divides(a, y) && x < y
    ensures x + a <= y
  {
    if x > 0 { DividesApart(a, x - a, y - a); } else { DividesBound(a, y); }
  }

  lemma {:induction false} AddMod(x: nat, y: nat)
    requires y > 0
    ensures (x + y) % y == x % y
  {
    var q, r := x / y, x % y;
    assert x + y == (q + 1) * y + r;
    ModUnique(x + y, y, q + 1, r);
  }

  lemma {:induction false} ModUnique(x: nat, y: nat, q: nat, r: nat)
    requires y > 0 && x == q * y + r && r < y
    ensures x % y == r && x / y == q
  {
    var q', r' := x / y, x % y;
    assert q' < q ==> q * y >= (q' + 1) * y;
    assert q' > q ==> q' * y >= (q + 1) * y;
  }
}
