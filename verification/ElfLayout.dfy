/** The extent of one section: where its data descriptors go inside it and where
    it goes in the file. */
module ElfLayout {
  import opened Wrappers
  import opened ElfTypes

  datatype Error =
    | ErrSection | ErrData | ErrVersion | ErrLayout | ErrClass | ErrHeader | ErrArgument | ErrMode | ErrSequence
    | ErrAssert

  datatype Result<+T> = Ok(value: T) | Err(error: Error)

  /** A data descriptor; `buf` is the address of its buffer, if it has one. */
  datatype Data = Data(dtype: ElfType, version: nat, align: nat, size: nat, off: nat, buf: Option<nat>)

  /** A section: the header fields that matter for layout, the library's own
      offset and size, the dirty flag and the data descriptors. */
  datatype Section = Section(shType: ShType, addralign: nat, shOffset: nat, shSize: nat,
                             sOffset: nat, sSize: nat, dirty: bool, data: seq<Data>)

  /** `layout` is the ELF_F_LAYOUT flag: the application places everything itself. */
  datatype Env = Env(cls: ElfClass, version: nat, layout: bool)

  /** Sections without space in the file. */
  predicate Skipped(s: Section) { s.shType.ShtNull? || s.shType.ShtNobits? }

  function End(s: Section): nat { s.sOffset + s.sSize }

  /** A header field as stored: 32-bit objects keep the low 32 bits. */
  function Field(c: ElfClass, x: nat): nat { if c.Class32? then x % 0x1_0000_0000 else x }

  // ---- The power-of-two test ------------------------------------------------

  function BitAnd(a: nat, b: nat): nat
    decreases a
  {
    if a == 0 then 0 else (if a % 2 == 1 && b % 2 == 1 then 1 else 0) + 2 * BitAnd(a / 2, b / 2)
  }

  predicate IsPow2(n: nat) {
    n == 1 || (n > 1 && n % 2 == 0 && IsPow2(n / 2))
  }

  lemma {:induction false} AndSelf(a: nat)
    ensures BitAnd(a, a) == a
  {
    if a > 0 { AndSelf(a / 2); }
  }

  /** d & (d - 1) is zero exactly for the powers of two. */
  lemma {:induction false} PowerTest(d: nat)
    requires d > 0
    ensures BitAnd(d, d - 1) == 0 <==> IsPow2(d)
  {
    if d % 2 == 1 {
      AndSelf(d / 2);
      assert (d - 1) / 2 == d / 2;
    } else {
      assert (d - 1) / 2 == d / 2 - 1;
      PowerTest(d / 2);
    }
  }

  lemma {:induction false} PowersDivide(a: nat, b: nat)
    requires IsPow2(a) && IsPow2(b) && a <= b
    ensures Divides(a, b)
  {
    if a == 1 {
      OneDivides(b);
    } else {
      PowersDivide(a / 2, b / 2);
      DividesTwice(a / 2, b / 2);
    }
  }

  lemma {:induction false} OneDivides(b: nat)
    ensures Divides(1, b)
  {
    if b > 0 { OneDivides(b - 1); }
  }

  // ---- Specification --------------------------------------------------------

  /** The checks on one descriptor, in the order in which they are made. */
  function CheckData(e: Env, t: ElfType, shAlign: nat, d: Data): Option<Error>
    requires shAlign > 0
  {
    if d.dtype != t then Some(ErrData)
    else if d.version != e.version then Some(ErrVersion)
    else if !Divides(shAlign, d.align) then Some(ErrLayout)
    else if d.align == 0 || BitAnd(d.align, d.align - 1) != 0 then Some(ErrData)
    else None
  }

  function Max(a: nat, b: nat): nat { if a < b then b else a }

  /** The section alignment: the largest alignment of its descriptors, or the
      first descriptor's error. */
  function Alignment(e: Env, t: ElfType, shAlign: nat, ds: seq<Data>): Result<nat>
    requires shAlign > 0
  {
    if ds == [] then Ok(0)
    else match Alignment(e, t, shAlign, ds[..|ds| - 1])
         case Err(x) => Err(x)
         case Ok(a) =>
           var d := ds[|ds| - 1];
           match CheckData(e, t, shAlign, d)
           case Some(x) => Err(x)
           case None => Ok(Max(a, d.align))
  }

  /** The descriptors placed one after the other at multiples of a, and the size. */
  function Place(ds: seq<Data>, a: nat): (r: (seq<Data>, nat))
    requires ds != [] ==> a > 0
  {
    if ds == [] then ([], 0)
    else
      var (ps, size) := Place(ds[..|ds| - 1], a);
      var d := ds[|ds| - 1];
      var off := RoundUp(size, a);
      (ps + [d.(off := off)], off + d.size)
  }

  /** The end of the last descriptor as the application placed them. */
  function UserSize(ds: seq<Data>): nat {
    if ds == [] then 0 else Max(UserSize(ds[..|ds| - 1]), ds[|ds| - 1].off + ds[|ds| - 1].size)
  }

  function ShAlign(e: Env, s: Section, t: ElfType): (a: nat)
    ensures a > 0
  {
    if s.addralign == 0 then FAlign(t, e.cls) else s.addralign
  }

  /** The section with its extent computed, and the new end of the file so far. */
  function Extents(e: Env, s: Section, rc: nat): Result<(Section, nat)> {
    if Skipped(s) then Ok((s, rc))
    else if !s.dirty then Ok((s, Max(rc, s.shOffset + s.shSize)))
    else match XlateShType(s.shType)
         case None => Err(ErrSection)
         case Some(t) =>
           var shAlign := ShAlign(e, s, t);
           match Alignment(e, t, shAlign, s.data)
           case Err(x) => Err(x)
           case Ok(a) =>
             AlignmentPositive(e, t, shAlign, s.data);
             if e.layout then UserExtents(s, shAlign, a, rc)
             else Ok(LibraryExtents(e, s, shAlign, a, rc))
  }

  function UserExtents(s: Section, shAlign: nat, a: nat, rc: nat): Result<(Section, nat)>
    requires shAlign > 0
  {
    if a > shAlign || !Divides(shAlign, s.shOffset) || s.shSize < UserSize(s.data) then Err(ErrLayout)
    else Ok((s.(sSize := s.shSize, sOffset := s.shOffset), Max(rc, s.shOffset + s.shSize)))
  }

  function LibraryExtents(e: Env, s: Section, shAlign: nat, a: nat, rc: nat): (Section, nat)
    requires shAlign > 0 && (s.data != [] ==> a > 0)
  {
    var align := Max(shAlign, a);
    var (ps, size) := Place(s.data, a);
    var offset := RoundUp(rc, align);
    (s.(addralign := Field(e.cls, align), shOffset := Field(e.cls, offset), shSize := Field(e.cls, size),
        sSize := size, sOffset := offset, data := ps), Max(rc, offset + size))
  }

  lemma {:induction false} AlignmentPositive(e: Env, t: ElfType, shAlign: nat, ds: seq<Data>)
    requires shAlign > 0 && Alignment(e, t, shAlign, ds).Ok?
    ensures ds != [] ==> Alignment(e, t, shAlign, ds).value > 0
  {
    if ds != [] { AlignmentPositive(e, t, shAlign, ds[..|ds| - 1]); }
  }

  // ---- The two loops --------------------------------------------------------

  method CheckDescriptor(e: Env, t: ElfType, shAlign: nat, d: Data) returns (x: Option<Error>)
    requires shAlign > 0
    ensures x == CheckData(e, t, shAlign, d)
  {
    if d.dtype != t {
      return Some(ErrData);
    }
    if d.version != e.version {
      return Some(ErrVersion);
    }
    var multiple := IsMultiple(d.align, shAlign);
    if !multiple {
      return Some(ErrLayout);
    }
    if d.align == 0 || BitAnd(d.align, d.align - 1) != 0 {
      return Some(ErrData);
    }
    return None;
  }

  method ComputeAlignment(e: Env, t: ElfType, shAlign: nat, ds: seq<Data>) returns (r: Result<nat>)
    requires shAlign > 0
    ensures r == Alignment(e, t, shAlign, ds)
  {
    var a := 0;
    for i := 0 to |ds|
      invariant Alignment(e, t, shAlign, ds[..i]) == Ok(a)
    {
      assert ds[..i + 1][..i] == ds[..i];
      ErrorPersists(e, t, shAlign, ds, i + 1);
      var x := CheckDescriptor(e, t, shAlign, ds[i]);
      if x.Some? {
        return Err(x.value);
      }
      if ds[i].align > a {
        a := ds[i].align;
      }
    }
    assert ds[..|ds|] == ds;
    return Ok(a);
  }

  lemma {:induction false} ErrorPersists(e: Env, t: ElfType, shAlign: nat, ds: seq<Data>, i: nat)
    requires shAlign > 0 && i <= |ds|
    ensures Alignment(e, t, shAlign, ds[..i]).Err? ==>
      Alignment(e, t, shAlign, ds) == Alignment(e, t, shAlign, ds[..i])
    decreases |ds|
  {
    if i == |ds| {
      assert ds[..i] == ds;
    } else {
      assert ds[..|ds| - 1][..i] == ds[..i];
      ErrorPersists(e, t, shAlign, ds[..|ds| - 1], i);
    }
  }

  method ComputePlacement(ds: seq<Data>, a: nat) returns (placed: seq<Data>, scnSize: nat)
    requires ds != [] ==> a > 0
    ensures (placed, scnSize) == Place(ds, a)
  {
    placed, scnSize := [], 0;
    for i := 0 to |ds|
      invariant (placed, scnSize) == Place(ds[..i], a)
    {
      assert ds[..i + 1][..i] == ds[..i];
      scnSize := Roundup(scnSize, a);
      placed := placed + [ds[i].(off := scnSize)];
      scnSize := scnSize + ds[i].size;
    }
    assert ds[..|ds|] == ds;
  }

  method ComputeUserSize(ds: seq<Data>) returns (scnSize: nat)
    ensures scnSize == UserSize(ds)
  {
    scnSize := 0;
    for i := 0 to |ds|
      invariant scnSize == UserSize(ds[..i])
    {
      assert ds[..i + 1][..i] == ds[..i];
      if ds[i].off + ds[i].size > scnSize {
        scnSize := ds[i].off + ds[i].size;
      }
    }
    assert ds[..|ds|] == ds;
  }

  method ComputeExtents(e: Env, s: Section, rc: nat) returns (r: Result<(Section, nat)>)
    ensures r == Extents(e, s, rc)
  {
    if Skipped(s) {
      return Ok((s, rc));
    }
    if !s.dirty {
      return Ok((s, if rc < s.shOffset + s.shSize then s.shOffset + s.shSize else rc));
    }
    var t := XlateShType(s.shType);
    if t.None? {
      return Err(ErrSection);
    }
    var shAlign := ShAlign(e, s, t.value);
    var a := ComputeAlignment(e, t.value, shAlign, s.data);
    if a.Err? {
      return Err(a.error);
    }
    AlignmentPositive(e, t.value, shAlign, s.data);
    if e.layout {
      var scnSize := ComputeUserSize(s.data);
      var multiple := IsMultiple(s.shOffset, shAlign);
      if a.value > shAlign || !multiple || s.shSize < scnSize {
        return Err(ErrLayout);
      }
      return Ok((s.(sSize := s.shSize, sOffset := s.shOffset),
                 if rc < s.shOffset + s.shSize then s.shOffset + s.shSize else rc));
    }
    var placed, scnSize := ComputePlacement(s.data, a.value);
    var align := if a.value > shAlign then a.value else shAlign;
    var offset := Roundup(rc, align);
    var s' := s.(addralign := Field(e.cls, align), shOffset := Field(e.cls, offset), shSize := Field(e.cls, scnSize),
                 sSize := scnSize, sOffset := offset, data := placed);
    return Ok((s', if rc < offset + scnSize then offset + scnSize else rc));
  }

  // ---- What the layout guarantees -------------------------------------------

  /** The descriptors are in order and apart, and end inside the size. */
  predicate Apart(ds: seq<Data>, size: nat) {
    && (forall i, j :: 0 <= i < j < |ds| ==> ds[i].off + ds[i].size <= ds[j].off)
    && (forall i :: 0 <= i < |ds| ==> ds[i].off + ds[i].size <= size)
  }

  lemma {:induction false} PlaceApart(ds: seq<Data>, a: nat)
    requires ds != [] ==> a > 0
    ensures var (ps, size) := Place(ds, a);
            && |ps| == |ds| && Apart(ps, size)
            && (forall i :: 0 <= i < |ps| ==> ps[i] == ds[i].(off := ps[i].off) && Divides(a, ps[i].off))
            && (ps != [] ==> ps[0].off == 0 && size == ps[|ps| - 1].off + ps[|ps| - 1].size)
  {
    if ds != [] {
      PlaceApart(ds[..|ds| - 1], a);
    }
  }

  lemma {:induction false} CheckedData(e: Env, t: ElfType, shAlign: nat, d: Data)
    requires shAlign > 0 && CheckData(e, t, shAlign, d).None?
    ensures IsPow2(d.align) && Divides(shAlign, d.align)
  {
    PowerTest(d.align);
  }

  lemma {:induction false} AlignmentDivides(e: Env, t: ElfType, shAlign: nat, ds: seq<Data>, i: nat)
    requires shAlign > 0 && Alignment(e, t, shAlign, ds).Ok? && i < |ds|
    ensures var a := Alignment(e, t, shAlign, ds).value;
            IsPow2(a) && Divides(ds[i].align, a) && Divides(shAlign, a)
  {
    var init := ds[..|ds| - 1];
    var d := ds[|ds| - 1];
    CheckedData(e, t, shAlign, d);
    PowersDivide(d.align, d.align);
    if |ds| > 1 {
      var k := if i < |ds| - 1 then i else 0;
      AlignmentDivides(e, t, shAlign, init, k);
      var a := Alignment(e, t, shAlign, init).value;
      if a < d.align {
        PowersDivide(a, d.align);
        DividesTrans(init[k].align, a, d.align);
      } else {
        PowersDivide(d.align, a);
      }
    }
  }

  lemma {:induction false} PlacedAligned(sa: nat, a: nat, d: nat, x: nat, y: nat)
    requires a > 0 && Divides(sa, a) && Divides(d, a)
    requires Divides(Max(sa, a), x) && Divides(a, y)
    ensures Divides(d, x + y) && Divides(sa, x)
  {
    DividesBound(sa, a);
    DividesTrans(sa, a, x);
    DividesSum(a, x, y);
    DividesTrans(d, a, x + y);
  }

  lemma {:induction false} LibraryExtentsLayout(e: Env, s: Section, sa: nat, a: nat, rc: nat)
    requires sa > 0 && (s.data != [] ==> a > 0 && Divides(sa, a)) && (s.data == [] ==> a == 0)
    ensures var (s', rc') := LibraryExtents(e, s, sa, a, rc);
            && rc <= s'.sOffset && rc' == End(s') && s'.shType == s.shType && Divides(sa, s'.sOffset)
            && s'.shOffset == Field(e.cls, s'.sOffset) && s'.shSize == Field(e.cls, s'.sSize)
            && |s'.data| == |s.data| && Apart(s'.data, s'.sSize)
            && (forall i :: 0 <= i < |s.data| ==> s'.data[i] == s.data[i].(off := s'.data[i].off))
  {
    PlaceApart(s.data, a);
    var (s', rc') := LibraryExtents(e, s, sa, a, rc);
    if s.data != [] {
      DividesBound(sa, a);
      DividesTrans(sa, a, s'.sOffset);
    }
  }

  /** Library layout of a dirty section: it starts at or after the end of what was
      placed before, it is aligned, it ends at the new end of the file, its header says
      so, and every descriptor lies inside it, after the previous one. */
  lemma {:induction false} LibraryLayout(e: Env, s: Section, rc: nat)
    requires !e.layout && s.dirty && !Skipped(s) && Extents(e, s, rc).Ok?
    ensures var (s', rc') := Extents(e, s, rc).value;
            && rc <= s'.sOffset && rc' == End(s') && s'.shType == s.shType
            && s'.shOffset == Field(e.cls, s'.sOffset) && s'.shSize == Field(e.cls, s'.sSize)
            && Divides(ShAlign(e, s, XlateShType(s.shType).value), s'.sOffset)
            && |s'.data| == |s.data| && Apart(s'.data, s'.sSize)
            && (forall i :: 0 <= i < |s.data| ==> s'.data[i] == s.data[i].(off := s'.data[i].off))
  {
    var t := XlateShType(s.shType).value;
    var sa := ShAlign(e, s, t);
    var a := Alignment(e, t, sa, s.data).value;
    AlignmentPositive(e, t, sa, s.data);
    if s.data != [] { AlignmentDivides(e, t, sa, s.data, 0); }
    LibraryExtentsLayout(e, s, sa, a, rc);
  }

  /** x is the least multiple of a from lo on. */
  ghost predicate Least(a: nat, lo: nat, x: nat) {
    lo <= x && Divides(a, x) && forall y :: lo <= y && Divides(a, y) ==> x <= y
  }

  lemma {:induction false} RoundUpIsLeast(lo: nat, a: nat)
    requires a > 0
    ensures Least(a, lo, RoundUp(lo, a))
  {
    forall y | lo <= y && Divides(a, y) ensures RoundUp(lo, a) <= y { RoundUpLeast(lo, a, y); }
  }

  /** The end of the first n descriptors. */
  function EndOf(ds: seq<Data>, n: nat): nat
    requires n <= |ds|
  {
    if n == 0 then 0 else ds[n - 1].off + ds[n - 1].size
  }

  lemma {:induction false} PlaceLeast(ds: seq<Data>, a: nat)
    requires ds != [] ==> a > 0
    ensures var (ps, size) := Place(ds, a);
            && |ps| == |ds| && size == EndOf(ps, |ps|)
            && forall i :: 0 <= i < |ps| ==> ps[i] == ds[i].(off := ps[i].off) && Least(a, EndOf(ps, i), ps[i].off)
  {
    if ds != [] {
      var init := ds[..|ds| - 1];
      PlaceLeast(init, a);
      var (qs, size) := Place(init, a);
      RoundUpIsLeast(size, a);
      var ps := Place(ds, a).0;
      assert forall i :: 0 <= i < |qs| ==> ps[i] == qs[i];
      forall i | 0 <= i < |ps| ensures ps[i] == ds[i].(off := ps[i].off) && Least(a, EndOf(ps, i), ps[i].off) {
        assert EndOf(ps, i) == EndOf(qs, i);
      }
    }
  }

  /** The alignment of the section is the largest of its descriptors'. */
  lemma {:induction false} AlignmentLargest(e: Env, t: ElfType, sa: nat, ds: seq<Data>)
    requires sa > 0 && Alignment(e, t, sa, ds).Ok?
    ensures var a := Alignment(e, t, sa, ds).value;
            && (forall i :: 0 <= i < |ds| ==> ds[i].align <= a)
            && (if ds == [] then a == 0 else exists i :: 0 <= i < |ds| && ds[i].align == a)
  {
    if ds != [] {
      var n := |ds| - 1;
      AlignmentLargest(e, t, sa, ds[..n]);
      if Alignment(e, t, sa, ds).value != ds[n].align {
        var i :| 0 <= i < n && ds[..n][i].align == Alignment(e, t, sa, ds).value;
        assert ds[i] == ds[..n][i];
      }
    }
  }

  /** The descriptors are all that a section of type t with alignment sa can have. */
  ghost predicate Accepted(e: Env, t: ElfType, sa: nat, ds: seq<Data>) {
    forall i :: 0 <= i < |ds| ==>
      ds[i].dtype == t && ds[i].version == e.version && IsPow2(ds[i].align) && Divides(sa, ds[i].align)
  }

  lemma {:induction false} CheckAccepts(e: Env, t: ElfType, sa: nat, d: Data)
    requires sa > 0
    ensures CheckData(e, t, sa, d).None? <==>
      d.dtype == t && d.version == e.version && IsPow2(d.align) && Divides(sa, d.align)
  {
    if d.align > 0 { PowerTest(d.align); }
  }

  lemma {:induction false} AlignmentAccepts(e: Env, t: ElfType, sa: nat, ds: seq<Data>)
    requires sa > 0
    ensures Alignment(e, t, sa, ds).Ok? <==> Accepted(e, t, sa, ds)
  {
    if ds != [] {
      var n := |ds| - 1;
      AlignmentAccepts(e, t, sa, ds[..n]);
      CheckAccepts(e, t, sa, ds[n]);
      assert forall i :: 0 <= i < n ==> ds[i] == ds[..n][i];
    }
  }

  /** Otherwise the error is that of the first descriptor that is not accepted: a wrong
      type, else a wrong version, else an alignment that is no multiple of the section's,
      else one that is no power of two. */
  lemma {:induction false} FirstRefused(e: Env, t: ElfType, sa: nat, ds: seq<Data>) returns (i: nat)
    requires sa > 0 && Alignment(e, t, sa, ds).Err?
    ensures i < |ds| && Accepted(e, t, sa, ds[..i]) && !Accepted(e, t, sa, [ds[i]])
    ensures Alignment(e, t, sa, ds).error ==
      if ds[i].dtype != t then ErrData else if ds[i].version != e.version then ErrVersion
      else if !Divides(sa, ds[i].align) then ErrLayout else ErrData
  {
    var n := |ds| - 1;
    if Alignment(e, t, sa, ds[..n]).Err? {
      i := FirstRefused(e, t, sa, ds[..n]);
      assert ds[..n][..i] == ds[..i];
    } else {
      i := n;
      AlignmentAccepts(e, t, sa, ds[..n]);
      CheckAccepts(e, t, sa, ds[n]);
      assert [ds[n]][0] == ds[n];
    }
  }

  /** Library layout accepts a section if and only if its type can be translated and
      every descriptor has that type, the object's version and an alignment that is a
      power of two and a multiple of the section's. */
  lemma {:induction false} LibraryAccepts(e: Env, s: Section, rc: nat)
    requires !e.layout && s.dirty && !Skipped(s)
    ensures Extents(e, s, rc).Ok? <==>
      XlateShType(s.shType).Some? &&
      var t := XlateShType(s.shType).value; Accepted(e, t, ShAlign(e, s, t), s.data)
  {
    if XlateShType(s.shType).Some? {
      var t := XlateShType(s.shType).value;
      AlignmentAccepts(e, t, ShAlign(e, s, t), s.data);
    }
  }

  /** Where library layout puts a section: at the least possible multiple of the largest
      alignment a, with each descriptor at the least multiple of the largest descriptor
      alignment b behind the one before.  The header gets offset, size and alignment;
      nothing else changes. */
  lemma {:induction false} LibraryPlaces(e: Env, s: Section, rc: nat) returns (a: nat, b: nat)
    requires !e.layout && s.dirty && !Skipped(s) && Extents(e, s, rc).Ok?
    ensures var sa := ShAlign(e, s, XlateShType(s.shType).value); sa <= a && b <= a && (a == sa || a == b)
    ensures forall i :: 0 <= i < |s.data| ==> s.data[i].align <= b
    ensures if s.data == [] then b == 0 else exists i :: 0 <= i < |s.data| && s.data[i].align == b
    ensures var (s', rc') := Extents(e, s, rc).value;
            && Least(a, rc, s'.sOffset) && rc' == End(s')
            && |s'.data| == |s.data| && s'.sSize == EndOf(s'.data, |s.data|)
            && (forall i :: 0 <= i < |s.data| ==>
                  s'.data[i] == s.data[i].(off := s'.data[i].off) && Least(b, EndOf(s'.data, i), s'.data[i].off))
            && s' == s.(addralign := Field(e.cls, a), shOffset := Field(e.cls, s'.sOffset),
                        shSize := Field(e.cls, s'.sSize), sOffset := s'.sOffset, sSize := s'.sSize, data := s'.data)
  {
    var t := XlateShType(s.shType).value;
    var sa := ShAlign(e, s, t);
    b := Alignment(e, t, sa, s.data).value;
    a := Max(sa, b);
    AlignmentPositive(e, t, sa, s.data);
    AlignmentLargest(e, t, sa, s.data);
    PlaceLeast(s.data, b);
    RoundUpIsLeast(rc, a);
  }

  lemma {:induction false} UserSizeIs(ds: seq<Data>, n: nat)
    ensures UserSize(ds) <= n <==> forall i :: 0 <= i < |ds| ==> ds[i].off + ds[i].size <= n
  {
    if ds != [] { UserSizeIs(ds[..|ds| - 1], n); }
  }

  lemma {:induction false} AlignmentBounds(e: Env, t: ElfType, shAlign: nat, ds: seq<Data>, i: nat)
    requires shAlign > 0 && Alignment(e, t, shAlign, ds).Ok? && i < |ds|
    ensures shAlign <= ds[i].align <= Alignment(e, t, shAlign, ds).value
  {
    if i < |ds| - 1 {
      AlignmentBounds(e, t, shAlign, ds[..|ds| - 1], i);
    } else {
      DividesBound(shAlign, ds[i].align);
    }
  }

  /** A descriptor of the given type and version with exactly the given alignment. */
  predicate Matches(e: Env, t: ElfType, a: nat, d: Data) {
    d.dtype == t && d.version == e.version && d.align == a
  }

  lemma {:induction false} AlignmentMatches(e: Env, t: ElfType, sa: nat, ds: seq<Data>)
    requires sa > 0 && IsPow2(sa) && forall i :: 0 <= i < |ds| ==> Matches(e, t, sa, ds[i])
    ensures Alignment(e, t, sa, ds) == Ok(if ds == [] then 0 else sa)
  {
    if ds != [] {
      AlignmentMatches(e, t, sa, ds[..|ds| - 1]);
      DividesSelf(sa);
      PowerTest(sa);
    }
  }

  lemma {:induction false} MatchesAligned(e: Env, t: ElfType, sa: nat, ds: seq<Data>, i: nat)
    requires sa > 0 && Alignment(e, t, sa, ds).Ok? && Alignment(e, t, sa, ds).value <= sa && i < |ds|
    ensures Matches(e, t, sa, ds[i]) && IsPow2(sa)
  {
    if i < |ds| - 1 {
      MatchesAligned(e, t, sa, ds[..|ds| - 1], i);
    } else {
      AlignmentBounds(e, t, sa, ds, i);
      CheckedData(e, t, sa, ds[i]);
    }
  }

  /** When the application lays the file out, a section passes if and only if its
      type can be translated, its offset is aligned, its descriptors end inside it,
      and every descriptor has the section's type, the object's version and exactly
      the section's alignment, a power of two; the section then keeps its place. */
  lemma {:induction false} UserLayout(e: Env, s: Section, rc: nat)
    requires e.layout && s.dirty && !Skipped(s)
    ensures Extents(e, s, rc).Ok? <==>
      && XlateShType(s.shType).Some?
      && var t := XlateShType(s.shType).value;
         var sa := ShAlign(e, s, t);
         && Divides(sa, s.shOffset) && (s.data != [] ==> IsPow2(sa))
         && (forall i :: 0 <= i < |s.data| ==> Matches(e, t, sa, s.data[i]))
         && (forall i :: 0 <= i < |s.data| ==> s.data[i].off + s.data[i].size <= s.shSize)
    ensures Extents(e, s, rc).Ok? ==>
      var (s', rc') := Extents(e, s, rc).value;
      s' == s.(sOffset := s.shOffset, sSize := s.shSize) && rc' == Max(rc, End(s'))
  {
    UserSizeIs(s.data, s.shSize);
    if XlateShType(s.shType).Some? {
      var t := XlateShType(s.shType).value;
      var sa := ShAlign(e, s, t);
      if Alignment(e, t, sa, s.data).Ok? && Alignment(e, t, sa, s.data).value <= sa {
        AlignmentPositive(e, t, sa, s.data);
        forall i | 0 <= i < |s.data| ensures Matches(e, t, sa, s.data[i]) && IsPow2(sa) {
          MatchesAligned(e, t, sa, s.data, i);
        }
      } else if s.data != [] && IsPow2(sa) && forall i :: 0 <= i < |s.data| ==> Matches(e, t, sa, s.data[i]) {
        AlignmentMatches(e, t, sa, s.data);
      }
    }
  }

  /** A section that the application has placed and aligned well, but whose descriptor
      has a larger alignment than its header says: it does not pass. */
  lemma {:induction false} StricterDescriptor(rc: nat) returns (s: Section)
    ensures s.dirty && !Skipped(s) && s.data == [Data(TByte, 1, 4, 8, 0, Some(0))] && Divides(4, s.shOffset)
    ensures s.addralign == 1 && s.shSize == 8 && Extents(Env(Class64, 1, true), s, rc) == Err(ErrLayout)
  {
    s := Section(ShtProgbits, 1, 64, 8, 64, 8, true, [Data(TByte, 1, 4, 8, 0, Some(0))]);
    DividesMod(4, 64);
    OneDivides(4);
    assert s.data[..0] == [];
    assert Alignment(Env(Class64, 1, true), TByte, 1, s.data) == Ok(4);
  }

  /** In library layout every descriptor starts at a file position that is a
      multiple of every descriptor's alignment. */
  lemma {:induction false} LibraryAligned(e: Env, s: Section, rc: nat, i: nat, k: nat)
    requires !e.layout && s.dirty && !Skipped(s) && Extents(e, s, rc).Ok?
    requires i < |s.data| && k < |s.data|
    ensures var s' := Extents(e, s, rc).value.0;
            i < |s'.data| && Divides(s.data[k].align, s'.sOffset + s'.data[i].off)
  {
    var t := XlateShType(s.shType).value;
    var sa := ShAlign(e, s, t);
    var a := Alignment(e, t, sa, s.data).value;
    AlignmentPositive(e, t, sa, s.data);
    AlignmentDivides(e, t, sa, s.data, k);
    PlaceApart(s.data, a);
    var s' := LibraryExtents(e, s, sa, a, rc).0;
    PlacedAligned(sa, a, s.data[k].align, s'.sOffset, s'.data[i].off);
  }
}
