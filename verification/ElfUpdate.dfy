/** Laying out a whole object and writing its image. */
module ElfUpdate {
  import opened Wrappers
  import opened ElfTypes
  import opened ElfLayout
  import opened ElfOrder
  import opened ElfNobits
  import opened ElfResync
  import opened ElfImage
  import opened Stailq

  /** The fields of the executable header that matter here. */
  datatype Ehdr = Ehdr(version: nat, cls: Option<ElfClass>, byteorder: nat, phoff: nat, shoff: nat, phnum: nat,
                       shnum: nat)

  const EV_NONE := 0
  const EV_CURRENT := 1
  const PN_XNUM := 0xffff

  /** How the object was opened. */
  datatype Cmd = CmdRead | CmdRdwr | CmdWrite

  /** The command; whether there is an original file, whether the file descriptor is
      still open, and whether the program headers are in memory. */
  datatype Mode = Mode(cmd: Cmd, raw: bool, fd: bool, phdrs: bool)

  class Elf {
    const cls: ElfClass
    const version: nat
    const mode: Mode
    /** The ELF_F_LAYOUT flag. */
    const layout: bool
    const nphdr: nat
    const nscn: nat
    const scns: Queue<Section>
    var byteorder: nat
    var ehdr: Ehdr

    function E(): Env { Env(cls, version, layout) }

    ghost predicate Valid(vs: seq<Section>)
      reads scns, scns.nodes
    {
      scns.Valid() && Holds(scns, vs) && nscn == |vs|
    }

    constructor (cls: ElfClass, mode: Mode, layout: bool, nphdr: nat, nscn: nat, scns: Queue<Section>, byteorder: nat,
                 ehdr: Ehdr)
      ensures this.cls == cls && this.version == EV_CURRENT && this.mode == mode && this.layout == layout
      ensures this.nphdr == nphdr && this.nscn == nscn && this.scns == scns && this.byteorder == byteorder
      ensures this.ehdr == ehdr
    {
      this.cls, this.version, this.mode, this.layout := cls, EV_CURRENT, mode, layout;
      this.nphdr, this.nscn, this.scns, this.byteorder, this.ehdr := nphdr, nscn, scns, byteorder, ehdr;
    }
  }

  // ---- Specification ----------------------------------------------------------

  /** The checks on the executable header, in order. */
  function HeaderError(e: Env, cmd: Cmd, byteorder: nat, eh: Ehdr): Option<Error> {
    if (if eh.version == EV_NONE then EV_CURRENT else eh.version) != e.version then Some(ErrVersion)
    else if eh.cls != Some(e.cls) then Some(ErrClass)
    else if !cmd.CmdWrite? && eh.byteorder != byteorder then Some(ErrHeader)
    else None
  }

  /** Where a header table goes: where the application put it, if that is at or
      after the end rc of what precedes it and aligned, or else at the next
      aligned position. */
  function TableOffset(e: Env, given: nat, rc: nat): Result<nat> {
    if !e.layout then Ok(RoundUp(rc, AddrAlign(e.cls)))
    else if rc > given then Err(ErrHeader)
    else if !Divides(AddrAlign(e.cls), given) then Err(ErrLayout)
    else Ok(given)
  }

  /** The program header table's offset and the end of the headers. */
  function Headers(e: Env, nphdr: nat, given: nat): Result<(nat, nat)> {
    if nphdr == 0 then Ok((0, EhSize(e.cls)))
    else match TableOffset(e, given, EhSize(e.cls))
         case Err(x) => Err(x)
         case Ok(phoff) => Ok((phoff, phoff + PhSize(e.cls) * nphdr))
  }

  /** The section header table's offset and the end of the file. */
  function Trailer(e: Env, nscn: nat, given: nat, rc: nat): Result<(nat, nat)> {
    if nscn == 0 then Ok((0, rc))
    else match TableOffset(e, given, rc)
         case Err(x) => Err(x)
         case Ok(shoff) => Ok((shoff, ShAt(e.cls, shoff, nscn)))
  }

  /** The application's offset of a table is taken if and only if it is at or after what
      precedes it and aligned; the library's is the least such. */
  lemma {:induction false} TableExactly(e: Env, given: nat, rc: nat)
    ensures e.layout ==>
      match TableOffset(e, given, rc)
      case Ok(off) => off == given >= rc && Divides(AddrAlign(e.cls), given)
      case Err(x) => if given < rc then x == ErrHeader else x == ErrLayout && !Divides(AddrAlign(e.cls), given)
    ensures !e.layout ==> TableOffset(e, given, rc).Ok? && Least(AddrAlign(e.cls), rc, TableOffset(e, given, rc).value)
  {
    RoundUpIsLeast(rc, AddrAlign(e.cls));
  }

  method ComputeTableOffset(e: Env, given: nat, rc: nat) returns (r: Result<nat>)
    ensures r == TableOffset(e, given, rc)
  {
    if e.layout {
      if rc > given {
        return Err(ErrHeader);
      }
      var multiple := IsMultiple(given, AddrAlign(e.cls));
      return if multiple then Ok(given) else Err(ErrLayout);
    }
    var off := Roundup(rc, AddrAlign(e.cls));
    return Ok(off);
  }

  method ComputeHeaders(e: Env, nphdr: nat, given: nat) returns (r: Result<(nat, nat)>)
    ensures r == Headers(e, nphdr, given)
  {
    if nphdr == 0 {
      return Ok((0, EhSize(e.cls)));
    }
    var phoff := ComputeTableOffset(e, given, EhSize(e.cls));
    if phoff.Err? {
      return Err(phoff.error);
    }
    return Ok((phoff.value, phoff.value + PhSize(e.cls) * nphdr));
  }

  method ComputeTrailer(e: Env, nscn: nat, given: nat, rc: nat) returns (r: Result<(nat, nat)>)
    ensures r == Trailer(e, nscn, given, rc)
  {
    if nscn == 0 {
      return Ok((0, rc));
    }
    var shoff := ComputeTableOffset(e, given, rc);
    if shoff.Err? {
      return Err(shoff.error);
    }
    ShAtIs(e.cls, shoff.value, nscn);
    return Ok((shoff.value, shoff.value + ShSize(e.cls) * nscn));
  }

  /** The header after a layout. */
  function NewEhdr(e: Env, eh: Ehdr, phoff: nat, shoff: nat, nphdr: nat, nscn: nat): Ehdr {
    Ehdr(if eh.version == EV_NONE then EV_CURRENT else eh.version, Some(e.cls), eh.byteorder,
         if e.layout then eh.phoff else Field(e.cls, phoff),
         if e.layout then eh.shoff else Field(e.cls, shoff),
         nphdr, if nscn >= SHN_LORESERVE then 0 else nscn)
  }

  /** Section 0 holds the section count when it does not fit in the header. */
  function Numbered(e: Env, vs: seq<Section>, nscn: nat): (ws: seq<Section>)
    requires nscn == |vs|
    ensures |ws| == |vs|
  {
    if nscn >= SHN_LORESERVE then vs[0 := vs[0].(shSize := Field(e.cls, nscn), dirty := true)] else vs
  }

  /** A header is refused for its version, else for its class, else, unless the object is
      new, for its byte order. */
  lemma {:induction false} HeaderExactly(e: Env, cmd: Cmd, byteorder: nat, eh: Ehdr)
    ensures var x := HeaderError(e, cmd, byteorder, eh);
            var current := eh.version == e.version != EV_NONE || (eh.version == EV_NONE && e.version == EV_CURRENT);
            && (x == Some(ErrVersion) <==> !current) && (x == Some(ErrClass) <==> current && eh.cls != Some(e.cls))
            && (x == Some(ErrHeader) <==>
                  current && eh.cls == Some(e.cls) && cmd != CmdWrite && eh.byteorder != byteorder)
            && (x.None? || x.value in {ErrVersion, ErrClass, ErrHeader})
  {
  }

  /** The number of sections as a reader of the file finds it. */
  function SectionCount(eh: Ehdr, ws: seq<Section>): nat {
    if eh.shnum == 0 && ws != [] then ws[0].shSize else eh.shnum
  }

  /** However many sections there are, their number can be read back; when section 0 has
      to hold it, that section is marked for writing and the others stay as they are. */
  lemma {:induction false} CountReadBack(e: Env, eh: Ehdr, phoff: nat, shoff: nat, nphdr: nat, vs: seq<Section>)
    requires Field(e.cls, |vs|) == |vs|
    ensures var ws := Numbered(e, vs, |vs|);
            && SectionCount(NewEhdr(e, eh, phoff, shoff, nphdr, |vs|), ws) == |vs|
            && (ws != vs ==> ws[0] == vs[0].(shSize := |vs|, dirty := true) && ws[1..] == vs[1..])
            && (NewEhdr(e, eh, phoff, shoff, nphdr, |vs|).shnum == 0 && vs != [] ==> ws[0].dirty)
  {
  }

  // ---- Layout -----------------------------------------------------------------

  method SetShNum(elf: Elf, phoff: nat, shoff: nat, ghost vs: seq<Section>)
    requires elf.Valid(vs) && elf.nphdr < PN_XNUM
    modifies elf`ehdr, elf.scns.nodes`val
    ensures elf.Valid(Numbered(elf.E(), vs, elf.nscn)) && elf.scns.nodes == old(elf.scns.nodes)
    ensures elf.ehdr == NewEhdr(elf.E(), old(elf.ehdr), phoff, shoff, elf.nphdr, elf.nscn)
  {
    elf.ehdr := NewEhdr(elf.E(), elf.ehdr, phoff, shoff, elf.nphdr, elf.nscn);
    if elf.nscn >= SHN_LORESERVE {
      var s := elf.scns.first;
      s.val := s.val.(shSize := Field(elf.cls, elf.nscn), dirty := true);
    }
  }

  method CheckHeader(elf: Elf) returns (x: Option<Error>)
    ensures x == HeaderError(elf.E(), elf.mode.cmd, elf.byteorder, elf.ehdr)
  {
    var eh := elf.ehdr;
    if (if eh.version == EV_NONE then EV_CURRENT else eh.version) != elf.version {
      return Some(ErrVersion);
    }
    if eh.cls != Some(elf.cls) {
      return Some(ErrClass);
    }
    if !elf.mode.cmd.CmdWrite? && eh.byteorder != elf.byteorder {
      return Some(ErrHeader);
    }
    return None;
  }

  /** What a successful layout of the sections vs in a file with header eh comes
      to: the headers end at rc0, the sections get the extents us and the order ws. */
  ghost predicate LaidOut(e: Env, nphdr: nat, eh: Ehdr, vs: seq<Section>, rc0: nat, us: seq<Section>,
                          ws: seq<Section>) {
    && Headers(e, nphdr, eh.phoff).Ok? && rc0 == Headers(e, nphdr, eh.phoff).value.1
    && ExtentsAll(e, vs, rc0).Ok? && us == ExtentsAll(e, vs, rc0).value.0
    && |ws| == |us| == |vs| && exists visits: nat :: Passed(us, rc0, ws, MaxEnd(us, rc0), visits)
  }

  /** The error in a section's extent, if the headers can be placed. */
  function ExtentsError(e: Env, nphdr: nat, eh: Ehdr, vs: seq<Section>): Option<Error> {
    var head := Headers(e, nphdr, eh.phoff);
    if head.Ok? && ExtentsAll(e, vs, head.value.1).Err? then Some(ExtentsAll(e, vs, head.value.1).error) else None
  }

  /** The layout succeeds and leaves the order as it is. */
  ghost predicate Orderly(e: Env, nphdr: nat, eh: Ehdr, vs: seq<Section>) {
    && Headers(e, nphdr, eh.phoff).Ok?
    && var rc0 := Headers(e, nphdr, eh.phoff).value.1;
       ExtentsAll(e, vs, rc0).Ok? && InOrder(ExtentsAll(e, vs, rc0).value.0, rc0)
  }

  /** The final header and the size of the file, when the sections end at rc. */
  ghost predicate Sized(e: Env, nphdr: nat, nscn: nat, eh: Ehdr, rc: nat, eh': Ehdr, size: nat) {
    && Headers(e, nphdr, eh.phoff).Ok? && Trailer(e, nscn, eh.shoff, rc).Ok?
    && size == Trailer(e, nscn, eh.shoff, rc).value.1
    && eh' == NewEhdr(e, eh, Headers(e, nphdr, eh.phoff).value.0, Trailer(e, nscn, eh.shoff, rc).value.0, nphdr, nscn)
  }

  /** When the application places everything, the header keeps its offsets, the tables are
      aligned behind what precedes them, and the file ends with the section headers. */
  lemma {:induction false} UserSized(e: Env, nphdr: nat, nscn: nat, eh: Ehdr, rc: nat, eh': Ehdr, size: nat)
    requires e.layout && Sized(e, nphdr, nscn, eh, rc, eh', size)
    ensures eh'.phoff == eh.phoff && eh'.shoff == eh.shoff && eh'.phnum == nphdr && eh'.byteorder == eh.byteorder
    ensures eh'.shnum == (if nscn < SHN_LORESERVE then nscn else 0)
    ensures nphdr > 0 ==> EhSize(e.cls) <= eh.phoff && Divides(AddrAlign(e.cls), eh.phoff)
    ensures if nscn == 0 then size == rc
            else rc <= eh.shoff && Divides(AddrAlign(e.cls), eh.shoff) && size == eh.shoff + ShSize(e.cls) * nscn
  {
    TableExactly(e, eh.phoff, EhSize(e.cls));
    TableExactly(e, eh.shoff, rc);
    ShAtIs(e.cls, eh.shoff, nscn);
  }

  method LayOutSections(elf: Elf, ghost vs: seq<Section>, ghost repr: set<Node<Section>>)
    returns (r: Result<(nat, nat)>, ghost rc0: nat, ghost us: seq<Section>, ghost ws: seq<Section>)
    requires elf.Valid(vs)
    requires forall i :: 0 <= i < |elf.scns.nodes| ==> elf.scns.nodes[i] in repr
    modifies elf.scns, repr
    ensures elf.scns.Valid()
    ensures r.Ok? ==> elf.Valid(ws) && LaidOut(elf.E(), elf.nphdr, elf.ehdr, vs, rc0, us, ws)
    ensures r.Ok? ==> r.value.0 == Headers(elf.E(), elf.nphdr, elf.ehdr.phoff).value.0
    ensures r.Ok? ==> forall n :: n in elf.scns.nodes ==> n in repr
    ensures r.Ok? && (forall i :: 0 <= i < |vs| ==> Cached(vs[i])) ==> r.value.1 == MaxEnd(us, rc0)
    ensures Orderly(elf.E(), elf.nphdr, elf.ehdr, vs) ==> r.Ok?
    ensures var x := ExtentsError(elf.E(), elf.nphdr, elf.ehdr, vs); x.Some? ==> r == Err(x.value)
  {
    rc0, us, ws := 0, [], [];
    var head := ComputeHeaders(elf.E(), elf.nphdr, elf.ehdr.phoff);
    if head.Err? {
      return Err(head.error), rc0, us, ws;
    }
    rc0 := head.value.1;
    ghost var ns := elf.scns.nodes;
    var body;
    ghost var visits;
    body, us, ws, visits := ResyncSections(elf.scns, elf.E(), head.value.1, vs, repr);
    if body.Err? {
      return Err(body.error), rc0, us, ws;
    }
    Members(ns, elf.scns.nodes);
    r := Ok((head.value.0, body.value));
  }

  lemma {:induction false} Members<T>(s: seq<T>, t: seq<T>)
    requires multiset(s) == multiset(t)
    ensures |s| == |t| && forall x :: x in t ==> x in s
  {
    assert forall x :: x in t ==> x in multiset(t);
    assert |multiset(s)| == |s| && |multiset(t)| == |t|;
  }

  /** Lay out the headers, the sections and the two tables; the result is the size
      of the file. */
  method ResyncElf(elf: Elf, ghost vs: seq<Section>, ghost repr: set<Node<Section>>)
    returns (r: Result<nat>, ghost rc0: nat, ghost us: seq<Section>, ghost ws: seq<Section>)
    requires elf.Valid(vs) && elf.nphdr < PN_XNUM
    requires forall i :: 0 <= i < |elf.scns.nodes| ==> elf.scns.nodes[i] in repr
    modifies elf, elf.scns, repr
    ensures elf.scns.Valid()
    ensures HeaderError(elf.E(), elf.mode.cmd, old(elf.byteorder), old(elf.ehdr)).Some? ==>
      r == Err(HeaderError(elf.E(), elf.mode.cmd, old(elf.byteorder), old(elf.ehdr)).value)
    ensures r.Ok? ==> LaidOut(elf.E(), elf.nphdr, old(elf.ehdr), vs, rc0, us, ws)
    ensures r.Ok? ==> elf.nscn == |ws| && elf.Valid(Numbered(elf.E(), ws, elf.nscn))
    ensures r.Ok? ==> elf.byteorder == old(elf.ehdr).byteorder
    ensures r.Ok? ==> forall n :: n in elf.scns.nodes ==> n in repr
    ensures r.Ok? && (forall i :: 0 <= i < |vs| ==> Cached(vs[i])) ==>
      Sized(elf.E(), elf.nphdr, elf.nscn, old(elf.ehdr), MaxEnd(us, rc0), elf.ehdr, r.value)
    ensures HeaderError(elf.E(), elf.mode.cmd, old(elf.byteorder), old(elf.ehdr)).None? ==>
      var x := ExtentsError(elf.E(), elf.nphdr, old(elf.ehdr), vs); x.Some? ==> r == Err(x.value)
    ensures !elf.layout && Orderly(elf.E(), elf.nphdr, old(elf.ehdr), vs) ==>
      (r.Ok? <==> HeaderError(elf.E(), elf.mode.cmd, old(elf.byteorder), old(elf.ehdr)).None?)
  {
    rc0, us, ws := 0, [], [];
    var bad := CheckHeader(elf);
    if bad.Some? {
      return Err(bad.value), rc0, us, ws;
    }
    elf.byteorder := elf.ehdr.byteorder;
    var body;
    body, rc0, us, ws := LayOutSections(elf, vs, repr);
    if body.Err? {
      return Err(body.error), rc0, us, ws;
    }
    var tail := ComputeTrailer(elf.E(), elf.nscn, elf.ehdr.shoff, body.value.1);
    if tail.Err? {
      return Err(tail.error), rc0, us, ws;
    }
    SetShNum(elf, body.value.0, tail.value.0, ws);
    r := Ok(tail.value.1);
  }

  // ---- Library layout ---------------------------------------------------------

  lemma {:induction false} AlignmentTyped(e: Env, t: ElfType, shAlign: nat, ds: seq<Data>)
    requires shAlign > 0 && Alignment(e, t, shAlign, ds).Ok?
    ensures Typed(ds, t, e.version)
  {
    if ds != [] { AlignmentTyped(e, t, shAlign, ds[..|ds| - 1]); }
  }

  /** Descriptors that differ only in their offsets. */
  predicate Repositioned(ps: seq<Data>, ds: seq<Data>) {
    |ps| == |ds| && forall i :: 0 <= i < |ds| ==> ps[i] == ds[i].(off := ps[i].off)
  }

  lemma {:induction false} RepositionedErrors(c: ElfClass, ps: seq<Data>, ds: seq<Data>)
    requires Repositioned(ps, ds)
    ensures DatasError(c, ps) == DatasError(c, ds)
  {
    if ds != [] {
      var n := |ds| - 1;
      RepositionedErrors(c, ps[..n], ds[..n]);
      RepositionedError(c, ps[n], ds[n]);
    }
  }

  lemma {:induction false} RepositionedError(c: ElfClass, p: Data, d: Data)
    requires p == d.(off := p.off)
    ensures DataError(c, p) == DataError(c, d)
  {
  }

  /** Placing the descriptors does not change their types. */
  lemma {:induction false} PlaceKeeps(ds: seq<Data>, a: nat, t: ElfType, version: nat)
    requires ds != [] ==> a > 0
    ensures var ps := Place(ds, a).0; |ps| == |ds| && (Typed(ds, t, version) ==> Typed(ps, t, version))
  {
    if ds != [] {
      PlaceKeeps(ds[..|ds| - 1], a, t, version);
      var ps := Place(ds, a).0;
      assert ps[..|ps| - 1] == Place(ds[..|ds| - 1], a).0;
    }
  }

  lemma {:induction false} LibraryKeeps(e: Env, s: Section, rc: nat)
    requires !e.layout && s.dirty && !Skipped(s) && Extents(e, s, rc).Ok?
    ensures var s' := Extents(e, s, rc).value.0;
            && Typed(s'.data, XlateShType(s.shType).value, e.version)
            && DatasError(e.cls, s'.data) == DatasError(e.cls, s.data)
  {
    var t := XlateShType(s.shType).value;
    var sa := ShAlign(e, s, t);
    AlignmentPositive(e, t, sa, s.data);
    AlignmentTyped(e, t, sa, s.data);
    var a := Alignment(e, t, sa, s.data).value;
    PlaceKeeps(s.data, a, t, e.version);
    PlaceApart(s.data, a);
    RepositionedErrors(e.cls, Place(s.data, a).0, s.data);
  }

  /** The hypotheses on a section: all of its data is new, and its alignment is that
      of its type or a multiple of it. */
  predicate Fresh(e: Env, s: Section) {
    !Skipped(s) ==>
      && s.dirty
      && (XlateShType(s.shType).Some? ==>
            s.addralign == 0 || Divides(FAlign(XlateShType(s.shType).value, e.cls), s.addralign))
  }

  lemma {:induction false} FreshSection(e: Env, s: Section, rc: nat)
    requires !e.layout && Fresh(e, s) && !Skipped(s) && Extents(e, s, rc).Ok?
    ensures var (s', rc') := Extents(e, s, rc).value;
            !Skipped(s') && rc <= s'.sOffset && rc' == End(s') && Fits(e.cls, s') && Sound(e, s')
  {
    LibraryLayout(e, s, rc);
    var t := XlateShType(s.shType).value;
    var sa := ShAlign(e, s, t);
    var s' := Extents(e, s, rc).value.0;
    DividesSelf(FAlign(t, e.cls));
    DividesTrans(FAlign(t, e.cls), sa, s'.sOffset);
    LibraryKeeps(e, s, rc);
  }

  lemma {:induction false} AppendInOrder(us: seq<Section>, s: Section, rc0: nat)
    requires InOrder(us, rc0) && (Skipped(s) || MaxEnd(us, rc0) <= s.sOffset)
    ensures InOrder(us + [s], rc0) && MaxEnd(us + [s], rc0) == if Skipped(s) then MaxEnd(us, rc0) else End(s)
  {
    assert (us + [s])[..|us|] == us;
    MaxEndFloor(us, rc0);
  }

  /** In library layout of fresh sections the list is in order as it stands, and
      every section is ready for the writer. */
  lemma {:induction false} FreshInOrder(e: Env, vs: seq<Section>, rc0: nat)
    requires !e.layout && ExtentsAll(e, vs, rc0).Ok? && forall i :: 0 <= i < |vs| ==> Fresh(e, vs[i])
    ensures var (us, rc) := ExtentsAll(e, vs, rc0).value;
            && |us| == |vs| && InOrder(us, rc0) && rc == MaxEnd(us, rc0)
            && forall i :: 0 <= i < |us| ==> Fits(e.cls, us[i]) && Sound(e, us[i])
  {
    if vs != [] {
      var init, s := vs[..|vs| - 1], vs[|vs| - 1];
      FreshInOrder(e, init, rc0);
      var (done, rc1) := ExtentsAll(e, init, rc0).value;
      if !Skipped(s) { FreshSection(e, s, rc1); }
      AppendInOrder(done, Extents(e, s, rc1).value.0, rc0);
    }
  }
}
