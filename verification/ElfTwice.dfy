/** Laying a file out again: an application asks for the size of the file first
    and then writes it, and each time everything is laid out. */
module ElfTwice {
  import opened Wrappers
  import opened ElfTypes
  import opened ElfLayout
  import opened ElfOrder
  import opened ElfResync
  import opened ElfImage
  import opened ElfUpdate
  import opened ElfWrite
  import opened Stailq

  /** All descriptors of a section have the same alignment. */
  predicate Uniform(s: Section) {
    Skipped(s) || forall i, j :: 0 <= i < |s.data| && 0 <= j < |s.data| ==> s.data[i].align == s.data[j].align
  }

  predicate Aligned(ds: seq<Data>, a: nat) { forall i :: 0 <= i < |ds| ==> ds[i].align == a }

  /** The section's alignment after a layout. */
  function NewAlign(e: Env, s: Section): nat
    requires !Skipped(s) && XlateShType(s.shType).Some?
  {
    var t := XlateShType(s.shType).value;
    var sa := ShAlign(e, s, t);
    match Alignment(e, t, sa, s.data)
    case Ok(a) => Max(sa, a)
    case Err(_) => sa
  }

  /** The alignment, which becomes the section header's, fits in its field. */
  predicate AlignFits(e: Env, s: Section) {
    !Skipped(s) && XlateShType(s.shType).Some? ==> Field(e.cls, NewAlign(e, s)) == NewAlign(e, s)
  }

  // ---- One section ------------------------------------------------------------------

  /** The alignment check with the largest alignment itself: a smaller one is not a
      multiple of it. */
  lemma {:induction false} AlignmentTwice(e: Env, t: ElfType, sa: nat, ds: seq<Data>, ps: seq<Data>, a: nat)
    requires sa > 0 && a > 0 && Alignment(e, t, sa, ds).Ok? && Alignment(e, t, sa, ds).value <= a
    requires Repositioned(ps, ds)
    ensures Alignment(e, t, a, ps) == if Aligned(ds, a) then Ok(if ds == [] then 0 else a) else Err(ErrLayout)
  {
    if ds != [] {
      var n := |ds| - 1;
      AlignmentTwice(e, t, sa, ds[..n], ps[..n], a);
      assert Aligned(ds, a) <==> Aligned(ds[..n], a) && ds[n].align == a;
      CheckedTwice(e, t, sa, ds[n], ps[n], a);
    }
  }

  lemma {:induction false} CheckedTwice(e: Env, t: ElfType, sa: nat, d: Data, p: Data, a: nat)
    requires sa > 0 && CheckData(e, t, sa, d).None? && 0 < d.align <= a && p == d.(off := p.off)
    ensures CheckData(e, t, a, p) == if d.align == a then None else Some(ErrLayout)
  {
    DividesSelf(a);
    if Divides(a, d.align) { DividesBound(a, d.align); }
  }

  lemma {:induction false} PlaceTwice(ds: seq<Data>, ps: seq<Data>, a: nat)
    requires Repositioned(ps, ds) && (ds != [] ==> a > 0)
    ensures Place(ps, a) == Place(ds, a)
  {
    if ds != [] { PlaceTwice(ds[..|ds| - 1], ps[..|ps| - 1], a); }
  }

  lemma {:induction false} UniformAligned(e: Env, t: ElfType, sa: nat, ds: seq<Data>)
    requires sa > 0 && Alignment(e, t, sa, ds).Ok? && ds != []
    ensures Aligned(ds, Alignment(e, t, sa, ds).value) <==>
      forall i, j :: 0 <= i < |ds| && 0 <= j < |ds| ==> ds[i].align == ds[j].align
  {
    var k := LargestAt(e, t, sa, ds);
  }

  lemma {:induction false} LargestAt(e: Env, t: ElfType, sa: nat, ds: seq<Data>) returns (k: nat)
    requires sa > 0 && Alignment(e, t, sa, ds).Ok? && ds != []
    ensures k < |ds| && ds[k].align == Alignment(e, t, sa, ds).value
  {
    var n := |ds| - 1;
    if n > 0 && Alignment(e, t, sa, ds[..n]).value >= ds[n].align {
      k := LargestAt(e, t, sa, ds[..n]);
    } else {
      k := n;
    }
  }

  /** With the new alignment in its header the section is placed as before. */
  lemma {:induction false} LibraryTwice(e: Env, s: Section, sa: nat, a: nat, rc: nat)
    requires sa > 0 && (if s.data == [] then a == 0 else 0 < sa <= a) && Field(e.cls, Max(sa, a)) == Max(sa, a)
    ensures var r := LibraryExtents(e, s, sa, a, rc);
            && r.0.addralign == Max(sa, a) && Repositioned(r.0.data, s.data)
            && LibraryExtents(e, r.0, Max(sa, a), a, rc) == r
  {
    PlaceApart(s.data, a);
    PlaceTwice(s.data, LibraryExtents(e, s, sa, a, rc).0.data, a);
  }

  /** Laying a section out again at the same place succeeds if and only if all its
      descriptors have the same alignment; then nothing changes. */
  lemma {:induction false} SectionTwice(e: Env, s: Section, rc: nat)
    requires !e.layout && s.dirty && !Skipped(s) && Extents(e, s, rc).Ok? && AlignFits(e, s)
    ensures var (s', rc') := Extents(e, s, rc).value;
            Extents(e, s', rc) == if Uniform(s) then Ok((s', rc')) else Err(ErrLayout)
  {
    var t := XlateShType(s.shType).value;
    var sa := ShAlign(e, s, t);
    var a := Alignment(e, t, sa, s.data).value;
    AlignmentPositive(e, t, sa, s.data);
    if s.data != [] {
      AlignmentDivides(e, t, sa, s.data, 0);
      DividesBound(sa, a);
      UniformAligned(e, t, sa, s.data);
    }
    LibraryTwice(e, s, sa, a, rc);
    var s' := LibraryExtents(e, s, sa, a, rc).0;
    AlignmentTwice(e, t, sa, s.data, s'.data, Max(sa, a));
    ExtentsAgain(e, s', t, rc);
  }

  lemma {:induction false} ExtentsAgain(e: Env, s: Section, t: ElfType, rc: nat)
    requires !e.layout && s.dirty && !Skipped(s) && XlateShType(s.shType) == Some(t) && s.addralign > 0
    ensures match Alignment(e, t, s.addralign, s.data)
            case Err(x) => Extents(e, s, rc) == Err(x)
            case Ok(a) => (s.data != [] ==> a > 0) && Extents(e, s, rc) == Ok(LibraryExtents(e, s, s.addralign, a, rc))
  {
    if Alignment(e, t, s.addralign, s.data).Ok? { AlignmentPositive(e, t, s.addralign, s.data); }
  }

  // ---- All sections -------------------------------------------------------------------

  /** The hypotheses on a list: what has space in the file is dirty. */
  predicate Laid(e: Env, vs: seq<Section>) {
    forall i :: 0 <= i < |vs| ==> (Skipped(vs[i]) || vs[i].dirty) && AlignFits(e, vs[i])
  }

  predicate AllUniform(vs: seq<Section>) { forall i :: 0 <= i < |vs| ==> Uniform(vs[i]) }

  lemma {:induction false} ExtentsAppend(e: Env, us: seq<Section>, s: Section, rc0: nat)
    ensures ExtentsAll(e, us + [s], rc0) ==
      match ExtentsAll(e, us, rc0)
      case Err(x) => Err(x)
      case Ok((done, rc)) => match Extents(e, s, rc) case Err(x) => Err(x) case Ok((s', rc')) => Ok((done + [s'], rc'))
  {
    assert (us + [s])[..|us|] == us;
  }

  lemma {:induction false} UniformAppend(us: seq<Section>, s: Section)
    ensures AllUniform(us + [s]) <==> AllUniform(us) && Uniform(s)
  {
    assert forall i :: 0 <= i < |us| ==> (us + [s])[i] == us[i];
    assert (us + [s])[|us|] == s;
  }

  lemma {:induction false} ListTwice(e: Env, vs: seq<Section>, rc0: nat)
    requires !e.layout && Laid(e, vs) && ExtentsAll(e, vs, rc0).Ok?
    ensures var (us, rc) := ExtentsAll(e, vs, rc0).value;
            ExtentsAll(e, us, rc0) == if AllUniform(vs) then Ok((us, rc)) else Err(ErrLayout)
  {
    if vs != [] {
      var init, s := vs[..|vs| - 1], vs[|vs| - 1];
      assert vs == init + [s];
      ListTwice(e, init, rc0);
      ExtentsAppend(e, init, s, rc0);
      var (done, rc1) := ExtentsAll(e, init, rc0).value;
      ExtentsAppend(e, done, Extents(e, s, rc1).value.0, rc0);
      UniformAppend(init, s);
      if !Skipped(s) { SectionTwice(e, s, rc1); }
    }
  }

  /** The header that a layout leaves is accepted, and left alone, by the next one. */
  lemma {:induction false} HeaderTwice(e: Env, cmd: Cmd, b: nat, nphdr: nat, nscn: nat, eh: Ehdr, rc: nat,
                                       eh': Ehdr, size: nat)
    requires !e.layout && e.version == EV_CURRENT && HeaderError(e, cmd, b, eh).None?
    requires Sized(e, nphdr, nscn, eh, rc, eh', size)
    ensures HeaderError(e, cmd, eh.byteorder, eh').None? && Sized(e, nphdr, nscn, eh', rc, eh', size)
  {
  }

  lemma {:induction false} FreshLaid(e: Env, vs: seq<Section>, rc0: nat)
    requires !e.layout && ExtentsAll(e, vs, rc0).Ok? && forall i :: 0 <= i < |vs| ==> Fresh(e, vs[i])
    ensures var us := ExtentsAll(e, vs, rc0).value.0;
            |us| == |vs| && InOrder(us, rc0) && forall i :: 0 <= i < |us| ==> Cached(us[i])
  {
    FreshInOrder(e, vs, rc0);
    CachedAfter(e, vs, rc0);
  }

  lemma {:induction false} CachedAfter(e: Env, vs: seq<Section>, rc0: nat)
    requires !e.layout && ExtentsAll(e, vs, rc0).Ok? && forall i :: 0 <= i < |vs| ==> Skipped(vs[i]) || vs[i].dirty
    ensures var us := ExtentsAll(e, vs, rc0).value.0; forall i :: 0 <= i < |us| ==> Cached(us[i])
  {
    if vs != [] { CachedAfter(e, vs[..|vs| - 1], rc0); }
  }

  /** Two layouts in a row.  When the first one succeeds, the second one does if and
      only if the descriptors of each section all have the same alignment; it then
      gives the same size and the same header. */
  method ResyncTwice(elf: Elf, ghost vs: seq<Section>, ghost repr: set<Node<Section>>)
    returns (r1: Result<nat>, r2: Result<nat>, ghost eh: Ehdr)
    requires elf.Valid(vs) && elf.version == EV_CURRENT && elf.nphdr < PN_XNUM && |vs| < SHN_LORESERVE
    requires FreshFile(elf.E(), elf.nphdr, vs) && forall i :: 0 <= i < |vs| ==> AlignFits(elf.E(), vs[i])
    requires forall i :: 0 <= i < |elf.scns.nodes| ==> elf.scns.nodes[i] in repr
    modifies elf, elf.scns, repr
    ensures r1.Err? ==> r2 == r1
    ensures r1.Ok? ==> r2 == if AllUniform(vs) then r1 else Err(ErrLayout)
    ensures r2.Ok? ==> elf.ehdr == eh
  {
    ghost var e, eh0, b := elf.E(), elf.ehdr, elf.byteorder;
    FreshOrderly(e, elf.nphdr, elf.ehdr, vs);
    LibraryHeaders(e, elf.nphdr, elf.ehdr.phoff);
    ghost var rc0, us, ws;
    r1, rc0, us, ws := ResyncElf(elf, vs, repr);
    eh := elf.ehdr;
    if r1.Err? {
      return r1, r1, eh;
    }
    FreshLaid(e, vs, rc0);
    ListTwice(e, vs, rc0);
    HeaderTwice(e, elf.mode.cmd, b, elf.nphdr, elf.nscn, eh0, MaxEnd(us, rc0), eh, r1.value);
    LibraryHeaders(e, elf.nphdr, elf.ehdr.phoff);
    ghost var rc1, us1, ws1;
    r2, rc1, us1, ws1 := ResyncElf(elf, us, repr);
  }

  /** A section of two descriptors with different alignments: it can be laid out once. */
  lemma {:induction false} OnlyOnce(rc: nat) returns (s: Section)
    ensures s.dirty && !Skipped(s) && |s.data| == 2
    ensures var e := Env(Class64, 1, false);
            Extents(e, s, rc).Ok? && Extents(e, Extents(e, s, rc).value.0, rc) == Err(ErrLayout)
  {
    var e := Env(Class64, 1, false);
    var d0, d1 := Data(TByte, 1, 4, 1, 0, Some(0)), Data(TByte, 1, 1, 8, 0, Some(0));
    s := Section(ShtProgbits, 1, 0, 0, 0, 0, true, [d0, d1]);
    OneDivides(4);
    OneDivides(1);
    assert s.data[..1] == [d0] && [d0][..0] == [];
    assert Alignment(e, TByte, 1, [d0]) == Ok(4) by { assert CheckData(e, TByte, 1, d0).None?; }
    assert Alignment(e, TByte, 1, s.data) == Ok(4);
    assert s.data[0].align != s.data[1].align;
    SectionTwice(e, s, rc);
  }
}
