/** elf_update in library layout, as a whole: when it succeeds, and what is then in
    the file. */
module ElfFile {
  import opened Wrappers
  import opened ElfTypes
  import opened ElfLayout
  import opened ElfOrder
  import opened ElfResync
  import opened ElfImage
  import opened ElfUpdate
  import opened ElfWrite
  import opened ElfContents
  import opened Stailq

  /** Why writing fails after a layout by the library: the file descriptor is closed,
      the byte order is none that there is, the program headers are not in memory, a
      section or descriptor is refused, or there are too many sections. */
  function WriteError(e: Env, m: Mode, eh: Ehdr, nphdr: nat, vs: seq<Section>): Option<Error> {
    if !m.fd then Some(ErrSequence)
    else if eh.byteorder > ELFDATA2MSB then Some(ErrArgument)
    else if nphdr > 0 && !m.phdrs then Some(ErrData)
    else if ListError(e.cls, m.raw, vs).Some? then ListError(e.cls, m.raw, vs)
    else if |vs| >= SHN_LORESERVE then Some(ErrAssert)
    else None
  }

  /** Why an update in library layout fails: the object is read-only, the header or a
      section cannot be laid out, or writing fails. */
  function UpdateError(e: Env, m: Mode, write: bool, byteorder: nat, eh: Ehdr, nphdr: nat,
                       vs: seq<Section>): Option<Error> {
    var laid := ExtentsAll(e, vs, HeadEnd(e.cls, nphdr));
    if write && m.cmd.CmdRead? then Some(ErrMode)
    else if HeaderError(e, m.cmd, byteorder, eh).Some? then HeaderError(e, m.cmd, byteorder, eh)
    else if laid.Err? then Some(laid.error)
    else if write then WriteError(e, m, eh, nphdr, vs)
    else None
  }

  /** In library layout the program headers are where the writer looks for them. */
  lemma {:induction false} LibraryContents(e: Env, m: Mode, nphdr: nat, eh: Ehdr, eh': Ehdr, nscn: nat, rc: nat, n: nat,
                                           ws: seq<Section>)
    requires !e.layout && Sized(e, nphdr, nscn, eh, rc, eh', n)
    ensures ContentsError(e, m, eh.byteorder, nphdr, eh', ws) ==
      if eh.byteorder > ELFDATA2MSB then Some(ErrArgument)
      else if nphdr > 0 && !m.phdrs then Some(ErrData)
      else ListError(e.cls, m.raw, ws)
  {
    LibraryHeaders(e, nphdr, eh.phoff);
    DividesMod(AddrAlign(e.cls), EhSize(e.cls));
  }

  // ---- When it succeeds ------------------------------------------------------------------

  /** The section can be laid out. */
  ghost predicate Placeable(e: Env, s: Section) {
    Skipped(s) || (XlateShType(s.shType).Some? &&
                   var t := XlateShType(s.shType).value; Accepted(e, t, ShAlign(e, s, t), s.data))
  }

  /** The section can be written: it has contents to copy, or descriptors with non-empty
      buffers of whole objects that are aligned in memory. */
  ghost predicate Writable(c: ElfClass, raw: bool, s: Section) {
    Skipped(s) || if s.data == [] then raw else
      forall i :: 0 <= i < |s.data| ==>
        && s.data[i].buf.Some? && s.data[i].size > 0 && Divides(MSize(s.data[i].dtype, c), s.data[i].size)
        && Divides(MAlign(s.data[i].dtype, c), s.data[i].buf.value)
  }

  lemma {:induction false} DatasWritable(c: ElfClass, ds: seq<Data>)
    ensures DatasError(c, ds).None? <==>
      forall i :: 0 <= i < |ds| ==>
        && ds[i].buf.Some? && ds[i].size > 0 && Divides(MSize(ds[i].dtype, c), ds[i].size)
        && Divides(MAlign(ds[i].dtype, c), ds[i].buf.value)
  {
    if ds != [] { DatasWritable(c, ds[..|ds| - 1]); }
  }

  /** Otherwise the error is that of the first descriptor that cannot be written: no
      buffer or half an object, else nothing in it or a misaligned buffer. */
  lemma {:induction false} FirstUnwritable(c: ElfClass, ds: seq<Data>) returns (i: nat)
    requires DatasError(c, ds).Some?
    ensures i < |ds| && DatasError(c, ds[..i]).None?
    ensures DatasError(c, ds) == Some(if ds[i].buf.None? || !Divides(MSize(ds[i].dtype, c), ds[i].size) then ErrAssert
                                      else ErrData)
    ensures ds[i].buf.None? || !Divides(MSize(ds[i].dtype, c), ds[i].size) || ds[i].size == 0 ||
            !Divides(MAlign(ds[i].dtype, c), ds[i].buf.value)
  {
    var n := |ds| - 1;
    if DatasError(c, ds[..n]).Some? {
      i := FirstUnwritable(c, ds[..n]);
      assert ds[..n][..i] == ds[..i];
    } else {
      i := n;
    }
  }

  lemma {:induction false} ListWritable(c: ElfClass, raw: bool, vs: seq<Section>)
    ensures ListError(c, raw, vs).None? <==> forall i :: 0 <= i < |vs| ==> Writable(c, raw, vs[i])
  {
    ListErrorIs(c, raw, vs);
    forall i | 0 <= i < |vs| ensures ScnError(c, raw, vs[i]).None? <==> Writable(c, raw, vs[i]) {
      DatasWritable(c, vs[i].data);
    }
  }

  lemma {:induction false} ListPlaceable(e: Env, vs: seq<Section>, rc: nat)
    requires !e.layout && forall i :: 0 <= i < |vs| ==> Skipped(vs[i]) || vs[i].dirty
    ensures ExtentsAll(e, vs, rc).Ok? <==> forall i :: 0 <= i < |vs| ==> Placeable(e, vs[i])
  {
    if vs != [] {
      var n := |vs| - 1;
      ListPlaceable(e, vs[..n], rc);
      if ExtentsAll(e, vs[..n], rc).Ok? && !Skipped(vs[n]) {
        LibraryAccepts(e, vs[n], ExtentsAll(e, vs[..n], rc).value.1);
      }
    }
  }

  /** An update in library layout of dirty sections succeeds if and only if all this is
      so. */
  ghost predicate Succeeds(e: Env, m: Mode, write: bool, byteorder: nat, eh: Ehdr, nphdr: nat, vs: seq<Section>) {
    && e.version == (if eh.version == EV_NONE then EV_CURRENT else eh.version) && eh.cls == Some(e.cls)
    && (m.cmd.CmdWrite? || eh.byteorder == byteorder)
    && (forall i :: 0 <= i < |vs| ==> Placeable(e, vs[i]))
    && (write ==>
          && !m.cmd.CmdRead? && m.fd && (nphdr > 0 ==> m.phdrs)
          && eh.byteorder in {ELFDATANONE, ELFDATA2LSB, ELFDATA2MSB}
          && (forall i :: 0 <= i < |vs| ==> Writable(e.cls, m.raw, vs[i])) && |vs| < SHN_LORESERVE)
  }

  lemma {:induction false} SucceedsExactly(e: Env, m: Mode, write: bool, byteorder: nat, eh: Ehdr, nphdr: nat,
                                           vs: seq<Section>)
    requires !e.layout && forall i :: 0 <= i < |vs| ==> Skipped(vs[i]) || vs[i].dirty
    ensures UpdateError(e, m, write, byteorder, eh, nphdr, vs).None? <==>
            Succeeds(e, m, write, byteorder, eh, nphdr, vs)
  {
    ListPlaceable(e, vs, HeadEnd(e.cls, nphdr));
    ListWritable(e.cls, m.raw, vs);
  }

  // ---- What is in the file ----------------------------------------------------------------

  /** The header of section i says where its bytes are: there is nothing else there but
      filler. */
  ghost predicate Described(us: seq<Section>, i: nat, img: seq<Cell>)
    requires i < |us|
  {
    var s := us[i];
    && s.shOffset == s.sOffset && s.shSize == s.sSize && s.shOffset + s.shSize <= |img|
    && forall x :: s.shOffset <= x < s.shOffset + s.shSize ==>
         img[x].Filler? || (img[x].DataByte? && img[x].scn == i) || (img[x].RawByte? && img[x].scn == i)
  }

  /** Each section is placed behind the end of those before it in the list. */
  lemma {:induction false} PlacedBehind(e: Env, vs: seq<Section>, rc: nat, i: nat)
    requires !e.layout && ExtentsAll(e, vs, rc).Ok? && (forall k :: 0 <= k < |vs| ==> Fresh(e, vs[k])) && i < |vs|
    ensures var us := ExtentsAll(e, vs, rc).value.0;
            && |us| == |vs| && Extents(e, vs[i], MaxEnd(us[..i], rc)).Ok?
            && us[i] == Extents(e, vs[i], MaxEnd(us[..i], rc)).value.0
  {
    var n := |vs| - 1;
    CachedEnd(e, vs[..n], rc);
    var us, ws := ExtentsAll(e, vs, rc).value.0, ExtentsAll(e, vs[..n], rc).value.0;
    assert us[..n] == ws;
    if i < n {
      PlacedBehind(e, vs[..n], rc, i);
      assert us[..i] == ws[..i];
    }
  }

  /** The header fields of dirty sections are those of their extents. */
  lemma {:induction false} ExtentsStored(e: Env, vs: seq<Section>, rc: nat, i: nat)
    requires !e.layout && ExtentsAll(e, vs, rc).Ok? && forall k :: 0 <= k < |vs| ==> Skipped(vs[k]) || vs[k].dirty
    requires i < |vs| && !Skipped(vs[i])
    ensures var us := ExtentsAll(e, vs, rc).value.0;
            && i < |us| && us[i].shType == vs[i].shType && us[i].shOffset == Field(e.cls, us[i].sOffset)
            && us[i].shSize == Field(e.cls, us[i].sSize)
  {
    var n := |vs| - 1;
    ExtentsAllLength(e, vs[..n], rc);
    if i < n {
      ExtentsStored(e, vs[..n], rc, i);
    } else {
      LibraryLayout(e, vs[n], ExtentsAll(e, vs[..n], rc).value.1);
    }
  }

  /** Where section i of a file in order is, there are only its own bytes and filler. */
  lemma {:induction false} OnlyOwn(c: ElfClass, nphdr: nat, us: seq<Section>, shoff: nat, img: seq<Cell>, i: nat,
                                   x: nat)
    requires Contents(c, nphdr, us, shoff, img) && i < |us| && !Skipped(us[i]) && us[i].sOffset <= x < End(us[i])
    requires InOrder(us, HeadEnd(c, nphdr)) && (forall k :: 0 <= k < |us| ==> Fits(c, us[k]))
    requires End(us[i]) <= shoff && x < |img|
    ensures img[x].Filler? || (img[x].DataByte? && img[x].scn == i) || (img[x].RawByte? && img[x].scn == i)
  {
    assert Belongs(c, nphdr, us, shoff, x, img[x]);
    match img[x]
    case DataByte(k, d, m) => assert m < FileSize(c, us[k].data[d]) && x < End(us[k]);
    case _ =>
  }

  lemma {:induction false} SmallField(c: ElfClass, x: nat, n: nat)
    requires x <= n && Field(c, n) == n
    ensures Field(c, x) == x
  {
  }

  lemma {:induction false} AllDescribed(c: ElfClass, nphdr: nat, us: seq<Section>, shoff: nat, img: seq<Cell>, i: nat)
    requires Contents(c, nphdr, us, shoff, img) && i < |us| && !Skipped(us[i])
    requires InOrder(us, HeadEnd(c, nphdr)) && (forall k :: 0 <= k < |us| ==> Fits(c, us[k]))
    requires End(us[i]) <= shoff <= |img| && Field(c, |img|) == |img|
    requires us[i].shOffset == Field(c, us[i].sOffset) && us[i].shSize == Field(c, us[i].sSize)
    ensures Described(us, i, img)
  {
    SmallField(c, us[i].sOffset, |img|);
    SmallField(c, us[i].sSize, |img|);
    forall x | us[i].sOffset <= x < End(us[i])
      ensures img[x].Filler? || (img[x].DataByte? && img[x].scn == i) || (img[x].RawByte? && img[x].scn == i)
    {
      OnlyOwn(c, nphdr, us, shoff, img, i, x);
    }
  }

  lemma {:induction false} SkippedKept(e: Env, vs: seq<Section>, rc: nat, i: nat)
    requires !e.layout && ExtentsAll(e, vs, rc).Ok? && i < |vs| && |ExtentsAll(e, vs, rc).value.0| == |vs|
    ensures ExtentsAll(e, vs, rc).value.0[i].shType == vs[i].shType
  {
    var n := |vs| - 1;
    ExtentsAllLength(e, vs[..n], rc);
    if i < n { SkippedKept(e, vs[..n], rc, i); }
  }

  /** A file in order that is small enough for its header fields is described by them. */
  lemma {:induction false} HeadersDescribe(e: Env, nphdr: nat, vs: seq<Section>, shoff: nat, img: seq<Cell>, i: nat)
    requires !e.layout && (forall k :: 0 <= k < |vs| ==> Fresh(e, vs[k])) && Field(e.cls, |img|) == |img|
    requires ExtentsAll(e, vs, HeadEnd(e.cls, nphdr)).Ok?
    requires var (us, rc) := ExtentsAll(e, vs, HeadEnd(e.cls, nphdr)).value;
             i < |us| && !Skipped(us[i]) && Contents(e.cls, nphdr, us, shoff, img) && rc <= shoff <= |img|
    ensures Described(ExtentsAll(e, vs, HeadEnd(e.cls, nphdr)).value.0, i, img)
  {
    var rc0 := HeadEnd(e.cls, nphdr);
    var (us, rc) := ExtentsAll(e, vs, rc0).value;
    FreshInOrder(e, vs, rc0);
    MaxEndFloor(us, rc0);
    SkippedKept(e, vs, rc0, i);
    ExtentsStored(e, vs, rc0, i);
    AllDescribed(e.cls, nphdr, us, shoff, img, i);
  }

  /** The executable header that an update leaves: the tables follow the header and the
      sections, with their sizes. */
  ghost predicate Headed(c: ElfClass, version: nat, byteorder: nat, nphdr: nat, nscn: nat, rc: nat, eh: Ehdr) {
    && eh.cls == Some(c) && eh.version == version && eh.byteorder == byteorder
    && eh.phnum == nphdr && eh.phoff == (if nphdr == 0 then 0 else EhSize(c))
    && eh.shnum == (if nscn < SHN_LORESERVE then nscn else 0)
    && eh.shoff == (if nscn == 0 then 0 else RoundUp(rc, AddrAlign(c)))
  }

  lemma {:induction false} HeaderStored(e: Env, m: Mode, byteorder: nat, nphdr: nat, nscn: nat, eh: Ehdr, rc: nat,
                                        eh': Ehdr, n: nat)
    requires !e.layout && Sized(e, nphdr, nscn, eh, rc, eh', n) && Field(e.cls, n) == n
    requires HeaderError(e, m.cmd, byteorder, eh).None?
    ensures Headed(e.cls, e.version, eh.byteorder, nphdr, nscn, rc, eh')
  {
    LibraryHeaders(e, nphdr, eh.phoff);
    if nscn > 0 {
      ShAtGrows(e.cls, RoundUp(rc, AddrAlign(e.cls)), nscn);
      SmallField(e.cls, RoundUp(rc, AddrAlign(e.cls)), n);
    }
  }

  lemma {:induction false} Written(e: Env, nphdr: nat, vs: seq<Section>, img: seq<Cell>)
    requires FreshFile(e, nphdr, vs) && ExtentsAll(e, vs, HeadEnd(e.cls, nphdr)).Ok? && |vs| < SHN_LORESERVE
    requires var (us, rc) := ExtentsAll(e, vs, HeadEnd(e.cls, nphdr)).value;
             && |img| == LibrarySize(e.cls, |vs|, rc)
             && IsImage(e.cls, nphdr, us, RoundUp(rc, AddrAlign(e.cls)), |img|, img)
    ensures var (us, rc) := ExtentsAll(e, vs, HeadEnd(e.cls, nphdr)).value;
            && Contents(e.cls, nphdr, us, RoundUp(rc, AddrAlign(e.cls)), img)
            && forall i :: 0 <= i < |us| && !Skipped(us[i]) ==> Described(us, i, img)
  {
    var (us, rc) := ExtentsAll(e, vs, HeadEnd(e.cls, nphdr)).value;
    var shoff := RoundUp(rc, AddrAlign(e.cls));
    ExtentsAllLength(e, vs, HeadEnd(e.cls, nphdr));
    ImageContents(e.cls, nphdr, us, shoff, img);
    ShAtGrows(e.cls, shoff, |vs|);
    forall i | 0 <= i < |us| && !Skipped(us[i]) ensures Described(us, i, img) {
      HeadersDescribe(e, nphdr, vs, shoff, img, i);
    }
  }

  /** The layout of fresh sections: the object is then ready for the writer. */
  method LayOutFresh(elf: Elf, ghost vs: seq<Section>, ghost repr: set<Node<Section>>) returns (r: Result<nat>)
    requires elf.Valid(vs) && elf.nphdr < PN_XNUM && FreshFile(elf.E(), elf.nphdr, vs)
    requires forall i :: 0 <= i < |elf.scns.nodes| ==> elf.scns.nodes[i] in repr
    modifies elf, elf.scns, repr
    ensures var x := UpdateError(elf.E(), elf.mode, false, old(elf.byteorder), old(elf.ehdr), elf.nphdr, vs);
            if r.Ok? then x.None? else x == Some(r.error)
    ensures r.Ok? ==>
      var (us, rc) := ExtentsAll(elf.E(), vs, HeadEnd(elf.cls, elf.nphdr)).value;
      && r.value == LibrarySize(elf.cls, |vs|, rc) && |us| == |vs| && elf.Valid(Numbered(elf.E(), us, |vs|))
      && Headed(elf.cls, elf.version, old(elf.ehdr).byteorder, elf.nphdr, |vs|, rc, elf.ehdr)
      && elf.byteorder == old(elf.ehdr).byteorder
      && var fs := Numbered(elf.E(), us, |vs|);
         && Regular(elf.cls, elf.nphdr, elf.ehdr, fs, RoundUp(rc, AddrAlign(elf.cls)), r.value)
         && (forall i :: 0 <= i < |fs| ==> Sound(elf.E(), fs[i]))
         && ContentsError(elf.E(), elf.mode, elf.byteorder, elf.nphdr, elf.ehdr, fs) ==
            if elf.byteorder > ELFDATA2MSB then Some(ErrArgument)
            else if elf.nphdr > 0 && !elf.mode.phdrs then Some(ErrData)
            else ListError(elf.cls, elf.mode.raw, vs)
  {
    FreshOrderly(elf.E(), elf.nphdr, elf.ehdr, vs);
    LibraryHeaders(elf.E(), elf.nphdr, elf.ehdr.phoff);
    ghost var eh := elf.ehdr;
    ghost var rc0, us, ws;
    r, rc0, us, ws := ResyncElf(elf, vs, repr);
    if r.Err? {
      return;
    }
    FreshReady(elf.E(), elf.mode.raw, elf.nphdr, eh, vs, rc0, us, ws, elf.ehdr, r.value);
    HeaderStored(elf.E(), elf.mode, old(elf.byteorder), elf.nphdr, |vs|, eh, MaxEnd(us, rc0), elf.ehdr, r.value);
    LibraryContents(elf.E(), elf.mode, elf.nphdr, eh, elf.ehdr, |vs|, MaxEnd(us, rc0), r.value,
                    Numbered(elf.E(), us, |vs|));
  }

  /** Writing fails where laying out does, and then for its own reasons. */
  lemma {:induction false} WritesAfterLayout(e: Env, m: Mode, byteorder: nat, eh: Ehdr, nphdr: nat, vs: seq<Section>)
    requires !m.cmd.CmdRead?
    ensures var x := UpdateError(e, m, false, byteorder, eh, nphdr, vs);
            UpdateError(e, m, true, byteorder, eh, nphdr, vs) == if x.Some? then x else WriteError(e, m, eh, nphdr, vs)
  {
  }

  /** Layout and writing. */
  method UpdateImage(elf: Elf, write: bool, ghost vs: seq<Section>, ghost repr: set<Node<Section>>)
    returns (r: Result<nat>, image: seq<Cell>)
    requires elf.Valid(vs) && elf.nphdr < PN_XNUM && FreshFile(elf.E(), elf.nphdr, vs)
    requires forall i :: 0 <= i < |elf.scns.nodes| ==> elf.scns.nodes[i] in repr
    modifies elf, elf.scns, repr
    ensures var x := UpdateError(elf.E(), elf.mode, write, old(elf.byteorder), old(elf.ehdr), elf.nphdr, vs);
            if r.Ok? then x.None? else x == Some(r.error)
    ensures r.Ok? ==>
      var (us, rc) := ExtentsAll(elf.E(), vs, HeadEnd(elf.cls, elf.nphdr)).value;
      && r.value == LibrarySize(elf.cls, |vs|, rc) && |us| == |vs| && elf.Valid(Numbered(elf.E(), us, |vs|))
      && Headed(elf.cls, elf.version, old(elf.ehdr).byteorder, elf.nphdr, |vs|, rc, elf.ehdr)
      && (write ==> IsImage(elf.cls, elf.nphdr, us, RoundUp(rc, AddrAlign(elf.cls)), r.value, image))
  {
    image := [];
    if write && elf.mode.cmd.CmdRead? {
      return Err(ErrMode), image;
    }
    ghost var eh := elf.ehdr;
    r := LayOutFresh(elf, vs, repr);
    if r.Err? || !write {
      return;
    }
    WritesAfterLayout(elf.E(), elf.mode, old(elf.byteorder), eh, elf.nphdr, vs);
    if !elf.mode.fd {
      return Err(ErrSequence), image;
    }
    ghost var laid := ExtentsAll(elf.E(), vs, HeadEnd(elf.cls, elf.nphdr)).value;
    r, image := WriteRegular(elf, r.value, Numbered(elf.E(), laid.0, |vs|), RoundUp(laid.1, AddrAlign(elf.cls)));
  }

  /** elf_update in library layout, for the size only or writing the file.  It succeeds
      exactly when the header is acceptable, every section can be laid out and, if
      the file is written, it is open for writing, its byte order and program headers
      can be translated, every descriptor is acceptable, and the section count fits in
      the header.  Then the headers say where everything is, the image holds all of it,
      and every other byte is filler. */
  method Update(elf: Elf, write: bool, ghost vs: seq<Section>, ghost repr: set<Node<Section>>)
    returns (r: Result<nat>, image: seq<Cell>)
    requires elf.Valid(vs) && elf.nphdr < PN_XNUM && FreshFile(elf.E(), elf.nphdr, vs)
    requires forall i :: 0 <= i < |elf.scns.nodes| ==> elf.scns.nodes[i] in repr
    modifies elf, elf.scns, repr
    ensures r.Ok? <==> Succeeds(elf.E(), elf.mode, write, old(elf.byteorder), old(elf.ehdr), elf.nphdr, vs)
    ensures var x := UpdateError(elf.E(), elf.mode, write, old(elf.byteorder), old(elf.ehdr), elf.nphdr, vs);
            if r.Ok? then x.None? else x == Some(r.error)
    ensures r.Ok? ==>
      var (us, rc) := ExtentsAll(elf.E(), vs, HeadEnd(elf.cls, elf.nphdr)).value;
      && r.value == LibrarySize(elf.cls, |vs|, rc) && |us| == |vs| && elf.Valid(Numbered(elf.E(), us, |vs|))
      && Headed(elf.cls, elf.version, old(elf.ehdr).byteorder, elf.nphdr, |vs|, rc, elf.ehdr)
      && (write ==>
            && |image| == r.value && Contents(elf.cls, elf.nphdr, us, RoundUp(rc, AddrAlign(elf.cls)), image)
            && forall i :: 0 <= i < |us| && !Skipped(us[i]) ==> Described(us, i, image))
  {
    ghost var e, rc0 := elf.E(), HeadEnd(elf.cls, elf.nphdr);
    SucceedsExactly(e, elf.mode, write, elf.byteorder, elf.ehdr, elf.nphdr, vs);
    r, image := UpdateImage(elf, write, vs, repr);
    if r.Ok? && write { Written(e, elf.nphdr, vs, image); }
  }

  /** A file opened for update whose program headers nobody has fetched: its size can
      be computed, but it cannot be written. */
  lemma {:induction false} UnfetchedPhdrs(e: Env, eh: Ehdr, byteorder: nat)
    requires eh == Ehdr(EV_CURRENT, Some(e.cls), byteorder, EhSize(e.cls), 0, 1, 0) && byteorder <= ELFDATA2MSB
    requires !e.layout && e.version == EV_CURRENT
    ensures var m := Mode(CmdRdwr, true, true, false);
            && UpdateError(e, m, false, byteorder, eh, 1, []).None?
            && UpdateError(e, m, true, byteorder, eh, 1, []) == Some(ErrData)
            && UpdateError(e, m.(phdrs := true), true, byteorder, eh, 1, []).None?
  {
  }
}
