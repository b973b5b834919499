/** Writing the image of a laid-out object, and what the image is. */
module ElfWrite {
  import opened Wrappers
  import opened ElfTypes
  import opened ElfLayout
  import opened ElfOrder
  import opened ElfResync
  import opened ElfImage
  import opened ElfUpdate
  import opened Stailq

  const ELFDATANONE := 0
  const ELFDATA2LSB := 1
  const ELFDATA2MSB := 2

  // ---- Specification ----------------------------------------------------------

  predicate HasPhdrs(nphdr: nat, eh: Ehdr) { nphdr != 0 && eh.phoff != 0 }

  predicate HasShdrs(eh: Ehdr) { eh.shnum != 0 && eh.shoff != 0 }

  /** Everything the writer writes is inside a buffer of n bytes. */
  ghost predicate Room(c: ElfClass, nphdr: nat, eh: Ehdr, ws: seq<Section>, n: nat) {
    && EhSize(c) <= n
    && (HasPhdrs(nphdr, eh) ==> EhSize(c) <= eh.phoff && eh.phoff + PhSize(c) * nphdr <= n)
    && Fit(ListPieces(c, ws), n)
    && (HasShdrs(eh) ==> ws != [] && Fit(ShPieces(c, eh.shoff, |ws|), n))
  }

  /** The program headers are written at the position reached, after filling up to
      their offset; the position goes to the end of the table at its offset. */
  function PutPhdrs(o: Out, c: ElfClass, nphdr: nat, phoff: nat): (r: Out)
    requires o.rc <= phoff && phoff + PhSize(c) * nphdr <= |o.img|
    ensures |r.img| == |o.img| && r.rc <= |r.img|
  {
    var filled := Over(o.img, o.rc, Fillers(phoff - o.rc));
    Out(Over(filled, o.rc, PhCells(c, nphdr)), phoff + PhSize(c) * nphdr)
  }

  /** Image and position after the headers. */
  function HeadOut(c: ElfClass, nphdr: nat, eh: Ehdr, n: nat): (r: Out)
    requires EhSize(c) <= n
    requires HasPhdrs(nphdr, eh) ==> EhSize(c) <= eh.phoff && eh.phoff + PhSize(c) * nphdr <= n
    ensures |r.img| == n && r.rc <= n
  {
    var o := Put(Out(Blanks(n), 0), EhPiece(c));
    if HasPhdrs(nphdr, eh) then PutPhdrs(o, c, nphdr, eh.phoff) else o
  }

  function BodyOut(c: ElfClass, nphdr: nat, eh: Ehdr, ws: seq<Section>, n: nat): (r: Out)
    requires Room(c, nphdr, eh, ws, n)
    ensures |r.img| == n && r.rc <= n
  {
    PutAll(HeadOut(c, nphdr, eh, n), ListPieces(c, ws))
  }

  function FileOut(c: ElfClass, nphdr: nat, eh: Ehdr, ws: seq<Section>, n: nat): (r: Out)
    requires Room(c, nphdr, eh, ws, n)
    ensures |r.img| == n && r.rc <= n
  {
    var o := BodyOut(c, nphdr, eh, ws, n);
    if HasShdrs(eh) then PutAll(o, ShPieces(c, eh.shoff, |ws|)) else o
  }

  // ---- The writer -------------------------------------------------------------

  /** What stops the writer at the headers: a byte order that the translation does not
      know, an offset of the program headers that is not aligned, or program headers
      that are not in memory. */
  function HeadError(c: ElfClass, byteorder: nat, phdrs: bool, nphdr: nat, eh: Ehdr): Option<Error> {
    if byteorder > ELFDATA2MSB then Some(ErrArgument)
    else if HasPhdrs(nphdr, eh) && !Divides(AddrAlign(c), eh.phoff) then Some(ErrAssert)
    else if HasPhdrs(nphdr, eh) && !phdrs then Some(ErrData)
    else None
  }

  method WriteHead(nf: array<Cell>, c: ElfClass, byteorder: nat, phdrs: bool, nphdr: nat, eh: Ehdr)
    returns (r: Result<nat>)
    requires nf[..] == Blanks(nf.Length) && EhSize(c) <= nf.Length
    requires HasPhdrs(nphdr, eh) ==> EhSize(c) <= eh.phoff && eh.phoff + PhSize(c) * nphdr <= nf.Length
    modifies nf
    ensures var x := HeadError(c, byteorder, phdrs, nphdr, eh); if r.Ok? then x.None? else x == Some(r.error)
    ensures r.Ok? ==> Out(nf[..], r.value) == HeadOut(c, nphdr, eh, nf.Length)
  {
    if byteorder != ELFDATANONE && byteorder != ELFDATA2LSB && byteorder != ELFDATA2MSB {
      return Err(ErrArgument);
    }
    Memcpy(nf, 0, EhPiece(c).cells);
    var rc := EhSize(c);
    if nphdr != 0 && eh.phoff != 0 {
      var aligned := IsMultiple(eh.phoff, AddrAlign(c));
      if !aligned {
        return Err(ErrAssert);
      }
      if rc < eh.phoff {
        Memset(nf, rc, eh.phoff);
      }
      if !phdrs {
        return Err(ErrData);
      }
      Memcpy(nf, rc, PhCells(c, nphdr));
      rc := eh.phoff + PhSize(c) * nphdr;
    }
    r := Ok(rc);
  }

  /** The position as the unsigned 32-bit number that is compared with an offset. */
  function Unsigned(rc: nat): nat { rc % 0x1_0000_0000 }

  /** It is the position itself for files below four gigabytes, and then starts anew. */
  lemma {:induction false} UnsignedExactly(rc: nat, k: nat)
    requires rc < 0x1_0000_0000
    ensures Unsigned(rc + k * 0x1_0000_0000) == rc
  {
    ModUnique(rc + k * 0x1_0000_0000, 0x1_0000_0000, k, rc);
  }

  /** The first error at the headers, then at the sections. */
  function ContentsError(e: Env, m: Mode, byteorder: nat, nphdr: nat, eh: Ehdr, ws: seq<Section>): Option<Error> {
    var x := HeadError(e.cls, byteorder, m.phdrs, nphdr, eh);
    if x.Some? then x else ListError(e.cls, m.raw, ws)
  }

  /** The section header table goes behind the contents, at an aligned offset. */
  method WriteTable(nf: array<Cell>, c: ElfClass, eh: Ehdr, q: Queue<Section>, rc: nat) returns (r: Result<nat>)
    requires q.Valid() && rc <= nf.Length
    requires HasShdrs(eh) ==> q.nodes != [] && Fit(ShPieces(c, eh.shoff, |q.nodes|), nf.Length)
    modifies nf
    ensures r.Ok? <==> (HasShdrs(eh) ==> Unsigned(rc) <= eh.shoff && Divides(AddrAlign(c), eh.shoff))
    ensures r.Err? ==> r.error == ErrAssert
    ensures r.Ok? ==>
      Out(nf[..], r.value) == var o := Out(old(nf[..]), rc);
                              if HasShdrs(eh) then PutAll(o, ShPieces(c, eh.shoff, |q.nodes|)) else o
  {
    r := Ok(rc);
    if eh.shnum != 0 && eh.shoff != 0 {
      if rc % 0x1_0000_0000 > eh.shoff {
        return Err(ErrAssert);
      }
      var aligned := IsMultiple(eh.shoff, AddrAlign(c));
      if !aligned {
        return Err(ErrAssert);
      }
      var rc' := WriteShdrs(nf, c, q, eh.shoff, rc);
      r := Ok(rc');
    }
  }

  method WriteElf(elf: Elf, newsize: nat, ghost ws: seq<Section>) returns (r: Result<nat>, nf: array<Cell>)
    requires elf.Valid(ws) && !elf.mode.cmd.CmdRead? && elf.mode.fd
    requires Room(elf.cls, elf.nphdr, elf.ehdr, ws, newsize) && forall i :: 0 <= i < |ws| ==> Sound(elf.E(), ws[i])
    ensures nf.Length == newsize
    ensures r.Ok? <==>
      && ContentsError(elf.E(), elf.mode, elf.byteorder, elf.nphdr, elf.ehdr, ws).None?
      && (HasShdrs(elf.ehdr) ==> Unsigned(BodyOut(elf.cls, elf.nphdr, elf.ehdr, ws, newsize).rc) <= elf.ehdr.shoff)
      && (HasShdrs(elf.ehdr) ==> Divides(AddrAlign(elf.cls), elf.ehdr.shoff))
      && FileOut(elf.cls, elf.nphdr, elf.ehdr, ws, newsize).rc == newsize
    ensures r.Err? ==>
      r.error == var x := ContentsError(elf.E(), elf.mode, elf.byteorder, elf.nphdr, elf.ehdr, ws);
                 if x.Some? then x.value else ErrAssert
    ensures r.Ok? ==> r.value == newsize && nf[..] == FileOut(elf.cls, elf.nphdr, elf.ehdr, ws, newsize).img
  {
    nf := new Cell[newsize](_ => Blank);
    r := WriteHead(nf, elf.cls, elf.byteorder, elf.mode.phdrs, elf.nphdr, elf.ehdr);
    if r.Err? {
      return;
    }
    r := WriteScns(nf, elf.E(), elf.mode.raw, elf.scns, r.value, ws);
    if r.Err? {
      return;
    }
    r := WriteTable(nf, elf.cls, elf.ehdr, elf.scns, r.value);
    if r.Ok? && r.value != newsize {
      r := Err(ErrAssert);
    }
  }

  // ---- Where the program headers land -----------------------------------------

  /** The program headers are at their offset in the image exactly when the offset
      is the end of the ELF header. */
  lemma {:induction false} PhdrsAtOffset(c: ElfClass, nphdr: nat, eh: Ehdr, n: nat)
    requires EhSize(c) <= n && HasPhdrs(nphdr, eh) && EhSize(c) <= eh.phoff && eh.phoff + PhSize(c) * nphdr <= n
    ensures var img := HeadOut(c, nphdr, eh, n).img;
            && |PhCells(c, nphdr)| > 0
            && (forall k :: 0 <= k < |PhCells(c, nphdr)| ==> img[EhSize(c) + k] == PhByte(k))
            && ((forall k :: 0 <= k < |PhCells(c, nphdr)| ==> img[eh.phoff + k] == PhByte(k)) <==>
                eh.phoff == EhSize(c))
  {
    var img := HeadOut(c, nphdr, eh, n).img;
    assert |PhCells(c, nphdr)| == PhSize(c) * nphdr >= PhSize(c);
    if eh.phoff != EhSize(c) {
      assert img[eh.phoff] != PhByte(0);
    }
  }

  // ---- The image in library layout --------------------------------------------

  function HeadPieces(c: ElfClass, nphdr: nat): seq<Piece> {
    if nphdr == 0 then [EhPiece(c)] else [EhPiece(c), Piece(EhSize(c), PhCells(c, nphdr))]
  }

  /** The end of the header tables. */
  function HeadEnd(c: ElfClass, nphdr: nat): nat { EhSize(c) + PhSize(c) * nphdr }

  /** All pieces of the file; without section headers if there are too many. */
  function FilePieces(c: ElfClass, nphdr: nat, ws: seq<Section>, shoff: nat): seq<Piece> {
    HeadPieces(c, nphdr) + ListPieces(c, ws) + (if |ws| >= SHN_LORESERVE then [] else ShPieces(c, shoff, |ws|))
  }

  lemma {:induction false} HeadIsPieces(c: ElfClass, nphdr: nat, eh: Ehdr, n: nat)
    requires HeadEnd(c, nphdr) <= n && (nphdr > 0 ==> eh.phoff == EhSize(c))
    ensures Within(HeadPieces(c, nphdr), 0, HeadEnd(c, nphdr)) && Fit(HeadPieces(c, nphdr), n)
    ensures HeadOut(c, nphdr, eh, n) == PutAll(Out(Blanks(n), 0), HeadPieces(c, nphdr))
  {
    var ps := HeadPieces(c, nphdr);
    var o := Out(Blanks(n), 0);
    assert PutAll(o, []) == o;
    assert ps[..1] == [EhPiece(c)] && ps[..1][..0] == [];
    assert PutAll(o, ps[..1]) == Put(o, EhPiece(c));
    if nphdr > 0 {
      assert ps[..|ps| - 1] == ps[..1];
      var o1 := Put(o, EhPiece(c));
      assert Over(o1.img, o1.rc, Fillers(0)) == o1.img;
    } else {
      assert ps == ps[..1];
    }
  }

  /** A file whose sections are in order behind the headers, with the section
      header table behind them. */
  ghost predicate Regular(c: ElfClass, nphdr: nat, eh: Ehdr, ws: seq<Section>, shoff: nat, n: nat) {
    && (nphdr > 0 ==> eh.phoff == EhSize(c))
    && InOrder(ws, HeadEnd(c, nphdr)) && (forall i :: 0 <= i < |ws| ==> Fits(c, ws[i]))
    && eh.shnum == (if |ws| >= SHN_LORESERVE then 0 else |ws|)
    && (if ws == [] then n == HeadEnd(c, nphdr)
        else eh.shoff == shoff && Divides(AddrAlign(c), shoff) && MaxEnd(ws, HeadEnd(c, nphdr)) <= shoff
             && n == ShAt(c, shoff, |ws|))
  }

  lemma {:induction false} ShAtGrows(c: ElfClass, shoff: nat, i: nat)
    ensures ShAt(c, shoff, i) >= shoff + i
  {
    if i > 0 { ShAtGrows(c, shoff, i - 1); }
  }

  /** The pieces of a regular file are in order and inside it. */
  lemma {:induction false} RegularPieces(c: ElfClass, nphdr: nat, eh: Ehdr, ws: seq<Section>, shoff: nat, n: nat)
    requires Regular(c, nphdr, eh, ws, shoff, n)
    ensures Room(c, nphdr, eh, ws, n) && Within(FilePieces(c, nphdr, ws, shoff), 0, n)
    ensures HasShdrs(eh) <==> 0 < |ws| < SHN_LORESERVE
  {
    var rc0 := HeadEnd(c, nphdr);
    var m := MaxEnd(ws, rc0);
    ListPiecesWithin(c, ws, rc0);
    MaxEndFloor(ws, rc0);
    ShAtGrows(c, shoff, |ws|);
    HeadIsPieces(c, nphdr, eh, rc0);
    WithinConcat(HeadPieces(c, nphdr), ListPieces(c, ws), 0, rc0, m);
    if ws == [] {
      assert FilePieces(c, nphdr, ws, shoff) == HeadPieces(c, nphdr) + ListPieces(c, ws);
    } else {
      TailWithin(HeadPieces(c, nphdr) + ListPieces(c, ws), c, shoff, |ws|, m);
    }
  }

  lemma {:induction false} TailWithin(ps: seq<Piece>, c: ElfClass, shoff: nat, n: nat, m: nat)
    requires Within(ps, 0, m) && m <= shoff
    ensures Within(ps + (if n >= SHN_LORESERVE then [] else ShPieces(c, shoff, n)), 0, ShAt(c, shoff, n))
    ensures Within(ShPieces(c, shoff, n), shoff, ShAt(c, shoff, n))
  {
    ShPiecesWithin(c, shoff, n);
    ShAtGrows(c, shoff, n);
    WithinConcat(ps, if n >= SHN_LORESERVE then [] else ShPieces(c, shoff, n), 0, shoff, ShAt(c, shoff, n));
  }

  lemma {:induction false} FileIsPieces(c: ElfClass, nphdr: nat, eh: Ehdr, ws: seq<Section>, shoff: nat, n: nat)
    requires Regular(c, nphdr, eh, ws, shoff, n)
    requires Room(c, nphdr, eh, ws, n) && Within(FilePieces(c, nphdr, ws, shoff), 0, n)
    requires HasShdrs(eh) <==> 0 < |ws| < SHN_LORESERVE
    ensures Fit(FilePieces(c, nphdr, ws, shoff), n)
    ensures FileOut(c, nphdr, eh, ws, n) == PutAll(Out(Blanks(n), 0), FilePieces(c, nphdr, ws, shoff))
  {
    var o := Out(Blanks(n), 0);
    var hs, ls := HeadPieces(c, nphdr), ListPieces(c, ws);
    MaxEndFloor(ws, HeadEnd(c, nphdr));
    ShAtGrows(c, shoff, |ws|);
    HeadIsPieces(c, nphdr, eh, n);
    PutAllConcat(o, hs, ls);
    if HasShdrs(eh) {
      PutAllConcat(o, hs + ls, ShPieces(c, shoff, |ws|));
    } else {
      assert FilePieces(c, nphdr, ws, shoff) == hs + ls;
    }
  }

  /** The position after the sections is not past the last of them. */
  lemma {:induction false} BodyEnd(c: ElfClass, nphdr: nat, eh: Ehdr, ws: seq<Section>, n: nat)
    requires Room(c, nphdr, eh, ws, n) && HeadEnd(c, nphdr) <= n && (nphdr > 0 ==> eh.phoff == EhSize(c))
    requires InOrder(ws, HeadEnd(c, nphdr)) && (forall i :: 0 <= i < |ws| ==> Fits(c, ws[i]))
    requires MaxEnd(ws, HeadEnd(c, nphdr)) <= n
    ensures BodyOut(c, nphdr, eh, ws, n).rc <= MaxEnd(ws, HeadEnd(c, nphdr))
    ensures ws == [] ==> BodyOut(c, nphdr, eh, ws, n).rc == HeadEnd(c, nphdr)
  {
    var rc0 := HeadEnd(c, nphdr);
    var hs, ls := HeadPieces(c, nphdr), ListPieces(c, ws);
    HeadIsPieces(c, nphdr, eh, n);
    ListPiecesWithin(c, ws, rc0);
    MaxEndFloor(ws, rc0);
    WithinConcat(hs, ls, 0, rc0, MaxEnd(ws, rc0));
    PutAllConcat(Out(Blanks(n), 0), hs, ls);
    PutAllComplete(n, hs + ls);
    assert Last((hs + ls)[|hs + ls| - 1]) <= MaxEnd(ws, rc0);
  }

  /** The image of a regular file: every byte up to the final position is the byte
      of the one piece that covers it or filler, and the final position is the
      size of the file exactly when the section count fits in the header. */
  lemma {:induction false} RegularImage(c: ElfClass, nphdr: nat, eh: Ehdr, ws: seq<Section>, shoff: nat, n: nat)
    requires Regular(c, nphdr, eh, ws, shoff, n)
    ensures Room(c, nphdr, eh, ws, n) && Within(FilePieces(c, nphdr, ws, shoff), 0, n)
    ensures Complete(FileOut(c, nphdr, eh, ws, n), FilePieces(c, nphdr, ws, shoff))
    ensures FileOut(c, nphdr, eh, ws, n).rc == n <==> |ws| < SHN_LORESERVE
    ensures HasShdrs(eh) ==> BodyOut(c, nphdr, eh, ws, n).rc <= eh.shoff
  {
    RegularPieces(c, nphdr, eh, ws, shoff, n);
    FileIsPieces(c, nphdr, eh, ws, shoff, n);
    var ps := FilePieces(c, nphdr, ws, shoff);
    PutAllComplete(n, ps);
    MaxEndFloor(ws, HeadEnd(c, nphdr));
    ShAtGrows(c, shoff, |ws|);
    BodyEnd(c, nphdr, eh, ws, n);
    if HasShdrs(eh) {
      assert ps[|ps| - 1] == ShPieces(c, shoff, |ws|)[|ws| - 1] == ShPiece(c, shoff, |ws| - 1);
    }
  }

  // ---- Layout and image together ----------------------------------------------

  lemma {:induction false} LibraryHeaders(e: Env, nphdr: nat, given: nat)
    requires !e.layout
    ensures Headers(e, nphdr, given) == Ok((if nphdr == 0 then 0 else EhSize(e.cls), HeadEnd(e.cls, nphdr)))
  {
    var c := e.cls;
    DividesMod(AddrAlign(c), EhSize(c));
    RoundUpLeast(EhSize(c), AddrAlign(c), EhSize(c));
  }

  /** Rewriting section 0 when it has no space in the file changes nothing for the
      image. */
  lemma {:induction false} NumberedRegular(e: Env, us: seq<Section>, nscn: nat, rc0: nat)
    requires nscn == |us| && (nscn >= SHN_LORESERVE ==> us[0].shType.ShtNull?)
    requires InOrder(us, rc0) && forall i :: 0 <= i < |us| ==> Fits(e.cls, us[i]) && Sound(e, us[i])
    ensures var ws := Numbered(e, us, nscn);
            && InOrder(ws, rc0) && MaxEnd(ws, rc0) <= MaxEnd(us, rc0)
            && forall i :: 0 <= i < |ws| ==> Fits(e.cls, ws[i]) && Sound(e, ws[i])
  {
    var ws := Numbered(e, us, nscn);
    MaxEndFloor(us, rc0);
    assert forall i :: 0 <= i < |ws| ==> Skipped(ws[i]) == Skipped(us[i]) && (!Skipped(us[i]) ==> ws[i] == us[i]);
    MaxEndIs(ws, rc0, MaxEnd(us, rc0));
  }

  /** The size of a file in library layout whose sections end at rc. */
  function LibrarySize(c: ElfClass, nscn: nat, rc: nat): nat {
    if nscn == 0 then rc else ShAt(c, RoundUp(rc, AddrAlign(c)), nscn)
  }

  /** Library layout of fresh sections gives a regular file. */
  lemma {:induction false} FreshRegular(e: Env, nphdr: nat, eh: Ehdr, us: seq<Section>, nscn: nat, eh': Ehdr, size: nat)
    requires !e.layout && nscn == |us| && (nscn >= SHN_LORESERVE ==> us[0].shType.ShtNull?)
    requires InOrder(us, HeadEnd(e.cls, nphdr)) && forall i :: 0 <= i < |us| ==> Fits(e.cls, us[i]) && Sound(e, us[i])
    requires Sized(e, nphdr, nscn, eh, MaxEnd(us, HeadEnd(e.cls, nphdr)), eh', size) && Field(e.cls, size) == size
    ensures var rc := MaxEnd(us, HeadEnd(e.cls, nphdr)); size == LibrarySize(e.cls, nscn, rc)
    ensures var rc := MaxEnd(us, HeadEnd(e.cls, nphdr));
            Regular(e.cls, nphdr, eh', Numbered(e, us, nscn), RoundUp(rc, AddrAlign(e.cls)), size)
  {
    var c, rc0 := e.cls, HeadEnd(e.cls, nphdr);
    var rc := MaxEnd(us, rc0);
    var shoff := RoundUp(rc, AddrAlign(c));
    LibraryHeaders(e, nphdr, eh.phoff);
    NumberedRegular(e, us, nscn, rc0);
    MaxEndFloor(us, rc0);
    ShAtGrows(c, shoff, nscn);
  }

  lemma {:induction false} ErrorKept(e: Env, raw: bool, vs: seq<Section>, rc0: nat, i: nat)
    requires !e.layout && ExtentsAll(e, vs, rc0).Ok? && |ExtentsAll(e, vs, rc0).value.0| == |vs| && i < |vs|
    requires forall k :: 0 <= k < |vs| ==> Fresh(e, vs[k])
    ensures ScnError(e.cls, raw, ExtentsAll(e, vs, rc0).value.0[i]) == ScnError(e.cls, raw, vs[i])
    ensures ExtentsAll(e, vs, rc0).value.0[i].shType == vs[i].shType
  {
    var init, s := vs[..|vs| - 1], vs[|vs| - 1];
    ExtentsAllLength(e, init, rc0);
    if i < |vs| - 1 {
      ErrorKept(e, raw, init, rc0, i);
    } else if !Skipped(s) {
      LibraryLayout(e, s, ExtentsAll(e, init, rc0).value.1);
      LibraryKeeps(e, s, ExtentsAll(e, init, rc0).value.1);
    }
  }

  /** What the caller of an update in library layout provides: only fresh
      sections, section 0 unused if it must hold the section count, and a file
      small enough for the offset fields of its class. */
  ghost predicate FreshFile(e: Env, nphdr: nat, vs: seq<Section>) {
    && !e.layout && (forall i :: 0 <= i < |vs| ==> Fresh(e, vs[i]))
    && (|vs| >= SHN_LORESERVE ==> vs[0].shType.ShtNull?)
    && var laid := ExtentsAll(e, vs, HeadEnd(e.cls, nphdr));
       laid.Ok? ==> var size := LibrarySize(e.cls, |vs|, laid.value.1); Field(e.cls, size) == size
  }

  lemma {:induction false} FreshOrderly(e: Env, nphdr: nat, eh: Ehdr, vs: seq<Section>)
    requires FreshFile(e, nphdr, vs)
    ensures Orderly(e, nphdr, eh, vs) <==> ExtentsAll(e, vs, HeadEnd(e.cls, nphdr)).Ok?
    ensures forall i :: 0 <= i < |vs| ==> Cached(vs[i])
  {
    LibraryHeaders(e, nphdr, eh.phoff);
    if ExtentsAll(e, vs, HeadEnd(e.cls, nphdr)).Ok? { FreshInOrder(e, vs, HeadEnd(e.cls, nphdr)); }
  }

  /** The layout of a fresh file is ready for the writer, whose success depends
      only on there being contents and on the section count. */
  lemma {:induction false} FreshReady(e: Env, raw: bool, nphdr: nat, eh: Ehdr, vs: seq<Section>, rc0: nat,
                                      us: seq<Section>,
                   ws: seq<Section>, eh': Ehdr, n: nat)
    requires FreshFile(e, nphdr, vs) && LaidOut(e, nphdr, eh, vs, rc0, us, ws)
    requires Sized(e, nphdr, |vs|, eh, MaxEnd(us, rc0), eh', n)
    ensures rc0 == HeadEnd(e.cls, nphdr) && MaxEnd(us, rc0) == ExtentsAll(e, vs, rc0).value.1 && ws == us
    ensures n == LibrarySize(e.cls, |vs|, ExtentsAll(e, vs, rc0).value.1)
    ensures Regular(e.cls, nphdr, eh', Numbered(e, ws, |vs|), RoundUp(MaxEnd(us, rc0), AddrAlign(e.cls)), n)
    ensures forall i :: 0 <= i < |ws| ==> Sound(e, Numbered(e, ws, |vs|)[i])
    ensures ListError(e.cls, raw, Numbered(e, ws, |vs|)) == ListError(e.cls, raw, vs)
  {
    LibraryHeaders(e, nphdr, eh.phoff);
    FreshInOrder(e, vs, rc0);
    ListErrorKept(e, raw, vs, rc0);
    TrailerSize(e, nphdr, |vs|, eh, MaxEnd(us, rc0), eh', n);
    FreshRegular(e, nphdr, eh, us, |vs|, eh', n);
    NumberedRegular(e, us, |vs|, rc0);
  }

  lemma {:induction false} SameErrors(c: ElfClass, raw: bool, us: seq<Section>, vs: seq<Section>)
    requires |us| == |vs| && forall i :: 0 <= i < |vs| ==> ScnError(c, raw, us[i]) == ScnError(c, raw, vs[i])
    ensures ListError(c, raw, us) == ListError(c, raw, vs)
  {
    if vs != [] { SameErrors(c, raw, us[..|us| - 1], vs[..|vs| - 1]); }
  }

  lemma {:induction false} ListErrorKept(e: Env, raw: bool, vs: seq<Section>, rc0: nat)
    requires !e.layout && ExtentsAll(e, vs, rc0).Ok? && |ExtentsAll(e, vs, rc0).value.0| == |vs|
    requires (forall k :: 0 <= k < |vs| ==> Fresh(e, vs[k])) && (|vs| >= SHN_LORESERVE ==> vs[0].shType.ShtNull?)
    ensures var us := ExtentsAll(e, vs, rc0).value.0;
            && (forall i :: 0 <= i < |vs| ==> us[i].shType == vs[i].shType)
            && ListError(e.cls, raw, Numbered(e, us, |vs|)) == ListError(e.cls, raw, vs)
  {
    var us := ExtentsAll(e, vs, rc0).value.0;
    forall i | 0 <= i < |vs|
      ensures us[i].shType == vs[i].shType && ScnError(e.cls, raw, us[i]) == ScnError(e.cls, raw, vs[i])
    {
      ErrorKept(e, raw, vs, rc0, i);
    }
    SameErrors(e.cls, raw, Numbered(e, us, |vs|), vs);
  }

  lemma {:induction false} TrailerSize(e: Env, nphdr: nat, nscn: nat, eh: Ehdr, rc: nat, eh': Ehdr, n: nat)
    requires !e.layout && Sized(e, nphdr, nscn, eh, rc, eh', n)
    ensures n == LibrarySize(e.cls, nscn, rc)
  {
  }

  /** img is the image of a file of n bytes: its pieces are in order inside it, and
      every byte is the byte of the one piece that covers it, or filler. */
  ghost predicate IsImage(c: ElfClass, nphdr: nat, ws: seq<Section>, shoff: nat, n: nat, img: seq<Cell>) {
    var ps := FilePieces(c, nphdr, ws, shoff);
    |img| == n && Within(ps, 0, n) && Complete(Out(img, n), ps)
  }

  lemma {:induction false} RegularWritten(c: ElfClass, nphdr: nat, eh: Ehdr, ws: seq<Section>, shoff: nat, n: nat)
    requires Regular(c, nphdr, eh, ws, shoff, n)
    ensures Room(c, nphdr, eh, ws, n)
    ensures HasShdrs(eh) ==> Unsigned(BodyOut(c, nphdr, eh, ws, n).rc) <= eh.shoff && Divides(AddrAlign(c), eh.shoff)
    ensures FileOut(c, nphdr, eh, ws, n).rc == n <==> |ws| < SHN_LORESERVE
    ensures |ws| < SHN_LORESERVE ==> IsImage(c, nphdr, ws, shoff, n, FileOut(c, nphdr, eh, ws, n).img)
  {
    RegularImage(c, nphdr, eh, ws, shoff, n);
    var o := FileOut(c, nphdr, eh, ws, n);
    assert o == Out(o.img, o.rc);
  }

  /** Writing a regular file succeeds exactly when nothing is refused and the section
      count fits in the header. */
  method WriteRegular(elf: Elf, n: nat, ghost ws: seq<Section>, ghost shoff: nat)
    returns (r: Result<nat>, image: seq<Cell>)
    requires elf.Valid(ws) && !elf.mode.cmd.CmdRead? && elf.mode.fd
    requires Regular(elf.cls, elf.nphdr, elf.ehdr, ws, shoff, n) && forall i :: 0 <= i < |ws| ==> Sound(elf.E(), ws[i])
    ensures var x := ContentsError(elf.E(), elf.mode, elf.byteorder, elf.nphdr, elf.ehdr, ws);
            if r.Ok? then x.None? && |ws| < SHN_LORESERVE
            else if x.Some? then x == Some(r.error) else |ws| >= SHN_LORESERVE && r.error == ErrAssert
    ensures r.Ok? ==> r.value == n && IsImage(elf.cls, elf.nphdr, ws, shoff, n, image)
  {
    image := [];
    RegularWritten(elf.cls, elf.nphdr, elf.ehdr, ws, shoff, n);
    var nf;
    r, nf := WriteElf(elf, n, ws);
    if r.Ok? {
      image := nf[..];
    }
  }
}
