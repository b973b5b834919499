/** Building the file image: pieces put one after the other into a buffer, the
    gaps between them filled. */
module ElfImage {
  import opened Wrappers
  import opened ElfTypes
  import opened ElfLayout
  import opened ElfOrder
  import opened ElfResync
  import opened Stailq

  /** What a byte of the buffer is: never written, gap filler, or byte number k of
      the ELF header, the program header table, a data descriptor, a section's raw
      contents or a section header. */
  datatype Cell =
    | Blank
    | Filler
    | EhByte(k: nat)
    | PhByte(k: nat)
    | DataByte(scn: nat, data: nat, k: nat)
    | RawByte(scn: nat, k: nat)
    | ShByte(scn: nat, k: nat)

  /** A piece of the file and where it goes. */
  datatype Piece = Piece(at: nat, cells: seq<Cell>)

  function Last(p: Piece): nat { p.at + |p.cells| }

  /** The buffer and the writer's position. */
  datatype Out = Out(img: seq<Cell>, rc: nat)

  predicate Fit(ps: seq<Piece>, n: nat) {
    forall i :: 0 <= i < |ps| ==> Last(ps[i]) <= n
  }

  function Fillers(n: nat): seq<Cell> { seq(n, _ => Filler) }

  function Blanks(n: nat): seq<Cell> { seq(n, _ => Blank) }

  /** s with t written over it from position at on. */
  function Over(s: seq<Cell>, at: nat, t: seq<Cell>): (r: seq<Cell>)
    requires at + |t| <= |s|
    ensures |r| == |s|
  {
    seq(|s|, i requires 0 <= i < |s| => if at <= i < at + |t| then t[i - at] else s[i])
  }

  /** One step of the writer: fill up to the piece if the position is before it,
      write the piece, go on after it. */
  function Put(o: Out, p: Piece): (r: Out)
    requires o.rc <= |o.img| && Last(p) <= |o.img|
    ensures |r.img| == |o.img| && r.rc == Last(p)
  {
    var filled := if o.rc < p.at then Over(o.img, o.rc, Fillers(p.at - o.rc)) else o.img;
    Out(Over(filled, p.at, p.cells), Last(p))
  }

  function PutAll(o: Out, ps: seq<Piece>): (r: Out)
    requires o.rc <= |o.img| && Fit(ps, |o.img|)
    ensures |r.img| == |o.img| && r.rc <= |o.img|
  {
    if ps == [] then o else Put(PutAll(o, ps[..|ps| - 1]), ps[|ps| - 1])
  }

  lemma {:induction false} PutAllConcat(o: Out, ps: seq<Piece>, qs: seq<Piece>)
    requires o.rc <= |o.img| && Fit(ps, |o.img|) && Fit(qs, |o.img|)
    ensures Fit(ps + qs, |o.img|) && PutAll(o, ps + qs) == PutAll(PutAll(o, ps), qs)
  {
    if qs == [] {
      assert ps + qs == ps;
    } else {
      var init := qs[..|qs| - 1];
      PutAllConcat(o, ps, init);
      assert (ps + qs)[..|ps + qs| - 1] == ps + init;
    }
  }

  // ---- Pieces in order --------------------------------------------------------

  /** The pieces lie one after the other between lo and hi. */
  predicate Within(ps: seq<Piece>, lo: nat, hi: nat) {
    && lo <= hi
    && (forall i :: 0 <= i < |ps| ==> lo <= ps[i].at && Last(ps[i]) <= hi)
    && (forall i, j :: 0 <= i < j < |ps| ==> Last(ps[i]) <= ps[j].at)
  }

  lemma {:induction false} WithinConcat(ps: seq<Piece>, qs: seq<Piece>, lo: nat, mid: nat, hi: nat)
    requires Within(ps, lo, mid) && Within(qs, mid, hi)
    ensures Within(ps + qs, lo, hi)
  {
  }

  predicate InPiece(p: Piece, x: int) { p.at <= x < Last(p) }

  /** Cell x of the image is the cell of the piece that covers it, or filler. */
  predicate Correct(img: seq<Cell>, ps: seq<Piece>, x: nat)
    requires x < |img|
  {
    && (forall i :: 0 <= i < |ps| && InPiece(ps[i], x) ==> img[x] == ps[i].cells[x - ps[i].at])
    && ((forall i :: 0 <= i < |ps| ==> !InPiece(ps[i], x)) ==> img[x] == Filler)
  }

  /** Up to position rc every cell is correct; from there on none was written. */
  predicate Complete(o: Out, ps: seq<Piece>) {
    && o.rc <= |o.img|
    && (forall x :: 0 <= x < o.rc ==> Correct(o.img, ps, x))
    && (forall x :: o.rc <= x < |o.img| ==> o.img[x] == Blank)
  }

  lemma {:induction false} PutOne(o: Out, ps: seq<Piece>, p: Piece)
    requires Complete(o, ps) && o.rc <= p.at && Last(p) <= |o.img|
    requires forall i :: 0 <= i < |ps| ==> Last(ps[i]) <= o.rc
    ensures Complete(Put(o, p), ps + [p])
    ensures forall x :: o.rc <= x < Last(p) ==> o.img[x] == Blank
    ensures forall x :: 0 <= x < o.rc ==> Put(o, p).img[x] == o.img[x]
  {
    var r := Put(o, p);
    var qs := ps + [p];
    forall x: nat | x < r.rc ensures Correct(r.img, qs, x) {
      if x < o.rc {
        assert Correct(o.img, ps, x);
        assert r.img[x] == o.img[x];
        assert forall i :: 0 <= i < |ps| ==> qs[i] == ps[i];
      } else {
        assert forall i :: 0 <= i < |ps| ==> !InPiece(qs[i], x);
        assert qs[|ps|] == p;
      }
    }
  }

  /** Pieces in order, put into an empty buffer, each land whole at their place;
      the gaps are filler; nothing before the final position stays unwritten. */
  lemma {:induction false} PutAllComplete(n: nat, ps: seq<Piece>)
    requires Within(ps, 0, n)
    ensures Fit(ps, n)
    ensures var o := PutAll(Out(Blanks(n), 0), ps);
            Complete(o, ps) && o.rc == (if ps == [] then 0 else Last(ps[|ps| - 1]))
  {
    if ps != [] {
      var init := ps[..|ps| - 1];
      PutAllComplete(n, init);
      PutOne(PutAll(Out(Blanks(n), 0), init), init, ps[|ps| - 1]);
      assert ps == init + [ps[|ps| - 1]];
    }
  }

  /** Pieces at or after the position leave what is before it alone. */
  lemma {:induction false} PutAllKeeps(o: Out, ps: seq<Piece>)
    requires o.rc <= |o.img| && Fit(ps, |o.img|) && forall i :: 0 <= i < |ps| ==> o.rc <= ps[i].at
    ensures o.rc <= PutAll(o, ps).rc && forall x :: 0 <= x < o.rc ==> PutAll(o, ps).img[x] == o.img[x]
  {
    if ps != [] { PutAllKeeps(o, ps[..|ps| - 1]); }
  }

  lemma {:induction false} PutAllKeepsPrefix(o: Out, ps: seq<Piece>, qs: seq<Piece>)
    requires o.rc <= |o.img| && Fit(ps, |o.img|) && Fit(qs, |o.img|)
    requires forall i :: 0 <= i < |qs| ==> PutAll(o, ps).rc <= qs[i].at
    ensures Fit(ps + qs, |o.img|)
    ensures forall x :: 0 <= x < PutAll(o, ps).rc ==> PutAll(o, ps + qs).img[x] == PutAll(o, ps).img[x]
  {
    PutAllConcat(o, ps, qs);
    PutAllKeeps(PutAll(o, ps), qs);
  }

  lemma {:induction false} Split(ps: seq<Piece>, n: nat, i: nat)
    requires Within(ps, 0, n) && i <= |ps|
    ensures ps == ps[..i] + ps[i..] && Within(ps[..i], 0, n) && Fit(ps[i..], n)
    ensures forall k :: 0 <= k < |ps[i..]| ==> (if i == 0 then 0 else Last(ps[..i][i - 1])) <= ps[i..][k].at
  {
  }

  /** Every byte is written once: step number i writes only unwritten bytes, and
      neither it nor the steps after it touch what is already there. */
  lemma {:induction false} WriteOnce(n: nat, ps: seq<Piece>, i: nat)
    requires Within(ps, 0, n) && i < |ps|
    ensures Fit(ps[..i], n) && Fit(ps, n)
    ensures var o := PutAll(Out(Blanks(n), 0), ps[..i]);
            && o.rc <= ps[i].at
            && (forall x :: o.rc <= x < Last(ps[i]) ==> o.img[x] == Blank)
            && (forall x :: 0 <= x < o.rc ==> PutAll(Out(Blanks(n), 0), ps).img[x] == o.img[x])
  {
    Split(ps, n, i);
    WriteOnceSplit(n, ps[..i], ps[i..]);
  }

  lemma {:induction false} WriteOnceSplit(n: nat, before: seq<Piece>, after: seq<Piece>)
    requires Within(before, 0, n) && Fit(after, n) && after != []
    requires forall k :: 0 <= k < |after| ==> (if before == [] then 0 else Last(before[|before| - 1])) <= after[k].at
    ensures Fit(before, n) && Fit(before + after, n)
    ensures var o := PutAll(Out(Blanks(n), 0), before);
            && o.rc <= after[0].at
            && (forall x :: o.rc <= x < Last(after[0]) ==> o.img[x] == Blank)
            && (forall x :: 0 <= x < o.rc ==> PutAll(Out(Blanks(n), 0), before + after).img[x] == o.img[x])
  {
    PutAllComplete(n, before);
    PutAllKeepsPrefix(Out(Blanks(n), 0), before, after);
  }

  // ---- The pieces of a file ---------------------------------------------------

  function EhPiece(c: ElfClass): Piece { Piece(0, seq(EhSize(c), k requires 0 <= k => EhByte(k))) }

  function PhCells(c: ElfClass, phnum: nat): seq<Cell> { seq(PhSize(c) * phnum, k requires 0 <= k => PhByte(k)) }

  /** The size of a descriptor's contents in the file. */
  function FileSize(c: ElfClass, d: Data): (n: nat)
    ensures n <= d.size
  {
    FileSizeBound(d.size, MSize(d.dtype, c), FSize(d.dtype, c));
    d.size / MSize(d.dtype, c) * FSize(d.dtype, c)
  }

  lemma {:induction false} FileSizeBound(n: nat, m: nat, f: nat)
    requires 0 < f <= m
    ensures 0 <= n / m * f <= n
  {
    assert n / m * f <= n / m * m;
  }

  function DataPiece(c: ElfClass, i: nat, s: Section, d: nat): Piece
    requires d < |s.data|
  {
    Piece(s.sOffset + s.data[d].off, seq(FileSize(c, s.data[d]), k requires 0 <= k => DataByte(i, d, k)))
  }

  function RawPiece(i: nat, s: Section): Piece {
    Piece(s.sOffset, seq(s.shSize, k requires 0 <= k => RawByte(i, k)))
  }

  /** The pieces of section number i: its descriptors, or its raw contents. */
  function ScnPieces(c: ElfClass, i: nat, s: Section): seq<Piece> {
    if Skipped(s) then []
    else if s.data == [] then [RawPiece(i, s)]
    else seq(|s.data|, d requires 0 <= d < |s.data| => DataPiece(c, i, s, d))
  }

  function ListPieces(c: ElfClass, vs: seq<Section>): seq<Piece> {
    if vs == [] then [] else ListPieces(c, vs[..|vs| - 1]) + ScnPieces(c, |vs| - 1, vs[|vs| - 1])
  }

  /** Where section header number i goes; for i = n, the end of the table. */
  function ShAt(c: ElfClass, shoff: nat, i: nat): nat {
    if i == 0 then shoff else ShAt(c, shoff, i - 1) + ShSize(c)
  }

  function ShPiece(c: ElfClass, shoff: nat, i: nat): Piece {
    Piece(ShAt(c, shoff, i), seq(ShSize(c), k requires 0 <= k => ShByte(i, k)))
  }

  function ShPieces(c: ElfClass, shoff: nat, n: nat): (ps: seq<Piece>)
    ensures |ps| == n
  {
    if n == 0 then [] else ShPieces(c, shoff, n - 1) + [ShPiece(c, shoff, n - 1)]
  }

  lemma {:induction false} ShAtIs(c: ElfClass, shoff: nat, i: nat)
    ensures ShAt(c, shoff, i) == shoff + ShSize(c) * i
  {
    if i > 0 { ShAtIs(c, shoff, i - 1); }
  }

  lemma {:induction false} ShPiecesWithin(c: ElfClass, shoff: nat, n: nat)
    ensures Within(ShPieces(c, shoff, n), shoff, ShAt(c, shoff, n))
  {
    if n > 0 { ShPiecesWithin(c, shoff, n - 1); }
  }

  // ---- When the pieces are in order -------------------------------------------

  /** The contents of a section, as written to the file, lie in order inside it. */
  predicate Fits(c: ElfClass, s: Section) {
    Skipped(s) || if s.data == [] then s.shSize <= s.sSize else
      && (forall i :: 0 <= i < |s.data| ==> s.data[i].off + FileSize(c, s.data[i]) <= s.sSize)
      && (forall i, j :: 0 <= i < j < |s.data| ==> s.data[i].off + FileSize(c, s.data[i]) <= s.data[j].off)
  }

  lemma {:induction false} ScnPiecesWithin(c: ElfClass, i: nat, s: Section)
    requires Fits(c, s) && !Skipped(s)
    ensures Within(ScnPieces(c, i, s), s.sOffset, End(s))
  {
  }

  lemma {:induction false} ListPiecesWithin(c: ElfClass, vs: seq<Section>, rc: nat)
    requires InOrder(vs, rc) && forall i :: 0 <= i < |vs| ==> Fits(c, vs[i])
    ensures Within(ListPieces(c, vs), rc, MaxEnd(vs, rc))
  {
    if vs != [] {
      var init, s := vs[..|vs| - 1], vs[|vs| - 1];
      assert forall i :: 0 <= i < |init| ==> init[i] == vs[i];
      ListPiecesWithin(c, init, rc);
      if Skipped(s) {
        assert ListPieces(c, vs) == ListPieces(c, init);
      } else {
        MaxEndIs(init, rc, s.sOffset);
        ScnPiecesWithin(c, |vs| - 1, s);
        WithinConcat(ListPieces(c, init), ScnPieces(c, |vs| - 1, s), rc, s.sOffset, End(s));
      }
    }
  }

  // ---- The writer -------------------------------------------------------------

  method Memset(nf: array<Cell>, from: nat, to: nat)
    requires from <= to <= nf.Length
    modifies nf
    ensures nf[..] == Over(old(nf[..]), from, Fillers(to - from))
  {
    for i := from to to
      invariant forall k :: 0 <= k < nf.Length ==> nf[k] == if from <= k < i then Filler else old(nf[k])
    {
      nf[i] := Filler;
    }
  }

  method Memcpy(nf: array<Cell>, at: nat, cells: seq<Cell>)
    requires at + |cells| <= nf.Length
    modifies nf
    ensures nf[..] == Over(old(nf[..]), at, cells)
  {
    for i := 0 to |cells|
      invariant forall k :: 0 <= k < nf.Length ==> nf[k] == if at <= k < at + i then cells[k - at] else old(nf[k])
    {
      nf[at + i] := cells[i];
    }
  }

  method PutPiece(nf: array<Cell>, rc: nat, p: Piece) returns (rc': nat)
    requires rc <= nf.Length && Last(p) <= nf.Length
    modifies nf
    ensures Out(nf[..], rc') == Put(Out(old(nf[..]), rc), p)
  {
    if rc < p.at {
      Memset(nf, rc, p.at);
    }
    Memcpy(nf, p.at, p.cells);
    rc' := Last(p);
  }

  /** What the writer takes for granted about a section. */
  predicate Sound(e: Env, s: Section) {
    !Skipped(s) ==>
      && XlateShType(s.shType).Some?
      && var t := XlateShType(s.shType).value;
         Divides(FAlign(t, e.cls), s.sOffset) && Typed(s.data, t, e.version)
  }

  predicate Typed(ds: seq<Data>, t: ElfType, version: nat) {
    ds == [] || (ds[|ds| - 1].dtype == t && ds[|ds| - 1].version == version && Typed(ds[..|ds| - 1], t, version))
  }

  /** What stops the writer at a descriptor: it asserts that there is a buffer of
      whole objects, and the translation wants it to be non-empty and aligned. */
  function DataError(c: ElfClass, d: Data): Option<Error> {
    if d.buf.None? || !Divides(MSize(d.dtype, c), d.size) then Some(ErrAssert)
    else if d.size == 0 || !Divides(MAlign(d.dtype, c), d.buf.value) then Some(ErrData)
    else None
  }

  /** The first error among the descriptors. */
  function DatasError(c: ElfClass, ds: seq<Data>): Option<Error> {
    if ds == [] then None
    else if DatasError(c, ds[..|ds| - 1]).Some? then DatasError(c, ds[..|ds| - 1])
    else DataError(c, ds[|ds| - 1])
  }

  lemma {:induction false} DataErrorFound(c: ElfClass, ds: seq<Data>, d: nat)
    requires d < |ds| && DatasError(c, ds[..d + 1]).Some?
    ensures DatasError(c, ds) == DatasError(c, ds[..d + 1])
  {
    if d == |ds| - 1 {
      assert ds[..d + 1] == ds;
    } else {
      assert ds[..|ds| - 1][..d + 1] == ds[..d + 1];
      DataErrorFound(c, ds[..|ds| - 1], d);
    }
  }

  /** What stops the writer at a section: there is nothing to copy from, or one of
      its descriptors stops it. */
  function ScnError(c: ElfClass, raw: bool, s: Section): Option<Error> {
    if Skipped(s) then None
    else if s.data == [] then (if raw then None else Some(ErrArgument))
    else DatasError(c, s.data)
  }

  /** The first error in the list. */
  function ListError(c: ElfClass, raw: bool, vs: seq<Section>): Option<Error> {
    if vs == [] then None
    else if ListError(c, raw, vs[..|vs| - 1]).Some? then ListError(c, raw, vs[..|vs| - 1])
    else ScnError(c, raw, vs[|vs| - 1])
  }

  lemma {:induction false} ListErrorFound(c: ElfClass, raw: bool, vs: seq<Section>, i: nat)
    requires i < |vs| && ListError(c, raw, vs[..i + 1]).Some?
    ensures ListError(c, raw, vs) == ListError(c, raw, vs[..i + 1])
  {
    if i == |vs| - 1 {
      assert vs[..i + 1] == vs;
    } else {
      assert vs[..|vs| - 1][..i + 1] == vs[..i + 1];
      ListErrorFound(c, raw, vs[..|vs| - 1], i);
    }
  }

  /** A list is written exactly when every one of its sections is. */
  lemma {:induction false} ListErrorIs(c: ElfClass, raw: bool, vs: seq<Section>)
    ensures ListError(c, raw, vs).None? <==> forall i :: 0 <= i < |vs| ==> ScnError(c, raw, vs[i]).None?
  {
    if vs != [] { ListErrorIs(c, raw, vs[..|vs| - 1]); }
  }

  lemma {:induction false} PutNext(o: Out, ps: seq<Piece>, d: nat)
    requires o.rc <= |o.img| && Fit(ps, |o.img|) && d < |ps|
    ensures Fit(ps[..d], |o.img|) && Fit(ps[..d + 1], |o.img|)
    ensures PutAll(o, ps[..d + 1]) == Put(PutAll(o, ps[..d]), ps[d])
  {
    assert ps[..d + 1][..d] == ps[..d];
  }

  method CheckContents(c: ElfClass, d: Data) returns (x: Option<Error>)
    ensures x == DataError(c, d)
  {
    if d.buf.None? {
      return Some(ErrAssert);
    }
    var whole := IsMultiple(d.size, MSize(d.dtype, c));
    if !whole {
      return Some(ErrAssert);
    }
    var aligned := IsMultiple(d.buf.value, MAlign(d.dtype, c));
    return if d.size == 0 || !aligned then Some(ErrData) else None;
  }

  /** The writer has reached position rc of the buffer img by putting ps. */
  ghost predicate Reached(img: seq<Cell>, rc: nat, o: Out, ps: seq<Piece>) {
    && o.rc <= |o.img| == |img| && rc <= |img| && Fit(ps, |img|) && Out(img, rc) == PutAll(o, ps)
  }

  /** One descriptor, after d others; ps are the pieces of all of them. */
  method WriteDatum(nf: array<Cell>, c: ElfClass, i: nat, s: Section, d: nat, rc: nat, ghost o: Out,
                    ghost ps: seq<Piece>)
    returns (r: Result<nat>)
    requires d < |s.data| == |ps| && ps[d] == DataPiece(c, i, s, d) && Fit(ps, nf.Length)
    requires DatasError(c, s.data[..d]).None? && Reached(nf[..], rc, o, ps[..d])
    modifies nf
    ensures if r.Ok? then DatasError(c, s.data[..d + 1]).None? else DatasError(c, s.data) == Some(r.error)
    ensures r.Ok? ==> Reached(nf[..], r.value, o, ps[..d + 1])
  {
    var x := CheckContents(c, s.data[d]);
    assert s.data[..d + 1][..d] == s.data[..d];
    if x.Some? {
      DataErrorFound(c, s.data, d);
      return Err(x.value);
    }
    PutNext(o, ps, d);
    var rc' := PutPiece(nf, rc, DataPiece(c, i, s, d));
    r := Ok(rc');
  }

  /** The loop over a section's descriptors; ps are their pieces. */
  method WriteData(nf: array<Cell>, c: ElfClass, i: nat, s: Section, rc: nat, ghost ps: seq<Piece>)
    returns (r: Result<nat>)
    requires |ps| == |s.data| && forall d :: 0 <= d < |ps| ==> ps[d] == DataPiece(c, i, s, d)
    requires rc <= nf.Length && Fit(ps, nf.Length)
    modifies nf
    ensures if r.Ok? then DatasError(c, s.data).None? else DatasError(c, s.data) == Some(r.error)
    ensures r.Ok? ==> Out(nf[..], r.value) == PutAll(Out(old(nf[..]), rc), ps)
  {
    r := Ok(rc);
    ghost var o := Out(nf[..], rc);
    for d := 0 to |s.data|
      invariant r.Ok? && DatasError(c, s.data[..d]).None? && Reached(nf[..], r.value, o, ps[..d])
    {
      r := WriteDatum(nf, c, i, s, d, r.value, o, ps);
      if r.Err? {
        return;
      }
    }
    assert ps[..|s.data|] == ps && s.data[..|s.data|] == s.data;
  }

  method WriteScn(nf: array<Cell>, e: Env, raw: bool, i: nat, s: Section, rc: nat) returns (r: Result<nat>)
    requires rc <= nf.Length && Fit(ScnPieces(e.cls, i, s), nf.Length) && Sound(e, s)
    modifies nf
    ensures if r.Ok? then ScnError(e.cls, raw, s).None? else ScnError(e.cls, raw, s) == Some(r.error)
    ensures r.Ok? ==> Out(nf[..], r.value) == PutAll(Out(old(nf[..]), rc), ScnPieces(e.cls, i, s))
  {
    if Skipped(s) {
      return Ok(rc);
    }
    ghost var ps := ScnPieces(e.cls, i, s);
    if s.data != [] {
      r := WriteData(nf, e.cls, i, s, rc, ps);
      return;
    }
    if !raw {
      return Err(ErrArgument);
    }
    assert ps[0] == RawPiece(i, s);
    PutNext(Out(nf[..], rc), ps, 0);
    assert ps[..1] == ps;
    var rc' := PutPiece(nf, rc, RawPiece(i, s));
    r := Ok(rc');
  }

  lemma {:induction false} FitParts(ps: seq<Piece>, qs: seq<Piece>, n: nat)
    requires Fit(ps + qs, n)
    ensures Fit(ps, n) && Fit(qs, n)
  {
    assert forall k :: 0 <= k < |ps| ==> (ps + qs)[k] == ps[k];
    assert forall k :: 0 <= k < |qs| ==> (ps + qs)[|ps| + k] == qs[k];
  }

  lemma {:induction false} ListPiecesFit(c: ElfClass, vs: seq<Section>, n: nat, i: nat)
    requires Fit(ListPieces(c, vs), n) && i <= |vs|
    ensures Fit(ListPieces(c, vs[..i]), n) && (i < |vs| ==> Fit(ScnPieces(c, i, vs[i]), n))
    decreases |vs|
  {
    if i == |vs| {
      assert vs[..i] == vs;
    } else {
      var init := vs[..|vs| - 1];
      FitParts(ListPieces(c, init), ScnPieces(c, |vs| - 1, vs[|vs| - 1]), n);
      ListPiecesFit(c, init, n, i);
      assert init[..i] == vs[..i];
    }
  }

  lemma {:induction false} ListNext(c: ElfClass, o: Out, vs: seq<Section>, i: nat)
    requires i < |vs| && o.rc <= |o.img| && Fit(ListPieces(c, vs[..i]), |o.img|) && Fit(ScnPieces(c, i, vs[i]), |o.img|)
    ensures Fit(ListPieces(c, vs[..i + 1]), |o.img|)
    ensures PutAll(o, ListPieces(c, vs[..i + 1])) == PutAll(PutAll(o, ListPieces(c, vs[..i])), ScnPieces(c, i, vs[i]))
  {
    assert vs[..i + 1][..i] == vs[..i];
    PutAllConcat(o, ListPieces(c, vs[..i]), ScnPieces(c, i, vs[i]));
  }

  /** One section of the list, after i others. */
  method WriteNext(nf: array<Cell>, e: Env, raw: bool, i: nat, vs: seq<Section>, rc: nat, ghost o: Out)
    returns (r: Result<nat>)
    requires i < |vs| && Fit(ListPieces(e.cls, vs), nf.Length) && forall k :: 0 <= k < |vs| ==> Sound(e, vs[k])
    requires ListError(e.cls, raw, vs[..i]).None? && Reached(nf[..], rc, o, ListPieces(e.cls, vs[..i]))
    modifies nf
    ensures if r.Ok? then ListError(e.cls, raw, vs[..i + 1]).None? else ListError(e.cls, raw, vs) == Some(r.error)
    ensures r.Ok? ==> Reached(nf[..], r.value, o, ListPieces(e.cls, vs[..i + 1]))
  {
    ListPiecesFit(e.cls, vs, nf.Length, i);
    ListNext(e.cls, o, vs, i);
    r := WriteScn(nf, e, raw, i, vs[i], rc);
    assert vs[..i + 1][..i] == vs[..i];
    if r.Err? {
      ListErrorFound(e.cls, raw, vs, i);
    }
  }

  /** The loop over the sections of the list. */
  method WriteEach(nf: array<Cell>, e: Env, raw: bool, vs: seq<Section>, rc: nat) returns (r: Result<nat>)
    requires forall i :: 0 <= i < |vs| ==> Sound(e, vs[i])
    requires rc <= nf.Length && Fit(ListPieces(e.cls, vs), nf.Length)
    modifies nf
    ensures if r.Ok? then ListError(e.cls, raw, vs).None? else ListError(e.cls, raw, vs) == Some(r.error)
    ensures r.Ok? ==> Reached(nf[..], r.value, Out(old(nf[..]), rc), ListPieces(e.cls, vs))
  {
    r := Ok(rc);
    ghost var o := Out(nf[..], rc);
    for i := 0 to |vs|
      invariant r.Ok? && ListError(e.cls, raw, vs[..i]).None?
      invariant Reached(nf[..], r.value, o, ListPieces(e.cls, vs[..i]))
    {
      r := WriteNext(nf, e, raw, i, vs, r.value, o);
      if r.Err? {
        return;
      }
    }
    assert vs[..|vs|] == vs;
  }

  method WriteScns(nf: array<Cell>, e: Env, raw: bool, q: Queue<Section>, rc: nat, ghost vs: seq<Section>)
    returns (r: Result<nat>)
    requires q.Valid() && Holds(q, vs) && forall i :: 0 <= i < |vs| ==> Sound(e, vs[i])
    requires rc <= nf.Length && Fit(ListPieces(e.cls, vs), nf.Length)
    modifies nf
    ensures if r.Ok? then ListError(e.cls, raw, vs).None? else ListError(e.cls, raw, vs) == Some(r.error)
    ensures r.Ok? ==> Out(nf[..], r.value) == PutAll(Out(old(nf[..]), rc), ListPieces(e.cls, vs))
  {
    var ss := q.Values();
    assert ss == vs;
    r := WriteEach(nf, e, raw, ss, rc);
  }

  method WriteShdr(nf: array<Cell>, c: ElfClass, shoff: nat, i: nat, ghost n: nat, rc: nat, ghost o: Out)
    returns (rc': nat)
    requires i < n && Fit(ShPieces(c, shoff, n), nf.Length) && Reached(nf[..], rc, o, ShPieces(c, shoff, i))
    modifies nf
    ensures Reached(nf[..], rc', o, ShPieces(c, shoff, i + 1))
  {
    ShPiecesFit(c, shoff, n, nf.Length, i);
    rc' := PutPiece(nf, rc, ShPiece(c, shoff, i));
    assert ShPieces(c, shoff, i + 1)[..i] == ShPieces(c, shoff, i);
  }

  /** The loop that writes the section header table. */
  method WriteShdrs(nf: array<Cell>, c: ElfClass, q: Queue<Section>, shoff: nat, rc: nat) returns (rc': nat)
    requires q.Valid() && q.nodes != []
    requires rc <= nf.Length && Fit(ShPieces(c, shoff, |q.nodes|), nf.Length)
    modifies nf
    ensures Out(nf[..], rc') == PutAll(Out(old(nf[..]), rc), ShPieces(c, shoff, |q.nodes|))
  {
    var ss := q.Values();
    rc' := rc;
    ghost var o := Out(nf[..], rc);
    for i := 0 to |ss|
      invariant Reached(nf[..], rc', o, ShPieces(c, shoff, i))
    {
      rc' := WriteShdr(nf, c, shoff, i, |ss|, rc', o);
    }
  }

  lemma {:induction false} ShPiecesFit(c: ElfClass, shoff: nat, n: nat, m: nat, i: nat)
    requires Fit(ShPieces(c, shoff, n), m) && i < n
    ensures Fit(ShPieces(c, shoff, i + 1), m) && Last(ShPiece(c, shoff, i)) <= m
  {
    var ps := ShPieces(c, shoff, n - 1);
    assert forall k :: 0 <= k < n - 1 ==> ShPieces(c, shoff, n)[k] == ps[k];
    assert ShPieces(c, shoff, n)[n - 1] == ShPiece(c, shoff, n - 1);
    if i < n - 1 { ShPiecesFit(c, shoff, n - 1, m, i); }
  }
}
