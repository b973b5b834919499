/** What is where in a file that the library has laid out and written, said byte by
    byte. */
module ElfContents {
  import opened Wrappers
  import opened ElfTypes
  import opened ElfLayout
  import opened ElfOrder
  import opened ElfResync
  import opened ElfImage
  import opened ElfUpdate
  import opened ElfWrite

  /** Byte x of the image is y. */
  predicate At(img: seq<Cell>, x: nat, y: Cell) { x < |img| && img[x] == y }

  /** Everything is written: the headers, all whole objects of each descriptor or the raw
      contents of each section with space in the file, and the section headers. */
  ghost predicate AllThere(c: ElfClass, nphdr: nat, us: seq<Section>, shoff: nat, img: seq<Cell>) {
    && (forall k :: 0 <= k < EhSize(c) ==> At(img, k, EhByte(k)))
    && (forall k :: 0 <= k < PhSize(c) * nphdr ==> At(img, EhSize(c) + k, PhByte(k)))
    && (forall i, d, k ::
          && 0 <= i < |us| && !Skipped(us[i]) && 0 <= d < |us[i].data|
          && 0 <= k < us[i].data[d].size / MSize(us[i].data[d].dtype, c) * FSize(us[i].data[d].dtype, c)
          ==> At(img, us[i].sOffset + us[i].data[d].off + k, DataByte(i, d, k)))
    && (forall i, k :: 0 <= i < |us| && !Skipped(us[i]) && us[i].data == [] && 0 <= k < us[i].shSize
          ==> At(img, us[i].sOffset + k, RawByte(i, k)))
    && (forall i, k :: 0 <= i < |us| && 0 <= k < ShSize(c) ==> At(img, shoff + ShSize(c) * i + k, ShByte(i, k)))
  }

  /** Byte x of the image is one that belongs there. */
  ghost predicate Belongs(c: ElfClass, nphdr: nat, us: seq<Section>, shoff: nat, x: nat, y: Cell) {
    match y
    case Blank => false
    case Filler => true
    case EhByte(k) => x == k < EhSize(c)
    case PhByte(k) => x == EhSize(c) + k && k < PhSize(c) * nphdr
    case DataByte(i, d, k) =>
      && i < |us| && !Skipped(us[i]) && d < |us[i].data|
      && x == us[i].sOffset + us[i].data[d].off + k
      && k < us[i].data[d].size / MSize(us[i].data[d].dtype, c) * FSize(us[i].data[d].dtype, c)
    case RawByte(i, k) =>
      i < |us| && !Skipped(us[i]) && us[i].data == [] && x == us[i].sOffset + k && k < us[i].shSize
    case ShByte(i, k) => i < |us| && x == shoff + ShSize(c) * i + k && k < ShSize(c)
  }

  /** The image holds everything, and nothing else but filler. */
  ghost predicate Contents(c: ElfClass, nphdr: nat, us: seq<Section>, shoff: nat, img: seq<Cell>) {
    && AllThere(c, nphdr, us, shoff, img)
    && forall x :: 0 <= x < |img| ==> Belongs(c, nphdr, us, shoff, x, img[x])
  }

  // ---- Pieces by name ------------------------------------------------------------------

  lemma {:induction false} DataPieceIn(c: ElfClass, vs: seq<Section>, i: nat, d: nat) returns (j: nat)
    requires i < |vs| && !Skipped(vs[i]) && d < |vs[i].data|
    ensures j < |ListPieces(c, vs)| && ListPieces(c, vs)[j] == DataPiece(c, i, vs[i], d)
  {
    var init := ListPieces(c, vs[..|vs| - 1]);
    if i < |vs| - 1 { j := DataPieceIn(c, vs[..|vs| - 1], i, d); } else { j := |init| + d; }
  }

  lemma {:induction false} RawPieceIn(c: ElfClass, vs: seq<Section>, i: nat) returns (j: nat)
    requires i < |vs| && !Skipped(vs[i]) && vs[i].data == []
    ensures j < |ListPieces(c, vs)| && ListPieces(c, vs)[j] == RawPiece(i, vs[i])
  {
    var init := ListPieces(c, vs[..|vs| - 1]);
    if i < |vs| - 1 { j := RawPieceIn(c, vs[..|vs| - 1], i); } else { j := |init|; }
  }

  lemma {:induction false} PieceFrom(c: ElfClass, vs: seq<Section>, j: nat) returns (i: nat, d: nat)
    requires j < |ListPieces(c, vs)|
    ensures i < |vs| && !Skipped(vs[i])
    ensures if vs[i].data == [] then ListPieces(c, vs)[j] == RawPiece(i, vs[i])
            else d < |vs[i].data| && ListPieces(c, vs)[j] == DataPiece(c, i, vs[i], d)
  {
    var init := ListPieces(c, vs[..|vs| - 1]);
    if j < |init| { i, d := PieceFrom(c, vs[..|vs| - 1], j); } else { i, d := |vs| - 1, j - |init|; }
  }

  lemma {:induction false} ShPieceIn(c: ElfClass, shoff: nat, n: nat, i: nat)
    requires i < n
    ensures ShPieces(c, shoff, n)[i] == ShPiece(c, shoff, i)
  {
    if i < n - 1 { ShPieceIn(c, shoff, n - 1, i); }
  }

  /** The bytes of piece j are in the image. */
  lemma {:induction false} PieceWritten(img: seq<Cell>, ps: seq<Piece>, j: nat, k: nat)
    requires Within(ps, 0, |img|) && Complete(Out(img, |img|), ps) && j < |ps| && k < |ps[j].cells|
    ensures At(img, ps[j].at + k, ps[j].cells[k])
  {
    assert InPiece(ps[j], ps[j].at + k) && Correct(img, ps, ps[j].at + k);
  }

  /** A byte of the image is filler or one of a piece. */
  lemma {:induction false} PieceOf(img: seq<Cell>, ps: seq<Piece>, x: nat) returns (j: nat)
    requires Complete(Out(img, |img|), ps) && x < |img|
    ensures j == |ps| ==> img[x] == Filler
    ensures j != |ps| ==> j < |ps| && InPiece(ps[j], x) && img[x] == ps[j].cells[x - ps[j].at]
  {
    assert Correct(img, ps, x);
    if j' :| 0 <= j' < |ps| && InPiece(ps[j'], x) { j := j'; } else { j := |ps|; }
  }

  // ---- The image -------------------------------------------------------------------------

  lemma {:induction false} DataThere(c: ElfClass, nphdr: nat, us: seq<Section>, shoff: nat, img: seq<Cell>,
                                     i: nat, d: nat, k: nat)
    requires IsImage(c, nphdr, us, shoff, |img|, img) && i < |us| && !Skipped(us[i]) && d < |us[i].data|
    requires k < us[i].data[d].size / MSize(us[i].data[d].dtype, c) * FSize(us[i].data[d].dtype, c)
    ensures At(img, us[i].sOffset + us[i].data[d].off + k, DataByte(i, d, k))
  {
    var ps, h := FilePieces(c, nphdr, us, shoff), |HeadPieces(c, nphdr)|;
    var j := DataPieceIn(c, us, i, d);
    assert ps[h + j] == ListPieces(c, us)[j];
    PieceWritten(img, ps, h + j, k);
  }

  lemma {:induction false} RawThere(c: ElfClass, nphdr: nat, us: seq<Section>, shoff: nat, img: seq<Cell>,
                                    i: nat, k: nat)
    requires IsImage(c, nphdr, us, shoff, |img|, img) && i < |us| && !Skipped(us[i]) && us[i].data == []
    requires k < us[i].shSize
    ensures At(img, us[i].sOffset + k, RawByte(i, k))
  {
    var ps, h := FilePieces(c, nphdr, us, shoff), |HeadPieces(c, nphdr)|;
    var j := RawPieceIn(c, us, i);
    assert ps[h + j] == ListPieces(c, us)[j];
    PieceWritten(img, ps, h + j, k);
  }

  lemma {:induction false} ShdrThere(c: ElfClass, nphdr: nat, us: seq<Section>, shoff: nat, img: seq<Cell>,
                                     i: nat, k: nat)
    requires IsImage(c, nphdr, us, shoff, |img|, img) && i < |us| < SHN_LORESERVE && k < ShSize(c)
    ensures At(img, shoff + ShSize(c) * i + k, ShByte(i, k))
  {
    var ps, h := FilePieces(c, nphdr, us, shoff), |HeadPieces(c, nphdr) + ListPieces(c, us)|;
    ShPieceIn(c, shoff, |us|, i);
    ShAtIs(c, shoff, i);
    assert ps[h + i] == ShPiece(c, shoff, i);
    PieceWritten(img, ps, h + i, k);
  }

  lemma {:induction false} HeadThere(c: ElfClass, nphdr: nat, us: seq<Section>, shoff: nat, img: seq<Cell>)
    requires IsImage(c, nphdr, us, shoff, |img|, img)
    ensures forall k :: 0 <= k < EhSize(c) ==> At(img, k, EhByte(k))
    ensures forall k :: 0 <= k < PhSize(c) * nphdr ==> At(img, EhSize(c) + k, PhByte(k))
  {
    var ps := FilePieces(c, nphdr, us, shoff);
    forall k | 0 <= k < EhSize(c) ensures At(img, k, EhByte(k)) {
      assert ps[0] == EhPiece(c);
      PieceWritten(img, ps, 0, k);
    }
    forall k | 0 <= k < PhSize(c) * nphdr ensures At(img, EhSize(c) + k, PhByte(k)) {
      assert ps[1] == Piece(EhSize(c), PhCells(c, nphdr));
      PieceWritten(img, ps, 1, k);
    }
  }

  lemma {:induction false} ListPieceBelongs(c: ElfClass, nphdr: nat, us: seq<Section>, shoff: nat, j: nat, x: nat)
    requires j < |ListPieces(c, us)| && InPiece(ListPieces(c, us)[j], x)
    ensures var p := ListPieces(c, us)[j]; Belongs(c, nphdr, us, shoff, x, p.cells[x - p.at])
  {
    var i, d := PieceFrom(c, us, j);
  }

  lemma {:induction false} ShPieceBelongs(c: ElfClass, nphdr: nat, us: seq<Section>, shoff: nat, i: nat, x: nat)
    requires i < |us| && InPiece(ShPiece(c, shoff, i), x)
    ensures var p := ShPiece(c, shoff, i); Belongs(c, nphdr, us, shoff, x, p.cells[x - p.at])
  {
    ShAtIs(c, shoff, i);
  }

  lemma {:induction false} PieceBelongs(c: ElfClass, nphdr: nat, us: seq<Section>, shoff: nat, j: nat, x: nat)
    requires |us| < SHN_LORESERVE
    requires var ps := FilePieces(c, nphdr, us, shoff); j < |ps| && InPiece(ps[j], x)
    ensures var p := FilePieces(c, nphdr, us, shoff)[j]; Belongs(c, nphdr, us, shoff, x, p.cells[x - p.at])
  {
    var hs, ls := HeadPieces(c, nphdr), ListPieces(c, us);
    var ps := FilePieces(c, nphdr, us, shoff);
    if j < |hs| {
      assert ps[j] == hs[j];
    } else if j < |hs + ls| {
      assert ps[j] == ls[j - |hs|];
      ListPieceBelongs(c, nphdr, us, shoff, j - |hs|, x);
    } else {
      var i := j - |hs + ls|;
      ShPieceIn(c, shoff, |us|, i);
      assert ps[j] == ShPiece(c, shoff, i);
      ShPieceBelongs(c, nphdr, us, shoff, i, x);
    }
  }

  /** The image of a file holds exactly its contents. */
  lemma {:induction false} ImageContents(c: ElfClass, nphdr: nat, us: seq<Section>, shoff: nat, img: seq<Cell>)
    requires IsImage(c, nphdr, us, shoff, |img|, img) && |us| < SHN_LORESERVE
    ensures Contents(c, nphdr, us, shoff, img)
  {
    HeadThere(c, nphdr, us, shoff, img);
    forall i, d, k |
      && 0 <= i < |us| && !Skipped(us[i]) && 0 <= d < |us[i].data|
      && 0 <= k < us[i].data[d].size / MSize(us[i].data[d].dtype, c) * FSize(us[i].data[d].dtype, c)
      ensures At(img, us[i].sOffset + us[i].data[d].off + k, DataByte(i, d, k))
    {
      DataThere(c, nphdr, us, shoff, img, i, d, k);
    }
    forall i, k | 0 <= i < |us| && !Skipped(us[i]) && us[i].data == [] && 0 <= k < us[i].shSize
      ensures At(img, us[i].sOffset + k, RawByte(i, k))
    {
      RawThere(c, nphdr, us, shoff, img, i, k);
    }
    forall i, k | 0 <= i < |us| && 0 <= k < ShSize(c) ensures At(img, shoff + ShSize(c) * i + k, ShByte(i, k)) {
      ShdrThere(c, nphdr, us, shoff, img, i, k);
    }
    var ps := FilePieces(c, nphdr, us, shoff);
    forall x | 0 <= x < |img| ensures Belongs(c, nphdr, us, shoff, x, img[x]) {
      var j := PieceOf(img, ps, x);
      if j < |ps| { PieceBelongs(c, nphdr, us, shoff, j, x); }
    }
  }
}
