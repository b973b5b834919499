/** Looking up a string-table offset: the lookup recomputes the layout of the
    descriptors and has to agree with it. */
module ElfStrptr {
  import opened Wrappers
  import opened ElfTypes
  import opened ElfLayout

  /** Byte number `pos` of the buffer of descriptor number `desc`. */
  datatype Ptr = Ptr(desc: nat, pos: nat)

  predicate Usable(d: Data) { d.buf.Some? && d.size != 0 }

  predicate Covers(d: Data, offset: nat) { d.off <= offset < d.off + d.size }

  /** The lookup that recomputes the layout, from descriptor i on, with count bytes
      already seen. */
  function Find(ds: seq<Data>, i: nat, count: nat, offset: nat): Result<Ptr>
    requires i <= |ds|
    decreases |ds| - i
  {
    if i == |ds| || count > offset then Err(ErrArgument)
    else
      var d := ds[i];
      if !Usable(d) then Find(ds, i + 1, count, offset)
      else if d.dtype != TByte || (d.align > 1 && !IsPow2(d.align)) then Err(ErrData)
      else
        var c := if d.align > 1 then RoundUp(count, d.align) else count;
        if offset < c then Err(ErrArgument)
        else if offset < c + d.size then Ok(Ptr(i, offset - c))
        else Find(ds, i + 1, c + d.size, offset)
  }

  /** The result of the lookup by stored offsets: the first usable descriptor that
      covers the offset or is not made of bytes. */
  predicate FoundByOffset(ds: seq<Data>, offset: nat, r: Result<Ptr>) {
    if r.Ok? then
      && r.value.desc < |ds| && Stops(ds[r.value.desc], offset) && FirstStop(ds, r.value.desc, offset)
      && ds[r.value.desc].dtype == TByte
      && Covers(ds[r.value.desc], offset) && r.value.pos == offset - ds[r.value.desc].off
    else if r.error == ErrData then
      exists i :: 0 <= i < |ds| && Stops(ds[i], offset) && FirstStop(ds, i, offset) && ds[i].dtype != TByte
    else r.error == ErrArgument && FirstStop(ds, |ds|, offset)
  }

  predicate Stops(d: Data, offset: nat) { Usable(d) && (d.dtype != TByte || Covers(d, offset)) }

  predicate FirstStop(ds: seq<Data>, i: nat, offset: nat)
    requires i <= |ds|
  {
    forall k :: 0 <= k < i ==> !Stops(ds[k], offset)
  }

  method ByStoredOffset(ds: seq<Data>, offset: nat) returns (r: Result<Ptr>)
    ensures FoundByOffset(ds, offset, r)
  {
    for i := 0 to |ds|
      invariant FirstStop(ds, i, offset)
    {
      var d := ds[i];
      if d.buf.Some? && d.size != 0 {
        if d.dtype != TByte {
          return Err(ErrData);
        }
        if offset >= d.off && offset < d.off + d.size {
          return Ok(Ptr(i, offset - d.off));
        }
      }
    }
    r := Err(ErrArgument);
  }

  method ByRecount(ds: seq<Data>, offset: nat) returns (r: Result<Ptr>)
    ensures r == Find(ds, 0, 0, offset)
  {
    var count: nat := 0;
    var i: nat := 0;
    while i < |ds| && count <= offset
      invariant i <= |ds| && Find(ds, 0, 0, offset) == Find(ds, i, count, offset)
    {
      var d := ds[i];
      if d.buf.Some? && d.size != 0 {
        if d.dtype != TByte {
          return Err(ErrData);
        }
        if d.align > 1 {
          PowerTest(d.align);
          if BitAnd(d.align, d.align - 1) != 0 {
            return Err(ErrData);
          }
          count := Roundup(count, d.align);
        }
        if offset < count {
          return Err(ErrArgument);
        }
        if offset < count + d.size {
          return Ok(Ptr(i, offset - count));
        }
        count := count + d.size;
      }
      i := i + 1;
    }
    r := Err(ErrArgument);
  }

  /** The whole lookup when the library lays the file out. */
  function Lookup(s: Section, offset: nat): Result<Ptr> {
    if !s.shType.ShtStrtab? || offset >= s.shSize then Err(ErrArgument) else Find(s.data, 0, 0, offset)
  }

  method StrPtr(layout: bool, s: Section, offset: nat) returns (r: Result<Ptr>)
    ensures !s.shType.ShtStrtab? || offset >= s.shSize ==> r == Err(ErrArgument)
    ensures s.shType.ShtStrtab? && offset < s.shSize && layout ==> FoundByOffset(s.data, offset, r)
    ensures !layout ==> r == Lookup(s, offset)
  {
    if !s.shType.ShtStrtab? || offset >= s.shSize {
      return Err(ErrArgument);
    }
    if layout {
      r := ByStoredOffset(s.data, offset);
    } else {
      r := ByRecount(s.data, offset);
    }
  }

  /** A descriptor that the lookup does not accept. */
  predicate Unfit(d: Data) { Usable(d) && (d.dtype != TByte || (d.align > 1 && !IsPow2(d.align))) }

  /** The bytes counted when descriptor j is reached from descriptor i. */
  function Counted(ds: seq<Data>, i: nat, count: nat, j: nat): nat
    requires i <= j <= |ds|
    decreases j - i
  {
    if i == j then count
    else if !Usable(ds[i]) then Counted(ds, i + 1, count, j)
    else Counted(ds, i + 1, (if ds[i].align > 1 then RoundUp(count, ds[i].align) else count) + ds[i].size, j)
  }

  /** A lookup that fails reports bad data if and only if it reaches a descriptor that it
      does not accept with no more than the offset counted. */
  lemma {:induction false} FindFails(ds: seq<Data>, i: nat, count: nat, offset: nat)
    requires i <= |ds| && Find(ds, i, count, offset).Err?
    ensures Find(ds, i, count, offset).error in {ErrData, ErrArgument}
    ensures Find(ds, i, count, offset).error == ErrData <==>
      exists j ::
        && i <= j < |ds| && Unfit(ds[j]) && Counted(ds, i, count, j) <= offset
        && forall k :: i <= k < j ==> !Unfit(ds[k])
    decreases |ds| - i
  {
    if i < |ds| {
      CountedGrows(ds, i, count);
      if count <= offset && !Unfit(ds[i]) {
        var c := if ds[i].align > 1 then RoundUp(count, ds[i].align) else count;
        var next := if Usable(ds[i]) then c + ds[i].size else count;
        if next <= offset || !Usable(ds[i]) {
          FindFails(ds, i + 1, next, offset);
        } else {
          CountedGrows(ds, i + 1, next);
        }
      }
    }
  }

  lemma {:induction false} CountedGrows(ds: seq<Data>, i: nat, count: nat)
    requires i <= |ds|
    ensures forall j :: i <= j <= |ds| ==> count <= Counted(ds, i, count, j)
    decreases |ds| - i
  {
    if i < |ds| {
      var next := if !Usable(ds[i]) then count
                  else (if ds[i].align > 1 then RoundUp(count, ds[i].align) else count) + ds[i].size;
      CountedGrows(ds, i + 1, next);
    }
  }

  // ---- Agreement with the layout ----------------------------------------------

  /** Where the layout puts the descriptors. */
  function Placed(ds: seq<Data>, a: nat): (ps: seq<Data>)
    requires a > 0
    ensures |ps| == |ds| && Apart(ps, Place(ds, a).1)
    ensures forall i :: 0 <= i < |ds| ==> ps[i] == ds[i].(off := ps[i].off)
  {
    PlaceApart(ds, a);
    Place(ds, a).0
  }

  /** Byte descriptors with power-of-two alignments. */
  predicate Bytes(ds: seq<Data>) {
    forall i :: 0 <= i < |ds| ==> ds[i].dtype == TByte && IsPow2(ds[i].align)
  }

  /** The lookup found the usable descriptor, from number i on, that covers the
      offset, or there is none. */
  predicate Located(ps: seq<Data>, i: nat, offset: nat, r: Result<Ptr>) {
    if r.Ok? then
      && i <= r.value.desc < |ps| && Usable(ps[r.value.desc]) && Covers(ps[r.value.desc], offset)
      && r.value.pos == offset - ps[r.value.desc].off
    else forall j :: i <= j < |ps| && Usable(ps[j]) ==> !Covers(ps[j], offset)
  }

  /** Where the last usable descriptor before number i ends. */
  function SeenEnd(ps: seq<Data>, i: nat): nat
    requires i <= |ps|
  {
    if i == 0 then 0
    else if Usable(ps[i - 1]) then ps[i - 1].off + ps[i - 1].size
    else SeenEnd(ps, i - 1)
  }

  /** Descriptor i lies where its own alignment puts it after the last usable one. */
  predicate SteadyAt(ps: seq<Data>, i: nat)
    requires i < |ps|
  {
    Usable(ps[i]) ==> ps[i].align > 0 && RoundUp(SeenEnd(ps, i), ps[i].align) == ps[i].off
  }

  predicate Steady(ps: seq<Data>) { forall i :: 0 <= i < |ps| ==> SteadyAt(ps, i) }

  lemma {:induction false} SeenEndBelow(ps: seq<Data>, size: nat, i: nat, j: nat)
    requires Apart(ps, size) && i <= j < |ps|
    ensures SeenEnd(ps, i) <= ps[j].off
  {
    if i > 0 && !Usable(ps[i - 1]) { SeenEndBelow(ps, size, i - 1, j); }
  }

  lemma {:induction false} SeenEndWithin(ps: seq<Data>, size: nat, i: nat, j: nat)
    requires Apart(ps, size) && j < i <= |ps| && Usable(ps[j])
    ensures ps[j].off + ps[j].size <= SeenEnd(ps, i) <= size
  {
    if !Usable(ps[i - 1]) { SeenEndWithin(ps, size, i - 1, j); }
  }

  lemma {:induction false} RoundUpOne(x: nat)
    ensures RoundUp(x, 1) == x
  {
  }

  /** From descriptor i on, with all that was seen before it counted. */
  lemma {:induction false} FindLocates(ps: seq<Data>, size: nat, offset: nat, i: nat)
    requires Bytes(ps) && Apart(ps, size) && Steady(ps) && i <= |ps|
    ensures Located(ps, i, offset, Find(ps, i, SeenEnd(ps, i), offset))
    decreases |ps| - i
  {
    if i < |ps| {
      var count := SeenEnd(ps, i);
      assert SteadyAt(ps, i);
      RoundUpOne(count);
      if count > offset {
        forall j | i <= j < |ps| ensures !Covers(ps[j], offset) { SeenEndBelow(ps, size, i, j); }
      } else {
        FindLocates(ps, size, offset, i + 1);
      }
    }
  }

  lemma {:induction false} FindReaches(ps: seq<Data>, size: nat, offset: nat, i: nat)
    requires Bytes(ps) && Apart(ps, size) && i <= |ps| && SeenEnd(ps, i) <= offset
    requires forall k :: 0 <= k < i ==> SteadyAt(ps, k)
    ensures Find(ps, 0, 0, offset) == Find(ps, i, SeenEnd(ps, i), offset)
  {
    if i > 0 {
      assert SteadyAt(ps, i - 1);
      SeenEndBelow(ps, size, i - 1, i - 1);
      RoundUpOne(SeenEnd(ps, i - 1));
      FindReaches(ps, size, offset, i - 1);
    }
  }

  lemma {:induction false} FoundFrom(ds: seq<Data>, i: nat, count: nat, offset: nat)
    requires i <= |ds| && Find(ds, i, count, offset).Ok?
    ensures i <= Find(ds, i, count, offset).value.desc < |ds|
    decreases |ds| - i
  {
    var d := ds[i];
    var c := if d.align > 1 then RoundUp(count, d.align) else count;
    if !Usable(d) {
      FoundFrom(ds, i + 1, count, offset);
    } else if offset >= c + d.size {
      FoundFrom(ds, i + 1, c + d.size, offset);
    }
  }

  /** At the first descriptor that lies elsewhere, its first byte is not found. */
  lemma {:induction false} FirstByteMissed(ps: seq<Data>, size: nat, i: nat)
    requires Bytes(ps) && Apart(ps, size) && i < |ps| && !SteadyAt(ps, i)
    requires forall k :: 0 <= k < i ==> SteadyAt(ps, k)
    ensures Usable(ps[i]) && Covers(ps[i], ps[i].off) && !Located(ps, 0, ps[i].off, Find(ps, 0, 0, ps[i].off))
  {
    var offset, count := ps[i].off, SeenEnd(ps, i);
    SeenEndBelow(ps, size, i, i);
    FindReaches(ps, size, offset, i);
    RoundUpOne(count);
    var r := Find(ps, i, count, offset);
    if r.Ok? { FoundFrom(ps, i, count, offset); }
    var c := RoundUp(count, ps[i].align);
    if c + ps[i].size <= offset && r.Ok? { FoundFrom(ps, i + 1, c + ps[i].size, offset); }
  }

  lemma {:induction false} FirstUnsteady(ps: seq<Data>) returns (i: nat)
    requires !Steady(ps)
    ensures i < |ps| && !SteadyAt(ps, i) && forall k :: 0 <= k < i ==> SteadyAt(ps, k)
  {
    i := 0;
    while SteadyAt(ps, i)
      invariant i < |ps| && forall k :: 0 <= k < i ==> SteadyAt(ps, k)
      decreases |ps| - i
    {
      i := i + 1;
    }
  }

  /** The lookup agrees with the layout at every offset if and only if every usable
      descriptor lies where its own alignment puts it after the one before. */
  lemma {:induction false} LookupExactly(ds: seq<Data>, a: nat)
    requires a > 0 && Bytes(ds)
    ensures (forall offset: nat :: Located(Placed(ds, a), 0, offset, Find(ds, 0, 0, offset))) <==> Steady(Placed(ds, a))
  {
    var ps, size := Placed(ds, a), Place(ds, a).1;
    forall offset: nat ensures Find(ds, 0, 0, offset) == Find(ps, 0, 0, offset) { FindPlaced(ds, ps, 0, 0, offset); }
    if Steady(ps) {
      forall offset: nat ensures Located(ps, 0, offset, Find(ds, 0, 0, offset)) { FindLocates(ps, size, offset, 0); }
    } else {
      var i := FirstUnsteady(ps);
      FirstByteMissed(ps, size, i);
      assert !Located(Placed(ds, a), 0, ps[i].off, Find(ds, 0, 0, ps[i].off));
    }
  }

  /** The lookup does not look at the stored offsets. */
  lemma {:induction false} FindPlaced(ds: seq<Data>, ps: seq<Data>, i: nat, count: nat, offset: nat)
    requires |ps| == |ds| && (forall k :: 0 <= k < |ds| ==> ps[k] == ds[k].(off := ps[k].off)) && i <= |ds|
    ensures Find(ds, i, count, offset) == Find(ps, i, count, offset)
    decreases |ds| - i
  {
    if i < |ds| {
      var d := ds[i];
      var c := if d.align > 1 then RoundUp(count, d.align) else count;
      FindPlaced(ds, ps, i + 1, count, offset);
      FindPlaced(ds, ps, i + 1, c + d.size, offset);
    }
  }

  // ---- The whole lookup after a layout ------------------------------------------

  lemma {:induction false} AlignmentBytes(e: Env, shAlign: nat, ds: seq<Data>)
    requires shAlign > 0 && Alignment(e, TByte, shAlign, ds).Ok?
    ensures Bytes(ds)
  {
    if ds != [] {
      AlignmentBytes(e, shAlign, ds[..|ds| - 1]);
      CheckedData(e, TByte, shAlign, ds[|ds| - 1]);
    }
  }

  lemma {:induction false} LaidOutTable(e: Env, s: Section, rc: nat)
    requires !e.layout && s.dirty && s.shType.ShtStrtab? && Extents(e, s, rc).Ok?
    ensures var s' := Extents(e, s, rc).value.0;
            && s'.shType == s.shType && s'.shSize == Field(e.cls, s'.sSize)
            && Bytes(s'.data) && Apart(s'.data, s'.sSize)
  {
    var sa := ShAlign(e, s, TByte);
    var a := Alignment(e, TByte, sa, s.data).value;
    AlignmentPositive(e, TByte, sa, s.data);
    AlignmentBytes(e, sa, s.data);
    PlaceApart(s.data, a);
  }

  /** After the library has laid out a string table, the whole lookup succeeds at
      exactly the offsets that a usable descriptor covers, and points into that
      descriptor's buffer, if and only if every usable descriptor lies where its own
      alignment puts it and ends within the stored size. */
  lemma {:induction false} StringsFound(e: Env, s: Section, rc: nat)
    requires !e.layout && s.dirty && s.shType.ShtStrtab? && Extents(e, s, rc).Ok?
    ensures var s' := Extents(e, s, rc).value.0;
            (forall offset: nat :: Located(s'.data, 0, offset, Lookup(s', offset))) <==>
            Steady(s'.data) && SeenEnd(s'.data, |s'.data|) <= s'.shSize
  {
    var s' := Extents(e, s, rc).value.0;
    LaidOutTable(e, s, rc);
    TableFound(s', s'.sSize);
  }

  lemma {:induction false} TableFound(s: Section, size: nat)
    requires s.shType.ShtStrtab? && Bytes(s.data) && Apart(s.data, size)
    ensures (forall offset: nat :: Located(s.data, 0, offset, Lookup(s, offset))) <==>
            Steady(s.data) && SeenEnd(s.data, |s.data|) <= s.shSize
  {
    var ps := s.data;
    if !Steady(ps) {
      var i := FirstUnsteady(ps);
      FirstByteMissed(ps, size, i);
      assert !Located(ps, 0, ps[i].off, Lookup(s, ps[i].off));
    } else if SeenEnd(ps, |ps|) > s.shSize {
      var i := LastUsable(ps, |ps|);
      assert !Located(ps, 0, SeenEnd(ps, |ps|) - 1, Lookup(s, SeenEnd(ps, |ps|) - 1));
    } else {
      forall offset: nat ensures Located(ps, 0, offset, Lookup(s, offset)) {
        FindLocates(ps, size, offset, 0);
        forall j | 0 <= j < |ps| && Usable(ps[j]) ensures Covers(ps[j], offset) ==> offset < s.shSize {
          SeenEndWithin(ps, size, |ps|, j);
        }
      }
    }
  }

  lemma {:induction false} LastUsable(ps: seq<Data>, i: nat) returns (j: nat)
    requires i <= |ps| && SeenEnd(ps, i) > 0
    ensures j < i && Usable(ps[j]) && ps[j].off + ps[j].size == SeenEnd(ps, i)
  {
    if Usable(ps[i - 1]) { j := i - 1; } else { j := LastUsable(ps, i - 1); }
  }

  // ---- When the condition holds -------------------------------------------------

  /** The layout of a prefix is a prefix of the layout. */
  lemma {:induction false} PlacePrefix(ds: seq<Data>, a: nat, i: nat)
    requires a > 0 && i < |ds|
    ensures Placed(ds, a)[i].off == RoundUp(Place(ds[..i], a).1, a)
    ensures Place(ds[..i + 1], a).1 == Placed(ds, a)[i].off + ds[i].size
    decreases |ds|
  {
    PlaceApart(ds, a);
    if i == |ds| - 1 {
      assert ds[..i + 1] == ds;
    } else {
      var init := ds[..|ds| - 1];
      PlacePrefix(init, a, i);
      assert init[..i] == ds[..i] && init[..i + 1] == ds[..i + 1];
    }
  }

  lemma {:induction false} RoundUpTwice(x: nat, a: nat)
    requires a > 0
    ensures RoundUp(RoundUp(x, a), a) == RoundUp(x, a)
  {
    RoundUpLeast(RoundUp(x, a), a, RoundUp(x, a));
  }

  /** With buffers for all descriptors that are not empty, only the last usable one
      matters for where the next one is placed. */
  lemma {:induction false} PlacedAfter(ds: seq<Data>, a: nat, i: nat)
    requires a > 0 && i <= |ds| && forall k :: 0 <= k < |ds| && ds[k].size > 0 ==> ds[k].buf.Some?
    ensures RoundUp(SeenEnd(Placed(ds, a), i), a) == RoundUp(Place(ds[..i], a).1, a)
  {
    if i > 0 {
      var k, ps := i - 1, Placed(ds, a);
      PlacePrefix(ds, a, k);
      assert Place(ds[..i], a).1 == ps[k].off + ps[k].size;
      if !Usable(ps[k]) {
        PlacedAfter(ds, a, k);
        RoundUpTwice(Place(ds[..k], a).1, a);
      }
    }
  }

  /** With buffers for all descriptors, the condition compares two ways to round up
      the end of the last non-empty descriptor: by the next one's own alignment,
      and by the section's. */
  lemma {:induction false} SteadyExactly(ds: seq<Data>, a: nat)
    requires a > 0 && Bytes(ds) && forall k :: 0 <= k < |ds| ==> ds[k].buf.Some?
    ensures Steady(Placed(ds, a)) <==> forall i :: 0 <= i < |ds| && ds[i].size > 0 ==>
      var end := SeenEnd(Placed(ds, a), i); RoundUp(end, ds[i].align) == RoundUp(end, a)
  {
    var ps := Placed(ds, a);
    forall i | 0 <= i < |ds|
      ensures SteadyAt(ps, i) <==>
        (ds[i].size > 0 ==> RoundUp(SeenEnd(ps, i), ds[i].align) == RoundUp(SeenEnd(ps, i), a))
    {
      PlacedAfter(ds, a, i);
      PlacePrefix(ds, a, i);
      Pow2Positive(ds[i].align);
    }
  }

  lemma {:induction false} Pow2Positive(n: nat)
    requires IsPow2(n)
    ensures n > 0
  {
  }

  /** With different alignments the two can disagree: the layout uses the largest
      alignment for every descriptor, the lookup each descriptor's own. */
  lemma {:induction false} MixedAlignments() returns (ds: seq<Data>)
    ensures |ds| == 2 && Bytes(ds) && (forall i :: 0 <= i < 2 ==> ds[i].buf.Some?)
    ensures Alignment(Env(Class64, 1, false), TByte, 1, ds) == Ok(4)
    ensures Covers(Placed(ds, 4)[1], 4) && Find(ds, 0, 0, 4) == Ok(Ptr(1, 3)) && Placed(ds, 4)[1].off == 4
  {
    var d0, d1 := Data(TByte, 1, 4, 1, 0, Some(0)), Data(TByte, 1, 1, 8, 0, Some(0));
    ds := [d0, d1];
    var e := Env(Class64, 1, false);
    OneDivides(4);
    OneDivides(1);
    assert ds[..1] == [d0] && [d0][..0] == [];
    assert Alignment(e, TByte, 1, [d0]) == Ok(4) by { assert CheckData(e, TByte, 1, d0).None?; }
    assert Place([d0], 4).1 == 1;
    PlacePrefix(ds, 4, 1);
    assert Find(ds, 1, 1, 4) == Ok(Ptr(1, 3));
  }
}
