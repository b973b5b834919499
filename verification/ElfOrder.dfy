/** The order of the section list: what the pass that sorts it does to it, as a
    function on lists, and when the result is in order. */
module ElfOrder {
  import opened ElfTypes
  import opened ElfLayout
  import opened Stailq

  /** The largest section end, or rc. */
  function MaxEnd(ss: seq<Section>, rc: nat): nat {
    if ss == [] then rc
    else var m := MaxEnd(ss[..|ss| - 1], rc);
         if Skipped(ss[|ss| - 1]) then m else Max(m, End(ss[|ss| - 1]))
  }

  /** Among the first p sections, those with space in the file are ascending and disjoint. */
  predicate Ascending(vs: seq<Section>, p: nat)
    requires p <= |vs|
  {
    forall i, j :: 0 <= i < j < p && !Skipped(vs[i]) && !Skipped(vs[j]) ==> End(vs[i]) <= vs[j].sOffset
  }

  /** Sections without space in the file come before all others by their offsets. */
  predicate Harmless(vs: seq<Section>) {
    forall i, j :: 0 <= i < |vs| && 0 <= j < |vs| && Skipped(vs[i]) && !Skipped(vs[j]) ==> End(vs[i]) < vs[j].sOffset
  }

  predicate StrictlyApart(a: Section, b: Section) {
    End(a) < b.sOffset || End(b) < a.sOffset
  }

  /** No two sections with space in the file touch, and none straddles rc. */
  predicate Separated(vs: seq<Section>, rc: nat) {
    && (forall i, j :: 0 <= i < |vs| && 0 <= j < |vs| && i != j && !Skipped(vs[i]) && !Skipped(vs[j]) ==>
          StrictlyApart(vs[i], vs[j]))
    && (forall i :: 0 <= i < |vs| && !Skipped(vs[i]) ==> rc <= vs[i].sOffset || End(vs[i]) < rc)
  }

  /** What the second pass has established for the first p sections. */
  predicate Good(vs: seq<Section>, p: nat, rc0: nat, rc: nat) {
    && p <= |vs| && rc0 <= rc
    && (Harmless(vs) ==> Ascending(vs, p))
    && (forall i :: 0 <= i < p && !Skipped(vs[i]) ==> End(vs[i]) <= rc)
    && (rc == rc0 || exists i :: 0 <= i < p && !Skipped(vs[i]) && End(vs[i]) == rc)
  }

  /** The sections are already ascending and start at or after rc. */
  predicate InOrder(vs: seq<Section>, rc: nat) {
    && Ascending(vs, |vs|)
    && forall i :: 0 <= i < |vs| && !Skipped(vs[i]) ==> rc <= vs[i].sOffset
  }

  /** Where the insertion walk stops: everything before j ends before s starts. */
  predicate StopsAt(vs: seq<Section>, s: Section, j: nat) {
    && j <= |vs|
    && (forall i :: 0 <= i < j ==> End(vs[i]) < s.sOffset)
    && (j < |vs| ==> End(vs[j]) >= s.sOffset)
  }

  /** The list with element p moved to index j. */
  function Move(vs: seq<Section>, p: nat, j: nat): (ws: seq<Section>)
    requires p < |vs| && j < |vs|
    ensures |ws| == |vs|
  {
    Inserted(Removed(vs, p), j, vs[p])
  }

  lemma {:induction false} MovedBack(n: nat, p: nat, j: nat, i: nat)
    requires p < n && j < n && i < n
    ensures Moved(n, p, j, Moved(n, j, p, i)) == i
  {
  }

  lemma {:induction false} MoveOrigin(vs: seq<Section>, p: nat, j: nat, i: nat)
    requires p < |vs| && j < |vs| && i < |vs|
    ensures Move(vs, p, j)[i] == vs[Moved(|vs|, j, p, i)]
    ensures Move(vs, p, j)[Moved(|vs|, p, j, i)] == vs[i]
  {
    MovedBack(|vs|, p, j, i);
  }

  lemma {:induction false} HarmlessMoved(vs: seq<Section>, p: nat, j: nat)
    requires p < |vs| && j < |vs|
    ensures Harmless(Move(vs, p, j)) <==> Harmless(vs)
  {
    var ws := Move(vs, p, j);
    if Harmless(ws) {
      forall a, b | 0 <= a < |vs| && 0 <= b < |vs| && Skipped(vs[a]) && !Skipped(vs[b])
        ensures End(vs[a]) < vs[b].sOffset
      {
        MoveOrigin(vs, p, j, a);
        MoveOrigin(vs, p, j, b);
      }
    }
    if Harmless(vs) {
      forall a, b | 0 <= a < |ws| && 0 <= b < |ws| && Skipped(ws[a]) && !Skipped(ws[b])
        ensures End(ws[a]) < ws[b].sOffset
      {
        MoveOrigin(vs, p, j, a);
        MoveOrigin(vs, p, j, b);
      }
    }
  }

  lemma {:induction false} SeparatedMoved(vs: seq<Section>, p: nat, j: nat, rc: nat)
    requires p < |vs| && j < |vs| && Separated(vs, rc)
    ensures Separated(Move(vs, p, j), rc)
  {
    var ws := Move(vs, p, j);
    forall a, b | 0 <= a < |ws| && 0 <= b < |ws| && a != b && !Skipped(ws[a]) && !Skipped(ws[b])
      ensures StrictlyApart(ws[a], ws[b])
    {
      MoveOrigin(vs, p, j, a);
      MoveOrigin(vs, p, j, b);
      MovedBack(|vs|, p, j, a);
      MovedBack(|vs|, p, j, b);
    }
    forall a | 0 <= a < |ws| && !Skipped(ws[a]) ensures rc <= ws[a].sOffset || End(ws[a]) < rc {
      MoveOrigin(vs, p, j, a);
    }
  }

  /** The new index of element i when element p is moved to index j. */
  function Moved(n: nat, p: nat, j: nat, i: nat): (r: nat)
    requires p < n && j < n && i < n
    ensures r < n
  {
    if i == p then j
    else var k := if i < p then i else i - 1; if k < j then k else k + 1
  }

  /** The next section starts after everything seen: the walk moves on. */
  lemma {:induction false} GoodAppend(vs: seq<Section>, p: nat, rc0: nat, rc: nat)
    requires Good(vs, p, rc0, rc) && p < |vs| && !Skipped(vs[p]) && rc <= vs[p].sOffset
    ensures Good(vs, p + 1, rc0, End(vs[p]))
  {
  }

  lemma {:induction false} GoodSkip(vs: seq<Section>, p: nat, rc0: nat, rc: nat)
    requires Good(vs, p, rc0, rc) && p < |vs| && Skipped(vs[p])
    ensures Good(vs, p + 1, rc0, rc)
  {
  }

  /** The next section belongs among those already seen. */
  lemma {:induction false} GoodInsert(vs: seq<Section>, p: nat, rc0: nat, rc: nat, j: nat)
    requires Good(vs, p, rc0, rc) && p < |vs| && !Skipped(vs[p]) && End(vs[p]) < rc
    requires StopsAt(Removed(vs, p), vs[p], j) && j <= p
    requires j < |vs| - 1 ==> End(vs[p]) < Removed(vs, p)[j].sOffset
    ensures Good(Move(vs, p, j), p + 1, rc0, rc)
  {
    var s := vs[p];
    var rs := Removed(vs, p);
    var ws := Move(vs, p, j);
    HarmlessMoved(vs, p, j);
    assert forall i :: 0 <= i < p ==> rs[i] == vs[i];
    if Harmless(ws) {
      forall a, b | 0 <= a < b < p + 1 && !Skipped(ws[a]) && !Skipped(ws[b])
        ensures End(ws[a]) <= ws[b].sOffset
      {
        if a == j {
          InsertBefore(vs, p, j, b - 1);
        }
      }
    }
    GoodEnds(vs, p, rc0, rc, j);
  }

  lemma {:induction false} InsertBefore(vs: seq<Section>, p: nat, j: nat, b: nat)
    requires p < |vs| && j <= b < p && !Skipped(vs[p]) && !Skipped(vs[b])
    requires Harmless(vs) && Ascending(vs, p)
    requires StopsAt(Removed(vs, p), vs[p], j) && End(vs[p]) < Removed(vs, p)[j].sOffset
    ensures End(vs[p]) <= vs[b].sOffset
  {
    assert Removed(vs, p)[j] == vs[j];
    assert !Skipped(vs[j]);
  }

  lemma {:induction false} GoodEnds(vs: seq<Section>, p: nat, rc0: nat, rc: nat, j: nat)
    requires Good(vs, p, rc0, rc) && p < |vs| && j <= p && End(vs[p]) < rc
    ensures var ws := Move(vs, p, j);
            && (forall i :: 0 <= i < p + 1 && !Skipped(ws[i]) ==> End(ws[i]) <= rc)
            && (rc == rc0 || exists i :: 0 <= i < p + 1 && !Skipped(ws[i]) && End(ws[i]) == rc)
  {
    var ws := Move(vs, p, j);
    if rc != rc0 {
      var i :| 0 <= i < p && !Skipped(vs[i]) && End(vs[i]) == rc;
      assert ws[if i < j then i else i + 1] == vs[i];
    }
  }

  // ---- Termination ----------------------------------------------------------

  /** How many sections after s end before s starts. */
  function Earlier(s: Section, vs: seq<Section>): nat {
    if vs == [] then 0 else (if End(vs[0]) < s.sOffset then 1 else 0) + Earlier(s, vs[1..])
  }

  /** Pairs of sections in the wrong order. */
  function Inversions(vs: seq<Section>): nat {
    if vs == [] then 0 else Earlier(vs[0], vs[1..]) + Inversions(vs[1..])
  }

  lemma {:induction false} EarlierInserted(t: Section, vs: seq<Section>, m: nat, s: Section)
    requires m <= |vs|
    ensures Earlier(t, Inserted(vs, m, s)) == Earlier(t, vs) + (if End(s) < t.sOffset then 1 else 0)
  {
    if m == 0 {
      assert Inserted(vs, m, s)[1..] == vs;
    } else {
      EarlierInserted(t, vs[1..], m - 1, s);
      assert Inserted(vs, m, s)[1..] == Inserted(vs[1..], m - 1, s);
    }
  }

  /** Moving the first section behind m earlier ones removes m inversions. */
  lemma {:induction false} JumpInversions(s: Section, vs: seq<Section>, m: nat)
    requires m <= |vs| && forall i :: 0 <= i < m ==> End(vs[i]) < s.sOffset
    ensures Inversions(Inserted(vs, m, s)) + m == Earlier(s, vs) + Inversions(vs)
  {
    var ws := Inserted(vs, m, s);
    if m == 0 {
      assert ws[1..] == vs;
    } else {
      JumpInversions(s, vs[1..], m - 1);
      EarlierInserted(vs[0], vs[1..], m - 1, s);
      assert ws[1..] == Inserted(vs[1..], m - 1, s);
    }
  }

  /** Moving element p ahead to j > p, in the whole list. */
  lemma {:induction false} JumpAhead(vs: seq<Section>, p: nat, j: nat)
    requires p < j < |vs| && StopsAt(Removed(vs, p), vs[p], j)
    ensures var ws := Move(vs, p, j);
            Inversions(ws[p..]) < Inversions(vs[p..]) && ws[..p] == vs[..p]
  {
    var rest := vs[p + 1..];
    assert forall i :: 0 <= i < j - p ==> rest[i] == Removed(vs, p)[p + i];
    JumpInversions(vs[p], rest, j - p);
    MoveTail(vs, p, j);
  }

  lemma {:induction false} MoveTail(vs: seq<Section>, p: nat, j: nat)
    requires p < j < |vs|
    ensures Move(vs, p, j)[..p] == vs[..p] && Move(vs, p, j)[p..] == Inserted(vs[p + 1..], j - p, vs[p])
    ensures vs[p..][1..] == vs[p + 1..]
  {
  }

  lemma {:induction false} GoodJump(vs: seq<Section>, ws: seq<Section>, p: nat, rc0: nat, rc: nat)
    requires Good(vs, p, rc0, rc) && |ws| == |vs| && ws[..p] == vs[..p] && (Harmless(ws) ==> Harmless(vs))
    ensures Good(ws, p, rc0, rc)
  {
    assert forall i :: 0 <= i < p ==> ws[i] == vs[i] by {
      assert forall i :: 0 <= i < p ==> ws[..p][i] == vs[..p][i];
    }
  }

  lemma {:induction false} MultisetInserted<T>(s: seq<T>, k: nat, x: T)
    requires k <= |s|
    ensures multiset(Inserted(s, k, x)) == multiset(s) + multiset{x}
  {
    assert s == s[..k] + s[k..];
  }

  lemma {:induction false} MultisetRemoved<T>(s: seq<T>, k: nat)
    requires k < |s|
    ensures multiset(s) == multiset(Removed(s, k)) + multiset{s[k]}
  {
    assert s == s[..k] + [s[k]] + s[k + 1..];
  }

  lemma {:induction false} MultisetMoved<T>(s: seq<T>, p: nat, j: nat)
    requires p < |s| && j < |s|
    ensures multiset(Inserted(Removed(s, p), j, s[p])) == multiset(s)
  {
    MultisetRemoved(s, p);
    MultisetInserted(Removed(s, p), j, s[p]);
  }

  /** A clash found by the second pass is a real one. */
  lemma {:induction false} ClashIsReal(vs: seq<Section>, p: nat, rc0: nat, rc: nat, j: nat)
    requires Good(vs, p, rc0, rc) && p < |vs| && !Skipped(vs[p]) && vs[p].sOffset < rc
    requires End(vs[p]) >= rc ||
             (StopsAt(Removed(vs, p), vs[p], j) && j < |vs| - 1 && End(vs[p]) >= Removed(vs, p)[j].sOffset)
    ensures !(Harmless(vs) && Separated(vs, rc0))
  {
    if End(vs[p]) >= rc {
      assert rc != rc0 ==>
        exists i :: 0 <= i < p && !Skipped(vs[i]) && End(vs[i]) == rc && !StrictlyApart(vs[i], vs[p]);
    } else {
      var k := if j < p then j else j + 1;
      assert Removed(vs, p)[j] == vs[k];
      assert !Skipped(vs[k]) ==> !StrictlyApart(vs[k], vs[p]);
    }
  }

  /** Where the walk continues after section p was moved to j. */
  function NextPos(p: nat, j: nat): nat { if j <= p then p + 1 else p }

  lemma {:induction false} MoveStep(vs: seq<Section>, p: nat, rc0: nat, rc: nat, j: nat)
    requires Good(vs, p, rc0, rc) && p < |vs| && j < |vs| && !Skipped(vs[p]) && End(vs[p]) < rc
    requires StopsAt(Removed(vs, p), vs[p], j) && (j < |vs| - 1 ==> End(vs[p]) < Removed(vs, p)[j].sOffset)
    ensures var ws := Move(vs, p, j);
            && Good(ws, NextPos(p, j), rc0, rc) && (Harmless(ws) <==> Harmless(vs))
            && (Separated(vs, rc0) ==> Separated(ws, rc0)) && multiset(ws) == multiset(vs)
            && (j > p ==> Inversions(ws[p..]) < Inversions(vs[p..]))
  {
    HarmlessMoved(vs, p, j);
    if Separated(vs, rc0) { SeparatedMoved(vs, p, j, rc0); }
    MultisetRemoved(vs, p);
    MultisetInserted(Removed(vs, p), j, vs[p]);
    if j <= p {
      GoodInsert(vs, p, rc0, rc, j);
    } else {
      JumpAhead(vs, p, j);
      GoodJump(vs, Move(vs, p, j), p, rc0, rc);
    }
  }

  /** The second pass, started on us, has reached position p of vs and end rc. */
  ghost predicate PassInv(us: seq<Section>, vs: seq<Section>, p: nat, rc0: nat, rc: nat) {
    && Good(vs, p, rc0, rc)
    && multiset(vs) == multiset(us) && |vs| == |us|
    && (Harmless(us) ==> Harmless(vs)) && (Separated(us, rc0) ==> Separated(vs, rc0))
    && (InOrder(us, rc0) ==> vs == us)
  }

  lemma {:induction false} PassStay(us: seq<Section>, vs: seq<Section>, p: nat, rc0: nat, rc: nat)
    requires PassInv(us, vs, p, rc0, rc) && p < |vs| && (Skipped(vs[p]) || rc <= vs[p].sOffset)
    ensures PassInv(us, vs, p + 1, rc0, if Skipped(vs[p]) then rc else End(vs[p]))
  {
    if Skipped(vs[p]) { GoodSkip(vs, p, rc0, rc); } else { GoodAppend(vs, p, rc0, rc); }
  }

  /** In a list that is in order the walk never finds a section to move. */
  lemma {:induction false} InOrderStays(us: seq<Section>, vs: seq<Section>, p: nat, rc0: nat, rc: nat)
    requires PassInv(us, vs, p, rc0, rc) && p < |vs| && !Skipped(vs[p]) && vs[p].sOffset < rc
    ensures !InOrder(us, rc0)
  {
  }

  lemma {:induction false} PassMove(us: seq<Section>, vs: seq<Section>, p: nat, rc0: nat, rc: nat, j: nat)
    requires PassInv(us, vs, p, rc0, rc)
    requires p < |vs| && j < |vs| && !Skipped(vs[p]) && vs[p].sOffset < rc && End(vs[p]) < rc
    requires StopsAt(Removed(vs, p), vs[p], j) && (j < |vs| - 1 ==> End(vs[p]) < Removed(vs, p)[j].sOffset)
    ensures PassInv(us, Move(vs, p, j), NextPos(p, j), rc0, rc)
    ensures j > p ==> Inversions(Move(vs, p, j)[p..]) < Inversions(vs[p..])
  {
    InOrderStays(us, vs, p, rc0, rc);
    MoveStep(vs, p, rc0, rc, j);
  }

  lemma {:induction false} MaxEndIs(vs: seq<Section>, rc0: nat, m: nat)
    requires rc0 <= m && forall i :: 0 <= i < |vs| && !Skipped(vs[i]) ==> End(vs[i]) <= m
    ensures MaxEnd(vs, rc0) <= m
    ensures m == rc0 || (exists i :: 0 <= i < |vs| && !Skipped(vs[i]) && End(vs[i]) == m) ==> MaxEnd(vs, rc0) == m
  {
    if vs != [] { MaxEndIs(vs[..|vs| - 1], rc0, m); }
    MaxEndFloor(vs, rc0);
  }

  lemma {:induction false} MaxEndFloor(vs: seq<Section>, rc0: nat)
    ensures MaxEnd(vs, rc0) >= rc0
    ensures forall i :: 0 <= i < |vs| && !Skipped(vs[i]) ==> End(vs[i]) <= MaxEnd(vs, rc0)
  {
    if vs != [] { MaxEndFloor(vs[..|vs| - 1], rc0); }
  }

  /** The final position of the second pass is the largest end of all sections. */
  lemma {:induction false} GoodIsMaxEnd(us: seq<Section>, vs: seq<Section>, rc0: nat, rc: nat)
    requires Good(vs, |vs|, rc0, rc) && multiset(us) == multiset(vs)
    ensures MaxEnd(us, rc0) == rc
  {
    forall i | 0 <= i < |us| && !Skipped(us[i]) ensures End(us[i]) <= rc {
      assert us[i] in multiset(us);
      assert us[i] in vs;
    }
    if rc != rc0 {
      var i :| 0 <= i < |vs| && !Skipped(vs[i]) && End(vs[i]) == rc;
      assert vs[i] in multiset(vs);
      assert vs[i] in us;
    }
    MaxEndIs(us, rc0, rc);
  }

  lemma {:induction false} PassDone(us: seq<Section>, vs: seq<Section>, rc0: nat, rc: nat)
    requires PassInv(us, vs, |vs|, rc0, rc)
    ensures multiset(vs) == multiset(us) && (Harmless(us) ==> Ascending(vs, |vs|)) && rc == MaxEnd(us, rc0)
    ensures InOrder(us, rc0) ==> vs == us
  {
    GoodIsMaxEnd(us, vs, rc0, rc);
  }

  // ---- The pass as a function -------------------------------------------------

  /** The list, the index of the section to look at next and the end reached. */
  datatype Pos = Pos(list: seq<Section>, at: nat, end: nat)

  function StopFrom(vs: seq<Section>, s: Section, i: nat): (j: nat)
    requires i <= |vs| && forall k :: 0 <= k < i ==> End(vs[k]) < s.sOffset
    ensures StopsAt(vs, s, j)
    decreases |vs| - i
  {
    if i < |vs| && End(vs[i]) < s.sOffset then StopFrom(vs, s, i + 1) else i
  }

  /** Where the insertion walk stops. */
  function StopIndex(vs: seq<Section>, s: Section): (j: nat)
    ensures StopsAt(vs, s, j)
  {
    StopFrom(vs, s, 0)
  }

  lemma {:induction false} StopUnique(vs: seq<Section>, s: Section, j: nat)
    requires StopsAt(vs, s, j)
    ensures j == StopIndex(vs, s)
  {
  }

  /** One iteration of the pass. */
  function Advance(x: Pos): Result<Pos>
    requires x.at < |x.list|
  {
    var s := x.list[x.at];
    if Skipped(s) then Ok(x.(at := x.at + 1))
    else if x.end <= s.sOffset then Ok(x.(at := x.at + 1, end := End(s)))
    else if End(s) >= x.end then Err(ErrLayout)
    else
      var rs := Removed(x.list, x.at);
      var j := StopIndex(rs, s);
      if j < |rs| && End(s) >= rs[j].sOffset then Err(ErrLayout)
      else Ok(Pos(Move(x.list, x.at, j), NextPos(x.at, j), x.end))
  }

  lemma {:induction false} AdvanceEnds(x: Pos)
    requires x.at < |x.list| && Advance(x).Ok?
    ensures var y := Advance(x).value;
            && |y.list| == |x.list| && y.at <= |y.list|
            && (x.at < y.at || (x.at == y.at && Inversions(y.list[y.at..]) < Inversions(x.list[x.at..])))
  {
    var s := x.list[x.at];
    if !Skipped(s) && s.sOffset < x.end {
      var j := StopIndex(Removed(x.list, x.at), s);
      if j > x.at { JumpAhead(x.list, x.at, j); }
    }
  }

  /** The rest of the pass, after n visits. */
  function Walk(x: Pos, n: nat): Result<(Pos, nat)>
    requires x.at <= |x.list|
    decreases |x.list| - x.at, Inversions(x.list[x.at..])
  {
    if x.at == |x.list| then Ok((x, n))
    else match Advance(x)
         case Err(e) => Err(e)
         case Ok(y) =>
           AdvanceEnds(x);
           Walk(y, n + 1)
  }

  lemma {:induction false} AdvanceIs(x: Pos)
    requires x.at < |x.list| && Advance(x).Ok?
    ensures var s := x.list[x.at];
            if Skipped(s) || x.end <= s.sOffset then
              Advance(x).value == x.(at := x.at + 1, end := if Skipped(s) then x.end else End(s))
            else
              var rs := Removed(x.list, x.at);
              var j := StopIndex(rs, s);
              && End(s) < x.end && (j < |rs| ==> End(s) < rs[j].sOffset)
              && (j <= x.at ==> Advance(x).value == Pos(Move(x.list, x.at, j), x.at + 1, x.end))
  {
  }

  lemma {:induction false} WalkNext(x: Pos, n: nat)
    requires x.at < |x.list| && Walk(x, n).Ok?
    ensures Advance(x).Ok? && Advance(x).value.at <= |Advance(x).value.list|
    ensures Walk(x, n) == Walk(Advance(x).value, n + 1)
  {
    if Advance(x).Ok? { AdvanceEnds(x); }
  }

  lemma {:induction false} AdvanceInv(us: seq<Section>, x: Pos, rc0: nat)
    requires PassInv(us, x.list, x.at, rc0, x.end) && x.at < |x.list|
    ensures if Advance(x).Ok? then var y := Advance(x).value; PassInv(us, y.list, y.at, rc0, y.end)
            else !(Harmless(us) && Separated(us, rc0)) && !InOrder(us, rc0)
    ensures InOrder(us, rc0) ==> Skipped(x.list[x.at]) || x.end <= x.list[x.at].sOffset
  {
    var s := x.list[x.at];
    if Skipped(s) || x.end <= s.sOffset {
      PassStay(us, x.list, x.at, rc0, x.end);
    } else {
      var j := StopIndex(Removed(x.list, x.at), s);
      InOrderStays(us, x.list, x.at, rc0, x.end);
      if Advance(x).Ok? {
        PassMove(us, x.list, x.at, rc0, x.end, j);
      } else {
        ClashIsReal(x.list, x.at, rc0, x.end, j);
      }
    }
  }

  /** On success the result is a permutation, in order if no section without space
      in the file is in the way, and the position is the largest section end. */
  lemma {:induction false} WalkInv(us: seq<Section>, x: Pos, n: nat, rc0: nat)
    requires PassInv(us, x.list, x.at, rc0, x.end)
    ensures var w := Walk(x, n);
            if w.Ok? then
              w.value.0.at == |w.value.0.list| && PassInv(us, w.value.0.list, w.value.0.at, rc0, w.value.0.end)
            else !(Harmless(us) && Separated(us, rc0)) && !InOrder(us, rc0)
    decreases |x.list| - x.at, Inversions(x.list[x.at..])
  {
    if x.at < |x.list| {
      AdvanceInv(us, x, rc0);
      if Advance(x).Ok? {
        AdvanceEnds(x);
        WalkInv(us, Advance(x).value, n + 1, rc0);
      }
    }
  }

  // ---- How often a section is visited -----------------------------------------

  /** Section p of the list is moved ahead of the walk: it ends before the headers
      do, and the sections before it and the next one all end before it starts. */
  predicate JumpsAt(us: seq<Section>, p: nat, rc0: nat) {
    && p + 1 < |us| && !Skipped(us[p]) && End(us[p]) < rc0 && End(us[p + 1]) < us[p].sOffset
    && forall i :: 0 <= i < p ==> End(us[i]) < us[p].sOffset
  }

  /** No section has been moved ahead so far: those visited are the first ones of us
      in some order, and the rest is as it was. */
  ghost predicate NoJump(us: seq<Section>, x: Pos, rc0: nat) {
    Good(x.list, x.at, rc0, x.end) && SameSoFar(us, x.list, x.at)
  }

  ghost predicate SameSoFar(us: seq<Section>, vs: seq<Section>, p: nat) {
    p <= |vs| == |us| && multiset(vs[..p]) == multiset(us[..p]) && vs[p..] == us[p..]
  }

  lemma {:induction false} Among(s: seq<Section>, t: seq<Section>, i: nat) returns (k: nat)
    requires multiset(s) == multiset(t) && i < |s|
    ensures k < |t| && t[k] == s[i]
  {
    assert s[i] in multiset(t);
    k :| 0 <= k < |t| && t[k] == s[i];
  }

  /** While the walk is still before everything it has kept, it is at the headers. */
  lemma {:induction false} StillAtHeaders(x: Pos, rc0: nat, m: nat)
    requires Good(x.list, x.at, rc0, x.end) && m <= rc0
    requires forall i :: 0 <= i < x.at ==> End(x.list[i]) < m
    ensures x.end == rc0
  {
  }

  lemma {:induction false} VisitedEnds(us: seq<Section>, x: Pos, rc0: nat, m: nat)
    requires NoJump(us, x, rc0)
    ensures (forall i :: 0 <= i < x.at ==> End(us[i]) < m) <==> (forall i :: 0 <= i < x.at ==> End(x.list[i]) < m)
  {
    var s, t := us[..x.at], x.list[..x.at];
    if forall i :: 0 <= i < x.at ==> End(us[i]) < m {
      forall i | 0 <= i < x.at ensures End(x.list[i]) < m { var k := Among(t, s, i); }
    }
    if forall i :: 0 <= i < x.at ==> End(x.list[i]) < m {
      forall i | 0 <= i < x.at ensures End(us[i]) < m { var k := Among(s, t, i); }
    }
  }

  lemma {:induction false} JumpExactly(us: seq<Section>, x: Pos, rc0: nat)
    requires NoJump(us, x, rc0) && x.at < |x.list| && Advance(x).Ok?
    ensures Advance(x).value.at == x.at <==> JumpsAt(us, x.at, rc0)
  {
    var p, s := x.at, x.list[x.at];
    var rs := Removed(x.list, p);
    assert s == x.list[p..][0] == us[p..][0] == us[p];
    if p + 1 < |us| { assert rs[p] == x.list[p + 1] == x.list[p..][1] == us[p..][1] == us[p + 1]; }
    assert forall i :: 0 <= i < p ==> rs[i] == x.list[i];
    VisitedEnds(us, x, rc0, s.sOffset);
    if JumpsAt(us, p, rc0) { StillAtHeaders(x, rc0, s.sOffset); }
  }

  lemma {:induction false} SameStay(us: seq<Section>, vs: seq<Section>, p: nat)
    requires SameSoFar(us, vs, p) && p < |us|
    ensures us[p] == vs[p] && SameSoFar(us, vs, p + 1)
  {
    assert us[p] == us[p..][0] && vs[p] == vs[p..][0];
    assert us[..p + 1] == us[..p] + [us[p]] && vs[..p + 1] == vs[..p] + [vs[p]];
    assert us[p + 1..] == us[p..][1..] && vs[p + 1..] == vs[p..][1..];
  }

  lemma {:induction false} SameMove(us: seq<Section>, vs: seq<Section>, p: nat, j: nat)
    requires SameSoFar(us, vs, p) && p < |us| && j <= p
    ensures SameSoFar(us, Move(vs, p, j), p + 1)
  {
    SameStay(us, vs, p);
    MovePrefix(vs, p, j);
    assert vs[..p + 1] == vs[..p] + [vs[p]];
    assert us[p + 1..] == vs[p + 1..] == vs[p..][1..];
  }

  lemma {:induction false} NoJumpStep(us: seq<Section>, x: Pos, rc0: nat)
    requires NoJump(us, x, rc0) && x.at < |x.list| && Advance(x).Ok? && Advance(x).value.at == x.at + 1
    ensures NoJump(us, Advance(x).value, rc0)
  {
    var p, s := x.at, x.list[x.at];
    AdvanceIs(x);
    if Skipped(s) || x.end <= s.sOffset {
      SameStay(us, x.list, p);
      if Skipped(s) { GoodSkip(x.list, p, rc0, x.end); } else { GoodAppend(x.list, p, rc0, x.end); }
    } else {
      var j := StopIndex(Removed(x.list, p), s);
      GoodInsert(x.list, p, rc0, x.end, j);
      SameMove(us, x.list, p, j);
    }
  }

  lemma {:induction false} MovePrefix(vs: seq<Section>, p: nat, j: nat)
    requires p < |vs| && j <= p
    ensures Move(vs, p, j)[p + 1..] == vs[p..][1..]
    ensures multiset(Move(vs, p, j)[..p + 1]) == multiset(vs[..p]) + multiset{vs[p]}
  {
    assert Move(vs, p, j)[..p + 1] == Inserted(vs[..p], j, vs[p]);
    MultisetInserted(vs[..p], j, vs[p]);
  }

  lemma {:induction false} VisitedAtLeastOnce(x: Pos, n: nat)
    requires x.at <= |x.list| && Walk(x, n).Ok?
    ensures Walk(x, n).value.1 >= n + |x.list| - x.at
    decreases |x.list| - x.at, Inversions(x.list[x.at..])
  {
    if x.at < |x.list| {
      WalkNext(x, n);
      AdvanceEnds(x);
      AdvanceByOne(x);
      VisitedAtLeastOnce(Advance(x).value, n + 1);
    }
  }

  lemma {:induction false} AdvanceByOne(x: Pos)
    requires x.at < |x.list| && Advance(x).Ok?
    ensures x.at <= Advance(x).value.at <= x.at + 1 && |Advance(x).value.list| == |x.list|
  {
  }

  lemma {:induction false} VisitsFrom(us: seq<Section>, x: Pos, n: nat, rc0: nat)
    requires NoJump(us, x, rc0) && Walk(x, n).Ok?
    ensures Walk(x, n).value.1 == n + |us| - x.at <==> forall p :: x.at <= p < |us| ==> !JumpsAt(us, p, rc0)
    decreases |x.list| - x.at
  {
    if x.at < |x.list| {
      WalkNext(x, n);
      var y := Advance(x).value;
      AdvanceByOne(x);
      JumpExactly(us, x, rc0);
      if y.at == x.at {
        VisitedAtLeastOnce(y, n + 1);
      } else {
        NoJumpStep(us, x, rc0);
        VisitsFrom(us, y, n + 1, rc0);
      }
    }
  }

  /** A successful pass visits every section exactly once, although the list is
      relinked under it, if and only if it moves no section ahead. */
  lemma {:induction false} VisitsExactly(us: seq<Section>, rc0: nat)
    requires Walk(Pos(us, 0, rc0), 0).Ok?
    ensures Walk(Pos(us, 0, rc0), 0).value.1 == |us| <==> forall p :: 0 <= p < |us| ==> !JumpsAt(us, p, rc0)
  {
    VisitsFrom(us, Pos(us, 0, rc0), 0, rc0);
  }

  /** Every section with space in the file starts at or after rc: then none is moved
      ahead. */
  predicate AllAfter(vs: seq<Section>, rc: nat) {
    forall i :: 0 <= i < |vs| && !Skipped(vs[i]) ==> rc <= vs[i].sOffset
  }

  lemma {:induction false} VisitedOnce(us: seq<Section>, rc0: nat)
    requires AllAfter(us, rc0) && Walk(Pos(us, 0, rc0), 0).Ok?
    ensures Walk(Pos(us, 0, rc0), 0).value.1 == |us|
  {
    VisitsExactly(us, rc0);
  }

  function FileScn(at: nat, size: nat): Section { Section(ShtProgbits, 1, at, size, at, size, false, []) }

  lemma {:induction false} TwoSteps(a: Section, b: Section, end: nat)
    requires !Skipped(a) && !Skipped(b) && End(b) < a.sOffset && End(a) < end
    ensures Advance(Pos([a, b], 0, end)) == Ok(Pos([b, a], 0, end))
    ensures Advance(Pos([b, a], 0, end)) == Ok(Pos([b, a], 1, end))
    ensures Advance(Pos([b, a], 1, end)) == Ok(Pos([b, a], 2, end))
  {
    assert Removed([a, b], 0) == [b] && Move([a, b], 0, 1) == [b, a];
    assert Removed([b, a], 0) == [a] && Move([b, a], 0, 0) == [b, a];
    assert Removed([b, a], 1) == [b] && Move([b, a], 1, 1) == [b, a];
  }

  /** A section that ends before the headers do can be visited twice: it is moved
      ahead of the walk. */
  lemma {:induction false} VisitedTwice()
    ensures var w := Walk(Pos([FileScn(20, 5), FileScn(10, 5)], 0, 64), 0);
            w.Ok? && w.value.0.list == [FileScn(10, 5), FileScn(20, 5)] && w.value.1 == 3
  {
    var a, b := FileScn(20, 5), FileScn(10, 5);
    TwoSteps(a, b, 64);
    assert Walk(Pos([b, a], 2, 64), 3) == Ok((Pos([b, a], 2, 64), 3));
    assert Walk(Pos([b, a], 1, 64), 2) == Walk(Pos([b, a], 2, 64), 3);
    assert Walk(Pos([b, a], 0, 64), 1) == Walk(Pos([b, a], 1, 64), 2);
  }
}
