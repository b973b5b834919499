/** When the section list comes out in file order: a section without space in the
    file can stop the insertion of another one too early. */
module ElfNobits {
  import opened ElfTypes
  import opened ElfLayout
  import opened ElfOrder
  import opened Stailq

  /** Section a starts after every earlier section with space in the file. */
  predicate Kept(us: seq<Section>, a: nat)
    requires a < |us|
  {
    !Skipped(us[a]) && forall b :: 0 <= b < a && !Skipped(us[b]) ==> us[b].sOffset < us[a].sOffset
  }

  /** Some earlier section with space in the file starts after section s. */
  predicate MovesBack(us: seq<Section>, s: nat)
    requires s < |us|
  {
    !Skipped(us[s]) && exists b :: 0 <= b < s && !Skipped(us[b]) && us[s].sOffset < us[b].sOffset
  }

  /** Section n, which has no space in the file, makes section s go before section a
      although s belongs after it. */
  predicate Spoils(us: seq<Section>, n: nat, a: nat, s: nat)
    requires n < a < s < |us|
  {
    && Skipped(us[n]) && Kept(us, a) && MovesBack(us, s)
    && End(us[a]) < us[s].sOffset <= End(us[n])
  }

  predicate Unspoiled(us: seq<Section>, p: nat)
    requires p <= |us|
  {
    forall n, a, s :: 0 <= n < a < s < p ==> !Spoils(us, n, a, s)
  }

  // ---- Where the sections are -----------------------------------------------------

  /** Section i of the list is section orig[i] of us, and section n of us is at
      pos[n]; the walk has visited the same number of both. */
  ghost predicate Trace(us: seq<Section>, x: Pos, orig: seq<nat>, pos: seq<nat>) {
    && |x.list| == |us| == |orig| == |pos| && x.at <= |us|
    && (forall i :: 0 <= i < |us| ==> orig[i] < |us| && pos[orig[i]] == i && x.list[i] == us[orig[i]])
    && (forall n :: 0 <= n < |us| ==> pos[n] < |us| && orig[pos[n]] == n && (pos[n] < x.at <==> n < x.at))
    && (forall n :: x.at <= n < |us| ==> pos[n] == n)
  }

  function MovedPos(pos: seq<nat>, p: nat, j: nat): (r: seq<nat>)
    requires p < |pos| && j < |pos| && forall n :: 0 <= n < |pos| ==> pos[n] < |pos|
    ensures |r| == |pos| && forall n :: 0 <= n < |pos| ==> r[n] == Moved(|pos|, p, j, pos[n])
  {
    seq(|pos|, n requires 0 <= n < |pos| => Moved(|pos|, p, j, pos[n]))
  }

  lemma {:induction false} StayTrace(us: seq<Section>, x: Pos, orig: seq<nat>, pos: seq<nat>, end: nat)
    requires Trace(us, x, orig, pos) && x.at < |us|
    ensures Trace(us, x.(at := x.at + 1, end := end), orig, pos)
  {
    assert pos[x.at] == x.at;
    forall n | 0 <= n < |us| ensures pos[n] < x.at + 1 <==> n < x.at + 1 {
      if pos[n] == x.at { assert orig[pos[n]] == n && orig[pos[x.at]] == x.at; }
    }
  }

  lemma {:induction false} MoveTrace(us: seq<Section>, x: Pos, orig: seq<nat>, pos: seq<nat>, j: nat)
    requires Trace(us, x, orig, pos) && x.at < |us| && j <= x.at
    ensures Trace(us, Pos(Move(x.list, x.at, j), x.at + 1, x.end),
                  Inserted(Removed(orig, x.at), j, x.at), MovedPos(pos, x.at, j))
  {
    var p, N := x.at, |us|;
    var list, orig', pos' := Move(x.list, p, j), Inserted(Removed(orig, p), j, p), MovedPos(pos, p, j);
    assert pos[p] == p && orig[p] == p;
    forall i | 0 <= i < N ensures orig'[i] < N && pos'[orig'[i]] == i && list[i] == us[orig'[i]] {
      MoveOriginOf(orig, p, j, i);
      MoveOrigin(x.list, p, j, i);
      MovedBack(N, p, j, i);
      assert pos[orig[Moved(N, j, p, i)]] == Moved(N, j, p, i);
    }
    forall n | 0 <= n < N
      ensures pos'[n] < N && orig'[pos'[n]] == n && (pos'[n] < p + 1 <==> n < p + 1) && (n > p ==> pos'[n] == n)
    {
      MoveOriginOf(orig, p, j, pos'[n]);
      MovedBack(N, j, p, pos[n]);
      if pos[n] == p { assert orig[pos[n]] == n; }
    }
  }

  lemma {:induction false} MoveOriginOf(s: seq<nat>, p: nat, j: nat, i: nat)
    requires p < |s| && j < |s| && i < |s| && s[p] == p
    ensures Inserted(Removed(s, p), j, p)[i] == s[Moved(|s|, j, p, i)]
  {
  }

  // ---- What is known of the visited sections ---------------------------------------

  /** Section a of us is ahead of section b in the list. */
  predicate Ahead(pos: seq<nat>, a: nat, b: nat)
    requires a < |pos| && b < |pos|
  {
    pos[a] < pos[b]
  }

  /** A section kept in place is behind the sections without space before it. */
  predicate Behind(us: seq<Section>, p: nat, pos: seq<nat>)
    requires p <= |us| == |pos|
  {
    forall n, a {:trigger Ahead(pos, n, a)} :: 0 <= n < a < p && Skipped(us[n]) && Kept(us, a) ==> Ahead(pos, n, a)
  }

  /** Only a section kept in place can be behind one without space that ends after
      its start. */
  predicate Explained(us: seq<Section>, p: nat, pos: seq<nat>)
    requires p <= |us| == |pos|
  {
    forall n, a {:trigger Ahead(pos, n, a)} ::
      0 <= n < p && 0 <= a < p && Skipped(us[n]) && !Skipped(us[a]) && Ahead(pos, n, a) ==>
        End(us[n]) < us[a].sOffset || (n < a && Kept(us, a))
  }

  predicate Sorted(us: seq<Section>, p: nat, pos: seq<nat>)
    requires p <= |us| == |pos|
  {
    forall a, b {:trigger Ahead(pos, a, b)} ::
      0 <= a < p && 0 <= b < p && !Skipped(us[a]) && !Skipped(us[b]) && Ahead(pos, a, b) ==>
        End(us[a]) <= us[b].sOffset
  }

  lemma {:induction false} SortedIsAscending(us: seq<Section>, x: Pos, orig: seq<nat>, pos: seq<nat>)
    requires Trace(us, x, orig, pos)
    ensures Sorted(us, x.at, pos) <==> Ascending(x.list, x.at)
  {
    if Sorted(us, x.at, pos) {
      forall i, j | 0 <= i < j < x.at && !Skipped(x.list[i]) && !Skipped(x.list[j])
        ensures End(x.list[i]) <= x.list[j].sOffset
      {
        assert Ahead(pos, orig[i], orig[j]);
        assert x.list[i] == us[orig[i]] && x.list[j] == us[orig[j]];
      }
    }
    if Ascending(x.list, x.at) {
      forall a, b | 0 <= a < x.at && 0 <= b < x.at && !Skipped(us[a]) && !Skipped(us[b]) && Ahead(pos, a, b)
        ensures End(us[a]) <= us[b].sOffset
      {
        assert x.list[pos[a]] == us[a] && x.list[pos[b]] == us[b];
      }
    }
  }

  /** Moving section p to an earlier place keeps the order of those visited. */
  lemma {:induction false} MoveKeepsOrder(pos: seq<nat>, p: nat, j: nat, a: nat, b: nat)
    requires j <= p < |pos| && forall n :: 0 <= n < |pos| ==> pos[n] < |pos|
    requires a < |pos| && b < |pos| && pos[a] < p && pos[b] < p
    ensures Ahead(MovedPos(pos, p, j), a, b) <==> Ahead(pos, a, b)
  {
  }

  /** The state of the pass: where the sections are, and the end reached. */
  ghost predicate Tracking(us: seq<Section>, x: Pos, rc0: nat, orig: seq<nat>, pos: seq<nat>) {
    Trace(us, x, orig, pos) && Good(x.list, x.at, rc0, x.end) && Separated(us, rc0) && AllAfter(us, rc0)
  }

  /** What is known of the order of the first p sections. */
  ghost predicate Ordering(us: seq<Section>, p: nat, pos: seq<nat>)
    requires p <= |us| == |pos|
  {
    && Behind(us, p, pos) && Explained(us, p, pos)
    && (Sorted(us, p, pos) <==> Unspoiled(us, p))
  }

  /** The end reached is that of a visited section, or the end of the headers. */
  lemma {:induction false} EndIs(us: seq<Section>, x: Pos, rc0: nat, orig: seq<nat>, pos: seq<nat>)
    requires Trace(us, x, orig, pos) && Good(x.list, x.at, rc0, x.end)
    ensures forall b :: 0 <= b < x.at && !Skipped(us[b]) ==> End(us[b]) <= x.end
    ensures x.end == rc0 || exists b :: 0 <= b < x.at && !Skipped(us[b]) && End(us[b]) == x.end
  {
    forall b | 0 <= b < x.at && !Skipped(us[b]) ensures End(us[b]) <= x.end {
      assert x.list[pos[b]] == us[b];
    }
    if x.end != rc0 {
      var i :| 0 <= i < x.at && !Skipped(x.list[i]) && End(x.list[i]) == x.end;
      assert pos[orig[i]] == i && x.list[i] == us[orig[i]];
    }
  }

  /** The pass leaves exactly the sections that are kept where they are. */
  lemma {:induction false} KeptExactly(us: seq<Section>, x: Pos, rc0: nat, orig: seq<nat>, pos: seq<nat>)
    requires Tracking(us, x, rc0, orig, pos) && x.at < |us| && !Skipped(us[x.at])
    ensures x.end <= us[x.at].sOffset <==> Kept(us, x.at)
    ensures us[x.at].sOffset < x.end <==> MovesBack(us, x.at)
  {
    var p := x.at;
    EndIs(us, x, rc0, orig, pos);
    if us[p].sOffset < x.end {
      var b :| 0 <= b < p && !Skipped(us[b]) && End(us[b]) == x.end;
      assert StrictlyApart(us[b], us[p]);
    } else {
      forall b | 0 <= b < p && !Skipped(us[b]) ensures us[b].sOffset < us[p].sOffset {
        assert StrictlyApart(us[b], us[p]);
      }
    }
  }

  lemma {:induction false} StayOrders(us: seq<Section>, p: nat, pos: seq<nat>)
    requires p < |us| == |pos| && Behind(us, p, pos) && Explained(us, p, pos)
    requires pos[p] == p && (forall n :: 0 <= n < p ==> pos[n] < p) && (Skipped(us[p]) || Kept(us, p))
    ensures Behind(us, p + 1, pos) && Explained(us, p + 1, pos)
  {
  }

  lemma {:induction false} StaySorted(us: seq<Section>, p: nat, pos: seq<nat>)
    requires p < |us| == |pos| && pos[p] == p && (forall n :: 0 <= n < p ==> pos[n] < p)
    requires Skipped(us[p]) || forall b :: 0 <= b < p && !Skipped(us[b]) ==> End(us[b]) <= us[p].sOffset
    ensures Sorted(us, p + 1, pos) <==> Sorted(us, p, pos)
  {
  }

  lemma {:induction false} StayUnspoiled(us: seq<Section>, p: nat)
    requires p < |us| && !MovesBack(us, p)
    ensures Unspoiled(us, p + 1) <==> Unspoiled(us, p)
  {
    UnspoiledNext(us, p);
  }

  lemma {:induction false} StayOrdering(us: seq<Section>, x: Pos, rc0: nat, orig: seq<nat>, pos: seq<nat>)
    requires Tracking(us, x, rc0, orig, pos) && Ordering(us, x.at, pos) && x.at < |us|
    requires Skipped(us[x.at]) || x.end <= us[x.at].sOffset
    ensures Ordering(us, x.at + 1, pos)
  {
    var p := x.at;
    assert pos[p] == p;
    EndIs(us, x, rc0, orig, pos);
    if !Skipped(us[p]) { KeptExactly(us, x, rc0, orig, pos); }
    StayOrders(us, p, pos);
    StaySorted(us, p, pos);
    StayUnspoiled(us, p);
  }

  /** Among the sections visited, those that section s = p is put before are the
      ones it belongs before, unless one without space stopped the walk. */
  lemma {:induction false} BeforeExactly(us: seq<Section>, x: Pos, rc0: nat, orig: seq<nat>, pos: seq<nat>, j: nat)
    requires Trace(us, x, orig, pos) && Separated(us, rc0) && x.at < |us| && MovesBack(us, x.at)
    requires Behind(us, x.at, pos) && Explained(us, x.at, pos) && Sorted(us, x.at, pos)
    requires StopsAt(Removed(x.list, x.at), us[x.at], j) && j < x.at
    ensures (forall b :: 0 <= b < x.at && !Skipped(us[b]) && pos[b] >= j ==> End(us[x.at]) <= us[b].sOffset)
            <==> forall n, a :: 0 <= n < a < x.at ==> !Spoils(us, n, a, x.at)
  {
    var p, s, t := x.at, us[x.at], orig[j];
    StopAt(us, x, orig, pos, j);
    forall b | 0 <= b < p && !Skipped(us[b]) && pos[b] >= j && End(s) > us[b].sOffset
      ensures t < b && Spoils(us, t, b, p)
    {
      assert StrictlyApart(us[b], s);
      assert b != t && Ahead(pos, t, b);
    }
    forall n, a | 0 <= n < a < p && Spoils(us, n, a, p) ensures pos[a] >= j && End(s) > us[a].sOffset {
      assert Ahead(pos, n, a);
    }
  }

  /** The stop, in terms of the sections' places. */
  lemma {:induction false} StopAt(us: seq<Section>, x: Pos, orig: seq<nat>, pos: seq<nat>, j: nat)
    requires Trace(us, x, orig, pos) && x.at < |us| && StopsAt(Removed(x.list, x.at), us[x.at], j) && j < x.at
    ensures forall n :: 0 <= n < x.at && pos[n] < j ==> End(us[n]) < us[x.at].sOffset
    ensures orig[j] < x.at && pos[orig[j]] == j && End(us[orig[j]]) >= us[x.at].sOffset
  {
    var rs := Removed(x.list, x.at);
    forall n | 0 <= n < x.at && pos[n] < j ensures End(us[n]) < us[x.at].sOffset {
      assert rs[pos[n]] == x.list[pos[n]] == us[n];
    }
    assert rs[j] == x.list[j] == us[orig[j]];
    assert pos[orig[j]] == j;
  }

  lemma {:induction false} MoveOrders(us: seq<Section>, x: Pos, orig: seq<nat>, pos: seq<nat>, j: nat)
    requires Trace(us, x, orig, pos) && Behind(us, x.at, pos) && Explained(us, x.at, pos)
    requires x.at < |us| && MovesBack(us, x.at) && StopsAt(Removed(x.list, x.at), us[x.at], j) && j < x.at
    ensures Behind(us, x.at + 1, MovedPos(pos, x.at, j)) && Explained(us, x.at + 1, MovedPos(pos, x.at, j))
  {
    var p, pos' := x.at, MovedPos(pos, x.at, j);
    StopAt(us, x, orig, pos, j);
    assert pos[p] == p && pos'[p] == j && !Kept(us, p);
    forall n, a | 0 <= n < a < p + 1 && Skipped(us[n]) && Kept(us, a) ensures Ahead(pos', n, a) {
      MoveKeepsOrder(pos, p, j, n, a);
    }
    forall n, a | 0 <= n < p + 1 && 0 <= a < p + 1 && Skipped(us[n]) && !Skipped(us[a]) && Ahead(pos', n, a)
      ensures End(us[n]) < us[a].sOffset || (n < a && Kept(us, a))
    {
      if a < p { MoveKeepsOrder(pos, p, j, n, a); }
    }
  }

  lemma {:induction false} MoveSorted(us: seq<Section>, x: Pos, orig: seq<nat>, pos: seq<nat>, j: nat)
    requires Trace(us, x, orig, pos)
    requires x.at < |us| && !Skipped(us[x.at]) && StopsAt(Removed(x.list, x.at), us[x.at], j) && j < x.at
    ensures Sorted(us, x.at + 1, MovedPos(pos, x.at, j)) <==>
      && Sorted(us, x.at, pos)
      && forall b :: 0 <= b < x.at && !Skipped(us[b]) && pos[b] >= j ==> End(us[x.at]) <= us[b].sOffset
  {
    var p, pos' := x.at, MovedPos(pos, x.at, j);
    StopAt(us, x, orig, pos, j);
    assert pos[p] == p && pos'[p] == j;
    forall a, b | 0 <= a < p && 0 <= b < p ensures Ahead(pos', a, b) <==> Ahead(pos, a, b) {
      MoveKeepsOrder(pos, p, j, a, b);
    }
    forall b | 0 <= b < p ensures Ahead(pos', p, b) <==> pos[b] >= j {
    }
  }

  lemma {:induction false} UnspoiledNext(us: seq<Section>, p: nat)
    requires p < |us|
    ensures Unspoiled(us, p + 1) <==> Unspoiled(us, p) && forall n, a :: 0 <= n < a < p ==> !Spoils(us, n, a, p)
  {
  }

  lemma {:induction false} MoveOrdering(us: seq<Section>, x: Pos, rc0: nat, orig: seq<nat>, pos: seq<nat>, j: nat)
    requires Trace(us, x, orig, pos) && Separated(us, rc0) && Ordering(us, x.at, pos)
    requires x.at < |us| && MovesBack(us, x.at) && StopsAt(Removed(x.list, x.at), us[x.at], j) && j < x.at
    ensures Ordering(us, x.at + 1, MovedPos(pos, x.at, j))
  {
    MoveOrders(us, x, orig, pos, j);
    MoveSorted(us, x, orig, pos, j);
    UnspoiledNext(us, x.at);
    if Sorted(us, x.at, pos) { BeforeExactly(us, x, rc0, orig, pos, j); }
  }

  /** A section is never moved ahead of the walk, or to its own place, when all start
      behind the headers. */
  lemma {:induction false} MovedBehind(x: Pos, rc0: nat)
    requires Good(x.list, x.at, rc0, x.end) && x.at < |x.list| && rc0 <= x.list[x.at].sOffset < x.end
    ensures StopIndex(Removed(x.list, x.at), x.list[x.at]) < x.at
  {
    var i :| 0 <= i < x.at && !Skipped(x.list[i]) && End(x.list[i]) == x.end;
    assert Removed(x.list, x.at)[i] == x.list[i];
  }

  lemma {:induction false} TrackStay(us: seq<Section>, x: Pos, rc0: nat, orig: seq<nat>, pos: seq<nat>)
    requires Tracking(us, x, rc0, orig, pos) && x.at < |us| && Advance(x).Ok?
    requires x.list[x.at] == us[x.at] && (Skipped(us[x.at]) || x.end <= us[x.at].sOffset)
    ensures var y := Advance(x).value; y.at == x.at + 1 && Tracking(us, y, rc0, orig, pos)
  {
    AdvanceIs(x);
    if Skipped(us[x.at]) { GoodSkip(x.list, x.at, rc0, x.end); } else { GoodAppend(x.list, x.at, rc0, x.end); }
    StayTrace(us, x, orig, pos, Advance(x).value.end);
  }

  lemma {:induction false} TrackMove(us: seq<Section>, x: Pos, rc0: nat, orig: seq<nat>, pos: seq<nat>) returns (j: nat)
    requires Tracking(us, x, rc0, orig, pos) && x.at < |us| && Advance(x).Ok?
    requires x.list[x.at] == us[x.at] && !Skipped(us[x.at]) && us[x.at].sOffset < x.end
    ensures j < x.at && StopsAt(Removed(x.list, x.at), us[x.at], j)
    ensures var y := Advance(x).value;
            y.at == x.at + 1 && Tracking(us, y, rc0, Inserted(Removed(orig, x.at), j, x.at), MovedPos(pos, x.at, j))
  {
    j := StopIndex(Removed(x.list, x.at), us[x.at]);
    AdvanceIs(x);
    MovedBehind(x, rc0);
    GoodInsert(x.list, x.at, rc0, x.end, j);
    MoveTrace(us, x, orig, pos, j);
  }

  lemma {:induction false} MoveOn(us: seq<Section>, x: Pos, rc0: nat, orig: seq<nat>, pos: seq<nat>, j: nat)
    requires Tracking(us, x, rc0, orig, pos) && Ordering(us, x.at, pos) && x.at < |us|
    requires !Skipped(us[x.at]) && us[x.at].sOffset < x.end
    requires StopsAt(Removed(x.list, x.at), us[x.at], j) && j < x.at
    ensures Ordering(us, x.at + 1, MovedPos(pos, x.at, j))
  {
    KeptExactly(us, x, rc0, orig, pos);
    MoveOrdering(us, x, rc0, orig, pos, j);
  }

  /** One iteration of the pass. */
  lemma {:induction false} NextOrdering(us: seq<Section>, x: Pos, rc0: nat, orig: seq<nat>, pos: seq<nat>)
    returns (orig': seq<nat>, pos': seq<nat>)
    requires Tracking(us, x, rc0, orig, pos) && Ordering(us, x.at, pos) && x.at < |us| && Advance(x).Ok?
    ensures Advance(x).value.at == x.at + 1
    ensures Tracking(us, Advance(x).value, rc0, orig', pos') && Ordering(us, Advance(x).value.at, pos')
  {
    var p := x.at;
    assert pos[p] == p && x.list[p] == us[p];
    if Skipped(us[p]) || x.end <= us[p].sOffset {
      TrackStay(us, x, rc0, orig, pos);
      StayOrdering(us, x, rc0, orig, pos);
      orig', pos' := orig, pos;
    } else {
      var j := TrackMove(us, x, rc0, orig, pos);
      MoveOn(us, x, rc0, orig, pos, j);
      orig', pos' := Inserted(Removed(orig, p), j, p), MovedPos(pos, p, j);
    }
  }

  /** Some tracking of the sections has led to this state of the pass. */
  ghost predicate Tracked(us: seq<Section>, x: Pos, rc0: nat) {
    exists orig, pos :: Tracking(us, x, rc0, orig, pos) && Ordering(us, x.at, pos)
  }

  lemma {:induction false} TrackedNext(us: seq<Section>, x: Pos, rc0: nat)
    requires Tracked(us, x, rc0) && x.at < |us| == |x.list| && Advance(x).Ok?
    ensures Tracked(us, Advance(x).value, rc0) && Advance(x).value.at == x.at + 1 && |Advance(x).value.list| == |us|
  {
    var orig, pos :| Tracking(us, x, rc0, orig, pos) && Ordering(us, x.at, pos);
    var orig', pos' := NextOrdering(us, x, rc0, orig, pos);
    Witnessed(us, Advance(x).value, rc0, orig', pos');
  }

  lemma {:induction false} Witnessed(us: seq<Section>, x: Pos, rc0: nat, orig: seq<nat>, pos: seq<nat>)
    requires Tracking(us, x, rc0, orig, pos) && Ordering(us, x.at, pos)
    ensures Tracked(us, x, rc0) && |x.list| == |us|
  {
  }

  lemma {:induction false} TrackedDone(us: seq<Section>, x: Pos, rc0: nat)
    requires Tracked(us, x, rc0) && x.at == |us| == |x.list|
    ensures Ascending(x.list, |x.list|) <==> Unspoiled(us, |us|)
  {
    var orig, pos :| Tracking(us, x, rc0, orig, pos) && Ordering(us, x.at, pos);
    SortedIsAscending(us, x, orig, pos);
  }

  lemma {:induction false} WalkOrdering(us: seq<Section>, x: Pos, n: nat, rc0: nat)
    requires Tracked(us, x, rc0) && x.at <= |us| == |x.list| && Walk(x, n).Ok?
    ensures var list := Walk(x, n).value.0.list; Ascending(list, |list|) <==> Unspoiled(us, |us|)
    decreases |us| - x.at
  {
    if x.at < |x.list| {
      WalkNext(x, n);
      TrackedNext(us, x, rc0);
      WalkOrdering(us, Advance(x).value, n + 1, rc0);
    } else {
      TrackedDone(us, x, rc0);
    }
  }

  /** For sections that are apart and behind the headers, a successful pass leaves
      the list in file order if and only if no section without space spoils it. */
  lemma {:induction false} InOrderExactly(us: seq<Section>, rc0: nat)
    requires Separated(us, rc0) && AllAfter(us, rc0) && Walk(Pos(us, 0, rc0), 0).Ok?
    ensures var list := Walk(Pos(us, 0, rc0), 0).value.0.list; Ascending(list, |list|) <==> Unspoiled(us, |us|)
  {
    var ids := seq(|us|, i requires 0 <= i => i);
    Witnessed(us, Pos(us, 0, rc0), rc0, ids, ids);
    WalkOrdering(us, Pos(us, 0, rc0), 0, rc0);
  }

  /** The pass succeeds on this list, in which the first section has no space in the
      file, and puts the last section before the one it belongs after. */
  lemma {:induction false} NobitsMisplaces()
    ensures var n := Section(ShtNobits, 1, 1000, 1000, 1000, 1000, false, []);
            var a, b, s := FileScn(100, 100), FileScn(300, 100), FileScn(250, 10);
            && Separated([n, a, b, s], 64) && Spoils([n, a, b, s], 0, 1, 3)
            && Walk(Pos([n, a, b, s], 0, 64), 0) == Ok((Pos([s, n, a, b], 4, 400), 4))
            && !Ascending([s, n, a, b], 4)
  {
    var n := Section(ShtNobits, 1, 1000, 1000, 1000, 1000, false, []);
    var a, b, s := FileScn(100, 100), FileScn(300, 100), FileScn(250, 10);
    var us := [n, a, b, s];
    var ws := [s, n, a, b];
    assert !Skipped(us[2]) && us[3].sOffset < us[2].sOffset;
    assert Removed(us, 3) == [n, a, b] && Move(us, 3, 0) == ws;
    assert Advance(Pos(us, 3, 400)) == Ok(Pos(ws, 4, 400));
    assert Walk(Pos(ws, 4, 400), 4) == Ok((Pos(ws, 4, 400), 4));
    assert Walk(Pos(us, 3, 400), 3) == Walk(Pos(ws, 4, 400), 4);
    assert Walk(Pos(us, 2, 200), 2) == Walk(Pos(us, 3, 400), 3);
    assert Walk(Pos(us, 1, 64), 1) == Walk(Pos(us, 2, 200), 2);
    assert ws[0] == s && ws[2] == a;
  }
}
