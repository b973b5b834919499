/** The pass that computes the extents of all sections and puts the section list
    in the order of file offsets, relinking it while it walks over it. */
module ElfResync {
  import opened ElfTypes
  import opened ElfLayout
  import opened ElfOrder
  import opened ElfNobits
  import opened ElfPasses
  import opened Stailq

  // ---- First pass -----------------------------------------------------------

  /** Extents of all sections, in list order. */
  function ExtentsAll(e: Env, ss: seq<Section>, rc: nat): Result<(seq<Section>, nat)> {
    if ss == [] then Ok(([], rc))
    else match ExtentsAll(e, ss[..|ss| - 1], rc)
         case Err(x) => Err(x)
         case Ok((done, rc1)) =>
           match Extents(e, ss[|ss| - 1], rc1)
           case Err(x) => Err(x)
           case Ok((s, rc2)) => Ok((done + [s], rc2))
  }

  lemma {:induction false} ExtentsAllLength(e: Env, ss: seq<Section>, rc: nat)
    requires ExtentsAll(e, ss, rc).Ok?
    ensures |ExtentsAll(e, ss, rc).value.0| == |ss|
  {
    if ss != [] { ExtentsAllLength(e, ss[..|ss| - 1], rc); }
  }

  lemma {:induction false} ExtentsErrorPersists(e: Env, ss: seq<Section>, rc: nat, i: nat)
    requires i <= |ss|
    ensures ExtentsAll(e, ss[..i], rc).Err? ==> ExtentsAll(e, ss, rc) == ExtentsAll(e, ss[..i], rc)
    decreases |ss|
  {
    if i == |ss| {
      assert ss[..i] == ss;
    } else {
      assert ss[..|ss| - 1][..i] == ss[..i];
      ExtentsErrorPersists(e, ss[..|ss| - 1], rc, i);
    }
  }

  /** The library's copy of a clean section's extent is that of its header. */
  predicate Cached(s: Section) {
    !Skipped(s) && !s.dirty ==> s.sOffset == s.shOffset && s.sSize == s.shSize
  }

  lemma {:induction false} ExtentsEnd(e: Env, s: Section, rc: nat)
    requires Extents(e, s, rc).Ok? && Cached(s)
    ensures var (s', rc') := Extents(e, s, rc).value;
            s'.shType == s.shType && rc' == if Skipped(s') then rc else Max(rc, End(s'))
  {
  }

  lemma {:induction false} ExtentsAllEnd(e: Env, ss: seq<Section>, rc: nat)
    requires ExtentsAll(e, ss, rc).Ok? && forall i :: 0 <= i < |ss| ==> Cached(ss[i])
    ensures var (ss', rc') := ExtentsAll(e, ss, rc).value; rc' == MaxEnd(ss', rc)
  {
    if ss != [] {
      var init := ss[..|ss| - 1];
      ExtentsAllEnd(e, init, rc);
      var (done, rc1) := ExtentsAll(e, init, rc).value;
      ExtentsEnd(e, ss[|ss| - 1], rc1);
      var (ss', rc') := ExtentsAll(e, ss, rc).value;
      assert ss'[..|ss'| - 1] == done;
    }
  }

  lemma {:induction false} CachedEnd(e: Env, ss: seq<Section>, rc: nat)
    requires ExtentsAll(e, ss, rc).Ok?
    ensures |ExtentsAll(e, ss, rc).value.0| == |ss|
    ensures (forall i :: 0 <= i < |ss| ==> Cached(ss[i])) ==>
      ExtentsAll(e, ss, rc).value.1 == MaxEnd(ExtentsAll(e, ss, rc).value.0, rc)
  {
    ExtentsAllLength(e, ss, rc);
    if forall i :: 0 <= i < |ss| ==> Cached(ss[i]) { ExtentsAllEnd(e, ss, rc); }
  }

  // ---- The list -------------------------------------------------------------

  ghost predicate Holds(q: Queue<Section>, vs: seq<Section>)
    reads q`nodes, q.nodes`val
  {
    Carry(q.nodes, vs)
  }

  ghost predicate Carry(ns: seq<Node<Section>>, vs: seq<Section>)
    reads ns`val
  {
    |vs| == |ns| && forall i :: 0 <= i < |vs| ==> ns[i].val == vs[i]
  }

  /** The insertion walk: the element to insert after, or null for the head; it
      fails at a section that touches or overlaps s. */
  method FindPlace(q: Queue<Section>, s: Section, ghost vs: seq<Section>)
    returns (ok: bool, prevt: Node?<Section>, ghost j: nat)
    requires q.Valid() && Holds(q, vs)
    ensures StopsAt(vs, s, j)
    ensures prevt == if j == 0 then null else q.nodes[j - 1]
    ensures ok ==> (j < |vs| ==> End(s) < vs[j].sOffset)
    ensures !ok ==> j < |vs| && End(s) >= vs[j].sOffset
  {
    var smin := s.sOffset;
    var smax := smin + s.sSize;
    prevt := null;
    var t := q.first;
    j := 0;
    while t != null
      invariant j <= |vs| && t == Queue.NextIn(q.nodes, j - 1)
      invariant prevt == if j == 0 then null else q.nodes[j - 1]
      invariant forall i :: 0 <= i < j ==> End(vs[i]) < smin
      decreases |vs| - j
    {
      assert t == q.nodes[j] && t.val == vs[j];
      if t.val.sOffset + t.val.sSize < smin {
        prevt := t;
        t := t.next;
        j := j + 1;
      } else if smax < t.val.sOffset {
        return true, prevt, j;
      } else {
        return false, prevt, j;
      }
    }
    ok := true;
  }

  /** Insert a section in front of the first one that starts after its end. */
  method InsertSection(q: Queue<Section>, s: Node<Section>, ghost vs: seq<Section>) returns (ok: bool, ghost j: nat)
    requires q.Valid() && s !in q.nodes && Holds(q, vs)
    modifies q, q.nodes`next, s`next
    ensures q.Valid() && StopsAt(vs, s.val, j)
    ensures ok ==> q.nodes == Inserted(old(q.nodes), j, s) && Holds(q, Inserted(vs, j, s.val))
    ensures ok ==> (j < |vs| ==> End(s.val) < vs[j].sOffset)
    ensures !ok ==> q.nodes == old(q.nodes) && Holds(q, vs) && j < |vs| && End(s.val) >= vs[j].sOffset
  {
    var prevt: Node?<Section>;
    ok, prevt, j := FindPlace(q, s.val, vs);
    if !ok {
      return;
    }
    if prevt != null {
      q.InsertAfter(prevt, s, j - 1);
    } else {
      q.InsertHead(s);
      assert q.nodes == Inserted(old(q.nodes), 0, s);
    }
  }

  lemma {:induction false} MembersMoved<T>(s: seq<T>, p: nat, j: nat, repr: set<T>)
    requires p < |s| && j < |s| && forall i :: 0 <= i < |s| ==> s[i] in repr
    ensures forall i :: 0 <= i < |s| - 1 ==> Removed(s, p)[i] in repr
    ensures forall i :: 0 <= i < |s| ==> Inserted(Removed(s, p), j, s[p])[i] in repr
    ensures multiset(Inserted(Removed(s, p), j, s[p])) == multiset(s)
  {
    MultisetMoved(s, p, j);
  }

  /** Take section number p out of the list and insert it where its offset says. */
  method Reinsert(q: Queue<Section>, s: Node<Section>, ghost vs: seq<Section>, ghost p: nat,
                  ghost repr: set<Node<Section>>)
    returns (ok: bool, ghost j: nat)
    requires q.Valid() && Holds(q, vs) && p < |vs| && q.nodes[p] == s
    requires forall i :: 0 <= i < |q.nodes| ==> q.nodes[i] in repr
    modifies q, repr`next
    ensures q.Valid()
    ensures StopsAt(Removed(vs, p), vs[p], j)
    ensures ok ==> q.nodes == Inserted(Removed(old(q.nodes), p), j, s) && Holds(q, Move(vs, p, j))
    ensures ok ==> multiset(q.nodes) == multiset(old(q.nodes))
    ensures forall i :: 0 <= i < |q.nodes| ==> q.nodes[i] in repr
    ensures ok ==> (j < |vs| - 1 ==> End(vs[p]) < Removed(vs, p)[j].sOffset)
    ensures !ok ==> q.nodes == Removed(old(q.nodes), p)
    ensures !ok ==> j < |vs| - 1 && End(vs[p]) >= Removed(vs, p)[j].sOffset
  {
    ghost var ns := q.nodes;
    q.Remove(s, p);
    assert s !in q.nodes && Holds(q, Removed(vs, p));
    ok, j := InsertSection(q, s, Removed(vs, p));
    MembersMoved(ns, p, j, repr);
  }

  /** The extent of section number i, after those of the sections before it. */
  method NextExtents(e: Env, v: Section, nrc: nat, ghost vs: seq<Section>, ghost i: nat, ghost done: seq<Section>,
                     ghost rc: nat)
    returns (x: Result<(Section, nat)>)
    requires i < |vs| && vs[i] == v && ExtentsAll(e, vs[..i], rc) == Ok((done, nrc))
    ensures x.Ok? ==> ExtentsAll(e, vs[..i + 1], rc) == Ok((done + [x.value.0], x.value.1))
    ensures x.Err? ==> ExtentsAll(e, vs, rc) == Err(x.error)
  {
    x := ComputeExtents(e, v, nrc);
    assert vs[..i + 1][..i] == vs[..i];
    ExtentsErrorPersists(e, vs, rc, i + 1);
  }

  /** The list after the first i sections have their extents. */
  ghost predicate HalfDone(q: Queue<Section>, vs: seq<Section>, done: seq<Section>)
    reads q`nodes, q.nodes`val
  {
    && |done| <= |vs| == |q.nodes|
    && forall k :: 0 <= k < |vs| ==> q.nodes[k].val == if k < |done| then done[k] else vs[k]
  }

  /** One iteration of the first pass, at section number i. */
  method ExtentsStep(q: Queue<Section>, e: Env, s: Node<Section>, nrc: nat, ghost vs: seq<Section>, ghost i: nat,
                     ghost done: seq<Section>, ghost rc: nat)
    returns (x: Result<nat>, ghost done': seq<Section>)
    requires q.Valid() && HalfDone(q, vs, done) && |done| == i < |vs| && q.nodes[i] == s
    requires ExtentsAll(e, vs[..i], rc) == Ok((done, nrc))
    modifies s`val
    ensures q.Valid()
    ensures x.Ok? ==> |done'| == i + 1 && HalfDone(q, vs, done')
    ensures x.Ok? ==> ExtentsAll(e, vs[..i + 1], rc) == Ok((done', x.value))
    ensures x.Err? ==> ExtentsAll(e, vs, rc) == Err(x.error)
  {
    var y := NextExtents(e, s.val, nrc, vs, i, done, rc);
    if y.Err? {
      return Err(y.error), done;
    }
    s.val := y.value.0;
    return Ok(y.value.1), done + [y.value.0];
  }

  /** First pass: every section gets its extent; the list keeps its order. */
  method ExtentsPass(q: Queue<Section>, e: Env, rc: nat, ghost vs: seq<Section>) returns (r: Result<nat>)
    requires q.Valid() && Holds(q, vs)
    modifies q.nodes`val
    ensures q.Valid()
    ensures if r.Ok? then ExtentsAll(e, vs, rc).Ok? else ExtentsAll(e, vs, rc) == Err(r.error)
    ensures r.Ok? ==> r.value == ExtentsAll(e, vs, rc).value.1
    ensures r.Ok? ==> Holds(q, ExtentsAll(e, vs, rc).value.0)
  {
    var nrc: nat := rc;
    var s := q.first;
    ghost var i: nat := 0;
    ghost var done: seq<Section> := [];
    while s != null
      invariant i <= |vs| && s == Queue.NextIn(q.nodes, i - 1) && |done| == i
      invariant q.Valid() && HalfDone(q, vs, done)
      invariant ExtentsAll(e, vs[..i], rc) == Ok((done, nrc))
      decreases |vs| - i
    {
      var x;
      x, done := ExtentsStep(q, e, s, nrc, vs, i, done, rc);
      if x.Err? {
        return x;
      }
      nrc := x.value;
      s := s.next;
      i := i + 1;
    }
    assert vs[..i] == vs;
    r := Ok(nrc);
  }

  lemma {:induction false} NextAfterMove(ns: seq<Node<Section>>, p: nat, j: nat)
    requires p < |ns| && j < |ns|
    ensures var ms := Inserted(Removed(ns, p), j, ns[p]);
            Queue.NextIn(ms, NextPos(p, j) - 1) == Queue.NextIn(ns, p)
  {
  }

  /** One section of the second pass: leave it where it is and go on from its
      end, or move it, unless it clashes. */
  method OrderStep(q: Queue<Section>, s: Node<Section>, rc: nat, ghost x: Pos, ghost repr: set<Node<Section>>)
    returns (r: Result<nat>, ghost y: Pos)
    requires q.Valid() && Holds(q, x.list) && x.at < |x.list| && x.end == rc && q.nodes[x.at] == s
    requires forall i :: 0 <= i < |q.nodes| ==> q.nodes[i] in repr
    modifies q, repr`next
    ensures q.Valid() && forall i :: 0 <= i < |q.nodes| ==> q.nodes[i] in repr
    ensures if r.Ok? then Advance(x) == Ok(y) && y.end == r.value else Advance(x) == Err(r.error)
    ensures r.Ok? ==> Holds(q, y.list) && multiset(q.nodes) == multiset(old(q.nodes))
    ensures r.Ok? ==> y.at <= |q.nodes| && Queue.NextIn(q.nodes, y.at - 1) == old(s.next)
    ensures Skipped(x.list[x.at]) || rc <= x.list[x.at].sOffset ==> r.Ok? && q.nodes == old(q.nodes)
  {
    y := x;
    if Skipped(s.val) || rc <= s.val.sOffset {
      r := Ok(if Skipped(s.val) then rc else s.val.sOffset + s.val.sSize);
      y := Pos(x.list, x.at + 1, r.value);
      return;
    }
    if s.val.sOffset + s.val.sSize >= rc {
      return Err(ErrLayout), y;
    }
    ghost var ns := q.nodes;
    var ok;
    ghost var j;
    ok, j := Reinsert(q, s, x.list, x.at, repr);
    StopUnique(Removed(x.list, x.at), x.list[x.at], j);
    if !ok {
      return Err(ErrLayout), y;
    }
    NextAfterMove(ns, x.at, j);
    y := Pos(Move(x.list, x.at, j), NextPos(x.at, j), rc);
    r := Ok(rc);
  }

  /** What the second pass gives: the walk's list and end, in order or not. */
  ghost predicate Passed(us: seq<Section>, rc0: nat, vs: seq<Section>, end: nat, visits: nat) {
    && multiset(vs) == multiset(us) && end == MaxEnd(us, rc0)
    && (Harmless(us) ==> Ascending(vs, |vs|)) && (InOrder(us, rc0) ==> vs == us)
    && (Separated(us, rc0) && AllAfter(us, rc0) ==> (Ascending(vs, |vs|) <==> Unspoiled(us, |us|)))
    && (visits == |us| <==> forall p :: 0 <= p < |us| ==> !JumpsAt(us, p, rc0))
  }

  lemma {:induction false} WalkPassed(us: seq<Section>, rc0: nat)
    ensures var w := Walk(Pos(us, 0, rc0), 0);
            if w.Ok? then Passed(us, rc0, w.value.0.list, w.value.0.end, w.value.1)
            else !(Harmless(us) && Separated(us, rc0)) && !InOrder(us, rc0)
    ensures Harmless(us) && AllAfter(us, rc0) ==> (Walk(Pos(us, 0, rc0), 0).Ok? <==> AllFit(us, 0))
  {
    var x := Pos(us, 0, rc0);
    WalkInv(us, x, 0, rc0);
    if Harmless(us) && AllAfter(us, rc0) { PassesExactly(us, rc0); }
    if Walk(x, 0).Ok? {
      var y := Walk(x, 0).value.0;
      PassDone(us, y.list, rc0, y.end);
      VisitsExactly(us, rc0);
      if Separated(us, rc0) && AllAfter(us, rc0) { InOrderExactly(us, rc0); }
    }
  }

  /** Second pass: the sections are put in ascending order by relinking the list
      under the walk. */
  method OrderPass(q: Queue<Section>, rc0: nat, ghost us: seq<Section>, ghost repr: set<Node<Section>>)
    returns (r: Result<nat>, ghost vs: seq<Section>, ghost visits: nat)
    requires q.Valid() && Holds(q, us)
    requires forall i :: 0 <= i < |q.nodes| ==> q.nodes[i] in repr
    modifies q, repr`next
    ensures q.Valid()
    ensures if r.Ok? then Walk(Pos(us, 0, rc0), 0) == Ok((Pos(vs, |vs|, r.value), visits))
            else Walk(Pos(us, 0, rc0), 0) == Err(r.error)
    ensures r.Ok? ==> Holds(q, vs) && multiset(q.nodes) == multiset(old(q.nodes))
    ensures r.Ok? ==> Passed(us, rc0, vs, r.value, visits)
    ensures r.Err? ==> !(Harmless(us) && Separated(us, rc0))
    ensures Harmless(us) && AllAfter(us, rc0) ==> (r.Ok? <==> AllFit(us, 0))
    ensures InOrder(us, rc0) ==> r.Ok? && vs == us && q.nodes == old(q.nodes)
  {
    WalkPassed(us, rc0);
    var rc: nat := rc0;
    var s := q.first;
    ghost var x := Pos(us, 0, rc0);
    vs, visits := us, 0;
    while s != null
      invariant q.Valid() && Holds(q, x.list) && multiset(q.nodes) == multiset(old(q.nodes))
      invariant forall i :: 0 <= i < |q.nodes| ==> q.nodes[i] in repr
      invariant x.at <= |x.list| && x.end == rc && s == Queue.NextIn(q.nodes, x.at - 1)
      invariant Walk(x, visits) == Walk(Pos(us, 0, rc0), 0)
      invariant InOrder(us, rc0) ==> q.nodes == old(q.nodes) && PassInv(us, x.list, x.at, rc0, rc)
      decreases |x.list| - x.at, Inversions(x.list[x.at..])
    {
      var ts := s.next;
      ghost var x0 := x;
      r, x := OrderStep(q, s, rc, x, repr);
      if InOrder(us, rc0) { AdvanceInv(us, x0, rc0); }
      if r.Err? {
        return;
      }
      AdvanceEnds(x0);
      rc, s, visits := r.value, ts, visits + 1;
    }
    vs := x.list;
    r := Ok(rc);
  }

  /** Compute all extents, then order the list.  On success the list is a
      permutation of what it was, every section has its computed extent, and the
      result is both the end computed by the first pass and the largest section
      end.  The sections are in file order, and each has been visited once, exactly
      under the stated conditions; and so the pass succeeds. */
  method ResyncSections(q: Queue<Section>, e: Env, rc0: nat, ghost vs: seq<Section>, ghost repr: set<Node<Section>>)
    returns (r: Result<nat>, ghost us: seq<Section>, ghost ws: seq<Section>, ghost visits: nat)
    requires q.Valid() && Holds(q, vs)
    requires forall i :: 0 <= i < |q.nodes| ==> q.nodes[i] in repr
    modifies q, repr
    ensures q.Valid()
    ensures ExtentsAll(e, vs, rc0).Err? ==> r == Err(ExtentsAll(e, vs, rc0).error)
    ensures r.Ok? ==> ExtentsAll(e, vs, rc0).Ok? && us == ExtentsAll(e, vs, rc0).value.0 && |us| == |vs|
    ensures r.Ok? ==> multiset(q.nodes) == multiset(old(q.nodes)) && Holds(q, ws)
    ensures r.Ok? ==> Carry(old(q.nodes), us)
    ensures r.Ok? ==> Passed(us, rc0, ws, r.value, visits)
    ensures r.Ok? && (forall i :: 0 <= i < |vs| ==> Cached(vs[i])) ==> r.value == ExtentsAll(e, vs, rc0).value.1
    ensures ExtentsAll(e, vs, rc0).Ok? && InOrder(ExtentsAll(e, vs, rc0).value.0, rc0) ==>
      r.Ok? && ws == us && q.nodes == old(q.nodes)
    ensures r.Err? && ExtentsAll(e, vs, rc0).Ok? ==>
      !(Harmless(ExtentsAll(e, vs, rc0).value.0) && Separated(ExtentsAll(e, vs, rc0).value.0, rc0))
    ensures ExtentsAll(e, vs, rc0).Ok? ==>
      var u := ExtentsAll(e, vs, rc0).value.0;
      Harmless(u) && AllAfter(u, rc0) ==> (r.Ok? <==> AllFit(u, 0))
  {
    us, ws, visits := [], [], 0;
    var nrc := ExtentsPass(q, e, rc0, vs);
    if nrc.Err? {
      return Err(nrc.error), us, ws, visits;
    }
    us := ExtentsAll(e, vs, rc0).value.0;
    r, ws, visits := OrderPass(q, rc0, us, repr);
    CachedEnd(e, vs, rc0);
  }
}
