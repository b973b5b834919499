/** The directory's handling of one queued request keeps the invariant. */
module PmsiDirectory {
  import opened Wrappers
  import opened PmsiTable
  import opened PmsiSystem
  import opened PmsiInvariant
  import opened PmsiSteps

  /** The directory looked at a request and only put it aside, or moved from M to
      M_D to wait for the owner. */
  ghost predicate Deferred(s: Sys, s': Sys) {
    && s' == s.(dir := s'.dir)
    && Q(s') == Q(s)
    && s'.dir.owner == s.dir.owner && s'.dir.cur == s.dir.cur
    && ((s'.dir.st == s.dir.st && !s.dir.st.DI? && !s.dir.st.DM?)
        || (s.dir.st.DM? && s'.dir.st.DM_D? && |Q(s)| > 0 && s.dir.owner != Some(Q(s)[0].core)))
  }

  /** Request number k was finished: the directory forgot it. */
  ghost predicate Taken(s: Sys, s': Sys, k: nat) {
    && k < |Q(s)|
    && s' == s.(dir := s'.dir)
    && Q(s') == Q(s)[..k] + Q(s)[k + 1..]
  }

  lemma {:induction false} DeferredInv(s: Sys, s': Sys)
    requires Inv(s) && Deferred(s, s')
    ensures Inv(s')
  {
    forall i | 0 <= i < |s.lines| ensures CoreOk(s', i) { assert CoreOk(s, i); }
    forall i | 0 <= i < |Q(s)| ensures RequestOk(s', i) { assert RequestOk(s, i); }
  }

  /** Dropping an earlier request weakens what comes after a position. */
  lemma {:induction false} AfterTaken(s: Sys, s': Sys, k: nat, c: nat, p: nat)
    requires Taken(s, s', k) && c < |s.lines|
    ensures p <= k && After(s, c, p) ==> After(s', c, p)
    ensures p > k && After(s, c, p) ==> After(s', c, p - 1)
  {
    forall j | 0 <= j < |Q(s')| ensures Q(s')[j] == Q(s)[if j < k then j else j + 1] {}
  }

  /** What the directory becomes when it finishes the request at its head in
      state I, and what that request must have been. */
  ghost predicate FromIdle(s: Sys, s': Sys) {
    && Taken(s, s', 0) && s.dir.st.DI? && s'.dir.stalled == []
    && var m := Q(s)[0];
       match m.kind
       case GETS => s'.dir.st.DIS? && s'.dir.owner == s.dir.owner && s'.dir.cur == m.core
       case GETM => s'.dir.st.DIM? && s'.dir.owner == Some(m.core) && s'.dir.cur == m.core
       case UPG => s'.dir.st.DM? && s'.dir.owner == Some(m.core) && s'.dir.cur == s.dir.cur
  }

  lemma {:induction false} IdleCore(s: Sys, s': Sys, c: nat, i: nat)
    requires c < |s.lines| == |s.resp| && FromIdle(s, s')
    requires CoreOk(s, c) && RequestOk(s, 0)
    requires Writer(s.lines[c].st) ==>
      i < |Q(s)| && Q(s)[i] == Msg(UPG, c) && After(s, c, i + 1) && forall j :: 0 <= j < i ==> Q(s)[j].kind.GETS?
    ensures CoreOk(s', c)
  {
    AfterTaken(s, s', 0, c, 0);
    AfterTaken(s, s', 0, c, 1);
    assert Writer(s.lines[c].st) && i > 0 ==> Q(s')[i - 1] == Msg(UPG, c);
  }

  lemma {:induction false} IdleRequest(s: Sys, s': Sys, i: nat)
    requires |s.lines| == |s.resp| && FromIdle(s, s') && i < |Q(s')|
    requires RequestOk(s, 0) && RequestOk(s, i + 1) && OneEach(Q(s))
    ensures RequestOk(s', i)
  {
    var m, r := Q(s)[0], Q(s)[i + 1];
    assert Q(s')[i] == r;
    assert m.core != r.core || m.kind.UPG?;
    AfterTaken(s, s', 0, r.core, i + 2);
    assert i + 2 < |Q(s)| ==> Q(s')[i + 1] == Q(s)[i + 2];
  }

  lemma {:induction false} IdleDir(s: Sys, s': Sys)
    requires |s.lines| == |s.resp| && FromIdle(s, s')
    requires RequestOk(s, 0) && (|Q(s)| > 1 ==> RequestOk(s, 1)) && DirOk(s) && TransitOk(s)
    ensures DirOk(s') && TransitOk(s')
  {
    var m := Q(s)[0];
    AfterTaken(s, s', 0, m.core, 1);
    assert |Q(s)| > 1 ==> Q(s')[0] == Q(s)[1];
  }

  lemma {:induction false} IdleMemory(s: Sys, s': Sys)
    requires Inv(s) && FromIdle(s, s')
    ensures OneEach(Q(s')) && MemoryOk(s')
  {
    var m := Q(s)[0];
    assert RequestOk(s, 0);
    assert forall j :: 0 <= j < |Q(s')| ==> Q(s')[j] == Q(s)[j + 1];
    if m.kind.UPG? && !Writer(s.lines[m.core].st) {
      forall w | 0 <= w < |s.lines| ensures !Writer(s.lines[w].st) {
        if Writer(s.lines[w].st) { var i := HiddenWriter(s, w); }
      }
    }
  }

  lemma {:induction false} IdleInv(s: Sys, s': Sys)
    requires Inv(s) && FromIdle(s, s')
    ensures Inv(s')
  {
    assert RequestOk(s, 0);
    IdleDir(s, s');
    IdleMemory(s, s');
    forall i | 0 <= i < |s.lines| ensures CoreOk(s', i) {
      var w := 0;
      if Writer(s.lines[i].st) { w := HiddenWriter(s, i); }
      IdleCore(s, s', i, w);
    }
    forall i | 0 <= i < |Q(s')| ensures RequestOk(s', i) { IdleRequest(s, s', i); }
  }

  /** A repaired upgrade: the owner's own GETM starts the fetch. */
  ghost predicate FromOwner(s: Sys, s': Sys) {
    && Taken(s, s', 0) && s.dir.st.DM? && Q(s)[0].kind.GETM? && s.dir.owner == Some(Q(s)[0].core)
    && s'.dir.st.DIM? && s'.dir.owner == s.dir.owner && s'.dir.cur == Q(s)[0].core && s'.dir.stalled == []
  }

  lemma {:induction false} OwnerCore(s: Sys, s': Sys, c: nat)
    requires c < |s.lines| == |s.resp| && FromOwner(s, s') && TransitOk(s)
    requires CoreOk(s, c) && RequestOk(s, 0)
    ensures CoreOk(s', c)
  {
    AfterTaken(s, s', 0, c, 0);
  }

  lemma {:induction false} OwnerRequest(s: Sys, s': Sys, i: nat)
    requires |s.lines| == |s.resp| && FromOwner(s, s') && i < |Q(s')|
    requires RequestOk(s, 0) && RequestOk(s, i + 1) && OneEach(Q(s))
    ensures RequestOk(s', i)
  {
    assert Q(s')[i] == Q(s)[i + 1];
    AfterTaken(s, s', 0, Q(s)[i + 1].core, i + 2);
    assert i + 2 < |Q(s)| ==> Q(s')[i + 1] == Q(s)[i + 2];
  }

  lemma {:induction false} OwnerInv(s: Sys, s': Sys)
    requires Inv(s) && FromOwner(s, s')
    ensures Inv(s')
  {
    var o := Q(s)[0].core;
    assert RequestOk(s, 0);
    AfterTaken(s, s', 0, o, 1);
    assert forall j :: 0 <= j < |Q(s')| ==> Q(s')[j] == Q(s)[j + 1];
    forall i | 0 <= i < |s.lines| ensures CoreOk(s', i) { OwnerCore(s, s', i); }
    forall i | 0 <= i < |Q(s')| ensures RequestOk(s', i) { OwnerRequest(s, s', i); }
  }

  /** An upgrade that lost is dropped while the line has an owner. */
  ghost predicate Dropped(s: Sys, s': Sys) {
    && Taken(s, s', |s.dir.stalled|) && Owned(s) && Q(s)[|s.dir.stalled|].kind.UPG?
    && s'.dir.st == s.dir.st && s'.dir.owner == s.dir.owner
    && s'.dir.cur == s.dir.cur && s'.dir.stalled == s.dir.stalled
  }

  lemma {:induction false} DroppedRequest(s: Sys, s': Sys, i: nat)
    requires |s.lines| == |s.resp| && Dropped(s, s') && i < |Q(s')|
    requires forall j :: 0 <= j < |Q(s)| ==> RequestOk(s, j)
    ensures RequestOk(s', i)
  {
    var k := |s.dir.stalled|;
    var j := if i < k then i else i + 1;
    assert RequestOk(s, k) && RequestOk(s, j);
    assert Q(s')[i] == Q(s)[j];
    AfterTaken(s, s', k, Q(s)[j].core, j + 1);
    assert j + 1 < |Q(s)| ==> RequestOk(s, j + 1);
    assert i + 1 < |Q(s')| ==> Q(s')[i + 1] == Q(s)[if i + 1 < k then i + 1 else i + 2];
  }

  lemma {:induction false} DroppedCore(s: Sys, s': Sys, i: nat)
    requires |s.lines| == |s.resp| && Dropped(s, s') && RequestOk(s, |s.dir.stalled|) && i < |s.lines| && CoreOk(s, i)
    ensures |s'.lines| == |s'.resp| == |s.lines| && CoreOk(s', i)
  {
    var k := |s.dir.stalled|;
    assert forall j :: 0 <= j < |Q(s')| ==> Q(s')[j] == Q(s)[if j < k then j else j + 1];
    AfterTaken(s, s', k, i, 0);
  }

  lemma {:induction false} TakenOneEach(s: Sys, s': Sys, k: nat)
    requires Taken(s, s', k) && OneEach(Q(s))
    ensures OneEach(Q(s'))
  {
    assert forall j :: 0 <= j < |Q(s')| ==> Q(s')[j] == Q(s)[if j < k then j else j + 1];
  }

  lemma {:induction false} DroppedDir(s: Sys, s': Sys)
    requires |s.lines| == |s.resp| && DirOk(s) && TransitOk(s) && Dropped(s, s')
    requires forall j :: 0 <= j < |Q(s)| ==> RequestOk(s, j)
    ensures |s'.lines| == |s'.resp| == |s.lines| && DirOk(s')
  {
    var k := |s.dir.stalled|;
    assert RequestOk(s, k);
    assert forall j :: 0 <= j < |Q(s')| ==> Q(s')[j] == Q(s)[if j < k then j else j + 1];
  }

  lemma {:induction false} DroppedMemory(s: Sys, s': Sys)
    requires Inv(s) && Dropped(s, s')
    ensures |s'.lines| == |s'.resp| == |s.lines| && TransitOk(s') && MemoryOk(s')
  {
    NotPremature(s, s', s.dir.owner.value);
  }

  /** With an upgrade at the head there is no owner whose own GETM is next. */
  lemma {:induction false} NotPremature(s: Sys, s': Sys, o: nat)
    requires |s.lines| == |s.resp| && DirOk(s) && Dropped(s, s') && s.dir.owner == Some(o)
    ensures |s'.lines| == |s'.resp| == |s.lines| && o < |s.lines| && !Premature(s', o)
  {
    if s.dir.st.DM? { assert Q(s)[0].kind.UPG?; }
  }

  lemma {:induction false} DroppedInv(s: Sys, s': Sys)
    requires Inv(s) && Dropped(s, s')
    ensures Inv(s')
  {
    var k := |s.dir.stalled|;
    assert RequestOk(s, k);
    assert forall j :: 0 <= j < |Q(s')| ==> Q(s')[j] == Q(s)[if j < k then j else j + 1];
    forall i | 0 <= i < |s.lines| ensures CoreOk(s', i) {
      assert CoreOk(s, i);
      DroppedCore(s, s', i);
    }
    forall i | 0 <= i < |Q(s')| ensures RequestOk(s', i) { DroppedRequest(s, s', i); }
    TakenOneEach(s, s', k);
    DroppedDir(s, s');
    DroppedMemory(s, s');
  }

  /** These four are all that the directory can do with a request. */
  lemma {:induction false} DirRequestCases(s: Sys)
    requires |s.lines| == |s.resp| && s.dir.incoming != []
    requires DirOk(s) && TransitOk(s) && RequestOk(s, |s.dir.stalled|)
    ensures DirRequestStep(s).Ok?
    ensures var s' := DirRequestStep(s).sys; Deferred(s, s') || FromIdle(s, s') || FromOwner(s, s') || Dropped(s, s')
  {
    QueueAt(s);
    match s.dir.st {
      case DI => assert s.dir.stalled == [];
      case DM => assert s.dir.stalled == [];
      case _ =>
    }
  }

  /** And which it does: with no owner and no fetch it serves the request; while the line
      is owned it drops an upgrade and serves the owner's own GETM; otherwise it waits for
      the owner if it has not yet, and puts the request aside. */
  lemma {:induction false} DirRequestExactly(s: Sys)
    requires Inv(s) && s.dir.incoming != []
    ensures DirRequestStep(s).Ok?
    ensures var s', m := DirRequestStep(s).sys, s.dir.incoming[0];
            if s.dir.st.DI? then FromIdle(s, s')
            else if Owned(s) && m.kind.UPG? then Dropped(s, s')
            else if Owned(s) && m.kind.GETM? && s.dir.owner == Some(m.core) then FromOwner(s, s')
            else
              && Deferred(s, s')
              && if s.dir.st.DM? then s'.dir == s.dir.(st := DM_D)
                 else s'.dir == s.dir.(stalled := s.dir.stalled + [m], incoming := s.dir.incoming[1..])
  {
    assert RequestOk(s, |s.dir.stalled|);
    DirRequestCases(s);
    CaseExactly(s);
  }

  lemma {:induction false} CaseExactly(s: Sys)
    requires s.dir.incoming != [] && DirRequestStep(s).Ok?
    requires var s' := DirRequestStep(s).sys; Deferred(s, s') || FromIdle(s, s') || FromOwner(s, s') || Dropped(s, s')
    requires s.dir.st.DI? || s.dir.st.DM? ==> s.dir.stalled == []
    ensures var s', m := DirRequestStep(s).sys, s.dir.incoming[0];
            if s.dir.st.DI? then FromIdle(s, s')
            else if Owned(s) && m.kind.UPG? then Dropped(s, s')
            else if Owned(s) && m.kind.GETM? && s.dir.owner == Some(m.core) then FromOwner(s, s')
            else
              && Deferred(s, s')
              && if s.dir.st.DM? then s'.dir == s.dir.(st := DM_D)
                 else s'.dir == s.dir.(stalled := s.dir.stalled + [m], incoming := s.dir.incoming[1..])
  {
    QueueAt(s);
    var s' := DirRequestStep(s).sys;
    assert |Q(s')| == |s'.dir.stalled| + |s'.dir.incoming|;
  }

  lemma {:induction false} QueueAt(s: Sys)
    requires s.dir.incoming != []
    ensures var k := |s.dir.stalled|;
            && Q(s)[k] == s.dir.incoming[0] && Q(s)[..k] + Q(s)[k + 1..] == s.dir.stalled + s.dir.incoming[1..]
            && s.dir.stalled + [s.dir.incoming[0]] + s.dir.incoming[1..] == Q(s)
  {
  }

  lemma {:induction false} DirRequestInv(s: Sys)
    requires Inv(s) && Enabled(s, DirRequest)
    ensures DirRequestStep(s).Ok? && Inv(DirRequestStep(s).sys)
  {
    assert RequestOk(s, |s.dir.stalled|);
    DirRequestCases(s);
    var s' := DirRequestStep(s).sys;
    if Deferred(s, s') { DeferredInv(s, s'); }
    else if FromIdle(s, s') { IdleInv(s, s'); }
    else if FromOwner(s, s') { OwnerInv(s, s'); }
    else { DroppedInv(s, s'); }
  }
}
