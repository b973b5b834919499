/** Predictability: on the time-divided bus every access completes within a number
    of slots that depends on the number of caches only. */
module PmsiBound {
  import opened Wrappers
  import opened PmsiTable
  import opened PmsiSystem
  import opened PmsiInvariant
  import opened PmsiSteps
  import opened PmsiGrant
  import opened PmsiDirectory
  import opened PmsiSafety
  import opened PmsiProgress
  import opened PmsiTdm
  import opened PmsiFair

  // ---- Until the grant ----------------------------------------------------------------

  /** Cache c is granted its request or write-back in this step. */
  predicate Serves(tl: TLabel, c: nat) { tl.Act? && (tl.l.Grant? || tl.l.GrantWB?) && tl.l.c == c }

  /** While cache c is not granted its wait does not grow, and every slot end
      shortens it. */
  lemma {:induction false} GrantNearer(f: Timed, tl: TLabel, c: nat)
    requires FInv(f) && FEnabled(f, tl) && c < |f.t.sys.lines| && Asks(f.t.sys, c) && !Serves(tl, c)
    ensures FStep(f, tl).Some? && |FStep(f, tl).value.t.sys.lines| == |f.t.sys.lines|
    ensures Asks(FStep(f, tl).value.t.sys, c)
    ensures var f' := FStep(f, tl).value;
            Wait(f', c, f'.due) <= Wait(f, c, f.due) - if tl.EndSlot? then 1 else 0
  {
    FStepInv(f, tl);
    var f' := FStep(f, tl).value;
    if tl.EndSlot? {
      WaitEnds(f, c, f.due, f', f'.due);
    } else {
      StillAsks(f.t.sys, tl.l, c);
      if f.due && f.t.turn == c { GrantIsOwners(f, tl.l); }
    }
  }

  /** While the owner's grant is due nobody else can have the bus. */
  lemma {:induction false} GrantIsOwners(f: Timed, l: Label)
    requires FInv(f) && f.due && TEnabled(f.t, Act(l))
    ensures (l.Grant? || l.GrantWB?) ==> l.c == f.t.turn
  {
  }

  lemma {:induction false} WaitsForGrant(x: FExec, c: nat, i: nat, j: nat)
    requires FRun(x) && i <= j <= |x.ls| && c < |x.fs[i].t.sys.lines| && Asks(x.fs[i].t.sys, c)
    requires forall k :: i <= k < j ==> !Serves(x.ls[k], c)
    ensures |x.fs[j].t.sys.lines| == |x.fs[i].t.sys.lines| && Asks(x.fs[j].t.sys, c)
    ensures Slots(x.ls, i, j) <= Wait(x.fs[i], c, x.fs[i].due) - Wait(x.fs[j], c, x.fs[j].due)
  {
    if i < j {
      WaitsForGrant(x, c, i, j - 1);
      FRunInv(x, j - 1);
      GrantNearer(x.fs[j - 1], x.ls[j - 1], c);
    }
  }

  lemma {:induction false} StillAsking(x: FExec, c: nat, i: nat, j: nat)
    requires FRun(x) && i <= j <= |x.ls| && c < |x.fs[i].t.sys.lines| && Asks(x.fs[i].t.sys, c)
    requires forall k :: i <= k < j ==> !Serves(x.ls[k], c)
    ensures |x.fs[j].t.sys.lines| == |x.fs[i].t.sys.lines|
  {
    WaitsForGrant(x, c, i, j);
  }

  /** A pending request or write-back is granted before as many slots have ended as
      there are caches, and one more. */
  lemma {:induction false} GrantedWithin(x: FExec, c: nat, i: nat, j: nat) returns (k: nat)
    requires FRun(x) && i <= j <= |x.ls| && c < |x.fs[i].t.sys.lines| && Asks(x.fs[i].t.sys, c)
    requires Slots(x.ls, i, j) > |x.fs[i].t.sys.lines|
    ensures i <= k < j && Serves(x.ls[k], c) && Slots(x.ls, i, k) <= |x.fs[i].t.sys.lines|
    ensures |x.fs[k].t.sys.lines| == |x.fs[i].t.sys.lines|
  {
    k := FirstServed(x.ls, c, i, j);
    UnservedWithin(x, c, i, k);
    StillAsking(x, c, i, k);
  }

  lemma {:induction false} FirstServed(ls: seq<TLabel>, c: nat, i: nat, j: nat) returns (k: nat)
    requires i <= j <= |ls|
    ensures i <= k <= j && (k < j ==> Serves(ls[k], c)) && forall m :: i <= m < k ==> !Serves(ls[m], c)
  {
    k := i;
    while k < j && !Serves(ls[k], c)
      invariant i <= k <= j && forall m :: i <= m < k ==> !Serves(ls[m], c)
    {
      k := k + 1;
    }
  }

  lemma {:induction false} UnservedWithin(x: FExec, c: nat, i: nat, j: nat)
    requires FRun(x) && i <= j <= |x.ls| && c < |x.fs[i].t.sys.lines| && Asks(x.fs[i].t.sys, c)
    requires forall k :: i <= k < j ==> !Serves(x.ls[k], c)
    ensures Slots(x.ls, i, j) <= |x.fs[i].t.sys.lines|
  {
    FRunInv(x, i);
    FRunInv(x, j);
    WaitsForGrant(x, c, i, j);
    WaitBounds(x.fs[i], c, x.fs[i].due);
    WaitBounds(x.fs[j], c, x.fs[j].due);
  }

  // ---- The work ahead of a request --------------------------------------------------------

  /** The request of cache c that is answered with data. */
  predicate Mine(m: Msg, c: nat) { m.core == c && !m.kind.UPG? }

  /** The place of cache c's request in the queue, or its length. */
  function Place(q: seq<Msg>, c: nat): nat {
    if q == [] || Mine(q[0], c) then 0 else Place(q[1..], c) + 1
  }

  lemma {:induction false} PlaceIs(q: seq<Msg>, c: nat)
    ensures Place(q, c) <= |q| && (Place(q, c) < |q| ==> Mine(q[Place(q, c)], c))
    ensures forall i :: 0 <= i < Place(q, c) ==> !Mine(q[i], c)
  {
    if q != [] && !Mine(q[0], c) {
      PlaceIs(q[1..], c);
      forall i | 0 <= i < Place(q, c) ensures !Mine(q[i], c) {
        if i > 0 { assert q[i] == q[1..][i - 1]; }
      }
    }
  }

  lemma {:induction false} PlaceUnique(q: seq<Msg>, c: nat, p: nat)
    requires p <= |q| && (p < |q| ==> Mine(q[p], c)) && forall i :: 0 <= i < p ==> !Mine(q[i], c)
    ensures Place(q, c) == p
  {
    PlaceIs(q, c);
  }

  /** Removing another request from the queue. */
  lemma {:induction false} PlaceTaken(q: seq<Msg>, k: nat, c: nat)
    requires k < |q| && k != Place(q, c)
    ensures Place(q[..k] + q[k + 1..], c) == if k < Place(q, c) then Place(q, c) - 1 else Place(q, c)
  {
    var p, r := Place(q, c), q[..k] + q[k + 1..];
    PlaceIs(q, c);
    assert forall i :: 0 <= i < |r| ==> r[i] == if i < k then q[i] else q[i + 1];
    PlaceUnique(r, c, if k < p then p - 1 else p);
  }

  lemma {:induction false} PlaceAppend(q: seq<Msg>, m: Msg, c: nat)
    requires Place(q, c) < |q| || Mine(m, c)
    ensures Place(q + [m], c) == Place(q, c)
  {
    PlaceIs(q, c);
    PlaceUnique(q + [m], c, Place(q, c));
  }

  predicate Fetches(s: Sys) { s.dir.st.DIS? || s.dir.st.DIM? }

  /** How many requests the directory has to finish up to and with cache c's. */
  function Jobs(s: Sys, c: nat): nat {
    if Fetching(s, c) then 1 else Place(Q(s), c) + 1 + if Fetches(s) then 1 else 0
  }

  // ---- Waiting for the owner ----------------------------------------------------------------

  /** Slot ends until the directory has the line back from its owner: the owner may
      still wait for data, and then has to write back. */
  function Hold(f: Timed): int {
    var s, n := f.t.sys, |f.t.sys.lines|;
    if !Owned(s) || s.wbData.Some? || s.dir.owner.None? || !(s.dir.owner.value < n == |s.resp|) then 0
    else
      var o := s.dir.owner.value;
      if WaitM(s.lines[o].st) && s.resp[o] != [] then n + 1 + Wait(f, o, f.ready)
      else if s.lines[o].wb then Wait(f, o, f.due)
      else 0
  }

  lemma {:induction false} HoldBounds(f: Timed)
    requires f.t.turn < |f.t.sys.lines|
    ensures 0 <= Hold(f) <= 2 * |f.t.sys.lines| + 2
  {
  }

  /** Cache c has been granted its request and has no reply yet. */
  predicate Target(s: Sys, c: nat) {
    c < |s.lines| == |s.resp| && Waiting(s.lines[c].st) && s.resp[c] == []
  }

  /** With a request in the queue the owner is about to give the line up: it waits
      for data, has to write back, or repairs a lost upgrade. */
  lemma {:induction false} OwnerGivesUp(s: Sys, c: nat)
    requires Inv(s) && AllTracked(s) && Target(s, c) && s.side != Some(c) && Owned(s) && s.wbData.None?
    ensures s.dir.owner.Some? && s.dir.owner.value < |s.lines|
    ensures var o := s.dir.owner.value;
            || (WaitM(s.lines[o].st) && s.resp[o] != []) || (Writer(s.lines[o].st) && s.lines[o].wb)
            || (s.dir.st.DM? && WaitM(s.lines[o].st) && s.resp[o] == [] && Q(s) != [])
  {
    var o := s.dir.owner.value;
    assert CoreOk(s, o) && CoreOk(s, c) && Tracked(s, c);
    forall i | 0 <= i < |Q(s)| && s.lines[o].st.M? ensures Q(s)[i].kind.UPG? {
      assert Allows(s.side, M, Q(s)[i]);
    }
  }

  // ---- The measure ----------------------------------------------------------------------------

  /** The part of the measure that a slot end shortens. */
  function Slack(f: Timed, c: nat): int {
    if f.t.sys.side == Some(c) then 2 * |f.t.sys.lines| + 2 else Hold(f)
  }

  function Done(f: Timed): nat { if f.t.done then 1 else 0 }

  /** Slot ends until cache c has its data. */
  function Left(f: Timed, c: nat): int
    requires c < |f.t.sys.resp|
  {
    var n := |f.t.sys.lines|;
    if f.t.sys.resp[c] != [] then Wait(f, c, f.ready)
    else n + 1 + Jobs(f.t.sys, c) * (2 * n + 4) + Slack(f, c) + Done(f)
  }

  /** A step that does not move cache c's reply further away. */
  ghost predicate Eases(f: Timed, f': Timed, c: nat) {
    && |f'.t.sys.lines| == |f.t.sys.lines|
    && (|| (c < |f'.t.sys.resp| && f'.t.sys.resp[c] != [])
        || Jobs(f'.t.sys, c) < Jobs(f.t.sys, c)
        || (Jobs(f'.t.sys, c) == Jobs(f.t.sys, c) && Slack(f', c) <= Slack(f, c) && f'.t.done == f.t.done))
  }

  lemma {:induction false} JobsLess(a: nat, b: nat, k: nat)
    requires a < b
    ensures a * k + k <= b * k
  {
    assert (b - a - 1) * k >= 0;
    assert b * k == a * k + k + (b - a - 1) * k;
  }

  lemma {:induction false} EasesLeft(f: Timed, f': Timed, c: nat)
    requires Eases(f, f', c) && c < |f.t.sys.lines| == |f.t.sys.resp| == |f'.t.sys.resp| && f.t.sys.resp[c] == []
    requires f.t.turn < |f.t.sys.lines| && f'.t.turn < |f.t.sys.lines|
    ensures Left(f', c) <= Left(f, c)
  {
    var n := |f.t.sys.lines|;
    HoldBounds(f);
    HoldBounds(f');
    assert Jobs(f.t.sys, c) * (2 * n + 4) >= 0;
    if f'.t.sys.resp[c] != [] {
      WaitBounds(f', c, f'.ready);
    } else if Jobs(f'.t.sys, c) < Jobs(f.t.sys, c) {
      JobsLess(Jobs(f'.t.sys, c), Jobs(f.t.sys, c), 2 * n + 4);
    }
  }

  // ---- Every step eases ---------------------------------------------------------------------------

  lemma {:induction false} GrantKeepsWaiting(s: Sys, l: Label, c: nat)
    requires Inv(s) && Enabled(s, l) && Step(s, l).Ok? && c < |s.lines| && Waiting(s.lines[c].st)
    requires (l.Grant? || l.GrantWB?)
    ensures c < |Step(s, l).sys.lines| == |s.lines| && Waiting(Step(s, l).sys.lines[c].st)
  {
    assert CoreOk(s, c);
  }

  /** A cache that waits for data goes on waiting until it comes. */
  lemma {:induction false} KeepsWaiting(s: Sys, l: Label, c: nat)
    requires Inv(s) && Enabled(s, l) && Step(s, l).Ok? && c < |s.lines| && Waiting(s.lines[c].st)
    requires !(l.Deliver? && l.c == c)
    ensures c < |Step(s, l).sys.lines| == |s.lines| && Waiting(Step(s, l).sys.lines[c].st)
  {
    if l.Grant? || l.GrantWB? { GrantKeepsWaiting(s, l, c); }
  }

  lemma {:induction false} KeepsTarget(s: Sys, l: Label, c: nat)
    requires Inv(s) && Enabled(s, l) && Step(s, l).Ok? && Target(s, c)
    ensures var s' := Step(s, l).sys;
            c < |s'.lines| == |s'.resp| == |s.lines| && Waiting(s'.lines[c].st) && (s'.resp[c] != [] ==> l.DirMemory?)
  {
    KeepsWaiting(s, l, c);
  }

  lemma {:induction false} ProcessorEases(f: Timed, l: Label, f': Timed, c: nat)
    requires FInv(f) && FEnabled(f, Act(l)) && FStep(f, Act(l)) == Some(f') && Target(f.t.sys, c) && l.Processor?
    ensures Eases(f, f', c)
  {
    var s, s' := f.t.sys, f'.t.sys;
    assert CoreOk(s, l.c);
    if s.side != Some(c) && Owned(s) && s.wbData.None? { OwnerGivesUp(s, c); }
  }

  lemma {:induction false} DeliverEases(f: Timed, l: Label, f': Timed, c: nat)
    requires FInv(f) && FEnabled(f, Act(l)) && FStep(f, Act(l)) == Some(f') && Target(f.t.sys, c) && l.Deliver?
    ensures Eases(f, f', c)
  {
    var s, s' := f.t.sys, f'.t.sys;
    assert CoreOk(s, l.c);
    WaitBounds(f', l.c, f'.due);
    if s.side != Some(c) && Owned(s) && s.wbData.None? {
      OwnerGivesUp(s, c);
      WaitBounds(f, s.dir.owner.value, f.ready);
    }
  }

  lemma {:induction false} WriteBackEases(f: Timed, l: Label, f': Timed, c: nat)
    requires FInv(f) && FEnabled(f, Act(l)) && FStep(f, Act(l)) == Some(f') && Target(f.t.sys, c)
    requires l.GrantWB? || l.DirData?
    requires Prompt(f.t.sys, l)
    ensures Eases(f, f', c)
  {
    var s, s' := f.t.sys, f'.t.sys;
    TStepInv(f.t, Act(l));
    HoldBounds(f);
    if l.GrantWB? { assert CoreOk(s, l.c); } else { assert Q(s') == Q(s); }
  }

  lemma {:induction false} MemoryEases(f: Timed, l: Label, f': Timed, c: nat)
    requires FInv(f) && FEnabled(f, Act(l)) && FStep(f, Act(l)) == Some(f') && Target(f.t.sys, c) && l.DirMemory?
    requires Prompt(f.t.sys, l)
    ensures Eases(f, f', c)
  {
    MemoryJobs(f.t.sys, l, f'.t.sys, c);
  }

  lemma {:induction false} MemoryJobs(s: Sys, l: Label, s': Sys, c: nat)
    requires Inv(s) && Enabled(s, l) && l.DirMemory? && Prompt(s, l) && Step(s, l) == Ok(s') && c < |s.lines|
    ensures |s'.lines| == |s.lines| == |s'.resp| && (s'.resp[c] != [] || Jobs(s', c) < Jobs(s, c))
  {
    assert Q(s') == Q(s);
  }

  /** A request in the queue has a place there. */
  lemma {:induction false} InQueue(q: seq<Msg>, c: nat)
    requires Msg(GETS, c) in q || Msg(GETM, c) in q
    ensures Place(q, c) < |q|
  {
    var i :| 0 <= i < |q| && (q[i] == Msg(GETS, c) || q[i] == Msg(GETM, c));
    PlaceIs(q, c);
  }

  /** A new request goes behind those that are there. */
  lemma {:induction false} GrantJobs(s: Sys, d: nat, v: Value, s': Sys, c: nat)
    requires Inv(s) && AllTracked(s) && Enabled(s, Grant(d, v)) && GrantStep(s, d, v) == Ok(s') && Target(s, c)
    ensures Jobs(s', c) == Jobs(s, c) && s'.side != Some(c) && (s.side == Some(c) ==> d == c)
  {
    var k, own, side, w := GrantLegal(s, d, v, s');
    QueueGrows(s, s', d, k, own, side, w);
    assert CoreOk(s, c) && CoreOk(s, d) && Tracked(s, c);
    if !Fetching(s, c) {
      if d != c { InQueue(Q(s), c); }
      PlaceAppend(Q(s), Msg(k, d), c);
    }
  }

  /** Another cache's grant leaves the owner's data and write-back where they are. */
  lemma {:induction false} GrantKeepsOwner(s: Sys, d: nat, v: Value, s': Sys, o: nat)
    requires Inv(s) && Enabled(s, Grant(d, v)) && GrantStep(s, d, v) == Ok(s') && o < |s.lines| == |s.resp|
    ensures |s'.lines| == |s.lines| && s'.resp == s.resp && s'.wbData == s.wbData
    ensures s'.dir.st == s.dir.st && s'.dir.owner == s.dir.owner
    ensures WaitM(s.lines[o].st) ==> WaitM(s'.lines[o].st) && !s'.lines[o].wb
    ensures Writer(s.lines[o].st) && s.lines[o].wb ==> Writer(s'.lines[o].st) && s'.lines[o].wb
  {
    var k, own, side, w := GrantLegal(s, d, v, s');
    assert CoreOk(s, d) && CoreOk(s, o);
  }

  lemma {:induction false} HoldKept(f: Timed, f': Timed, o: nat)
    requires var s, s' := f.t.sys, f'.t.sys;
             && o < |s.lines| == |s'.lines| == |s.resp| && s'.resp == s.resp && s'.wbData == s.wbData
             && s'.dir.st == s.dir.st && s.dir.owner == s'.dir.owner == Some(o)
             && (WaitM(s.lines[o].st) ==> WaitM(s'.lines[o].st))
             && (Writer(s.lines[o].st) && s.lines[o].wb ==>
                   Writer(s'.lines[o].st) && s'.lines[o].wb && !(f.due && f.t.turn == o))
             && (|| (WaitM(s.lines[o].st) && (s.resp[o] != [] || !s'.lines[o].wb))
                 || (Writer(s.lines[o].st) && s.lines[o].wb))
    requires f'.t.turn == f.t.turn < |f.t.sys.lines| && f'.ready == f.ready && !f'.due
    ensures Hold(f') <= Hold(f)
  {
  }

  lemma {:induction false} GrantTimes(f: Timed, d: nat, v: Value, f': Timed)
    requires FInv(f) && FEnabled(f, Act(Grant(d, v))) && FStep(f, Act(Grant(d, v))) == Some(f')
    ensures f'.t.turn == f.t.turn < |f.t.sys.lines| && f'.ready == f.ready && !f'.due
    ensures GrantStep(f.t.sys, d, v) == Ok(f'.t.sys) && d < |f.t.sys.lines| && !f.t.sys.lines[d].wb
    ensures f.due ==> d == f.t.turn
  {
    assert CoreOk(f.t.sys, d);
  }

  lemma {:induction false} GrantHold(f: Timed, d: nat, v: Value, f': Timed, c: nat)
    requires FInv(f) && FEnabled(f, Act(Grant(d, v))) && FStep(f, Act(Grant(d, v))) == Some(f')
    requires Target(f.t.sys, c) && f.t.sys.side != Some(c)
    ensures |f'.t.sys.lines| == |f.t.sys.lines| && Hold(f') <= Hold(f)
  {
    var s, s' := f.t.sys, f'.t.sys;
    GrantTimes(f, d, v, f');
    GrantKeepsOwner(s, d, v, s', c);
    if Owned(s) && s.wbData.None? {
      OwnerGivesUp(s, c);
      GrantKeepsOwner(s, d, v, s', s.dir.owner.value);
      HoldKept(f, f', s.dir.owner.value);
    }
  }

  lemma {:induction false} GrantEases(f: Timed, d: nat, v: Value, f': Timed, c: nat)
    requires FInv(f) && FEnabled(f, Act(Grant(d, v))) && FStep(f, Act(Grant(d, v))) == Some(f') && Target(f.t.sys, c)
    ensures Eases(f, f', c)
  {
    GrantJobs(f.t.sys, d, v, f'.t.sys, c);
    SameSize(f.t.sys, Grant(d, v));
    HoldBounds(f');
    if f.t.sys.side != Some(c) { GrantHold(f, d, v, f', c); }
  }

  /** Taking a request out of the queue, with or without a fetch for it. */
  lemma {:induction false} TakenJobs(s: Sys, s': Sys, k: nat, c: nat)
    requires Taken(s, s', k) && !Fetching(s, c) && !Fetches(s) && !(Mine(Q(s)[k], c) && k == Place(Q(s), c))
    requires Fetches(s') ==> k == 0 && s'.dir.cur != c
    ensures Jobs(s', c) <= Jobs(s, c) && (!Fetches(s') && k < Place(Q(s), c) ==> Jobs(s', c) < Jobs(s, c))
  {
    PlaceIs(Q(s), c);
    PlaceTaken(Q(s), k, c);
  }

  /** The directory's handling of a request does not add to the work, and only keeps
      waiting for an owner that it waited for before. */
  ghost predicate Works(s: Sys, s': Sys, c: nat) {
    || Jobs(s', c) < Jobs(s, c)
    || (Jobs(s', c) == Jobs(s, c) && (Owned(s') ==> Owned(s) && s'.dir.owner == s.dir.owner))
  }

  lemma {:induction false} IdleJobs(s: Sys, s': Sys, c: nat)
    requires FromIdle(s, s') || FromOwner(s, s')
    ensures Works(s, s', c)
  {
    PlaceIs(Q(s), c);
    if Mine(Q(s)[0], c) { PlaceUnique(Q(s), c, 0); } else { TakenJobs(s, s', 0, c); }
  }

  lemma {:induction false} DroppedJobs(s: Sys, s': Sys, c: nat)
    requires Dropped(s, s')
    ensures Works(s, s', c)
  {
    TakenJobs(s, s', |s.dir.stalled|, c);
  }

  /** The wait for the owner is the same if the owner is. */
  lemma {:induction false} HoldSame(f: Timed, f': Timed)
    requires f' == f.(t := f.t.(sys := f'.t.sys)) && f'.t.sys == f.t.sys.(dir := f'.t.sys.dir)
    requires f.t.turn < |f.t.sys.lines|
    requires Owned(f'.t.sys) ==> Owned(f.t.sys) && f'.t.sys.dir.owner == f.t.sys.dir.owner
    ensures Hold(f') <= Hold(f)
  {
    HoldBounds(f);
  }

  lemma {:induction false} RequestWorks(s: Sys, c: nat)
    requires Inv(s) && s.dir.incoming != []
    ensures DirRequestStep(s).Ok? && Works(s, DirRequestStep(s).sys, c)
    ensures DirRequestStep(s).sys == s.(dir := DirRequestStep(s).sys.dir)
  {
    assert RequestOk(s, |s.dir.stalled|);
    DirRequestCases(s);
    var s' := DirRequestStep(s).sys;
    if FromIdle(s, s') || FromOwner(s, s') { IdleJobs(s, s', c); }
    else if Dropped(s, s') { DroppedJobs(s, s', c); }
  }

  lemma {:induction false} RequestEases(f: Timed, f': Timed, c: nat)
    requires FInv(f) && FEnabled(f, Act(DirRequest)) && FStep(f, Act(DirRequest)) == Some(f') && Target(f.t.sys, c)
    ensures Eases(f, f', c)
  {
    RequestWorks(f.t.sys, c);
    if Jobs(f'.t.sys, c) == Jobs(f.t.sys, c) { HoldSame(f, f'); }
  }

  lemma {:induction false} ActEases(f: Timed, l: Label, f': Timed, c: nat)
    requires FInv(f) && FEnabled(f, Act(l)) && FStep(f, Act(l)) == Some(f') && Target(f.t.sys, c)
    requires Prompt(f.t.sys, l)
    ensures Eases(f, f', c)
  {
    match l
    case Processor(_, _, _) => ProcessorEases(f, l, f', c);
    case Grant(d, v) => GrantEases(f, d, v, f', c);
    case GrantWB(_) => WriteBackEases(f, l, f', c);
    case DirRequest => RequestEases(f, f', c);
    case DirMemory(_) => MemoryEases(f, l, f', c);
    case DirData(_) => WriteBackEases(f, l, f', c);
    case Deliver(_, _) => DeliverEases(f, l, f', c);
  }

  /** When a slot ends, memory has answered a fetch in it, or the directory waits
      for the owner, who is one slot closer to giving the line up. */
  lemma {:induction false} SlotEases(f: Timed, f': Timed, c: nat)
    requires FInv(f) && FEnabled(f, EndSlot) && FStep(f, EndSlot) == Some(f') && Target(f.t.sys, c)
    ensures f'.t.sys == f.t.sys && !f'.t.done && Hold(f') + (if f.t.done then 0 else 1) <= Hold(f)
  {
    var s := f.t.sys;
    assert CoreOk(s, c) && Tracked(s, c);
    if Owned(s) {
      OwnerGivesUp(s, c);
      var o := s.dir.owner.value;
      if WaitM(s.lines[o].st) && s.resp[o] != [] {
        WaitEnds(f, o, f.ready, f', f'.ready);
      } else if s.lines[o].wb {
        WaitEnds(f, o, f.due, f', f'.due);
      }
    }
  }

  /** The measure never grows before cache c has its data, and every slot end makes
      it smaller. */
  lemma {:induction false} LeftShrinks(f: Timed, tl: TLabel, c: nat)
    requires FInv(f) && FEnabled(f, tl) && c < |f.t.sys.lines| && Waiting(f.t.sys.lines[c].st)
    requires !(tl.Act? && tl.l.Deliver? && tl.l.c == c)
    requires InTurn(f, tl)
    ensures FStep(f, tl).Some? && FInv(FStep(f, tl).value) && |FStep(f, tl).value.t.sys.lines| == |f.t.sys.lines|
    ensures var f' := FStep(f, tl).value;
            Waiting(f'.t.sys.lines[c].st) && Left(f', c) <= Left(f, c) - if tl.EndSlot? then 1 else 0
  {
    FStepInv(f, tl);
    var f' := FStep(f, tl).value;
    if tl.EndSlot? {
      if f.t.sys.resp[c] != [] { WaitEnds(f, c, f.ready, f', f'.ready); } else { SlotEases(f, f', c); }
    } else if f.t.sys.resp[c] != [] {
      RepliedStays(f, tl.l, f', c);
    } else {
      KeepsTarget(f.t.sys, tl.l, c);
      ActEases(f, tl.l, f', c);
      EasesLeft(f, f', c);
    }
  }

  lemma {:induction false} RepliedStays(f: Timed, l: Label, f': Timed, c: nat)
    requires FInv(f) && FEnabled(f, Act(l)) && FStep(f, Act(l)) == Some(f') && c < |f.t.sys.lines| == |f.t.sys.resp|
    requires Waiting(f.t.sys.lines[c].st) && f.t.sys.resp[c] != [] && !(l.Deliver? && l.c == c)
    ensures c < |f'.t.sys.lines| == |f'.t.sys.resp| == |f.t.sys.lines|
    ensures Waiting(f'.t.sys.lines[c].st) && f'.t.sys.resp[c] != [] && Wait(f', c, f'.ready) <= Wait(f, c, f.ready)
  {
    KeepsWaiting(f.t.sys, l, c);
    StillReady(f.t.sys, l, c);
  }

  // ---- The bound ------------------------------------------------------------------------------------

  /** At most two requests of each cache are in the queue. */
  lemma {:induction false} QueueBound(s: Sys)
    requires Inv(s)
    ensures |Q(s)| <= 2 * |s.lines|
  {
    var n := |s.lines|;
    var cs := seq(|Q(s)|, i requires 0 <= i < |Q(s)| => 2 * Q(s)[i].core + if Q(s)[i].kind.UPG? then 1 else 0);
    forall i | 0 <= i < |cs| ensures cs[i] < 2 * n + 1 && cs[i] != 2 * n { assert RequestOk(s, i); }
    Pigeonhole(cs, 2 * n + 1, 2 * n);
  }

  /** Slots in which cache c can wait for its data once it has been granted. */
  function DataBound(n: nat): nat { 3 * n + 4 + (2 * n + 2) * (2 * n + 4) }

  lemma {:induction false} JobsAtMost(a: nat, b: nat, k: nat)
    requires a <= b
    ensures 0 <= a * k <= b * k
  {
    if a < b { JobsLess(a, b, k); }
  }

  lemma {:induction false} LeftBound(f: Timed, c: nat)
    requires FInv(f) && c < |f.t.sys.lines|
    ensures 1 <= Left(f, c) <= DataBound(|f.t.sys.lines|)
  {
    var s, n := f.t.sys, |f.t.sys.lines|;
    QueueBound(s);
    PlaceIs(Q(s), c);
    HoldBounds(f);
    WaitBounds(f, c, f.ready);
    JobsAtMost(Jobs(s, c), 2 * n + 2, 2 * n + 4);
  }

  /** Cache c receives its data in this step. */
  predicate Answers(tl: TLabel, c: nat) { tl.Act? && tl.l.Deliver? && tl.l.c == c }

  lemma {:induction false} WaitsForData(x: FExec, c: nat, i: nat, j: nat)
    requires FRun(x) && AllInTurn(x) && i <= j <= |x.ls| && c < |x.fs[i].t.sys.lines|
    requires Waiting(x.fs[i].t.sys.lines[c].st)
    requires forall k :: i <= k < j ==> !Answers(x.ls[k], c)
    ensures FInv(x.fs[i]) && FInv(x.fs[j]) && |x.fs[j].t.sys.lines| == |x.fs[i].t.sys.lines|
    ensures Waiting(x.fs[j].t.sys.lines[c].st) && Slots(x.ls, i, j) <= Left(x.fs[i], c) - Left(x.fs[j], c)
  {
    FRunInv(x, i);
    if i < j {
      WaitsForData(x, c, i, j - 1);
      assert InTurn(x.fs[j - 1], x.ls[j - 1]);
      LeftShrinks(x.fs[j - 1], x.ls[j - 1], c);
    }
  }

  lemma {:induction false} UnansweredWithin(x: FExec, c: nat, i: nat, j: nat)
    requires FRun(x) && AllInTurn(x) && i <= j <= |x.ls| && c < |x.fs[i].t.sys.lines|
    requires Waiting(x.fs[i].t.sys.lines[c].st)
    requires forall k :: i <= k < j ==> !Answers(x.ls[k], c)
    ensures Slots(x.ls, i, j) < DataBound(|x.fs[i].t.sys.lines|)
  {
    WaitsForData(x, c, i, j);
    LeftBound(x.fs[i], c);
    LeftBound(x.fs[j], c);
  }

  lemma {:induction false} FirstAnswered(ls: seq<TLabel>, c: nat, i: nat, j: nat) returns (k: nat)
    requires i <= j <= |ls|
    ensures i <= k <= j && (k < j ==> Answers(ls[k], c)) && forall m :: i <= m < k ==> !Answers(ls[m], c)
  {
    k := i;
    while k < j && !Answers(ls[k], c)
      invariant i <= k <= j && forall m :: i <= m < k ==> !Answers(ls[m], c)
    {
      k := k + 1;
    }
  }

  lemma {:induction false} StillWaiting(x: FExec, c: nat, i: nat, j: nat)
    requires FRun(x) && AllInTurn(x) && i <= j <= |x.ls| && c < |x.fs[i].t.sys.lines|
    requires Waiting(x.fs[i].t.sys.lines[c].st)
    requires forall k :: i <= k < j ==> !Answers(x.ls[k], c)
    ensures c < |x.fs[j].t.sys.lines| && Waiting(x.fs[j].t.sys.lines[c].st)
  {
    WaitsForData(x, c, i, j);
  }

  /** A cache that waits for data gets it within the bound. */
  lemma {:induction false} AnsweredWithin(x: FExec, c: nat, i: nat, j: nat) returns (k: nat)
    requires FRun(x) && AllInTurn(x) && i <= j <= |x.ls| && c < |x.fs[i].t.sys.lines|
    requires Waiting(x.fs[i].t.sys.lines[c].st)
    requires Slots(x.ls, i, j) >= DataBound(|x.fs[i].t.sys.lines|)
    ensures i <= k < j && Answers(x.ls[k], c) && Slots(x.ls, i, k) < DataBound(|x.fs[i].t.sys.lines|)
    ensures c < |x.fs[k].t.sys.lines| && Waiting(x.fs[k].t.sys.lines[c].st)
  {
    k := FirstAnswered(x.ls, c, i, j);
    UnansweredWithin(x, c, i, k);
    StillWaiting(x, c, i, k);
  }

  lemma {:induction false} SlotsSplit(ls: seq<TLabel>, i: nat, k: nat, j: nat)
    requires i <= k <= j <= |ls|
    ensures Slots(ls, i, j) == Slots(ls, i, k) + Slots(ls, k, j)
  {
    if k < j { SlotsSplit(ls, i, k, j - 1); }
  }

  /** An access in progress has a request for the bus or waits for data. */
  lemma {:induction false} AccessWaits(s: Sys, c: nat)
    requires Inv(s) && c < |s.lines| && Outstanding(s.lines[c].st)
    ensures Waiting(s.lines[c].st) || Asks(s, c)
  {
    assert CoreOk(s, c);
  }

  /** Data completes an access. */
  lemma {:induction false} DataCompletes(f: Timed, tl: TLabel, c: nat)
    requires FInv(f) && FEnabled(f, tl) && Answers(tl, c) && c < |f.t.sys.lines| && Waiting(f.t.sys.lines[c].st)
    ensures FStep(f, tl).Some? && |FStep(f, tl).value.t.sys.lines| == |f.t.sys.lines|
    ensures !Outstanding(FStep(f, tl).value.t.sys.lines[c].st)
  {
    FStepInv(f, tl);
    SameSize(f.t.sys, tl.l);
  }

  /** A grant completes an upgrade, or the cache then waits for data, or it was for
      a write-back. */
  lemma {:induction false} GrantCompletes(f: Timed, tl: TLabel, c: nat)
    requires FInv(f) && FEnabled(f, tl) && Serves(tl, c) && c < |f.t.sys.lines|
    ensures FStep(f, tl).Some? && |FStep(f, tl).value.t.sys.lines| == |f.t.sys.lines|
    ensures var st := FStep(f, tl).value.t.sys.lines[c].st; Outstanding(st) ==> Waiting(st)
  {
    var s := f.t.sys;
    FStepInv(f, tl);
    SameSize(s, tl.l);
    assert CoreOk(s, c);
    if tl.l.Grant? { var k, own, side, w := GrantLegal(s, c, tl.l.v, FStep(f, tl).value.t.sys); }
  }

  /** Slots within which an access completes, in a system of n caches. */
  function AccessBound(n: nat): nat { n + DataBound(n) }

  lemma {:induction false} AnsweredAt(x: FExec, m: nat, c: nat)
    requires FRun(x) && m < |x.ls| && Answers(x.ls[m], c)
    requires c < |x.fs[m].t.sys.lines| && Waiting(x.fs[m].t.sys.lines[c].st)
    ensures c < |x.fs[m + 1].t.sys.lines| && !Outstanding(x.fs[m + 1].t.sys.lines[c].st)
  {
    FRunInv(x, m);
    DataCompletes(x.fs[m], x.ls[m], c);
  }

  lemma {:induction false} GrantedAt(x: FExec, m: nat, c: nat)
    requires FRun(x) && m < |x.ls| && Serves(x.ls[m], c) && c < |x.fs[m].t.sys.lines|
    ensures |x.fs[m + 1].t.sys.lines| == |x.fs[m].t.sys.lines|
    ensures var st := x.fs[m + 1].t.sys.lines[c].st; Outstanding(st) ==> Waiting(st)
  {
    FRunInv(x, m);
    GrantCompletes(x.fs[m], x.ls[m], c);
  }

  lemma {:induction false} DataWithin(x: FExec, c: nat, i: nat, j: nat) returns (k: nat)
    requires FRun(x) && AllInTurn(x) && i <= j <= |x.ls| && c < |x.fs[i].t.sys.lines|
    requires Waiting(x.fs[i].t.sys.lines[c].st)
    requires Slots(x.ls, i, j) >= DataBound(|x.fs[i].t.sys.lines|)
    ensures i < k <= j && Slots(x.ls, i, k) < DataBound(|x.fs[i].t.sys.lines|)
    ensures c < |x.fs[k].t.sys.lines| && !Outstanding(x.fs[k].t.sys.lines[c].st)
  {
    var m := AnsweredWithin(x, c, i, j);
    AnsweredAt(x, m, c);
    k := m + 1;
  }

  lemma {:induction false} GrantWithin(x: FExec, c: nat, i: nat, j: nat) returns (k: nat)
    requires FRun(x) && i <= j <= |x.ls| && c < |x.fs[i].t.sys.lines| && Asks(x.fs[i].t.sys, c)
    requires Slots(x.ls, i, j) > |x.fs[i].t.sys.lines|
    ensures i < k <= j && Slots(x.ls, i, k) <= |x.fs[i].t.sys.lines| && |x.fs[k].t.sys.lines| == |x.fs[i].t.sys.lines|
    ensures var st := x.fs[k].t.sys.lines[c].st; Outstanding(st) ==> Waiting(st)
  {
    var m := GrantedWithin(x, c, i, j);
    GrantedAt(x, m, c);
    k := m + 1;
  }

  /** Every access completes within a number of slots that depends on the number of
      caches only. */
  lemma {:induction false} AccessWithin(x: FExec, c: nat, i: nat, j: nat) returns (k: nat)
    requires FRun(x) && AllInTurn(x) && i <= j <= |x.ls| && c < |x.fs[i].t.sys.lines|
    requires Outstanding(x.fs[i].t.sys.lines[c].st)
    requires Slots(x.ls, i, j) >= AccessBound(|x.fs[i].t.sys.lines|)
    ensures i < k <= j && Slots(x.ls, i, k) <= AccessBound(|x.fs[i].t.sys.lines|)
    ensures c < |x.fs[k].t.sys.lines| && !Outstanding(x.fs[k].t.sys.lines[c].st)
  {
    FRunInv(x, i);
    AccessWaits(x.fs[i].t.sys, c);
    if Waiting(x.fs[i].t.sys.lines[c].st) {
      k := DataWithin(x, c, i, j);
    } else {
      var m := GrantWithin(x, c, i, j);
      k := m;
      if Outstanding(x.fs[m].t.sys.lines[c].st) {
        SlotsSplit(x.ls, i, m, j);
        k := DataWithin(x, c, m, j);
        SlotsSplit(x.ls, i, m, k);
      }
    }
  }
}
