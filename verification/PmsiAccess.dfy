/** The accesses of the processors.  A load or store that finds the line in MS_A is put
    aside by the cache while the sequencer already counts it; it is tried again when
    the cache's own PUTM has woken it.  Every access, put aside or not, completes
    within a number of slots that depends on the number of caches only. */
module PmsiAccess {
  import opened Wrappers
  import opened PmsiTable
  import opened PmsiSystem
  import opened PmsiInvariant
  import opened PmsiSteps
  import opened PmsiSafety
  import opened PmsiProgress
  import opened PmsiTdm
  import opened PmsiFair
  import opened PmsiBound

  /** The access of each cache that has been put aside. */
  type Aside = seq<Option<CpuOp>>

  /** The sequencer of cache c has an access to the line in its table. */
  predicate InProgress(s: Sys, aside: Aside, c: nat)
    requires c < |s.lines| == |aside|
  {
    Outstanding(s.lines[c].st) || aside[c].Some?
  }

  /** Cache c's own PUTM has been granted since its access was put aside: the access
      is at the head of the queue of the processor again. */
  predicate Awake(s: Sys, aside: Aside, c: nat)
    requires c < |s.lines| == |aside|
  {
    aside[c].Some? && !s.lines[c].st.MS_A? && !s.lines[c].st.MI_A?
  }

  predicate SomeAwake(s: Sys, aside: Aside) {
    |s.lines| == |aside| && exists c :: 0 <= c < |aside| && Awake(s, aside, c)
  }

  /** Cache c is given a load or store, a new one or the one that was put aside. */
  predicate Accesses(tl: TLabel, c: nat) {
    tl.Act? && tl.l.Processor? && tl.l.c == c && !tl.l.op.Replacement?
  }

  /** The sequencer lets no second access to the line through, and an access that is
      awake is tried before the slot ends. */
  predicate Admitted(f: Timed, aside: Aside, tl: TLabel) {
    match tl
    case EndSlot => !SomeAwake(f.t.sys, aside)
    case Act(l) =>
      l.Processor? && !l.op.Replacement? && l.c < |aside| ==> aside[l.c].None? || aside[l.c] == Some(l.op)
  }

  /** What is put aside after a step. */
  function AsideNext(f: Timed, aside: Aside, tl: TLabel): (r: Aside)
    ensures |r| == |aside|
    ensures forall c :: 0 <= c < |aside| && !Accesses(tl, c) ==> r[c] == aside[c]
  {
    if tl.Act? && tl.l.Processor? && !tl.l.op.Replacement? && tl.l.c < |aside| && tl.l.c < |f.t.sys.lines| then
      aside[tl.l.c := if CacheStep(f.t.sys.lines[tl.l.c].st, Cpu(tl.l.op)).Stall? then Some(tl.l.op) else None]
    else aside
  }

  /** A run under the arbiter, with what is put aside in each of its states. */
  datatype AExec = AExec(x: FExec, asides: seq<Aside>)

  ghost predicate ARun(y: AExec) {
    && FRun(y.x) && |y.asides| == |y.x.fs|
    && y.asides[0] == seq(|y.x.fs[0].t.sys.lines|, _ => None)
    && forall i {:trigger Admitted(y.x.fs[i], y.asides[i], y.x.ls[i])} :: 0 <= i < |y.x.ls| ==>
         && Admitted(y.x.fs[i], y.asides[i], y.x.ls[i])
         && y.asides[i + 1] == AsideNext(y.x.fs[i], y.asides[i], y.x.ls[i])
  }

  // ---- The sequencer's table -----------------------------------------------------------

  /** The lines in which an access that was put aside can find itself. */
  predicate Parked(st: CState) { st.MS_A? || st.MI_A? || st.S? || st.I? }

  predicate AsideOk(s: Sys, aside: Aside) {
    && |aside| == |s.lines|
    && forall c :: 0 <= c < |aside| && aside[c].Some? ==> Parked(s.lines[c].st) && !aside[c].value.Replacement?
  }

  /** What cache c sees of a step. */
  function EventAt(s: Sys, l: Label, c: nat): Option<Event>
    requires Enabled(s, l)
  {
    match l
    case Processor(d, op, _) => if d == c then Some(Cpu(op)) else None
    case Grant(d, _) => Some(Seen(d, s.lines[d].req.value, c))
    case GrantWB(d) => Some(SeenPUTM(d, c))
    case Deliver(d, _) => if d == c then Some(Data) else None
    case _ => None
  }

  /** The access of cache c completes in this step. */
  predicate Completed(s: Sys, tl: TLabel, c: nat)
    requires c < |s.lines| && (tl.Act? ==> Enabled(s, tl.l))
  {
    tl.Act? && EventAt(s, tl.l, c).Some? &&
    var o := CacheStep(s.lines[c].st, EventAt(s, tl.l, c).value);
    o.Go? && !o.hit.NoHit?
  }

  /** A line moves by the event its cache sees. */
  lemma {:induction false} MovesBy(s: Sys, l: Label, c: nat)
    requires Enabled(s, l) && Step(s, l).Ok? && c < |s.lines|
    ensures |Step(s, l).sys.lines| == |s.lines|
    ensures var ev, st' := EventAt(s, l, c), Step(s, l).sys.lines[c].st;
            if ev.None? then st' == s.lines[c].st
            else var o := CacheStep(s.lines[c].st, ev.value);
                 (o.Stall? && ev.value.Cpu? && st' == s.lines[c].st) || (o.Go? && st' == o.next)
  {
    match l
    case Grant(d, _) =>
      var ev := (i: nat) => Seen(d, s.lines[d].req.value, i);
      assert ev(c) == Seen(d, s.lines[d].req.value, c);
    case GrantWB(d) =>
      var ev := (i: nat) => SeenPUTM(d, i);
      assert ev(c) == SeenPUTM(d, c);
    case _ =>
  }

  /** An access stays in the table from the step that brings it to the step in which
      it completes. */
  lemma {:induction false} TableStep(f: Timed, aside: Aside, tl: TLabel, c: nat)
    requires FInv(f) && FEnabled(f, tl) && AsideOk(f.t.sys, aside) && Admitted(f, aside, tl) && c < |aside|
    ensures FStep(f, tl).Some? && |FStep(f, tl).value.t.sys.lines| == |aside|
    ensures InProgress(FStep(f, tl).value.t.sys, AsideNext(f, aside, tl), c) <==>
            (InProgress(f.t.sys, aside, c) || Accesses(tl, c)) && !Completed(f.t.sys, tl, c)
  {
    FStepInv(f, tl);
    var s := f.t.sys;
    assert CoreOk(s, c);
    if tl.Act? {
      MovesBy(s, tl.l, c);
      var ev, st := EventAt(s, tl.l, c), s.lines[c].st;
      if ev.Some? && !(ev.value.Cpu? && Outstanding(st)) && (CacheStep(st, ev.value).Go? || !ev.value.op.Replacement?) {
        AccessTracked(st, ev.value);
      }
    }
  }

  lemma {:induction false} ParkedStays(s: Sys, l: Label, c: nat)
    requires Enabled(s, l) && Step(s, l).Ok? && c < |s.lines| && Parked(s.lines[c].st) && s.lines[c].req.None?
    requires !Accesses(Act(l), c)
    ensures |Step(s, l).sys.lines| == |s.lines| && Parked(Step(s, l).sys.lines[c].st)
  {
    MovesBy(s, l, c);
  }

  /** Only an access that meets MS_A is put aside. */
  lemma {:induction false} ParkedAccess(s: Sys, l: Label, c: nat)
    requires Enabled(s, l) && Step(s, l).Ok? && c < |s.lines| && Live(s.lines[c].st) && Accesses(Act(l), c)
    requires CacheStep(s.lines[c].st, Cpu(l.op)).Stall?
    ensures |Step(s, l).sys.lines| == |s.lines| && Parked(Step(s, l).sys.lines[c].st)
  {
    AccessPutAside(s.lines[c].st, l.op);
  }

  lemma {:induction false} AsideStays(f: Timed, aside: Aside, tl: TLabel, c: nat)
    requires FInv(f) && FEnabled(f, tl) && AsideOk(f.t.sys, aside) && Admitted(f, aside, tl) && c < |aside|
    ensures FStep(f, tl).Some? && |FStep(f, tl).value.t.sys.lines| == |aside|
    ensures var r := AsideNext(f, aside, tl)[c];
            r.Some? ==> Parked(FStep(f, tl).value.t.sys.lines[c].st) && !r.value.Replacement?
  {
    FStepInv(f, tl);
    assert CoreOk(f.t.sys, c);
    if tl.Act? {
      SameSize(f.t.sys, tl.l);
      if AsideNext(f, aside, tl)[c].Some? {
        if Accesses(tl, c) { ParkedAccess(f.t.sys, tl.l, c); } else { ParkedStays(f.t.sys, tl.l, c); }
      }
    }
  }

  lemma {:induction false} AsideStep(f: Timed, aside: Aside, tl: TLabel)
    requires FInv(f) && FEnabled(f, tl) && AsideOk(f.t.sys, aside) && Admitted(f, aside, tl)
    ensures FStep(f, tl).Some? && AsideOk(FStep(f, tl).value.t.sys, AsideNext(f, aside, tl))
  {
    FStepInv(f, tl);
    if tl.Act? { SameSize(f.t.sys, tl.l); }
    forall c | 0 <= c < |aside|
      ensures var r := AsideNext(f, aside, tl)[c];
              r.Some? ==> Parked(FStep(f, tl).value.t.sys.lines[c].st) && !r.value.Replacement?
    {
      AsideStays(f, aside, tl, c);
    }
  }

  lemma {:induction false} ARunInv(y: AExec, i: nat)
    requires ARun(y) && i < |y.x.fs|
    ensures FInv(y.x.fs[i]) && AsideOk(y.x.fs[i].t.sys, y.asides[i])
  {
    FRunInv(y.x, i);
    if i > 0 {
      ARunInv(y, i - 1);
      assert Admitted(y.x.fs[i - 1], y.asides[i - 1], y.x.ls[i - 1]);
      assert FEnabled(y.x.fs[i - 1], y.x.ls[i - 1]);
      AsideStep(y.x.fs[i - 1], y.asides[i - 1], y.x.ls[i - 1]);
    }
  }

  /** In every run the table holds an access from the step that brings it to the step
      in which it completes, whether it is put aside on the way or not. */
  lemma {:induction false} TableTracked(y: AExec, i: nat, c: nat)
    requires ARun(y) && i < |y.x.ls| && c < |y.asides[i]|
    ensures c < |y.x.fs[i].t.sys.lines| == |y.asides[i]|
    ensures c < |y.x.fs[i + 1].t.sys.lines| == |y.asides[i + 1]|
    ensures y.x.ls[i].Act? ==> Enabled(y.x.fs[i].t.sys, y.x.ls[i].l)
    ensures InProgress(y.x.fs[i + 1].t.sys, y.asides[i + 1], c) <==>
            (InProgress(y.x.fs[i].t.sys, y.asides[i], c) || Accesses(y.x.ls[i], c)) &&
            !Completed(y.x.fs[i].t.sys, y.x.ls[i], c)
  {
    ARunInv(y, i);
    assert Admitted(y.x.fs[i], y.asides[i], y.x.ls[i]);
    assert FEnabled(y.x.fs[i], y.x.ls[i]);
    TableStep(y.x.fs[i], y.asides[i], y.x.ls[i], c);
  }

  /** The arbiter with waiting accesses still never has to wait for ever; only an
      access that is awake is then needed from the processors. */
  lemma {:induction false} AccessNeverStuck(f: Timed, aside: Aside) returns (tl: TLabel)
    requires FInv(f) && AsideOk(f.t.sys, aside)
    ensures FEnabled(f, tl) && Admitted(f, aside, tl)
    ensures tl.Act? && tl.l.Processor? ==>
            tl.l.c < |f.t.sys.lines| == |aside| && Awake(f.t.sys, aside, tl.l.c) && aside[tl.l.c] == Some(tl.l.op)
  {
    if SomeAwake(f.t.sys, aside) {
      var c :| 0 <= c < |aside| && Awake(f.t.sys, aside, c);
      assert CoreOk(f.t.sys, c);
      tl := Act(Processor(c, aside[c].value, 0));
    } else {
      tl := FairNeverStuck(f);
    }
  }

  // ---- The bound -------------------------------------------------------------------------

  /** Slot ends until the access that cache c has put aside is tried with success. */
  function Parking(f: Timed, aside: Aside, c: nat): int
    requires c < |f.t.sys.lines| == |aside|
  {
    if Awake(f.t.sys, aside, c) then 0 else Wait(f, c, f.due) - 1
  }

  lemma {:induction false} AwakeStays(s: Sys, l: Label, c: nat)
    requires Enabled(s, l) && Step(s, l).Ok? && c < |s.lines| && (s.lines[c].st.S? || s.lines[c].st.I?)
    requires s.lines[c].req.None? && !Accesses(Act(l), c)
    ensures |Step(s, l).sys.lines| == |s.lines|
    ensures var st := Step(s, l).sys.lines[c].st; st.S? || st.I?
  {
    MovesBy(s, l, c);
  }

  /** An access that is awake is not put aside again. */
  lemma {:induction false} AwakeOnce(f: Timed, aside: Aside, tl: TLabel, c: nat)
    requires FInv(f) && FEnabled(f, tl) && AsideOk(f.t.sys, aside)
    requires c < |aside| && Awake(f.t.sys, aside, c) && AsideNext(f, aside, tl)[c].Some?
    ensures FStep(f, tl).Some? && |FStep(f, tl).value.t.sys.lines| == |aside|
    ensures Awake(FStep(f, tl).value.t.sys, AsideNext(f, aside, tl), c)
  {
    FStepInv(f, tl);
    assert CoreOk(f.t.sys, c);
    if tl.Act? { AwakeStays(f.t.sys, tl.l, c); }
  }

  /** The cache's own PUTM wakes it. */
  lemma {:induction false} ServiceWakes(f: Timed, aside: Aside, tl: TLabel, c: nat)
    requires FInv(f) && FEnabled(f, tl) && AsideOk(f.t.sys, aside) && c < |aside| && aside[c].Some? && Serves(tl, c)
    ensures FStep(f, tl).Some? && |FStep(f, tl).value.t.sys.lines| == |aside|
    ensures Awake(FStep(f, tl).value.t.sys, AsideNext(f, aside, tl), c)
  {
    FStepInv(f, tl);
    assert CoreOk(f.t.sys, c);
    MovesBy(f.t.sys, tl.l, c);
  }

  /** While the access stays put aside the wait does not grow, and every slot end
      shortens it. */
  lemma {:induction false} ParkingShrinks(f: Timed, aside: Aside, tl: TLabel, c: nat)
    requires FInv(f) && FEnabled(f, tl) && AsideOk(f.t.sys, aside) && Admitted(f, aside, tl)
    requires c < |aside| && aside[c].Some? && AsideNext(f, aside, tl)[c].Some?
    ensures FStep(f, tl).Some? && |FStep(f, tl).value.t.sys.lines| == |aside|
    ensures Parking(FStep(f, tl).value, AsideNext(f, aside, tl), c) <=
            Parking(f, aside, c) - if tl.EndSlot? then 1 else 0
  {
    WaitBounds(f, c, f.due);
    if Awake(f.t.sys, aside, c) {
      AwakeOnce(f, aside, tl, c);
    } else if Serves(tl, c) {
      ServiceWakes(f, aside, tl, c);
    } else {
      assert CoreOk(f.t.sys, c);
      GrantNearer(f, tl, c);
      FStepInv(f, tl);
      WaitBounds(FStep(f, tl).value, c, FStep(f, tl).value.due);
    }
  }

  lemma {:induction false} ParkedFor(y: AExec, c: nat, i: nat, j: nat)
    requires ARun(y) && i <= j < |y.x.fs| && c < |y.asides[i]|
    requires forall k :: i <= k <= j ==> |y.asides[k]| == |y.asides[i]| && y.asides[k][c].Some?
    ensures c < |y.x.fs[i].t.sys.lines| == |y.asides[i]| && c < |y.x.fs[j].t.sys.lines| == |y.asides[j]|
    ensures Slots(y.x.ls, i, j) <= Parking(y.x.fs[i], y.asides[i], c) - Parking(y.x.fs[j], y.asides[j], c)
  {
    ARunInv(y, i);
    if i < j {
      ParkedFor(y, c, i, j - 1);
      ARunInv(y, j - 1);
      assert Admitted(y.x.fs[j - 1], y.asides[j - 1], y.x.ls[j - 1]);
      assert FEnabled(y.x.fs[j - 1], y.x.ls[j - 1]);
      ParkingShrinks(y.x.fs[j - 1], y.asides[j - 1], y.x.ls[j - 1], c);
    }
  }

  lemma {:induction false} SameCaches(y: AExec, i: nat, j: nat)
    requires ARun(y) && i <= j < |y.x.fs|
    ensures |y.asides[j]| == |y.asides[i]| == |y.x.fs[j].t.sys.lines|
  {
    ARunInv(y, j);
    if i < j {
      SameCaches(y, i, j - 1);
      assert Admitted(y.x.fs[j - 1], y.asides[j - 1], y.x.ls[j - 1]);
    }
  }

  /** Cache c has an access in its table in state i of the run. */
  ghost predicate Busy(y: AExec, i: nat, c: nat) {
    i < |y.x.fs| == |y.asides| && c < |y.x.fs[i].t.sys.lines| == |y.asides[i]| &&
    InProgress(y.x.fs[i].t.sys, y.asides[i], c)
  }

  /** The first state, up to j, in which the access is no longer in the table. */
  lemma {:induction false} FirstIdle(y: AExec, c: nat, i: nat, j: nat) returns (k: nat)
    requires i <= j && !Busy(y, j, c)
    ensures i <= k <= j && !Busy(y, k, c) && forall m :: i <= m < k ==> Busy(y, m, c)
  {
    k := i;
    while Busy(y, k, c)
      invariant i <= k <= j && forall m :: i <= m < k ==> Busy(y, m, c)
      decreases j - k
    {
      k := k + 1;
    }
  }

  lemma {:induction false} FirstUnparked(y: AExec, c: nat, i: nat, j: nat) returns (k: nat)
    requires ARun(y) && i <= j < |y.x.fs| && c < |y.asides[i]|
    ensures i <= k <= j && forall m :: i <= m < k ==> |y.asides[m]| == |y.asides[i]| && y.asides[m][c].Some?
    ensures |y.asides[k]| == |y.asides[i]| && (k < j ==> y.asides[k][c].None?)
  {
    k := i;
    while k < j && y.asides[k][c].Some?
      invariant i <= k <= j && |y.asides[k]| == |y.asides[i]|
      invariant forall m :: i <= m < k ==> |y.asides[m]| == |y.asides[i]| && y.asides[m][c].Some?
    {
      k := k + 1;
      SameCaches(y, i, k);
    }
  }

  /** An access that is put aside is taken up within as many slots as there are caches. */
  lemma {:induction false} TakenUp(y: AExec, c: nat, i: nat, j: nat) returns (k: nat)
    requires ARun(y) && i <= j < |y.x.fs| && c < |y.asides[i]| && y.asides[i][c].Some?
    requires Slots(y.x.ls, i, j) > |y.asides[i]|
    ensures i < k <= j && |y.asides[k]| == |y.asides[i]| && y.asides[k][c].None?
    ensures Slots(y.x.ls, i, k) <= |y.asides[i]|
  {
    k := FirstUnparked(y, c, i, j);
    if y.asides[k][c].Some? {
      ParkedAtMost(y, c, i, k);
      assert false;
    }
    ParkedAtMost(y, c, i, k - 1);
    assert Admitted(y.x.fs[k - 1], y.asides[k - 1], y.x.ls[k - 1]);
  }

  lemma {:induction false} ParkedAtMost(y: AExec, c: nat, i: nat, j: nat)
    requires ARun(y) && i <= j < |y.x.fs| && c < |y.asides[i]|
    requires forall k :: i <= k <= j ==> |y.asides[k]| == |y.asides[i]| && y.asides[k][c].Some?
    ensures Slots(y.x.ls, i, j) <= |y.asides[i]|
  {
    ParkedFor(y, c, i, j);
    ARunInv(y, i);
    ARunInv(y, j);
    WaitBounds(y.x.fs[i], c, y.x.fs[i].due);
    WaitBounds(y.x.fs[j], c, y.x.fs[j].due);
  }

  /** Slots within which every access completes, in a system of n caches. */
  function TableBound(n: nat): nat { n + AccessBound(n) }

  lemma {:induction false} SlotsGrow(ls: seq<TLabel>, i: nat, k: nat, j: nat)
    requires i <= k <= j <= |ls|
    ensures Slots(ls, i, k) <= Slots(ls, i, j)
  {
    SlotsSplit(ls, i, k, j);
  }

  /** An access that has its request out and completes leaves the table then. */
  lemma {:induction false} LeavesTable(y: AExec, c: nat, k: nat)
    requires ARun(y) && k + 1 < |y.x.fs| && c < |y.x.fs[k].t.sys.lines| && Outstanding(y.x.fs[k].t.sys.lines[c].st)
    requires c < |y.x.fs[k + 1].t.sys.lines| && !Outstanding(y.x.fs[k + 1].t.sys.lines[c].st)
    ensures !Busy(y, k + 1, c)
  {
    ARunInv(y, k);
    ARunInv(y, k + 1);
    assert Admitted(y.x.fs[k], y.asides[k], y.x.ls[k]);
    assert FEnabled(y.x.fs[k], y.x.ls[k]);
  }

  lemma {:induction false} RequestedWithin(y: AExec, c: nat, i: nat, j: nat) returns (k: nat)
    requires ARun(y) && AllInTurn(y.x) && i <= j < |y.x.fs| && c < |y.x.fs[i].t.sys.lines|
    requires Outstanding(y.x.fs[i].t.sys.lines[c].st)
    requires Slots(y.x.ls, i, j) >= AccessBound(|y.x.fs[i].t.sys.lines|)
    ensures i < k <= j && Slots(y.x.ls, i, k) <= AccessBound(|y.x.fs[i].t.sys.lines|) && !Busy(y, k, c)
  {
    var last := AccessWithin(y.x, c, i, j);
    k := FirstHit(y.x, c, i, last);
    SlotsGrow(y.x.ls, i, k, last);
    SameCaches(y, i, k);
    ARunInv(y, i);
    LeavesTable(y, c, k - 1);
  }

  ghost predicate Missing(f: Timed, c: nat) { c < |f.t.sys.lines| && Outstanding(f.t.sys.lines[c].st) }

  lemma {:induction false} FirstHit(x: FExec, c: nat, i: nat, j: nat) returns (k: nat)
    requires i < j < |x.fs| && Missing(x.fs[i], c) && !Missing(x.fs[j], c)
    ensures i < k <= j && Missing(x.fs[k - 1], c) && !Missing(x.fs[k], c)
  {
    k := i + 1;
    while Missing(x.fs[k], c)
      invariant i < k <= j && Missing(x.fs[k - 1], c)
      decreases j - k
    {
      k := k + 1;
    }
  }

  lemma {:induction false} IdleWithin(y: AExec, c: nat, i: nat, j: nat) returns (k: nat)
    requires ARun(y) && AllInTurn(y.x) && i <= j < |y.x.fs| && Busy(y, i, c)
    requires Slots(y.x.ls, i, j) >= TableBound(|y.asides[i]|)
    ensures i < k <= j && Slots(y.x.ls, i, k) <= TableBound(|y.asides[i]|) && !Busy(y, k, c)
  {
    if y.asides[i][c].Some? {
      var m := TakenUp(y, c, i, j);
      SameCaches(y, i, m);
      k := m;
      if Missing(y.x.fs[m], c) {
        SlotsSplit(y.x.ls, i, m, j);
        k := RequestedWithin(y, c, m, j);
        SlotsSplit(y.x.ls, i, m, k);
      }
    } else {
      k := RequestedWithin(y, c, i, j);
    }
  }

  /** The access of cache c completes in step k of the run. */
  ghost predicate CompletesAt(y: AExec, k: nat, c: nat) {
    && k < |y.x.ls| && k < |y.x.fs| && c < |y.x.fs[k].t.sys.lines|
    && (y.x.ls[k].Act? ==> Enabled(y.x.fs[k].t.sys, y.x.ls[k].l))
    && Completed(y.x.fs[k].t.sys, y.x.ls[k], c)
  }

  lemma {:induction false} BusyEnds(y: AExec, k: nat, c: nat)
    requires ARun(y) && Busy(y, k, c) && k < |y.x.ls| && !Busy(y, k + 1, c)
    ensures CompletesAt(y, k, c)
  {
    TableTracked(y, k, c);
  }

  /** Every access in the table, put aside or requested, completes within a number of
      slots that depends on the number of caches only. */
  lemma {:induction false} CompletesWithin(y: AExec, c: nat, i: nat, j: nat) returns (k: nat)
    requires ARun(y) && AllInTurn(y.x) && i <= j < |y.x.fs| && Busy(y, i, c)
    requires Slots(y.x.ls, i, j) >= TableBound(|y.asides[i]|)
    ensures i <= k < j && Slots(y.x.ls, i, k) <= TableBound(|y.asides[i]|)
    ensures CompletesAt(y, k, c) && forall m :: i <= m <= k ==> Busy(y, m, c)
  {
    var idle := IdleWithin(y, c, i, j);
    var first := FirstIdle(y, c, i, idle);
    k := first - 1;
    SlotsGrow(y.x.ls, i, k, idle);
    BusyEnds(y, k, c);
  }
}
