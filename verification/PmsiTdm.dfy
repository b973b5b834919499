/** The predictable bus: time is cut into slots, slot owners take turns, and a
    slot is wide enough for one memory transfer.  Under this arbiter every
    write-back finds its sender recorded as the owner. */
module PmsiTdm {
  import opened Wrappers
  import opened PmsiTable
  import opened PmsiSystem
  import opened PmsiInvariant
  import opened PmsiSteps
  import opened PmsiGrant
  import opened PmsiDirectory
  import opened PmsiWake
  import opened PmsiSafety

  /** `turn` owns the current slot, `granted` says that its request went out and
      `done` that memory has answered a fetch during this slot. */
  datatype Tdm = Tdm(sys: Sys, turn: nat, granted: bool, done: bool)

  datatype TLabel = Act(l: Label) | EndSlot

  /** The directory has nothing left that it could work on by itself. */
  predicate Idle(d: Dir) {
    !d.st.DIS? && !d.st.DIM? && d.incoming == []
  }

  predicate TEnabled(t: Tdm, tl: TLabel) {
    match tl
    case EndSlot => BusFree(t.sys) && (Idle(t.sys.dir) || t.done)
    case Act(l) =>
      && Enabled(t.sys, l)
      && match l
         case Grant(c, _) => t.sys.side == Some(c) || (c == t.turn && !t.granted && !t.done)
         case GrantWB(c) => c == t.turn && !t.granted && !t.done
         case _ => true
  }

  function NextTurn(turn: nat, n: nat): nat {
    if turn + 1 < n then turn + 1 else 0
  }

  function TStep(t: Tdm, tl: TLabel): Option<Tdm>
    requires TEnabled(t, tl)
  {
    match tl
    case EndSlot => Some(Tdm(t.sys, NextTurn(t.turn, |t.sys.lines|), false, false))
    case Act(l) =>
      match Step(t.sys, l)
      case Crash => None
      case Ok(s') => Some(Tdm(s', t.turn, t.granted || l.Grant? || l.GrantWB?, t.done || l.DirMemory?))
  }

  /** Slots since cache c's last slot. */
  function Elapsed(turn: nat, c: nat, n: nat): int {
    if c <= turn then turn - c else turn - c + n
  }

  /** Cache c writes on the strength of an upgrade at queue position i that the
      directory has not processed. */
  predicate Hidden(s: Sys, i: nat) {
    && i < |Q(s)| && Q(s)[i].kind.UPG?
    && Q(s)[i].core < |s.lines| && Writer(s.lines[Q(s)[i].core].st) && NoOwner(s)
  }

  /** Memory fetches that must complete before position i is reached, plus the
      slots already used and the fetch already done in this slot. */
  function Load(t: Tdm, i: nat): int
    requires i < |Q(t.sys)|
  {
    i + (if t.sys.dir.st.DIS? then 1 else 0)
      + Elapsed(t.turn, Q(t.sys)[i].core, |t.sys.lines|) + (if t.done then 1 else 0)
  }

  predicate TInv(t: Tdm) {
    && Inv(t.sys)
    && t.turn < |t.sys.lines|
    && forall i :: 0 <= i < |Q(t.sys)| && Hidden(t.sys, i) ==>
         Load(t, i) < |t.sys.lines| && (Q(t.sys)[i].core == t.turn ==> t.granted)
  }

  /** Distinct numbers below n, other than c, are at most n - 1 many. */
  lemma {:induction false} Pigeonhole(cs: seq<nat>, n: nat, c: nat)
    requires forall i, j :: 0 <= i < j < |cs| ==> cs[i] != cs[j]
    requires forall i :: 0 <= i < |cs| ==> cs[i] < n && cs[i] != c
    requires c < n
    ensures |cs| <= n - 1
  {
    var all := Below(n);
    var used := set i | 0 <= i < |cs| :: cs[i];
    UsedCard(cs);
    assert used + {c} <= all;
    Subset(used + {c}, all);
  }

  ghost function Below(n: nat): (r: set<nat>)
    ensures |r| == n && forall k :: k in r <==> 0 <= k < n
  {
    if n == 0 then {} else Below(n - 1) + {n - 1}
  }

  lemma {:induction false} UsedCard(cs: seq<nat>)
    requires forall i, j :: 0 <= i < j < |cs| ==> cs[i] != cs[j]
    ensures |set i | 0 <= i < |cs| :: cs[i]| == |cs|
  {
    if cs != [] {
      var init := cs[..|cs| - 1];
      UsedCard(init);
      assert forall i :: 0 <= i < |init| ==> init[i] == cs[i];
      assert (set i | 0 <= i < |cs| :: cs[i]) == (set i | 0 <= i < |init| :: init[i]) + {cs[|cs| - 1]};
    }
  }

  lemma {:induction false} Subset<T>(a: set<T>, b: set<T>)
    requires a <= b
    ensures |a| <= |b|
  {
    if a != {} {
      var x :| x in a;
      Subset(a - {x}, b - {x});
    }
  }

  /** When an upgrade succeeds, at most one fetch per other cache is ahead of it. */
  lemma {:induction false} FewAhead(s: Sys, c: nat)
    requires Inv(s) && c < |s.lines| && s.lines[c].st.SM_W? && s.wbData.None?
    ensures |Q(s)| + (if s.dir.st.DIS? then 1 else 0) <= |s.lines| - 1
  {
    assert CoreOk(s, c);
    var cs := seq(|Q(s)|, i requires 0 <= i < |Q(s)| => Q(s)[i].core);
    forall i | 0 <= i < |cs| ensures cs[i] < |s.lines| && cs[i] != c && (s.dir.st.DIS? ==> cs[i] != s.dir.cur) {
      assert Q(s)[i].kind.GETS? by { assert Allows(s.side, SM_W, Q(s)[i]); }
      assert RequestOk(s, i);
    }
    if s.dir.st.DIS? { cs := cs + [s.dir.cur]; }
    Pigeonhole(cs, |s.lines|, c);
  }

  /** In its own slot a cache with a write-back is known to the directory. */
  lemma {:induction false} SlotIsTimely(t: Tdm, c: nat)
    requires TInv(t) && TEnabled(t, Act(GrantWB(c)))
    ensures Timely(t.sys, GrantWB(c))
  {
    assert CoreOk(t.sys, c);
    if NoOwner(t.sys) {
      var i := HiddenWriter(t.sys, c);
      assert Hidden(t.sys, i);
    }
  }

  /** A bounded entry of the new state. */
  ghost predicate Bounded(t: Tdm, i: nat)
    requires i < |Q(t.sys)|
  {
    Hidden(t.sys, i) ==> Load(t, i) < |t.sys.lines| && (Q(t.sys)[i].core == t.turn ==> t.granted)
  }

  lemma {:induction false} GrantBounded(t: Tdm, c: nat, v: Value, t': Tdm, i: nat)
    requires TInv(t) && TEnabled(t, Act(Grant(c, v))) && TStep(t, Act(Grant(c, v))) == Some(t') && i < |Q(t'.sys)|
    ensures Bounded(t', i)
  {
    var s, s' := t.sys, t'.sys;
    var k, own, side, w := GrantLegal(s, c, v, s');
    QueueGrows(s, s', c, k, own, side, w);
    assert CoreOk(s, c);
    if Hidden(s', i) {
      var d := Q(s')[i].core;
      if i == |Q(s)| {
        FewAhead(s, c);
      } else {
        assert CoreOk(s, d);
        assert RequestOk(s, i);
        assert Writer(s.lines[d].st);
        assert Hidden(s, i);
      }
    }
  }

  lemma {:induction false} IdleBounded(t: Tdm, t': Tdm, i: nat)
    requires FromIdle(t.sys, t'.sys) && i < |Q(t'.sys)| && t' == t.(sys := t'.sys) && Bounded(t, i + 1)
    ensures Bounded(t', i)
  {
    assert Q(t'.sys)[i] == Q(t.sys)[i + 1];
  }

  lemma {:induction false} DirRequestBounded(t: Tdm, t': Tdm, i: nat)
    requires TInv(t) && TEnabled(t, Act(DirRequest)) && TStep(t, Act(DirRequest)) == Some(t') && i < |Q(t'.sys)|
    ensures Bounded(t', i)
  {
    assert RequestOk(t.sys, |t.sys.dir.stalled|);
    DirRequestCases(t.sys);
    assert forall j :: 0 <= j < |Q(t.sys)| ==> Bounded(t, j);
    CasesBounded(t, t', i);
  }

  lemma {:induction false} CasesBounded(t: Tdm, t': Tdm, i: nat)
    requires t' == t.(sys := t'.sys) && i < |Q(t'.sys)| && forall j :: 0 <= j < |Q(t.sys)| ==> Bounded(t, j)
    requires var s, s' := t.sys, t'.sys; Deferred(s, s') || FromIdle(s, s') || FromOwner(s, s') || Dropped(s, s')
    ensures Bounded(t', i)
  {
    if FromIdle(t.sys, t'.sys) {
      assert Bounded(t, i + 1);
      IdleBounded(t, t', i);
    } else if Deferred(t.sys, t'.sys) {
      assert Bounded(t, i);
    } else {
      assert !NoOwner(t'.sys);
    }
  }

  /** Steps of the processors and caches, and write-backs, leave the queue alone. */
  lemma {:induction false} CacheBounded(t: Tdm, l: Label, t': Tdm, i: nat)
    requires TInv(t) && TEnabled(t, Act(l)) && TStep(t, Act(l)) == Some(t') && i < |Q(t'.sys)|
    requires l.Processor? || l.Deliver?
    ensures Bounded(t', i)
  {
    assert Q(t'.sys) == Q(t.sys);
    assert Bounded(t, i) && RequestOk(t.sys, i);
    assert CoreOk(t.sys, l.c);
  }

  lemma {:induction false} MemoryBounded(t: Tdm, t': Tdm, i: nat)
    requires i < |Q(t.sys)| && Bounded(t, i)
    requires DirMemoryStep(t.sys, 0) == Ok(t'.sys) && t' == t.(sys := t'.sys, done := true)
    ensures i < |Q(t'.sys)| && Bounded(t', i)
  {
    assert Q(t'.sys) == Q(t.sys);
  }

  lemma {:induction false} DataBounded(t: Tdm, t': Tdm, i: nat)
    requires TInv(t) && TEnabled(t, Act(DirData(0))) && TStep(t, Act(DirData(0))) == Some(t') && i < |Q(t'.sys)|
    ensures Bounded(t', i)
  {
    assert Q(t'.sys) == Q(t.sys);
    assert RequestOk(t.sys, i);
    assert CoreOk(t.sys, Q(t.sys)[i].core);
  }

  lemma {:induction false} WriteBackBounded(t: Tdm, c: nat, t': Tdm, i: nat)
    requires TInv(t) && TEnabled(t, Act(GrantWB(c))) && TStep(t, Act(GrantWB(c))) == Some(t') && i < |Q(t'.sys)|
    ensures Bounded(t', i)
  {
    SlotIsTimely(t, c);
    assert DirOk(t.sys);
  }

  lemma {:induction false} SlotBounded(t: Tdm, i: nat)
    requires TInv(t) && TEnabled(t, EndSlot) && i < |Q(t.sys)|
    ensures Bounded(TStep(t, EndSlot).value, i)
  {
    assert Bounded(t, i) && RequestOk(t.sys, i);
  }

  lemma {:induction false} ShuffledBounded(t: Tdm, t': Tdm, k: nat, p: nat, i: nat)
    requires t' == t.(sys := t'.sys) && Shuffled(t.sys, t'.sys, k, p)
    requires i < |Q(t.sys)| && Bounded(t, i)
    ensures Bounded(t', i)
  {
    HeadReads(Q(t.sys), Q(t'.sys), k, p, i);
  }

  lemma {:induction false} WakeBounded(t: Tdm, l: Label, t': Tdm, i: nat)
    requires TInv(t) && TEnabled(t, Act(l)) && Orderly(t.sys, l) && (l.DirMemory? || l.DirData?)
    requires TStep(t, Act(l)) == Some(t') && i < |Q(t'.sys)|
    ensures Bounded(t', i)
  {
    var k, p := Overtakes(t.sys, l);
    WakeOrder(t.sys, l);
    var t0 := t'.(sys := Step(t.sys, Undisturbed(l)).sys);
    if l.DirMemory? {
      assert Bounded(t, i);
      MemoryBounded(t, t0, i);
    } else {
      DataBounded(t, t0, i);
    }
    ShuffledBounded(t0, t', k, p, i);
  }

  lemma {:induction false} StepBounded(t: Tdm, tl: TLabel, i: nat)
    requires TInv(t) && TEnabled(t, tl) && (tl.Act? ==> Orderly(t.sys, tl.l))
    requires TStep(t, tl).Some? && i < |Q(TStep(t, tl).value.sys)|
    ensures Bounded(TStep(t, tl).value, i)
  {
    var t' := TStep(t, tl).value;
    match tl
    case EndSlot => SlotBounded(t, i);
    case Act(Grant(c, v)) => GrantBounded(t, c, v, t', i);
    case Act(GrantWB(c)) => WriteBackBounded(t, c, t', i);
    case Act(DirRequest) => DirRequestBounded(t, t', i);
    case Act(DirMemory(_)) => WakeBounded(t, tl.l, t', i);
    case Act(DirData(_)) => WakeBounded(t, tl.l, t', i);
    case Act(Processor(c, op, v)) => CacheBounded(t, tl.l, t', i);
    case Act(Deliver(c, v)) => CacheBounded(t, tl.l, t', i);
  }

  lemma {:induction false} AllBounded(t: Tdm)
    requires Inv(t.sys) && t.turn < |t.sys.lines|
    requires forall i :: 0 <= i < |Q(t.sys)| ==> Bounded(t, i)
    ensures TInv(t)
  {
    forall i | 0 <= i < |Q(t.sys)| && Hidden(t.sys, i)
      ensures Load(t, i) < |t.sys.lines| && (Q(t.sys)[i].core == t.turn ==> t.granted)
    {
      assert Bounded(t, i);
    }
  }

  lemma {:induction false} SameSize(s: Sys, l: Label)
    requires Enabled(s, l) && Step(s, l).Ok?
    ensures |Step(s, l).sys.lines| == |s.lines|
  {
  }

  /** Every step of the time-divided bus is defined, timely, and keeps the invariant. */
  lemma {:induction false} TStepInv(t: Tdm, tl: TLabel)
    requires TInv(t) && TEnabled(t, tl) && (tl.Act? ==> Polite(t.sys, tl.l) && Orderly(t.sys, tl.l))
    ensures TStep(t, tl).Some? && TInv(TStep(t, tl).value)
    ensures tl.Act? ==> Timely(t.sys, tl.l)
  {
    if tl.Act? {
      if tl.l.GrantWB? { SlotIsTimely(t, tl.l.c); }
      StepInv(t.sys, tl.l);
      SameSize(t.sys, tl.l);
    }
    var t' := TStep(t, tl).value;
    forall i | 0 <= i < |Q(t'.sys)| ensures Bounded(t', i) { StepBounded(t, tl, i); }
    AllBounded(t');
  }

  datatype TExec = TExec(ts: seq<Tdm>, ls: seq<TLabel>)

  function TInit(n: nat, v: Value): Tdm {
    Tdm(Init(n, v), 0, false, false)
  }

  /** A run on the time-divided bus: that write-backs are timely is not asked of it. */
  ghost predicate TRun(x: TExec) {
    && |x.ts| == |x.ls| + 1
    && (exists n: nat, v :: n > 0 && x.ts[0] == TInit(n, v))
    && forall i :: 0 <= i < |x.ls| ==>
         && TEnabled(x.ts[i], x.ls[i])
         && (x.ls[i].Act? ==> Polite(x.ts[i].sys, x.ls[i].l) && Orderly(x.ts[i].sys, x.ls[i].l))
         && TStep(x.ts[i], x.ls[i]) == Some(x.ts[i + 1])
  }

  lemma {:induction false} TRunInv(x: TExec, i: nat)
    requires TRun(x) && i < |x.ts|
    ensures TInv(x.ts[i])
  {
    if i == 0 {
      var n: nat, v :| n > 0 && x.ts[0] == TInit(n, v);
      InitInv(n, v);
    } else {
      TRunInv(x, i - 1);
      TStepInv(x.ts[i - 1], x.ls[i - 1]);
    }
  }

  /** On the time-divided bus every write-back is taken: from any state of any run
      a granted PUTM is followed by write-back data the directory accepts. */
  lemma {:induction false} TdmWriteBacksAccepted(x: TExec, i: nat, c: nat, due: nat)
    requires TRun(x) && i < |x.ts| && TEnabled(x.ts[i], Act(GrantWB(c))) && due <= |x.ts[i].sys.dir.incoming|
    ensures GrantWBStep(x.ts[i].sys, c).Ok?
    ensures var s1 := GrantWBStep(x.ts[i].sys, c).sys; Enabled(s1, DirData(due)) && Step(s1, DirData(due)).Ok?
  {
    TRunInv(x, i);
    SlotIsTimely(x.ts[i], c);
    WriteBackExactly(x.ts[i].sys, c, due);
  }

  /** Every run on the time-divided bus, without its slot ends, is a run of the
      protocol, so whatever holds of all runs holds of it. */
  lemma {:induction false} TdmRefines(x: TExec, i: nat) returns (y: Exec)
    requires TRun(x) && i < |x.ts|
    ensures Run(y) && y.ss[|y.ls|] == x.ts[i].sys
  {
    if i == 0 {
      var n: nat, v :| n > 0 && x.ts[0] == TInit(n, v);
      y := Exec([Init(n, v)], []);
    } else {
      y := TdmRefines(x, i - 1);
      TRunInv(x, i - 1);
      TStepInv(x.ts[i - 1], x.ls[i - 1]);
      if x.ls[i - 1].Act? {
        NeverStuck(y, x.ls[i - 1].l);
        y := Exec(y.ss + [x.ts[i].sys], y.ls + [x.ls[i - 1].l]);
      }
    }
  }
}
