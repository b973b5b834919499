/** The time-divided bus with an arbiter that does not idle: at the start of a
    slot the owner's request or write-back goes out, and data that is ready for
    the owner is sent to it during the slot. */
module PmsiFair {
  import opened Wrappers
  import opened PmsiTable
  import opened PmsiSystem
  import opened PmsiInvariant
  import opened PmsiSteps
  import opened PmsiDirectory
  import opened PmsiSafety
  import opened PmsiProgress
  import opened PmsiTdm

  /** `due`: the slot owner's request or write-back, present when the slot began,
      has not gone out yet; `ready`: data for the owner, present when the slot
      began, has not been delivered yet. */
  datatype Timed = Timed(t: Tdm, due: bool, ready: bool)

  /** Cache c has a request or a write-back for the bus. */
  predicate Asks(s: Sys, c: nat)
    requires c < |s.lines|
  {
    s.lines[c].req.Some? || s.lines[c].wb
  }

  /** The beginning of a slot. */
  function Begin(t: Tdm): Timed {
    Timed(t, t.turn < |t.sys.lines| && Asks(t.sys, t.turn), t.turn < |t.sys.resp| && t.sys.resp[t.turn] != [])
  }

  predicate FInv(f: Timed) {
    && TInv(f.t) && AllTracked(f.t.sys)
    && (f.due ==> BusFree(f.t.sys) && !f.t.granted && !f.t.done && Asks(f.t.sys, f.t.turn))
    && (f.ready ==> f.t.sys.resp[f.t.turn] != [])
  }

  /** What the arbiter lets happen: the owner's grant comes first in its slot, and
      the slot does not end before the owner has been served. */
  predicate FEnabled(f: Timed, tl: TLabel) {
    && TEnabled(f.t, tl)
    && match tl
       case EndSlot => !f.due && !f.ready
       case Act(l) => Polite(f.t.sys, l) && Orderly(f.t.sys, l) && (l.DirMemory? ==> !f.due)
  }

  /** The state after a defined step; t is the state of the bus then. */
  function FNext(f: Timed, tl: TLabel, t: Tdm): Timed {
    match tl
    case EndSlot => Begin(t)
    case Act(l) => Timed(t, f.due && !l.Grant? && !l.GrantWB?, f.ready && !(l.Deliver? && l.c == f.t.turn))
  }

  function FStep(f: Timed, tl: TLabel): Option<Timed>
    requires FEnabled(f, tl)
  {
    match TStep(f.t, tl)
    case None => None
    case Some(t) => Some(FNext(f, tl, t))
  }

  // ---- The invariant ----------------------------------------------------------------

  /** A pending request or write-back stays until it is granted. */
  lemma {:induction false} StillAsks(s: Sys, l: Label, c: nat)
    requires Enabled(s, l) && Step(s, l).Ok? && c < |s.lines| && Asks(s, c)
    requires !(l.Grant? && l.c == c) && !(l.GrantWB? && l.c == c)
    ensures |Step(s, l).sys.lines| == |s.lines| && Asks(Step(s, l).sys, c)
  {
  }

  /** Before its first grant of the slot the bus stays free. */
  lemma {:induction false} StillFree(s: Sys, l: Label)
    requires Inv(s) && Enabled(s, l) && Step(s, l).Ok? && BusFree(s) && !l.Grant? && !l.GrantWB?
    ensures BusFree(Step(s, l).sys)
  {
    if l.Deliver? { assert CoreOk(s, l.c); }
  }

  lemma {:induction false} StillReady(s: Sys, l: Label, c: nat)
    requires Enabled(s, l) && Step(s, l).Ok? && c < |s.resp| == |s.lines| && s.resp[c] != []
    requires !(l.Deliver? && l.c == c)
    ensures |Step(s, l).sys.resp| == |s.resp| && Step(s, l).sys.resp[c] != []
  {
  }

  lemma {:induction false} FStepInv(f: Timed, tl: TLabel)
    requires FInv(f) && FEnabled(f, tl)
    ensures FStep(f, tl).Some? && FInv(FStep(f, tl).value)
    ensures tl.Act? ==> Step(f.t.sys, tl.l) == Ok(FStep(f, tl).value.t.sys) && Regular(f.t.sys, tl.l)
  {
    TStepInv(f.t, tl);
    if tl.Act? {
      var s := f.t.sys;
      StepTracked(s, tl.l);
      if f.due && !tl.l.Grant? && !tl.l.GrantWB? {
        StillAsks(s, tl.l, f.t.turn);
        StillFree(s, tl.l);
      }
      if f.ready && !(tl.l.Deliver? && tl.l.c == f.t.turn) { StillReady(s, tl.l, f.t.turn); }
    }
  }

  /** The arbiter never has to wait for ever: some step is always possible. */
  lemma {:induction false} FairNeverStuck(f: Timed) returns (tl: TLabel)
    requires FInv(f)
    ensures FEnabled(f, tl) && !(tl.Act? && tl.l.Processor?)
  {
    var s, c := f.t.sys, f.t.turn;
    assert CoreOk(s, c);
    if f.due {
      tl := Act(if s.lines[c].req.Some? then Grant(c, 0) else GrantWB(c));
    } else if f.ready {
      tl := Act(Deliver(c, 0));
    } else if s.wbData.Some? {
      tl := Act(DirData(0));
    } else if s.side.Some? {
      assert CoreOk(s, s.side.value);
      tl := Act(Grant(s.side.value, 0));
    } else if Idle(s.dir) || f.t.done {
      tl := EndSlot;
    } else if s.dir.incoming != [] {
      tl := Act(DirRequest);
    } else {
      tl := Act(DirMemory(0));
    }
  }

  // ---- Runs ---------------------------------------------------------------------------

  datatype FExec = FExec(fs: seq<Timed>, ls: seq<TLabel>)

  ghost predicate FRun(x: FExec) {
    && |x.fs| == |x.ls| + 1
    && (exists n: nat, v :: n > 0 && x.fs[0] == Begin(TInit(n, v)))
    && forall i {:trigger FEnabled(x.fs[i], x.ls[i])} :: 0 <= i < |x.ls| ==>
         FEnabled(x.fs[i], x.ls[i]) && FStep(x.fs[i], x.ls[i]) == Some(x.fs[i + 1])
  }

  /** No request overtakes another in this step. */
  predicate InTurn(f: Timed, tl: TLabel) { tl.Act? ==> Prompt(f.t.sys, tl.l) }

  ghost predicate AllInTurn(x: FExec) {
    && |x.fs| == |x.ls| + 1
    && forall i {:trigger InTurn(x.fs[i], x.ls[i])} :: 0 <= i < |x.ls| ==> InTurn(x.fs[i], x.ls[i])
  }

  lemma {:induction false} FRunInv(x: FExec, i: nat)
    requires FRun(x) && i < |x.fs|
    ensures FInv(x.fs[i])
  {
    if i == 0 {
      var n: nat, v :| n > 0 && x.fs[0] == Begin(TInit(n, v));
      InitInv(n, v);
    } else {
      FRunInv(x, i - 1);
      FStepInv(x.fs[i - 1], x.ls[i - 1]);
    }
  }

  /** A run under this arbiter is a run on the time-divided bus. */
  lemma {:induction false} FairRefines(x: FExec) returns (y: TExec)
    requires FRun(x)
    ensures TRun(y) && y.ls == x.ls && |y.ts| == |x.fs| && forall i :: 0 <= i < |x.fs| ==> y.ts[i] == x.fs[i].t
  {
    y := TExec(seq(|x.fs|, i requires 0 <= i < |x.fs| => x.fs[i].t), x.ls);
    var n: nat, v :| n > 0 && x.fs[0] == Begin(TInit(n, v));
    assert y.ts[0] == TInit(n, v);
    forall i | 0 <= i < |y.ls|
      ensures TEnabled(y.ts[i], y.ls[i]) && TStep(y.ts[i], y.ls[i]) == Some(y.ts[i + 1])
      ensures y.ls[i].Act? ==> Polite(y.ts[i].sys, y.ls[i].l) && Orderly(y.ts[i].sys, y.ls[i].l)
    {
      assert FEnabled(x.fs[i], x.ls[i]) && FStep(x.fs[i], x.ls[i]) == Some(x.fs[i + 1]);
    }
  }

  /** How many slots end in steps i to j. */
  function Slots(ls: seq<TLabel>, i: nat, j: nat): nat
    requires i <= j <= |ls|
  {
    if i == j then 0 else Slots(ls, i, j - 1) + if ls[j - 1].EndSlot? then 1 else 0
  }

  // ---- The slots ---------------------------------------------------------------------------

  /** Step tl gives the bus to a cache in its own right, not to a side packet. */
  predicate GivesBus(t: Tdm, tl: TLabel) {
    tl.Act? && ((tl.l.Grant? && t.sys.side != Some(tl.l.c)) || tl.l.GrantWB?)
  }

  /** Whose turn it is after k slot ends. */
  function TurnAfter(k: nat, n: nat): nat { if k == 0 then 0 else NextTurn(TurnAfter(k - 1, n), n) }

  lemma {:induction false} Began(x: TExec)
    requires TRun(x)
    ensures x.ts[0].turn == 0 && |x.ts[0].sys.lines| > 0
  {
    var n: nat, v :| n > 0 && x.ts[0] == TInit(n, v);
  }

  lemma {:induction false} TurnsTaken(x: TExec, i: nat)
    requires TRun(x) && i <= |x.ls|
    ensures |x.ts[i].sys.lines| == |x.ts[0].sys.lines|
    ensures x.ts[i].turn == TurnAfter(Slots(x.ls, 0, i), |x.ts[0].sys.lines|)
  {
    if i == 0 {
      Began(x);
    } else {
      TurnsTaken(x, i - 1);
      TurnAt(x, i - 1);
    }
  }

  lemma {:induction false} TurnIs(k: nat, n: nat)
    requires n > 0
    ensures TurnAfter(k, n) == k % n
  {
    if k > 0 {
      TurnIs(k - 1, n);
      NextTurnIs(k - 1, n);
    }
  }

  /** The slots go round: after as many slot ends as there are caches it is the same
      cache's turn again. */
  lemma {:induction false} SlotsGoRound(x: TExec, i: nat)
    requires TRun(x) && i <= |x.ls|
    ensures |x.ts[0].sys.lines| > 0 && x.ts[i].turn == Slots(x.ls, 0, i) % |x.ts[0].sys.lines|
  {
    Began(x);
    TurnsTaken(x, i);
    TurnIs(Slots(x.ls, 0, i), |x.ts[0].sys.lines|);
  }

  lemma {:induction false} TurnAt(x: TExec, i: nat)
    requires TRun(x) && i < |x.ls|
    ensures var n := |x.ts[i].sys.lines|;
            && |x.ts[i + 1].sys.lines| == n
            && x.ts[i + 1].turn == if x.ls[i].EndSlot? then NextTurn(x.ts[i].turn, n) else x.ts[i].turn
  {
    assert TEnabled(x.ts[i], x.ls[i]) && TStep(x.ts[i], x.ls[i]) == Some(x.ts[i + 1]);
    if x.ls[i].Act? { SameSize(x.ts[i].sys, x.ls[i].l); }
  }

  lemma {:induction false} NextTurnIs(k: nat, n: nat)
    requires n > 0
    ensures NextTurn(k % n, n) == (k + 1) % n
  {
    var q, r := k / n, k % n;
    if r + 1 < n { ModIs(k + 1, n, q, r + 1); } else { ModIs(k + 1, n, q + 1, 0); }
  }

  lemma {:induction false} ModIs(a: nat, n: nat, q: nat, r: nat)
    requires n > 0 && r < n && a == q * n + r
    ensures a % n == r
  {
    var d: int := a / n - q;
    assert a / n * n == q * n + d * n;
    assert d > 0 ==> d * n >= n;
    assert d < 0 ==> d * n <= 0 - n;
  }

  /** Only the owner of a slot is given the bus in it, before memory has answered. */
  lemma {:induction false} OwnersBus(x: TExec, i: nat)
    requires TRun(x) && i < |x.ls| && GivesBus(x.ts[i], x.ls[i])
    ensures x.ls[i].l.c == x.ts[i].turn && !x.ts[i].granted && !x.ts[i].done
  {
    assert TEnabled(x.ts[i], x.ls[i]);
  }

  lemma {:induction false} StaysGranted(x: TExec, i: nat, j: nat)
    requires TRun(x) && i <= j <= |x.ls| && x.ts[i].granted && Slots(x.ls, i, j) == 0
    ensures x.ts[j].granted
  {
    if i < j {
      StaysGranted(x, i, j - 1);
      assert TEnabled(x.ts[j - 1], x.ls[j - 1]) && TStep(x.ts[j - 1], x.ls[j - 1]) == Some(x.ts[j]);
    }
  }

  /** The bus is given once in a slot. */
  lemma {:induction false} OncePerSlot(x: TExec, i: nat, j: nat)
    requires TRun(x) && i < j < |x.ls| && GivesBus(x.ts[i], x.ls[i]) && GivesBus(x.ts[j], x.ls[j])
    ensures Slots(x.ls, i, j) > 0
  {
    assert TEnabled(x.ts[i], x.ls[i]) && TStep(x.ts[i], x.ls[i]) == Some(x.ts[i + 1]);
    OwnersBus(x, j);
    if Slots(x.ls, i, j) == 0 {
      SlotsFrom(x.ls, i, j);
      StaysGranted(x, i + 1, j);
    }
  }

  lemma {:induction false} SlotsFrom(ls: seq<TLabel>, i: nat, j: nat)
    requires i < j <= |ls|
    ensures Slots(ls, i, j) == Slots(ls, i + 1, j) + if ls[i].EndSlot? then 1 else 0
  {
    if i + 1 < j { SlotsFrom(ls, i, j - 1); }
  }

  // ---- Waiting for a slot ---------------------------------------------------------------

  /** How many slots on cache c's next slot is. */
  function Distance(turn: nat, c: nat, n: nat): int { if turn <= c then c - turn else c - turn + n }

  /** How many slot ends until cache c has been served in its slot; in its own slot
      it depends on whether it is served in this one. */
  function Wait(f: Timed, c: nat, now: bool): int {
    if f.t.turn == c then (if now then 1 else |f.t.sys.lines| + 1) else Distance(f.t.turn, c, |f.t.sys.lines|) + 1
  }

  lemma {:induction false} WaitBounds(f: Timed, c: nat, now: bool)
    requires f.t.turn < |f.t.sys.lines| && c < |f.t.sys.lines|
    ensures 1 <= Wait(f, c, now) <= |f.t.sys.lines| + 1
  {
  }

  /** The end of a slot brings every cache that is not served in it one closer. */
  lemma {:induction false} WaitEnds(f: Timed, c: nat, now: bool, f': Timed, now': bool)
    requires f.t.turn < |f.t.sys.lines| && c < |f.t.sys.lines| && TEnabled(f.t, EndSlot)
    requires TStep(f.t, EndSlot) == Some(f'.t)
    requires f.t.turn == c ==> !now
    requires f'.t.turn == c ==> now'
    ensures Wait(f', c, now') <= Wait(f, c, now) - 1
  {
  }
}
