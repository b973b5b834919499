/** What the PMSI protocol promises, over every run of the system. */
module PmsiSafety {
  import opened Wrappers
  import opened PmsiTable
  import opened PmsiSystem
  import opened PmsiInvariant
  import opened PmsiSteps
  import opened PmsiGrant
  import opened PmsiDirectory
  import opened PmsiWake

  /** A processor store to a line in this state completes at once. */
  predicate CanWrite(st: CState) {
    var o := CacheStep(st, Cpu(Store));
    o.Go? && o.hit.StoreHit?
  }

  /** A processor load from a line in this state completes at once. */
  predicate CanRead(st: CState) {
    var o := CacheStep(st, Cpu(Load));
    o.Go? && o.hit.LoadHit?
  }

  lemma {:induction false} GrantWBAccepted(s: Sys, c: nat)
    requires Inv(s) && Enabled(s, GrantWB(c))
    ensures GrantWBStep(s, c).Ok?
  {
    assert CoreOk(s, c);
    forall i | 0 <= i < |s.lines| ensures CacheStep(s.lines[i].st, SeenPUTM(c, i)).Go? {
      assert CoreOk(s, i);
    }
  }

  /** From a state that satisfies the invariant the controllers meet an undefined
      pair of state and event exactly when a cache replaces a line whose upgrade
      has been overtaken (state IM_W). */
  lemma {:induction false} CrashExactly(s: Sys, l: Label)
    requires Inv(s) && Enabled(s, l)
    ensures Step(s, l).Crash? <==> !Polite(s, l)
  {
    match l
    case Processor(c, op, v) => assert CoreOk(s, c);
    case Grant(c, v) => GrantNever(s, c, v);
    case GrantWB(c) => GrantWBAccepted(s, c);
    case DirRequest => DirRequestInv(s);
    case DirMemory(_) =>
    case DirData(_) =>
    case Deliver(c, v) => assert CoreOk(s, c);
  }

  /** The write-back of cache c can be taken by the directory if and only if the
      directory has recorded c as the owner before the PUTM is granted. */
  lemma {:induction false} WriteBackExactly(s: Sys, c: nat, due: nat)
    requires Inv(s) && Enabled(s, GrantWB(c)) && due <= |s.dir.incoming|
    ensures GrantWBStep(s, c).Ok?
    ensures var s1 := GrantWBStep(s, c).sys;
            Enabled(s1, DirData(due)) && (Step(s1, DirData(due)).Ok? <==> Timely(s, GrantWB(c)))
  {
    GrantWBAccepted(s, c);
    assert CoreOk(s, c);
  }

  lemma {:induction false} OneEachDistinct(q: seq<Msg>, i: nat, j: nat)
    requires OneEach(q) && i < j < |q|
    ensures q[i] != q[j]
  {
  }

  /** A wake-up keeps the bus order of the requests if and only if it is prompt. */
  lemma {:induction false} WakeKeepsOrder(s: Sys, l: Label)
    requires Inv(s) && Enabled(s, l) && (l.DirMemory? || l.DirData?) && Step(s, l).Ok?
    ensures Q(Step(s, l).sys) == Q(s) <==> Prompt(s, l)
  {
    var d := s.dir;
    var s' := Step(s, l).sys;
    if !Prompt(s, l) {
      assert Q(s')[0] == d.incoming[0] == Q(s)[|d.stalled|];
      OneEachDistinct(Q(s), 0, |d.stalled|);
    }
  }

  lemma {:induction false} WakeInv(s: Sys, l: Label)
    requires Inv(s) && Enabled(s, l) && Orderly(s, l) && (l.DirMemory? || l.DirData?) && Step(s, l).Ok?
    ensures Inv(Step(s, l).sys)
  {
    var k, p := Overtakes(s, l);
    var s0 := Step(s, Undisturbed(l)).sys;
    if l.DirMemory? { DirMemoryInv(s, s0); } else { DirDataInv(s, s0); }
    ShuffledInv(s0, Step(s, l).sys, k, p);
  }

  lemma {:induction false} StepInv(s: Sys, l: Label)
    requires Inv(s) && Enabled(s, l) && Regular(s, l)
    ensures Step(s, l).Ok? && Inv(Step(s, l).sys)
  {
    CrashExactly(s, l);
    var s' := Step(s, l).sys;
    match l
    case Processor(c, op, v) => ProcessorInv(s, c, op, v, s');
    case Grant(c, v) => GrantInv(s, c, v, s');
    case GrantWB(c) => GrantWBInv(s, c, s');
    case DirRequest => DirRequestInv(s);
    case DirMemory(_) => WakeInv(s, l);
    case DirData(_) => WakeInv(s, l);
    case Deliver(c, v) => DeliverInv(s, c, v, s');
  }

  lemma {:induction false} RunInv(x: Exec, i: nat)
    requires Run(x) && i < |x.ss|
    ensures Inv(x.ss[i])
  {
    if i == 0 {
      var n: nat, v :| x.ss[0] == Init(n, v);
      InitInv(n, v);
    } else {
      RunInv(x, i - 1);
      StepInv(x.ss[i - 1], x.ls[i - 1]);
    }
  }

  /** Single writer, multiple readers: when one cache can write the line, no
      other cache can read or write it. */
  lemma {:induction false} SingleWriter(x: Exec, i: nat, a: nat, b: nat)
    requires Run(x) && i < |x.ss| && a < |x.ss[i].lines| && b < |x.ss[i].lines| && a != b
    requires CanWrite(x.ss[i].lines[a].st)
    ensures !CanRead(x.ss[i].lines[b].st) && !CanWrite(x.ss[i].lines[b].st)
  {
    RunInv(x, i);
    assert CoreOk(x.ss[i], a) && CoreOk(x.ss[i], b);
    SoleWriter(x.ss[i], a, b);
  }

  /** Readable copies always agree. */
  lemma {:induction false} ReadersAgree(x: Exec, i: nat, a: nat, b: nat)
    requires Run(x) && i < |x.ss| && a < |x.ss[i].lines| && b < |x.ss[i].lines|
    requires CanRead(x.ss[i].lines[a].st) && CanRead(x.ss[i].lines[b].st)
    ensures x.ss[i].lines[a].data == x.ss[i].lines[b].data
  {
    RunInv(x, i);
    assert CoreOk(x.ss[i], a) && CoreOk(x.ss[i], b);
  }

  /** No step of a run stops the simulation, whatever step is tried next. */
  lemma {:induction false} NeverStuck(x: Exec, l: Label)
    requires Run(x)
    requires var s := x.ss[|x.ls|]; Enabled(s, l) && Regular(s, l)
    ensures Step(x.ss[|x.ls|], l).Ok?
    ensures Run(Exec(x.ss + [Step(x.ss[|x.ls|], l).sys], x.ls + [l]))
  {
    RunInv(x, |x.ls|);
    CrashExactly(x.ss[|x.ls|], l);
    assert (x.ss + [Step(x.ss[|x.ls|], l).sys])[0] == x.ss[0];
  }

  /** The value a processor load gets when this step completes one. */
  function Observed(s: Sys, l: Label): Option<Value>
    requires Enabled(s, l)
  {
    match l
    case Processor(c, op, _) =>
      var o := CacheStep(s.lines[c].st, Cpu(op));
      if o.Go? && o.hit.LoadHit? then Some(s.lines[c].data) else None
    case Grant(c, _) =>
      var o := CacheStep(s.lines[c].st, Own(s.lines[c].req.value));
      if o.Go? && o.hit.LoadHit? then Some(s.lines[c].data) else None
    case Deliver(c, _) =>
      var o := CacheStep(s.lines[c].st, Data);
      if o.Go? && o.hit.LoadHit? then Some(s.resp[c][0]) else None
    case _ => None
  }

  /** The value a processor store writes when this step completes one. */
  function Written(s: Sys, l: Label): Option<Value>
    requires Enabled(s, l)
  {
    match l
    case Processor(c, op, v) =>
      var o := CacheStep(s.lines[c].st, Cpu(op));
      if o.Go? && o.hit.StoreHit? then Some(v) else None
    case Grant(c, v) =>
      var o := CacheStep(s.lines[c].st, Own(s.lines[c].req.value));
      if o.Go? && o.hit.StoreHit? then Some(v) else None
    case Deliver(c, v) =>
      var o := CacheStep(s.lines[c].st, Data);
      if o.Go? && o.hit.StoreHit? then Some(v) else None
    case _ => None
  }

  /** The value of the last store completed before step i, or the initial memory. */
  ghost function LastWritten(x: Exec, i: nat): Value
    requires Run(x) && i <= |x.ls|
  {
    if i == 0 then x.ss[0].mem
    else match Written(x.ss[i - 1], x.ls[i - 1])
         case Some(v) => v
         case None => LastWritten(x, i - 1)
  }

  lemma {:induction false} LatestIsLastWritten(x: Exec, i: nat)
    requires Run(x) && i <= |x.ls|
    ensures x.ss[i].latest == LastWritten(x, i)
  {
    if i > 0 { LatestIsLastWritten(x, i - 1); }
  }

  /** Every completed load returns the last value stored by any processor, except
      for the load that completes while its copy is already invalidated (IS_DI). */
  lemma {:induction false} LoadsSeeLastStore(x: Exec, i: nat)
    requires Run(x) && i < |x.ls|
    requires Observed(x.ss[i], x.ls[i]).Some?
    requires !(x.ls[i].Deliver? && x.ss[i].lines[x.ls[i].c].st.IS_DI?)
    ensures Observed(x.ss[i], x.ls[i]).value == LastWritten(x, i)
  {
    RunInv(x, i);
    LatestIsLastWritten(x, i);
    match x.ls[i]
    case Processor(c, _, _) => assert CoreOk(x.ss[i], c);
    case Grant(c, _) => assert CoreOk(x.ss[i], c);
    case Deliver(c, _) => assert CoreOk(x.ss[i], c);
    case _ =>
  }

  /** A write-back in flight is awaited. */
  predicate Awaited(s: Sys) { s.wbData.Some? ==> s.dir.st.DMI? || s.dir.st.DM_D? }

  lemma {:induction false} AwaitedStep(s: Sys, l: Label)
    requires Inv(s) && Awaited(s) && Enabled(s, l) && Regular(s, l)
    ensures Step(s, l).Ok? && Awaited(Step(s, l).sys)
  {
    CrashExactly(s, l);
    if l.DirRequest? { DirRequestExactly(s); }
    if l.Deliver? { assert CoreOk(s, l.c); }
    if l.GrantWB? { assert CoreOk(s, l.c); }
  }

  /** In every run the directory waits, serving no read and no write, while write-back
      data is on its way to it. */
  lemma {:induction false} WriteBackAwaited(x: Exec, i: nat)
    requires Run(x) && i < |x.ss|
    ensures Awaited(x.ss[i])
    ensures x.ss[i].wbData.Some? && x.ss[i].dir.incoming != [] && !x.ss[i].dir.incoming[0].kind.UPG? ==>
      var d := x.ss[i].dir;
      DirRequestStep(x.ss[i]) ==
      Ok(x.ss[i].(dir := d.(stalled := d.stalled + [d.incoming[0]], incoming := d.incoming[1..])))
  {
    RunInv(x, i);
    if i > 0 {
      WriteBackAwaited(x, i - 1);
      RunInv(x, i - 1);
      AwaitedStep(x.ss[i - 1], x.ls[i - 1]);
    }
    if x.ss[i].dir.incoming != [] {
      DirRequestExactly(x.ss[i]);
      assert RequestOk(x.ss[i], |x.ss[i].dir.stalled|);
    }
  }

  /** Twelve of the declared cache states are never entered. */
  lemma {:induction false} DeadStates(x: Exec, i: nat, c: nat)
    requires Run(x) && i < |x.ss| && c < |x.ss[i].lines|
    ensures x.ss[i].lines[c].st !in {IS_A, IM_A, IM_DSI, SM_AD, SM_A, SM_D, SM_DS, SM_DSI, SM_DI, II_A, MS_WB, MI_WB}
  {
    RunInv(x, i);
    assert CoreOk(x.ss[i], c);
  }
}
