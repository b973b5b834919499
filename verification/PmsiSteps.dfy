module PmsiSteps {
  import opened PmsiTable
  import opened PmsiSystem
  import opened PmsiInvariant

  lemma {:induction false} InitInv(n: nat, v: Value)
    ensures Inv(Init(n, v))
  {
  }

  /** A write right not yet known to the directory sits in the queue behind GETS only. */
  lemma {:induction false} HiddenWriter(s: Sys, w: nat) returns (i: nat)
    requires Inv(s) && w < |s.lines| && Writer(s.lines[w].st) && NoOwner(s)
    ensures i < |Q(s)| && Q(s)[i] == Msg(UPG, w) && After(s, w, i + 1)
    ensures forall j :: 0 <= j < i ==> Q(s)[j].kind.GETS?
  {
    assert CoreOk(s, w);
    i :| 0 <= i < |Q(s)| && Q(s)[i] == Msg(UPG, w);
    assert RequestOk(s, i);
    if i + 1 < |Q(s)| { assert RequestOk(s, i + 1); }
  }

  lemma {:induction false} SoleWriter(s: Sys, w: nat, c: nat)
    requires Inv(s) && w < |s.lines| && c < |s.lines| && w != c && Writer(s.lines[w].st)
    ensures !Writer(s.lines[c].st) && !Sharer(s.lines[c].st)
  {
    assert CoreOk(s, w) && CoreOk(s, c);
    if NoOwner(s) {
      var i := HiddenWriter(s, w);
      if Writer(s.lines[c].st) {
        var j := HiddenWriter(s, c);
      }
    }
  }

  /** A cache with the write right is not waiting for data the others could use. */
  lemma {:induction false} WriterExcludes(s: Sys, w: nat, c: nat)
    requires Inv(s) && w < |s.lines| && c < |s.lines| && w != c && Writer(s.lines[w].st)
    ensures s.resp[c] != [] ==> s.lines[c].st.IS_DI?
  {
    assert CoreOk(s, w) && CoreOk(s, c);
    if NoOwner(s) { var i := HiddenWriter(s, w); }
  }

  /** With a reader being served from memory, or a writer about to be, nobody holds the write right. */
  lemma {:induction false} OnlyReaders(s: Sys)
    requires Inv(s)
    requires s.dir.st.DIM? || (s.dir.st.DIS? && s.lines[s.dir.cur].st.IS_D?)
    ensures NoWriter(s)
  {
    forall w | 0 <= w < |s.lines| ensures !Writer(s.lines[w].st) {
      assert CoreOk(s, w);
      if NoOwner(s) && Writer(s.lines[w].st) { var i := HiddenWriter(s, w); }
    }
  }

  lemma {:induction false} OwnedElsewhere(s: Sys, c: nat)
    requires Inv(s) && s.dir.st.DIM? && c < |s.lines|
    ensures !Sharer(s.lines[c].st) && (s.resp[c] != [] ==> s.lines[c].st.IS_DI?)
  {
    assert CoreOk(s, c);
  }

  lemma {:induction false} ProcessorOwn(s: Sys, c: nat, op: CpuOp, v: Value, s': Sys)
    requires Inv(s)
    requires Enabled(s, Processor(c, op, v)) && ProcessorStep(s, c, op, v) == Ok(s')
    ensures |s'.lines| == |s.lines| == |s'.resp| && CoreOk(s', c)
  {
    assert Q(s') == Q(s);
    assert CoreOk(s, c);
  }

  lemma {:induction false} ProcessorOther(s: Sys, c: nat, op: CpuOp, v: Value, s': Sys, i: nat)
    requires Inv(s)
    requires Enabled(s, Processor(c, op, v)) && ProcessorStep(s, c, op, v) == Ok(s')
    requires i < |s.lines| && i != c
    ensures |s'.lines| == |s.lines| == |s'.resp| && CoreOk(s', i)
  {
    assert Q(s') == Q(s);
    assert CoreOk(s, c) && CoreOk(s, i);
    if Writer(s.lines[c].st) {
      SoleWriter(s, c, i);
      WriterExcludes(s, c, i);
    }
  }

  lemma {:induction false} ProcessorRequest(s: Sys, c: nat, op: CpuOp, v: Value, s': Sys, i: nat)
    requires Inv(s)
    requires Enabled(s, Processor(c, op, v)) && ProcessorStep(s, c, op, v) == Ok(s')
    requires i < |Q(s')|
    ensures |s'.lines| == |s.lines| == |s'.resp| && RequestOk(s', i)
  {
    assert Q(s') == Q(s);
    assert CoreOk(s, c);
    assert RequestOk(s, i);
  }

  lemma {:induction false} ProcessorRest(s: Sys, c: nat, op: CpuOp, v: Value, s': Sys)
    requires Inv(s)
    requires Enabled(s, Processor(c, op, v)) && ProcessorStep(s, c, op, v) == Ok(s')
    ensures |s'.lines| == |s.lines| == |s'.resp|
    ensures OneEach(Q(s')) && DirOk(s') && TransitOk(s')
  {
    assert Q(s') == Q(s);
    assert CoreOk(s, c);
  }

  lemma {:induction false} ProcessorMemory(s: Sys, c: nat, op: CpuOp, v: Value, s': Sys)
    requires Inv(s)
    requires Enabled(s, Processor(c, op, v)) && ProcessorStep(s, c, op, v) == Ok(s')
    ensures |s'.lines| == |s.lines| == |s'.resp| && MemoryOk(s')
  {
    assert Q(s') == Q(s);
    assert CoreOk(s, c);
    assert NoWriter(s') ==> forall d :: 0 <= d < |s.lines| ==> !Writer(s'.lines[d].st) && !Writer(s.lines[d].st);
  }

  lemma {:induction false} ProcessorInv(s: Sys, c: nat, op: CpuOp, v: Value, s': Sys)
    requires Inv(s)
    requires Enabled(s, Processor(c, op, v)) && ProcessorStep(s, c, op, v) == Ok(s')
    ensures Inv(s')
  {
    ProcessorRest(s, c, op, v, s');
    ProcessorMemory(s, c, op, v, s');
    forall i | 0 <= i < |s'.lines| ensures CoreOk(s', i) {
      if i == c { ProcessorOwn(s, c, op, v, s'); } else { ProcessorOther(s, c, op, v, s', i); }
    }
    forall i | 0 <= i < |Q(s')| ensures RequestOk(s', i) { ProcessorRequest(s, c, op, v, s', i); }
  }

  lemma {:induction false} DeliverCore(s: Sys, c: nat, v: Value, s': Sys, i: nat)
    requires Inv(s)
    requires Enabled(s, Deliver(c, v)) && DeliverStep(s, c, v) == Ok(s')
    requires i < |s.lines|
    ensures |s'.lines| == |s.lines| == |s'.resp| && CoreOk(s', i)
  {
    assert Q(s') == Q(s);
    assert CoreOk(s, c);
    assert CoreOk(s, i);
  }

  lemma {:induction false} DeliverRequest(s: Sys, c: nat, v: Value, s': Sys, i: nat)
    requires Inv(s)
    requires Enabled(s, Deliver(c, v)) && DeliverStep(s, c, v) == Ok(s')
    requires i < |Q(s')|
    ensures |s'.lines| == |s.lines| == |s'.resp| && RequestOk(s', i)
  {
    assert Q(s') == Q(s);
    assert CoreOk(s, c);
    assert RequestOk(s, i);
  }

  lemma {:induction false} DeliverRest(s: Sys, c: nat, v: Value, s': Sys)
    requires Inv(s)
    requires Enabled(s, Deliver(c, v)) && DeliverStep(s, c, v) == Ok(s')
    ensures |s'.lines| == |s.lines| == |s'.resp|
    ensures OneEach(Q(s')) && DirOk(s') && TransitOk(s')
  {
    assert Q(s') == Q(s);
    assert CoreOk(s, c);
  }

  lemma {:induction false} DeliverMemory(s: Sys, c: nat, v: Value, s': Sys)
    requires Inv(s)
    requires Enabled(s, Deliver(c, v)) && DeliverStep(s, c, v) == Ok(s')
    ensures |s'.lines| == |s.lines| == |s'.resp| && MemoryOk(s')
  {
    assert Q(s') == Q(s);
    assert CoreOk(s, c);
    assert NoWriter(s') ==> forall d :: 0 <= d < |s.lines| ==> !Writer(s'.lines[d].st) && !Writer(s.lines[d].st);
  }

  lemma {:induction false} DeliverInv(s: Sys, c: nat, v: Value, s': Sys)
    requires Inv(s)
    requires Enabled(s, Deliver(c, v)) && DeliverStep(s, c, v) == Ok(s')
    ensures Inv(s')
  {
    DeliverRest(s, c, v, s');
    DeliverMemory(s, c, v, s');
    forall i | 0 <= i < |s'.lines| ensures CoreOk(s', i) { DeliverCore(s, c, v, s', i); }
    forall i | 0 <= i < |Q(s')| ensures RequestOk(s', i) { DeliverRequest(s, c, v, s', i); }
  }

  /** A prompt wake-up puts the requests put aside in front of the others. */
  lemma {:induction false} Woke(s: Sys, l: Label)
    requires Enabled(s, l) && Prompt(s, l)
    ensures l.DirMemory? ==> Enabled(s, DirMemory(0)) && Step(s, l) == DirMemoryStep(s, 0)
    ensures l.DirData? ==> Enabled(s, DirData(0)) && Step(s, l) == DirDataStep(s, 0)
  {
  }

  lemma {:induction false} DirMemoryCore(s: Sys, s': Sys, i: nat)
    requires Inv(s)
    requires Enabled(s, DirMemory(0)) && DirMemoryStep(s, 0) == Ok(s')
    requires i < |s.lines|
    ensures |s'.lines| == |s.lines| == |s'.resp| && CoreOk(s', i)
  {
    assert Q(s') == Q(s);
    assert CoreOk(s, s.dir.cur);
    assert CoreOk(s, i);
    if s.dir.st.DIS? && s.lines[s.dir.cur].st.IS_D? { OnlyReaders(s); }
    if s.dir.st.DIM? { OwnedElsewhere(s, i); OnlyReaders(s); }
  }

  lemma {:induction false} DirMemoryRequest(s: Sys, s': Sys, i: nat)
    requires Inv(s)
    requires Enabled(s, DirMemory(0)) && DirMemoryStep(s, 0) == Ok(s')
    requires i < |Q(s')|
    ensures |s'.lines| == |s.lines| == |s'.resp| && RequestOk(s', i)
  {
    assert Q(s') == Q(s);
    assert RequestOk(s, i);
    MemoryRequest(s, s', i);
  }

  lemma {:induction false} MemoryRequest(s: Sys, s': Sys, i: nat)
    requires |s.lines| == |s.resp| && Enabled(s, DirMemory(0)) && DirMemoryStep(s, 0) == Ok(s')
    requires DirOk(s) && i < |Q(s)| && RequestOk(s, i)
    ensures |s'.lines| == |s.lines| == |s'.resp| && Q(s') == Q(s) && RequestOk(s', i)
  {
    assert Q(s') == Q(s);
    assert s'.lines == s.lines && s'.side == s.side;
  }

  lemma {:induction false} DirMemoryRest(s: Sys, s': Sys)
    requires Inv(s)
    requires Enabled(s, DirMemory(0)) && DirMemoryStep(s, 0) == Ok(s')
    ensures |s'.lines| == |s.lines| == |s'.resp|
    ensures OneEach(Q(s')) && DirOk(s') && TransitOk(s') && MemoryOk(s')
  {
    assert Q(s') == Q(s);
    assert CoreOk(s, s.dir.cur);
  }

  lemma {:induction false} DirMemoryInv(s: Sys, s': Sys)
    requires Inv(s)
    requires Enabled(s, DirMemory(0)) && DirMemoryStep(s, 0) == Ok(s')
    ensures Inv(s')
  {
    DirMemoryRest(s, s');
    forall i | 0 <= i < |s'.lines| ensures CoreOk(s', i) { DirMemoryCore(s, s', i); }
    forall i | 0 <= i < |Q(s')| ensures RequestOk(s', i) { DirMemoryRequest(s, s', i); }
  }

  lemma {:induction false} DirDataCore(s: Sys, s': Sys, i: nat)
    requires Inv(s)
    requires Enabled(s, DirData(0)) && DirDataStep(s, 0) == Ok(s')
    requires i < |s.lines|
    ensures |s'.lines| == |s.lines| == |s'.resp| && CoreOk(s', i)
  {
    assert Q(s') == Q(s);
    assert CoreOk(s, i);
  }

  lemma {:induction false} DirDataQueue(s: Sys, s': Sys)
    requires Enabled(s, DirData(0)) && DirDataStep(s, 0) == Ok(s')
    ensures s'.lines == s.lines && s'.resp == s.resp && Q(s') == Q(s)
  {
  }

  lemma {:induction false} DirDataRequest(s: Sys, s': Sys, i: nat)
    requires Inv(s)
    requires Enabled(s, DirData(0)) && DirDataStep(s, 0) == Ok(s')
    requires i < |Q(s')|
    ensures |s'.lines| == |s.lines| == |s'.resp| && RequestOk(s', i)
  {
    DirDataQueue(s, s');
    assert RequestOk(s, i);
  }

  lemma {:induction false} DirDataRest(s: Sys, s': Sys)
    requires Inv(s)
    requires Enabled(s, DirData(0)) && DirDataStep(s, 0) == Ok(s')
    ensures |s'.lines| == |s.lines| == |s'.resp|
    ensures OneEach(Q(s')) && DirOk(s') && TransitOk(s') && MemoryOk(s')
  {
    assert Q(s') == Q(s);
  }

  lemma {:induction false} DirDataInv(s: Sys, s': Sys)
    requires Inv(s)
    requires Enabled(s, DirData(0)) && DirDataStep(s, 0) == Ok(s')
    ensures Inv(s')
  {
    DirDataRest(s, s');
    forall i | 0 <= i < |s'.lines| ensures CoreOk(s', i) { DirDataCore(s, s', i); }
    forall i | 0 <= i < |Q(s')| ensures RequestOk(s', i) { DirDataRequest(s, s', i); }
  }

  lemma {:induction false} GrantWBCore(s: Sys, c: nat, s': Sys, i: nat)
    requires Inv(s)
    requires Enabled(s, GrantWB(c)) && Timely(s, GrantWB(c)) && GrantWBStep(s, c) == Ok(s')
    requires i < |s.lines|
    ensures |s'.lines| == |s.lines| == |s'.resp| && CoreOk(s', i)
  {
    assert Q(s') == Q(s);
    assert CoreOk(s, c);
    assert CoreOk(s, i);
    if i != c { SoleWriter(s, c, i); WriterExcludes(s, c, i); }
  }

  lemma {:induction false} GrantWBRequest(s: Sys, c: nat, s': Sys, i: nat)
    requires Inv(s)
    requires Enabled(s, GrantWB(c)) && Timely(s, GrantWB(c)) && GrantWBStep(s, c) == Ok(s')
    requires i < |Q(s')|
    ensures |s'.lines| == |s.lines| == |s'.resp| && RequestOk(s', i)
  {
    assert Q(s') == Q(s);
    assert CoreOk(s, c);
    assert RequestOk(s, i);
  }

  lemma {:induction false} GrantWBRest(s: Sys, c: nat, s': Sys)
    requires Inv(s)
    requires Enabled(s, GrantWB(c)) && Timely(s, GrantWB(c)) && GrantWBStep(s, c) == Ok(s')
    ensures |s'.lines| == |s.lines| == |s'.resp|
    ensures OneEach(Q(s')) && DirOk(s') && TransitOk(s') && MemoryOk(s')
  {
    assert Q(s') == Q(s);
    assert CoreOk(s, c);
    forall i | 0 <= i < |s.lines| && i != c ensures !Writer(s.lines[i].st) { SoleWriter(s, c, i); }
  }

  lemma {:induction false} GrantWBInv(s: Sys, c: nat, s': Sys)
    requires Inv(s)
    requires Enabled(s, GrantWB(c)) && Timely(s, GrantWB(c)) && GrantWBStep(s, c) == Ok(s')
    ensures Inv(s')
  {
    GrantWBRest(s, c, s');
    forall i | 0 <= i < |s'.lines| ensures CoreOk(s', i) { GrantWBCore(s, c, s', i); }
    forall i | 0 <= i < |Q(s')| ensures RequestOk(s', i) { GrantWBRequest(s, c, s', i); }
  }

}
