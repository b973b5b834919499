/** No request is lost and the protocol never deadlocks. */
module PmsiProgress {
  import opened Wrappers
  import opened PmsiTable
  import opened PmsiSystem
  import opened PmsiInvariant
  import opened PmsiSteps
  import opened PmsiGrant
  import opened PmsiDirectory
  import opened PmsiWake
  import opened PmsiSafety

  predicate Waiting(st: CState) { WaitS(st) || WaitM(st) }

  /** A cache waiting for data has a side packet due, a request in the queue, a
      fetch in progress or a reply on its way. */
  predicate Tracked(s: Sys, c: nat)
    requires c < |s.lines| == |s.resp|
  {
    Waiting(s.lines[c].st) ==>
      s.side == Some(c) || Fetching(s, c) || s.resp[c] != [] || Msg(GETS, c) in Q(s) || Msg(GETM, c) in Q(s)
  }

  predicate AllTracked(s: Sys) {
    |s.lines| == |s.resp| && forall c :: 0 <= c < |s.lines| ==> Tracked(s, c)
  }

  lemma {:induction false} GrantTracked(s: Sys, c: nat, v: Value, s': Sys, i: nat)
    requires Inv(s) && AllTracked(s) && Enabled(s, Grant(c, v)) && GrantStep(s, c, v) == Ok(s') && i < |s.lines|
    ensures |s'.lines| == |s.lines| == |s'.resp| && Tracked(s', i)
  {
    var k, own, side, w := GrantLegal(s, c, v, s');
    QueueGrows(s, s', c, k, own, side, w);
    assert CoreOk(s, i) && Tracked(s, i);
    assert Q(s')[|Q(s)|] == Msg(k, c);
    assert forall m :: m in Q(s) ==> m in Q(s');
  }

  lemma {:induction false} DirRequestTracked(s: Sys, s': Sys, i: nat)
    requires |s.lines| == |s.resp| && i < |s.lines| && Tracked(s, i)
    requires Deferred(s, s') || FromIdle(s, s') || FromOwner(s, s') || Dropped(s, s')
    requires s.dir.st.DI? || s.dir.st.DM? ==> s.dir.stalled == []
    ensures Tracked(s', i)
  {
    if !Deferred(s, s') {
      var k := if Dropped(s, s') then |s.dir.stalled| else 0;
      if Msg(GETS, i) in Q(s) { StaysQueued(Q(s), k, Msg(GETS, i)); }
      if Msg(GETM, i) in Q(s) { StaysQueued(Q(s), k, Msg(GETM, i)); }
    }
  }

  lemma {:induction false} StaysQueued(q: seq<Msg>, k: nat, m: Msg)
    requires k < |q| && m in q
    ensures m in q[..k] + q[k + 1..] || m == q[k]
  {
    assert q == q[..k] + [q[k]] + q[k + 1..];
  }

  lemma {:induction false} PromptTracked(s: Sys, l: Label, i: nat)
    requires Inv(s) && AllTracked(s) && Enabled(s, l) && i < |s.lines|
    requires (l.DirMemory? || l.DirData?) && Prompt(s, l) && Step(s, l).Ok?
    ensures var s' := Step(s, l).sys; |s'.lines| == |s.lines| == |s'.resp| && Tracked(s', i)
  {
    var s' := Step(s, l).sys;
    assert Q(s') == Q(s);
    assert CoreOk(s, i) && Tracked(s, i);
  }

  lemma {:induction false} ShuffledTracked(s: Sys, s': Sys, k: nat, p: nat, i: nat)
    requires Shuffled(s, s', k, p) && i < |s.lines| == |s.resp| && Tracked(s, i)
    ensures Tracked(s', i)
  {
    if Msg(GETS, i) in Q(s) { StillQueued(Q(s), Q(s'), k, p, Msg(GETS, i)); }
    if Msg(GETM, i) in Q(s) { StillQueued(Q(s), Q(s'), k, p, Msg(GETM, i)); }
  }

  lemma {:induction false} DirectoryTracked(s: Sys, l: Label, i: nat)
    requires Inv(s) && AllTracked(s) && Enabled(s, l) && i < |s.lines|
    requires (l.DirMemory? || l.DirData?) && Orderly(s, l) && Step(s, l).Ok?
    ensures var s' := Step(s, l).sys; |s'.lines| == |s.lines| == |s'.resp| && Tracked(s', i)
  {
    var k, p := Overtakes(s, l);
    PromptTracked(s, Undisturbed(l), i);
    ShuffledTracked(Step(s, Undisturbed(l)).sys, Step(s, l).sys, k, p, i);
  }

  lemma {:induction false} OtherTracked(s: Sys, l: Label, i: nat)
    requires Inv(s) && AllTracked(s) && Enabled(s, l) && i < |s.lines|
    requires (l.Processor? || l.Deliver? || l.GrantWB?) && Step(s, l).Ok?
    ensures var s' := Step(s, l).sys; |s'.lines| == |s.lines| == |s'.resp| && Tracked(s', i)
  {
    var s' := Step(s, l).sys;
    assert Q(s') == Q(s);
    assert CoreOk(s, i) && Tracked(s, i);
  }

  lemma {:induction false} StepTracked(s: Sys, l: Label)
    requires Inv(s) && AllTracked(s) && Enabled(s, l) && Orderly(s, l) && Step(s, l).Ok?
    ensures AllTracked(Step(s, l).sys)
  {
    var s' := Step(s, l).sys;
    if l.DirRequest? {
      assert RequestOk(s, |s.dir.stalled|);
      DirRequestCases(s);
      forall i | 0 <= i < |s.lines| ensures Tracked(s', i) { assert Tracked(s, i); DirRequestTracked(s, s', i); }
    } else if l.Grant? {
      forall i | 0 <= i < |s.lines| ensures |s'.lines| == |s.lines| == |s'.resp| && Tracked(s', i) {
        GrantTracked(s, l.c, l.v, s', i);
      }
    } else {
      forall i | 0 <= i < |s.lines| ensures |s'.lines| == |s.lines| == |s'.resp| && Tracked(s', i) {
        if l.DirMemory? || l.DirData? { DirectoryTracked(s, l, i); } else { OtherTracked(s, l, i); }
      }
    }
  }

  lemma {:induction false} RunTracked(x: Exec, i: nat)
    requires Run(x) && i < |x.ss|
    ensures AllTracked(x.ss[i])
  {
    if i > 0 {
      RunTracked(x, i - 1);
      RunInv(x, i - 1);
      StepTracked(x.ss[i - 1], x.ls[i - 1]);
    }
  }

  /** A cache whose line is between stable states. */
  predicate Busy(st: CState) { !st.I? && !st.S? && !st.M? }

  /** A step of the bus, the directory or the data network, not of a processor. */
  predicate Protocol(l: Label) { !l.Processor? }

  /** The directory can act, unless it waits for its owner. */
  lemma {:induction false} DirectoryActs(s: Sys) returns (l: Label)
    requires Inv(s) && Q(s) != []
    ensures Protocol(l) && Enabled(s, l) && Regular(s, l)
  {
    if s.dir.incoming != [] {
      l := DirRequest;
    } else if s.dir.st.DIS? || s.dir.st.DIM? {
      l := DirMemory(0);
    } else if s.wbData.Some? {
      l := DirData(0);
    } else {
      var o := s.dir.owner.value;
      assert CoreOk(s, o);
      if s.resp[o] != [] {
        l := Deliver(o, 0);
      } else if s.side.Some? {
        assert CoreOk(s, s.side.value);
        l := Grant(s.side.value, 0);
      } else {
        assert Allows(s.side, s.lines[o].st, Q(s)[0]);
        l := GrantWB(o);
      }
    }
  }

  /** As long as some cache is busy, the protocol can take a step. */
  lemma {:induction false} NoDeadlock(x: Exec, c: nat) returns (l: Label)
    requires Run(x)
    requires var s := x.ss[|x.ls|]; c < |s.lines| && Busy(s.lines[c].st)
    ensures var s := x.ss[|x.ls|]; Protocol(l) && Enabled(s, l) && Regular(s, l) && Step(s, l).Ok?
  {
    var s := x.ss[|x.ls|];
    RunInv(x, |x.ls|);
    RunTracked(x, |x.ls|);
    assert CoreOk(s, c) && Tracked(s, c);
    if Q(s) != [] {
      l := DirectoryActs(s);
    } else if s.wbData.Some? {
      l := DirData(0);
    } else if s.side.Some? {
      assert CoreOk(s, s.side.value);
      l := Grant(s.side.value, 0);
    } else if s.lines[c].req.Some? {
      l := Grant(c, 0);
    } else if s.lines[c].wb {
      l := GrantWB(c);
    } else if s.resp[c] != [] {
      l := Deliver(c, 0);
    } else {
      l := DirMemory(0);
    }
    CrashExactly(s, l);
  }
}
