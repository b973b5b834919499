/** Runs that show why the side conditions on runs are there. */
module PmsiHazards {
  import opened Wrappers
  import opened PmsiTable
  import opened PmsiSystem
  import opened PmsiInvariant
  import opened PmsiSteps
  import opened PmsiSafety

  function Last(x: Exec): Sys
    requires |x.ss| == |x.ls| + 1
  {
    x.ss[|x.ls|]
  }

  lemma {:induction false} Extend(x: Exec, l: Label) returns (y: Exec)
    requires Run(x) && Enabled(Last(x), l) && Regular(Last(x), l)
    ensures Run(y) && Ok(Last(y)) == Step(Last(x), l)
  {
    NeverStuck(x, l);
    y := Exec(x.ss + [Step(Last(x), l).sys], x.ls + [l]);
  }

  function Quiet(st: CState): Line { Line(st, 0, None, false) }

  function IdleDir(incoming: seq<Msg>): Dir { Dir(DI, None, 0, [], incoming) }

  function Start(): Sys { Sys([Quiet(I), Quiet(I)], IdleDir([]), 0, [[], []], None, None, 0) }

  lemma {:induction false} Requested() returns (x: Exec)
    ensures Run(x) && Last(x) == Start().(lines := [Quiet(IS_D), Quiet(I)], dir := IdleDir([Msg(GETS, 0)]))
  {
    x := Exec([Init(2, 0)], []);
    assert Last(x) == Start();
    x := Extend(x, Processor(0, Load, 0));
    x := Extend(x, Grant(0, 0));
  }

  /** Cache 0 reads the line. */
  lemma {:induction false} FirstReader() returns (x: Exec)
    ensures Run(x) && Last(x) == Start().(lines := [Quiet(S), Quiet(I)])
  {
    var e: seq<Value> := [];
    assert e + [0] == [0] && [0][1..] == e;
    x := Requested();
    x := Extend(x, DirRequest);
    assert Last(x) == Start().(lines := [Quiet(IS_D), Quiet(I)], dir := Dir(DIS, None, 0, [], []));
    x := Extend(x, DirMemory(0));
    assert Last(x) == Start().(lines := [Quiet(IS_D), Quiet(I)], resp := [[0], []]);
    x := Extend(x, Deliver(0, 0));
    assert Last(x).resp == [e, e];
  }

  /** Cache 1 asks for the line too and the directory starts to fetch it. */
  lemma {:induction false} SecondReader() returns (x: Exec)
    ensures Run(x) && Last(x) == Start().(lines := [Quiet(S), Quiet(IS_D)], dir := Dir(DIS, None, 1, [], []))
  {
    x := FirstReader();
    x := Extend(x, Processor(1, Load, 0));
    x := Extend(x, Grant(1, 0));
    x := Extend(x, DirRequest);
  }

  /** Cache 0 upgrades and replaces its line while the directory still fetches
      for cache 1: its write-back arrives in a directory state that has no
      transition for it. */
  lemma {:induction false} UntimelyWriteBack() returns (x: Exec, s1: Sys)
    ensures Run(x) && Enabled(Last(x), GrantWB(0)) && !Timely(Last(x), GrantWB(0))
    ensures Step(Last(x), GrantWB(0)) == Ok(s1) && Enabled(s1, DirData(0)) && Step(s1, DirData(0)).Crash?
  {
    x := SecondReader();
    x := Extend(x, Processor(0, Store, 7));
    x := Extend(x, Grant(0, 7));
    x := Extend(x, Processor(0, Replacement, 0));
    RunInv(x, |x.ls|);
    WriteBackExactly(Last(x), 0, 0);
    s1 := GrantWBStep(Last(x), 0).sys;
  }

  lemma {:induction false} TwoWriters() returns (x: Exec)
    ensures Run(x)
    ensures Last(x) == Start().(lines := [Line(SM_W, 0, Some(UPG), false), Line(IM_AD, 0, Some(GETM), false)])
  {
    x := FirstReader();
    x := Extend(x, Processor(1, Store, 0));
    x := Extend(x, Processor(0, Store, 0));
  }

  lemma {:induction false} Overtaken() returns (x: Exec)
    ensures Run(x) && |Last(x).lines| == |Last(x).resp| == 2 && Last(x).lines[0].st.IM_W?
  {
    x := TwoWriters();
    x := Extend(x, Grant(1, 0));
  }

  /** Another cache writes while an upgrade is under way: the loser waits in IM_W,
      where its replacement stops the simulation. */
  lemma {:induction false} OvertakenUpgrade() returns (x: Exec)
    ensures Run(x) && Enabled(Last(x), Processor(0, Replacement, 0))
    ensures Step(Last(x), Processor(0, Replacement, 0)).Crash?
  {
    x := Overtaken();
  }

  /** An execution in which every write-back is timely and every replacement polite. */
  ghost predicate Unprompted(x: Exec) {
    Execution(x) && forall i :: 0 <= i < |x.ls| ==> Timely(x.ss[i], x.ls[i]) && Polite(x.ss[i], x.ls[i])
  }

  lemma {:induction false} Take(x: Exec, l: Label, s: Sys) returns (y: Exec)
    requires Unprompted(x) && Enabled(Last(x), l) && Step(Last(x), l) == Ok(s)
    requires Timely(Last(x), l) && Polite(Last(x), l)
    ensures Unprompted(y) && Last(y) == s
  {
    y := Exec(x.ss + [s], x.ls + [l]);
  }

  function Three(a: Line, b: Line, c: Line, d: Dir): Sys { Sys([a, b, c], d, 0, [[], [], []], None, None, 0) }

  const READ := Line(IS_AD, 0, Some(GETS), false)
  const WRITE := Line(IM_AD, 0, Some(GETM), false)

  lemma {:induction false} ThreeRequests() returns (x: Exec)
    ensures Unprompted(x) && Last(x) == Three(READ, WRITE, READ, IdleDir([]))
  {
    x := Exec([Init(3, 0)], []);
    assert Last(x) == Three(Quiet(I), Quiet(I), Quiet(I), IdleDir([]));
    x := Take(x, Processor(0, Load, 0), Three(READ, Quiet(I), Quiet(I), IdleDir([])));
    x := Take(x, Processor(1, Store, 0), Three(READ, WRITE, Quiet(I), IdleDir([])));
    x := Take(x, Processor(2, Load, 0), Three(READ, WRITE, READ, IdleDir([])));
  }

  lemma {:induction false} Fetching() returns (x: Exec)
    ensures Unprompted(x) && Last(x) == Three(Quiet(IS_D), WRITE, READ, Dir(DIS, None, 0, [], []))
  {
    x := ThreeRequests();
    x := Take(x, Grant(0, 0), Three(Quiet(IS_D), WRITE, READ, IdleDir([Msg(GETS, 0)])));
    x := Take(x, DirRequest, Three(Quiet(IS_D), WRITE, READ, Dir(DIS, None, 0, [], [])));
  }

  /** The write of cache 1 is put aside while the directory fetches for cache 0. */
  lemma {:induction false} WritePutAside() returns (x: Exec)
    ensures Unprompted(x)
    ensures Last(x) == Three(Quiet(IS_DI), Quiet(IM_D), READ, Dir(DIS, None, 0, [Msg(GETM, 1)], []))
  {
    x := Fetching();
    x := Take(x, Grant(1, 0), Three(Quiet(IS_DI), Quiet(IM_D), READ, Dir(DIS, None, 0, [], [Msg(GETM, 1)])));
    x := Take(x, DirRequest, Three(Quiet(IS_DI), Quiet(IM_D), READ, Dir(DIS, None, 0, [Msg(GETM, 1)], [])));
  }

  function Behind(c: CState, d: Dir, resp: seq<seq<Value>>): Sys {
    Three(Quiet(IS_DI), Quiet(IM_DS), Quiet(c), d).(resp := resp)
  }

  lemma {:induction false} ReadGranted() returns (x: Exec)
    ensures Unprompted(x)
    ensures Last(x) == Behind(IS_D, Dir(DIS, None, 0, [Msg(GETM, 1)], [Msg(GETS, 2)]), [[], [], []])
  {
    x := WritePutAside();
    var s := Behind(IS_D, Dir(DIS, None, 0, [Msg(GETM, 1)], [Msg(GETS, 2)]), [[], [], []]);
    assert s.lines == [Quiet(IS_DI), Quiet(IM_DS), Quiet(IS_D)];
    x := Take(x, Grant(2, 0), s);
  }

  /** A reply joins the empty queue of one, and leaves it again. */
  lemma {:induction false} OneReply(v: Value)
    ensures var e: seq<Value> := []; e + [v] == [v] && [v][1..] == e
  {
  }

  /** The later read of cache 2 falls due as the write is taken up again. */
  lemma {:induction false} ReadOvertakes() returns (x: Exec)
    ensures Unprompted(x) && Last(x) == Behind(IS_D, IdleDir([Msg(GETS, 2), Msg(GETM, 1)]), [[0], [], []])
  {
    var w, r := Msg(GETM, 1), Msg(GETS, 2);
    x := ReadGranted();
    OneReply(0);
    assert Merged([w], [r], 1) == [r, w];
    x := Take(x, DirMemory(1), Behind(IS_D, IdleDir([r, w]), [[0], [], []]));
  }

  lemma {:induction false} ReadServed() returns (x: Exec)
    ensures Unprompted(x) && Last(x) == Behind(IS_D, Dir(DIS, None, 2, [Msg(GETM, 1)], []), [[0], [], []])
  {
    var w := Msg(GETM, 1);
    x := ReadOvertakes();
    x := Take(x, DirRequest, Behind(IS_D, Dir(DIS, None, 2, [], [w]), [[0], [], []]));
    x := Take(x, DirRequest, Behind(IS_D, Dir(DIS, None, 2, [w], []), [[0], [], []]));
  }

  lemma {:induction false} ReadDone() returns (x: Exec)
    ensures Unprompted(x) && Last(x) == Behind(S, Dir(DI, None, 2, [], [Msg(GETM, 1)]), [[0], [], []])
  {
    x := ReadServed();
    OneReply(0);
    x := Take(x, DirMemory(0), Behind(IS_D, Dir(DI, None, 2, [], [Msg(GETM, 1)]), [[0], [], [0]]));
    x := Take(x, Deliver(2, 0), Behind(S, Dir(DI, None, 2, [], [Msg(GETM, 1)]), [[0], [], []]));
  }

  lemma {:induction false} WriteServed() returns (x: Exec)
    ensures Unprompted(x) && Last(x) == Behind(S, Dir(DM, Some(1), 1, [], []), [[0], [0], []])
  {
    x := ReadDone();
    OneReply(0);
    x := Take(x, DirRequest, Behind(S, Dir(DIM, Some(1), 1, [], []), [[0], [], []]));
    x := Take(x, DirMemory(0), Behind(S, Dir(DM, Some(1), 1, [], []), [[0], [0], []]));
  }

  /** A read in transit overtakes a write that was put aside before it: two caches
      then share the line and hold different values. */
  lemma {:induction false} OvertakenWrite() returns (x: Exec)
    ensures Unprompted(x) && |Last(x).lines| == 3
    ensures Last(x).lines[1] == Line(S, 7, None, false) && Last(x).lines[2] == Line(S, 0, None, false)
  {
    x := WriteServed();
    OneReply(0);
    x := Take(x, Deliver(1, 7), Sys([Quiet(IS_DI), Line(MS_A, 7, None, true), Quiet(S)],
                                    Dir(DM, Some(1), 1, [], []), 0, [[0], [], []], None, None, 7));
    x := Take(x, GrantWB(1), GrantWBStep(Last(x), 1).sys);
  }

  // ---- A write that overtakes a read ----------------------------------------------------

  lemma {:induction false} ReadsAndWrite() returns (x: Exec)
    ensures Unprompted(x) && Last(x) == Three(READ, READ, WRITE, IdleDir([]))
  {
    x := Exec([Init(3, 0)], []);
    assert Last(x) == Three(Quiet(I), Quiet(I), Quiet(I), IdleDir([]));
    x := Take(x, Processor(0, Load, 0), Three(READ, Quiet(I), Quiet(I), IdleDir([])));
    x := Take(x, Processor(1, Load, 0), Three(READ, READ, Quiet(I), IdleDir([])));
    x := Take(x, Processor(2, Store, 0), Three(READ, READ, WRITE, IdleDir([])));
  }

  lemma {:induction false} ReadWriteFetching() returns (x: Exec)
    ensures Unprompted(x) && Last(x) == Three(Quiet(IS_D), READ, WRITE, Dir(DIS, None, 0, [], []))
  {
    x := ReadsAndWrite();
    x := Take(x, Grant(0, 0), Three(Quiet(IS_D), READ, WRITE, IdleDir([Msg(GETS, 0)])));
    x := Take(x, DirRequest, Three(Quiet(IS_D), READ, WRITE, Dir(DIS, None, 0, [], [])));
  }

  /** The read of cache 1 is put aside while the directory fetches for cache 0. */
  lemma {:induction false} ReadPutAside() returns (x: Exec)
    ensures Unprompted(x) && Last(x) == Three(Quiet(IS_D), Quiet(IS_D), WRITE, Dir(DIS, None, 0, [Msg(GETS, 1)], []))
  {
    x := ReadWriteFetching();
    x := Take(x, Grant(1, 0), Three(Quiet(IS_D), Quiet(IS_D), WRITE, Dir(DIS, None, 0, [], [Msg(GETS, 1)])));
    x := Take(x, DirRequest, Three(Quiet(IS_D), Quiet(IS_D), WRITE, Dir(DIS, None, 0, [Msg(GETS, 1)], [])));
  }

  function Ahead(c: CState, d: Dir, resp: seq<seq<Value>>): Sys {
    Three(Quiet(IS_DI), Quiet(IS_DI), Quiet(c), d).(resp := resp)
  }

  lemma {:induction false} WriteGranted() returns (x: Exec)
    ensures Unprompted(x)
    ensures Last(x) == Ahead(IM_D, Dir(DIS, None, 0, [Msg(GETS, 1)], [Msg(GETM, 2)]), [[], [], []])
  {
    x := ReadPutAside();
    var s := Ahead(IM_D, Dir(DIS, None, 0, [Msg(GETS, 1)], [Msg(GETM, 2)]), [[], [], []]);
    assert s.lines == [Quiet(IS_DI), Quiet(IS_DI), Quiet(IM_D)];
    x := Take(x, Grant(2, 0), s);
  }

  /** The later write of cache 2 falls due as the read is taken up again. */
  lemma {:induction false} WriteOvertakes() returns (x: Exec)
    ensures Unprompted(x) && Last(x) == Ahead(IM_D, IdleDir([Msg(GETM, 2), Msg(GETS, 1)]), [[0], [], []])
  {
    var r, w := Msg(GETS, 1), Msg(GETM, 2);
    x := WriteGranted();
    OneReply(0);
    assert Merged([r], [w], 1) == [w, r];
    x := Take(x, DirMemory(1), Ahead(IM_D, IdleDir([w, r]), [[0], [], []]));
  }

  lemma {:induction false} WriteFirst() returns (x: Exec)
    ensures Unprompted(x) && Last(x) == Ahead(IM_D, Dir(DM, Some(2), 2, [], [Msg(GETS, 1)]), [[0], [], [0]])
  {
    var r := Msg(GETS, 1);
    x := WriteOvertakes();
    x := Take(x, DirRequest, Ahead(IM_D, Dir(DIM, Some(2), 2, [], [r]), [[0], [], []]));
    OneReply(0);
    x := Take(x, DirMemory(0), Ahead(IM_D, Dir(DM, Some(2), 2, [], [r]), [[0], [], [0]]));
  }

  lemma {:induction false} ReadWaits() returns (x: Exec)
    ensures Unprompted(x) && Last(x) == Ahead(IM_D, Dir(DM_D, Some(2), 2, [Msg(GETS, 1)], []), [[0], [], [0]])
  {
    var r := Msg(GETS, 1);
    x := WriteFirst();
    x := Take(x, DirRequest, Ahead(IM_D, Dir(DM_D, Some(2), 2, [], [r]), [[0], [], [0]]));
    x := Take(x, DirRequest, Ahead(IM_D, Dir(DM_D, Some(2), 2, [r], []), [[0], [], [0]]));
  }

  /** A write in transit overtakes a read that was put aside before it: its cache owns
      the line, has never seen the read and owes no write-back, so the reader waits
      and the protocol can do nothing about it. */
  lemma {:induction false} OvertakenRead() returns (x: Exec)
    ensures Unprompted(x) && |Last(x).lines| == 3 && Last(x).lines[1].st.IS_DI?
    ensures forall l: Label :: !l.Processor? ==> !Enabled(Last(x), l)
  {
    x := ReadWaits();
    OneReply(0);
    var d := Dir(DM_D, Some(2), 2, [Msg(GETS, 1)], []);
    x := Take(x, Deliver(0, 0), Sys([Quiet(I), Quiet(IS_DI), Quiet(IM_D)], d, 0, [[], [], [0]], None, None, 0));
    x := Take(x, Deliver(2, 7),
              Sys([Quiet(I), Quiet(IS_DI), Line(M, 7, None, false)], d, 0, [[], [], []], None, None, 7));
  }
}
