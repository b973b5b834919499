/** Left alone by the processors, the protocol always comes to rest with every
    cache in a stable state: each miss and each write-back completes. */
module PmsiLiveness {
  import opened Wrappers
  import opened PmsiTable
  import opened PmsiSystem
  import opened PmsiInvariant
  import opened PmsiSteps
  import opened PmsiGrant
  import opened PmsiDirectory
  import opened PmsiSafety
  import opened PmsiProgress

  /** Bus grants that the line's requests may still take. */
  function GrantsLeft(l: Line): nat {
    match l.st
    case IS_AD | IM_AD => 1
    case SM_W | IM_W => 2
    case _ => if l.req.Some? then 1 else 0
  }

  /** A write-back that the line owes, now or as soon as its data is there. */
  function WriteBacksLeft(l: Line): nat {
    if l.st.MI_A? || l.st.MS_A? || l.st.IM_DS? || l.st.IM_DI? then 1 else 0
  }

  function Replies(r: seq<Value>): nat { |r| }

  ghost function Total<T>(ls: seq<T>, w: T -> nat): nat {
    if ls == [] then 0 else Total(ls[..|ls| - 1], w) + w(ls[|ls| - 1])
  }

  lemma {:induction false} TotalMono<T>(ls: seq<T>, ls': seq<T>, w: T -> nat)
    requires |ls| == |ls'| && forall i :: 0 <= i < |ls| ==> w(ls'[i]) <= w(ls[i])
    ensures Total(ls', w) <= Total(ls, w)
  {
    if ls != [] {
      TotalMono(ls[..|ls| - 1], ls'[..|ls| - 1], w);
    }
  }

  lemma {:induction false} TotalLess<T>(ls: seq<T>, ls': seq<T>, w: T -> nat, c: nat)
    requires |ls| == |ls'| && (forall i :: 0 <= i < |ls| ==> w(ls'[i]) <= w(ls[i]))
    requires c < |ls| && w(ls'[c]) < w(ls[c])
    ensures Total(ls', w) < Total(ls, w)
  {
    if c == |ls| - 1 {
      TotalMono(ls[..|ls| - 1], ls'[..|ls| - 1], w);
    } else {
      TotalLess(ls[..|ls| - 1], ls'[..|ls| - 1], w, c);
    }
  }

  lemma {:induction false} TotalUpdate<T>(ls: seq<T>, c: nat, x: T, w: T -> nat)
    requires c < |ls|
    ensures Total(ls[c := x], w) == Total(ls, w) - w(ls[c]) + w(x)
  {
    var init := ls[..|ls| - 1];
    if c == |ls| - 1 {
      assert ls[c := x][..|ls| - 1] == init;
    } else {
      TotalUpdate(init, c, x, w);
      assert ls[c := x][..|ls| - 1] == init[c := x];
    }
  }

  /** Grants to come, then write-backs, then directory work and data, then messages
      the directory has not looked at. */
  datatype Rank = Rank(grants: nat, writes: nat, work: nat, looks: nat)

  ghost predicate Below(a: Rank, b: Rank) {
    || a.grants < b.grants
    || (a.grants == b.grants && a.writes < b.writes)
    || (a.grants == b.grants && a.writes == b.writes && a.work < b.work)
    || (a.grants == b.grants && a.writes == b.writes && a.work == b.work && a.looks < b.looks)
  }

  ghost function RankOf(s: Sys): Rank {
    Rank(Total(s.lines, GrantsLeft),
         2 * Total(s.lines, WriteBacksLeft) + (if s.wbData.Some? then 1 else 0),
         3 * |Q(s)| + (if s.dir.st.DIS? || s.dir.st.DIM? then 2 else 0) + Total(s.resp, Replies),
         2 * |s.dir.incoming| + (if s.dir.st.DM? then 1 else 0))
  }

  lemma {:induction false} FewerGrants(s: Sys, s': Sys)
    requires Total(s'.lines, GrantsLeft) < Total(s.lines, GrantsLeft)
    ensures Below(RankOf(s'), RankOf(s))
  {
  }

  lemma {:induction false} FewerWrites(s: Sys, s': Sys)
    requires Total(s'.lines, GrantsLeft) <= Total(s.lines, GrantsLeft)
    requires Total(s'.lines, WriteBacksLeft) < Total(s.lines, WriteBacksLeft)
    ensures Below(RankOf(s'), RankOf(s))
  {
  }

  lemma {:induction false} GrantLine(s: Sys, c: nat, v: Value, s': Sys, i: nat)
    requires Inv(s) && Enabled(s, Grant(c, v)) && GrantStep(s, c, v) == Ok(s') && i < |s.lines|
    ensures |s'.lines| == |s.lines| && GrantsLeft(s'.lines[i]) <= GrantsLeft(s.lines[i])
    ensures i == c ==> GrantsLeft(s'.lines[i]) < GrantsLeft(s.lines[i])
  {
    var k, own, side, w := GrantLegal(s, c, v, s');
    assert CoreOk(s, c) && CoreOk(s, i);
  }

  lemma {:induction false} GrantRank(s: Sys, c: nat, v: Value, s': Sys)
    requires Inv(s) && Enabled(s, Grant(c, v)) && GrantStep(s, c, v) == Ok(s')
    ensures Below(RankOf(s'), RankOf(s))
  {
    forall i | 0 <= i < |s.lines| ensures |s'.lines| == |s.lines| && GrantsLeft(s'.lines[i]) <= GrantsLeft(s.lines[i]) {
      GrantLine(s, c, v, s', i);
    }
    GrantLine(s, c, v, s', c);
    TotalLess(s.lines, s'.lines, GrantsLeft, c);
    FewerGrants(s, s');
  }

  lemma {:induction false} GrantWBRank(s: Sys, c: nat, s': Sys)
    requires Inv(s) && Enabled(s, GrantWB(c)) && GrantWBStep(s, c) == Ok(s')
    ensures Below(RankOf(s'), RankOf(s))
  {
    forall i | 0 <= i < |s.lines|
      ensures |s'.lines| == |s.lines| && GrantsLeft(s'.lines[i]) <= GrantsLeft(s.lines[i])
      ensures WriteBacksLeft(s'.lines[i]) <= WriteBacksLeft(s.lines[i])
    {
      GrantWBLine(s, c, s', i);
    }
    GrantWBLine(s, c, s', c);
    TotalMono(s.lines, s'.lines, GrantsLeft);
    TotalLess(s.lines, s'.lines, WriteBacksLeft, c);
    FewerWrites(s, s');
  }

  lemma {:induction false} GrantWBLine(s: Sys, c: nat, s': Sys, i: nat)
    requires Inv(s) && Enabled(s, GrantWB(c)) && GrantWBStep(s, c) == Ok(s') && i < |s.lines|
    ensures |s'.lines| == |s.lines|
    ensures GrantsLeft(s'.lines[i]) <= GrantsLeft(s.lines[i])
    ensures WriteBacksLeft(s'.lines[i]) <= WriteBacksLeft(s.lines[i])
    ensures i == c ==> WriteBacksLeft(s'.lines[i]) < WriteBacksLeft(s.lines[i])
  {
    assert CoreOk(s, c) && CoreOk(s, i);
  }

  lemma {:induction false} DeliverRank(s: Sys, c: nat, v: Value, s': Sys)
    requires Inv(s) && Enabled(s, Deliver(c, v)) && DeliverStep(s, c, v) == Ok(s')
    ensures Below(RankOf(s'), RankOf(s))
  {
    assert CoreOk(s, c);
    TotalUpdate(s.lines, c, s'.lines[c], GrantsLeft);
    TotalUpdate(s.lines, c, s'.lines[c], WriteBacksLeft);
    TotalUpdate(s.resp, c, s'.resp[c], Replies);
    assert Q(s') == Q(s);
  }

  lemma {:induction false} DirMemoryRank(s: Sys, due: nat, s': Sys)
    requires Inv(s) && Enabled(s, DirMemory(due)) && DirMemoryStep(s, due) == Ok(s')
    ensures Below(RankOf(s'), RankOf(s))
  {
    TotalUpdate(s.resp, s.dir.cur, s'.resp[s.dir.cur], Replies);
    assert |Q(s')| == |Q(s)|;
  }

  lemma {:induction false} DirRequestRank(s: Sys, s': Sys)
    requires Inv(s) && Enabled(s, DirRequest) && DirRequestStep(s) == Ok(s')
    ensures Below(RankOf(s'), RankOf(s))
  {
    assert RequestOk(s, |s.dir.stalled|);
    DirRequestCases(s);
  }

  /** Every protocol step brings the system closer to rest. */
  lemma {:induction false} StepRank(s: Sys, l: Label)
    requires Inv(s) && Enabled(s, l) && Protocol(l) && Step(s, l).Ok?
    ensures Below(RankOf(Step(s, l).sys), RankOf(s))
  {
    var s' := Step(s, l).sys;
    match l
    case Grant(c, v) => GrantRank(s, c, v, s');
    case GrantWB(c) => GrantWBRank(s, c, s');
    case DirRequest => DirRequestRank(s, s');
    case DirMemory(due) => DirMemoryRank(s, due, s');
    case DirData(_) => assert |Q(s')| == |Q(s)|;
    case Deliver(c, v) => DeliverRank(s, c, v, s');
  }

  ghost predicate Stable(s: Sys) {
    forall c :: 0 <= c < |s.lines| ==> !Busy(s.lines[c].st)
  }

  /** Any run can be finished by protocol steps alone, after which no cache has
      anything outstanding. */
  lemma {:induction false} ComesToRest(x: Exec) returns (y: Exec)
    requires Run(x)
    ensures Run(y) && x.ss <= y.ss && x.ls <= y.ls
    ensures forall i :: |x.ls| <= i < |y.ls| ==> Protocol(y.ls[i])
    ensures Stable(y.ss[|y.ls|])
    decreases RankOf(x.ss[|x.ls|]).grants, RankOf(x.ss[|x.ls|]).writes,
              RankOf(x.ss[|x.ls|]).work, RankOf(x.ss[|x.ls|]).looks
  {
    var s := x.ss[|x.ls|];
    if Stable(s) {
      y := x;
    } else {
      var c :| 0 <= c < |s.lines| && Busy(s.lines[c].st);
      var l := NoDeadlock(x, c);
      RunInv(x, |x.ls|);
      StepRank(s, l);
      NeverStuck(x, l);
      y := ComesToRest(Exec(x.ss + [Step(s, l).sys], x.ls + [l]));
    }
  }
}
