/** How soon the protocol comes to rest when the processors leave it alone. */
module PmsiRest {
  import opened PmsiTable
  import opened PmsiSystem
  import opened PmsiInvariant
  import opened PmsiSafety
  import opened PmsiProgress
  import opened PmsiLiveness
  import PmsiBound
  import PmsiTdm

  lemma {:induction false} TotalBound<T>(ls: seq<T>, w: T -> nat, m: nat)
    requires forall i :: 0 <= i < |ls| ==> w(ls[i]) <= m
    ensures Total(ls, w) <= m * |ls|
  {
    if ls != [] {
      TotalBound(ls[..|ls| - 1], w, m);
      assert m * |ls| == m * (|ls| - 1) + m;
    }
  }

  /** The components of the rank are bounded by the number of caches. */
  lemma {:induction false} RankBounds(s: Sys)
    requires Inv(s)
    ensures var n, r := |s.lines|, RankOf(s);
            r.grants <= 2 * n && r.writes <= 2 * n + 1 && r.work <= 7 * n + 2 && r.looks <= 4 * n + 1
  {
    PmsiBound.QueueBound(s);
    TotalBound(s.lines, GrantsLeft, 2);
    TotalBound(s.lines, WriteBacksLeft, 1);
    forall c | 0 <= c < |s.resp| ensures Replies(s.resp[c]) <= 1 { assert CoreOk(s, c); }
    TotalBound(s.resp, Replies, 1);
  }

  /** The rank as one number, for components below a, b and c. */
  function Number(r: Rank, a: nat, b: nat, c: nat): nat { ((r.grants * a + r.writes) * b + r.work) * c + r.looks }

  lemma {:induction false} Digit(x: nat, y: nat, u: nat, v: nat, k: nat)
    requires u < k && v < k && (x < y || (x == y && u < v))
    ensures x * k + u < y * k + v
  {
    if x < y { PmsiBound.JobsLess(x, y, k); }
  }

  lemma {:induction false} NumberBelow(r: Rank, r': Rank, a: nat, b: nat, c: nat)
    requires Below(r', r) && r.writes < a && r'.writes < a && r.work < b && r'.work < b && r.looks < c && r'.looks < c
    ensures Number(r', a, b, c) < Number(r, a, b, c)
  {
    var g, g' := r.grants * a + r.writes, r'.grants * a + r'.writes;
    if r'.grants < r.grants || r'.writes < r.writes { Digit(r'.grants, r.grants, r'.writes, r.writes, a); }
    var h, h' := g * b + r.work, g' * b + r'.work;
    if g' < g || r'.work < r.work { Digit(g', g, r'.work, r.work, b); }
    Digit(h', h, r'.looks, r.looks, c);
  }

  /** Protocol steps that the system can take by itself, at most. */
  ghost function StepsLeft(s: Sys): nat {
    var n := |s.lines|;
    Number(RankOf(s), 2 * n + 2, 7 * n + 3, 4 * n + 2)
  }

  lemma {:induction false} StepBelow(s: Sys, l: Label)
    requires Inv(s) && Enabled(s, l) && Protocol(l) && Regular(s, l)
    ensures Step(s, l).Ok? && |Step(s, l).sys.lines| == |s.lines|
    ensures Inv(Step(s, l).sys) && Below(RankOf(Step(s, l).sys), RankOf(s))
  {
    StepInv(s, l);
    StepRank(s, l);
    PmsiTdm.SameSize(s, l);
  }

  lemma {:induction false} StepLeft(s: Sys, l: Label)
    requires Inv(s) && Enabled(s, l) && Protocol(l) && Regular(s, l)
    ensures Step(s, l).Ok? && |Step(s, l).sys.lines| == |s.lines| && StepsLeft(Step(s, l).sys) < StepsLeft(s)
  {
    StepBelow(s, l);
    FewerLeft(s, Step(s, l).sys);
  }

  lemma {:induction false} FewerLeft(s: Sys, s': Sys)
    requires Inv(s) && Inv(s') && |s'.lines| == |s.lines| && Below(RankOf(s'), RankOf(s))
    ensures StepsLeft(s') < StepsLeft(s)
  {
    var n := |s.lines|;
    RankBounds(s);
    RankBounds(s');
    NumberBelow(RankOf(s), RankOf(s'), 2 * n + 2, 7 * n + 3, 4 * n + 2);
  }

  /** However a run is continued by protocol steps, they come to an end within a
      number that depends on the state only. */
  lemma {:induction false} RestWithin(x: Exec, i: nat, j: nat)
    requires Run(x) && i <= j <= |x.ls| && forall k :: i <= k < j ==> Protocol(x.ls[k])
    ensures j - i <= StepsLeft(x.ss[i]) - StepsLeft(x.ss[j])
  {
    if i < j {
      RestWithin(x, i, j - 1);
      RunInv(x, j - 1);
      StepLeft(x.ss[j - 1], x.ls[j - 1]);
    }
  }

  /** When no protocol step is left, every cache is in a stable state: so however a
      run is continued, it comes to rest. */
  lemma {:induction false} EndsAtRest(x: Exec)
    requires Run(x)
    requires var s := x.ss[|x.ls|]; forall l :: Protocol(l) && Enabled(s, l) ==> !Regular(s, l)
    ensures Stable(x.ss[|x.ls|])
  {
    var s := x.ss[|x.ls|];
    forall c | 0 <= c < |s.lines| ensures !Busy(s.lines[c].st) {
      if Busy(s.lines[c].st) { var l := NoDeadlock(x, c); }
    }
  }
}
