/** Wake-ups at the directory: requests in transit may overtake requests that were put
    aside, and reads that overtake only reads do no harm. */
module PmsiWake {
  import opened Wrappers
  import opened PmsiTable
  import opened PmsiSystem
  import opened PmsiInvariant
  import opened PmsiSteps

  /** The same step, with nothing due before the requests put aside. */
  function Undisturbed(l: Label): Label {
    match l
    case DirMemory(_) => DirMemory(0)
    case DirData(_) => DirData(0)
    case _ => l
  }

  /** Where the request at position i was, when the first k of p reads have been
      overtaken by the others. */
  function Before(k: nat, p: nat, i: nat): nat
    requires k <= p
  {
    if i < p - k then k + i else if i < p then i - (p - k) else i
  }

  /** In q' the first k of the p reads at the head of q come behind the others. */
  ghost predicate Reordered(q: seq<Msg>, q': seq<Msg>, k: nat, p: nat) {
    && k <= p <= |q| == |q'|
    && (forall i {:trigger q'[i]} :: 0 <= i < |q'| ==> q'[i] == q[Before(k, p, i)])
    && AllReads(q[..p])
    && OneEach(q')
  }

  ghost predicate Shuffled(s: Sys, s': Sys, k: nat, p: nat) {
    s' == s.(dir := s.dir.(incoming := s'.dir.incoming)) && Reordered(Q(s), Q(s'), k, p)
  }

  lemma {:induction false} OneEachMerged(a: seq<Msg>, b: seq<Msg>, r: seq<Msg>)
    requires OneEach(a + b + r) && AllReads(a) && AllReads(b)
    ensures OneEach(b + a + r)
  {
    var q, q' := a + b + r, b + a + r;
    forall i, j | 0 <= i < j < |q'| && q'[i].core == q'[j].core
      ensures j == i + 1 && q'[i].kind.UPG? && q'[j].kind.GETM?
    {
      var x := if i < |b| then |a| + i else if i < |a| + |b| then i - |b| else i;
      var y := if j < |b| then |a| + j else if j < |a| + |b| then j - |b| else j;
      assert q[x] == q'[i] && q[y] == q'[j] && x != y;
    }
  }

  lemma {:induction false} MergedReads(a: seq<Msg>, b: seq<Msg>, r: seq<Msg>)
    requires OneEach(a + b + r) && AllReads(a) && AllReads(b)
    ensures Reordered(a + b + r, b + a + r, |a|, |a| + |b|)
  {
    OneEachMerged(a, b, r);
    var q, p := a + b + r, |a| + |b|;
    assert q[..p] == a + b;
  }

  /** The number of requests that overtake changes the order of the queue only. */
  lemma {:induction false} WakeOrder(s: Sys, l: Label)
    requires Enabled(s, l) && (l.DirMemory? || l.DirData?) && Step(s, l).Ok?
    ensures Enabled(s, Undisturbed(l)) && Step(s, Undisturbed(l)).Ok?
    ensures var d, s0, s' := s.dir, Step(s, Undisturbed(l)).sys, Step(s, l).sys;
            && s' == s0.(dir := s0.dir.(incoming := s'.dir.incoming))
            && Q(s') == Merged(d.stalled, d.incoming, l.due) && Q(s0) == Q(s)
  {
  }

  lemma {:induction false} MergedOrderly(d: Dir, due: nat) returns (k: nat, p: nat)
    requires due <= |d.incoming| && OneEach(d.stalled + d.incoming)
    requires d.stalled == [] || due == 0 || (AllReads(d.stalled) && AllReads(d.incoming[..due]))
    ensures Reordered(d.stalled + d.incoming, Merged(d.stalled, d.incoming, due), k, p)
  {
    if d.stalled == [] || due == 0 {
      k, p := 0, 0;
      assert Merged(d.stalled, d.incoming, due) == d.stalled + d.incoming;
    } else {
      var a, b, r := d.stalled, d.incoming[..due], d.incoming[due..];
      assert d.stalled + d.incoming == a + b + r;
      MergedReads(a, b, r);
      k, p := |a|, |a| + |b|;
    }
  }

  /** An orderly wake-up is one without overtaking, but for the order of some reads. */
  lemma {:induction false} Overtakes(s: Sys, l: Label) returns (k: nat, p: nat)
    requires Inv(s) && Enabled(s, l) && Orderly(s, l) && (l.DirMemory? || l.DirData?) && Step(s, l).Ok?
    ensures Enabled(s, Undisturbed(l)) && Step(s, Undisturbed(l)).Ok?
    ensures Shuffled(Step(s, Undisturbed(l)).sys, Step(s, l).sys, k, p)
  {
    k, p := MergedOrderly(s.dir, l.due);
    WakeOrder(s, l);
  }

  /** The reads stay at the head of the queue. */
  lemma {:induction false} HeadReads(q: seq<Msg>, q': seq<Msg>, k: nat, p: nat, i: nat)
    requires Reordered(q, q', k, p) && i < |q'|
    ensures i < p ==> Before(k, p, i) < p && q'[i].kind.GETS? && q[i].kind.GETS?
    ensures q'[i] == q[Before(k, p, i)]
  {
    if i < p {
      assert q[..p][Before(k, p, i)] == q[Before(k, p, i)];
      assert q[..p][i] == q[i];
    }
  }

  /** Nothing leaves the queue. */
  lemma {:induction false} StillQueued(q: seq<Msg>, q': seq<Msg>, k: nat, p: nat, m: Msg)
    requires Reordered(q, q', k, p) && m in q
    ensures m in q'
  {
    var i :| 0 <= i < |q| && q[i] == m;
    var j := Before(p - k, p, i);
    assert q'[j] == q[Before(k, p, j)] == m;
  }

  lemma {:induction false} ShuffledAfter(s: Sys, s': Sys, k: nat, p: nat, c: nat)
    requires Shuffled(s, s', k, p) && c < |s.lines| && After(s, c, 0)
    ensures After(s', c, 0)
  {
  }

  lemma {:induction false} ShuffledCore(s: Sys, s': Sys, k: nat, p: nat, c: nat)
    requires Shuffled(s, s', k, p) && c < |s.lines| == |s.resp| && CoreOk(s, c)
    ensures CoreOk(s', c)
  {
    if After(s, c, 0) { ShuffledAfter(s, s', k, p, c); }
    if Msg(UPG, c) in Q(s) { StillQueued(Q(s), Q(s'), k, p, Msg(UPG, c)); }
  }

  /** What a request has behind it is what it had, and reads. */
  lemma {:induction false} BehindShuffled(s: Sys, s': Sys, k: nat, p: nat, i: nat, c: nat)
    requires Shuffled(s, s', k, p) && c < |s.lines| && i < |Q(s')| && After(s, c, Before(k, p, i) + 1)
    requires i < p ==> WaitS(s.lines[c].st)
    ensures After(s', c, i + 1)
  {
    forall j | i + 1 <= j < |Q(s')| ensures Allows(s'.side, s'.lines[c].st, Q(s')[j]) {
      HeadReads(Q(s), Q(s'), k, p, j);
    }
  }

  lemma {:induction false} ShuffledRequest(s: Sys, s': Sys, k: nat, p: nat, i: nat)
    requires Shuffled(s, s', k, p) && |s.lines| == |s.resp| && i < |Q(s')| && RequestOk(s, Before(k, p, i))
    ensures RequestOk(s', i)
  {
    HeadReads(Q(s), Q(s'), k, p, i);
    var c := Q(s')[i].core;
    if !Q(s')[i].kind.UPG? {
      BehindShuffled(s, s', k, p, i, c);
    } else {
      if After(s, c, i + 1) { BehindShuffled(s, s', k, p, i, c); }
      forall j | 0 <= j < i && Writer(s.lines[c].st) && (forall j :: 0 <= j < i ==> Q(s)[j].kind.GETS?)
        ensures Q(s')[j].kind.GETS?
      {
        HeadReads(Q(s), Q(s'), k, p, j);
      }
    }
  }

  lemma {:induction false} ShuffledRest(s: Sys, s': Sys, k: nat, p: nat)
    requires Inv(s) && Shuffled(s, s', k, p)
    ensures DirOk(s') && TransitOk(s') && MemoryOk(s')
  {
    if Q(s) != [] { HeadReads(Q(s), Q(s'), k, p, 0); }
    if s.dir.st.DIS? || s.dir.st.DIM? { ShuffledAfter(s, s', k, p, s.dir.cur); }
  }

  /** The order of reads at the head of the queue does not matter to the invariant. */
  lemma {:induction false} ShuffledInv(s: Sys, s': Sys, k: nat, p: nat)
    requires Inv(s) && Shuffled(s, s', k, p)
    ensures Inv(s')
  {
    ShuffledRest(s, s', k, p);
    forall c | 0 <= c < |s'.lines| ensures CoreOk(s', c) { ShuffledCore(s, s', k, p, c); }
    forall i | 0 <= i < |Q(s')| ensures RequestOk(s', i) {
      assert RequestOk(s, Before(k, p, i));
      ShuffledRequest(s, s', k, p, i);
    }
  }
}
