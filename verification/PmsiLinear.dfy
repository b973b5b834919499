/** Every load takes effect at one instant between the grant of its request and
    its completion. */
module PmsiLinear {
  import opened Wrappers
  import opened PmsiTable
  import opened PmsiSystem
  import opened PmsiInvariant
  import opened PmsiSteps
  import opened PmsiGrant
  import opened PmsiDirectory
  import opened PmsiWake
  import opened PmsiSafety

  /** No request for writing was ordered up to and including queue position i. */
  predicate ReadsUpTo(s: Sys, i: int) {
    0 <= i < |Q(s)| && forall j :: 0 <= j <= i ==> Q(s)[j].kind.GETS?
  }

  /** `seen[c]` are the values the line had since cache c's last grant: a waiting
      reader's data, already sent or still to be fetched, is one of them. */
  ghost predicate Window(s: Sys, seen: seq<set<Value>>) {
    && |seen| == |s.lines| == |s.resp|
    && (forall c :: 0 <= c < |s.lines| && WaitS(s.lines[c].st) ==>
          s.latest in seen[c] && (s.resp[c] != [] ==> s.resp[c][0] in seen[c]))
    && (s.dir.st.DIS? ==> s.dir.cur < |seen| && s.mem in seen[s.dir.cur])
    && (NoOwner(s) ==> forall i :: ReadsUpTo(s, i) ==> QueuedOk(s, seen, i))
  }

  predicate QueuedOk(s: Sys, seen: seq<set<Value>>, i: int)
    requires 0 <= i < |Q(s)|
  {
    Q(s)[i].core < |seen| && s.mem in seen[Q(s)[i].core]
  }

  /** The windows after step l: cleared for the cache whose request is granted. */
  ghost function Widen(seen: seq<set<Value>>, l: Label, latest: Value): seq<set<Value>> {
    seq(|seen|, c requires 0 <= c < |seen| => if l.Grant? && l.c == c then {latest} else seen[c] + {latest})
  }

  lemma {:induction false} ReadsOnlyNoWriter(s: Sys)
    requires Inv(s) && NoOwner(s) && forall j :: 0 <= j < |Q(s)| ==> Q(s)[j].kind.GETS?
    ensures s.mem == s.latest
  {
    forall w | 0 <= w < |s.lines| ensures !Writer(s.lines[w].st) {
      if Writer(s.lines[w].st) { var i := HiddenWriter(s, w); }
    }
  }

  lemma {:induction false} GrantReaders(s: Sys, s': Sys, c: nat, k: Request, own: CState, side: Option<nat>, v: Value,
                                        seen: seq<set<Value>>, i: nat)
    requires Window(s, seen) && Granted(s, s', c, k, own, side, v) && Legal(s, c, k, own, side, v)
    requires i < |s.lines| && WaitS(s'.lines[i].st) && (i == c ==> s.resp[c] == [])
    ensures var seen' := Widen(seen, Grant(c, v), s'.latest);
            s'.latest in seen'[i] && (s'.resp[i] != [] ==> s'.resp[i][0] in seen'[i])
  {
  }

  lemma {:induction false} GrantWindow(s: Sys, c: nat, v: Value, s': Sys, seen: seq<set<Value>>)
    requires Inv(s) && Window(s, seen)
    requires Enabled(s, Grant(c, v)) && GrantStep(s, c, v) == Ok(s')
    ensures Window(s', Widen(seen, Grant(c, v), s'.latest))
  {
    var k, own, side, w := GrantLegal(s, c, v, s');
    assert CoreOk(s, c);
    forall i | 0 <= i < |s'.lines| && WaitS(s'.lines[i].st)
      ensures var seen' := Widen(seen, Grant(c, v), s'.latest);
              s'.latest in seen'[i] && (s'.resp[i] != [] ==> s'.resp[i][0] in seen'[i])
    {
      GrantReaders(s, s', c, k, own, side, w, seen, i);
    }
    GrantQueued(s, s', c, k, own, side, w, seen);
  }

  lemma {:induction false} GrantQueued(s: Sys, s': Sys, c: nat, k: Request, own: CState, side: Option<nat>, v: Value,
                                       seen: seq<set<Value>>)
    requires Inv(s) && Window(s, seen) && Granted(s, s', c, k, own, side, v) && Legal(s, c, k, own, side, v)
    ensures var seen' := Widen(seen, Grant(c, v), s'.latest);
            && (s'.dir.st.DIS? ==> s'.mem in seen'[s'.dir.cur])
            && (NoOwner(s') ==> forall i :: ReadsUpTo(s', i) ==> QueuedOk(s', seen', i))
  {
    QueueGrows(s, s', c, k, own, side, v);
    var seen' := Widen(seen, Grant(c, v), s'.latest);
    forall i | NoOwner(s') && ReadsUpTo(s', i) ensures QueuedOk(s', seen', i) {
      if i < |Q(s)| {
        assert forall j :: 0 <= j <= i ==> Q(s)[j] == Q(s')[j];
        assert ReadsUpTo(s, i) && RequestOk(s, i);
      } else {
        assert forall j :: 0 <= j < |Q(s)| ==> Q(s)[j] == Q(s')[j];
        ReadsOnlyNoWriter(s);
      }
    }
  }

  lemma {:induction false} DirRequestWindow(s: Sys, s': Sys, seen: seq<set<Value>>)
    requires Window(s, seen)
    requires Deferred(s, s') || FromIdle(s, s') || FromOwner(s, s') || Dropped(s, s')
    ensures Window(s', Widen(seen, DirRequest, s'.latest))
  {
    var seen' := Widen(seen, DirRequest, s'.latest);
    if FromIdle(s, s') {
      assert Q(s)[0].kind.GETS? ==> ReadsUpTo(s, 0);
      forall i | NoOwner(s') && ReadsUpTo(s', i) ensures QueuedOk(s', seen', i) {
        assert forall j :: 0 <= j < |Q(s')| ==> Q(s')[j] == Q(s)[j + 1];
        assert forall j :: 1 <= j <= i + 1 ==> Q(s)[j] == Q(s')[j - 1];
        assert ReadsUpTo(s, i + 1);
      }
    } else if Deferred(s, s') {
      forall i | NoOwner(s') && ReadsUpTo(s', i) ensures QueuedOk(s', seen', i) {
        assert ReadsUpTo(s, i);
      }
    }
  }

  lemma {:induction false} DirDataWindow(s: Sys, s': Sys, seen: seq<set<Value>>)
    requires Inv(s) && Window(s, seen)
    requires Enabled(s, DirData(0)) && DirDataStep(s, 0) == Ok(s')
    ensures Window(s', Widen(seen, DirData(0), s'.latest))
  {
    assert Q(s') == Q(s);
    var seen' := Widen(seen, DirData(0), s'.latest);
    forall i | ReadsUpTo(s', i) ensures QueuedOk(s', seen', i) {
      assert RequestOk(s, i);
    }
  }

  lemma {:induction false} ShuffledWindow(s: Sys, s': Sys, k: nat, p: nat, seen: seq<set<Value>>)
    requires Shuffled(s, s', k, p) && Window(s, seen)
    ensures Window(s', seen)
  {
    forall i | NoOwner(s') && ReadsUpTo(s', i) ensures QueuedOk(s', seen, i) {
      var b := Before(k, p, i);
      forall j | 0 <= j <= b ensures Q(s)[j].kind.GETS? { HeadReads(Q(s), Q(s'), k, p, j); }
      assert ReadsUpTo(s, b) && QueuedOk(s, seen, b);
    }
  }

  lemma {:induction false} WakeWindow(s: Sys, l: Label, seen: seq<set<Value>>)
    requires Inv(s) && Window(s, seen) && Enabled(s, l) && Orderly(s, l) && (l.DirMemory? || l.DirData?)
    requires Step(s, l).Ok?
    ensures Window(Step(s, l).sys, Widen(seen, l, Step(s, l).sys.latest))
  {
    var k, p := Overtakes(s, l);
    var s0, s' := Step(s, Undisturbed(l)).sys, Step(s, l).sys;
    if l.DirData? { DirDataWindow(s, s0, seen); } else { DirMemoryWindow(s, s0, seen); }
    assert Widen(seen, l, s'.latest) == Widen(seen, Undisturbed(l), s0.latest);
    ShuffledWindow(s0, s', k, p, Widen(seen, l, s'.latest));
  }

  lemma {:induction false} DirMemoryWindow(s: Sys, s': Sys, seen: seq<set<Value>>)
    requires Inv(s) && Window(s, seen)
    requires Enabled(s, DirMemory(0)) && DirMemoryStep(s, 0) == Ok(s')
    ensures Window(s', Widen(seen, DirMemory(0), s'.latest))
  {
    assert Q(s') == Q(s);
    var seen' := Widen(seen, DirMemory(0), s'.latest);
    forall c | 0 <= c < |s'.lines| && WaitS(s'.lines[c].st)
      ensures s'.latest in seen'[c] && (s'.resp[c] != [] ==> s'.resp[c][0] in seen'[c])
    {
      assert CoreOk(s, c);
    }
    forall i | NoOwner(s') && ReadsUpTo(s', i) ensures QueuedOk(s', seen', i) {
      assert ReadsUpTo(s, i);
    }
  }

  lemma {:induction false} OtherWindow(s: Sys, l: Label, seen: seq<set<Value>>)
    requires Inv(s) && Window(s, seen) && Enabled(s, l) && Regular(s, l)
    requires l.Processor? || l.Deliver? || l.GrantWB?
    requires Step(s, l).Ok?
    ensures Window(Step(s, l).sys, Widen(seen, l, Step(s, l).sys.latest))
  {
    var s' := Step(s, l).sys;
    assert Q(s') == Q(s);
    var seen' := Widen(seen, l, s'.latest);
    forall c | 0 <= c < |s'.lines| && WaitS(s'.lines[c].st)
      ensures s'.latest in seen'[c] && (s'.resp[c] != [] ==> s'.resp[c][0] in seen'[c])
    {
      assert CoreOk(s, c);
    }
    forall i | NoOwner(s') && ReadsUpTo(s', i) ensures QueuedOk(s', seen', i) {
      assert ReadsUpTo(s, i);
    }
  }

  lemma {:induction false} StepWindow(s: Sys, l: Label, seen: seq<set<Value>>)
    requires Inv(s) && Window(s, seen) && Enabled(s, l) && Regular(s, l)
    ensures Step(s, l).Ok? && Window(Step(s, l).sys, Widen(seen, l, Step(s, l).sys.latest))
  {
    CrashExactly(s, l);
    var s' := Step(s, l).sys;
    if l.Grant? { GrantWindow(s, l.c, l.v, s', seen); }
    else if l.DirRequest? {
      assert RequestOk(s, |s.dir.stalled|);
      DirRequestCases(s);
      DirRequestWindow(s, s', seen);
    }
    else if l.DirData? || l.DirMemory? { WakeWindow(s, l, seen); }
    else { OtherWindow(s, l, seen); }
  }

  ghost function Seen(x: Exec, i: nat): seq<set<Value>>
    requires Run(x) && i <= |x.ls|
  {
    if i == 0 then seq(|x.ss[0].lines|, _ => {}) else Widen(Seen(x, i - 1), x.ls[i - 1], x.ss[i].latest)
  }

  lemma {:induction false} RunWindow(x: Exec, i: nat)
    requires Run(x) && i <= |x.ls|
    ensures Window(x.ss[i], Seen(x, i))
  {
    if i == 0 {
      var n: nat, v :| x.ss[0] == Init(n, v);
      assert Q(x.ss[0]) == [];
    } else {
      RunInv(x, i - 1);
      RunWindow(x, i - 1);
      StepWindow(x.ss[i - 1], x.ls[i - 1], Seen(x, i - 1));
    }
  }

  /** Instant j lies after cache c's last grant before step i, and no later than i. */
  ghost predicate SinceGrant(x: Exec, c: nat, j: nat, i: nat)
    requires i <= |x.ls|
  {
    0 < j <= i && forall t :: j <= t < i ==> !(x.ls[t].Grant? && x.ls[t].c == c)
  }

  lemma {:induction false} SeenWhen(x: Exec, i: nat, c: nat, v: Value) returns (j: nat)
    requires Run(x) && i <= |x.ls| && c < |Seen(x, i)| && v in Seen(x, i)[c]
    ensures SinceGrant(x, c, j, i) && LastWritten(x, j) == v
  {
    assert i > 0;
    LatestIsLastWritten(x, i);
    if v == x.ss[i].latest {
      j := i;
    } else {
      j := SeenWhen(x, i - 1, c, v);
    }
  }

  /** A load that misses returns a value that was the last one stored at some
      instant after its request was granted and before its data arrived. */
  lemma {:induction false} MissesAreLinear(x: Exec, i: nat) returns (j: nat)
    requires Run(x) && i < |x.ls| && x.ls[i].Deliver? && Observed(x.ss[i], x.ls[i]).Some?
    ensures SinceGrant(x, x.ls[i].c, j, i)
    ensures Observed(x.ss[i], x.ls[i]) == Some(LastWritten(x, j))
  {
    RunInv(x, i);
    RunWindow(x, i);
    assert CoreOk(x.ss[i], x.ls[i].c);
    j := SeenWhen(x, i, x.ls[i].c, x.ss[i].resp[x.ls[i].c][0]);
  }
}
