/** What a cache may do with the line, told by the order of the bus alone, as in a
    protocol without transient states: the controllers do exactly that whenever a
    processor tries an access. */
module PmsiRights {
  import opened Wrappers
  import opened PmsiTable
  import opened PmsiSystem
  import opened PmsiInvariant
  import opened PmsiSteps
  import opened PmsiSafety
  import opened PmsiProgress
  import opened PmsiTdm
  import PmsiAccess

  /** No copy; a copy to read; the only copy, to write; the only copy, to be written
      back for readers; the only copy, to be written back and given up. */
  datatype Right = NoCopy | Reads | Writes | Lends | Leaves

  // ---- The bus order ----------------------------------------------------------------

  /** After the cache's own request has been granted; an upgrade needs a copy. */
  function Gained(r: Right, k: Request): Right {
    match k
    case GETS => Reads
    case GETM => Writes
    case UPG => if r.Reads? then Writes else r
  }

  /** After another cache's request has been granted. */
  function Yielded(r: Right, k: Request): Right {
    match r
    case Reads => if k.GETS? then Reads else NoCopy
    case Writes => if k.GETS? then Lends else Leaves
    case Lends => if k.GETS? then Lends else Leaves
    case _ => r
  }

  /** After the cache's own PUTM has been granted. */
  function WrittenBack(r: Right): Right {
    match r
    case Lends => Reads
    case Leaves => NoCopy
    case _ => r
  }

  /** After a replacement of the line. */
  function Evicted(r: Right): Right {
    match r
    case Reads => NoCopy
    case Writes => Leaves
    case _ => r
  }

  /** The request that cache d has for the bus, if any. */
  function Asking(s: Sys, d: nat): Option<Request> { if d < |s.lines| then s.lines[d].req else None }

  /** The right of cache c after step l; a replacement has to wait for an access. */
  function RightNext(s: Sys, r: Right, l: Label, c: nat): Right {
    match l
    case Grant(d, _) =>
      if Asking(s, d).None? then r else if d == c then Gained(r, Asking(s, d).value) else Yielded(r, Asking(s, d).value)
    case GrantWB(d) => if d == c then WrittenBack(r) else r
    case Processor(d, op, _) =>
      if d == c < |s.lines| && op.Replacement? && !Outstanding(s.lines[c].st) then Evicted(r) else r
    case _ => r
  }

  /** The right of cache c in state i of the execution. */
  function RightAt(x: Exec, i: nat, c: nat): Right
    requires i <= |x.ls| && |x.ss| == |x.ls| + 1
  {
    if i == 0 then NoCopy else RightNext(x.ss[i - 1], RightAt(x, i - 1, c), x.ls[i - 1], c)
  }

  // ---- The controllers follow it -------------------------------------------------------

  /** The right that a state of the controller stands for. */
  function Meaning(st: CState): Right {
    match st
    case S | SM_W | IS_D => Reads
    case M | IM_D => Writes
    case MS_A | IM_DS => Lends
    case MI_A | IM_DI => Leaves
    case _ => NoCopy
  }

  /** The state lags behind the right. */
  predicate Lags(st: CState, r: Right) { r.Leaves? && (st.M? || st.IM_D? || st.MS_A?) }

  /** The right of cache c agrees with its state; while the GETM that follows another
      cache's lost upgrade is due, the state may be behind. */
  predicate Agrees(s: Sys, c: nat, r: Right)
    requires c < |s.lines|
  {
    var st := s.lines[c].st;
    if s.side == Some(c) then r.NoCopy?
    else r == Meaning(st) || (s.side.Some? && Lags(st, r))
  }

  /** When an upgrade succeeds no other cache has or awaits the only copy. */
  lemma {:induction false} UpgradeAlone(s: Sys, d: nat, c: nat)
    requires Inv(s) && AllTracked(s) && d < |s.lines| && c < |s.lines| && c != d
    requires s.lines[d].st.SM_W? && s.side.None?
    ensures !Writer(s.lines[c].st) && !WaitM(s.lines[c].st)
  {
    assert CoreOk(s, d) && CoreOk(s, c) && Tracked(s, c);
    if Writer(s.lines[c].st) { SoleWriter(s, c, d); }
    forall i | 0 <= i < |Q(s)| ensures Q(s)[i].kind.GETS? { assert Allows(s.side, SM_W, Q(s)[i]); }
    if Msg(GETS, c) in Q(s) {
      var i :| 0 <= i < |Q(s)| && Q(s)[i] == Msg(GETS, c);
      assert RequestOk(s, i);
    }
  }

  lemma {:induction false} OwnGrantAgrees(s: Sys, c: nat, v: Value, s': Sys, r: Right)
    requires Inv(s) && Enabled(s, Grant(c, v)) && GrantStep(s, c, v) == Ok(s') && Agrees(s, c, r)
    ensures c < |s'.lines| && Agrees(s', c, Gained(r, s.lines[c].req.value))
  {
    assert CoreOk(s, c);
    PmsiAccess.MovesBy(s, Grant(c, v), c);
  }

  /** One cache sees another's request: `late` says that the GETM after a lost upgrade
      was due, `lost` that this is the lost upgrade. */
  lemma {:induction false} SnoopMeans(st: CState, k: Request, r: Right, late: bool, lost: bool)
    requires Live(st) && (r == Meaning(st) || (late && Lags(st, r))) && (late ==> k.GETM?)
    requires k.UPG? && !lost ==> !Writer(st) && !WaitM(st)
    ensures CacheStep(st, Other(k)).Go?
    ensures var st' := CacheStep(st, Other(k)).next;
            Yielded(r, k) == Meaning(st') || (k.UPG? && lost && Lags(st', Yielded(r, k)))
  {
  }

  lemma {:induction false} OtherGrantAgrees(s: Sys, d: nat, v: Value, s': Sys, c: nat, r: Right)
    requires Inv(s) && AllTracked(s) && Enabled(s, Grant(d, v)) && GrantStep(s, d, v) == Ok(s')
    requires c < |s.lines| && c != d && Agrees(s, c, r)
    ensures c < |s'.lines| && Agrees(s', c, Yielded(r, s.lines[d].req.value))
  {
    assert CoreOk(s, c) && CoreOk(s, d);
    var k := s.lines[d].req.value;
    PmsiAccess.MovesBy(s, Grant(d, v), c);
    if s.lines[d].st.SM_W? { UpgradeAlone(s, d, c); }
    SnoopMeans(s.lines[c].st, k, r, s.side.Some?, s.lines[d].st.IM_W?);
  }

  lemma {:induction false} WriteBackAgrees(s: Sys, d: nat, s': Sys, c: nat, r: Right)
    requires Inv(s) && Enabled(s, GrantWB(d)) && GrantWBStep(s, d) == Ok(s') && c < |s.lines| && Agrees(s, c, r)
    ensures c < |s'.lines| && Agrees(s', c, if d == c then WrittenBack(r) else r)
  {
    assert CoreOk(s, c);
    PmsiAccess.MovesBy(s, GrantWB(d), c);
  }

  lemma {:induction false} ProcessorAgrees(s: Sys, l: Label, s': Sys, c: nat, r: Right)
    requires Inv(s) && Enabled(s, l) && l.Processor? && Step(s, l) == Ok(s') && c < |s.lines| && Agrees(s, c, r)
    ensures c < |s'.lines| && Agrees(s', c, RightNext(s, r, l, c))
  {
    assert CoreOk(s, c);
    PmsiAccess.MovesBy(s, l, c);
  }

  lemma {:induction false} DataAgrees(s: Sys, l: Label, s': Sys, c: nat, r: Right)
    requires Inv(s) && Enabled(s, l) && Step(s, l) == Ok(s') && c < |s.lines| && Agrees(s, c, r)
    requires l.Deliver? || l.DirRequest? || l.DirMemory? || l.DirData?
    ensures c < |s'.lines| && Agrees(s', c, r)
  {
    assert CoreOk(s, c);
    PmsiAccess.MovesBy(s, l, c);
  }

  lemma {:induction false} StepAgrees(s: Sys, l: Label, s': Sys, c: nat, r: Right)
    requires Inv(s) && AllTracked(s) && Enabled(s, l) && Step(s, l) == Ok(s') && c < |s.lines| && Agrees(s, c, r)
    ensures c < |s'.lines| && Agrees(s', c, RightNext(s, r, l, c))
  {
    match l
    case Grant(d, v) => if d == c { OwnGrantAgrees(s, c, v, s', r); } else { OtherGrantAgrees(s, d, v, s', c, r); }
    case GrantWB(d) => WriteBackAgrees(s, d, s', c, r);
    case Processor(_, _, _) => ProcessorAgrees(s, l, s', c, r);
    case _ => DataAgrees(s, l, s', c, r);
  }

  lemma {:induction false} RunStep(x: Exec, i: nat)
    requires Run(x) && i < |x.ls|
    ensures Enabled(x.ss[i], x.ls[i]) && Step(x.ss[i], x.ls[i]) == Ok(x.ss[i + 1])
    ensures |x.ss[i + 1].lines| == |x.ss[i].lines|
  {
    assert Enabled(x.ss[i], x.ls[i]) && Step(x.ss[i], x.ls[i]) == Ok(x.ss[i + 1]);
    SameSize(x.ss[i], x.ls[i]);
  }

  /** In every state of every run the controllers' states mean what the bus order says. */
  lemma {:induction false} FollowsBus(x: Exec, i: nat, c: nat)
    requires Run(x) && i <= |x.ls| && c < |x.ss[0].lines|
    ensures |x.ss[i].lines| == |x.ss[0].lines| && Agrees(x.ss[i], c, RightAt(x, i, c))
  {
    if i == 0 {
      var n: nat, v :| x.ss[0] == Init(n, v);
    } else {
      FollowsBus(x, i - 1, c);
      RunInv(x, i - 1);
      RunTracked(x, i - 1);
      RunStep(x, i - 1);
      StepAgrees(x.ss[i - 1], x.ls[i - 1], x.ss[i], c, RightAt(x, i - 1, c));
    }
  }

  // ---- What an access does ----------------------------------------------------------------

  /** Cache c can be given an access in state i: it has none in progress, and no side
      packet is due on the bus. */
  ghost predicate Ready(x: Exec, i: nat, c: nat) {
    && i <= |x.ls| && |x.ss| == |x.ls| + 1
    && c < |x.ss[i].lines| == |x.ss[0].lines| && !Outstanding(x.ss[i].lines[c].st) && x.ss[i].side.None?
  }

  /** s' is s but for a request of kind k that cache c has put in its queue for an
      access now in progress. */
  predicate Asked(s: Sys, s': Sys, c: nat, k: Request)
    requires c < |s.lines|
  {
    && c < |s'.lines| && s' == s.(lines := s.lines[c := s.lines[c].(st := s'.lines[c].st, req := Some(k))])
    && Outstanding(s'.lines[c].st) && s.lines[c].req.None?
  }

  lemma {:induction false} ReadyMeans(x: Exec, i: nat, c: nat)
    requires Run(x) && Ready(x, i, c)
    ensures Inv(x.ss[i]) && CoreOk(x.ss[i], c) && RightAt(x, i, c) == Meaning(x.ss[i].lines[c].st)
  {
    RunInv(x, i);
    assert CoreOk(x.ss[i], c);
    FollowsBus(x, i, c);
  }

  /** A load by a cache with a right to read completes at once, returns the last stored
      value and changes nothing; without a copy it asks for one; while the copy is
      being written back for readers it is put aside. */
  lemma {:induction false} LoadsExactly(x: Exec, i: nat, c: nat, v: Value)
    requires Run(x) && Ready(x, i, c)
    ensures var s, l := x.ss[i], Processor(c, Load, v);
            && Enabled(s, l) && Step(s, l).Ok?
            && match RightAt(x, i, c)
               case NoCopy => Asked(s, Step(s, l).sys, c, GETS) && Observed(s, l).None?
               case Lends => Step(s, l).sys == s && Observed(s, l).None?
               case _ => Step(s, l).sys == s && Observed(s, l) == Some(s.lines[c].data) == Some(LastWritten(x, i))
  {
    ReadyMeans(x, i, c);
    LatestIsLastWritten(x, i);
    assert x.ss[i].lines == x.ss[i].lines[c := x.ss[i].lines[c]];
  }

  /** A store by a cache with the only copy completes at once and changes nothing but
      the value; with a copy to read it asks for an upgrade. */
  lemma {:induction false} StoresExactly(x: Exec, i: nat, c: nat, v: Value)
    requires Run(x) && Ready(x, i, c)
    ensures var s, l := x.ss[i], Processor(c, Store, v);
            && Enabled(s, l) && Step(s, l).Ok?
            && match RightAt(x, i, c)
               case NoCopy => Asked(s, Step(s, l).sys, c, GETM) && Written(s, l).None?
               case Reads => Asked(s, Step(s, l).sys, c, UPG) && Written(s, l).None?
               case Lends => Step(s, l).sys == s && Written(s, l).None?
               case _ =>
                 && Step(s, l).sys == s.(lines := s.lines[c := s.lines[c].(data := v)], latest := v)
                 && Written(s, l) == Some(v)
  {
    ReadyMeans(x, i, c);
    assert CoreOk(x.ss[i], c);
  }

  /** A replacement drops a copy to read without traffic, asks for the write-back of the
      only copy, and otherwise has to wait; there is nothing to replace without a copy. */
  lemma {:induction false} ReplacesExactly(x: Exec, i: nat, c: nat, v: Value)
    requires Run(x) && Ready(x, i, c)
    ensures var s, l, r := x.ss[i], Processor(c, Replacement, v), RightAt(x, i, c);
            && (Enabled(s, l) <==> !r.NoCopy?)
            && (Enabled(s, l) ==>
                  && Step(s, l).Ok? && Observed(s, l).None? && Written(s, l).None?
                  && var s' := Step(s, l).sys;
                     && c < |s'.lines|
                     && s' == s.(lines := s.lines[c := s.lines[c].(st := s'.lines[c].st, wb := s'.lines[c].wb)])
                     && Meaning(s'.lines[c].st) == Evicted(r) && !Outstanding(s'.lines[c].st)
                     && (s'.lines[c].wb <==> !r.Reads?))
  {
    ReadyMeans(x, i, c);
    assert CoreOk(x.ss[i], c);
    assert x.ss[i].lines == x.ss[i].lines[c := x.ss[i].lines[c]];
  }

  // ---- How long a copy stays -------------------------------------------------------------------

  /** Step i grants cache c's own request of kind k. */
  predicate OwnGrant(x: Exec, i: nat, c: nat, k: Request)
    requires i < |x.ls| && |x.ss| == |x.ls| + 1
  {
    x.ls[i].Grant? && x.ls[i].c == c && Asking(x.ss[i], c) == Some(k)
  }

  /** Step i is a grant or a replacement of cache c itself. */
  predicate OwnMove(x: Exec, i: nat, c: nat)
    requires i < |x.ls| && |x.ss| == |x.ls| + 1
  {
    var l := x.ls[i];
    (l.Grant? && l.c == c) || (l.GrantWB? && l.c == c) || (l.Processor? && l.c == c && l.op.Replacement?)
  }

  /** Step i grants another cache's request; `read` says whether for reading. */
  predicate OtherGrant(x: Exec, i: nat, c: nat, read: bool)
    requires i < |x.ls| && |x.ss| == |x.ls| + 1
  {
    x.ls[i].Grant? && x.ls[i].c != c && Asking(x.ss[i], x.ls[i].c).Some? &&
    (Asking(x.ss[i], x.ls[i].c).value.GETS? <==> read)
  }

  /** Another cache's request is granted in steps j to i. */
  predicate Requested(x: Exec, c: nat, j: nat, i: nat, read: bool)
    requires j <= i <= |x.ls| && |x.ss| == |x.ls| + 1
  {
    j < i && (OtherGrant(x, i - 1, c, read) || Requested(x, c, j, i - 1, read))
  }

  /** The cache itself does not move in steps j to i. */
  predicate Rests(x: Exec, c: nat, j: nat, i: nat)
    requires j <= i <= |x.ls| && |x.ss| == |x.ls| + 1
  {
    j == i || (!OwnMove(x, i - 1, c) && Rests(x, c, j, i - 1))
  }

  /** A step that is no move of the cache itself leaves its right alone, but for another
      cache's grant. */
  lemma {:induction false} Undisturbed(x: Exec, i: nat, c: nat)
    requires i < |x.ls| && |x.ss| == |x.ls| + 1 && !OwnMove(x, i, c)
    ensures var r := RightAt(x, i, c);
            RightAt(x, i + 1, c) == if OtherGrant(x, i, c, true) then Yielded(r, GETS)
                                    else if OtherGrant(x, i, c, false) then Yielded(r, GETM) else r
  {
  }

  /** A copy to read stays until the cache moves itself, and is lost exactly when another
      cache's write is granted. */
  lemma {:induction false} ReaderExactly(x: Exec, c: nat, j: nat, i: nat)
    requires j <= i <= |x.ls| && |x.ss| == |x.ls| + 1 && RightAt(x, j, c).Reads? && Rests(x, c, j, i)
    ensures RightAt(x, i, c) == if Requested(x, c, j, i, false) then NoCopy else Reads
  {
    if j < i {
      ReaderExactly(x, c, j, i - 1);
      Undisturbed(x, i - 1, c);
    }
  }

  /** The only copy, until the cache moves itself: it is to be given up once another
      cache's write has been granted, and to be lent once a read has. */
  lemma {:induction false} OwnerExactly(x: Exec, c: nat, j: nat, i: nat)
    requires j <= i <= |x.ls| && |x.ss| == |x.ls| + 1 && RightAt(x, j, c).Writes? && Rests(x, c, j, i)
    ensures RightAt(x, i, c) == if Requested(x, c, j, i, false) then Leaves
                                else if Requested(x, c, j, i, true) then Lends else Writes
  {
    if j < i {
      OwnerExactly(x, c, j, i - 1);
      Undisturbed(x, i - 1, c);
    }
  }

  /** Once its read has been granted and is over, a cache's loads complete in their own
      step until it gives the copy up itself or another cache's write is granted. */
  lemma {:induction false} ReaderHits(x: Exec, c: nat, j: nat, i: nat, v: Value)
    requires Run(x) && j < i <= |x.ls| && OwnGrant(x, j, c, GETS) && Ready(x, i, c)
    requires Rests(x, c, j + 1, i) && !Requested(x, c, j + 1, i, false)
    ensures var s, l := x.ss[i], Processor(c, Load, v);
            Enabled(s, l) && Step(s, l) == Ok(s) && Observed(s, l) == Some(s.lines[c].data) == Some(LastWritten(x, i))
  {
    ReaderExactly(x, c, j + 1, i);
    LoadsExactly(x, i, c, v);
  }

  /** Once its write has been granted and is over, a cache's loads and stores complete in
      their own step until it gives the copy up itself, unless another cache's read has
      been granted and no write: then they are put aside, although the copy is valid. */
  lemma {:induction false} WriterHits(x: Exec, c: nat, j: nat, i: nat, v: Value)
    requires Run(x) && j < i <= |x.ls| && Ready(x, i, c) && Rests(x, c, j + 1, i)
    requires OwnGrant(x, j, c, GETM) || (OwnGrant(x, j, c, UPG) && RightAt(x, j, c).Reads?)
    ensures var s, l := x.ss[i], Processor(c, Load, v);
            && Enabled(s, l) && Step(s, l) == Ok(s)
            && Observed(s, l) == if Requested(x, c, j + 1, i, true) && !Requested(x, c, j + 1, i, false) then None
                                 else Some(s.lines[c].data)
    ensures var s, l := x.ss[i], Processor(c, Store, v);
            && Enabled(s, l) && Step(s, l).Ok?
            && if Requested(x, c, j + 1, i, true) && !Requested(x, c, j + 1, i, false) then
                 Step(s, l) == Ok(s) && Written(s, l).None?
               else
                 && Step(s, l) == Ok(s.(lines := s.lines[c := s.lines[c].(data := v)], latest := v))
                 && Written(s, l) == Some(v)
  {
    OwnerExactly(x, c, j + 1, i);
    LoadsExactly(x, i, c, v);
    StoresExactly(x, i, c, v);
  }

  /** After the replacement of a copy to read, or another cache's write, a load misses. */
  lemma {:induction false} DroppedMisses(x: Exec, c: nat, i: nat, v: Value)
    requires Run(x) && i < |x.ls| && RightAt(x, i, c).Reads? && Ready(x, i, c) && Ready(x, i + 1, c)
    requires OtherGrant(x, i, c, false) || (x.ls[i].Processor? && x.ls[i].c == c && x.ls[i].op.Replacement?)
    ensures var s, l := x.ss[i + 1], Processor(c, Load, v);
            Enabled(s, l) && Step(s, l).Ok? && Asked(s, Step(s, l).sys, c, GETS) && Observed(s, l).None?
  {
    LoadsExactly(x, i + 1, c, v);
  }

  // ---- An access does what was asked for ----------------------------------------------------------

  /** The access that a cache in this state has in progress. */
  function Wanted(st: CState): CpuOp {
    if st.IS_AD? || st.IS_D? || st.IS_DI? || st.IS_A? then Load else Store
  }

  /** The last load or store that cache c was given before state i. */
  function LastOp(x: Exec, i: nat, c: nat): Option<CpuOp>
    requires i <= |x.ls|
  {
    if i == 0 then None
    else
      var l := x.ls[i - 1];
      if l.Processor? && l.c == c && !l.op.Replacement? then Some(l.op) else LastOp(x, i - 1, c)
  }

  lemma {:induction false} WantedMoves(st: CState, ev: Event)
    requires Live(st) && CacheStep(st, ev).Go? && !(ev.Cpu? && Outstanding(st))
    ensures var st' := CacheStep(st, ev).next;
            Outstanding(st') ==> if ev.Cpu? then Wanted(st') == ev.op else Outstanding(st) && Wanted(st') == Wanted(st)
  {
  }

  lemma {:induction false} WantedStep(s: Sys, l: Label, c: nat)
    requires Inv(s) && Enabled(s, l) && Step(s, l).Ok? && c < |s.lines|
    ensures c < |Step(s, l).sys.lines|
    ensures var st, st' := s.lines[c].st, Step(s, l).sys.lines[c].st;
            Outstanding(st') ==>
              if l.Processor? && l.c == c && !l.op.Replacement? then Wanted(st') == l.op
              else Outstanding(st) && Wanted(st') == Wanted(st)
  {
    assert CoreOk(s, c);
    PmsiAccess.MovesBy(s, l, c);
    var st, ev := s.lines[c].st, PmsiAccess.EventAt(s, l, c);
    if ev.Some? && CacheStep(st, ev.value).Go? && !(ev.value.Cpu? && Outstanding(st)) { WantedMoves(st, ev.value); }
  }

  /** The access in progress is the last one given. */
  lemma {:induction false} InProgressWanted(x: Exec, i: nat, c: nat)
    requires Run(x) && i <= |x.ls| && c < |x.ss[0].lines|
    ensures |x.ss[i].lines| == |x.ss[0].lines|
    ensures var st := x.ss[i].lines[c].st; Outstanding(st) ==> LastOp(x, i, c) == Some(Wanted(st))
  {
    if i == 0 {
      var n: nat, v :| x.ss[0] == Init(n, v);
    } else {
      InProgressWanted(x, i - 1, c);
      RunInv(x, i - 1);
      RunStep(x, i - 1);
      WantedStep(x.ss[i - 1], x.ls[i - 1], c);
    }
  }

  lemma {:induction false} CompletesWanted(s: Sys, l: Label, c: nat)
    requires Inv(s) && Enabled(s, l) && c < |s.lines| && PmsiAccess.Completed(s, Act(l), c)
    requires l.Processor? ==> !l.op.Replacement?
    ensures (l.Processor? || l.Grant? || l.Deliver?) && l.c == c && (!l.Processor? ==> Outstanding(s.lines[c].st))
    ensures match if l.Processor? then l.op else Wanted(s.lines[c].st)
            case Load => Observed(s, l).Some? && Written(s, l).None?
            case _ => Written(s, l) == Some(l.v) && Observed(s, l).None?
  {
    assert CoreOk(s, c);
  }

  /** The step that completes a cache's access returns a value if the access was a load,
      and writes one if it was a store. */
  lemma {:induction false} DoesAsAsked(x: Exec, k: nat, c: nat)
    requires Run(x) && k < |x.ls| && c < |x.ss[0].lines|
    requires |x.ss[k].lines| == |x.ss[0].lines| && Enabled(x.ss[k], x.ls[k]) &&
             PmsiAccess.Completed(x.ss[k], Act(x.ls[k]), c)
    ensures match LastOp(x, k + 1, c)
            case Some(Load) => Observed(x.ss[k], x.ls[k]).Some? && Written(x.ss[k], x.ls[k]).None?
            case Some(_) => Written(x.ss[k], x.ls[k]).Some? && Observed(x.ss[k], x.ls[k]).None?
            case None => false
  {
    RunInv(x, k);
    InProgressWanted(x, k, c);
    CompletesWanted(x.ss[k], x.ls[k], c);
  }
}
