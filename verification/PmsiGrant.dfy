/** A granted demand request keeps the invariant. */
module PmsiGrant {
  import opened Wrappers
  import opened PmsiTable
  import opened PmsiSystem
  import opened PmsiInvariant

  /** Where a live state goes when another cache's request is granted. */
  function Snoop(st: CState, k: Request): CState {
    if st.M? then (if k.GETS? then MS_A else MI_A)
    else if st.MS_A? then (if k.GETM? then MI_A else MS_A)
    else if st.IM_D? then (if k.GETS? then IM_DS else if k.GETM? then IM_DI else IM_D)
    else if k.GETS? then st
    else if st.IS_D? then IS_DI
    else if st.IM_DS? then IM_DI
    else if st.S? then I
    else if st.SM_W? then IM_W
    else st
  }

  lemma {:induction false} SnoopIsTable(st: CState, k: Request)
    requires Live(st)
    ensures CacheStep(st, Other(k)) == Go(Snoop(st, k), None, false, st.M?, false, NoHit, false)
  {
  }

  /** The grant of cache c's request k, in terms of live states: c itself goes
      to `own`, the side-packet reservation becomes `side`. */
  ghost predicate Granted(s: Sys, s': Sys, c: nat, k: Request, own: CState, side: Option<nat>, v: Value) {
    && c < |s.lines| == |s.resp| == |s'.lines|
    && s'.resp == s.resp && s'.mem == s.mem && s'.wbData == s.wbData == None
    && s'.dir == s.dir.(incoming := s.dir.incoming + [Msg(k, c)])
    && s'.side == side
    && s'.latest == v
    && s'.lines[c].st == own && s'.lines[c].wb == s.lines[c].wb
    && s'.lines[c].req == (if side.Some? then Some(GETM) else None)
    && s'.lines[c].data == (if own.M? then v else s.lines[c].data)
    && forall i :: 0 <= i < |s.lines| && i != c ==>
         s'.lines[i] == Line(Snoop(s.lines[i].st, k), s.lines[i].data, s.lines[i].req,
                             s.lines[i].wb || s.lines[i].st.M?)
  }

  /** The five grants that occur. */
  ghost predicate Legal(s: Sys, c: nat, k: Request, own: CState, side: Option<nat>, v: Value)
    requires c < |s.lines|
  {
    match s.lines[c].st
    case IS_AD => k == GETS && own == IS_D && s.side == side == None && v == s.latest
    case IM_AD => k == GETM && own == IM_D && s.side == side == None && v == s.latest
    case IM_D => k == GETM && own == IM_D && s.side == Some(c) && side == None && v == s.latest
    case IM_W => k == UPG && own == IM_D && s.side == None && side == Some(c) && v == s.latest
    case SM_W => k == UPG && own == M && s.side == side == None
    case _ => false
  }

  lemma {:induction false} GrantLegal(s: Sys, c: nat, v: Value, s': Sys)
    returns (k: Request, own: CState, side: Option<nat>, w: Value)
    requires Inv(s)
    requires Enabled(s, Grant(c, v)) && GrantStep(s, c, v) == Ok(s')
    ensures Granted(s, s', c, k, own, side, w) && Legal(s, c, k, own, side, w)
  {
    assert CoreOk(s, c);
    k := s.lines[c].req.value;
    var o := CacheStep(s.lines[c].st, Own(k));
    own, side, w := o.next, s'.side, s'.latest;
    forall i | 0 <= i < |s.lines| && i != c
      ensures s'.lines[i] == Line(Snoop(s.lines[i].st, k), s.lines[i].data, s.lines[i].req,
                                  s.lines[i].wb || s.lines[i].st.M?)
    {
      assert CoreOk(s, i);
      SnoopIsTable(s.lines[i].st, k);
    }
  }

  lemma {:induction false} GrantNever(s: Sys, c: nat, v: Value)
    requires Inv(s)
    requires Enabled(s, Grant(c, v))
    ensures GrantStep(s, c, v).Ok?
  {
    assert CoreOk(s, c);
    var k := s.lines[c].req.value;
    forall i | 0 <= i < |s.lines| ensures CacheStep(s.lines[i].st, Seen(c, k, i)).Go? {
      assert CoreOk(s, i);
    }
  }

  lemma {:induction false} QueueGrows(s: Sys, s': Sys, c: nat, k: Request, own: CState, side: Option<nat>, v: Value)
    requires Granted(s, s', c, k, own, side, v)
    ensures Q(s') == Q(s) + [Msg(k, c)]
  {
  }

  /** What the snooped states permit afterwards. */
  lemma {:induction false} SnoopAllows(side: Option<nat>, side': Option<nat>, st: CState, k: Request, m: Msg)
    requires Allows(side, st, m)
    requires k.GETM? || side.None?
    ensures Allows(side', Snoop(st, k), m)
  {
  }

  lemma {:induction false} SnoopAllowsNew(side': Option<nat>, st: CState, k: Request, c: nat)
    requires k.UPG? ==> side' == Some(c) || !(Writer(st) || WaitM(st))
    ensures Allows(side', Snoop(st, k), Msg(k, c))
  {
  }

  lemma {:induction false} AfterGrows(s: Sys, s': Sys, c: nat, k: Request, own: CState, side: Option<nat>, v: Value,
                                      i: nat, p: nat)
    requires Granted(s, s', c, k, own, side, v) && Legal(s, c, k, own, side, v)
    requires i < |s.lines| && i != c && After(s, i, p)
    requires k.UPG? ==> side == Some(c) || !(Writer(s.lines[i].st) || WaitM(s.lines[i].st))
    ensures After(s', i, p)
  {
    QueueGrows(s, s', c, k, own, side, v);
    forall j | p <= j < |Q(s')| ensures Allows(s'.side, s'.lines[i].st, Q(s')[j]) {
      if j < |Q(s)| {
        SnoopAllows(s.side, s'.side, s.lines[i].st, k, Q(s)[j]);
      } else {
        SnoopAllowsNew(s'.side, s.lines[i].st, k, c);
      }
    }
  }

  /** While an upgrade can still succeed, the directory serves nobody else's write. */
  lemma {:induction false} UpgradeAlone(s: Sys, c: nat, i: nat)
    requires Inv(s) && c < |s.lines| && i < |s.lines| && i != c
    requires s.lines[c].st.SM_W? && s.wbData.None?
    ensures NoOwner(s) && !Writer(s.lines[i].st)
    ensures s.resp[i] != [] ==> WaitS(s.lines[i].st)
    ensures forall j :: 0 <= j < |Q(s)| ==> Q(s)[j].kind.GETS?
  {
    assert CoreOk(s, c) && CoreOk(s, i);
  }

  lemma {:induction false} GrantOther(s: Sys, s': Sys, c: nat, k: Request, own: CState, side: Option<nat>, v: Value,
                                      i: nat)
    requires Inv(s) && Granted(s, s', c, k, own, side, v) && Legal(s, c, k, own, side, v)
    requires i < |s.lines| && i != c
    ensures CoreOk(s', i)
  {
    assert CoreOk(s, i) && CoreOk(s, c);
    QueueGrows(s, s', c, k, own, side, v);
    if s.lines[c].st.SM_W? { UpgradeAlone(s, c, i); }
    if After(s, i, 0) && (k.UPG? ==> side == Some(c) || !(Writer(s.lines[i].st) || WaitM(s.lines[i].st))) {
      AfterGrows(s, s', c, k, own, side, v, i, 0);
    }
    assert Msg(UPG, i) in Q(s) ==> Msg(UPG, i) in Q(s');
  }

  lemma {:induction false} GrantOwn(s: Sys, s': Sys, c: nat, k: Request, own: CState, side: Option<nat>, v: Value)
    requires Inv(s) && Granted(s, s', c, k, own, side, v) && Legal(s, c, k, own, side, v)
    ensures CoreOk(s', c)
  {
    assert CoreOk(s, c);
    QueueGrows(s, s', c, k, own, side, v);
    assert Q(s')[|Q(s)|] == Msg(k, c);
  }

  lemma {:induction false} GrantRequest(s: Sys, s': Sys, c: nat, k: Request, own: CState, side: Option<nat>, v: Value,
                                        i: nat)
    requires Inv(s) && Granted(s, s', c, k, own, side, v) && Legal(s, c, k, own, side, v)
    requires i < |Q(s')|
    ensures RequestOk(s', i)
  {
    assert CoreOk(s, c);
    QueueGrows(s, s', c, k, own, side, v);
    if i < |Q(s)| {
      assert RequestOk(s, i);
      var d := Q(s)[i].core;
      assert i + 1 < |Q(s)| ==> RequestOk(s, i + 1);
      if d != c {
        if s.lines[c].st.SM_W? { UpgradeAlone(s, c, d); }
        if After(s, d, i + 1) && (k.UPG? ==> side == Some(c) || !(Writer(s.lines[d].st) || WaitM(s.lines[d].st))) {
          AfterGrows(s, s', c, k, own, side, v, d, i + 1);
        }
      }
    } else if s.lines[c].st.SM_W? {
      forall j | 0 <= j < i ensures Q(s')[j].kind.GETS? {
        assert Allows(s.side, SM_W, Q(s)[j]);
      }
    }
  }

  lemma {:induction false} GrantOneEach(s: Sys, s': Sys, c: nat, k: Request, own: CState, side: Option<nat>, v: Value)
    requires Inv(s) && Granted(s, s', c, k, own, side, v) && Legal(s, c, k, own, side, v)
    ensures OneEach(Q(s'))
  {
    assert CoreOk(s, c);
    QueueGrows(s, s', c, k, own, side, v);
    forall i | 0 <= i < |Q(s)| && Q(s)[i].core == c
      ensures i == |Q(s)| - 1 && Q(s)[i].kind.UPG? && k.GETM?
    {
      assert RequestOk(s, i);
      assert i + 1 < |Q(s)| ==> RequestOk(s, i + 1);
    }
  }

  lemma {:induction false} GrantDir(s: Sys, s': Sys, c: nat, k: Request, own: CState, side: Option<nat>, v: Value)
    requires Inv(s) && Granted(s, s', c, k, own, side, v) && Legal(s, c, k, own, side, v)
    ensures DirOk(s') && TransitOk(s')
  {
    assert CoreOk(s, c);
    QueueGrows(s, s', c, k, own, side, v);
    if s.dir.st.DIS? || s.dir.st.DIM? {
      var d := s.dir.cur;
      if d != c {
        if s.lines[c].st.SM_W? { UpgradeAlone(s, c, d); }
        AfterGrows(s, s', c, k, own, side, v, d, 0);
      }
    }
  }

  lemma {:induction false} GrantMemory(s: Sys, s': Sys, c: nat, k: Request, own: CState, side: Option<nat>, v: Value)
    requires Inv(s) && Granted(s, s', c, k, own, side, v) && Legal(s, c, k, own, side, v)
    ensures MemoryOk(s')
  {
    assert CoreOk(s, c);
    QueueGrows(s, s', c, k, own, side, v);
    if NoWriter(s') {
      forall i | 0 <= i < |s.lines| ensures !Writer(s.lines[i].st) {
        assert !Writer(s'.lines[i].st);
      }
    }
  }

  lemma {:induction false} GrantInv(s: Sys, c: nat, v: Value, s': Sys)
    requires Inv(s)
    requires Enabled(s, Grant(c, v)) && GrantStep(s, c, v) == Ok(s')
    ensures Inv(s')
  {
    var k, own, side, w := GrantLegal(s, c, v, s');
    GrantOneEach(s, s', c, k, own, side, w);
    GrantDir(s, s', c, k, own, side, w);
    GrantMemory(s, s', c, k, own, side, w);
    GrantOwn(s, s', c, k, own, side, w);
    forall i | 0 <= i < |s'.lines| && i != c ensures CoreOk(s', i) {
      GrantOther(s, s', c, k, own, side, w, i);
    }
    forall i | 0 <= i < |Q(s')| ensures RequestOk(s', i) {
      GrantRequest(s, s', c, k, own, side, w, i);
    }
  }
}
