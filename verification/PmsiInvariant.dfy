/** The inductive invariant of the PMSI system.  Its idea: the requests the
    directory has not finished form one queue in bus order, and what a cache may
    be doing is limited by the requests that were ordered after its own. */
module PmsiInvariant {
  import opened Wrappers
  import opened PmsiTable
  import opened PmsiSystem

  /** The states that can occur; the other declared states are dead. */
  predicate Live(st: CState) {
    match st
    case I | S | M | IS_AD | IS_D | IS_DI | IM_AD | IM_D | IM_DS | IM_DI | MI_A | MS_A | SM_W | IM_W => true
    case _ => false
  }

  predicate Sharer(st: CState) { st.S? || st.SM_W? }

  predicate Writer(st: CState) { st.M? || st.MS_A? || st.MI_A? }

  predicate WaitS(st: CState) { st.IS_D? || st.IS_DI? }

  predicate WaitM(st: CState) { st.IM_D? || st.IM_DS? || st.IM_DI? }

  /** The requests the directory still has to finish, in bus order. */
  function Q(s: Sys): seq<Msg> {
    s.dir.stalled + s.dir.incoming
  }

  predicate NoOwner(s: Sys) { s.dir.st.DI? || s.dir.st.DIS? }

  predicate Owned(s: Sys) { s.dir.st.DM? || s.dir.st.DM_D? }

  predicate SideUpg(side: Option<nat>, m: Msg) {
    m.kind.UPG? && side == Some(m.core)
  }

  /** May request m have been ordered after the request that put a cache in state st? */
  predicate Allows(side: Option<nat>, st: CState, m: Msg) {
    match st
    case S | SM_W | IS_D | IM_DS => m.kind.GETS?
    case M | IM_D => SideUpg(side, m)
    case MS_A => m.kind.GETS? || SideUpg(side, m)
    case _ => true
  }

  predicate After(s: Sys, c: nat, k: nat)
    requires c < |s.lines|
  {
    forall j :: k <= j < |Q(s)| ==> Allows(s.side, s.lines[c].st, Q(s)[j])
  }

  predicate Fetching(s: Sys, c: nat) {
    (s.dir.st.DIS? || s.dir.st.DIM?) && s.dir.cur == c
  }

  function Pending(st: CState, side: bool): Option<Request> {
    match st
    case IS_AD => Some(GETS)
    case IM_AD => Some(GETM)
    case SM_W | IM_W => Some(UPG)
    case IM_D => if side then Some(GETM) else None
    case _ => None
  }

  predicate QueuesOk(s: Sys, c: nat)
    requires c < |s.lines|
  {
    var l := s.lines[c];
    && Live(l.st)
    && l.wb == (l.st.MI_A? || l.st.MS_A?)
    && l.req == Pending(l.st, s.side == Some(c))
  }

  predicate SharerOk(s: Sys, c: nat)
    requires c < |s.lines|
  {
    Sharer(s.lines[c].st) ==>
      && s.lines[c].data == s.latest
      && After(s, c, 0)
      && (NoOwner(s) || s.wbData.Some?)
  }

  predicate WriterOk(s: Sys, c: nat)
    requires c < |s.lines|
  {
    Writer(s.lines[c].st) ==>
      && s.lines[c].data == s.latest
      && s.wbData.None?
      && ((Owned(s) && s.dir.owner == Some(c) && After(s, c, 0)) || (NoOwner(s) && Msg(UPG, c) in Q(s)))
  }

  predicate ReplyOk(s: Sys, c: nat)
    requires c < |s.lines| == |s.resp|
  {
    && |s.resp[c]| <= 1
    && (s.resp[c] != [] ==>
          && s.side != Some(c)
          && !Fetching(s, c)
          && match s.lines[c].st
             case IS_DI => true
             case IS_D => NoOwner(s) && After(s, c, 0) && s.resp[c][0] == s.latest
             case IM_D | IM_DS | IM_DI =>
               Owned(s) && s.dir.owner == Some(c) && After(s, c, 0) && s.resp[c][0] == s.latest && s.wbData.None?
             case _ => false)
  }

  /** No reply for cache c is on its way or being fetched. */
  predicate Unserved(s: Sys, c: nat)
    requires c < |s.resp|
  {
    s.resp[c] == [] && !Fetching(s, c)
  }

  predicate RequestOk(s: Sys, i: nat)
    requires |s.lines| == |s.resp| && i < |Q(s)|
  {
    var c := Q(s)[i].core;
    && c < |s.lines|
    && match Q(s)[i].kind
       case GETS => WaitS(s.lines[c].st) && Unserved(s, c) && After(s, c, i + 1)
       case GETM => WaitM(s.lines[c].st) && Unserved(s, c) && After(s, c, i + 1) && s.side != Some(c)
       case UPG =>
         || (s.side == Some(c) && i == |Q(s)| - 1)
         || (i + 1 < |Q(s)| && Q(s)[i + 1] == Msg(GETM, c))
         || (Writer(s.lines[c].st) && NoOwner(s) && After(s, c, i + 1) && forall j :: 0 <= j < i ==> Q(s)[j].kind.GETS?)
  }

  /** A cache has at most one request in the queue, or a lost upgrade and its GETM. */
  predicate OneEach(q: seq<Msg>) {
    forall i, j :: 0 <= i < j < |q| && q[i].core == q[j].core ==> j == i + 1 && q[i].kind.UPG? && q[j].kind.GETM?
  }

  /** The directory recorded a lost upgrade as an ownership; the GETM that
      repairs it is next. */
  predicate Premature(s: Sys, o: nat)
    requires o < |s.lines| == |s.resp|
  {
    && s.dir.st.DM?
    && WaitM(s.lines[o].st)
    && s.resp[o] == []
    && s.wbData.None?
    && ((s.side == Some(o) && Q(s) == []) || (|Q(s)| > 0 && Q(s)[0] == Msg(GETM, o)))
  }

  predicate DirOk(s: Sys)
    requires |s.lines| == |s.resp|
  {
    var d := s.dir;
    && (d.owner.None? <==> NoOwner(s))
    && (d.owner.Some? ==> d.owner.value < |s.lines|)
    && (d.st.DI? || d.st.DM? ==> d.stalled == [])
    && (d.st.DIS? ==> d.cur < |s.lines| && WaitS(s.lines[d.cur].st) && s.resp[d.cur] == [] && After(s, d.cur, 0))
    && (d.st.DIM? ==> d.cur < |s.lines| && WaitM(s.lines[d.cur].st) && s.resp[d.cur] == [] && After(s, d.cur, 0)
                      && d.owner == Some(d.cur) && s.side != Some(d.cur))
    && (d.st.DMI? ==> s.wbData.Some?)
    && (Owned(s) ==>
          var o := d.owner.value;
          Writer(s.lines[o].st) || (WaitM(s.lines[o].st) && s.resp[o] != []) || s.wbData.Some? || Premature(s, o))
  }

  predicate TransitOk(s: Sys)
    requires |s.lines| == |s.resp|
  {
    && (s.wbData.Some? ==>
          && (Owned(s) || s.dir.st.DMI?)
          && s.dir.owner == Some(s.wbData.value.0)
          && s.wbData.value.1 == s.latest
          && s.side.None?
          && s.wbData.value.0 < |s.lines|
          && !WaitM(s.lines[s.wbData.value.0].st) && !WaitS(s.lines[s.wbData.value.0].st))
    && (s.side.Some? ==>
          && s.side.value < |s.lines|
          && s.lines[s.side.value].st.IM_D?
          && Unserved(s, s.side.value))
  }

  predicate NoWriter(s: Sys) {
    forall c :: 0 <= c < |s.lines| ==> !Writer(s.lines[c].st)
  }

  predicate MemoryOk(s: Sys)
    requires |s.lines| == |s.resp|
  {
    && ((NoOwner(s) || s.dir.st.DIM?) && NoWriter(s) ==> s.mem == s.latest)
    && (s.dir.owner.Some? && s.dir.owner.value < |s.lines| && Premature(s, s.dir.owner.value) ==> s.mem == s.latest)
  }

  predicate CoreOk(s: Sys, c: nat)
    requires c < |s.lines| == |s.resp|
  {
    QueuesOk(s, c) && SharerOk(s, c) && WriterOk(s, c) && ReplyOk(s, c)
  }

  predicate Inv(s: Sys) {
    && |s.lines| == |s.resp|
    && (forall c :: 0 <= c < |s.lines| ==> CoreOk(s, c))
    && (forall i :: 0 <= i < |Q(s)| ==> RequestOk(s, i))
    && OneEach(Q(s))
    && DirOk(s)
    && TransitOk(s)
    && MemoryOk(s)
  }
}
