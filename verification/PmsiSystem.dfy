/** One cache line in a system of private caches, a directory and an ordered
    snooping bus.  A grant on the bus reaches every cache and the directory at
    once; data replies travel to the caches on their own. */
module PmsiSystem {
  import opened Wrappers
  import opened PmsiTable

  type Value = int

  /** A cache's copy of the line, with its unsent demand request and PUTM. */
  datatype Line = Line(st: CState, data: Value, req: Option<Request>, wb: bool)

  datatype Msg = Msg(kind: Request, core: nat)

  /** `stalled` holds the requests put aside by stall-and-wait, `incoming` those
      not looked at yet; `cur` is the requestor of the memory fetch in progress. */
  datatype Dir = Dir(st: DState, owner: Option<nat>, cur: nat, stalled: seq<Msg>, incoming: seq<Msg>)

  /** `resp[c]` is the data on its way to cache c, `wbData` a write-back on its
      way to the directory, `side` the cache whose side packet must come next on
      the bus, and `latest` the last value stored by any processor. */
  datatype Sys = Sys(lines: seq<Line>, dir: Dir, mem: Value, resp: seq<seq<Value>>,
                     wbData: Option<(nat, Value)>, side: Option<nat>, latest: Value)

  datatype Label =
    | Processor(c: nat, op: CpuOp, v: Value)
    | Grant(c: nat, v: Value)
    | GrantWB(c: nat)
    | DirRequest
    | DirMemory(due: nat)
    | DirData(due: nat)
    | Deliver(c: nat, v: Value)

  datatype Result = Crash | Ok(sys: Sys)

  function Init(n: nat, v: Value): Sys {
    Sys(seq(n, _ => Line(I, v, None, false)), Dir(DI, None, 0, [], []), v, seq(n, _ => []), None, None, v)
  }

  /** The bus is free for a new slot: the previous slot's write-back has arrived
      and no side packet is due. */
  predicate BusFree(s: Sys) {
    s.wbData.None? && s.side.None?
  }

  predicate Enabled(s: Sys, l: Label) {
    && |s.resp| == |s.lines|
    && match l
       case Processor(c, op, _) =>
         c < |s.lines| && if op.Replacement? then !s.lines[c].st.I? else !Outstanding(s.lines[c].st)
       case Grant(c, _) => c < |s.lines| && s.lines[c].req.Some? && (BusFree(s) || s.side == Some(c))
       case GrantWB(c) => c < |s.lines| && s.lines[c].wb && BusFree(s)
       case DirRequest => s.dir.incoming != []
       case DirMemory(due) => (s.dir.st.DIS? || s.dir.st.DIM?) && due <= |s.dir.incoming|
       case DirData(due) => s.wbData.Some? && due <= |s.dir.incoming|
       case Deliver(c, _) => c < |s.lines| && s.resp[c] != []
  }

  /** The line after a defined transition; `block` is the data received, if any,
      and `v` the value of the processor's pending store. */
  function Apply(l: Line, o: Outcome, block: Value, v: Value): Line
    requires o.Go?
  {
    var filled := if o.fill then block else l.data;
    Line(o.next, if o.hit.StoreHit? then v else filled,
         if o.issue.Some? then o.issue else l.req, l.wb || o.putm)
  }

  function Stored(s: Sys, o: Outcome, v: Value): Value
    requires o.Go?
  {
    if o.hit.StoreHit? then v else s.latest
  }

  function ProcessorStep(s: Sys, c: nat, op: CpuOp, v: Value): Result
    requires c < |s.lines|
  {
    match CacheStep(s.lines[c].st, Cpu(op))
    case Undefined => Crash
    case Stall => Ok(s)
    case Go(n, i, sd, p, f, h, sn) =>
      var o := Go(n, i, sd, p, f, h, sn);
      Ok(s.(lines := s.lines[c := Apply(s.lines[c], o, 0, v)], latest := Stored(s, o, v)))
  }

  /** The event that cache i sees when cache c's request k is granted. */
  function Seen(c: nat, k: Request, i: nat): Event {
    if i == c then Own(k) else Other(k)
  }

  function SeenPUTM(c: nat, i: nat): Event {
    if i == c then OwnPUTM else OtherPUTM
  }

  /** Every cache can take the broadcast now: no undefined pair and no stall. */
  predicate AllTake(s: Sys, ev: nat -> Event) {
    forall i :: 0 <= i < |s.lines| ==> CacheStep(s.lines[i].st, ev(i)).Go?
  }

  /** The granted message leaves the sender's queue before the line is updated. */
  function Sent(l: Line, demand: bool): Line {
    if demand then l.(req := None) else l.(wb := false)
  }

  function Snooped(s: Sys, c: nat, ev: nat -> Event, demand: bool, v: Value): (ls: seq<Line>)
    requires AllTake(s, ev)
    ensures |ls| == |s.lines|
    ensures forall i :: 0 <= i < |ls| ==>
      ls[i] == Apply(if i == c then Sent(s.lines[i], demand) else s.lines[i], CacheStep(s.lines[i].st, ev(i)), 0, v)
  {
    seq(|s.lines|, i requires 0 <= i < |s.lines| =>
      Apply(if i == c then Sent(s.lines[i], demand) else s.lines[i], CacheStep(s.lines[i].st, ev(i)), 0, v))
  }

  function GrantStep(s: Sys, c: nat, v: Value): Result
    requires c < |s.lines| && s.lines[c].req.Some?
  {
    var k := s.lines[c].req.value;
    var ev := (i: nat) => Seen(c, k, i);
    if !AllTake(s, ev) then Crash else
    var o := CacheStep(s.lines[c].st, Own(k));
    assert ev(c) == Own(k);
    Ok(s.(lines := Snooped(s, c, ev, true, v),
          dir := s.dir.(incoming := s.dir.incoming + [Msg(k, c)]),
          side := if o.side then Some(c) else None,
          latest := Stored(s, o, v)))
  }

  /** A PUTM reaches the directory in the slot in which it is granted; one that
      does not come from the recorded owner is dropped. */
  function GrantWBStep(s: Sys, c: nat): Result
    requires c < |s.lines|
  {
    var ev := (i: nat) => SeenPUTM(c, i);
    if !AllTake(s, ev) then Crash else
    var o := CacheStep(s.lines[c].st, OwnPUTM);
    assert ev(c) == OwnPUTM;
    var s1 := s.(lines := Snooped(s, c, ev, false, 0),
                 wbData := if o.send then Some((c, s.lines[c].data)) else s.wbData);
    if s.dir.owner != Some(c) then Ok(s1) else
    match DirStep(s.dir.st, DPUTM)
    case DGo(n, _, _, _, _, _) => Ok(s1.(dir := s.dir.(st := n)))
    case _ => Crash
  }

  function RequestEvent(d: Dir, m: Msg): DEvent {
    match m.kind
    case GETS => DGETS
    case GETM => if d.owner == Some(m.core) then DGETMO else DGETM
    case UPG => DUPG
  }

  /** The request buffer after a wake-up.  The requests put aside become due in the
      next cycle, behind the first `due` of the others, which are due by then. */
  function Merged(stalled: seq<Msg>, incoming: seq<Msg>, due: nat): (r: seq<Msg>)
    requires due <= |incoming|
    ensures due == 0 ==> r == stalled + incoming
    ensures stalled == [] ==> r == incoming
  {
    incoming[..due] + stalled + incoming[due..]
  }

  function Woken(d: Dir, wake: bool, due: nat): Dir
    requires due <= |d.incoming|
  {
    if wake then d.(stalled := [], incoming := Merged(d.stalled, d.incoming, due)) else d
  }

  function DirRequestStep(s: Sys): Result
    requires s.dir.incoming != []
  {
    var d := s.dir;
    var m := d.incoming[0];
    match DirStep(d.st, RequestEvent(d, m))
    case DUndefined => Crash
    case DStall => Ok(s.(dir := d.(stalled := d.stalled + [m], incoming := d.incoming[1..])))
    case DRetry(n) => Ok(s.(dir := d.(st := n)))
    case DGo(n, w, fetch, _, _, _) =>
      Ok(s.(dir := Dir(n, if w.Requestor? then Some(m.core) else d.owner,
                       if fetch then m.core else d.cur, d.stalled, d.incoming[1..])))
  }

  function DirMemoryStep(s: Sys, due: nat): Result
    requires due <= |s.dir.incoming|
  {
    match DirStep(s.dir.st, DMemory)
    case DGo(n, _, _, _, _, wake) =>
      if s.dir.cur < |s.resp| then
        Ok(s.(dir := Woken(s.dir.(st := n), wake, due),
              resp := s.resp[s.dir.cur := s.resp[s.dir.cur] + [s.mem]]))
      else Crash
    case _ => Crash
  }

  function DirDataStep(s: Sys, due: nat): Result
    requires s.wbData.Some? && due <= |s.dir.incoming|
  {
    match DirStep(s.dir.st, DData)
    case DGo(n, _, _, _, _, wake) =>
      Ok(s.(dir := Woken(s.dir.(st := n, owner := None), wake, due), mem := s.wbData.value.1, wbData := None))
    case _ => Crash
  }

  function DeliverStep(s: Sys, c: nat, v: Value): Result
    requires c < |s.lines| && |s.resp| == |s.lines| && s.resp[c] != []
  {
    var o := CacheStep(s.lines[c].st, Data);
    if !o.Go? then Crash else
    var l := Apply(s.lines[c], o, s.resp[c][0], v);
    Ok(s.(lines := s.lines[c := l], resp := s.resp[c := s.resp[c][1..]], latest := Stored(s, o, v),
          wbData := if o.send then Some((c, l.data)) else s.wbData))
  }

  function Step(s: Sys, l: Label): Result
    requires Enabled(s, l)
  {
    match l
    case Processor(c, op, v) => ProcessorStep(s, c, op, v)
    case Grant(c, v) => GrantStep(s, c, v)
    case GrantWB(c) => GrantWBStep(s, c)
    case DirRequest => DirRequestStep(s)
    case DirMemory(due) => DirMemoryStep(s, due)
    case DirData(due) => DirDataStep(s, due)
    case Deliver(c, v) => DeliverStep(s, c, v)
  }

  /** A write-back is timely when the directory already records its sender as the owner. */
  predicate Timely(s: Sys, l: Label) {
    l.GrantWB? ==> s.dir.owner == Some(l.c)
  }

  /** The cache does not choose as a victim a line whose upgrade has been overtaken. */
  predicate Polite(s: Sys, l: Label) {
    l.Processor? && l.op.Replacement? && l.c < |s.lines| ==> !s.lines[l.c].st.IM_W?
  }

  /** No request in transit falls due in the cycle in which requests put aside are
      taken up again. */
  predicate Prompt(s: Sys, l: Label) {
    l.DirMemory? || l.DirData? ==> s.dir.stalled == [] || l.due == 0
  }

  predicate AllReads(q: seq<Msg>) {
    forall i :: 0 <= i < |q| ==> q[i].kind.GETS?
  }

  /** Requests taken up again are overtaken only where all of them are reads, and
      only by reads. */
  predicate Orderly(s: Sys, l: Label) {
    Prompt(s, l) || (l.due <= |s.dir.incoming| && AllReads(s.dir.stalled) && AllReads(s.dir.incoming[..l.due]))
  }

  /** A finite execution: `ss[i]` takes step `ls[i]` to `ss[i + 1]`. */
  datatype Exec = Exec(ss: seq<Sys>, ls: seq<Label>)

  ghost predicate Execution(x: Exec) {
    && |x.ss| == |x.ls| + 1
    && (exists n: nat, v :: x.ss[0] == Init(n, v))
    && forall i :: 0 <= i < |x.ls| ==> Enabled(x.ss[i], x.ls[i]) && Step(x.ss[i], x.ls[i]) == Ok(x.ss[i + 1])
  }

  /** The conditions under which the protocol is meant to work. */
  predicate Regular(s: Sys, l: Label) { Timely(s, l) && Polite(s, l) && Orderly(s, l) }

  ghost predicate Run(x: Exec) {
    Execution(x) && forall i :: 0 <= i < |x.ls| ==> Regular(x.ss[i], x.ls[i])
  }
}
