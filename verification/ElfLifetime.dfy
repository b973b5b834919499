/** The life of ELF descriptors: opening counts activations and archive members,
    closing releases a descriptor when both counts are zero and then looks at the
    archive it is a member of. */
module ElfLifetime {
  import opened Wrappers
  import opened ElfTypes

  datatype Kind = Archive | Object | Plain

  datatype Cmd = CmdNull | CmdRead | CmdWrite | CmdRdwr | CmdOther

  datatype Desc = Desc(kind: Kind, activations: nat, nchildren: int, parent: Option<nat>, fd: int, cmd: Cmd)

  /** The allocated descriptors by handle, the next handle, and the handles
      released so far, in order. */
  datatype Heap = Heap(live: map<nat, Desc>, next: nat, released: seq<nat>)

  // ---- Specification ----------------------------------------------------------

  function Allocated(h: Heap, kind: Kind, parent: Option<nat>, fd: int, cmd: Cmd): Heap {
    Heap(h.live[h.next := Desc(kind, 1, 0, parent, fd, cmd)], h.next + 1, h.released)
  }

  function Release(h: Heap, e: nat): Heap {
    Heap(h.live - {e}, h.next, h.released + [e])
  }

  function AddChildren(h: Heap, e: nat, n: int): Heap
    requires e in h.live
  {
    var d := h.live[e];
    h.(live := h.live[e := d.(nchildren := d.nchildren + n)])
  }

  function SetActivations(h: Heap, e: nat, n: nat): Heap
    requires e in h.live
  {
    h.(live := h.live[e := h.live[e].(activations := n)])
  }

  predicate Idle(d: Desc) { d.activations == 0 && !(d.kind.Archive? && d.nchildren > 0) }

  function Children(live: map<nat, Desc>, e: nat): set<nat> {
    set c | c in live && live[c].parent == Some(e)
  }

  /** Handles are used once. */
  ghost predicate Handles(h: Heap) {
    && (forall e :: e in h.live ==> e < h.next)
    && (forall i :: 0 <= i < |h.released| ==> h.released[i] < h.next && h.released[i] !in h.live)
    && (forall i, j :: 0 <= i < j < |h.released| ==> h.released[i] != h.released[j])
  }

  /** A member's archive is live and older than the member. */
  predicate ParentsOk(live: map<nat, Desc>) {
    forall e :: e in live && live[e].parent.Some? ==>
      var p := live[e].parent.value; p in live && p < e && live[p].kind.Archive?
  }

  /** An archive counts its live members. */
  predicate Counted(live: map<nat, Desc>) {
    forall e :: e in live ==> live[e].nchildren == |Children(live, e)|
  }

  ghost predicate Linked(h: Heap) {
    Handles(h) && ParentsOk(h.live) && Counted(h.live)
  }

  /** Every live descriptor is in use: it has activations or open members. */
  ghost predicate Inv(h: Heap) {
    Linked(h) && forall e :: e in h.live ==> !Idle(h.live[e])
  }

  // ---- Children counts --------------------------------------------------------

  lemma {:induction false} NoChildren(h: Heap, e: nat)
    requires Linked(h) && e in h.live && (!h.live[e].kind.Archive? || h.live[e].nchildren <= 0)
    ensures Children(h.live, e) == {}
  {
    if c :| c in Children(h.live, e) {
      assert h.live[e].kind.Archive?;
    }
  }

  /** The heap after releasing e and telling its archive. */
  function Dropped(h: Heap, e: nat): Heap
    requires ParentsOk(h.live) && e in h.live
  {
    match h.live[e].parent
    case None => Release(h, e)
    case Some(p) => AddChildren(Release(h, e), p, -1)
  }

  /** The heap after allocating a descriptor and telling its archive. */
  function Opened(h: Heap, kind: Kind, parent: Option<nat>, fd: int, cmd: Cmd): Heap
    requires parent.Some? ==> parent.value in h.live
  {
    match parent
    case None => Allocated(h, kind, parent, fd, cmd)
    case Some(p) => AddChildren(Allocated(h, kind, parent, fd, cmd), p, 1)
  }

  lemma {:induction false} SameParents(live: map<nat, Desc>, live': map<nat, Desc>, x: nat)
    requires live.Keys == live'.Keys && forall c :: c in live ==> live'[c].parent == live[c].parent
    ensures Children(live', x) == Children(live, x)
  {
    assert forall c :: c in live' <==> c in live.Keys;
  }

  lemma {:induction false} ChildrenDropped(h: Heap, e: nat, x: nat)
    requires ParentsOk(h.live) && e in h.live && x in Dropped(h, e).live
    ensures |Children(Dropped(h, e).live, x)| == |Children(h.live, x)| - if h.live[e].parent == Some(x) then 1 else 0
  {
    var live := Release(h, e).live;
    SameParents(live, Dropped(h, e).live, x);
    if h.live[e].parent == Some(x) {
      assert Children(h.live, x) == Children(live, x) + {e};
    } else {
      assert Children(h.live, x) == Children(live, x);
    }
  }

  lemma {:induction false} ChildrenOpened(h: Heap, kind: Kind, parent: Option<nat>, fd: int, cmd: Cmd, x: nat)
    requires h.next !in h.live && (parent.Some? ==> parent.value in h.live)
    ensures |Children(Opened(h, kind, parent, fd, cmd).live, x)| ==
      |Children(h.live, x)| + if parent == Some(x) then 1 else 0
  {
    var live := Allocated(h, kind, parent, fd, cmd).live;
    SameParents(live, Opened(h, kind, parent, fd, cmd).live, x);
    if parent == Some(x) {
      assert Children(live, x) == Children(h.live, x) + {h.next};
    } else {
      assert Children(live, x) == Children(h.live, x);
    }
  }

  lemma {:induction false} DroppedLinked(h: Heap, e: nat)
    requires Linked(h) && e in h.live && Idle(h.live[e])
    ensures Linked(Dropped(h, e))
  {
    var live := Dropped(h, e).live;
    assert Handles(Dropped(h, e));
    assert ParentsOk(live) by {
      NoChildren(h, e);
      assert forall c :: c in h.live && h.live[c].parent == Some(e) ==> c in Children(h.live, e);
    }
    forall x | x in live ensures live[x].nchildren == |Children(live, x)| {
      ChildrenDropped(h, e, x);
    }
  }

  lemma {:induction false} OpenedLinked(h: Heap, kind: Kind, parent: Option<nat>, fd: int, cmd: Cmd)
    requires Linked(h) && (parent.Some? ==> parent.value in h.live && h.live[parent.value].kind.Archive?)
    ensures Linked(Opened(h, kind, parent, fd, cmd))
  {
    var h' := Opened(h, kind, parent, fd, cmd);
    assert Handles(h');
    assert ParentsOk(h'.live);
    forall x | x in h'.live ensures h'.live[x].nchildren == |Children(h'.live, x)| {
      ChildrenOpened(h, kind, parent, fd, cmd, x);
      if x == h.next {
        assert Children(h.live, x) == {};
      }
    }
  }

  lemma {:induction false} ActivationsLinked(h: Heap, e: nat, n: nat)
    requires Linked(h) && e in h.live
    ensures Linked(SetActivations(h, e, n))
  {
    var h' := SetActivations(h, e, n);
    assert Handles(h');
    assert ParentsOk(h'.live);
    forall x | x in h'.live ensures h'.live[x].nchildren == |Children(h'.live, x)| {
      SameParents(h.live, h'.live, x);
    }
  }

  function Activated(h: Heap, e: nat, n: nat): (r: Heap)
    requires Linked(h) && e in h.live
    ensures Linked(r) && e in r.live
  {
    ActivationsLinked(h, e, n);
    SetActivations(h, e, n)
  }

  // ---- Closing ----------------------------------------------------------------

  /** Release e if it is idle, then do the same for its archive. */
  function Cascade(h: Heap, e: nat): (r: Heap)
    requires Linked(h) && e in h.live
    ensures Linked(r)
    decreases e
  {
    if !Idle(h.live[e]) then h
    else
      DroppedLinked(h, e);
      match h.live[e].parent
      case None => Dropped(h, e)
      case Some(p) => Cascade(Dropped(h, e), p)
  }

  /** Closing a descriptor: the new heap and the number of activations left. */
  function Ended(h: Heap, e: nat): (r: (Heap, nat))
    requires Linked(h) && e in h.live
    ensures Linked(r.0)
  {
    var n := h.live[e].activations;
    if n == 0 then (h, 0)
    else if n > 1 then (Activated(h, e, n - 1), n - 1)
    else (Cascade(Activated(h, e, 0), e), 0)
  }

  /** h' is h without some descriptors that are not active and have no remaining
      members; what remains is as it was, but for the member counts. */
  ghost predicate Shrunk(h: Heap, h': Heap) {
    && h'.next == h.next
    && (forall x :: x in h'.live ==> x in h.live && h'.live[x].(nchildren := 0) == h.live[x].(nchildren := 0))
    && (forall x :: x in h.live && x !in h'.live ==>
          h.live[x].activations == 0 && forall c :: c in h.live && h.live[c].parent == Some(x) ==> c !in h'.live)
    && (forall x :: x in h'.released <==> x in h.released || (x in h.live && x !in h'.live))
  }

  lemma {:induction false} DroppedShrinks(h: Heap, e: nat)
    requires Linked(h) && e in h.live && Idle(h.live[e])
    ensures Shrunk(h, Dropped(h, e))
  {
    NoChildren(h, e);
    assert forall c :: c in h.live && h.live[c].parent == Some(e) ==> c in Children(h.live, e);
  }

  lemma {:induction false} ShrunkTwice(h: Heap, h1: Heap, h2: Heap)
    requires Shrunk(h, h1) && Shrunk(h1, h2)
    ensures Shrunk(h, h2)
  {
  }

  lemma {:induction false} CascadeShrinks(h: Heap, e: nat)
    requires Linked(h) && e in h.live
    ensures Shrunk(h, Cascade(h, e))
    decreases e
  {
    if Idle(h.live[e]) {
      DroppedLinked(h, e);
      DroppedShrinks(h, e);
      if h.live[e].parent.Some? {
        CascadeShrinks(Dropped(h, e), h.live[e].parent.value);
        ShrunkTwice(h, Dropped(h, e), Cascade(h, e));
      }
    }
  }

  lemma {:induction false} CascadeInv(h: Heap, e: nat)
    requires Linked(h) && e in h.live && forall x :: x in h.live && x != e ==> !Idle(h.live[x])
    ensures Inv(Cascade(h, e))
    decreases e
  {
    if Idle(h.live[e]) {
      DroppedLinked(h, e);
      if h.live[e].parent.Some? {
        CascadeInv(Dropped(h, e), h.live[e].parent.value);
      }
    }
  }

  lemma {:induction false} EndInv(h: Heap, e: nat)
    requires Inv(h) && e in h.live
    ensures Inv(Ended(h, e).0)
  {
    if h.live[e].activations == 1 { CascadeInv(Activated(h, e, 0), e); }
  }

  /** Closing releases exactly the descriptors that are left without activations
      and without live members; all others keep their activations. */
  lemma {:induction false} EndExact(h: Heap, e: nat, x: nat)
    requires Inv(h) && e in h.live && x in h.live
    ensures var h' := Ended(h, e).0;
            var n := if x == e && h.live[e].activations > 0 then h.live[e].activations - 1 else h.live[x].activations;
            && (x in h'.live <==> n > 0 || exists c :: c in h'.live && h'.live[c].parent == Some(x))
            && (x in h'.live ==> h'.live[x].activations == n && h'.live[x].parent == h.live[x].parent)
            && (x in h'.released <==> x !in h'.live)
  {
    var h' := Ended(h, e).0;
    EndInv(h, e);
    assert x !in h.released;
    if h.live[e].activations == 1 { CascadeShrinks(Activated(h, e, 0), e); }
    if x in h'.live && h'.live[x].nchildren > 0 {
      var c :| c in Children(h'.live, x);
    }
  }

  // ---- Opening ----------------------------------------------------------------

  /** Opening by command c on descriptor a, if given.  `found` is what the file or
      the next archive member turns out to be, if it can be opened at all; a file to be
      written only has to be writable. */
  function Begun(h: Heap, fd: int, c: Cmd, a: Option<nat>, found: Option<Kind>): (r: (Heap, Option<nat>))
    requires Linked(h) && (a.Some? ==> a.value in h.live)
  {
    match c
    case CmdNull | CmdOther => (h, None)
    case CmdWrite =>
      if a.Some? || found.None? then (h, None) else (Opened(h, Object, None, fd, c), Some(h.next))
    case CmdRdwr => if a.Some? then (h, None) else OpenFile(h, fd, c, found)
    case CmdRead =>
      if a.None? then OpenFile(h, fd, c, found)
      else if h.live[a.value].fd != fd || h.live[a.value].cmd != c then (h, None)
      else if h.live[a.value].kind.Archive? then
        (if found.None? then (h, None) else (Opened(h, found.value, a, fd, c), Some(h.next)))
      else (Activated(h, a.value, h.live[a.value].activations + 1), a)
  }

  /** A file of its own; an archive cannot be opened for update. */
  function OpenFile(h: Heap, fd: int, c: Cmd, found: Option<Kind>): (Heap, Option<nat>)
    requires Linked(h)
  {
    if found.None? then (h, None)
    else
      OpenedLinked(h, found.value, None, fd, c);
      var h1 := Opened(h, found.value, None, fd, c);
      if c == CmdRdwr && found == Some(Archive) then (Ended(h1, h.next).0, None) else (h1, Some(h.next))
  }

  lemma {:induction false} OpenedInv(h: Heap, kind: Kind, parent: Option<nat>, fd: int, cmd: Cmd)
    requires Inv(h) && (parent.Some? ==> parent.value in h.live && h.live[parent.value].kind.Archive?)
    ensures Inv(Opened(h, kind, parent, fd, cmd)) && h.next in Opened(h, kind, parent, fd, cmd).live
  {
    OpenedLinked(h, kind, parent, fd, cmd);
    assert parent.Some? ==> h.live[parent.value].nchildren >= 0;
  }

  lemma {:induction false} FileInv(h: Heap, fd: int, c: Cmd, found: Option<Kind>)
    requires Inv(h)
    ensures var (h', r) := OpenFile(h, fd, c, found);
            Inv(h') && (r.Some? ==> r.value in h'.live && h'.live[r.value].activations > 0)
  {
    if found.Some? {
      OpenedInv(h, found.value, None, fd, c);
      EndInv(Opened(h, found.value, None, fd, c), h.next);
    }
  }

  lemma {:induction false} AgainInv(h: Heap, e: nat, n: nat)
    requires Inv(h) && e in h.live && n > 0
    ensures Inv(Activated(h, e, n)) && Activated(h, e, n).live[e].activations == n
  {
  }

  lemma {:induction false} BeginInv(h: Heap, fd: int, c: Cmd, a: Option<nat>, found: Option<Kind>)
    requires Inv(h) && (a.Some? ==> a.value in h.live)
    ensures var (h', r) := Begun(h, fd, c, a, found);
            Inv(h') && (r.Some? ==> r.value in h'.live && h'.live[r.value].activations > 0)
  {
    if a.None? {
      OpenedInv(h, Object, None, fd, c);
      FileInv(h, fd, c, found);
    } else if h.live[a.value].kind.Archive? {
      if found.Some? { OpenedInv(h, found.value, a, fd, c); }
    } else {
      AgainInv(h, a.value, h.live[a.value].activations + 1);
    }
  }

  /** Opening succeeds exactly for a writable file, for a readable file that is not an
      archive opened for update, and, for reading with the descriptor's own file and
      command, for the next member of an archive or for the descriptor itself. */
  predicate Opens(h: Heap, fd: int, c: Cmd, a: Option<nat>, found: Option<Kind>)
    requires a.Some? ==> a.value in h.live
  {
    match c
    case CmdNull | CmdOther => false
    case CmdWrite => a.None? && found.Some?
    case CmdRdwr => a.None? && found.Some? && found.value != Archive
    case CmdRead =>
      if a.None? then found.Some?
      else
        var d := h.live[a.value];
        d.fd == fd && d.cmd == c && (d.kind.Archive? ==> found.Some?)
  }

  lemma {:induction false} NewHandle(h: Heap)
    requires Inv(h)
    ensures h.next !in h.live && h.next !in h.released
  {
  }

  lemma {:induction false} AddedRemoved(live: map<nat, Desc>, e: nat, d: Desc, d': Desc)
    requires e !in live
    ensures live[e := d][e := d'] - {e} == live
  {
  }

  lemma {:induction false} EndsAlone(h: Heap, e: nat, live: map<nat, Desc>, d: Desc)
    requires Linked(h) && e !in live && h.live == live[e := d]
    requires d.activations == 1 && d.nchildren == 0 && d.parent.None?
    ensures Ended(h, e).0.live == live
  {
    AddedRemoved(live, e, d, d.(activations := 0));
  }

  /** An archive that is opened for update is closed at once. */
  lemma {:induction false} RefusedArchive(h: Heap, fd: int)
    requires Inv(h)
    ensures OpenFile(h, fd, CmdRdwr, Some(Archive)).1.None? && OpenFile(h, fd, CmdRdwr, Some(Archive)).0.live == h.live
  {
    NewHandle(h);
    OpenedLinked(h, Archive, None, fd, CmdRdwr);
    EndsAlone(Opened(h, Archive, None, fd, CmdRdwr), h.next, h.live, Desc(Archive, 1, 0, None, fd, CmdRdwr));
  }

  /** What opening does: nothing if it fails; one more activation of a descriptor that is
      open already; or a new descriptor with one activation, which an archive counts as
      its member. */
  ghost predicate Effect(h: Heap, fd: int, c: Cmd, a: Option<nat>, found: Option<Kind>, h': Heap, r: Option<nat>)
    requires a.Some? ==> a.value in h.live
  {
    if r.None? then h'.live == h.live
    else if a.None? then
      && r.value !in h.live && r.value !in h.released && found.Some?
      && h'.live == h.live[r.value := Desc(if c.CmdWrite? then Object else found.value, 1, 0, None, fd, c)]
    else
      var d := h.live[a.value];
      if d.kind.Archive? then
        && r.value !in h.live && r.value !in h.released && found.Some?
        && h'.live == h.live[r.value := Desc(found.value, 1, 0, a, fd, c)][a.value := d.(nchildren := d.nchildren + 1)]
      else
        r == a && h'.live == h.live[a.value := d.(activations := d.activations + 1)]
  }

  lemma {:induction false} FileEffect(h: Heap, fd: int, c: Cmd, found: Option<Kind>)
    requires Inv(h) && !c.CmdNull? && !c.CmdOther?
    ensures var (h', r) := Begun(h, fd, c, None, found);
            (r.Some? <==> Opens(h, fd, c, None, found)) && Effect(h, fd, c, None, found, h', r)
  {
    NewHandle(h);
    if c.CmdRdwr? && found == Some(Archive) { RefusedArchive(h, fd); }
  }

  lemma {:induction false} MemberEffect(h: Heap, fd: int, c: Cmd, a: nat, kind: Kind)
    requires Inv(h) && a in h.live && h.live[a].kind.Archive?
    ensures Effect(h, fd, c, Some(a), Some(kind), Opened(h, kind, Some(a), fd, c), Some(h.next))
  {
    NewHandle(h);
  }

  lemma {:induction false} AgainEffect(h: Heap, fd: int, c: Cmd, a: nat, found: Option<Kind>)
    requires Linked(h) && a in h.live && !h.live[a].kind.Archive?
    ensures Effect(h, fd, c, Some(a), found, Activated(h, a, h.live[a].activations + 1), Some(a))
  {
  }

  lemma {:induction false} ReadMember(h: Heap, fd: int, a: nat, found: Option<Kind>)
    requires Inv(h) && a in h.live && h.live[a].fd == fd && h.live[a].cmd == CmdRead && h.live[a].kind.Archive?
    ensures var (h', r) := Begun(h, fd, CmdRead, Some(a), found);
            r.Some? == found.Some? && Effect(h, fd, CmdRead, Some(a), found, h', r)
  {
    if found.Some? { MemberEffect(h, fd, CmdRead, a, found.value); }
  }

  lemma {:induction false} ReadAgain(h: Heap, fd: int, a: nat, found: Option<Kind>)
    requires Linked(h) && a in h.live && h.live[a].fd == fd && h.live[a].cmd == CmdRead && !h.live[a].kind.Archive?
    ensures var (h', r) := Begun(h, fd, CmdRead, Some(a), found);
            r.Some? && Effect(h, fd, CmdRead, Some(a), found, h', r)
  {
    AgainEffect(h, fd, CmdRead, a, found);
  }

  lemma {:induction false} BeginExactly(h: Heap, fd: int, c: Cmd, a: Option<nat>, found: Option<Kind>)
    requires Inv(h) && (a.Some? ==> a.value in h.live)
    ensures var (h', r) := Begun(h, fd, c, a, found);
            (r.Some? <==> Opens(h, fd, c, a, found)) && Effect(h, fd, c, a, found, h', r)
  {
    if c.CmdNull? || c.CmdOther? {
    } else if a.None? {
      FileEffect(h, fd, c, found);
    } else if c.CmdRead? && h.live[a.value].fd == fd && h.live[a.value].cmd == c {
      if h.live[a.value].kind.Archive? { ReadMember(h, fd, a.value, found); } else { ReadAgain(h, fd, a.value, found); }
    }
  }

  // ---- Runs -------------------------------------------------------------------

  datatype Op = OpBegin(fd: int, cmd: Cmd, a: Option<nat>, found: Option<Kind>) | OpEnd(e: Option<nat>)

  /** The application only passes handles that are live. */
  predicate Proper(h: Heap, op: Op) {
    match op
    case OpBegin(_, _, a, _) => a.Some? ==> a.value in h.live
    case OpEnd(e) => e.Some? ==> e.value in h.live
  }

  ghost function Step(h: Heap, op: Op): Heap {
    if !Linked(h) || !Proper(h, op) then h
    else match op
         case OpBegin(fd, c, a, found) => Begun(h, fd, c, a, found).0
         case OpEnd(e) => if e.None? then h else Ended(h, e.value).0
  }

  ghost predicate IsRun(hs: seq<Heap>, ops: seq<Op>) {
    && |hs| == |ops| + 1 && hs[0] == Heap(map[], 0, [])
    && forall i {:trigger Proper(hs[i], ops[i])} :: 0 <= i < |ops| ==>
         Proper(hs[i], ops[i]) && hs[i + 1] == Step(hs[i], ops[i])
  }

  lemma {:induction false} StepInv(h: Heap, op: Op)
    requires Inv(h) && Proper(h, op)
    ensures Inv(Step(h, op))
  {
    match op
    case OpBegin(fd, c, a, found) => BeginInv(h, fd, c, a, found);
    case OpEnd(e) => if e.Some? { EndInv(h, e.value); }
  }

  /** In every run: every archive counts its live members, every live member's
      archive is live, every live descriptor is in use, and no handle is released
      twice. */
  lemma {:induction false} RunInv(hs: seq<Heap>, ops: seq<Op>, i: nat)
    requires IsRun(hs, ops) && i < |hs|
    ensures Inv(hs[i])
  {
    if i > 0 {
      RunInv(hs, ops, i - 1);
      StepInv(hs[i - 1], ops[i - 1]);
    }
  }

  // ---- Opened as often as closed -----------------------------------------------------

  /** The handle that an operation returns. */
  ghost function Returned(h: Heap, op: Op): Option<nat> {
    if op.OpBegin? && Linked(h) && Proper(h, op) then Begun(h, op.fd, op.cmd, op.a, op.found).1 else None
  }

  /** How often handle e has been returned in the first i operations and not been closed
      since. */
  ghost function Balance(hs: seq<Heap>, ops: seq<Op>, i: nat, e: nat): nat
    requires |hs| == |ops| + 1 && i <= |ops|
  {
    if i == 0 then 0
    else
      var b := Balance(hs, ops, i - 1, e);
      if Returned(hs[i - 1], ops[i - 1]) == Some(e) then b + 1
      else if ops[i - 1] == OpEnd(Some(e)) && b > 0 then b - 1
      else b
  }

  function Activations(h: Heap, e: nat): nat { if e in h.live then h.live[e].activations else 0 }

  lemma {:induction false} BeginCounts(h: Heap, op: Op, x: nat)
    requires Inv(h) && Proper(h, op) && op.OpBegin?
    ensures Activations(Step(h, op), x) == Activations(h, x) + if Returned(h, op) == Some(x) then 1 else 0
  {
    BeginExactly(h, op.fd, op.cmd, op.a, op.found);
  }

  lemma {:induction false} EndCounts(h: Heap, e: nat, x: nat)
    requires Inv(h) && e in h.live
    ensures Activations(Ended(h, e).0, x) == Activations(h, x) - if x == e && Activations(h, x) > 0 then 1 else 0
    ensures Ended(h, e).1 == Activations(Ended(h, e).0, e)
  {
    EndExact(h, e, e);
    if x in h.live {
      EndExact(h, e, x);
    } else if h.live[e].activations == 1 {
      CascadeShrinks(Activated(h, e, 0), e);
    }
  }

  /** In every run the activations of a handle are the times it has been opened and not
      yet closed. */
  lemma {:induction false} ActivationsCount(hs: seq<Heap>, ops: seq<Op>, i: nat, e: nat)
    requires IsRun(hs, ops) && i <= |ops|
    ensures Activations(hs[i], e) == Balance(hs, ops, i, e)
  {
    if i > 0 {
      ActivationsCount(hs, ops, i - 1, e);
      RunInv(hs, ops, i - 1);
      var h, op := hs[i - 1], ops[i - 1];
      assert Proper(h, op);
      if op.OpBegin? { BeginCounts(h, op, e); } else if op.e.Some? { EndCounts(h, op.e.value, e); }
    }
  }

  /** So in every run a handle is live if and only if it has been opened more often than
      closed or a member of it is live. */
  lemma {:induction false} LiveExactly(hs: seq<Heap>, ops: seq<Op>, i: nat, e: nat)
    requires IsRun(hs, ops) && i <= |ops|
    ensures e in hs[i].live <==>
      Balance(hs, ops, i, e) > 0 || exists c :: c in hs[i].live && hs[i].live[c].parent == Some(e)
  {
    RunInv(hs, ops, i);
    ActivationsCount(hs, ops, i, e);
    if e in hs[i].live && hs[i].live[e].nchildren > 0 {
      var c :| c in Children(hs[i].live, e);
    }
  }

  /** And closing returns how often the handle still has to be closed. */
  lemma {:induction false} EndReturns(hs: seq<Heap>, ops: seq<Op>, i: nat, e: nat)
    requires IsRun(hs, ops) && i < |ops| && ops[i] == OpEnd(Some(e))
    ensures Linked(hs[i]) && e in hs[i].live && Ended(hs[i], e).1 == Balance(hs, ops, i + 1, e)
  {
    RunInv(hs, ops, i);
    assert Proper(hs[i], ops[i]);
    EndCounts(hs[i], e, e);
    ActivationsCount(hs, ops, i + 1, e);
  }

  lemma {:induction false} CascadeReleases(h: Heap, e: nat)
    requires Linked(h) && e in h.live
    ensures h.released <= Cascade(h, e).released
    decreases e
  {
    if Idle(h.live[e]) {
      DroppedLinked(h, e);
      if h.live[e].parent.Some? { CascadeReleases(Dropped(h, e), h.live[e].parent.value); }
    }
  }

  lemma {:induction false} EndReleases(h: Heap, e: nat)
    requires Linked(h) && e in h.live
    ensures h.released <= Ended(h, e).0.released
  {
    if h.live[e].activations == 1 { CascadeReleases(Activated(h, e, 0), e); }
  }

  lemma {:induction false} StepReleases(h: Heap, op: Op)
    requires Inv(h) && Proper(h, op)
    ensures h.released <= Step(h, op).released
  {
    match op
    case OpBegin(fd, c, a, found) =>
      if found.Some? {
        OpenedInv(h, found.value, None, fd, c);
        EndReleases(Opened(h, found.value, None, fd, c), h.next);
      }
    case OpEnd(e) => if e.Some? { EndReleases(h, e.value); }
  }

  lemma {:induction false} RunReleases(hs: seq<Heap>, ops: seq<Op>, i: nat, j: nat)
    requires IsRun(hs, ops) && i <= j < |hs|
    ensures hs[i].released <= hs[j].released
    decreases j
  {
    if i < j {
      RunReleases(hs, ops, i, j - 1);
      RunReleasesNext(hs, ops, j - 1);
    }
  }

  lemma {:induction false} RunReleasesNext(hs: seq<Heap>, ops: seq<Op>, j: nat)
    requires IsRun(hs, ops) && j < |ops|
    ensures hs[j].released <= hs[j + 1].released
  {
    RunInv(hs, ops, j);
    StepReleases(hs[j], ops[j]);
  }

  /** A handle released at some point of a run is never live again. */
  lemma {:induction false} ReleasedForever(hs: seq<Heap>, ops: seq<Op>, i: nat, j: nat, e: nat)
    requires IsRun(hs, ops) && i <= j < |hs| && e in hs[i].released
    ensures e in hs[j].released && e !in hs[j].live
  {
    RunReleases(hs, ops, i, j);
    RunInv(hs, ops, j);
  }

  // ---- The library ------------------------------------------------------------

  class Library {
    var live: map<nat, Desc>
    var next: nat
    ghost var released: seq<nat>

    ghost function H(): Heap
      reads this
    {
      Heap(live, next, released)
    }

    constructor ()
      ensures Inv(H()) && H() == Heap(map[], 0, [])
    {
      live, next, released := map[], 0, [];
    }

    /** A new descriptor; an archive gains a member. */
    method Open(kind: Kind, parent: Option<nat>, fd: int, cmd: Cmd) returns (e: nat)
      requires next !in live && (parent.Some? ==> parent.value in live)
      modifies this
      ensures H() == Opened(old(H()), kind, parent, fd, cmd) && e == old(next)
    {
      e := next;
      live := live[e := Desc(kind, 1, 0, parent, fd, cmd)];
      next := next + 1;
      if parent.Some? {
        var p := live[parent.value];
        live := live[parent.value := p.(nchildren := p.nchildren + 1)];
      }
    }

    /** One release in the loop of elf_end: the archive loses a member, then the
        descriptor goes. */
    method Drop(e: nat) returns (parent: Option<nat>)
      requires ParentsOk(live) && e in live
      modifies this
      ensures H() == Dropped(old(H()), e) && parent == old(live)[e].parent
    {
      parent := live[e].parent;
      if parent.Some? {
        var p := live[parent.value];
        live := live[parent.value := p.(nchildren := p.nchildren - 1)];
      }
      live := live - {e};
      released := released + [e];
    }

    /** The loop of elf_end. */
    method Reclaim(e: nat)
      requires Linked(H()) && e in live
      modifies this
      ensures H() == Cascade(old(H()), e)
    {
      var cur := Some(e);
      while cur.Some? && live[cur.value].activations == 0
        invariant cur.Some? ==> cur.value in live && Linked(H()) && Cascade(H(), cur.value) == Cascade(old(H()), e)
        invariant cur.None? ==> H() == Cascade(old(H()), e)
        decreases if cur.Some? then cur.value + 1 else 0
      {
        if live[cur.value].kind.Archive? && live[cur.value].nchildren > 0 {
          return;
        }
        DroppedLinked(H(), cur.value);
        cur := Drop(cur.value);
      }
    }

    method Activate(e: nat, n: nat)
      requires Linked(H()) && e in live
      modifies this`live
      ensures H() == Activated(old(H()), e, n)
    {
      live := live[e := live[e].(activations := n)];
    }

    method EndLive(e: nat) returns (n: nat)
      requires Linked(H()) && e in live
      modifies this
      ensures (H(), n) == Ended(old(H()), e)
    {
      n := 0;
      if live[e].activations > 1 {
        n := live[e].activations - 1;
        Activate(e, n);
      } else if live[e].activations == 1 {
        Activate(e, 0);
        Reclaim(e);
      }
    }

    method End(e: Option<nat>) returns (n: nat)
      requires Linked(H()) && (e.Some? ==> e.value in live)
      modifies this
      ensures e.None? ==> H() == old(H()) && n == 0
      ensures e.Some? ==> (H(), n) == Ended(old(H()), e.value)
    {
      n := 0;
      if e.Some? {
        n := EndLive(e.value);
      }
    }

    method OpenObject(fd: int, c: Cmd, found: Option<Kind>) returns (r: Option<nat>)
      requires Linked(H())
      modifies this
      ensures (H(), r) == OpenFile(old(H()), fd, c, found)
    {
      if found.None? {
        return None;
      }
      OpenedLinked(H(), found.value, None, fd, c);
      var e := Open(found.value, None, fd, c);
      if c == CmdRdwr && found.value == Archive {
        var _ := End(Some(e));
        return None;
      }
      return Some(e);
    }

    method Begin(fd: int, c: Cmd, a: Option<nat>, found: Option<Kind>) returns (r: Option<nat>)
      requires Linked(H()) && (a.Some? ==> a.value in live)
      modifies this
      ensures (H(), r) == Begun(old(H()), fd, c, a, found)
    {
      match c {
        case CmdNull | CmdOther =>
          return None;
        case CmdWrite =>
          if a.Some? || found.None? {
            return None;
          }
          var e := Open(Object, None, fd, c);
          return Some(e);
        case CmdRdwr =>
          if a.Some? {
            return None;
          }
        case CmdRead =>
          if a.Some? && (live[a.value].fd != fd || c != live[a.value].cmd) {
            return None;
          }
      }
      if a.None? {
        r := OpenObject(fd, c, found);
      } else if live[a.value].kind.Archive? {
        if found.None? {
          return None;
        }
        var e := Open(found.value, a, fd, c);
        r := Some(e);
      } else {
        Activate(a.value, live[a.value].activations + 1);
        r := a;
      }
    }
  }
}
