/** Binding port connections in an order that respects the port indices. */
module BindPorts {

  datatype Port = Port(owner: string, name: string, index: nat)

  datatype Key = Key(owner: string, name: string)

  datatype Conn = Conn(from: Port, to: Port)

  datatype Outcome = Bound(made: seq<Conn>) | Unorderable

  function KeyOf(p: Port): Key { Key(p.owner, p.name) }

  function Reverse(c: Conn): Conn { Conn(c.to, c.from) }

  predicate Unique<T(==)>(s: seq<T>) { forall i, j :: 0 <= i < j < |s| ==> s[i] != s[j] }

  /** What the caller provides: every connection in both directions, once each, and
      none from a port to itself. */
  predicate Symmetric(cs: seq<Conn>) {
    && Unique(cs) && (forall c :: c in cs ==> Reverse(c) in cs && c.from != c.to)
  }

  // ---- The ends of the connections made -------------------------------------------

  predicate Touches(c: Conn, p: Port) { c.from == p || c.to == p }

  /** No two of the connections made have a port and index in common. */
  ghost predicate Apart(made: seq<Conn>) {
    forall i, j, p :: 0 <= i < j < |made| && Touches(made[i], p) ==> !Touches(made[j], p)
  }

  /** The indices of a port in the order in which they are bound. */
  function Indices(made: seq<Conn>, k: Key): seq<nat> {
    if made == [] then []
    else
      var c := made[|made| - 1];
      Indices(made[..|made| - 1], k)
        + (if KeyOf(c.from) == k then [c.from.index] else [])
        + (if KeyOf(c.to) == k then [c.to.index] else [])
  }

  function Upto(n: nat): (s: seq<nat>)
    ensures |s| == n && forall i :: 0 <= i < n ==> s[i] == i
  {
    seq(n, i requires 0 <= i => i)
  }

  /** The counters agree with the connections made so far. */
  ghost predicate Counts(made: seq<Conn>, next: map<Key, nat>) {
    && (forall k :: k in next ==> Indices(made, k) == Upto(next[k]))
    && (forall i :: 0 <= i < |made| ==> Counted(made[i].from, next) && Counted(made[i].to, next))
    && Apart(made)
  }

  predicate Counted(p: Port, next: map<Key, nat>) { KeyOf(p) in next && p.index < next[KeyOf(p)] }

  function Incremented(next: map<Key, nat>, c: Conn): map<Key, nat>
    requires KeyOf(c.from) in next && KeyOf(c.to) in next && KeyOf(c.from) != KeyOf(c.to)
  {
    next[KeyOf(c.from) := next[KeyOf(c.from)] + 1][KeyOf(c.to) := next[KeyOf(c.to)] + 1]
  }

  /** Making a connection whose ends are both next in turn. */
  lemma {:induction false} MakeOne(made: seq<Conn>, next: map<Key, nat>, c: Conn)
    requires Counts(made, next) && KeyOf(c.from) in next && KeyOf(c.to) in next && KeyOf(c.from) != KeyOf(c.to)
    requires next[KeyOf(c.from)] == c.from.index && next[KeyOf(c.to)] == c.to.index
    ensures Counts(made + [c], Incremented(next, c))
  {
    var all := made + [c];
    assert all[..|made|] == made;
    var next' := Incremented(next, c);
    forall k | k in next' ensures Indices(all, k) == Upto(next'[k]) {
      assert Upto(next[k]) + [next[k]] == Upto(next[k] + 1);
    }
    forall i, p | 0 <= i < |made| && Touches(made[i], p) ensures !Touches(c, p) {
      assert Counted(p, next);
    }
  }

  // ---- Counting ---------------------------------------------------------------------

  /** Elements of t, each once: at most as many as t has, and all of them if as many. */
  lemma {:induction false} UniqueBound(s: seq<Conn>, t: seq<Conn>)
    requires Unique(s) && Unique(t) && forall c :: c in s ==> c in t
    ensures |s| <= |t|
    ensures |s| == |t| ==> forall c :: c in t ==> c in s
  {
    if s != [] {
      var init, x := s[..|s| - 1], s[|s| - 1];
      assert x in s;
      var k :| 0 <= k < |t| && t[k] == x;
      var rest := t[..k] + t[k + 1..];
      assert forall c :: c in t <==> c in rest || c == x by {
        assert t == t[..k] + [x] + t[k + 1..];
      }
      assert x !in init;
      UniqueBound(init, rest);
    }
  }

  function Reversed(made: seq<Conn>): (r: seq<Conn>)
    ensures |r| == |made| && forall i :: 0 <= i < |made| ==> r[i] == Reverse(made[i])
  {
    seq(|made|, i requires 0 <= i < |made| => Reverse(made[i]))
  }

  /** The connections made and their reverses are all different. */
  lemma {:induction false} BothWays(made: seq<Conn>, cs: seq<Conn>)
    requires Apart(made) && Symmetric(cs) && forall c :: c in made ==> c in cs
    ensures Unique(made + Reversed(made)) && forall c :: c in made + Reversed(made) ==> c in cs
  {
    var s := made + Reversed(made);
    forall i, j | 0 <= i < j < |s| ensures s[i] != s[j] {
      var m, n := if i < |made| then i else i - |made|, if j < |made| then j else j - |made|;
      assert Touches(made[m], s[i].from) && Touches(made[n], s[j].from);
      assert made[m] in cs;
    }
  }

  /** At most one direction of each connection is made; if half of the list is
      made, exactly one is. */
  lemma {:induction false} OneDirection(made: seq<Conn>, cs: seq<Conn>)
    requires Apart(made) && Symmetric(cs) && forall c :: c in made ==> c in cs
    ensures 2 * |made| <= |cs| && Unique(made)
    ensures forall c :: c in made ==> Reverse(c) !in made
    ensures 2 * |made| == |cs| ==> forall c :: c in cs ==> c in made || Reverse(c) in made
  {
    BothWays(made, cs);
    var s := made + Reversed(made);
    UniqueBound(s, cs);
    assert forall i :: 0 <= i < |made| ==> s[i] == made[i];
    forall c | c in made ensures Reverse(c) !in made {
      var i :| 0 <= i < |made| && made[i] == c;
      assert s[|made| + i] == Reverse(c);
      assert forall j :: 0 <= j < |made| ==> s[j] != s[|made| + i];
    }
    forall c | c in Reversed(made) ensures Reverse(c) in made {
      var i :| 0 <= i < |made| && Reversed(made)[i] == c;
      assert made[i] == Reverse(c);
    }
  }

  // ---- Bindings contained in an order -----------------------------------------------

  /** The connections that a mask selects, in the same order. */
  function Pick(order: seq<Conn>, mask: seq<bool>): seq<Conn>
    requires |mask| == |order|
  {
    if order == [] then []
    else
      var n := |order| - 1;
      Pick(order[..n], mask[..n]) + if mask[n] then [order[n]] else []
  }

  /** Each connection is made when both its ends are next in turn. */
  predicate EachInTurn(made: seq<Conn>) {
    made == [] || (EachInTurn(made[..|made| - 1]) && NextFor(made[..|made| - 1], made[|made| - 1]))
  }

  predicate NextFor(made: seq<Conn>, c: Conn) {
    c.from.index == |Indices(made, KeyOf(c.from))| && c.to.index == |Indices(made, KeyOf(c.to))|
  }

  predicate CoversAll(cs: seq<Conn>, made: seq<Conn>) { forall c :: c in cs ==> c in made || Reverse(c) in made }

  /** Some of the connections, in the given order, bind all of them. */
  ghost predicate Bindable(cs: seq<Conn>, order: seq<Conn>) {
    exists mask :: |mask| == |order| && EachInTurn(Pick(order, mask)) && CoversAll(cs, Pick(order, mask))
  }

  predicate Touched(made: seq<Conn>, p: Port) { exists i :: 0 <= i < |made| && Touches(made[i], p) }

  lemma {:induction false} PickFrom(order: seq<Conn>, mask: seq<bool>, c: Conn)
    requires |mask| == |order| && c in Pick(order, mask)
    ensures c in order
  {
    var n := |order| - 1;
    if c in Pick(order[..n], mask[..n]) { PickFrom(order[..n], mask[..n], c); }
  }

  lemma {:induction false} PrefixInTurn(made: seq<Conn>, j: nat)
    requires EachInTurn(made) && j < |made|
    ensures EachInTurn(made[..j]) && NextFor(made[..j], made[j])
  {
    var n := |made| - 1;
    if j < n {
      PrefixInTurn(made[..n], j);
      assert made[..n][..j] == made[..j];
    }
  }

  /** A port that is touched has had its turn. */
  lemma {:induction false} TouchedBelow(made: seq<Conn>, p: Port, i: nat)
    requires EachInTurn(made) && i < |made| && Touches(made[i], p)
    ensures p.index < |Indices(made, KeyOf(p))|
  {
    var n := |made| - 1;
    if i < n { TouchedBelow(made[..n], p, i); }
  }

  /** Every index that has had its turn is touched. */
  lemma {:induction false} BelowTouched(made: seq<Conn>, p: Port)
    requires EachInTurn(made) && NoLoops(made) && p.index < |Indices(made, KeyOf(p))|
    ensures Touched(made, p)
  {
    var n := |made| - 1;
    if p.index < |Indices(made[..n], KeyOf(p))| {
      BelowTouched(made[..n], p);
      var i :| 0 <= i < n && Touches(made[..n][i], p);
      assert Touches(made[i], p);
    } else {
      assert Touches(made[n], p);
    }
  }

  predicate NoLoops(made: seq<Conn>) { forall i :: 0 <= i < |made| ==> made[i].from != made[i].to }

  /** Two connections made in turn have no port in common. */
  lemma {:induction false} InTurnApart(made: seq<Conn>, i: nat, j: nat, p: Port)
    requires EachInTurn(made) && i < j < |made| && Touches(made[i], p)
    ensures !Touches(made[j], p)
  {
    PrefixInTurn(made, j);
    TouchedBelow(made[..j], p, i);
  }

  /** The connection of cs at a port is unique if cs has a binding. */
  lemma {:induction false} OneAtPort(cs: seq<Conn>, made: seq<Conn>, c: Conn, d: Conn, p: Port)
    requires EachInTurn(made) && CoversAll(cs, made) && c in cs && d in cs && Touches(c, p) && Touches(d, p)
    ensures d == c || d == Reverse(c)
  {
    var c', d' := if c in made then c else Reverse(c), if d in made then d else Reverse(d);
    var i :| 0 <= i < |made| && made[i] == c';
    var j :| 0 <= j < |made| && made[j] == d';
    assert Touches(made[i], p) && Touches(made[j], p);
    if i < j { InTurnApart(made, i, j, p); } else if j < i { InTurnApart(made, j, i, p); }
  }

  // ---- The binder -------------------------------------------------------------------

  predicate Covered(cs: seq<Conn>, next: map<Key, nat>) { forall c :: c in cs ==> KeyOf(c.from) in next }

  /** Both ends of c are next in turn. */
  predicate InTurn(c: Conn, next: map<Key, nat>) {
    && KeyOf(c.from) in next && next[KeyOf(c.from)] == c.from.index
    && KeyOf(c.to) in next && next[KeyOf(c.to)] == c.to.index
  }

  /** The connections that are in turn when they are reached, and the counters. */
  function InOrder(order: seq<Conn>, zero: map<Key, nat>): (seq<Conn>, map<Key, nat>) {
    if order == [] then ([], zero)
    else
      var c := order[|order| - 1];
      var (made, next) := InOrder(order[..|order| - 1], zero);
      if InTurn(c, next) && KeyOf(c.from) != KeyOf(c.to) then (made + [c], Incremented(next, c)) else (made, next)
  }

  /** A zero for every port that a connection starts from. */
  function Zero(cs: seq<Conn>): (z: map<Key, nat>)
    ensures Covered(cs, z) && forall k :: k in z ==> z[k] == 0
  {
    if cs == [] then map[] else Zero(cs[..|cs| - 1])[KeyOf(cs[|cs| - 1].from) := 0]
  }

  /** The pass counts as the connections it makes say. */
  lemma {:induction false} InOrderCounts(cs: seq<Conn>, order: seq<Conn>)
    requires Symmetric(cs) && forall c :: c in order ==> c in cs
    ensures var (made, next) := InOrder(order, Zero(cs));
            Covered(cs, next) && Counts(made, next) && forall c :: c in made ==> c in cs
  {
    if order != [] {
      var n := |order| - 1;
      InOrderCounts(cs, order[..n]);
      var (made, next) := InOrder(order[..n], Zero(cs));
      assert order[n] in cs && Reverse(order[n]) in cs;
      if InTurn(order[n], next) && KeyOf(order[n].from) != KeyOf(order[n].to) { MakeOne(made, next, order[n]); }
    }
  }

  /** The pass makes a selection of the order, each connection in turn. */
  lemma {:induction false} InOrderPicks(cs: seq<Conn>, order: seq<Conn>) returns (mask: seq<bool>)
    requires Symmetric(cs) && forall c :: c in order ==> c in cs
    ensures |mask| == |order| && Pick(order, mask) == InOrder(order, Zero(cs)).0 && EachInTurn(Pick(order, mask))
  {
    mask := [];
    if order != [] {
      var n := |order| - 1;
      var m := InOrderPicks(cs, order[..n]);
      InOrderCounts(cs, order[..n]);
      var (made, next) := InOrder(order[..n], Zero(cs));
      var b := InTurn(order[n], next) && KeyOf(order[n].from) != KeyOf(order[n].to);
      mask := m + [b];
      assert mask[..n] == m;
      if b { assert (made + [order[n]])[..|made|] == made; }
    }
  }

  /** The pass has touched every port that any binding touches by then. */
  lemma {:induction false} KeepsUp(cs: seq<Conn>, order: seq<Conn>, mask: seq<bool>, all: seq<Conn>, p: Port)
    requires Symmetric(cs) && (forall c :: c in order ==> c in cs) && |mask| == |order|
    requires EachInTurn(Pick(order, mask)) && EachInTurn(all) && CoversAll(cs, all)
    requires Touched(Pick(order, mask), p)
    ensures Touched(InOrder(order, Zero(cs)).0, p)
    decreases |order|
  {
    var n := |order| - 1;
    var pre, c := Pick(order[..n], mask[..n]), order[n];
    var (made, next) := InOrder(order[..n], Zero(cs));
    assert mask[n] ==> Pick(order, mask)[..|pre|] == pre;
    assert !mask[n] ==> Pick(order, mask) == pre;
    if Touched(pre, p) {
      KeepsUp(cs, order[..n], mask[..n], all, p);
      StaysTouched(made, InOrder(order, Zero(cs)).0, p);
    } else {
      assert Touches(c, p);
      forall q | Touched(pre, q) ensures Touched(made, q) { KeepsUp(cs, order[..n], mask[..n], all, q); }
      InOrderCounts(cs, order[..n]);
      NoLoopsIn(cs, order[..n], mask[..n]);
      CatchesUp(cs, made, next, pre, all, c, p);
      assert c in cs;
      StaysTouched(if InTurn(c, next) then made + [c] else made, InOrder(order, Zero(cs)).0, p);
    }
  }

  /** The binding's next connection is in turn for the pass too, or made already. */
  lemma {:induction false} CatchesUp(cs: seq<Conn>, made: seq<Conn>, next: map<Key, nat>, pre: seq<Conn>,
                                     all: seq<Conn>,
                                     c: Conn, p: Port)
    requires Symmetric(cs) && c in cs && Covered(cs, next) && Counts(made, next) && forall d :: d in made ==> d in cs
    requires EachInTurn(pre) && NoLoops(pre) && NextFor(pre, c) && forall q :: Touched(pre, q) ==> Touched(made, q)
    requires EachInTurn(all) && CoversAll(cs, all) && Touches(c, p)
    ensures KeyOf(c.from) != KeyOf(c.to)
    ensures Touched(if InTurn(c, next) then made + [c] else made, p)
  {
    assert Reverse(c) in cs;
    Reached(made, next, pre, c.from);
    Reached(made, next, pre, c.to);
    if InTurn(c, next) {
      assert (made + [c])[|made|] == c;
    } else {
      var q := if next[KeyOf(c.from)] > c.from.index then c.from else c.to;
      CounterTouched(made, next, q);
      AlreadyMade(cs, all, made, c, q, p);
    }
  }

  lemma {:induction false} StaysTouched(s: seq<Conn>, t: seq<Conn>, p: Port)
    requires s <= t && Touched(s, p)
    ensures Touched(t, p)
  {
    var i :| 0 <= i < |s| && Touches(s[i], p);
    assert Touches(t[i], p);
  }

  lemma {:induction false} NoLoopsIn(cs: seq<Conn>, order: seq<Conn>, mask: seq<bool>)
    requires Symmetric(cs) && (forall c :: c in order ==> c in cs) && |mask| == |order|
    ensures NoLoops(Pick(order, mask))
  {
    forall i | 0 <= i < |Pick(order, mask)| ensures Pick(order, mask)[i].from != Pick(order, mask)[i].to {
      PickFrom(order, mask, Pick(order, mask)[i]);
    }
  }

  /** If the pass keeps up with pre, its counter is not behind. */
  lemma {:induction false} Reached(made: seq<Conn>, next: map<Key, nat>, pre: seq<Conn>, p: Port)
    requires Counts(made, next) && EachInTurn(pre) && NoLoops(pre) && KeyOf(p) in next
    requires p.index == |Indices(pre, KeyOf(p))| && forall q :: Touched(pre, q) ==> Touched(made, q)
    ensures p.index <= next[KeyOf(p)]
  {
    if p.index > 0 {
      var q := p.(index := p.index - 1);
      BelowTouched(pre, q);
      var i :| 0 <= i < |made| && Touches(made[i], q);
      assert Counted(q, next);
    }
  }

  lemma {:induction false} CounterTouched(made: seq<Conn>, next: map<Key, nat>, p: Port)
    requires Counts(made, next) && Counted(p, next)
    ensures Touched(made, p)
  {
    assert Indices(made, KeyOf(p))[p.index] == p.index;
    IndexTouched(made, p);
  }

  lemma {:induction false} IndexTouched(made: seq<Conn>, p: Port)
    requires p.index in Indices(made, KeyOf(p))
    ensures Touched(made, p)
  {
    var n := |made| - 1;
    if p.index in Indices(made[..n], KeyOf(p)) {
      IndexTouched(made[..n], p);
      StaysTouched(made[..n], made, p);
    } else {
      assert Touches(made[n], p);
    }
  }

  /** A port of c that is touched is touched by c, or its reverse. */
  lemma {:induction false} AlreadyMade(cs: seq<Conn>, all: seq<Conn>, made: seq<Conn>, c: Conn, q: Port, p: Port)
    requires EachInTurn(all) && CoversAll(cs, all) && c in cs && (forall d :: d in made ==> d in cs)
    requires Touches(c, q) && Touched(made, q) && Touches(c, p)
    ensures Touched(made, p) && (c in made || Reverse(c) in made)
  {
    var i :| 0 <= i < |made| && Touches(made[i], q);
    assert made[i] in cs;
    OneAtPort(cs, all, c, made[i], q);
    assert Touches(made[i], p);
  }

  /** If the order contains a binding, the pass makes every connection. */
  lemma {:induction false} MakesEach(cs: seq<Conn>, order: seq<Conn>, mask: seq<bool>, c: Conn)
    requires Symmetric(cs) && (forall d :: d in order ==> d in cs) && |mask| == |order| && c in cs
    requires EachInTurn(Pick(order, mask)) && CoversAll(cs, Pick(order, mask))
    ensures var made := InOrder(order, Zero(cs)).0; c in made || Reverse(c) in made
  {
    var all, made := Pick(order, mask), InOrder(order, Zero(cs)).0;
    var i :| 0 <= i < |all| && (all[i] == c || all[i] == Reverse(c));
    assert Touches(all[i], c.from);
    KeepsUp(cs, order, mask, all, c.from);
    InOrderCounts(cs, order);
    AlreadyMade(cs, all, made, c, c.from, c.from);
  }

  lemma {:induction false} BindingFound(cs: seq<Conn>, order: seq<Conn>)
    requires Symmetric(cs) && (forall d :: d in order ==> d in cs) && 2 * |InOrder(order, Zero(cs)).0| == |cs|
    ensures Bindable(cs, order)
  {
    InOrderCounts(cs, order);
    OneDirection(InOrder(order, Zero(cs)).0, cs);
    var mask := InOrderPicks(cs, order);
    assert EachInTurn(Pick(order, mask)) && CoversAll(cs, Pick(order, mask));
  }

  /** The pass makes half of the list if and only if the order contains a binding
      of all connections: taking each connection as soon as it is in turn is never
      worse than waiting. */
  lemma {:induction false} BindsExactly(cs: seq<Conn>, order: seq<Conn>)
    requires Symmetric(cs) && multiset(order) == multiset(cs)
    ensures 2 * |InOrder(order, Zero(cs)).0| == |cs| <==> Bindable(cs, order)
  {
    forall c | c in order ensures c in cs { assert c in multiset(order); }
    if Bindable(cs, order) {
      var mask :| |mask| == |order| && EachInTurn(Pick(order, mask)) && CoversAll(cs, Pick(order, mask));
      var made := InOrder(order, Zero(cs)).0;
      forall c | c in cs ensures c in made || Reverse(c) in made { MakesEach(cs, order, mask, c); }
      InOrderCounts(cs, order);
      AllMade(made, cs);
    } else if 2 * |InOrder(order, Zero(cs)).0| == |cs| {
      BindingFound(cs, order);
    }
  }

  lemma {:induction false} AllMade(made: seq<Conn>, cs: seq<Conn>)
    requires Apart(made) && Symmetric(cs) && (forall c :: c in made ==> c in cs) && CoversAll(cs, made)
    ensures |cs| == 2 * |made|
  {
    BothWays(made, cs);
    var s := made + Reversed(made);
    forall c | c in cs ensures c in s {
      if c in made {
        assert c in s;
      } else {
        var i :| 0 <= i < |made| && made[i] == Reverse(c);
        assert s[|made| + i] == c;
      }
    }
    UniqueBound(cs, s);
    UniqueBound(s, cs);
  }

  /** A counter for every port, at zero. */
  method MarkUp(cs: seq<Conn>) returns (next: map<Key, nat>)
    ensures next == Zero(cs)
  {
    next := map[];
    for i := 0 to |cs|
      invariant next == Zero(cs[..i])
    {
      assert cs[..i + 1][..i] == cs[..i];
      next := next[KeyOf(cs[i].from) := 0];
    }
    assert cs[..|cs|] == cs;
  }

  /** Makes one connection if both its ends are next in turn. */
  method Consider(cs: seq<Conn>, c: Conn, made: seq<Conn>, next: map<Key, nat>)
    returns (made': seq<Conn>, next': map<Key, nat>)
    requires Symmetric(cs) && c in cs && Covered(cs, next) && Counts(made, next)
    ensures Covered(cs, next') && Counts(made', next')
    ensures (made', next') == if InTurn(c, next) && KeyOf(c.from) != KeyOf(c.to) then (made + [c], Incremented(next, c))
                              else (made, next)
  {
    made', next' := made, next;
    assert Reverse(c) in cs;
    if next[KeyOf(c.from)] == c.from.index && next[KeyOf(c.to)] == c.to.index {
      MakeOne(made, next, c);
      made' := made + [c];
      next' := next'[KeyOf(c.from) := next'[KeyOf(c.from)] + 1];
      next' := next'[KeyOf(c.to) := next'[KeyOf(c.to)] + 1];
    }
  }

  /** Binds the connections cs, taken in the given order.  It succeeds exactly when
      that order contains a binding of all of them.  Then one direction of every
      connection is made, and the indices of every port are bound in the order
      0, 1, 2, ... */
  method Bind(cs: seq<Conn>, order: seq<Conn>) returns (r: Outcome)
    requires Symmetric(cs) && multiset(order) == multiset(cs)
    ensures r == if 2 * |InOrder(order, Zero(cs)).0| == |cs| then Bound(InOrder(order, Zero(cs)).0) else Unorderable
    ensures r.Bound? <==> Bindable(cs, order)
    ensures r.Bound? ==> forall c :: c in cs ==> (c in r.made <==> Reverse(c) !in r.made)
    ensures r.Bound? ==> (forall c :: c in r.made ==> c in cs) && Unique(r.made)
    ensures r.Bound? ==> forall c :: c in cs ==>
      Indices(r.made, KeyOf(c.from)) == Upto(|Indices(r.made, KeyOf(c.from))|)
  {
    var next := MarkUp(cs);
    var made := [];
    for i := 0 to |order|
      invariant Covered(cs, next) && Counts(made, next) && forall c :: c in made ==> c in cs
      invariant (made, next) == InOrder(order[..i], Zero(cs))
    {
      assert order[i] in multiset(order);
      assert order[..i + 1][..i] == order[..i];
      made, next := Consider(cs, order[i], made, next);
    }
    assert order[..|order|] == order;
    OneDirection(made, cs);
    BindsExactly(cs, order);
    if 2 * |made| != |cs| {
      return Unorderable;
    }
    r := Bound(made);
  }

  // ---- Sorting is not enough ----------------------------------------------------------

  predicate StringLess(s: string, t: string) {
    t != [] && (s == [] || s[0] < t[0] || (s[0] == t[0] && StringLess(s[1..], t[1..])))
  }

  /** Ports are compared by owner, name and index. */
  predicate PortLess(p: Port, q: Port) {
    || StringLess(p.owner, q.owner)
    || (p.owner == q.owner && (StringLess(p.name, q.name) || (p.name == q.name && p.index < q.index)))
  }

  predicate ConnLess(c: Conn, d: Conn) { PortLess(c.from, d.from) || (c.from == d.from && PortLess(c.to, d.to)) }

  predicate Sorted(order: seq<Conn>) { forall i, j :: 0 <= i < j < |order| ==> ConnLess(order[i], order[j]) }

  /** Port a of the example, at an index. */
  function At(owner: char, index: nat): Port { Port([owner], "port", index) }

  function Link(a: char, i: nat, b: char, j: nat): Conn { Conn(At(a, i), At(b, j)) }

  /** The example: a[0] with b[1], b[0] with c[1], c[0] with d[0], sorted. */
  function Chain(): seq<Conn> {
    [Link('a', 0, 'b', 1), Link('b', 0, 'c', 1), Link('b', 1, 'a', 0),
     Link('c', 0, 'd', 0), Link('c', 1, 'b', 0), Link('d', 0, 'c', 0)]
  }

  /** The same connections, the second half first: this order can be bound. */
  function Unsorted(): seq<Conn> { Chain()[3..] + Chain()[..3] }

  function K(owner: char): Key { Key([owner], "port") }

  /** The counters of the four ports. */
  function Counters(a: nat, b: nat, c: nat, d: nat): map<Key, nat> {
    map[K('a') := a, K('b') := b, K('c') := c, K('d') := d]
  }

  lemma {:induction false} CountersAre(a: nat, b: nat, c: nat, d: nat)
    ensures var m := Counters(a, b, c, d); m[K('a')] == a && m[K('b')] == b && m[K('c')] == c && m[K('d')] == d
    ensures K('a') != K('b') && K('a') != K('c') && K('b') != K('c') && K('c') != K('d') && K('a') != K('d')
    ensures K('b') != K('d')
  {
    assert K('a').owner[0] == 'a' && K('b').owner[0] == 'b' && K('c').owner[0] == 'c' && K('d').owner[0] == 'd';
  }

  lemma {:induction false} Refused(order: seq<Conn>, zero: map<Key, nat>, n: nat, made: seq<Conn>, next: map<Key, nat>)
    requires n < |order| && InOrder(order[..n], zero) == (made, next) && !InTurn(order[n], next)
    ensures InOrder(order[..n + 1], zero) == (made, next)
  {
    assert order[..n + 1][..n] == order[..n];
  }

  lemma {:induction false} Accepted(order: seq<Conn>, zero: map<Key, nat>, n: nat, made: seq<Conn>, next: map<Key, nat>)
    requires n < |order| && InOrder(order[..n], zero) == (made, next) && InTurn(order[n], next)
    requires KeyOf(order[n].from) != KeyOf(order[n].to)
    ensures InOrder(order[..n + 1], zero) == (made + [order[n]], Incremented(next, order[n]))
  {
    assert order[..n + 1][..n] == order[..n];
  }

  lemma {:induction false} ChainStalls()
    ensures |InOrder(Chain(), Counters(0, 0, 0, 0)).0| == 2
  {
    var o, z := Chain(), Counters(0, 0, 0, 0);
    CountersAre(0, 0, 0, 0);
    Refused(o, z, 0, [], z);
    Refused(o, z, 1, [], z);
    Refused(o, z, 2, [], z);
    ChainRest();
  }

  lemma {:induction false} ChainRest()
    requires InOrder(Chain()[..3], Counters(0, 0, 0, 0)) == ([], Counters(0, 0, 0, 0))
    ensures |InOrder(Chain(), Counters(0, 0, 0, 0)).0| == 2
  {
    var o, z := Chain(), Counters(0, 0, 0, 0);
    CountersAre(0, 0, 0, 0);
    Accepted(o, z, 3, [], z);
    CountersAre(0, 0, 1, 1);
    assert Incremented(z, o[3]) == Counters(0, 0, 1, 1);
    Accepted(o, z, 4, [] + [o[3]], Counters(0, 0, 1, 1));
    CountersAre(0, 1, 2, 1);
    assert Incremented(Counters(0, 0, 1, 1), o[4]) == Counters(0, 1, 2, 1);
    Refused(o, z, 5, [] + [o[3]] + [o[4]], Counters(0, 1, 2, 1));
    assert o[..6] == o;
  }

  lemma {:induction false} UnsortedBinds()
    ensures |InOrder(Unsorted(), Counters(0, 0, 0, 0)).0| == 3
  {
    var o, z := Unsorted(), Counters(0, 0, 0, 0);
    CountersAre(0, 0, 0, 0);
    Accepted(o, z, 0, [], z);
    CountersAre(0, 0, 1, 1);
    assert Incremented(z, o[0]) == Counters(0, 0, 1, 1);
    Accepted(o, z, 1, [] + [o[0]], Counters(0, 0, 1, 1));
    CountersAre(0, 1, 2, 1);
    assert Incremented(Counters(0, 0, 1, 1), o[1]) == Counters(0, 1, 2, 1);
    Refused(o, z, 2, [] + [o[0]] + [o[1]], Counters(0, 1, 2, 1));
    UnsortedRest([] + [o[0]] + [o[1]]);
  }

  lemma {:induction false} UnsortedRest(made: seq<Conn>)
    requires InOrder(Unsorted()[..3], Counters(0, 0, 0, 0)) == (made, Counters(0, 1, 2, 1))
    ensures InOrder(Unsorted(), Counters(0, 0, 0, 0)).0 == made + [Unsorted()[3]]
  {
    var o, z, m := Unsorted(), Counters(0, 0, 0, 0), Counters(1, 2, 2, 1);
    CountersAre(0, 1, 2, 1);
    CountersAre(1, 2, 2, 1);
    Accepted(o, z, 3, made, Counters(0, 1, 2, 1));
    assert Incremented(Counters(0, 1, 2, 1), o[3]) == m;
    Refused(o, z, 4, made + [o[3]], m);
    Refused(o, z, 5, made + [o[3]], m);
    assert o[..6] == o;
  }

  lemma {:induction false} ZeroChain()
    ensures Zero(Chain()) == Counters(0, 0, 0, 0)
  {
    var o := Chain();
    assert o[..5] == [o[0], o[1], o[2], o[3], o[4]];
    assert o[..5][..4] == [o[0], o[1], o[2], o[3]] && o[..5][..4][..3] == [o[0], o[1], o[2]];
    assert [o[0], o[1], o[2]][..2] == [o[0], o[1]] && [o[0], o[1]][..1] == [o[0]] && [o[0]][..0] == [];
    assert Zero([o[0]]) == map[K('a') := 0];
    assert Zero([o[0], o[1]]) == map[K('a') := 0, K('b') := 0];
    assert Zero([o[0], o[1], o[2]]) == map[K('a') := 0, K('b') := 0];
    assert Zero([o[0], o[1], o[2], o[3]]) == map[K('a') := 0, K('b') := 0, K('c') := 0];
    assert Zero([o[0], o[1], o[2], o[3], o[4]]) == map[K('a') := 0, K('b') := 0, K('c') := 0];
  }

  lemma {:induction false} ChainSorted()
    ensures Sorted(Chain())
  {
    CountersAre(0, 0, 0, 0);
  }

  lemma {:induction false} ChainSymmetric()
    ensures Symmetric(Chain())
  {
    var cs := Chain();
    CountersAre(0, 0, 0, 0);
    forall c | c in cs ensures Reverse(c) in cs && c.from != c.to {
      assert cs[2] == Reverse(cs[0]) && cs[4] == Reverse(cs[1]) && cs[5] == Reverse(cs[3]);
    }
  }

  lemma {:induction false} RotatedSame(s: seq<Conn>, k: nat)
    requires k <= |s|
    ensures multiset(s[k..] + s[..k]) == multiset(s)
  {
    assert s == s[..k] + s[k..];
  }

  lemma {:induction false} CountDecides(cs: seq<Conn>, order: seq<Conn>, zero: map<Key, nat>, n: nat)
    requires Symmetric(cs) && multiset(order) == multiset(cs) && Zero(cs) == zero && |InOrder(order, zero).0| == n
    ensures Bindable(cs, order) <==> 2 * n == |cs|
  {
    BindsExactly(cs, order);
  }

  /** A list of connections that can be bound in some order, but not in the sorted
      one. */
  lemma {:induction false} SortingIsNotEnough()
    ensures Symmetric(Chain()) && Sorted(Chain()) && multiset(Unsorted()) == multiset(Chain())
    ensures !Bindable(Chain(), Chain()) && Bindable(Chain(), Unsorted())
  {
    ChainSorted();
    ChainSymmetric();
    ZeroChain();
    RotatedSame(Chain(), 3);
    assert !Bindable(Chain(), Chain()) by {
      ChainStalls();
      CountDecides(Chain(), Chain(), Counters(0, 0, 0, 0), 2);
    }
    UnsortedBinds();
    CountDecides(Chain(), Unsorted(), Counters(0, 0, 0, 0), 3);
  }
}
