/** The print queue of the pipeline viewer: instructions arrive out of order, are
    sorted when the queue is full and printed until it is short enough. */
module PipeView {

  /** An instruction: sequence number, fetch tick and retire tick. */
  datatype Inst = Inst(sn: int, fetch: int, retire: int)

  datatype Bounds = Bounds(snStart: int, snStop: int, tickStart: int, tickStop: int, onlyCommitted: bool)

  predicate Shown(b: Bounds, x: Inst) {
    && !(b.snStart > 0 && x.sn < b.snStart) && !(b.snStop > 0 && x.sn > b.snStop)
    && !(b.tickStart > 0 && x.fetch < b.tickStart) && !(b.tickStop > 0 && x.fetch > b.tickStop)
    && !(b.onlyCommitted && x.retire == 0)
  }

  /** The instruction meets every bound that is set. */
  predicate Meets(b: Bounds, x: Inst) {
    && (b.snStart > 0 ==> b.snStart <= x.sn) && (b.snStop > 0 ==> x.sn <= b.snStop)
    && (b.tickStart > 0 ==> b.tickStart <= x.fetch) && (b.tickStop > 0 ==> x.fetch <= b.tickStop)
    && (b.onlyCommitted ==> x.retire != 0)
  }

  lemma {:induction false} ShownExactly(b: Bounds, x: Inst)
    ensures Shown(b, x) <==> Meets(b, x)
  {
  }

  function Filter(b: Bounds, s: seq<Inst>): seq<Inst> {
    if s == [] then []
    else Filter(b, s[..|s| - 1]) + if Shown(b, s[|s| - 1]) then [s[|s| - 1]] else []
  }

  lemma {:induction false} FilterConcat(b: Bounds, s: seq<Inst>, t: seq<Inst>)
    ensures Filter(b, s + t) == Filter(b, s) + Filter(b, t)
  {
    if t == [] {
      assert s + t == s;
    } else {
      assert (s + t)[..|s + t| - 1] == s + t[..|t| - 1];
      FilterConcat(b, s, t[..|t| - 1]);
    }
  }

  lemma {:induction false} FilterCount(b: Bounds, s: seq<Inst>, x: Inst)
    ensures multiset(Filter(b, s))[x] == if Meets(b, x) then multiset(s)[x] else 0
  {
    ShownExactly(b, x);
    if s != [] {
      FilterCount(b, s[..|s| - 1], x);
      assert s == s[..|s| - 1] + [s[|s| - 1]];
    }
  }

  // ---- Sorting by sequence number -----------------------------------------------

  predicate Ordered(s: seq<Inst>) {
    forall i, j :: 0 <= i < j < |s| ==> s[i].sn <= s[j].sn
  }

  /** No element of s is above one of t. */
  predicate Leq(s: seq<Inst>, t: seq<Inst>) {
    forall i, j :: 0 <= i < |s| && 0 <= j < |t| ==> s[i].sn <= t[j].sn
  }

  /** x put before the first element with a larger number. */
  function Insert(s: seq<Inst>, x: Inst): seq<Inst> {
    if s == [] then [x] else if s[|s| - 1].sn <= x.sn then s + [x] else Insert(s[..|s| - 1], x) + [s[|s| - 1]]
  }

  function Sorted(s: seq<Inst>): seq<Inst> {
    if s == [] then [] else Insert(Sorted(s[..|s| - 1]), s[|s| - 1])
  }

  lemma {:induction false} InsertPermutes(s: seq<Inst>, x: Inst)
    ensures multiset(Insert(s, x)) == multiset(s) + multiset{x}
  {
    if s != [] {
      DropLast(s);
      if s[|s| - 1].sn > x.sn { InsertPermutes(s[..|s| - 1], x); }
    }
  }

  lemma {:induction false} InsertOrders(s: seq<Inst>, x: Inst)
    requires Ordered(s)
    ensures Ordered(Insert(s, x))
  {
    if s != [] && s[|s| - 1].sn > x.sn {
      InsertOrders(s[..|s| - 1], x);
      InsertBound(s[..|s| - 1], x, s[|s| - 1].sn);
    }
  }

  lemma {:induction false} InsertBound(s: seq<Inst>, x: Inst, n: int)
    requires x.sn <= n && forall i :: 0 <= i < |s| ==> s[i].sn <= n
    ensures forall i :: 0 <= i < |Insert(s, x)| ==> Insert(s, x)[i].sn <= n
  {
    if s != [] { InsertBound(s[..|s| - 1], x, n); }
  }

  lemma {:induction false} DropLast(s: seq<Inst>)
    requires s != []
    ensures multiset(s) == multiset(s[..|s| - 1]) + multiset{s[|s| - 1]}
  {
    assert s == s[..|s| - 1] + [s[|s| - 1]];
  }

  lemma {:induction false} SortedOk(s: seq<Inst>)
    ensures Ordered(Sorted(s)) && multiset(Sorted(s)) == multiset(s) && |Sorted(s)| == |s|
  {
    if s != [] {
      var init := s[..|s| - 1];
      SortedOk(init);
      InsertPermutes(Sorted(init), s[|s| - 1]);
      InsertOrders(Sorted(init), s[|s| - 1]);
      DropLast(s);
    }
    assert |multiset(Sorted(s))| == |Sorted(s)| && |multiset(s)| == |s|;
  }

  predicate Distinct(s: seq<Inst>) {
    forall i, j :: 0 <= i < j < |s| ==> s[i].sn != s[j].sn
  }

  /** With distinct numbers there is only one order. */
  lemma {:induction false} OrderUnique(s: seq<Inst>, t: seq<Inst>)
    requires Ordered(s) && Ordered(t) && multiset(s) == multiset(t) && Distinct(s)
    ensures s == t
  {
    SameLength(s, t);
    if s != [] {
      var n := |s| - 1;
      LastEqual(s, t);
      SameInit(s, t);
      OrderUnique(s[..n], t[..n]);
      assert s == s[..n] + [s[n]];
      assert t == t[..n] + [t[n]];
    }
  }

  lemma {:induction false} SameLength(s: seq<Inst>, t: seq<Inst>)
    requires multiset(s) == multiset(t)
    ensures |s| == |t|
  {
    assert |multiset(s)| == |s| && |multiset(t)| == |t|;
  }

  lemma {:induction false} SameInit(s: seq<Inst>, t: seq<Inst>)
    requires multiset(s) == multiset(t) && |s| == |t| > 0 && s[|s| - 1] == t[|t| - 1]
    ensures multiset(s[..|s| - 1]) == multiset(t[..|t| - 1])
  {
    DropLast(s);
    DropLast(t);
    assert multiset(s[..|s| - 1]) == multiset(s) - multiset{s[|s| - 1]};
    assert multiset(t[..|t| - 1]) == multiset(t) - multiset{t[|t| - 1]};
  }

  lemma {:induction false} LastEqual(s: seq<Inst>, t: seq<Inst>)
    requires Ordered(s) && Ordered(t) && multiset(s) == multiset(t) && Distinct(s) && |s| == |t| > 0
    ensures s[|s| - 1] == t[|t| - 1]
  {
    var n := |s| - 1;
    assert t[n] in multiset(t) && s[n] in multiset(s);
    var i :| 0 <= i < |s| && s[i] == t[n];
    var j :| 0 <= j < |t| && t[j] == s[n];
    assert s[n].sn == t[j].sn <= t[n].sn == s[i].sn;
    assert s[i].sn == s[n].sn;
  }

  // ---- How far out of order -------------------------------------------------------

  /** How many elements of s have a larger number than n. */
  function Larger(s: seq<Inst>, n: int): nat {
    if s == [] then 0 else Larger(s[..|s| - 1], n) + if s[|s| - 1].sn > n then 1 else 0
  }

  lemma {:induction false} LargerConcat(s: seq<Inst>, t: seq<Inst>, n: int)
    ensures Larger(s + t, n) == Larger(s, n) + Larger(t, n)
  {
    if t == [] {
      assert s + t == s;
    } else {
      assert (s + t)[..|s + t| - 1] == s + t[..|t| - 1];
      LargerConcat(s, t[..|t| - 1], n);
    }
  }

  lemma {:induction false} LargerAll(s: seq<Inst>, n: int)
    requires forall x :: x in s ==> x.sn > n
    ensures Larger(s, n) == |s|
  {
    if s != [] { LargerAll(s[..|s| - 1], n); }
  }

  function Without(t: seq<Inst>, k: nat): seq<Inst>
    requires k < |t|
  {
    t[..k] + t[k + 1..]
  }

  lemma {:induction false} LargerWithout(t: seq<Inst>, k: nat, n: int)
    requires k < |t|
    ensures Larger(t, n) == Larger(Without(t, k), n) + if t[k].sn > n then 1 else 0
  {
    var a, b := t[..k], t[k + 1..];
    assert t == (a + [t[k]]) + b;
    LargerConcat(a, b, n);
    LargerConcat(a + [t[k]], b, n);
    LargerConcat(a, [t[k]], n);
    assert [t[k]][..0] == [];
  }

  lemma {:induction false} MultisetWithout(t: seq<Inst>, k: nat)
    requires k < |t|
    ensures multiset(Without(t, k)) == multiset(t) - multiset{t[k]}
  {
    assert t == t[..k] + [t[k]] + t[k + 1..];
  }

  lemma {:induction false} LargerSame(s: seq<Inst>, t: seq<Inst>, n: int)
    requires multiset(s) == multiset(t)
    ensures Larger(s, n) == Larger(t, n)
    decreases |s|
  {
    SameLength(s, t);
    if s != [] {
      var last := |s| - 1;
      assert s[last] in multiset(t);
      var k :| 0 <= k < |t| && t[k] == s[last];
      MultisetWithout(s, last);
      MultisetWithout(t, k);
      LargerSame(Without(s, last), Without(t, k), n);
      LargerWithout(s, last, n);
      LargerWithout(t, k, n);
    }
  }

  lemma {:induction false} LargerMost(s: seq<Inst>, n: int)
    ensures Larger(s, n) <= |s|
  {
    if s != [] { LargerMost(s[..|s| - 1], n); }
  }

  lemma {:induction false} LargerSome(s: seq<Inst>, n: int) returns (k: nat)
    requires Larger(s, n) > 0
    ensures k < |s| && s[k].sn > n
  {
    if s[|s| - 1].sn > n { k := |s| - 1; } else { k := LargerSome(s[..|s| - 1], n); }
  }

  lemma {:induction false} LargerSuffix(s: seq<Inst>, k: nat, n: int)
    requires Ordered(s) && k < |s| && s[k].sn > n
    ensures Larger(s, n) >= |s| - k
  {
    assert s == s[..k] + s[k..];
    LargerConcat(s[..k], s[k..], n);
    LargerAll(s[k..], n);
  }

  lemma {:induction false} LargerPrefix(xs: seq<Inst>, i: nat, j: nat, n: int)
    requires i <= j <= |xs|
    ensures Larger(xs[..i], n) <= Larger(xs[..j], n)
  {
    assert xs[..j] == xs[..i] + xs[i..j];
    LargerConcat(xs[..i], xs[i..j], n);
  }

  // ---- The queue after n arrivals ---------------------------------------------------

  /** The two thresholds of the queue. */
  datatype Limits = Limits(max: nat, min: nat) {
    /** The longest the queue gets without being shortened. */
    function Top(): nat { if max > min then max else min }

    /** The n-th arrival makes the viewer take instructions from the queue: the
        first time when the queue exceeds both thresholds, then periodically. */
    predicate FlushAt(n: nat) { n > Top() && (n - Top() - 1) % (Top() + 1 - min) == 0 }
  }

  /** Sorting q and taking from the front until m are left. */
  function Taken(q: seq<Inst>, m: nat): (r: (seq<Inst>, seq<Inst>))
    ensures r.0 + r.1 == Sorted(q)
  {
    var k := if |Sorted(q)| > m then |Sorted(q)| - m else 0;
    (Sorted(q)[..k], Sorted(q)[k..])
  }

  /** What one arrival takes from the queue and what it leaves. */
  function Arrival(q: seq<Inst>, x: Inst, l: Limits): (seq<Inst>, seq<Inst>) {
    if |q| + 1 > l.max then Taken(q + [x], l.min) else ([], q + [x])
  }

  /** The instructions taken so far and those queued. */
  datatype State = State(popped: seq<Inst>, queue: seq<Inst>)

  function Next(s: State, x: Inst, l: Limits): State {
    State(s.popped + Arrival(s.queue, x, l).0, Arrival(s.queue, x, l).1)
  }

  function After(xs: seq<Inst>, n: nat, l: Limits): State
    requires n <= |xs|
  {
    if n == 0 then State([], []) else Next(After(xs, n - 1, l), xs[n - 1], l)
  }

  /** The order in which the whole trace leaves the queue. */
  function Popped(xs: seq<Inst>, l: Limits): seq<Inst> {
    After(xs, |xs|, l).popped + Sorted(After(xs, |xs|, l).queue)
  }

  lemma {:induction false} TakenAll(q: seq<Inst>)
    ensures Taken(q, 0).0 == Sorted(q) && Taken(q, 0).1 == []
  {
  }

  lemma {:induction false} TakenParts(q: seq<Inst>, m: nat)
    ensures var (t, r) := Taken(q, m);
            && Ordered(t) && multiset(t + r) == multiset(q) && |r| == (if |q| > m then m else |q|)
            && Leq(t, r)
  {
    SortedOk(q);
  }

  /** One arrival: nothing is lost, and something is taken only above both thresholds. */
  lemma {:induction false} ArrivalParts(q: seq<Inst>, x: Inst, l: Limits)
    ensures var (t, r) := Arrival(q, x, l);
            && multiset(t) + multiset(r) == multiset(q) + multiset{x}
            && |r| == (if |q| + 1 > l.Top() then l.min else |q| + 1) && (t != [] <==> |q| + 1 > l.Top())
  {
    TakenParts(q + [x], l.min);
    var (t, r) := Arrival(q, x, l);
    assert multiset(t + r) == multiset(q + [x]);
    assert |multiset(t) + multiset(r)| == |t| + |r| && |multiset(q) + multiset{x}| == |q| + 1;
  }

  /** Each of the first n of xs has left or is queued, once. */
  ghost predicate Accounted(xs: seq<Inst>, n: nat, s: State)
    requires n <= |xs|
  {
    multiset(s.popped) + multiset(s.queue) == multiset(xs[..n])
  }

  lemma {:induction false} NextSame(xs: seq<Inst>, n: nat, s: State, l: Limits)
    requires n < |xs| && Accounted(xs, n, s)
    ensures Accounted(xs, n + 1, Next(s, xs[n], l))
  {
    ArrivalParts(s.queue, xs[n], l);
    var (t, r) := Arrival(s.queue, xs[n], l);
    assert xs[..n + 1] == xs[..n] + [xs[n]];
    assert multiset(s.popped + t) + multiset(r) == multiset(s.popped) + (multiset(t) + multiset(r));
    assert multiset(s.popped) + (multiset(s.queue) + multiset{xs[n]}) == multiset(xs[..n]) + multiset{xs[n]};
  }

  lemma {:induction false} AfterSame(xs: seq<Inst>, n: nat, l: Limits)
    requires n <= |xs|
    ensures Accounted(xs, n, After(xs, n, l))
  {
    if n > 0 {
      AfterSame(xs, n - 1, l);
      NextSame(xs, n - 1, After(xs, n - 1, l), l);
    }
  }

  lemma {:induction false} PoppedSame(xs: seq<Inst>, l: Limits)
    ensures multiset(Popped(xs, l)) == multiset(xs)
  {
    AfterSame(xs, |xs|, l);
    SortedOk(After(xs, |xs|, l).queue);
    assert xs[..|xs|] == xs;
  }

  lemma {:induction false} ModNext(a: nat, p: nat)
    requires p > 0
    ensures (a + 1) % p == if a % p == p - 1 then 0 else a % p + 1
  {
    var q, r := a / p, a % p;
    if r == p - 1 {
      assert a + 1 == (q + 1) * p;
      ModUnique(a + 1, p, q + 1, 0);
    } else {
      ModUnique(a + 1, p, q, r + 1);
    }
  }

  lemma {:induction false} ModUnique(a: nat, p: nat, q: nat, r: nat)
    requires p > 0 && a == q * p + r && r < p
    ensures a % p == r
  {
    var d: int := a / p - q;
    assert a / p * p == q * p + d * p;
    assert d * p == r - a % p;
    assert d > 0 ==> d * p >= p;
    assert d < 0 ==> d * p <= 0 - p;
  }

  /** How long the queue is after n arrivals. */
  function Length(n: nat, l: Limits): nat {
    if n <= l.Top() then n else l.min + (n - l.Top() - 1) % (l.Top() + 1 - l.min)
  }

  lemma {:induction false} LengthNext(n: nat, l: Limits)
    ensures Length(n + 1, l) == if Length(n, l) + 1 > l.Top() then l.min else Length(n, l) + 1
    ensures l.FlushAt(n + 1) <==> Length(n, l) + 1 > l.Top()
  {
    if n > l.Top() { ModNext(n - l.Top() - 1, l.Top() + 1 - l.min); }
  }

  lemma {:induction false} LengthStep(q: seq<Inst>, x: Inst, l: Limits, n: nat)
    requires |q| == Length(n, l)
    ensures |Arrival(q, x, l).1| == Length(n + 1, l)
  {
    ArrivalParts(q, x, l);
    LengthNext(n, l);
  }

  /** The length of the queue depends on the number of arrivals only. */
  lemma {:induction false} QueueLength(xs: seq<Inst>, n: nat, l: Limits)
    requires n <= |xs|
    ensures |After(xs, n, l).queue| == Length(n, l)
  {
    if n > 0 {
      QueueLength(xs, n - 1, l);
      LengthStep(After(xs, n - 1, l).queue, xs[n - 1], l, n - 1);
    }
  }

  /** Instructions are taken from the queue exactly at the arrivals `FlushAt` names. */
  lemma {:induction false} TakesExactly(xs: seq<Inst>, n: nat, l: Limits)
    requires n < |xs|
    ensures Arrival(After(xs, n, l).queue, xs[n], l).0 != [] <==> l.FlushAt(n + 1)
  {
    QueueLength(xs, n, l);
    ArrivalParts(After(xs, n, l).queue, xs[n], l);
    LengthNext(n, l);
  }

  // ---- When the trace leaves in order -------------------------------------------------

  /** Whenever the viewer flushes, no instruction still to come is preceded by more
      than the lower threshold of larger ones that have arrived. */
  predicate InTime(xs: seq<Inst>, l: Limits) {
    forall n, j :: 0 < n <= j < |xs| && l.FlushAt(n) ==> Larger(xs[..n], xs[j].sn) <= l.min
  }

  /** After the first n of xs, nothing queued or still to come is below what has left. */
  ghost predicate InStep(xs: seq<Inst>, n: nat, s: State)
    requires n <= |xs|
  {
    Ordered(s.popped) && Leq(s.popped, s.queue) && Leq(s.popped, xs[n..])
  }

  /** An instruction taken while m stay behind is not larger than any still to
      come, if at most m larger ones have arrived. */
  lemma {:induction false} TakenBelow(seen: seq<Inst>, popped: seq<Inst>, q: seq<Inst>, m: nat, p: Inst, n: int)
    requires multiset(popped) + multiset(q) == multiset(seen) && Larger(seen, n) <= m && p in Taken(q, m).0
    ensures p.sn <= n
  {
    SortedOk(q);
    var k :| 0 <= k < |Taken(q, m).0| && Taken(q, m).0[k] == p;
    if p.sn > n {
      LargerSuffix(Sorted(q), k, n);
      LargerSame(Sorted(q), q, n);
      LargerConcat(popped, q, n);
      LargerSame(popped + q, seen, n);
    }
  }

  lemma {:induction false} LeqSame(s: seq<Inst>, t: seq<Inst>, u: seq<Inst>)
    requires Leq(s, t) && multiset(t) == multiset(u)
    ensures Leq(s, u)
  {
    forall i, j | 0 <= i < |s| && 0 <= j < |u| ensures s[i].sn <= u[j].sn {
      assert u[j] in multiset(t);
      var k :| 0 <= k < |t| && t[k] == u[j];
    }
  }

  lemma {:induction false} TakenAbove(popped: seq<Inst>, q: seq<Inst>, m: nat)
    requires Ordered(popped) && Leq(popped, q)
    ensures var (t, r) := Taken(q, m); Ordered(popped + t) && Leq(popped + t, r)
  {
    TakenParts(q, m);
    var (t, r) := Taken(q, m);
    LeqSame(popped, q, t + r);
    forall i, j | 0 <= i < |popped| && 0 <= j < |t| ensures popped[i].sn <= t[j].sn { assert t[j] == (t + r)[j]; }
    forall i, j | 0 <= i < |popped| && 0 <= j < |r| ensures popped[i].sn <= r[j].sn { assert r[j] == (t + r)[|t| + j]; }
  }

  lemma {:induction false} FlushInStep(xs: seq<Inst>, n: nat, s: State, m: nat)
    requires n < |xs| && InStep(xs, n, s) && Accounted(xs, n, s)
    requires forall j :: n < j < |xs| ==> Larger(xs[..n + 1], xs[j].sn) <= m
    ensures var (t, r) := Taken(s.queue + [xs[n]], m); InStep(xs, n + 1, State(s.popped + t, r))
  {
    var q := s.queue + [xs[n]];
    var t := Taken(q, m).0;
    assert xs[n..][0] == xs[n];
    TakenAbove(s.popped, q, m);
    assert xs[..n + 1] == xs[..n] + [xs[n]];
    var all, rest := s.popped + t, xs[n + 1..];
    assert rest == xs[n..][1..];
    forall i, j | 0 <= i < |all| && 0 <= j < |rest| ensures all[i].sn <= rest[j].sn {
      if i >= |s.popped| { TakenBelow(xs[..n + 1], s.popped, q, m, all[i], xs[n + 1 + j].sn); }
    }
  }

  lemma {:induction false} WaitInStep(xs: seq<Inst>, n: nat, s: State, q: seq<Inst>)
    requires n < |xs| && InStep(xs, n, s) && multiset(q) == multiset(s.queue + [xs[n]])
    ensures InStep(xs, n + 1, State(s.popped, q))
  {
    assert xs[n..][0] == xs[n] && xs[n + 1..] == xs[n..][1..];
    LeqSame(s.popped, s.queue + [xs[n]], q);
  }

  lemma {:induction false} NextInStep(xs: seq<Inst>, n: nat, s: State, l: Limits)
    requires n < |xs| && InTime(xs, l) && s == After(xs, n, l) && InStep(xs, n, s)
    ensures InStep(xs, n + 1, Next(s, xs[n], l))
  {
    AfterSame(xs, n, l);
    TakesExactly(xs, n, l);
    var (t, r) := Arrival(s.queue, xs[n], l);
    if l.FlushAt(n + 1) {
      FlushInStep(xs, n, s, l.min);
    } else {
      ArrivalParts(s.queue, xs[n], l);
      assert s.popped + t == s.popped;
      WaitInStep(xs, n, s, r);
    }
  }

  lemma {:induction false} StaysInStep(xs: seq<Inst>, n: nat, l: Limits)
    requires n <= |xs| && InTime(xs, l)
    ensures InStep(xs, n, After(xs, n, l))
  {
    if n > 0 {
      StaysInStep(xs, n - 1, l);
      NextInStep(xs, n - 1, After(xs, n - 1, l), l);
    }
  }

  /** What has been taken stays in front. */
  lemma {:induction false} TakenFirst(xs: seq<Inst>, n: nat, m: nat, l: Limits)
    requires n <= m <= |xs|
    ensures After(xs, n, l).popped <= After(xs, m, l).popped
  {
    if n < m { TakenFirst(xs, n, m - 1, l); }
  }

  lemma {:induction false} FoundLater(all: seq<Inst>, popped: seq<Inst>, q: seq<Inst>, xs: seq<Inst>, n: nat, j: nat)
    returns (k: nat)
    requires popped <= all && multiset(all) == multiset(xs) && n <= j < |xs|
    requires multiset(popped) + multiset(q) == multiset(xs[..n])
    ensures |popped| <= k < |all| && all[k] == xs[j]
  {
    var rest := all[|popped|..];
    assert all == popped + rest && xs == xs[..n] + xs[n..] && xs[j] == xs[n..][j - n];
    assert multiset(all) == multiset(popped) + multiset(rest) && multiset(xs) == multiset(xs[..n]) + multiset(xs[n..]);
    assert (multiset(popped) + multiset(q))[xs[j]] == multiset(popped)[xs[j]] + multiset(q)[xs[j]];
    assert (multiset(popped) + multiset(rest))[xs[j]] == multiset(popped)[xs[j]] + multiset(rest)[xs[j]];
    assert xs[j] in multiset(xs[n..]) && xs[j] in multiset(rest);
    var i :| 0 <= i < |rest| && rest[i] == xs[j];
    k := |popped| + i;
  }

  lemma {:induction false} LeavesLater(xs: seq<Inst>, n: nat, j: nat, l: Limits) returns (k: nat)
    requires n <= j < |xs|
    ensures |After(xs, n, l).popped| <= k < |Popped(xs, l)| && Popped(xs, l)[k] == xs[j]
    ensures After(xs, n, l).popped <= Popped(xs, l)
  {
    var State(popped, q) := After(xs, n, l);
    TakenFirst(xs, n, |xs|, l);
    PoppedSame(xs, l);
    AfterSame(xs, n, l);
    k := FoundLater(Popped(xs, l), popped, q, xs, n, j);
  }

  /** If more are larger than the queue can hold, one of them has left. */
  lemma {:induction false} OneHasLeft(seen: seq<Inst>, s: State, n: int) returns (i: nat)
    requires multiset(s.popped) + multiset(s.queue) == multiset(seen) && Larger(seen, n) > |s.queue|
    ensures i < |s.popped| && s.popped[i].sn > n
  {
    assert multiset(s.popped + s.queue) == multiset(seen);
    LargerSame(s.popped + s.queue, seen, n);
    LargerConcat(s.popped, s.queue, n);
    LargerMost(s.queue, n);
    i := LargerSome(s.popped, n);
  }

  lemma {:induction false} NotOrdered(all: seq<Inst>, popped: seq<Inst>, i: nat, k: nat)
    requires popped <= all && i < |popped| <= k < |all| && popped[i].sn > all[k].sn
    ensures !Ordered(all)
  {
    assert all[i] == popped[i];
  }

  /** If more than the lower threshold are larger, one of them has left too early. */
  lemma {:induction false} LeftTooEarly(xs: seq<Inst>, n: nat, j: nat, l: Limits)
    requires 0 < n <= j < |xs| && l.FlushAt(n) && Larger(xs[..n], xs[j].sn) > l.min
    ensures !Ordered(Popped(xs, l))
  {
    QueueLength(xs, n, l);
    AfterSame(xs, n, l);
    var i := OneHasLeft(xs[..n], After(xs, n, l), xs[j].sn);
    var k := LeavesLater(xs, n, j, l);
    NotOrdered(Popped(xs, l), After(xs, n, l).popped, i, k);
  }

  /** The trace leaves the queue in order if and only if no instruction is late. */
  lemma {:induction false} OrderedExactly(xs: seq<Inst>, l: Limits)
    ensures Ordered(Popped(xs, l)) <==> InTime(xs, l)
  {
    if InTime(xs, l) {
      StaysInStep(xs, |xs|, l);
      var State(popped, q) := After(xs, |xs|, l);
      TakenAbove(popped, q, 0);
      TakenAll(q);
    } else {
      var n, j :| 0 < n <= j < |xs| && l.FlushAt(n) && Larger(xs[..n], xs[j].sn) > l.min;
      LeftTooEarly(xs, n, j, l);
    }
  }

  /** Each instruction is preceded on arrival by at most m with larger numbers. */
  predicate NearlyOrdered(xs: seq<Inst>, m: nat) {
    forall i :: 0 <= i < |xs| ==> Larger(xs[..i], xs[i].sn) <= m
  }

  lemma {:induction false} NearlyInTime(xs: seq<Inst>, l: Limits)
    requires NearlyOrdered(xs, l.min)
    ensures InTime(xs, l)
  {
    forall n, j | 0 < n <= j < |xs| && l.FlushAt(n) ensures Larger(xs[..n], xs[j].sn) <= l.min {
      LargerPrefix(xs, n, j, xs[j].sn);
    }
  }

  // ---- When the output is in order ------------------------------------------------------

  /** An instruction that is shown comes after a larger one that is shown and has left:
      at the time of a flush at least as many as the lower threshold exceed that one. */
  predicate ShownLate(b: Bounds, xs: seq<Inst>, l: Limits, n: nat, i: nat, j: nat) {
    && i < n <= j < |xs| && l.FlushAt(n) && Shown(b, xs[i]) && Shown(b, xs[j])
    && xs[j].sn < xs[i].sn && Larger(xs[..n], xs[i].sn) >= l.min
  }

  predicate ShowsInTime(b: Bounds, xs: seq<Inst>, l: Limits) {
    forall n, i, j :: 0 <= i < n <= j < |xs| ==> !ShownLate(b, xs, l, n, i, j)
  }

  /** The shown elements of s are in order. */
  predicate ShownOrdered(b: Bounds, s: seq<Inst>) {
    forall i, j :: 0 <= i < j < |s| && Shown(b, s[i]) && Shown(b, s[j]) ==> s[i].sn <= s[j].sn
  }

  lemma {:induction false} InFilter(b: Bounds, s: seq<Inst>, x: Inst)
    ensures x in Filter(b, s) <==> x in s && Shown(b, x)
  {
    if s != [] {
      InFilter(b, s[..|s| - 1], x);
      assert s == s[..|s| - 1] + [s[|s| - 1]];
    }
  }

  lemma {:induction false} OrderedLast(s: seq<Inst>, x: Inst)
    ensures Ordered(s + [x]) <==> Ordered(s) && forall y :: y in s ==> y.sn <= x.sn
  {
    if Ordered(s + [x]) {
      forall i, j | 0 <= i < j < |s| ensures s[i].sn <= s[j].sn {
        assert s[i] == (s + [x])[i] && s[j] == (s + [x])[j];
      }
      forall y | y in s ensures y.sn <= x.sn {
        var i :| 0 <= i < |s| && s[i] == y;
        assert (s + [x])[i] == y && (s + [x])[|s|] == x;
      }
    }
  }

  lemma {:induction false} ShownLast(b: Bounds, s: seq<Inst>)
    requires s != []
    ensures var init, x := s[..|s| - 1], s[|s| - 1];
            ShownOrdered(b, s) <==>
            ShownOrdered(b, init) && (Shown(b, x) ==> forall y :: y in init && Shown(b, y) ==> y.sn <= x.sn)
  {
    var init, x := s[..|s| - 1], s[|s| - 1];
    if ShownOrdered(b, s) {
      forall y | y in init && Shown(b, y) && Shown(b, x) ensures y.sn <= x.sn {
        var i :| 0 <= i < |init| && init[i] == y;
        assert s[i] == y;
      }
    } else {
      var i, j :| 0 <= i < j < |s| && Shown(b, s[i]) && Shown(b, s[j]) && s[i].sn > s[j].sn;
      assert s[i] == init[i] && (j < |init| ==> s[j] == init[j]);
    }
  }

  lemma {:induction false} FilterOrdered(b: Bounds, s: seq<Inst>)
    ensures Ordered(Filter(b, s)) <==> ShownOrdered(b, s)
  {
    if s != [] {
      var init, x := s[..|s| - 1], s[|s| - 1];
      FilterOrdered(b, init);
      ShownLast(b, s);
      if Shown(b, x) {
        OrderedLast(Filter(b, init), x);
        forall y ensures y in Filter(b, init) <==> y in init && Shown(b, y) { InFilter(b, init, y); }
      } else {
        assert Filter(b, s) == Filter(b, init);
      }
    }
  }

  /** At least m queued instructions are larger than number i of those that have left. */
  predicate Kept(s: State, m: nat, i: nat)
    requires i < |s.popped|
  {
    Larger(s.queue, s.popped[i].sn) >= m
  }

  lemma {:induction false} LargerNone(s: seq<Inst>, n: int)
    requires forall x :: x in s ==> x.sn <= n
    ensures Larger(s, n) == 0
  {
    if s != [] { LargerNone(s[..|s| - 1], n); }
  }

  lemma {:induction false} SuffixLarger(s: seq<Inst>, k: nat, n: int)
    requires Ordered(s) && k < |s|
    ensures Larger(s[k..], n) >= (if Larger(s, n) < |s| - k then Larger(s, n) else |s| - k)
  {
    assert s == s[..k] + s[k..];
    LargerConcat(s[..k], s[k..], n);
    if s[k].sn > n { LargerAll(s[k..], n); } else { LargerNone(s[..k], n); }
  }

  /** Taking the smallest leaves m larger than n, if there were as many. */
  lemma {:induction false} TopKept(q: seq<Inst>, m: nat, n: int)
    requires Larger(q, n) >= m
    ensures Larger(Taken(q, m).1, n) >= m
  {
    SortedOk(q);
    LargerSame(q, Sorted(q), n);
    if |q| > m && m > 0 { SuffixLarger(Sorted(q), |q| - m, n); }
  }

  /** With distinct numbers all m that stay are larger than one that is taken. */
  lemma {:induction false} TakenSmaller(q: seq<Inst>, m: nat, p: Inst)
    requires Distinct(q) && p in Taken(q, m).0
    ensures Larger(Taken(q, m).1, p.sn) >= m
  {
    SortedOk(q);
    DistinctSame(q, Sorted(q));
    var s, k := Sorted(q), |q| - m;
    var i :| 0 <= i < k && s[i] == p;
    forall x | x in s[k..] ensures x.sn > p.sn {
      var j :| 0 <= j < |s[k..]| && s[k..][j] == x;
      assert s[k + j] == x;
    }
    LargerAll(s[k..], p.sn);
  }

  lemma {:induction false} DistinctPart(s: seq<Inst>, t: seq<Inst>)
    requires Distinct(s + t)
    ensures Distinct(s) && Distinct(t)
  {
    var u := s + t;
    forall i, j | 0 <= i < j < |s| ensures s[i].sn != s[j].sn { assert s[i] == u[i] && s[j] == u[j]; }
    forall i, j | 0 <= i < j < |t| ensures t[i].sn != t[j].sn {
      assert t[i] == u[|s| + i] && t[j] == u[|s| + j];
    }
  }

  lemma {:induction false} QueueDistinct(xs: seq<Inst>, n: nat, s: State)
    requires n < |xs| && Distinct(xs) && Accounted(xs, n, s)
    ensures Distinct(s.queue + [xs[n]])
  {
    assert xs == xs[..n + 1] + xs[n + 1..];
    DistinctPart(xs[..n + 1], xs[n + 1..]);
    assert xs[..n + 1] == xs[..n] + [xs[n]];
    assert multiset(s.popped + (s.queue + [xs[n]])) == multiset(xs[..n + 1]);
    DistinctSame(xs[..n + 1], s.popped + (s.queue + [xs[n]]));
    DistinctPart(s.popped, s.queue + [xs[n]]);
  }

  lemma {:induction false} KeptNext(s: State, x: Inst, l: Limits, i: nat)
    requires Distinct(s.queue + [x]) && i < |Next(s, x, l).popped| && (i < |s.popped| ==> Kept(s, l.min, i))
    ensures Kept(Next(s, x, l), l.min, i)
  {
    var q, p := s.queue + [x], Next(s, x, l).popped[i];
    LargerConcat(s.queue, [x], p.sn);
    if |q| > l.max {
      if i < |s.popped| { TopKept(q, l.min, p.sn); } else { TakenSmaller(q, l.min, p); }
    }
  }

  lemma {:induction false} DistinctAfter(xs: seq<Inst>, n: nat, l: Limits)
    requires n < |xs| && Distinct(xs)
    ensures Distinct(After(xs, n, l).queue + [xs[n]])
  {
    AfterSame(xs, n, l);
    QueueDistinct(xs, n, After(xs, n, l));
  }

  /** The lower threshold of larger instructions is still queued for each that has left. */
  lemma {:induction false} AfterKept(xs: seq<Inst>, n: nat, l: Limits, i: nat)
    requires n <= |xs| && Distinct(xs) && i < |After(xs, n, l).popped|
    ensures Kept(After(xs, n, l), l.min, i)
  {
    if n > 0 {
      var s := After(xs, n - 1, l);
      DistinctAfter(xs, n - 1, l);
      if i < |s.popped| { AfterKept(xs, n - 1, l, i); }
      KeptNext(s, xs[n - 1], l, i);
    }
  }

  lemma {:induction false} LargerNotAll(s: seq<Inst>, x: Inst)
    requires x in s
    ensures Larger(s, x.sn) < |s|
  {
    var k :| 0 <= k < |s| && s[k] == x;
    LargerWithout(s, k, x.sn);
    LargerMost(Without(s, k), x.sn);
  }

  /** No instruction that has left is larger than one queued after a flush. */
  lemma {:induction false} QueuedAbove(xs: seq<Inst>, n: nat, l: Limits, x: Inst)
    requires n <= |xs| && Distinct(xs) && x in After(xs, n, l).queue && |After(xs, n, l).queue| == l.min
    ensures Larger(After(xs, n, l).popped, x.sn) == 0
  {
    var s := After(xs, n, l);
    if Larger(s.popped, x.sn) > 0 {
      var k := LargerSome(s.popped, x.sn);
      AfterKept(xs, n, l, k);
      LargerDown(s.queue, s.popped[k].sn, x.sn);
      LargerNotAll(s.queue, x);
    }
  }

  /** Among those that have left and those queued, an instruction is exceeded by as many
      as the queue is long if and only if it has left. */
  lemma {:induction false} SplitByRank(seen: seq<Inst>, s: State, x: Inst, m: nat)
    requires multiset(s.popped) + multiset(s.queue) == multiset(seen) && x in seen && |s.queue| == m
    requires x in s.popped ==> Larger(s.queue, x.sn) >= m
    requires x in s.queue ==> Larger(s.popped, x.sn) == 0
    ensures x in s.popped <==> Larger(seen, x.sn) >= m
  {
    assert multiset(s.popped + s.queue) == multiset(seen);
    LargerSame(s.popped + s.queue, seen, x.sn);
    LargerConcat(s.popped, s.queue, x.sn);
    assert x in multiset(s.popped) + multiset(s.queue);
    if x in s.queue { LargerNotAll(s.queue, x); }
  }

  lemma {:induction false} LargerDown(s: seq<Inst>, a: int, b: int)
    requires a >= b
    ensures Larger(s, a) <= Larger(s, b)
  {
    if s != [] { LargerDown(s[..|s| - 1], a, b); }
  }

  lemma {:induction false} LeftKept(xs: seq<Inst>, n: nat, l: Limits, x: Inst)
    requires n <= |xs| && Distinct(xs) && x in After(xs, n, l).popped
    ensures Larger(After(xs, n, l).queue, x.sn) >= l.min
  {
    var s := After(xs, n, l);
    var k :| 0 <= k < |s.popped| && s.popped[k] == x;
    AfterKept(xs, n, l, k);
  }

  /** After a flush exactly the instructions have left that at least as many as the
      lower threshold exceed. */
  lemma {:induction false} LeftExactly(xs: seq<Inst>, n: nat, l: Limits, i: nat)
    requires Distinct(xs) && i < n <= |xs| && l.FlushAt(n)
    ensures xs[i] in After(xs, n, l).popped <==> Larger(xs[..n], xs[i].sn) >= l.min
  {
    AfterSame(xs, n, l);
    QueueLength(xs, n, l);
    assert xs[..n][i] == xs[i];
    if xs[i] in After(xs, n, l).popped { LeftKept(xs, n, l, xs[i]); }
    if xs[i] in After(xs, n, l).queue { QueuedAbove(xs, n, l, xs[i]); }
    SplitByRank(xs[..n], After(xs, n, l), xs[i], l.min);
  }

  lemma {:induction false} LateSpoils(b: Bounds, xs: seq<Inst>, l: Limits, n: nat, i: nat, j: nat)
    requires Distinct(xs) && ShownLate(b, xs, l, n, i, j)
    ensures !ShownOrdered(b, Popped(xs, l))
  {
    LeftExactly(xs, n, l, i);
    var popped := After(xs, n, l).popped;
    var u :| 0 <= u < |popped| && popped[u] == xs[i];
    var k := LeavesLater(xs, n, j, l);
    assert Popped(xs, l)[u] == popped[u];
  }

  lemma {:induction false} Crosses(c: seq<nat>, u: nat) returns (n: nat)
    requires |c| > 0 && c[0] <= u < c[|c| - 1]
    ensures n + 1 < |c| && c[n] <= u < c[n + 1]
  {
    n := 0;
    while c[n + 1] <= u
      invariant n + 1 < |c| && c[n] <= u
      decreases |c| - n
    {
      n := n + 1;
    }
  }

  /** How many have left after n arrivals. */
  function Gone(xs: seq<Inst>, n: nat, l: Limits): nat
    requires n <= |xs|
  {
    |After(xs, n, l).popped|
  }

  /** The arrival at which element u of the order leaves, if it leaves before the end. */
  lemma {:induction false} LeavesAt(xs: seq<Inst>, l: Limits, u: nat) returns (n: nat)
    requires Gone(xs, 0, l) <= u < Gone(xs, |xs|, l)
    ensures n < |xs| && Gone(xs, n, l) <= u < Gone(xs, n + 1, l)
  {
    var c := seq(|xs| + 1, k requires 0 <= k <= |xs| => Gone(xs, k, l));
    assert c[0] == Gone(xs, 0, l) && c[|xs|] == Gone(xs, |xs|, l);
    n := Crosses(c, u);
    assert c[n] == Gone(xs, n, l) && c[n + 1] == Gone(xs, n + 1, l);
  }

  lemma {:induction false} LeavesByFlush(xs: seq<Inst>, l: Limits, n: nat)
    requires n < |xs| && Gone(xs, n, l) < Gone(xs, n + 1, l)
    ensures l.FlushAt(n + 1)
  {
    TakesExactly(xs, n, l);
  }

  lemma {:induction false} TakenInOrder(s: State, x: Inst, l: Limits, u: nat)
    requires |s.popped| <= u < |Next(s, x, l).popped|
    ensures var p, q := Next(s, x, l).popped, Next(s, x, l).queue;
            && (forall v :: u <= v < |p| ==> p[u].sn <= p[v].sn) && forall y :: y in q ==> p[u].sn <= y.sn
  {
    var (t, r) := Arrival(s.queue, x, l);
    TakenParts(s.queue + [x], l.min);
    var p := s.popped + t;
    forall v | u <= v < |p| ensures p[u].sn <= p[v].sn {
      assert p[u] == t[u - |s.popped|] && p[v] == t[v - |s.popped|];
    }
    assert p[u] == t[u - |s.popped|];
  }

  /** What one flush takes is in order and below what it leaves. */
  lemma {:induction false} FlushTakes(xs: seq<Inst>, l: Limits, n: nat, u: nat, v: nat, y: Inst)
    requires n < |xs| && Gone(xs, n, l) <= u < Gone(xs, n + 1, l) && u <= v
    ensures var p, q := After(xs, n + 1, l).popped, After(xs, n + 1, l).queue;
            (v < |p| ==> p[u].sn <= p[v].sn) && (y in q ==> p[u].sn <= y.sn)
  {
    TakenInOrder(After(xs, n, l), xs[n], l, u);
  }

  /** What has not left by arrival n is queued then or arrives later. */
  lemma {:induction false} ArrivesLater(all: seq<Inst>, popped: seq<Inst>, q: seq<Inst>, xs: seq<Inst>, n: nat, v: nat)
    returns (j: nat)
    requires popped <= all && multiset(all) == multiset(xs) && n <= |xs| && |popped| <= v < |all|
    requires multiset(popped) + multiset(q) == multiset(xs[..n]) && all[v] !in q
    ensures n <= j < |xs| && xs[j] == all[v]
  {
    var rest := all[|popped|..];
    assert all == popped + rest && xs == xs[..n] + xs[n..] && all[v] == rest[v - |popped|];
    assert multiset(all) == multiset(popped) + multiset(rest) && multiset(xs) == multiset(xs[..n]) + multiset(xs[n..]);
    assert (multiset(popped) + multiset(q))[all[v]] == multiset(popped)[all[v]] + multiset(q)[all[v]];
    assert (multiset(popped) + multiset(rest))[all[v]] == multiset(popped)[all[v]] + multiset(rest)[all[v]];
    assert all[v] in multiset(rest) && all[v] in multiset(xs[n..]);
    var i :| 0 <= i < |xs[n..]| && xs[n..][i] == all[v];
    j := n + i;
  }

  /** What has left by arrival n has arrived by then. */
  lemma {:induction false} ArrivedBefore(xs: seq<Inst>, n: nat, s: State, x: Inst) returns (i: nat)
    requires n <= |xs| && Accounted(xs, n, s) && x in s.popped
    ensures i < n && xs[i] == x
  {
    assert x in multiset(xs[..n]);
    i :| 0 <= i < |xs[..n]| && xs[..n][i] == x;
  }

  /** The last part of the order is sorted. */
  lemma {:induction false} EndInOrder(xs: seq<Inst>, l: Limits, u: nat, v: nat)
    requires |After(xs, |xs|, l).popped| <= u < v < |Popped(xs, l)|
    ensures Popped(xs, l)[u].sn <= Popped(xs, l)[v].sn
  {
    var s := After(xs, |xs|, l);
    SortedOk(s.queue);
    assert Popped(xs, l)[u] == Sorted(s.queue)[u - |s.popped|];
    assert Popped(xs, l)[v] == Sorted(s.queue)[v - |s.popped|];
  }

  /** Between two that leave in the wrong order there is a flush, after which the second
      is still to come. */
  lemma {:induction false} InversionSplit(xs: seq<Inst>, l: Limits, u: nat, v: nat) returns (n: nat)
    requires u < v < |Popped(xs, l)| && Popped(xs, l)[u].sn > Popped(xs, l)[v].sn
    ensures n < |xs| && Gone(xs, n, l) <= u < Gone(xs, n + 1, l)
  {
    if u >= Gone(xs, |xs|, l) {
      EndInOrder(xs, l, u, v);
      assert false;
    }
    assert Gone(xs, 0, l) == 0;
    n := LeavesAt(xs, l, u);
  }

  lemma {:induction false} StillOut(all: seq<Inst>, s: State, xs: seq<Inst>, n: nat, u: nat, v: nat) returns (j: nat)
    requires n <= |xs| && Accounted(xs, n, s) && s.popped <= all && multiset(all) == multiset(xs)
    requires u < |s.popped| && u < v < |all| && all[u].sn > all[v].sn
    requires v < |s.popped| ==> s.popped[u].sn <= s.popped[v].sn
    requires all[v] in s.queue ==> s.popped[u].sn <= all[v].sn
    ensures n <= j < |xs| && xs[j] == all[v] && all[u] in s.popped
  {
    assert all[u] == s.popped[u];
    j := ArrivesLater(all, s.popped, s.queue, xs, n, v);
  }

  lemma {:induction false} StillToCome(xs: seq<Inst>, l: Limits, n: nat, u: nat, v: nat) returns (j: nat)
    requires n < |xs| && Gone(xs, n, l) <= u < Gone(xs, n + 1, l)
    requires u < v < |Popped(xs, l)| && Popped(xs, l)[u].sn > Popped(xs, l)[v].sn
    ensures n + 1 <= j < |xs| && xs[j] == Popped(xs, l)[v]
    ensures Popped(xs, l)[u] in After(xs, n + 1, l).popped
  {
    FlushTakes(xs, l, n, u, v, Popped(xs, l)[v]);
    TakenFirst(xs, n + 1, |xs|, l);
    AfterSame(xs, n + 1, l);
    PoppedSame(xs, l);
    j := StillOut(Popped(xs, l), After(xs, n + 1, l), xs, n + 1, u, v);
  }

  lemma {:induction false} InversionIsLate(b: Bounds, xs: seq<Inst>, l: Limits, u: nat, v: nat)
    returns (n: nat, i: nat, j: nat)
    requires Distinct(xs) && u < v < |Popped(xs, l)| && Popped(xs, l)[u].sn > Popped(xs, l)[v].sn
    requires Shown(b, Popped(xs, l)[u]) && Shown(b, Popped(xs, l)[v])
    ensures ShownLate(b, xs, l, n, i, j)
  {
    var m := InversionSplit(xs, l, u, v);
    n := m + 1;
    LeavesByFlush(xs, l, m);
    j := StillToCome(xs, l, m, u, v);
    AfterSame(xs, n, l);
    i := ArrivedBefore(xs, n, After(xs, n, l), Popped(xs, l)[u]);
    LeftExactly(xs, n, l, i);
  }

  /** For distinct numbers the output is in order if and only if no shown instruction
      arrives after a larger shown one has left. */
  lemma {:induction false} OutputExactly(b: Bounds, xs: seq<Inst>, l: Limits)
    requires Distinct(xs)
    ensures Ordered(Filter(b, Popped(xs, l))) <==> ShowsInTime(b, xs, l)
  {
    FilterOrdered(b, Popped(xs, l));
    if !ShowsInTime(b, xs, l) {
      var n, i, j :| 0 <= i < n <= j < |xs| && ShownLate(b, xs, l, n, i, j);
      LateSpoils(b, xs, l, n, i, j);
    }
    if !ShownOrdered(b, Popped(xs, l)) {
      var all := Popped(xs, l);
      var u, v :| 0 <= u < v < |all| && Shown(b, all[u]) && Shown(b, all[v]) && all[u].sn > all[v].sn;
      var n, i, j := InversionIsLate(b, xs, l, u, v);
    }
  }

  // ---- The viewer -----------------------------------------------------------------

  class Viewer {
    const bounds: Bounds
    const limits: Limits
    var queue: seq<Inst>
    var output: seq<Inst>
    /** Everything taken from the queue so far, printed or filtered out. */
    ghost var popped: seq<Inst>

    ghost predicate Valid()
      reads this
    {
      output == Filter(bounds, popped)
    }

    constructor (bounds: Bounds, limits: Limits)
      ensures Valid() && queue == [] && popped == []
      ensures this.bounds == bounds && this.limits == limits
    {
      this.bounds, this.limits := bounds, limits;
      queue, output, popped := [], [], [];
    }

    method PrintInsts(lower: nat)
      requires Valid()
      modifies this
      ensures Valid()
      ensures popped == old(popped) + Taken(old(queue), lower).0 && queue == Taken(old(queue), lower).1
    {
      queue := Sorted(queue);
      ghost var all, k := queue, 0;
      while |queue| > lower
        invariant k <= |all| && queue == all[k..] && (|queue| >= lower || k == 0)
        invariant popped == old(popped) + all[..k] && output == Filter(bounds, popped)
      {
        var item := queue[0];
        queue := queue[1..];
        FilterConcat(bounds, popped, [item]);
        assert [item][..0] == [];
        popped, k := popped + [item], k + 1;
        if bounds.snStart > 0 && item.sn < bounds.snStart {
          continue;
        }
        if bounds.snStop > 0 && item.sn > bounds.snStop {
          continue;
        }
        if bounds.tickStart > 0 && item.fetch < bounds.tickStart {
          continue;
        }
        if bounds.tickStop > 0 && item.fetch > bounds.tickStop {
          continue;
        }
        if bounds.onlyCommitted && item.retire == 0 {
          continue;
        }
        output := output + [item];
      }
    }

    method QueueInst(inst: Inst)
      requires Valid()
      modifies this
      ensures Valid()
      ensures var (t, r) := Arrival(old(queue), inst, limits); popped == old(popped) + t && queue == r
    {
      queue := queue + [inst];
      if |queue| > limits.max {
        PrintInsts(limits.min);
      }
    }

    /** The instructions are queued one by one, then the queue is printed. */
    method QueueAll(xs: seq<Inst>)
      requires Valid() && queue == [] && popped == []
      modifies this
      ensures popped == Popped(xs, limits) && queue == [] && output == Filter(bounds, popped)
    {
      for i := 0 to |xs|
        invariant Valid() && popped == After(xs, i, limits).popped && queue == After(xs, i, limits).queue
      {
        QueueInst(xs[i]);
      }
      TakenAll(queue);
      PrintInsts(0);
    }

    /** The whole trace.  Nothing is lost or taken twice; instructions leave the queue in
        order if and only if none is late, and the output is then the sorted trace,
        filtered.  The output is in order if and only if no shown instruction is late
        for a shown one.  It has exactly the instructions of the trace that meet every
        bound that is set, as often as the trace has them. */
    method ProcessTrace(xs: seq<Inst>)
      requires Valid() && queue == [] && popped == []
      modifies this
      ensures popped == Popped(xs, limits) && queue == []
      ensures output == Filter(bounds, popped) && multiset(popped) == multiset(xs)
      ensures Ordered(popped) <==> InTime(xs, limits)
      ensures InTime(xs, limits) && Distinct(xs) ==> output == Filter(bounds, Sorted(xs))
      ensures Distinct(xs) ==> (Ordered(output) <==> ShowsInTime(bounds, xs, limits))
      ensures forall x: Inst ::
        multiset(output)[x] == if Meets(bounds, x) then multiset(xs)[x] else 0
    {
      QueueAll(xs);
      PoppedSame(xs, limits);
      OrderedExactly(xs, limits);
      if InTime(xs, limits) && Distinct(xs) { OneOrder(xs, popped); }
      if Distinct(xs) { OutputExactly(bounds, xs, limits); }
      forall x: Inst ensures multiset(output)[x] == if Meets(bounds, x) then multiset(xs)[x] else 0 {
        FilterCount(bounds, popped, x);
      }
    }
  }

  lemma {:induction false} OneOrder(xs: seq<Inst>, ys: seq<Inst>)
    requires Distinct(xs) && Ordered(ys) && multiset(ys) == multiset(xs)
    ensures ys == Sorted(xs)
  {
    SortedOk(xs);
    DistinctSame(xs, Sorted(xs));
    OrderUnique(Sorted(xs), ys);
  }

  lemma {:induction false} DistinctSame(s: seq<Inst>, t: seq<Inst>)
    requires Distinct(s) && multiset(s) == multiset(t)
    ensures Distinct(t)
  {
    forall i, j | 0 <= i < j < |t| ensures t[i].sn != t[j].sn {
      if t[i].sn == t[j].sn {
        TwiceThere(t, i, j);
        assert t[i] in multiset(s) && t[j] in multiset(s);
        OnceThere(s, t[i]);
      }
    }
  }

  lemma {:induction false} TwiceThere(t: seq<Inst>, i: nat, j: nat)
    requires i < j < |t|
    ensures t[i] == t[j] ==> multiset(t)[t[i]] >= 2
  {
    assert t == t[..i] + [t[i]] + t[i + 1..j] + [t[j]] + t[j + 1..];
  }

  lemma {:induction false} OnceThere(s: seq<Inst>, x: Inst)
    requires Distinct(s)
    ensures multiset(s)[x] <= 1
  {
    if x in s {
      var k :| 0 <= k < |s| && s[k] == x;
      assert s == s[..k] + [x] + s[k + 1..];
      assert x !in s[..k] && x !in s[k + 1..];
    }
  }

  /** A trace in order but for its last instruction, which comes one flush too late. */
  function LateTrace(l: Limits): seq<Inst> {
    seq(l.Top() + 1, i => Inst(i + 2, 0, 1)) + [Inst(1, 0, 1)]
  }

  lemma {:induction false} LateTraceLate(l: Limits)
    ensures Distinct(LateTrace(l)) && !InTime(LateTrace(l), l)
  {
    var xs, n := LateTrace(l), l.Top() + 1;
    LargerAll(xs[..n], 1);
    assert xs[n].sn == 1 && l.FlushAt(n) && Larger(xs[..n], xs[n].sn) > l.min;
  }

  /** Whatever the thresholds are, the viewer can print out of order. */
  method PrintsOutOfOrder(limits: Limits) returns (v: Viewer)
    ensures v.limits == limits && v.popped == v.output == Popped(LateTrace(limits), limits)
    ensures fresh(v) && !Ordered(v.output)
  {
    v := new Viewer(Bounds(0, 0, 0, 0, false), limits);
    v.ProcessTrace(LateTrace(limits));
    LateTraceLate(limits);
    ShowsAll(v.bounds, v.popped);
  }

  lemma {:induction false} ShowsAll(b: Bounds, s: seq<Inst>)
    requires b == Bounds(0, 0, 0, 0, false)
    ensures Filter(b, s) == s
  {
    if s != [] {
      ShowsAll(b, s[..|s| - 1]);
      assert s == s[..|s| - 1] + [s[|s| - 1]];
    }
  }
}
