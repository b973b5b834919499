/** The memory tester's cache hierarchy: a tree of subsystems described by the
    number of caches and of testers per subsystem on each level. */
module MemTest {
  import opened Wrappers

  const BLOCK_SIZE := 64

  datatype Problem = NoCaches | WrongLength | NoTopTesters | NegativeTesters | TooFewCaches | TooManyTesters

  // ---- The number of testers ------------------------------------------------------

  /** The number of subsystems n levels up from the memory. */
  function Fanout(c: seq<int>, n: nat): int
    requires n <= |c|
  {
    if n == 0 then 1 else Fanout(c, n - 1) * c[n - 1]
  }

  /** Testers on the first n levels, each multiplied by the number of subsystems. */
  function Weighted(c: seq<int>, t: seq<int>, n: nat): int
    requires n <= |t| && n <= |c| + 1
  {
    if n == 0 then 0 else Weighted(c, t, n - 1) + t[n - 1] * Fanout(c, n - 1)
  }

  function Pairs(c: seq<int>, t: seq<int>): nat { if |t| <= |c| + 1 then |t| else |c| + 1 }

  method NumTesters(c: seq<int>, t: seq<int>) returns (total: int)
    ensures total == Weighted(c, t, Pairs(c, t))
  {
    var multiplier := [1];
    for i := 0 to |c|
      invariant |multiplier| == i + 1 && forall j :: 0 <= j <= i ==> multiplier[j] == Fanout(c, j)
    {
      multiplier := multiplier + [multiplier[|multiplier| - 1] * c[i]];
    }
    total := 0;
    var i := 0;
    while i < |t| && i < |multiplier|
      invariant i <= |t| && i <= |multiplier| && total == Weighted(c, t, i)
    {
      total := total + t[i] * multiplier[i];
      i := i + 1;
    }
  }

  /** A specification that passes the checks. */
  predicate Valid(c: seq<int>, t: seq<int>) {
    && |c| >= 1 && |t| == |c| + 1 && t[|t| - 1] != 0
    && (forall i :: 0 <= i < |t| ==> t[i] >= 0) && (forall i :: 0 <= i < |c| ==> c[i] >= 1)
    && Weighted(c, t, |t|) <= BLOCK_SIZE
  }

  method CheckSpec(c: seq<int>, t: seq<int>) returns (p: Option<Problem>)
    requires |t| > 0
    ensures p.None? <==> Valid(c, t)
    ensures p == Some(NoCaches) <==> |c| < 1
    ensures p == Some(WrongLength) <==> |c| >= 1 && |t| != |c| + 1
    ensures p == Some(NoTopTesters) <==> |c| >= 1 && |t| == |c| + 1 && t[|t| - 1] == 0
    ensures p == Some(NegativeTesters) <==>
      |c| >= 1 && |t| == |c| + 1 && t[|t| - 1] != 0 && exists i :: 0 <= i < |t| && t[i] < 0
    ensures p == Some(TooFewCaches) <==>
      && |c| >= 1 && |t| == |c| + 1 && t[|t| - 1] != 0 && (forall i :: 0 <= i < |t| ==> t[i] >= 0)
      && exists i :: 0 <= i < |c| && c[i] < 1
    ensures p == Some(TooManyTesters) <==>
      && |c| >= 1 && |t| == |c| + 1 && t[|t| - 1] != 0 && (forall i :: 0 <= i < |t| ==> t[i] >= 0)
      && (forall i :: 0 <= i < |c| ==> c[i] >= 1) && Weighted(c, t, |t|) > BLOCK_SIZE
  {
    if |c| < 1 {
      return Some(NoCaches);
    }
    if |c| != |t| - 1 {
      return Some(WrongLength);
    }
    if t[|t| - 1] == 0 {
      return Some(NoTopTesters);
    }
    for i := 0 to |t|
      invariant forall j :: 0 <= j < i ==> t[j] >= 0
    {
      if t[i] < 0 {
        return Some(NegativeTesters);
      }
    }
    for i := 0 to |c|
      invariant forall j :: 0 <= j < i ==> c[j] >= 1
    {
      if c[i] < 1 {
        return Some(TooFewCaches);
      }
    }
    var n := NumTesters(c, t);
    if n > BLOCK_SIZE {
      return Some(TooManyTesters);
    }
    return None;
  }

  // ---- The tree -------------------------------------------------------------------

  /** n times x. */
  function Times(n: nat, x: nat): nat { if n == 0 then 0 else Times(n - 1, x) + x }

  lemma {:induction false} TimesIs(n: nat, x: nat)
    ensures Times(n, x) == n * x
  {
    if n > 0 {
      TimesIs(n - 1, x);
      assert (n - 1) * x + x == n * x;
    }
  }

  predicate Sane(c: seq<int>, t: seq<int>) {
    && |t| == |c| + 1 && t[|t| - 1] >= 1
    && (forall i :: 0 <= i < |t| ==> t[i] >= 0) && (forall i :: 0 <= i < |c| ==> c[i] >= 1)
  }

  /** The testers in the tree for c and t. */
  function Testers(c: seq<int>, t: seq<int>): nat
    requires Sane(c, t)
  {
    if c == [] then t[0] else t[0] + Times(c[0], Testers(c[1..], t[1..]))
  }

  /** The subsystems on level l of a tree of the given height. */
  function Subsystems(c: seq<int>, l: nat): nat
    requires forall i :: 0 <= i < |c| ==> c[i] >= 1
  {
    if l > |c| then 0 else if l == |c| then 1 else Times(c[0], Subsystems(c[1..], l))
  }

  lemma {:induction false} TimesZero(n: nat)
    ensures Times(n, 0) == 0
  {
    if n > 0 { TimesZero(n - 1); }
  }

  lemma {:induction false} SubsystemsStep(c: seq<int>, l: nat)
    requires c != [] && forall i :: 0 <= i < |c| ==> c[i] >= 1
    ensures Subsystems(c, l) == (if l == |c| then 1 else 0) + Times(c[0], Subsystems(c[1..], l))
  {
    if l >= |c| { TimesZero(c[0]); }
  }

  lemma {:induction false} FanoutShift(c: seq<int>, n: nat)
    requires 1 <= n <= |c|
    ensures Fanout(c, n) == c[0] * Fanout(c[1..], n - 1)
  {
    if n > 1 {
      FanoutShift(c, n - 1);
      Associate(c[0], Fanout(c[1..], n - 2), c[n - 1]);
    }
  }

  lemma {:induction false} Associate(x: int, y: int, z: int)
    ensures x * y * z == x * (y * z)
  {
  }

  lemma {:induction false} Distribute(x: int, y: int, u: int, v: int)
    ensures x * y + u * (x * v) == x * (y + u * v)
  {
  }

  lemma {:induction false} WeightedShift(c: seq<int>, t: seq<int>, n: nat)
    requires 1 <= n <= |t| && n <= |c| + 1 && c != []
    ensures Weighted(c, t, n) == t[0] + c[0] * Weighted(c[1..], t[1..], n - 1)
  {
    if n == 1 {
      assert Weighted(c, t, 0) == 0;
    } else {
      WeightedShift(c, t, n - 1);
      FanoutShift(c, n - 1);
      Distribute(c[0], Weighted(c[1..], t[1..], n - 2), t[n - 1], Fanout(c[1..], n - 2));
    }
  }

  /** The tree has as many testers as the formula says. */
  lemma {:induction false} TestersWeighted(c: seq<int>, t: seq<int>)
    requires Sane(c, t)
    ensures Testers(c, t) == Weighted(c, t, |t|)
  {
    if c == [] {
      assert Weighted(c, t, 0) == 0;
    } else {
      TestersWeighted(c[1..], t[1..]);
      WeightedShift(c, t, |t|);
      TimesIs(c[0], Testers(c[1..], t[1..]));
    }
  }

  /** Each level has as many subsystems as the product of the caches below it. */
  lemma {:induction false} SubsystemsFanout(c: seq<int>, l: nat)
    requires l <= |c| && forall i :: 0 <= i < |c| ==> c[i] >= 1
    ensures Subsystems(c, l) == Fanout(c, |c| - l)
  {
    if l < |c| {
      SubsystemsFanout(c[1..], l);
      FanoutShift(c, |c| - l);
      TimesIs(c[0], Subsystems(c[1..], l));
    }
  }

  // ---- Building it ----------------------------------------------------------------

  datatype Name = Name(level: nat, index: nat)

  /** n testers whose port has been bound k times. */
  function Bound(n: nat, k: nat): (s: seq<nat>)
    ensures |s| == n
  {
    seq(n, _ => k)
  }

  lemma {:induction false} BoundConcat(m: nat, n: nat, k: nat)
    ensures Bound(m, k) + Bound(n, k) == Bound(m + n, k)
  {
  }

  class System {
    const c: seq<int>
    const t: seq<int>
    /** For each level, the next subsystem index. */
    var next: seq<nat>
    /** The subsystems created. */
    var names: seq<Name>
    /** How often each tester's port has been bound. */
    var testers: seq<nat>

    /** The subsystems of a level are numbered from zero, once each. */
    ghost predicate Ok()
      reads this
    {
      && Sane(c, t) && |next| == |c| + 1
      && (forall i, j :: 0 <= i < j < |names| ==> names[i] != names[j])
      && (forall n :: n in names <==> n.level <= |c| && n.index < next[n.level])
    }

    constructor (c: seq<int>, t: seq<int>)
      requires Valid(c, t)
      ensures Ok() && this.c == c && this.t == t && names == [] && testers == [] && next == Bound(|c| + 1, 0)
    {
      this.c, this.t := c, t;
      next, names, testers := Bound(|c| + 1, 0), [], [];
    }

    method AddSubsystem(level: nat)
      requires Ok() && level <= |c|
      modifies this`next, this`names
      ensures Ok() && next == old(next)[level := old(next)[level] + 1]
      ensures names == old(names) + [Name(level, old(next)[level])]
    {
      var index := next[level];
      next := next[level := index + 1];
      assert Name(level, index) !in names;
      names := names + [Name(level, index)];
    }

    /** Binds the ports of n testers from position base on. */
    method BindPorts(base: nat, n: nat)
      requires base + n <= |testers|
      modifies this`testers
      ensures |testers| == |old(testers)|
      ensures forall i :: 0 <= i < |testers| ==> testers[i] == old(testers)[i] + if base <= i < base + n then 1 else 0
    {
      for k := 0 to n
        invariant |testers| == |old(testers)|
        invariant forall i :: 0 <= i < |testers| ==>
          testers[i] == old(testers)[i] + if base <= i < base + k then 1 else 0
      {
        testers := testers[base + k := testers[base + k] + 1];
      }
    }

    /** The subtrees on top of the caches of one subsystem. */
    method FanOut(ncaches: seq<int>, prototypes: seq<nat>, level: nat)
      requires Ok() && 0 < level <= |c| && ncaches == c[|c| - level..] && |prototypes| == level
      modifies this`next, this`names, this`testers
      ensures Ok()
      ensures testers == old(testers) + Bound(Times(ncaches[0], Testers(ncaches[1..], t[|c| - level + 1..])), 1)
      ensures forall l :: 0 <= l <= |c| ==> next[l] == old(next)[l] + Times(ncaches[0], Subsystems(ncaches[1..], l))
      decreases level, 0
    {
      ghost var sub := Testers(ncaches[1..], t[|c| - level + 1..]);
      for k := 0 to ncaches[0]
        invariant Ok() && testers == old(testers) + Bound(Times(k, sub), 1)
        invariant forall l :: 0 <= l <= |c| ==> next[l] == old(next)[l] + Times(k, Subsystems(ncaches[1..], l))
      {
        var _ := MakeCacheLevel(ncaches[1..], prototypes[1..], level - 1, true);
        BoundConcat(Times(k, sub), sub, 1);
      }
    }

    /** The tree on top of a cache, down to level zero.  It fails only on level zero
        without a cache; otherwise every tester it creates is bound once. */
    method MakeCacheLevel(ncaches: seq<int>, prototypes: seq<nat>, level: nat, nextCache: bool) returns (ok: bool)
      requires Ok() && level <= |c| && ncaches == c[|c| - level..] && |prototypes| == level
      modifies this`next, this`names, this`testers
      ensures Ok() && (ok <==> nextCache || level > 0)
      ensures ok ==> testers == old(testers) + Bound(Testers(ncaches, t[|c| - level..]), 1)
      ensures ok ==> forall l :: 0 <= l <= |c| ==> next[l] == old(next)[l] + Subsystems(ncaches, l)
      decreases level, 1
    {
      ghost var ts := t[|c| - level..];
      AddSubsystem(level);
      var ntesters: nat := t[|c| - level];
      var base := |testers|;
      testers := testers + Bound(ntesters, 0);
      if level != 0 {
        FanOut(ncaches, prototypes, level);
        BindPorts(base, ntesters);
        ghost var n := Times(ncaches[0], Testers(ncaches[1..], ts[1..]));
        assert testers == old(testers) + Bound(ntesters, 1) + Bound(n, 1);
        BoundConcat(ntesters, n, 1);
        forall l | 0 <= l <= |c| ensures next[l] == old(next)[l] + Subsystems(ncaches, l) {
          SubsystemsStep(ncaches, l);
        }
      } else {
        if !nextCache {
          return false;
        }
        if ntesters > 1 {
          BindPorts(base, ntesters);
        } else {
          testers := testers[base := testers[base] + 1];
        }
        assert testers == old(testers) + Bound(ntesters, 1);
      }
      ok := true;
    }

    /** The whole hierarchy: as many testers as the formula counts, each bound once,
        and on each level as many subsystems as the product of the caches below. */
    method Make(prototypes: seq<nat>)
      requires Ok() && Valid(c, t) && |prototypes| == |c| && names == [] && testers == [] && next == Bound(|c| + 1, 0)
      modifies this
      ensures Ok() && testers == Bound(|testers|, 1) && |testers| == Weighted(c, t, |t|) <= BLOCK_SIZE
      ensures forall l :: 0 <= l <= |c| ==> next[l] == Fanout(c, |c| - l)
    {
      assert c[0..] == c && t[0..] == t;
      var _ := MakeCacheLevel(c, prototypes, |c|, false);
      TestersWeighted(c, t);
      forall l | 0 <= l <= |c| ensures Subsystems(c, l) == Fanout(c, |c| - l) {
        SubsystemsFanout(c, l);
      }
    }
  }
}
