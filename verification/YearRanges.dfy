/** Copyright years as sets and as text: runs of years are written as ranges. */
module YearRanges {

  // ---- Runs of years --------------------------------------------------------------

  datatype Run = Run(first: int, last: int)

  predicate InRun(r: Run, y: int) { r.first <= y <= r.last }

  function Years(r: Run): set<int> { set y | r.first <= y <= r.last && InRun(r, y) }

  function Union(rs: seq<Run>): set<int> { if rs == [] then {} else Union(rs[..|rs| - 1]) + Years(rs[|rs| - 1]) }

  /** Non-empty runs, ascending, with a gap between any two. */
  predicate Separated(rs: seq<Run>) {
    && (forall i :: 0 <= i < |rs| ==> rs[i].first <= rs[i].last)
    && (forall i, j :: 0 <= i < j < |rs| ==> rs[i].last + 1 < rs[j].first)
  }

  lemma {:induction false} InUnion(rs: seq<Run>, y: int)
    ensures y in Union(rs) <==> exists i :: 0 <= i < |rs| && rs[i].first <= y <= rs[i].last
  {
    if rs != [] {
      InUnion(rs[..|rs| - 1], y);
      assert forall i :: 0 <= i < |rs| - 1 ==> rs[..|rs| - 1][i] == rs[i];
    }
  }

  /** The first year of a run has no predecessor in the set, in any separated form. */
  lemma {:induction false} RunStarts(rs: seq<Run>, i: nat)
    requires Separated(rs) && i < |rs|
    ensures rs[i].first in Union(rs) && rs[i].first - 1 !in Union(rs)
  {
    InUnion(rs, rs[i].first);
    InUnion(rs, rs[i].first - 1);
  }

  /** In any other way to write the set, some range starts where a run starts. */
  lemma {:induction false} StartNeeded(rs: seq<Run>, i: nat, qs: seq<Run>) returns (k: nat)
    requires Separated(rs) && i < |rs| && Union(qs) == Union(rs)
    ensures k < |qs| && qs[k].first == rs[i].first
  {
    RunStarts(rs, i);
    InUnion(qs, rs[i].first);
    k :| 0 <= k < |qs| && qs[k].first <= rs[i].first <= qs[k].last;
    InUnion(qs, rs[i].first - 1);
  }

  function Firsts(rs: seq<Run>): (s: seq<int>)
    ensures |s| == |rs| && forall i :: 0 <= i < |rs| ==> s[i] == rs[i].first
  {
    seq(|rs|, i requires 0 <= i < |rs| => rs[i].first)
  }

  lemma {:induction false} Pigeonhole(s: seq<int>, t: seq<int>)
    requires (forall i, j :: 0 <= i < j < |s| ==> s[i] != s[j]) && forall x :: x in s ==> x in t
    ensures |s| <= |t|
  {
    if s != [] {
      var x := s[|s| - 1];
      assert x in s;
      var k :| 0 <= k < |t| && t[k] == x;
      var rest := t[..k] + t[k + 1..];
      assert t == t[..k] + [x] + t[k + 1..];
      forall y | y in s[..|s| - 1] ensures y in rest {
        assert y in t && y != x;
      }
      Pigeonhole(s[..|s| - 1], rest);
    }
  }

  /** No list of ranges for the same years is shorter than the separated one. */
  lemma {:induction false} Shortest(rs: seq<Run>, qs: seq<Run>)
    requires Separated(rs) && Union(qs) == Union(rs)
    ensures |rs| <= |qs|
  {
    forall x | x in Firsts(rs) ensures x in Firsts(qs) {
      var i :| 0 <= i < |rs| && Firsts(rs)[i] == x;
      var k := StartNeeded(rs, i, qs);
      assert Firsts(qs)[k] == x;
    }
    Pigeonhole(Firsts(rs), Firsts(qs));
  }

  /** The separated form is unique. */
  lemma {:induction false} UniqueForm(rs: seq<Run>, qs: seq<Run>)
    requires Separated(rs) && Separated(qs) && Union(qs) == Union(rs)
    ensures rs == qs
  {
    Shortest(rs, qs);
    Shortest(qs, rs);
    if rs != [] {
      var n := |rs| - 1;
      LastRun(rs, qs);
      Peel(rs);
      Peel(qs);
      UniqueForm(rs[..n], qs[..n]);
      assert rs == rs[..n] + [rs[n]] && qs == qs[..n] + [qs[n]];
    }
  }

  lemma {:induction false} Peel(rs: seq<Run>)
    requires Separated(rs) && rs != []
    ensures Union(rs[..|rs| - 1]) == Union(rs) - Years(rs[|rs| - 1])
  {
    var init := rs[..|rs| - 1];
    forall y | y in Union(init) ensures y < rs[|rs| - 1].first {
      InUnion(init, y);
    }
  }

  lemma {:induction false} LastRun(rs: seq<Run>, qs: seq<Run>)
    requires Separated(rs) && Separated(qs) && Union(qs) == Union(rs) && |rs| == |qs| > 0
    ensures rs[|rs| - 1] == qs[|qs| - 1]
  {
    var n := |rs| - 1;
    var i := StartNeeded(rs, n, qs);
    var k := StartNeeded(qs, n, rs);
    assert qs[i].first <= qs[n].first && rs[k].first <= rs[n].first;
    LastYear(rs, qs);
    LastYear(qs, rs);
  }

  lemma {:induction false} LastYear(rs: seq<Run>, qs: seq<Run>)
    requires Separated(rs) && Separated(qs) && Union(qs) == Union(rs) && |rs| == |qs| > 0
    ensures rs[|rs| - 1].last <= qs[|qs| - 1].last
  {
    var y := rs[|rs| - 1].last;
    InUnion(rs, y);
    InUnion(qs, y);
    var k :| 0 <= k < |qs| && qs[k].first <= y <= qs[k].last;
    assert k < |qs| - 1 ==> qs[k].last + 1 < qs[|qs| - 1].first;
  }

  // ---- Finding the runs -----------------------------------------------------------

  predicate Increasing(s: seq<int>) { forall i, j :: 0 <= i < j < |s| ==> s[i] < s[j] }

  function Elements(s: seq<int>): set<int> { set x | x in s }

  function Insert(s: seq<int>, x: int): seq<int> {
    if s == [] then [x] else if s[|s| - 1] < x then s + [x] else Insert(s[..|s| - 1], x) + [s[|s| - 1]]
  }

  lemma {:induction false} InsertElements(s: seq<int>, x: int)
    ensures Elements(Insert(s, x)) == Elements(s) + {x}
  {
    if s != [] && s[|s| - 1] >= x {
      InsertElements(s[..|s| - 1], x);
      ElementsConcat(s[..|s| - 1], s[|s| - 1]);
      ElementsConcat(Insert(s[..|s| - 1], x), s[|s| - 1]);
      assert s == s[..|s| - 1] + [s[|s| - 1]];
    } else {
      ElementsConcat(s, x);
    }
  }

  lemma {:induction false} ElementsConcat(s: seq<int>, x: int)
    ensures Elements(s + [x]) == Elements(s) + {x}
  {
    assert forall y :: y in s + [x] <==> y in s || y == x;
  }

  lemma {:induction false} InsertBound(s: seq<int>, x: int, n: int)
    requires x < n && forall i :: 0 <= i < |s| ==> s[i] < n
    ensures forall i :: 0 <= i < |Insert(s, x)| ==> Insert(s, x)[i] < n
  {
    if s != [] { InsertBound(s[..|s| - 1], x, n); }
  }

  lemma {:induction false} InsertIncreasing(s: seq<int>, x: int)
    requires Increasing(s) && x !in s
    ensures Increasing(Insert(s, x))
  {
    if s != [] && s[|s| - 1] >= x {
      InsertIncreasing(s[..|s| - 1], x);
      InsertBound(s[..|s| - 1], x, s[|s| - 1]);
    }
  }

  predicate Distinct(s: seq<int>) { forall i, j :: 0 <= i < j < |s| ==> s[i] != s[j] }

  /** The elements of a set, given in any order, as a sorted list. */
  method SortedList(years: seq<int>) returns (s: seq<int>)
    requires Distinct(years)
    ensures Increasing(s) && Elements(s) == Elements(years)
  {
    s := [];
    for i := 0 to |years|
      invariant Increasing(s) && Elements(s) == Elements(years[..i])
    {
      assert years[..i + 1] == years[..i] + [years[i]];
      assert years[i] !in Elements(s);
      InsertIncreasing(s, years[i]);
      InsertElements(s, years[i]);
      s := Insert(s, years[i]);
    }
    assert years[..|years|] == years;
  }

  /** The loop of datestr on the sorted years: the runs, in order. */
  method FindRuns(dates: seq<int>) returns (rs: seq<Run>)
    requires dates != [] && Increasing(dates)
    ensures Separated(rs) && rs != [] && Union(rs) == Elements(dates)
  {
    rs := [];
    var first, second := dates[0], dates[0];
    var i := 1;
    assert Elements(dates[..1]) == Years(Run(first, first)) == {first};
    while i < |dates|
      invariant 1 <= i <= |dates| && second == dates[i - 1] && Open(rs, first, second)
      invariant Union(rs) + Years(Run(first, second)) == Elements(dates[..i])
    {
      var next := dates[i];
      assert dates[..i + 1] == dates[..i] + [next];
      ElementsConcat(dates[..i], next);
      if next == second + 1 {
        ExtendLast(Union(rs), first, second, Elements(dates[..i]));
        second := next;
      } else {
        Close(rs, first, second, next, Elements(dates[..i]));
        rs := rs + [Run(first, second)];
        first, second := next, next;
      }
      i := i + 1;
    }
    Close(rs, first, second, second + 2, Elements(dates[..i]));
    rs := rs + [Run(first, second)];
    assert dates[..i] == dates;
  }

  /** The runs found so far, with a gap before the current one. */
  predicate Open(rs: seq<Run>, first: int, second: int) {
    first <= second && Separated(rs) && (rs != [] ==> rs[|rs| - 1].last + 1 < first)
  }

  lemma {:induction false} Extend(first: int, second: int)
    requires first <= second
    ensures Years(Run(first, second + 1)) == Years(Run(first, second)) + {second + 1}
  {
  }

  lemma {:induction false} ExtendLast(u: set<int>, first: int, second: int, all: set<int>)
    requires first <= second && u + Years(Run(first, second)) == all
    ensures u + Years(Run(first, second + 1)) == all + {second + 1}
  {
    Extend(first, second);
  }

  lemma {:induction false} Close(rs: seq<Run>, first: int, second: int, next: int, all: set<int>)
    requires Open(rs, first, second) && second + 1 < next && Union(rs) + Years(Run(first, second)) == all
    ensures Open(rs + [Run(first, second)], next, next)
    ensures Union(rs + [Run(first, second)]) == all && all + Years(Run(next, next)) == all + {next}
  {
    assert (rs + [Run(first, second)])[..|rs|] == rs;
  }
}
