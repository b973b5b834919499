/** Printing year ranges and parsing them back. */
module YearText {
  import opened Wrappers
  import opened YearRanges

  // ---- Decimal numbers ------------------------------------------------------------

  const DIGITS := "0123456789"

  predicate IsDigit(ch: char) { '0' <= ch <= '9' }

  function Digit(n: nat): (ch: char)
    requires n < 10
    ensures IsDigit(ch) && ValueOf(ch) == n
  {
    DIGITS[n]
  }

  function ValueOf(ch: char): (n: nat)
    requires IsDigit(ch)
    ensures n < 10
  {
    ch as int - '0' as int
  }

  predicate AllDigits(s: string) { forall i :: 0 <= i < |s| ==> IsDigit(s[i]) }

  function Decimal(n: nat): (s: string)
    ensures s != [] && AllDigits(s) && Value(s) == n
  {
    if n < 10 then [Digit(n)] else Decimal(n / 10) + [Digit(n % 10)]
  }

  function Value(s: string): nat
    requires AllDigits(s)
  {
    if s == [] then 0 else 10 * Value(s[..|s| - 1]) + ValueOf(s[|s| - 1])
  }

  lemma {:induction false} FourDigits(n: nat)
    requires 1000 <= n <= 9999
    ensures |Decimal(n)| == 4
  {
    assert |Decimal(n / 1000)| == 1;
    assert |Decimal(n / 100)| == 2;
    assert |Decimal(n / 10)| == 3;
  }

  // ---- Splitting at commas --------------------------------------------------------

  function Split(s: string): (parts: seq<string>)
    ensures parts != []
  {
    if s == "" then [""]
    else
      var parts := Split(s[..|s| - 1]);
      var ch := s[|s| - 1];
      if ch == ',' then parts + [""] else parts[|parts| - 1 := parts[|parts| - 1] + [ch]]
  }

  function Join(parts: seq<string>): string
    requires parts != []
  {
    if |parts| == 1 then parts[0] else Join(parts[..|parts| - 1]) + "," + parts[|parts| - 1]
  }

  lemma {:induction false} SplitPlain(p: string)
    requires ',' !in p
    ensures Split(p) == [p]
  {
    if p != "" {
      SplitPlain(p[..|p| - 1]);
      assert p == p[..|p| - 1] + [p[|p| - 1]];
    }
  }

  lemma {:induction false} SplitComma(s: string, p: string)
    requires ',' !in p
    ensures Split(s + "," + p) == Split(s) + [p]
  {
    var all := s + "," + p;
    if p == "" {
      assert all[..|all| - 1] == s;
    } else {
      var q := p[..|p| - 1];
      assert all[..|all| - 1] == s + "," + q;
      SplitComma(s, q);
      assert p == q + [p[|p| - 1]];
    }
  }

  lemma {:induction false} SplitJoin(parts: seq<string>)
    requires parts != [] && forall i :: 0 <= i < |parts| ==> ',' !in parts[i]
    ensures Split(Join(parts)) == parts
  {
    var n := |parts| - 1;
    if n == 0 {
      SplitPlain(parts[0]);
    } else {
      SplitJoin(parts[..n]);
      SplitComma(Join(parts[..n]), parts[n]);
      assert parts == parts[..n] + [parts[n]];
    }
  }

  // ---- One entry ------------------------------------------------------------------

  predicate IsSpace(ch: char) { ch == ' ' || '\t' <= ch <= '\r' }

  function LStrip(s: string): string { if s != "" && IsSpace(s[0]) then LStrip(s[1..]) else s }

  function RStrip(s: string): string { if s != "" && IsSpace(s[|s| - 1]) then RStrip(s[..|s| - 1]) else s }

  function Strip(s: string): string { RStrip(LStrip(s)) }

  /** Four digits, a dash and four digits at the start, with space around the dash. */
  function MatchRange(s: string): Option<Run> {
    if |s| < 4 || !AllDigits(s[..4]) then None
    else
      var r := LStrip(s[4..]);
      if r == "" || r[0] != '-' then None
      else
        var q := LStrip(r[1..]);
        if |q| < 4 || !AllDigits(q[..4]) then None else Some(Run(Value(s[..4]), Value(q[..4])))
  }

  /** A whole number with an optional sign. */
  function ParseInt(s: string): Option<int> {
    var signed := s != "" && (s[0] == '-' || s[0] == '+');
    var digits := if signed then s[1..] else s;
    if digits == "" || !AllDigits(digits) then None
    else var n: int := Value(digits); Some(if signed && s[0] == '-' then -n else n)
  }

  function YearsOf(entry: string): set<int> {
    match MatchRange(entry)
    case Some(r) => Years(r)
    case None =>
      match ParseInt(entry)
      case Some(y) => {y}
      case None => {}
  }

  function AllYears(parts: seq<string>): set<int> {
    if parts == [] then {} else AllYears(parts[..|parts| - 1]) + YearsOf(Strip(parts[|parts| - 1]))
  }

  method ProcessDates(dates: string) returns (output: set<int>)
    ensures output == AllYears(Split(dates))
  {
    var parts := Split(dates);
    output := {};
    for i := 0 to |parts|
      invariant output == AllYears(parts[..i])
    {
      assert parts[..i + 1][..i] == parts[..i];
      var date := Strip(parts[i]);
      var range := MatchRange(date);
      if range.Some? {
        output := AddRange(output, range.value);
      } else {
        var year := ParseInt(date);
        if year.Some? {
          output := output + {year.value};
        }
      }
    }
    assert parts[..|parts|] == parts;
  }

  method AddRange(output: set<int>, r: Run) returns (all: set<int>)
    ensures all == output + Years(r)
  {
    all := output;
    var y := r.first;
    while y < r.last + 1
      invariant y <= r.last + 1 || y == r.first
      invariant all == output + Years(Run(r.first, y - 1))
    {
      if y > r.first { Extend(r.first, y - 1); }
      all := all + {y};
      y := y + 1;
    }
  }

  // ---- Spaces -------------------------------------------------------------------------

  /** The white space of the regular expressions: blank, tab, line feed, vertical tab, form
      feed and carriage return. */
  lemma {:induction false} SpaceExactly(ch: char)
    ensures IsSpace(ch) <==> ch as int in {32, 9, 10, 11, 12, 13}
  {
  }

  predicate AllSpaces(s: string) { forall i :: 0 <= i < |s| ==> IsSpace(s[i]) }

  lemma {:induction false} LStripSpaces(a: string, s: string)
    requires AllSpaces(a)
    ensures LStrip(a + s) == LStrip(s)
  {
    if a == "" { assert a + s == s; } else {
      LStripSpaces(a[1..], s);
      assert (a + s)[1..] == a[1..] + s;
    }
  }

  lemma {:induction false} RStripSpaces(s: string, b: string)
    requires AllSpaces(b)
    ensures RStrip(s + b) == RStrip(s)
  {
    if b == "" { assert s + b == s; } else {
      RStripSpaces(s, b[..|b| - 1]);
      assert (s + b)[..|s + b| - 1] == s + b[..|b| - 1];
    }
  }

  lemma {:induction false} LStripOfSpaces(b: string)
    requires AllSpaces(b)
    ensures LStrip(b) == "" && RStrip(b) == ""
  {
    LStripSpaces(b, "");
    RStripSpaces("", b);
    assert b + "" == b && "" + b == b;
  }

  lemma {:induction false} LStripBefore(s: string, b: string)
    requires AllSpaces(b)
    ensures LStrip(s + b) == if AllSpaces(s) then "" else LStrip(s) + b
  {
    if AllSpaces(s) {
      LStripOfSpaces(s + b);
    } else if IsSpace(s[0]) {
      LStripBefore(s[1..], b);
      assert (s + b)[1..] == s[1..] + b;
      assert s == [s[0]] + s[1..];
    }
  }

  /** Spaces around an entry do not matter. */
  lemma {:induction false} StripSpaces(a: string, s: string, b: string)
    requires AllSpaces(a) && AllSpaces(b)
    ensures Strip(a + s + b) == Strip(s)
  {
    assert a + s + b == a + (s + b);
    LStripSpaces(a, s + b);
    LStripBefore(s, b);
    if AllSpaces(s) {
      LStripOfSpaces(s);
    } else {
      RStripSpaces(LStrip(s), b);
    }
  }

  /** Spaces around the dash do not matter: two numbers of four digits with a dash between
      them are a range. */
  lemma {:induction false} RangeSpaced(f: string, a: string, b: string, l: string)
    requires |f| == 4 && AllDigits(f) && |l| == 4 && AllDigits(l) && AllSpaces(a) && AllSpaces(b)
    ensures MatchRange(f + a + "-" + b + l) == Some(Run(Value(f), Value(l)))
  {
    var s := f + a + "-" + b + l;
    assert s[..4] == f && s[4..] == a + ("-" + b + l);
    LStripSpaces(a, "-" + b + l);
    assert ("-" + b + l)[1..] == b + l;
    LStripSpaces(b, l);
    assert l[..4] == l;
  }

  /** A range means the years from its first to its last number. */
  lemma {:induction false} RangeMeans(f: string, a: string, b: string, l: string, y: int)
    requires |f| == 4 && AllDigits(f) && |l| == 4 && AllDigits(l) && AllSpaces(a) && AllSpaces(b)
    ensures y in YearsOf(f + a + "-" + b + l) <==> Value(f) <= y <= Value(l)
  {
    RangeSpaced(f, a, b, l);
    assert InRun(Run(Value(f), Value(l)), y) <==> Value(f) <= y <= Value(l);
  }

  /** An entry without digits means nothing. */
  lemma {:induction false} JunkIgnored(s: string)
    requires forall i :: 0 <= i < |s| ==> !IsDigit(s[i])
    ensures YearsOf(s) == {}
  {
    assert |s| >= 4 ==> s[..4][0] == s[0];
    assert |s| >= 2 ==> s[1..][0] == s[1];
  }

  /** q is the entry p with spaces around it. */
  ghost predicate Spaced(p: string, q: string) {
    exists a, b :: AllSpaces(a) && AllSpaces(b) && q == a + p + b
  }

  /** Spaces around the entries of a list do not change what it means. */
  lemma {:induction false} SpacesIgnored(ps: seq<string>, qs: seq<string>)
    requires |ps| == |qs| && forall i :: 0 <= i < |ps| ==> Spaced(ps[i], qs[i])
    ensures AllYears(qs) == AllYears(ps)
  {
    if ps != [] {
      var n := |ps| - 1;
      SpacesIgnored(ps[..n], qs[..n]);
      assert Spaced(ps[n], qs[n]);
      var a, b :| AllSpaces(a) && AllSpaces(b) && qs[n] == a + ps[n] + b;
      StripSpaces(a, ps[n], b);
    }
  }

  /** The years of a text of entries without commas, with any spaces around them. */
  lemma {:induction false} DatesSpaced(ps: seq<string>, qs: seq<string>)
    requires |ps| == |qs| > 0 && forall i :: 0 <= i < |ps| ==> Spaced(ps[i], qs[i]) && ',' !in ps[i] && ',' !in qs[i]
    ensures AllYears(Split(Join(qs))) == AllYears(Split(Join(ps)))
  {
    SplitJoin(ps);
    SplitJoin(qs);
    SpacesIgnored(ps, qs);
  }

  // ---- Printing -------------------------------------------------------------------

  /** A run of years with four digits. */
  predicate Printable(r: Run) { 1000 <= r.first <= r.last <= 9999 }

  function Signed(n: int): string { if n < 0 then "-" + Decimal(-n) else Decimal(n) }

  function Show(r: Run): string {
    if r.first == r.last then Signed(r.first) else Signed(r.first) + "-" + Signed(r.last)
  }

  function ShowAll(rs: seq<Run>): (s: seq<string>)
    ensures |s| == |rs| && forall i :: 0 <= i < |rs| ==> s[i] == Show(rs[i])
  {
    seq(|rs|, i requires 0 <= i < |rs| => Show(rs[i]))
  }

  lemma {:induction false} StripPlain(s: string)
    requires s != "" && !IsSpace(s[0]) && !IsSpace(s[|s| - 1])
    ensures Strip(s) == s
  {
  }

  /** Every whole number is read back from its decimal form, with or without a sign. */
  lemma {:induction false} ReadNumber(n: int)
    ensures ParseInt(Signed(n)) == Some(n) && (n >= 0 ==> ParseInt("+" + Decimal(n)) == Some(n))
  {
    var d := Decimal(if n < 0 then -n else n);
    assert ("-" + d)[1..] == d && ("+" + d)[1..] == d && IsDigit(d[0]);
  }

  /** An entry is read back as the run that was printed. */
  lemma {:induction false} ShowRead(r: Run)
    requires Printable(r)
    ensures YearsOf(Strip(Show(r))) == Years(r) && ',' !in Show(r)
  {
    FourDigits(r.first);
    FourDigits(r.last);
    var f, l, s := Decimal(r.first), Decimal(r.last), Show(r);
    StripPlain(s);
    assert s[..4] == f;
    if r.first != r.last {
      assert LStrip(s[4..]) == s[4..] == "-" + l;
      assert s[4..][1..] == l && LStrip(l) == l && l[..4] == l;
    } else {
      assert s[4..] == "";
      assert Years(r) == {r.first};
    }
  }

  lemma {:induction false} ReadAll(rs: seq<Run>)
    requires forall i :: 0 <= i < |rs| ==> Printable(rs[i])
    ensures AllYears(ShowAll(rs)) == Union(rs)
  {
    if rs != [] {
      var init := rs[..|rs| - 1];
      ReadAll(init);
      ShowRead(rs[|rs| - 1]);
      assert ShowAll(rs)[..|rs| - 1] == ShowAll(init);
    }
  }

  /** Parsing what was printed gives back the years. */
  lemma {:induction false} PrintParse(rs: seq<Run>)
    requires rs != [] && forall i :: 0 <= i < |rs| ==> Printable(rs[i])
    ensures AllYears(Split(Join(ShowAll(rs)))) == Union(rs)
  {
    forall i | 0 <= i < |rs| ensures ',' !in ShowAll(rs)[i] {
      ShowRead(rs[i]);
    }
    SplitJoin(ShowAll(rs));
    ReadAll(rs);
  }

  /** Prints a set of years, given in any order; there is nothing to print for the
      empty set.  For years with four digits the text is read back as the same
      set, and no other list of ranges for it is shorter. */
  method DateStr(years: seq<int>) returns (r: Option<string>, ghost rs: seq<Run>)
    requires Distinct(years)
    ensures r.None? <==> years == []
    ensures r.Some? ==> rs != [] && Separated(rs) && Union(rs) == Elements(years)
    ensures r.Some? ==> r.value == Join(ShowAll(rs))
    ensures r.Some? && (forall y :: y in years ==> 1000 <= y <= 9999) ==> AllYears(Split(r.value)) == Elements(years)
    ensures r.Some? ==> forall qs :: Union(qs) == Elements(years) ==> |rs| <= |qs|
  {
    rs := [];
    if years == [] {
      return None, rs;
    }
    var dates := SortedList(years);
    assert years[0] in Elements(dates);
    var runs := FindRuns(dates);
    rs := runs;
    forall i | 0 <= i < |rs| ensures rs[i].first in Elements(years) && rs[i].last in Elements(years) {
      InUnion(rs, rs[i].first);
      InUnion(rs, rs[i].last);
    }
    forall qs | Union(qs) == Elements(years) ensures |rs| <= |qs| {
      Shortest(rs, qs);
    }
    if forall y :: y in years ==> 1000 <= y <= 9999 {
      PrintParse(rs);
    }
    r := Some(Join(ShowAll(runs)));
  }
}
