/** When the ordering pass accepts a section list. */
module ElfPasses {
  import opened ElfTypes
  import opened ElfLayout
  import opened ElfOrder
  import opened ElfNobits
  import opened Stailq

  /** Section s starts where the others have ended, or at least does not touch any of
      them: behind all others it may touch them. */
  predicate Fits(others: seq<Section>, s: Section) {
    || Skipped(s)
    || (forall i :: 0 <= i < |others| && !Skipped(others[i]) ==> End(others[i]) <= s.sOffset)
    || (forall i :: 0 <= i < |others| && !Skipped(others[i]) ==> StrictlyApart(others[i], s))
  }

  /** Every section fits among those before it in the list. */
  predicate AllFit(us: seq<Section>, p: nat) {
    forall i :: p <= i < |us| ==> Fits(us[..i], us[i])
  }

  lemma {:induction false} FitsAlike(ss: seq<Section>, ts: seq<Section>, s: Section)
    requires multiset(ss) == multiset(ts) && Fits(ss, s)
    ensures Fits(ts, s)
  {
    if forall i :: 0 <= i < |ss| && !Skipped(ss[i]) ==> End(ss[i]) <= s.sOffset {
      forall i | 0 <= i < |ts| && !Skipped(ts[i]) ensures End(ts[i]) <= s.sOffset { var k := Among(ts, ss, i); }
    } else if !Skipped(s) {
      forall i | 0 <= i < |ts| && !Skipped(ts[i]) ensures StrictlyApart(ts[i], s) { var k := Among(ts, ss, i); }
    }
  }

  /** A section that has to move is accepted if and only if it touches no other. */
  lemma {:induction false} MoveFits(x: Pos, rc0: nat)
    requires Good(x.list, x.at, rc0, x.end) && Harmless(x.list) && x.at < |x.list| && !Skipped(x.list[x.at])
    requires rc0 <= x.list[x.at].sOffset < x.end
    ensures Advance(x).Ok? <==>
            forall i :: 0 <= i < x.at && !Skipped(x.list[i]) ==> StrictlyApart(x.list[i], x.list[x.at])
  {
    var s, rs := x.list[x.at], Removed(x.list, x.at);
    var j := StopIndex(rs, s);
    MovedBehind(x, rc0);
    assert forall i :: 0 <= i < x.at ==> rs[i] == x.list[i];
    assert !Skipped(rs[j]);
    var last :| 0 <= last < x.at && !Skipped(x.list[last]) && End(x.list[last]) == x.end;
    if Advance(x).Ok? {
      AdvanceIs(x);
      forall i | 0 <= i < x.at && !Skipped(x.list[i]) ensures StrictlyApart(x.list[i], s) {
        if i > j { assert End(x.list[j]) <= x.list[i].sOffset; }
      }
    }
  }

  lemma {:induction false} AdvanceFits(x: Pos, rc0: nat)
    requires Good(x.list, x.at, rc0, x.end) && Harmless(x.list) && x.at < |x.list|
    requires !Skipped(x.list[x.at]) ==> rc0 <= x.list[x.at].sOffset
    ensures Advance(x).Ok? <==> Fits(x.list[..x.at], x.list[x.at])
  {
    var s := x.list[x.at];
    if !Skipped(s) && s.sOffset < x.end {
      MoveFits(x, rc0);
      var last :| 0 <= last < x.at && !Skipped(x.list[last]) && End(x.list[last]) == x.end;
      assert x.list[..x.at][last] == x.list[last];
    }
  }

  lemma {:induction false} HarmlessNext(x: Pos)
    requires x.at < |x.list| && Advance(x).Ok? && Harmless(x.list)
    ensures Harmless(Advance(x).value.list)
  {
    var s := x.list[x.at];
    if !Skipped(s) && s.sOffset < x.end { HarmlessMoved(x.list, x.at, StopIndex(Removed(x.list, x.at), s)); }
  }

  /** The next section is accepted if and only if it fits among those before it in the
      original list. */
  lemma {:induction false} StepFits(us: seq<Section>, x: Pos, rc0: nat)
    requires NoJump(us, x, rc0) && Harmless(x.list) && AllAfter(us, rc0) && x.at < |us|
    ensures Advance(x).Ok? <==> Fits(us[..x.at], us[x.at])
    ensures Advance(x).Ok? ==> Advance(x).value.at == x.at + 1
  {
    SameStay(us, x.list, x.at);
    AdvanceFits(x, rc0);
    if Fits(us[..x.at], us[x.at]) { FitsAlike(us[..x.at], x.list[..x.at], us[x.at]); }
    if Fits(x.list[..x.at], us[x.at]) { FitsAlike(x.list[..x.at], us[..x.at], us[x.at]); }
    if Advance(x).Ok? {
      AdvanceByOne(x);
      JumpExactly(us, x, rc0);
    }
  }

  lemma {:induction false} AllFitNext(us: seq<Section>, p: nat)
    requires p < |us|
    ensures AllFit(us, p) <==> Fits(us[..p], us[p]) && AllFit(us, p + 1)
  {
  }

  lemma {:induction false} WalkStops(x: Pos, n: nat)
    requires x.at < |x.list| && Advance(x).Err?
    ensures Walk(x, n).Err?
  {
  }

  lemma {:induction false} WalkFits(us: seq<Section>, x: Pos, n: nat, rc0: nat)
    requires NoJump(us, x, rc0) && Harmless(x.list) && AllAfter(us, rc0)
    ensures Walk(x, n).Ok? <==> AllFit(us, x.at)
    decreases |us| - x.at
  {
    if x.at < |us| {
      StepFits(us, x, rc0);
      AllFitNext(us, x.at);
      if Advance(x).Ok? {
        var y := Advance(x).value;
        WalkNextOk(x, n);
        NoJumpStep(us, x, rc0);
        HarmlessNext(x);
        WalkFits(us, y, n + 1, rc0);
      } else {
        WalkStops(x, n);
      }
    }
  }

  lemma {:induction false} WalkNextOk(x: Pos, n: nat)
    requires x.at < |x.list| && Advance(x).Ok?
    ensures Advance(x).value.at <= |Advance(x).value.list| && Walk(x, n) == Walk(Advance(x).value, n + 1)
  {
    AdvanceEnds(x);
  }

  /** When no section without space in the file is in the way and all others start
      behind the headers, the pass succeeds if and only if every section starts
      where the ones before it in the list have ended or touches none of them.  So
      it also refuses sections that merely touch, unless they are in order. */
  lemma {:induction false} PassesExactly(us: seq<Section>, rc0: nat)
    requires Harmless(us) && AllAfter(us, rc0)
    ensures Walk(Pos(us, 0, rc0), 0).Ok? <==> AllFit(us, 0)
  {
    WalkFits(us, Pos(us, 0, rc0), 0, rc0);
  }

  /** Two sections that touch are accepted in one order and refused in the other. */
  lemma {:induction false} TouchingRefused()
    ensures var a, b := FileScn(100, 50), FileScn(150, 50);
            Walk(Pos([a, b], 0, 64), 0).Ok? && Walk(Pos([b, a], 0, 64), 0).Err?
  {
    var a, b := FileScn(100, 50), FileScn(150, 50);
    assert [a, b][..1] == [a] && [b, a][..1] == [b];
    PassesExactly([a, b], 64);
    PassesExactly([b, a], 64);
    assert !Fits([b, a][..1], [b, a][1]) by { assert [b][0] == b; }
  }
}
