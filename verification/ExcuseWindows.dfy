/**
 The transition windows of the iperf summarizer (`merge_windows`, `inside`).

 The source compares times with a tolerance of a nanosecond.  The tolerance is
 kept: widening every window by half of it turns "touching within the tolerance"
 into plain overlap, and the laws below are exact in terms of the widened windows.
 */
module ExcuseWindows {
  import opened Basics
  import opened Segments
  import opened Sorting

  const EPS: real := 0.000000001

  datatype Window = Window(lo: real, hi: real)

  const byBounds: (Window, Window) -> bool :=
    (a: Window, b: Window) => a.lo < b.lo || (a.lo == b.lo && a.hi <= b.hi)

  /** One window more, in order of its lower bound. */
  function Absorb(merged: seq<Window>, w: Window): (r: seq<Window>) {
    if merged != [] && w.lo <= Last(merged).hi + EPS then
      merged[..|merged| - 1] + [Window(Last(merged).lo, Max(Last(merged).hi, w.hi))]
    else
      merged + [w]
  }

  function MergeSorted(ws: seq<Window>): (r: seq<Window>) {
    if ws == [] then [] else Absorb(MergeSorted(ws[..|ws| - 1]), Last(ws))
  }

  function Merged(ws: seq<Window>): (r: seq<Window>) {
    MergeSorted(Sort(ws, byBounds))
  }

  /** The source's loop, which rewrites the last merged window in place. */
  method MergeWindows(windows: seq<Window>) returns (merged: seq<Window>)
    ensures merged == Merged(windows)
  {
    merged := [];
    var ordered := Sort(windows, byBounds);
    for n := 0 to |ordered|
      invariant merged == MergeSorted(ordered[..n])
    {
      MergeStep(ordered, n);
      merged := Take(merged, ordered[n]);
    }
    assert ordered[..|ordered|] == ordered;
  }

  lemma MergeStep(ws: seq<Window>, n: nat)
    requires n < |ws|
    ensures MergeSorted(ws[..n + 1]) == Absorb(MergeSorted(ws[..n]), ws[n])
  {
    assert ws[..n + 1][..n] == ws[..n];
  }

  /** One turn of the loop: the last window is rewritten, or a new one is appended. */
  method Take(merged: seq<Window>, w: Window) returns (r: seq<Window>)
    ensures r == Absorb(merged, w)
  {
    if merged != [] && w.lo <= merged[|merged| - 1].hi + EPS {
      var last := merged[|merged| - 1];
      r := merged[|merged| - 1 := Window(last.lo, Max(last.hi, w.hi))];
    } else {
      r := merged + [w];
    }
  }

  /** `t` lies in a window widened by half the tolerance. */
  predicate Touches(w: Window, t: real) {
    w.lo - EPS / 2.0 <= t <= w.hi + EPS / 2.0
  }

  ghost predicate Covers(ws: seq<Window>, t: real) {
    exists w :: w in ws && Touches(w, t)
  }

  /** In order, with more than the tolerance between neighbours. */
  ghost predicate Separated(ws: seq<Window>) {
    forall i, j :: 0 <= i < j < |ws| ==> ws[i].lo <= ws[j].lo && ws[i].hi + EPS < ws[j].lo
  }

  ghost predicate InOrder(ws: seq<Window>) {
    forall i, j :: 0 <= i < j < |ws| ==> ws[i].lo <= ws[j].lo
  }

  lemma AbsorbCovers(merged: seq<Window>, w: Window, t: real)
    requires merged != [] ==> Last(merged).lo <= w.lo
    ensures Covers(Absorb(merged, w), t) <==> Covers(merged, t) || Touches(w, t)
  {
    var r := Absorb(merged, w);
    if merged != [] && w.lo <= Last(merged).hi + EPS {
      var front := merged[..|merged| - 1];
      assert merged == front + [Last(merged)];
      assert Touches(Last(r), t) <==> Touches(Last(merged), t) || Touches(w, t);
      CoversConcat(front, Last(merged), t);
      CoversConcat(front, Last(r), t);
    } else {
      CoversConcat(merged, w, t);
    }
  }

  lemma CoversConcat(ws: seq<Window>, w: Window, t: real)
    ensures Covers(ws + [w], t) <==> Covers(ws, t) || Touches(w, t)
  {
    assert forall x :: x in ws + [w] <==> x in ws || x == w;
  }

  lemma {:induction false} MergeSortedLaws(ws: seq<Window>, t: real)
    requires InOrder(ws)
    ensures Separated(MergeSorted(ws))
    ensures ws != [] ==> MergeSorted(ws) != [] && Last(MergeSorted(ws)).lo <= Last(ws).lo
    ensures Covers(MergeSorted(ws), t) <==> Covers(ws, t)
  {
    if ws != [] {
      var front := ws[..|ws| - 1];
      MergeSortedLaws(front, t);
      assert front != [] ==> Last(front).lo <= Last(ws).lo;
      AbsorbCovers(MergeSorted(front), Last(ws), t);
      assert ws == front + [Last(ws)];
      CoversConcat(front, Last(ws), t);
      AbsorbSeparated(MergeSorted(front), Last(ws));
    }
  }

  lemma AbsorbSeparated(merged: seq<Window>, w: Window)
    requires Separated(merged) && (merged != [] ==> Last(merged).lo <= w.lo)
    ensures Separated(Absorb(merged, w))
    ensures Last(Absorb(merged, w)).lo <= w.lo
  {
    var r := Absorb(merged, w);
    forall i, j | 0 <= i < j < |r| ensures r[i].lo <= r[j].lo && r[i].hi + EPS < r[j].lo {
      if j < |merged| {
        assert merged[i].lo <= merged[j].lo && merged[i].hi + EPS < merged[j].lo;
      } else if i < |merged| - 1 {
        assert merged[i].lo <= Last(merged).lo && merged[i].hi + EPS < Last(merged).lo;
      }
    }
  }

  /** Merging keeps the union of the windows, and leaves them in order and apart. */
  lemma MergedLaws(ws: seq<Window>)
    ensures Separated(Merged(ws))
    ensures forall t :: Covers(Merged(ws), t) <==> Covers(ws, t)
  {
    var ordered := Sort(ws, byBounds);
    SortSorts(ws, byBounds);
    assert InOrder(ordered);
    MergeSortedLaws(ordered, 0.0);
    forall t ensures Covers(Merged(ws), t) <==> Covers(ws, t) {
      MergeSortedLaws(ordered, t);
    }
  }

  predicate IsFull(minFull: real, start: real, end: real) {
    end - start >= minFull - EPS
  }

  /** A full-length interval that lies wholly in one window. */
  predicate Inside(minFull: real, ws: seq<Window>, start: real, end: real) {
    IsFull(minFull, start, end) && exists w :: w in ws && start >= w.lo - EPS && end <= w.hi + EPS
  }

  /** Every instant of the interval, narrowed by half the tolerance, is covered. */
  ghost predicate Explained(ws: seq<Window>, start: real, end: real) {
    forall t :: start + EPS / 2.0 <= t <= end - EPS / 2.0 ==> Covers(ws, t)
  }

  /** If one of the separated windows holds the first instant but not the last, some instant between is in none. */
  lemma UncoveredInstant(ws: seq<Window>, k: nat, start: real, end: real) returns (t: real)
    requires Separated(ws) && k < |ws| && Touches(ws[k], start) && ws[k].hi + EPS / 2.0 < end
    ensures start <= t <= end && !Covers(ws, t)
  {
    var edge := ws[k].hi + EPS / 2.0;
    t := end;
    if k + 1 < |ws| && ws[k + 1].lo - EPS / 2.0 <= end {
      t := (edge + ws[k + 1].lo - EPS / 2.0) / 2.0;
    }
    forall j | 0 <= j < |ws| ensures !Touches(ws[j], t) {
      if j < k {
        assert ws[j].hi + EPS < ws[k].lo;
      } else if k + 1 < j {
        assert ws[k + 1].lo <= ws[j].lo;
      }
    }
  }

  /** An interval is inside the merged windows exactly when it is full and the union of the windows explains all of it. */
  lemma InsideIffExplained(minFull: real, ws: seq<Window>, start: real, end: real)
    requires end - start >= EPS
    ensures Inside(minFull, Merged(ws), start, end) <==> IsFull(minFull, start, end) && Explained(ws, start, end)
  {
    var merged := Merged(ws);
    MergedLaws(ws);
    if Explained(ws, start, end) {
      var first := start + EPS / 2.0;
      assert Covers(merged, first);
      var w :| w in merged && Touches(w, first);
      var k: nat :| k < |merged| && merged[k] == w;
      if w.hi + EPS / 2.0 < end - EPS / 2.0 {
        var t := UncoveredInstant(merged, k, first, end - EPS / 2.0);
      }
    }
    if Inside(minFull, merged, start, end) {
      var w :| w in merged && start >= w.lo - EPS && end <= w.hi + EPS;
      forall t | start + EPS / 2.0 <= t <= end - EPS / 2.0 ensures Covers(ws, t) {
        assert Touches(w, t);
        assert Covers(merged, t);
      }
    }
  }

  // ---------- more windows ----------

  predicate Within(w: Window, bounds: Window) {
    bounds.lo <= w.lo && w.hi <= bounds.hi
  }

  /** Every window lies within one of the others. */
  ghost predicate AllWithin(ws: seq<Window>, others: seq<Window>) {
    forall w :: w in ws ==> exists b :: b in others && Within(w, b)
  }

  /** The windows but the last one. */
  lemma FrontInOrder(ws: seq<Window>)
    requires InOrder(ws) && ws != []
    ensures var front := ws[..|ws| - 1];
      && InOrder(front)
      && (forall w :: w in ws <==> w in front || w == Last(ws))
      && (MergeSorted(front) != [] ==> Last(MergeSorted(front)).lo <= Last(ws).lo)
  {
    var front := ws[..|ws| - 1];
    assert ws == front + [Last(ws)];
    MergeSortedLaws(front, 0.0);
  }

  /** Absorbing a window keeps every merged window, at least as wide. */
  lemma AbsorbKeeps(merged: seq<Window>, w: Window, x: Window) returns (b: Window)
    requires x in merged && Last(merged).lo <= w.lo
    ensures b in Absorb(merged, w) && Within(x, b)
  {
    var k :| 0 <= k < |merged| && merged[k] == x;
    b := Absorb(merged, w)[k];
  }

  /** Merging makes windows only wider. */
  lemma {:induction false} MergedContains(ws: seq<Window>, x: Window) returns (b: Window)
    requires InOrder(ws) && x in ws
    ensures b in MergeSorted(ws) && Within(x, b)
  {
    var front := ws[..|ws| - 1];
    FrontInOrder(ws);
    if x == Last(ws) {
      b := Last(MergeSorted(ws));
    } else {
      var b' := MergedContains(front, x);
      b := AbsorbKeeps(MergeSorted(front), Last(ws), b');
    }
  }

  /** A window that joins one inside a separated window lies in that separated window as well. */
  lemma JoinedStays(others: seq<Window>, last: Window, w: Window, b: Window, c: Window)
    requires Separated(others) && b in others && c in others && Within(last, b) && Within(w, c)
    requires last.lo <= w.lo <= last.hi + EPS
    ensures Within(Window(last.lo, Max(last.hi, w.hi)), b)
  {
    var i :| 0 <= i < |others| && others[i] == b;
    var j :| 0 <= j < |others| && others[j] == c;
    assert i < j ==> b.hi + EPS < c.lo;
    assert j < i ==> c.hi + EPS < b.lo;
  }

  /** What a merged window is made of: an earlier merged window, the new one, or the last one joined by the new one. */
  lemma AbsorbParts(merged: seq<Window>, w: Window, x: Window)
    requires x in Absorb(merged, w)
    ensures x in merged || x == w
      || (merged != [] && w.lo <= Last(merged).hi + EPS && x == Window(Last(merged).lo, Max(Last(merged).hi, w.hi)))
  {
    var k :| 0 <= k < |Absorb(merged, w)| && Absorb(merged, w)[k] == x;
    if k < |merged| - 1 { assert x == merged[k]; }
  }

  /** Windows that each lie in one of several separated windows still do so after merging. */
  lemma {:induction false} MergedStays(ws: seq<Window>, others: seq<Window>, x: Window) returns (b: Window)
    requires InOrder(ws) && Separated(others) && AllWithin(ws, others) && x in MergeSorted(ws)
    ensures b in others && Within(x, b)
  {
    var front, w := ws[..|ws| - 1], Last(ws);
    var before := MergeSorted(front);
    FrontInOrder(ws);
    AbsorbParts(before, w, x);
    assert w in ws;
    b :| b in others && Within(w, b);
    if x in before {
      b := MergedStays(front, others, x);
    } else if x != w {
      var c := b;
      b := MergedStays(front, others, Last(before));
      JoinedStays(others, Last(before), w, b, c);
    }
  }

  /** With more windows, every merged window lies in one of the new merged windows. */
  lemma MergedMonotone(ws: seq<Window>, more: seq<Window>, x: Window) returns (b: Window)
    requires x in Merged(ws)
    ensures b in Merged(ws + more) && Within(x, b)
  {
    SortSorts(ws, byBounds);
    SortSorts(ws + more, byBounds);
    var ordered, all := Sort(ws, byBounds), Sort(ws + more, byBounds);
    MergedLaws(ws + more);
    forall w | w in ordered ensures exists c :: c in Merged(ws + more) && Within(w, c) {
      assert w in ws && w in ws + more && w in all;
      var c := MergedContains(all, w);
    }
    b := MergedStays(ordered, Merged(ws + more), x);
  }

  /** Adding windows never turns an inside interval into an outside one, whatever the windows and the minimum length. */
  lemma InsideMonotone(minFull: real, ws: seq<Window>, more: seq<Window>, start: real, end: real)
    requires Inside(minFull, Merged(ws), start, end)
    ensures Inside(minFull, Merged(ws + more), start, end)
  {
    var w :| w in Merged(ws) && start >= w.lo - EPS && end <= w.hi + EPS;
    var b := MergedMonotone(ws, more, w);
  }
}
