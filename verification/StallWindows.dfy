/** The stall analyzer's windows (`_merge_windows`, `stream_gaps`) and how they relate to the oracle's runs. */
module StallWindows {
  import opened Basics
  import opened Evidence
  import opened Segments
  import opened ZeroRuns

  datatype Gap = Gap(start: real, end: real, intervals: nat)

  /** Rows this close in time belong to one window. */
  const WINDOW_TOLERANCE: real := 0.000001

  /** Python's `end or other`: zero is false. */
  function Or(end: real, other: real): (r: real) {
    if end == 0.0 then other else end
  }

  /** How far the window that row `k` belongs to reaches once row `k` is in it. */
  function Reach(rows: seq<Interval>, on: seq<bool>, k: nat): (r: real)
    requires k < |rows| == |on|
    decreases k, 0
  {
    if k > 0 && on[k - 1] && Joins(rows, on, k) then Max(Or(Reach(rows, on, k - 1), rows[k].end), rows[k].end)
    else rows[k].end
  }

  predicate Joins(rows: seq<Interval>, on: seq<bool>, k: nat)
    requires 0 < k < |rows| == |on|
    decreases k - 1, 1
  {
    rows[k].start <= Or(Reach(rows, on, k - 1), rows[k].start) + WINDOW_TOLERANCE
  }

  function JoinFlags(rows: seq<Interval>, on: seq<bool>): (r: seq<bool>)
    requires |rows| == |on|
    ensures |r| == |rows| && forall k :: 1 <= k < |rows| ==> r[k] == Joins(rows, on, k)
  {
    seq(|rows|, k requires 0 <= k < |rows| => k > 0 && Joins(rows, on, k))
  }

  function GapOf(rows: seq<Interval>, on: seq<bool>, g: Seg): (r: Gap)
    requires |rows| == |on| && g.first < g.past <= |rows|
  {
    Gap(rows[g.first].start, Or(Reach(rows, on, g.past - 1), rows[g.first].start), g.past - g.first)
  }

  function GapsOf(rows: seq<Interval>, on: seq<bool>, segs: seq<Seg>): (r: seq<Gap>)
    requires |rows| == |on| && Within(segs, |rows|)
    ensures |r| == |segs| && forall k :: 0 <= k < |segs| ==> r[k] == GapOf(rows, on, segs[k])
  {
    seq(|segs|, k requires 0 <= k < |segs| => GapOf(rows, on, segs[k]))
  }

  function WindowSegs(rows: seq<Interval>, on: seq<bool>, n: nat): (r: seq<Seg>)
    requires n <= |rows| == |on|
    ensures Within(r, n)
  {
    SegsShaped(on, JoinFlags(rows, on), n);
    Segs(on, JoinFlags(rows, on), n)
  }

  /** The windows of the first `n` rows. */
  function Windows(rows: seq<Interval>, on: seq<bool>, n: nat): (r: seq<Gap>)
    requires n <= |rows| == |on|
  {
    GapsOf(rows, on, WindowSegs(rows, on, n))
  }

  lemma OffStep(rows: seq<Interval>, on: seq<bool>, n: nat)
    requires n < |rows| == |on| && !on[n]
    ensures Windows(rows, on, n + 1) == Windows(rows, on, n)
  {}

  lemma OpenStep(rows: seq<Interval>, on: seq<bool>, n: nat)
    requires n < |rows| == |on| && on[n] && (n == 0 || !on[n - 1] || !Joins(rows, on, n))
    ensures Windows(rows, on, n + 1) == Windows(rows, on, n) + [Gap(rows[n].start, Or(rows[n].end, rows[n].start), 1)]
  {
    assert WindowSegs(rows, on, n + 1) == WindowSegs(rows, on, n) + [Seg(n, n + 1)];
  }

  lemma JoinStep(rows: seq<Interval>, on: seq<bool>, n: nat, closed: seq<Gap>, open: Gap)
    requires 0 < n < |rows| == |on| && on[n] && on[n - 1] && Joins(rows, on, n)
    requires Windows(rows, on, n) == closed + [open]
    ensures Windows(rows, on, n + 1)
         == closed + [Gap(open.start, Or(Reach(rows, on, n), open.start), open.intervals + 1)]
  {
    var segs := WindowSegs(rows, on, n);
    JoinSegs(rows, on, n);
    GapsGrow(rows, on, segs, n + 1);
    assert (closed + [open])[..|closed|] == closed;
    assert open == (closed + [open])[|closed|] == GapOf(rows, on, Last(segs));
  }

  lemma JoinSegs(rows: seq<Interval>, on: seq<bool>, n: nat)
    requires 0 < n < |rows| == |on| && on[n] && on[n - 1] && Joins(rows, on, n)
    ensures var segs := WindowSegs(rows, on, n);
      segs != [] && Last(segs).past == n && WindowSegs(rows, on, n + 1) == Grow(segs, n + 1)
  {
    SegsShaped(on, JoinFlags(rows, on), n);
  }

  lemma GapsGrow(rows: seq<Interval>, on: seq<bool>, segs: seq<Seg>, n: nat)
    requires |rows| == |on| && segs != [] && Within(segs, |rows|) && Last(segs).first < n <= |rows|
    ensures Within(Grow(segs, n), |rows|)
    ensures GapsOf(rows, on, Grow(segs, n))
         == GapsOf(rows, on, segs)[..|segs| - 1] + [GapOf(rows, on, Seg(Last(segs).first, n))]
  {}

  /** The window that is open before row `n`, if any, in the source's three variables. */
  datatype OpenWindow = OpenWindow(start: Option<real>, end: real, count: nat)

  /** The open window, as it would be appended. */
  function Pending(w: OpenWindow): (r: seq<Gap>) {
    if w.start.Some? then [Gap(w.start.value, Or(w.end, w.start.value), w.count)] else []
  }

  ghost predicate Tracks(rows: seq<Interval>, on: seq<bool>, n: nat, windows: seq<Gap>, w: OpenWindow)
    requires n <= |rows| == |on|
  {
    && (w.start.Some? <==> n > 0 && on[n - 1])
    && (w.start.Some? ==> w.end == Reach(rows, on, n - 1))
    && Windows(rows, on, n) == windows + Pending(w)
  }

  /** One row that satisfies the predicate: it opens a window, joins the open one, or closes it and opens another. */
  method TakeRow(rows: seq<Interval>, on: seq<bool>, n: nat, windows: seq<Gap>, w: OpenWindow)
    returns (windows': seq<Gap>, w': OpenWindow)
    requires n < |rows| == |on| && on[n] && Tracks(rows, on, n, windows, w)
    ensures Tracks(rows, on, n + 1, windows', w')
  {
    var row := rows[n];
    windows' := windows;
    if w.start.None? {
      OpenStep(rows, on, n);
      w' := OpenWindow(Some(row.start), row.end, 1);
    } else if row.start <= Or(w.end, row.start) + WINDOW_TOLERANCE {
      JoinStep(rows, on, n, windows, Gap(w.start.value, Or(w.end, w.start.value), w.count));
      w' := OpenWindow(w.start, Max(Or(w.end, row.end), row.end), w.count + 1);
    } else {
      OpenStep(rows, on, n);
      windows' := windows + [Gap(w.start.value, Or(w.end, w.start.value), w.count)];
      w' := OpenWindow(Some(row.start), row.end, 1);
    }
  }

  /** The source's pass over the rows, with the open window kept in three variables. */
  method MergeWindows(rows: seq<Interval>, on: seq<bool>) returns (windows: seq<Gap>)
    requires |on| == |rows|
    ensures windows == Windows(rows, on, |rows|)
  {
    windows := [];
    var w := OpenWindow(None, 0.0, 0);
    for n := 0 to |rows|
      invariant Tracks(rows, on, n, windows, w)
    {
      if on[n] {
        windows, w := TakeRow(rows, on, n, windows, w);
      } else {
        OffStep(rows, on, n);
        windows := windows + Pending(w);
        w := OpenWindow(None, w.end, 0);
      }
    }
    windows := windows + Pending(w);
  }

  /** The zero windows of one stream. */
  method StreamGaps(rows: seq<Interval>) returns (windows: seq<Gap>)
    ensures windows == Windows(rows, ZeroFlags(rows), |rows|)
  {
    windows := MergeWindows(rows, ZeroFlags(rows));
  }

  function CountOn(on: seq<bool>, n: nat): (c: nat)
    requires n <= |on|
  {
    if n == 0 then 0 else CountOn(on, n - 1) + if on[n - 1] then 1 else 0
  }

  function TotalIntervals(windows: seq<Gap>): (c: nat) {
    if windows == [] then 0 else TotalIntervals(windows[..|windows| - 1]) + Last(windows).intervals
  }

  /** Every row that satisfies the predicate is counted in exactly one window. */
  lemma {:induction false} CountsAddUp(rows: seq<Interval>, on: seq<bool>, n: nat)
    requires n <= |rows| == |on|
    ensures TotalIntervals(Windows(rows, on, n)) == CountOn(on, n)
  {
    if n > 0 {
      var m := n - 1;
      CountsAddUp(rows, on, m);
      var before := Windows(rows, on, m);
      if !on[m] {
        OffStep(rows, on, m);
      } else if m > 0 && on[m - 1] && Joins(rows, on, m) {
        var closed, open := before[..|before| - 1], Last(before);
        assert before == closed + [open];
        JoinStep(rows, on, m, closed, open);
        TotalAppend(closed, open);
        TotalAppend(closed, Last(Windows(rows, on, n)));
      } else {
        OpenStep(rows, on, m);
        TotalAppend(before, Last(Windows(rows, on, n)));
      }
    }
  }

  lemma TotalAppend(windows: seq<Gap>, g: Gap)
    ensures TotalIntervals(windows + [g]) == TotalIntervals(windows) + g.intervals
  {
    assert (windows + [g])[..|windows|] == windows;
  }

  /** Rows of positive length, in order, not overlapping, from time zero on. */
  ghost predicate WellTimed(rows: seq<Interval>) {
    && (forall k :: 0 <= k < |rows| ==> 0.0 <= rows[k].start < rows[k].end)
    && (forall i, j :: 0 <= i < j < |rows| ==> rows[i].end <= rows[j].start)
  }

  lemma {:induction false} ReachIsEnd(rows: seq<Interval>, on: seq<bool>, k: nat)
    requires WellTimed(rows) && k < |rows| == |on|
    ensures Reach(rows, on, k) == rows[k].end
  {
    if k > 0 { ReachIsEnd(rows, on, k - 1); }
  }

  /** The time span of a window, without its interval count. */
  function Spans(windows: seq<Gap>): (r: seq<Run>)
    ensures |r| == |windows| && forall k :: 0 <= k < |r| ==> r[k] == Run(windows[k].start, windows[k].end)
  {
    seq(|windows|, k requires 0 <= k < |windows| => Run(windows[k].start, windows[k].end))
  }

  /** On well timed rows a window spans the first start to the last end of its rows. */
  lemma SpansAreTimes(rows: seq<Interval>)
    requires WellTimed(rows)
    ensures Spans(Windows(rows, ZeroFlags(rows), |rows|))
         == TimesOf(rows, WindowSegs(rows, ZeroFlags(rows), |rows|))
  {
    var on := ZeroFlags(rows);
    var segs := WindowSegs(rows, on, |rows|);
    forall k | 0 <= k < |segs| ensures Spans(Windows(rows, on, |rows|))[k] == TimeOf(rows, segs[k]) {
      ReachIsEnd(rows, on, segs[k].past - 1);
    }
  }

  /** On well timed rows, time spans determine the rows they come from. */
  lemma TimesInjective(rows: seq<Interval>, a: seq<Seg>, b: seq<Seg>)
    requires WellTimed(rows) && Within(a, |rows|) && Within(b, |rows|)
    requires TimesOf(rows, a) == TimesOf(rows, b)
    ensures a == b
  {
    assert |a| == |TimesOf(rows, a)| == |b|;
    forall k | 0 <= k < |a| ensures a[k] == b[k] {
      var x, y := a[k], b[k];
      assert TimeOf(rows, x) == TimesOf(rows, a)[k] == TimesOf(rows, b)[k] == TimeOf(rows, y);
      StartDetermines(rows, x.first, y.first);
      EndDetermines(rows, x.past - 1, y.past - 1);
    }
  }

  lemma StartDetermines(rows: seq<Interval>, i: nat, j: nat)
    requires WellTimed(rows) && i < |rows| && j < |rows| && rows[i].start == rows[j].start
    ensures i == j
  {}

  lemma EndDetermines(rows: seq<Interval>, i: nat, j: nat)
    requires WellTimed(rows) && i < |rows| && j < |rows| && rows[i].end == rows[j].end
    ensures i == j
  {}

  /** A hole between two zero rows that the oracle bridges and the analyzer does not. */
  ghost predicate AmbiguousHole(rows: seq<Interval>, k: nat)
    requires 1 <= k < |rows|
  {
    && rows[k - 1].bps <= 0.0 && rows[k].bps <= 0.0
    && WINDOW_TOLERANCE < Hole(rows, k) <= RUN_TOLERANCE
  }

  /**
   On well timed rows the two tools report the same stretches exactly when no
   two neighbouring zero rows are between a microsecond and 1.5 s apart; rows
   without holes are the special case.
   */
  lemma ToolsAgree(rows: seq<Interval>)
    requires WellTimed(rows)
    ensures Spans(Windows(rows, ZeroFlags(rows), |rows|)) == Runs(rows)
      <==> forall k :: 1 <= k < |rows| ==> !AmbiguousHole(rows, k)
  {
    var on := ZeroFlags(rows);
    var windowSegs, runSegs := WindowSegs(rows, on, |rows|), ZeroSegs(rows, RUN_TOLERANCE, |rows|);
    SpansAreTimes(rows);
    if TimesOf(rows, windowSegs) == TimesOf(rows, runSegs) {
      TimesInjective(rows, windowSegs, runSegs);
    }
    assert Spans(Windows(rows, on, |rows|)) == Runs(rows) <==> windowSegs == runSegs;
    SegsAgree(rows);
  }

  lemma SegsAgree(rows: seq<Interval>)
    requires WellTimed(rows)
    ensures WindowSegs(rows, ZeroFlags(rows), |rows|) == ZeroSegs(rows, RUN_TOLERANCE, |rows|)
      <==> forall k :: 1 <= k < |rows| ==> !AmbiguousHole(rows, k)
  {
    var on, link, join := ZeroFlags(rows), Links(rows, RUN_TOLERANCE), JoinFlags(rows, ZeroFlags(rows));
    forall k | 1 <= k < |rows|
      ensures Differ(on, join, link, k) <==> AmbiguousHole(rows, k)
    {
      HoleAt(rows, k);
    }
    SameSegs(on, join, link, |rows|);
  }

  lemma HoleAt(rows: seq<Interval>, k: nat)
    requires WellTimed(rows) && 1 <= k < |rows|
    ensures AmbiguousHole(rows, k)
      <==> Differ(ZeroFlags(rows), JoinFlags(rows, ZeroFlags(rows)), Links(rows, RUN_TOLERANCE), k)
  {
    JoinsWhen(rows, ZeroFlags(rows), k);
  }

  /** On well timed rows a row joins the window exactly when it follows the previous row closely. */
  lemma JoinsWhen(rows: seq<Interval>, on: seq<bool>, k: nat)
    requires WellTimed(rows) && 1 <= k < |rows| == |on|
    ensures JoinFlags(rows, on)[k] <==> Hole(rows, k) <= WINDOW_TOLERANCE
  {
    ReachIsEnd(rows, on, k - 1);
    assert Joins(rows, on, k) <==> rows[k].start <= rows[k - 1].end + WINDOW_TOLERANCE;
  }

  /** Two zero rows a second apart: one run to the oracle, two windows to the analyzer. */
  lemma SecondApartDiffers()
    ensures var rows := [Interval(0.0, 1.0, 0.0), Interval(2.0, 3.0, 0.0)];
      AmbiguousHole(rows, 1) && Spans(Windows(rows, ZeroFlags(rows), 2)) != Runs(rows)
  {
    var rows := [Interval(0.0, 1.0, 0.0), Interval(2.0, 3.0, 0.0)];
    assert AmbiguousHole(rows, 1);
    ToolsAgree(rows);
  }
}
