/** The zero-throughput runs of the rolling-upgrade oracle (`_zero_runs`). */
module ZeroRuns {
  import opened Basics
  import opened Evidence
  import opened Segments

  /** Two neighbouring zero intervals belong to one run unless they are further apart than this. */
  const RUN_TOLERANCE: real := 1.5

  function ZeroFlags(s: seq<Interval>): (r: seq<bool>)
    ensures |r| == |s| && forall k :: 0 <= k < |s| ==> r[k] == (s[k].bps <= 0.0)
  {
    seq(|s|, k requires 0 <= k < |s| => s[k].bps <= 0.0)
  }

  function Links(s: seq<Interval>, tolerance: real): (r: seq<bool>)
    ensures |r| == |s|
    ensures forall k :: 1 <= k < |s| ==> r[k] == (Hole(s, k) <= tolerance)
  {
    seq(|s|, k requires 0 <= k < |s| => k > 0 && Hole(s, k) <= tolerance)
  }

  predicate Within(segs: seq<Seg>, n: nat) {
    forall k :: 0 <= k < |segs| ==> segs[k].first < segs[k].past <= n
  }

  function TimeOf(s: seq<Interval>, g: Seg): (r: Run)
    requires g.first < g.past <= |s|
  {
    Run(s[g.first].start, s[g.past - 1].end)
  }

  function TimesOf(s: seq<Interval>, segs: seq<Seg>): (r: seq<Run>)
    requires Within(segs, |s|)
    ensures |r| == |segs| && forall k :: 0 <= k < |segs| ==> r[k] == TimeOf(s, segs[k])
  {
    seq(|segs|, k requires 0 <= k < |segs| => TimeOf(s, segs[k]))
  }

  function ZeroSegs(s: seq<Interval>, tolerance: real, n: nat): (r: seq<Seg>)
    requires n <= |s|
    ensures Within(r, n)
  {
    SegsShaped(ZeroFlags(s), Links(s, tolerance), n);
    Segs(ZeroFlags(s), Links(s, tolerance), n)
  }

  /** The runs of a trace: one for every maximal stretch of zero intervals with no gap over the tolerance. */
  function Runs(s: seq<Interval>): (r: seq<Run>) {
    RunsUpTo(s, |s|)
  }

  function RunsUpTo(s: seq<Interval>, n: nat): (r: seq<Run>)
    requires n <= |s|
  {
    TimesOf(s, ZeroSegs(s, RUN_TOLERANCE, n))
  }

  /** A carrying interval changes no run. */
  lemma CarryingStep(s: seq<Interval>, n: nat)
    requires n < |s| && s[n].bps > 0.0
    ensures RunsUpTo(s, n + 1) == RunsUpTo(s, n)
  {}

  /** A zero interval that does not continue the previous one starts a run. */
  lemma StartStep(s: seq<Interval>, n: nat)
    requires n < |s| && s[n].bps <= 0.0
    requires n == 0 || s[n - 1].bps > 0.0 || s[n].start - s[n - 1].end > RUN_TOLERANCE
    ensures RunsUpTo(s, n + 1) == RunsUpTo(s, n) + [Run(s[n].start, s[n].end)]
  {
    var segs := ZeroSegs(s, RUN_TOLERANCE, n);
    assert ZeroSegs(s, RUN_TOLERANCE, n + 1) == segs + [Seg(n, n + 1)];
  }

  /** A zero interval that continues the previous one moves the end of the last run. */
  lemma GrowStep(s: seq<Interval>, n: nat, closed: seq<Run>, open: Run)
    requires 0 < n < |s| && s[n].bps <= 0.0 && s[n - 1].bps <= 0.0
    requires s[n].start - s[n - 1].end <= RUN_TOLERANCE
    requires RunsUpTo(s, n) == closed + [open]
    ensures RunsUpTo(s, n + 1) == closed + [Run(open.start, s[n].end)]
  {
    var segs := ZeroSegs(s, RUN_TOLERANCE, n);
    assert ZeroSegs(s, RUN_TOLERANCE, n + 1) == Grow(segs, n + 1);
    TimesGrow(s, segs, n + 1);
    assert (closed + [open])[..|closed|] == closed;
    assert open == (closed + [open])[|closed|];
  }

  lemma TimesGrow(s: seq<Interval>, segs: seq<Seg>, n: nat)
    requires segs != [] && Within(segs, |s|) && Last(segs).first < n <= |s|
    ensures Within(Grow(segs, n), |s|)
    ensures TimesOf(s, Grow(segs, n))
         == TimesOf(s, segs)[..|segs| - 1] + [Run(TimesOf(s, segs)[|segs| - 1].start, s[n - 1].end)]
  {}

  /** The source's single pass, with the open run kept in two variables. */
  method ScanZeroRuns(intervals: seq<Interval>) returns (runs: seq<Run>)
    ensures runs == Runs(intervals)
  {
    runs := [];
    var zeroStart: Option<real> := None;
    var zeroEnd := 0.0;
    for n := 0 to |intervals|
      invariant zeroStart.Some? <==> n > 0 && intervals[n - 1].bps <= 0.0
      invariant zeroStart.Some? ==> zeroEnd == intervals[n - 1].end
      invariant RunsUpTo(intervals, n) == runs + Pending(zeroStart, zeroEnd)
    {
      var interval := intervals[n];
      if interval.bps <= 0.0 {
        if zeroStart.None? || interval.start - zeroEnd > 1.5 {
          StartStep(intervals, n);
          if zeroStart.Some? {
            runs := runs + [Run(zeroStart.value, zeroEnd)];
          }
          zeroStart := Some(interval.start);
        } else {
          GrowStep(intervals, n, runs, Run(zeroStart.value, zeroEnd));
        }
        zeroEnd := interval.end;
      } else {
        CarryingStep(intervals, n);
        if zeroStart.Some? {
          runs := runs + [Run(zeroStart.value, zeroEnd)];
          zeroStart := None;
        }
      }
    }
    if zeroStart.Some? {
      runs := runs + [Run(zeroStart.value, zeroEnd)];
    }
  }

  ghost function Pending(start: Option<real>, end: real): (r: seq<Run>) {
    if start.Some? then [Run(start.value, end)] else []
  }

  /** A run is reported exactly when it is the time span of a maximal stretch. */
  lemma RunsAreMaximalStretches(s: seq<Interval>, r: Run)
    ensures r in Runs(s) <==>
      exists g :: Maximal(ZeroFlags(s), Links(s, RUN_TOLERANCE), |s|, g) && r == TimeOf(s, g)
  {
    var on, link := ZeroFlags(s), Links(s, RUN_TOLERANCE);
    if r in Runs(s) {
      var k :| 0 <= k < |Runs(s)| && Runs(s)[k] == r;
      SegsSound(on, link, |s|, k);
    }
    if g :| Maximal(on, link, |s|, g) && r == TimeOf(s, g) {
      var k := SegsComplete(on, link, |s|, g);
      assert Runs(s)[k] == r;
    }
  }

  /** A stretch of linked zero intervals between two carrying intervals is itself a run. */
  lemma StretchIsRun(s: seq<Interval>, first: nat, past: nat)
    requires first < past <= |s|
    requires first > 0 ==> s[first - 1].bps > 0.0
    requires past < |s| ==> s[past].bps > 0.0
    requires forall k :: first <= k < past ==> s[k].bps <= 0.0
    requires forall k :: first < k < past ==> Hole(s, k) <= RUN_TOLERANCE
    ensures Run(s[first].start, s[past - 1].end) in Runs(s)
  {
    var k := SegsComplete(ZeroFlags(s), Links(s, RUN_TOLERANCE), |s|, Seg(first, past));
    assert Runs(s)[k] == Run(s[first].start, s[past - 1].end);
  }
}
