/**
 The rolling-upgrade oracle: PASS/FAIL of one cut, and what a PASS guarantees.

 The guarantee the oracle is for - no stream was silent for too long around the
 cut - is not one of its checks.  It follows from three of them together: the
 sampling check bounds the holes in the evidence, the run builder glues
 neighbouring zero intervals together, and the length check bounds the runs.
 */
module UpgradeOracle {
  import opened Basics
  import opened Evidence
  import opened Sorting
  import opened Segments
  import opened ZeroRuns

  datatype Stream = Stream(sid: string, intervals: seq<Interval>)

  /** A cut in seconds from client launch, with the thresholds it is judged by. */
  datatype Window = Window(start: real, end: real, pre: real, deadline: real) {
    function Horizon(): real { end + deadline }

    predicate InCheck(iv: Interval) { iv.end > start - pre && iv.start < Horizon() }

    predicate Active(iv: Interval) { iv.end > start && iv.start < Horizon() }

    predicate CarriesBefore(iv: Interval) { start - pre <= iv.start < start && iv.bps > 0.0 }

    predicate Resumes(iv: Interval) { end <= iv.start <= Horizon() && iv.bps > 0.0 }

    predicate StallsIn(r: Run) { r.Length() >= deadline && r.end > start - pre && r.start < Horizon() }
  }

  datatype Reason =
    | StreamCount(observed: nat)
    | NotCarrying(missing: seq<string>)
    | ErrorEvents(lines: seq<nat>)
    | NoEvidence(sid: string)
    | TooWide(sid: string)
    | SamplingGap(sid: string)
    | ZeroWindow(sid: string)
    | NoResume(sid: string)

  datatype Verdict = Pass | Fail(reason: Reason)

  const byStart: (Interval, Interval) -> bool := (a: Interval, b: Interval) => a.start <= b.start

  /** The intervals of a stream in order of their start. */
  function Ordered(ivs: seq<Interval>): (s: seq<Interval>) {
    Sort(ivs, byStart)
  }

  ghost predicate StartsInOrder(s: seq<Interval>) {
    forall i, j :: 0 <= i < j < |s| ==> s[i].start <= s[j].start
  }

  lemma OrderedLaws(ivs: seq<Interval>)
    ensures StartsInOrder(Ordered(ivs))
    ensures forall iv :: iv in Ordered(ivs) <==> iv in ivs
  {
    SortSorts(ivs, byStart);
  }

  /** The intervals under check, in the same order. */
  function Continuity(w: Window, s: seq<Interval>): (r: seq<Interval>) {
    Checked(w, s, |s|)
  }

  /** Those among the first `n`. */
  function Checked(w: Window, s: seq<Interval>, n: nat): (r: seq<Interval>)
    requires n <= |s|
  {
    if n == 0 then []
    else if w.InCheck(s[n - 1]) then Checked(w, s, n - 1) + [s[n - 1]]
    else Checked(w, s, n - 1)
  }

  /** Every interval is at most `m` wide and starts at most `2m` after the one before it. */
  ghost predicate WellSampled(c: seq<Interval>, m: real) {
    && (forall k :: 0 <= k < |c| ==> c[k].end - c[k].start <= m)
    && (forall k :: 1 <= k < |c| ==> Hole(c, k) <= 2.0 * m)
  }

  ghost predicate Carried(w: Window, ivs: seq<Interval>) {
    exists iv :: iv in ivs && w.CarriesBefore(iv)
  }

  /** The checks one stream has to meet once it is known to have carried data before the cut. */
  ghost predicate Survives(w: Window, limit: Option<real>, ivs: seq<Interval>) {
    var s := Ordered(ivs);
    && (exists iv :: iv in s && w.Active(iv))
    && (limit.Some? ==> WellSampled(Continuity(w, s), limit.value))
    && (forall r :: r in Runs(s) ==> !w.StallsIn(r))
    && (exists iv :: iv in s && w.Resumes(iv))
  }

  ghost predicate CutPasses(w: Window, limit: Option<real>, streams: seq<Stream>, expected: int, errors: seq<nat>) {
    && |streams| == expected
    && errors == []
    && (forall k :: 0 <= k < |streams| ==>
        Carried(w, streams[k].intervals) && Survives(w, limit, streams[k].intervals))
  }

  /** What a failure for one stream says about that stream. */
  ghost predicate StreamFails(w: Window, limit: Option<real>, st: Stream, reason: Reason) {
    var s := Ordered(st.intervals);
    match reason
    case NoEvidence(sid) => sid == st.sid && forall iv :: iv in s ==> !w.Active(iv)
    case TooWide(sid) => sid == st.sid && limit.Some? &&
      exists iv :: iv in Continuity(w, s) && iv.end - iv.start > limit.value
    case SamplingGap(sid) => sid == st.sid && limit.Some? &&
      var c := Continuity(w, s);
      exists k :: 1 <= k < |c| && Hole(c, k) > 2.0 * limit.value
    case ZeroWindow(sid) => sid == st.sid && exists r :: r in Runs(s) && w.StallsIn(r)
    case NoResume(sid) => sid == st.sid && forall iv :: iv in s ==> !w.Resumes(iv)
    case _ => false
  }

  ghost predicate Justified(w: Window, limit: Option<real>, streams: seq<Stream>, expected: int, errors: seq<nat>, reason: Reason) {
    match reason
    case StreamCount(observed) => observed == |streams| != expected
    case NotCarrying(missing) => missing != [] && |streams| == expected &&
      forall sid :: sid in missing <==> Silent(w, streams, |streams|, sid)
    case ErrorEvents(lines) => lines == errors != []
    case _ => exists k :: 0 <= k < |streams| && StreamFails(w, limit, streams[k], reason)
  }

  datatype Sampling = Sound | Wide | Gap

  /** The sampling check, with the end of the previous interval kept in a variable. */
  method CheckSampling(continuity: seq<Interval>, m: real) returns (f: Sampling)
    ensures f.Sound? <==> WellSampled(continuity, m)
    ensures f.Wide? ==> exists iv :: iv in continuity && iv.end - iv.start > m
    ensures f.Gap? ==> exists k :: 1 <= k < |continuity| && Hole(continuity, k) > 2.0 * m
  {
    var previousEnd: Option<real> := None;
    for k := 0 to |continuity|
      invariant previousEnd == if k == 0 then None else Some(continuity[k - 1].end)
      invariant forall i :: 0 <= i < k ==> continuity[i].end - continuity[i].start <= m
      invariant forall i :: 1 <= i < k ==> Hole(continuity, i) <= 2.0 * m
    {
      var interval := continuity[k];
      if interval.end - interval.start > m {
        return Wide;
      }
      if previousEnd.Some? && interval.start - previousEnd.value > 2.0 * m {
        assert Hole(continuity, k) > 2.0 * m;
        return Gap;
      }
      previousEnd := Some(interval.end);
    }
    return Sound;
  }

  method AnyStall(w: Window, runs: seq<Run>) returns (found: bool)
    ensures found <==> exists r :: r in runs && w.StallsIn(r)
  {
    for k := 0 to |runs|
      invariant forall i :: 0 <= i < k ==> !w.StallsIn(runs[i])
    {
      if w.StallsIn(runs[k]) {
        return true;
      }
    }
    return false;
  }

  /** One stream's checks, in the source's order: evidence, sampling, runs, resume. */
  method CheckStream(w: Window, limit: Option<real>, st: Stream) returns (v: Verdict)
    ensures v.Pass? <==> Survives(w, limit, st.intervals)
    ensures v.Fail? ==> StreamFails(w, limit, st, v.reason)
  {
    var intervals := Ordered(st.intervals);
    if forall iv | iv in intervals :: !w.Active(iv) {
      return Fail(NoEvidence(st.sid));
    }
    if limit.Some? {
      var sampling := CheckSampling(Continuity(w, intervals), limit.value);
      match sampling
      case Wide => return Fail(TooWide(st.sid));
      case Gap => return Fail(SamplingGap(st.sid));
      case Sound =>
    }
    var runs := ScanZeroRuns(intervals);
    var stalled := AnyStall(w, runs);
    if stalled {
      return Fail(ZeroWindow(st.sid));
    }
    if forall iv | iv in intervals :: !w.Resumes(iv) {
      return Fail(NoResume(st.sid));
    }
    return Pass;
  }

  ghost predicate Silent(w: Window, streams: seq<Stream>, n: nat, sid: string)
    requires n <= |streams|
  {
    exists k :: 0 <= k < n && streams[k].sid == sid && !Carried(w, streams[k].intervals)
  }

  /** The ids of the streams that carried no data in the window before the cut. */
  method MissingBefore(w: Window, streams: seq<Stream>) returns (missing: seq<string>)
    ensures forall sid :: sid in missing <==> Silent(w, streams, |streams|, sid)
    ensures missing == [] <==> forall k :: 0 <= k < |streams| ==> Carried(w, streams[k].intervals)
  {
    missing := [];
    for k := 0 to |streams|
      invariant forall sid :: sid in missing <==> Silent(w, streams, k, sid)
      invariant missing == [] <==> forall i :: 0 <= i < k ==> Carried(w, streams[i].intervals)
    {
      if forall iv | iv in streams[k].intervals :: !w.CarriesBefore(iv) {
        missing := missing + [streams[k].sid];
      }
    }
  }

  /** The verdict of one cut, over the streams in order of their id. */
  method CutVerdict(w: Window, limit: Option<real>, streams: seq<Stream>, expected: int, errors: seq<nat>)
    returns (v: Verdict)
    ensures v.Pass? <==> CutPasses(w, limit, streams, expected, errors)
    ensures v.Fail? ==> Justified(w, limit, streams, expected, errors, v.reason)
  {
    if |streams| != expected {
      return Fail(StreamCount(|streams|));
    }
    var missing := MissingBefore(w, streams);
    if missing != [] {
      return Fail(NotCarrying(missing));
    }
    if errors != [] {
      return Fail(ErrorEvents(errors));
    }
    v := CheckStreams(w, limit, streams);
  }

  /** The loop over the streams: the first one that fails decides. */
  method CheckStreams(w: Window, limit: Option<real>, streams: seq<Stream>) returns (v: Verdict)
    ensures v.Pass? <==> forall k :: 0 <= k < |streams| ==> Survives(w, limit, streams[k].intervals)
    ensures v.Fail? ==> exists k :: 0 <= k < |streams| && StreamFails(w, limit, streams[k], v.reason)
  {
    for k := 0 to |streams|
      invariant forall i :: 0 <= i < k ==> Survives(w, limit, streams[i].intervals)
    {
      v := CheckStream(w, limit, streams[k]);
      if v.Fail? {
        return;
      }
    }
    return Pass;
  }

  ghost predicate RunsUnder(ivs: seq<Interval>, limit: real) {
    forall r :: r in Runs(Ordered(ivs)) ==> r.Length() < limit
  }

  /** The whole-run check of one stream. */
  method CheckRuns(ivs: seq<Interval>, limit: real) returns (ok: bool)
    ensures ok <==> RunsUnder(ivs, limit)
  {
    var runs := ScanZeroRuns(Ordered(ivs));
    ok := forall r | r in runs :: r.Length() < limit;
  }

  /** The whole-run verdict: every run of every stream stays under the limit. */
  method RunVerdict(streams: seq<Stream>, expected: int, limit: real) returns (ok: bool)
    ensures ok <==> |streams| == expected && forall k :: 0 <= k < |streams| ==> RunsUnder(streams[k].intervals, limit)
  {
    if |streams| != expected {
      return false;
    }
    for k := 0 to |streams|
      invariant forall i :: 0 <= i < k ==> RunsUnder(streams[i].intervals, limit)
    {
      ok := CheckRuns(streams[k].intervals, limit);
      if !ok {
        return;
      }
    }
    return true;
  }
}
