/** The zero-interval counters of the iperf summarizer (`summarize`): which zeros are excused, and why. */
module ZeroTally {
  import opened Basics
  import opened ExcuseWindows

  datatype Sample = Sample(sid: string, bps: real)

  /** One reporting interval with the rate of every stream it reports. */
  datatype Report = Report(start: real, end: real, samples: seq<Sample>)

  /** The merged windows: excused events, planned moves (one list each), and resumes. */
  datatype Config = Config(
    minFull: real,
    zeroBps: real,
    events: seq<Window>,
    planned: seq<seq<Window>>,
    resumes: seq<Window>)

  predicate Excluded(c: Config, r: Report) {
    || Inside(c.minFull, c.events, r.start, r.end)
    || exists k :: 0 <= k < |c.planned| && Inside(c.minFull, c.planned[k], r.start, r.end)
  }

  predicate Carries(c: Config, s: Sample, sid: string) {
    s.sid == sid && s.bps > c.zeroBps
  }

  /** The stream carries data in an interval that starts at `t`. */
  ghost predicate CarriesAt(c: Config, reports: seq<Report>, n: nat, sid: string, t: real)
    requires n <= |reports|
  {
    exists i, j :: 0 <= i < n && 0 <= j < |reports[i].samples| && Carries(c, reports[i].samples[j], sid) && reports[i].start == t
  }

  /** The stream carries data in an interval that starts at or after `t`, within the tolerance. */
  ghost predicate CarriesFrom(c: Config, reports: seq<Report>, sid: string, t: real) {
    exists u :: CarriesAt(c, reports, |reports|, sid, u) && u >= t - EPS
  }

  /** `last` holds, for exactly the streams that carry data in the first `n` reports, when they last start to. */
  ghost predicate IsLastData(c: Config, reports: seq<Report>, n: nat, last: map<string, real>)
    requires n <= |reports|
  {
    && (forall sid :: sid in last ==> CarriesAt(c, reports, n, sid, last[sid]))
    && (forall sid, t :: CarriesAt(c, reports, n, sid, t) ==> sid in last && t <= last[sid])
  }

  /** The table after the first `k` samples of a report: their streams are moved up to its start. */
  ghost predicate Noted(c: Config, r: Report, k: nat, before: map<string, real>, last: map<string, real>)
    requires k <= |r.samples|
  {
    && (forall sid :: sid in last ==>
        (sid in before && last[sid] == before[sid]) || (last[sid] == r.start && exists j :: 0 <= j < k && Carries(c, r.samples[j], sid)))
    && (forall sid :: sid in before ==> sid in last && before[sid] <= last[sid])
    && (forall j :: 0 <= j < k && r.samples[j].bps > c.zeroBps ==> r.samples[j].sid in last && r.start <= last[r.samples[j].sid])
  }

  /** The inner loop: the streams of one report. */
  method NoteReport(c: Config, r: Report, before: map<string, real>) returns (last: map<string, real>)
    ensures Noted(c, r, |r.samples|, before, last)
  {
    last := before;
    for k := 0 to |r.samples|
      invariant Noted(c, r, k, before, last)
    {
      var s := r.samples[k];
      if s.bps > c.zeroBps {
        var seen := if s.sid in last then last[s.sid] else r.start;
        last := last[s.sid := Max(seen, r.start)];
        assert Carries(c, r.samples[k], s.sid);
      }
    }
  }

  /** The source's table of the last data-carrying interval of every stream. */
  method LastDataStarts(c: Config, reports: seq<Report>) returns (last: map<string, real>)
    ensures IsLastData(c, reports, |reports|, last)
  {
    last := map[];
    for n := 0 to |reports|
      invariant IsLastData(c, reports, n, last)
    {
      ghost var before := last;
      last := NoteReport(c, reports[n], last);
      LastDataStep(c, reports, n, before, last);
    }
  }

  lemma LastDataStep(c: Config, reports: seq<Report>, n: nat, before: map<string, real>, last: map<string, real>)
    requires n < |reports| && IsLastData(c, reports, n, before)
    requires Noted(c, reports[n], |reports[n].samples|, before, last)
    ensures IsLastData(c, reports, n + 1, last)
  {
    forall sid | sid in last ensures CarriesAt(c, reports, n + 1, sid, last[sid]) {
      if CarriesAt(c, reports, n, sid, last[sid]) {
        var i, j :| 0 <= i < n && 0 <= j < |reports[i].samples| && Carries(c, reports[i].samples[j], sid) && reports[i].start == last[sid];
        assert i < n + 1;
      }
    }
    forall sid, t {:trigger CarriesAt(c, reports, n + 1, sid, t)} | CarriesAt(c, reports, n + 1, sid, t) ensures sid in last && t <= last[sid] {
      var i, j :| 0 <= i < n + 1 && 0 <= j < |reports[i].samples| && Carries(c, reports[i].samples[j], sid) && reports[i].start == t;
      if i < n {
        assert CarriesAt(c, reports, n, sid, t);
      }
    }
  }

  predicate ResumeExcused(c: Config, last: map<string, real>, sid: string, r: Report) {
    && Inside(c.minFull, c.resumes, r.start, r.end)
    && (if sid in last then last[sid] else -1.0) >= r.end - EPS
  }

  /**
   A zero is resume-excused exactly when it lies in a resume window and its
   stream carries data from its end on.  The default of the source's lookup
   makes one exception: an interval that ends at least a second before the start
   of the test, of a stream that never carries data.
   */
  lemma ResumeExcusedIff(c: Config, reports: seq<Report>, last: map<string, real>, sid: string, r: Report)
    requires IsLastData(c, reports, |reports|, last)
    ensures ResumeExcused(c, last, sid, r) <==>
      && Inside(c.minFull, c.resumes, r.start, r.end)
      && (|| CarriesFrom(c, reports, sid, r.end)
          || (r.end <= -1.0 + EPS && forall t :: !CarriesAt(c, reports, |reports|, sid, t)))
  {
    if sid in last {
      assert CarriesAt(c, reports, |reports|, sid, last[sid]);
    }
  }

  /** In a test that starts at time zero, a stream that never carries data again keeps its zeros. */
  lemma DeadStreamNeverExcused(c: Config, reports: seq<Report>, last: map<string, real>, sid: string, r: Report)
    requires IsLastData(c, reports, |reports|, last) && r.end >= 0.0
    requires !CarriesFrom(c, reports, sid, r.end)
    ensures !ResumeExcused(c, last, sid, r)
  {
    ResumeExcusedIff(c, reports, last, sid, r);
  }

  datatype Class = ByWindow | ByResume | Outside

  function Classify(c: Config, last: map<string, real>, r: Report, sid: string): (k: Class) {
    if Excluded(c, r) then ByWindow
    else if ResumeExcused(c, last, sid, r) then ByResume
    else Outside
  }

  /** A stream interval is named by its report and its place in it. */
  type Cell = (nat, nat)

  predicate ZeroAt(c: Config, reports: seq<Report>, i: nat, j: nat) {
    i < |reports| && j < |reports[i].samples| && reports[i].samples[j].bps <= c.zeroBps
  }

  /** The zeros of the first `n` reports and of the first `m` samples of the next one. */
  ghost function ZerosBefore(c: Config, reports: seq<Report>, n: nat, m: nat): (r: set<Cell>) {
    set i: nat, j: nat | i < |reports| && j < |reports[i].samples| && ZeroAt(c, reports, i, j) && (i < n || (i == n && j < m)) :: (i, j)
  }

  /** The class of a stream interval, as a function that proofs about counting need not look into. */
  ghost function Kind(c: Config, last: map<string, real>, reports: seq<Report>): (f: Cell -> Class) {
    (x: Cell) =>
      if x.0 < |reports| && x.1 < |reports[x.0].samples| then
        Classify(c, last, reports[x.0], reports[x.0].samples[x.1].sid)
      else Outside
  }

  ghost function OfClass(kind: Cell -> Class, cells: set<Cell>, k: Class): (r: set<Cell>) {
    set x | x in cells && kind(x) == k
  }

  ghost function Zeros(c: Config, reports: seq<Report>): (r: set<Cell>) {
    ZerosBefore(c, reports, |reports|, 0)
  }

  ghost function SidOf(reports: seq<Report>): (f: Cell -> string) {
    (x: Cell) => if x.0 < |reports| && x.1 < |reports[x.0].samples| then reports[x.0].samples[x.1].sid else ""
  }

  ghost function IdsOf(sid: Cell -> string, cells: set<Cell>): (r: set<string>) {
    set x | x in cells :: sid(x)
  }

  lemma ZerosStep(c: Config, reports: seq<Report>, n: nat, m: nat)
    requires n < |reports| && m < |reports[n].samples|
    ensures ZerosBefore(c, reports, n, m + 1)
         == ZerosBefore(c, reports, n, m) + (if ZeroAt(c, reports, n, m) then {(n, m)} else {})
    ensures (n, m) !in ZerosBefore(c, reports, n, m)
  {}

  lemma ZerosNextRow(c: Config, reports: seq<Report>, n: nat)
    requires n < |reports|
    ensures ZerosBefore(c, reports, n + 1, 0) == ZerosBefore(c, reports, n, |reports[n].samples|)
  {}

  /** Every cell has one class, so the counts of the three classes add up. */
  lemma ClassesPartition(kind: Cell -> Class, cells: set<Cell>)
    ensures |cells| == |OfClass(kind, cells, ByWindow)| + |OfClass(kind, cells, ByResume)| + |OfClass(kind, cells, Outside)|
  {
    var w, r, o := OfClass(kind, cells, ByWindow), OfClass(kind, cells, ByResume), OfClass(kind, cells, Outside);
    assert cells == w + r + o;
    assert w !! r && (w + r) !! o;
  }

  lemma OfClassAdd(kind: Cell -> Class, cells: set<Cell>, k: Class, x: Cell)
    requires x !in cells
    ensures x !in OfClass(kind, cells, k)
    ensures OfClass(kind, cells + {x}, k) == if kind(x) == k then OfClass(kind, cells, k) + {x} else OfClass(kind, cells, k)
  {}

  lemma IdsAdd(sid: Cell -> string, cells: set<Cell>, x: Cell)
    ensures IdsOf(sid, cells + {x}) == IdsOf(sid, cells) + {sid(x)}
  {
    assert x in cells + {x};
    forall y | y in IdsOf(sid, cells) ensures y in IdsOf(sid, cells + {x}) {
      var z :| z in cells && sid(z) == y;
      assert z in cells + {x};
    }
  }

  datatype Totals = Totals(zeros: nat, resumeExcused: nat, outside: nat, ids: set<string>, outsideIds: set<string>)

  ghost predicate Tallied(kind: Cell -> Class, sid: Cell -> string, cells: set<Cell>, t: Totals) {
    && t.zeros == |cells|
    && t.resumeExcused == |OfClass(kind, cells, ByResume)|
    && t.outside == |OfClass(kind, cells, Outside)|
    && t.ids == IdsOf(sid, cells)
    && t.outsideIds == IdsOf(sid, OfClass(kind, cells, Outside))
  }

  /** The totals after one more zero of class `k` of stream `id`. */
  function Count(t: Totals, k: Class, id: string): (r: Totals) {
    var t' := t.(zeros := t.zeros + 1, ids := t.ids + {id});
    match k
    case ByWindow => t'
    case ByResume => t'.(resumeExcused := t.resumeExcused + 1)
    case Outside => t'.(outside := t.outside + 1, outsideIds := t.outsideIds + {id})
  }

  lemma TalliedStep(kind: Cell -> Class, sid: Cell -> string, cells: set<Cell>, t: Totals, x: Cell)
    requires Tallied(kind, sid, cells, t) && x !in cells
    ensures Tallied(kind, sid, cells + {x}, Count(t, kind(x), sid(x)))
  {
    OfClassAdd(kind, cells, ByResume, x);
    OfClassAdd(kind, cells, Outside, x);
    IdsAdd(sid, cells, x);
    IdsAdd(sid, OfClass(kind, cells, Outside), x);
  }

  /** One more sample: a zero is counted under its class, anything else changes nothing. */
  lemma SampleStep(c: Config, last: map<string, real>, reports: seq<Report>, n: nat, m: nat, t: Totals)
    requires n < |reports| && m < |reports[n].samples|
    requires Tallied(Kind(c, last, reports), SidOf(reports), ZerosBefore(c, reports, n, m), t)
    ensures var s := reports[n].samples[m];
      Tallied(Kind(c, last, reports), SidOf(reports), ZerosBefore(c, reports, n, m + 1),
        if s.bps <= c.zeroBps then Count(t, Classify(c, last, reports[n], s.sid), s.sid) else t)
  {
    ZerosStep(c, reports, n, m);
    if ZeroAt(c, reports, n, m) {
      TalliedStep(Kind(c, last, reports), SidOf(reports), ZerosBefore(c, reports, n, m), t, (n, m));
    }
  }

  /** The inner loop: the streams of one report. */
  method TallyReport(c: Config, last: map<string, real>, reports: seq<Report>, n: nat, sofar: Totals) returns (t: Totals)
    requires n < |reports|
    requires Tallied(Kind(c, last, reports), SidOf(reports), ZerosBefore(c, reports, n, 0), sofar)
    ensures Tallied(Kind(c, last, reports), SidOf(reports), ZerosBefore(c, reports, n + 1, 0), t)
  {
    var r := reports[n];
    var excluded := Excluded(c, r);
    t := sofar;
    for m := 0 to |r.samples|
      invariant Tallied(Kind(c, last, reports), SidOf(reports), ZerosBefore(c, reports, n, m), t)
    {
      var s := r.samples[m];
      SampleStep(c, last, reports, n, m, t);
      if s.bps <= c.zeroBps {
        t := t.(zeros := t.zeros + 1, ids := t.ids + {s.sid});
        if !excluded && ResumeExcused(c, last, s.sid, r) {
          t := t.(resumeExcused := t.resumeExcused + 1);
        } else if !excluded {
          t := t.(outside := t.outside + 1, outsideIds := t.outsideIds + {s.sid});
        }
      }
    }
    ZerosNextRow(c, reports, n);
  }

  /** The counters: every zero stream interval is counted exactly once, under its class. */
  method Tally(c: Config, reports: seq<Report>) returns (last: map<string, real>, t: Totals)
    ensures IsLastData(c, reports, |reports|, last)
    ensures Tallied(Kind(c, last, reports), SidOf(reports), Zeros(c, reports), t)
    ensures t.zeros == |OfClass(Kind(c, last, reports), Zeros(c, reports), ByWindow)| + t.resumeExcused + t.outside
  {
    last := LastDataStarts(c, reports);
    t := Totals(0, 0, 0, {}, {});
    for n := 0 to |reports|
      invariant Tallied(Kind(c, last, reports), SidOf(reports), ZerosBefore(c, reports, n, 0), t)
    {
      t := TallyReport(c, last, reports, n, t);
    }
    ClassesPartition(Kind(c, last, reports), Zeros(c, reports));
  }

  /** Where the default takes effect: the only stream is dead, and its zero a second before the test is excused. */
  lemma DefaultExcusesDeadStream()
    ensures var c := Config(1.0, 0.0, [], [], [Window(-3.0, 0.0)]);
      var r := Report(-2.0, -1.0, [Sample("s", 0.0)]);
      IsLastData(c, [r], 1, map[]) && !CarriesFrom(c, [r], "s", r.end) && ResumeExcused(c, map[], "s", r)
  {
    var c := Config(1.0, 0.0, [], [], [Window(-3.0, 0.0)]);
    assert c.resumes[0] in c.resumes;
  }
}
