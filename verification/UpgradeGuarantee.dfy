/** What a passing cut guarantees about every stream, and where the guarantee stops. */
module UpgradeGuarantee {
  import opened Basics
  import opened Evidence
  import opened Segments
  import opened ZeroRuns
  import opened UpgradeOracle

  /** The ends of the intervals are in order too; intervals that do not overlap satisfy this. */
  ghost predicate EndsInOrder(s: seq<Interval>) {
    forall i, j :: 0 <= i < j < |s| ==> s[i].end <= s[j].end
  }

  /** `i` and `j` carry data and nothing between them does. */
  ghost predicate NextCarrier(s: seq<Interval>, i: nat, j: nat) {
    i < j < |s| && s[i].bps > 0.0 && s[j].bps > 0.0 && forall k :: i < k < j ==> s[k].bps <= 0.0
  }

  /** Two neighbouring intervals under check are neighbours in the sampled sequence as well. */
  lemma {:induction false} NeighboursSampled(w: Window, s: seq<Interval>, m: real, i: nat, n: nat)
    requires i + 1 < n <= |s| && w.InCheck(s[i]) && w.InCheck(s[i + 1])
    requires WellSampled(Checked(w, s, n), m)
    ensures s[i + 1].start - s[i].end <= 2.0 * m
  {
    var c := Checked(w, s, n - 1);
    if i + 2 == n {
      assert c == Checked(w, s, i) + [s[i]];
      assert Hole(Checked(w, s, n), |c|) == s[i + 1].start - s[i].end;
    } else {
      if w.InCheck(s[n - 1]) { SampledFront(c, s[n - 1], m); }
      NeighboursSampled(w, s, m, i, n - 1);
    }
  }

  lemma SampledFront(c: seq<Interval>, iv: Interval, m: real)
    requires WellSampled(c + [iv], m)
    ensures WellSampled(c, m)
  {
    forall k | 0 <= k < |c| ensures c[k].end - c[k].start <= m { assert (c + [iv])[k] == c[k]; }
    forall k | 1 <= k < |c| ensures Hole(c, k) <= 2.0 * m { assert Hole(c + [iv], k) == Hole(c, k); }
  }

  /** The gap check reaches every neighbouring pair between two intervals under check. */
  lemma GapsBounded(w: Window, m: real, s: seq<Interval>, i: nat, j: nat, k: nat)
    requires StartsInOrder(s) && EndsInOrder(s)
    requires WellSampled(Continuity(w, s), m)
    requires i < k <= j < |s| && w.InCheck(s[i]) && w.InCheck(s[j])
    ensures Hole(s, k) <= 2.0 * m
  {
    assert s[i].end <= s[k - 1].end && s[k - 1].end <= s[k].end;
    assert s[k - 1].start <= s[k].start && s[k].start <= s[j].start;
    NeighboursSampled(w, s, m, k - 1, |s|);
  }

  /** The zero intervals between two carriers are one run, and so shorter than the deadline. */
  lemma StretchUnderDeadline(w: Window, m: real, s: seq<Interval>, i: nat, j: nat)
    requires StartsInOrder(s) && EndsInOrder(s)
    requires WellSampled(Continuity(w, s), m) && 2.0 * m <= RUN_TOLERANCE
    requires forall r :: r in Runs(s) ==> !w.StallsIn(r)
    requires NextCarrier(s, i, j) && w.InCheck(s[i]) && w.InCheck(s[j]) && i + 1 < j
    ensures s[j - 1].end - s[i + 1].start < w.deadline
  {
    forall k | i + 1 < k < j ensures Hole(s, k) <= RUN_TOLERANCE {
      GapsBounded(w, m, s, i, j, k);
    }
    StretchIsRun(s, i + 1, j);
    var r := Run(s[i + 1].start, s[j - 1].end);
    assert !w.StallsIn(r);
    assert s[i].end <= s[j - 1].end && s[i + 1].start <= s[j].start;
  }

  /**
   The silence bound: between two successive carrying intervals under check, a
   stream that survives the cut is silent for less than the deadline plus four
   sampling limits.
   */
  lemma SilenceBounded(w: Window, m: real, ivs: seq<Interval>, i: nat, j: nat)
    requires w.deadline > 0.0 && 0.0 < m && 2.0 * m <= RUN_TOLERANCE
    requires Survives(w, Some(m), ivs)
    requires EndsInOrder(Ordered(ivs))
    requires NextCarrier(Ordered(ivs), i, j)
    requires w.InCheck(Ordered(ivs)[i]) && w.InCheck(Ordered(ivs)[j])
    ensures Ordered(ivs)[j].start - Ordered(ivs)[i].end < w.deadline + 4.0 * m
  {
    var s := Ordered(ivs);
    OrderedLaws(ivs);
    GapsBounded(w, m, s, i, j, i + 1);
    GapsBounded(w, m, s, i, j, j);
    if i + 1 < j {
      StretchUnderDeadline(w, m, s, i, j);
    }
  }

  lemma {:induction false} NextCarrierFrom(s: seq<Interval>, i: nat, last: nat) returns (j: nat)
    requires i < last < |s| && s[i].bps > 0.0 && s[last].bps > 0.0
    ensures NextCarrier(s, i, j) && j <= last
  {
    j := i + 1;
    while s[j].bps <= 0.0
      invariant i < j <= last
      invariant forall k :: i < k < j ==> s[k].bps <= 0.0
      decreases last - j
    {
      j := j + 1;
    }
  }

  /** The last carrying interval that starts no later than `t`, and the first one after it. */
  lemma {:induction false} CarriersAround(s: seq<Interval>, t: real, i: nat, last: nat) returns (p: nat, q: nat)
    requires i < last < |s| && s[i].bps > 0.0 && s[i].start <= t < s[last].start && s[last].bps > 0.0
    ensures i <= p < q <= last && s[p].start <= t < s[q].start
    ensures NextCarrier(s, p, q)
    decreases last - i
  {
    p := i;
    q := NextCarrierFrom(s, i, last);
    if s[q].start <= t {
      p, q := CarriersAround(s, t, q, last);
    }
  }

  /** Around every instant between two carriers under check there are two successive carriers close together. */
  lemma CarrierNear(w: Window, m: real, ivs: seq<Interval>, t: real, i: nat, last: nat) returns (p: nat)
    requires w.deadline > 0.0 && 0.0 < m && 2.0 * m <= RUN_TOLERANCE
    requires Survives(w, Some(m), ivs)
    requires EndsInOrder(Ordered(ivs)) && StartsInOrder(Ordered(ivs))
    requires i < |Ordered(ivs)| && last < |Ordered(ivs)|
    requires Ordered(ivs)[i].bps > 0.0 && Ordered(ivs)[last].bps > 0.0
    requires w.InCheck(Ordered(ivs)[i]) && w.InCheck(Ordered(ivs)[last])
    requires Ordered(ivs)[i].start <= t < Ordered(ivs)[last].start
    ensures p < |Ordered(ivs)| && Ordered(ivs)[p].bps > 0.0
    ensures t <= Ordered(ivs)[p].end || t < Ordered(ivs)[p].start
    ensures Ordered(ivs)[p].start < t + w.deadline + 4.0 * m
  {
    var s := Ordered(ivs);
    assert i < last;
    var j;
    p, j := CarriersAround(s, t, i, last);
    if s[p].end < t {
      assert i < p ==> s[i].end <= s[p].end;
      assert j < last ==> s[j].start <= s[last].start;
      assert i < j && s[i].end <= s[j].end;
      assert p < last && s[p].start <= s[last].start;
      SilenceBounded(w, m, ivs, p, j);
      p := j;
    }
  }

  /**
   No blackout: from every instant of the cut on, a surviving stream carries
   data again within the deadline plus four sampling limits, provided it resumes
   strictly before the horizon.
   */
  lemma NoBlackout(w: Window, m: real, ivs: seq<Interval>, t: real) returns (iv: Interval)
    requires w.deadline > 0.0 && 0.0 < m && 2.0 * m <= RUN_TOLERANCE
    requires Carried(w, ivs) && Survives(w, Some(m), ivs)
    requires EndsInOrder(Ordered(ivs))
    requires forall iv :: iv in ivs ==> iv.start < iv.end
    requires exists iv :: iv in ivs && w.Resumes(iv) && iv.start < w.Horizon()
    requires w.start <= t < w.end
    ensures iv in ivs && iv.bps > 0.0 && t <= iv.end && iv.start < t + w.deadline + 4.0 * m
  {
    var s := Ordered(ivs);
    OrderedLaws(ivs);
    var first :| first in ivs && w.CarriesBefore(first);
    var resume :| resume in ivs && w.Resumes(resume) && resume.start < w.Horizon();
    var i: nat, last: nat := IndexOf(s, first), IndexOf(s, resume);
    var p := CarrierNear(w, m, ivs, t, i, last);
    iv := s[p];
    assert iv in s;
  }

  ghost function IndexOf<T>(s: seq<T>, x: T): (i: nat)
    requires x in s
    ensures i < |s| && s[i] == x
  {
    var i :| 0 <= i < |s| && s[i] == x;
    i
  }

  lemma {:induction false} AllOff(on: seq<bool>, link: seq<bool>, n: nat)
    requires n <= |on| == |link| && forall k :: 0 <= k < n ==> !on[k]
    ensures Segs(on, link, n) == []
  {
    if n > 0 { AllOff(on, link, n - 1); }
  }

  lemma CarryingHasNoRuns(s: seq<Interval>)
    requires forall k :: 0 <= k < |s| ==> s[k].bps > 0.0
    ensures Runs(s) == []
  {
    AllOff(ZeroFlags(s), Links(s, RUN_TOLERANCE), |s|);
  }

  /** The checks, met by intervals that are already in order. */
  lemma SurvivesWith(w: Window, m: real, ivs: seq<Interval>, active: nat, resumed: nat)
    requires StartsInOrder(ivs) && WellSampled(Continuity(w, ivs), m)
    requires forall r :: r in Runs(ivs) ==> !w.StallsIn(r)
    requires active < |ivs| && w.Active(ivs[active])
    requires resumed < |ivs| && w.Resumes(ivs[resumed])
    ensures Survives(w, Some(m), ivs)
  {
    AlreadyOrdered(ivs);
    assert ivs[active] in ivs && ivs[resumed] in ivs;
  }

  lemma OnlyFirstChecked(w: Window, a: Interval, b: Interval)
    requires w.InCheck(a) && !w.InCheck(b)
    ensures Continuity(w, [a, b]) == [a]
  {
    assert Checked(w, [a, b], 1) == [a];
  }

  /** The evidence of a stream that carries data across the start of the cut and then exactly at `at`. */
  ghost function TwoPulses(w: Window, m: real, at: real): (s: seq<Interval>) {
    [Interval(w.start - m / 2.0, w.start + m / 2.0, 1.0), Interval(at, at + m, 1.0)]
  }

  /**
   A stream that resumes exactly at the horizon escapes the sampling check, whose
   own bound is strict: whatever the cut and the limit, a hole that covers the
   rest of the cut and the whole deadline passes.
   */
  lemma ResumeAtHorizonHidesBlackout(w: Window, m: real)
    requires 0.0 < m < w.deadline && m <= w.pre && w.start <= w.end
    ensures var ivs := TwoPulses(w, m, w.Horizon());
      && Carried(w, ivs) && Survives(w, Some(m), ivs)
      && NextCarrier(Ordered(ivs), 0, 1)
      && Hole(Ordered(ivs), 1) == (w.end - w.start) + w.deadline - m / 2.0
  {
    var ivs := TwoPulses(w, m, w.Horizon());
    OnlyFirstChecked(w, ivs[0], ivs[1]);
    CarryingHasNoRuns(ivs);
    SurvivesWith(w, m, ivs, 0, 1);
    AlreadyOrdered(ivs);
    assert ivs[0] in ivs;
  }

  /** From `t` on the stream carries data again within the deadline and four sampling limits. */
  ghost predicate BackSoon(w: Window, m: real, ivs: seq<Interval>, t: real) {
    exists iv :: iv in ivs && iv.bps > 0.0 && t <= iv.end && iv.start < t + w.deadline + 4.0 * m
  }

  /** Whatever the evidence, a stream that passes is back soon from every instant of the cut. */
  ghost predicate NeverBlackedOut(w: Window, m: real) {
    forall ivs: seq<Interval>, t: real {:trigger Survives(w, Some(m), ivs), BackSoon(w, m, ivs, t)} ::
      && Carried(w, ivs) && Survives(w, Some(m), ivs) && EndsInOrder(Ordered(ivs))
      && (forall iv :: iv in ivs ==> iv.start < iv.end)
      && w.start <= t < w.end
      ==> BackSoon(w, m, ivs, t)
  }

  /** Data just before the cut, a zero across its start, and data again exactly at the horizon. */
  ghost function LastMoment(w: Window, m: real): (s: seq<Interval>) {
    [Interval(w.start - m, w.start - m / 2.0, 1.0), Interval(w.start - m / 2.0, w.start + m / 2.0, 0.0),
     Interval(w.Horizon(), w.Horizon() + m, 1.0)]
  }

  lemma LastMomentChecked(w: Window, m: real)
    requires 0.0 < m < w.deadline && m <= w.pre && w.start <= w.end
    ensures WellSampled(Continuity(w, LastMoment(w, m)), m)
  {
    var s := LastMoment(w, m);
    assert Checked(w, s, 1) == [s[0]];
    assert Checked(w, s, 2) == [s[0], s[1]];
    assert Continuity(w, s) == [s[0], s[1]];
  }

  lemma LastMomentRuns(w: Window, m: real, r: Run)
    requires 0.0 < m < w.deadline && r in Runs(LastMoment(w, m))
    ensures r.Length() < w.deadline
  {
    var s := LastMoment(w, m);
    RunsAreMaximalStretches(s, r);
    var g :| Maximal(ZeroFlags(s), Links(s, RUN_TOLERANCE), |s|, g) && r == TimeOf(s, g);
    assert ZeroFlags(s)[g.first] && ZeroFlags(s)[g.past - 1];
    assert g == Seg(1, 2);
  }

  lemma LastMomentSurvives(w: Window, m: real)
    requires 0.0 < m < w.deadline && m <= w.pre && w.start <= w.end
    ensures Survives(w, Some(m), LastMoment(w, m))
  {
    var ivs := LastMoment(w, m);
    LastMomentChecked(w, m);
    ThreeInOrder(ivs[0], ivs[1], ivs[2]);
    forall r | r in Runs(ivs) ensures !w.StallsIn(r) { LastMomentRuns(w, m, r); }
    SurvivesWith(w, m, ivs, 1, 2);
  }

  lemma LastMomentCarried(w: Window, m: real)
    requires 0.0 < m < w.deadline && m <= w.pre && w.start <= w.end
    ensures Carried(w, LastMoment(w, m))
    ensures forall iv :: iv in LastMoment(w, m) ==> iv.start < iv.end
  {
    assert LastMoment(w, m)[0] in LastMoment(w, m);
  }

  lemma LastMomentOrdered(w: Window, m: real)
    requires 0.0 < m < w.deadline && w.start <= w.end
    ensures EndsInOrder(Ordered(LastMoment(w, m)))
  {
    var s := LastMoment(w, m);
    ThreeInOrder(s[0], s[1], s[2]);
    AlreadyOrdered(s);
  }

  lemma ThreeInOrder(a: Interval, b: Interval, c: Interval)
    requires a.start <= b.start <= c.start && a.end <= b.end <= c.end
    ensures StartsInOrder([a, b, c]) && EndsInOrder([a, b, c])
  {}

  /** In a cut of four sampling limits or more that stream, which passes, is not back soon. */
  lemma LastMomentIsLate(w: Window, m: real)
    requires 0.0 < m < w.deadline && w.end - w.start >= 4.0 * m
    ensures !BackSoon(w, m, LastMoment(w, m), w.start)
  {
    var ivs := LastMoment(w, m);
    forall iv | iv in ivs && iv.bps > 0.0 ensures !(w.start <= iv.end && iv.start < w.start + w.deadline + 4.0 * m) {
      assert iv == ivs[0] || iv == ivs[2];
    }
  }

  /**
   The exact reach of the blackout bound, over all evidence: a stream that resumes
   at the horizon may be dark from the start of the cut on, so the bound holds
   for every stream that passes exactly when the cut itself is shorter than four
   sampling limits.
   */
  lemma NoBlackoutExact(w: Window, m: real)
    requires 0.0 < m < w.deadline && m <= w.pre && 2.0 * m <= RUN_TOLERANCE
    ensures NeverBlackedOut(w, m) <==> w.end - w.start < 4.0 * m
  {
    if w.end - w.start < 4.0 * m {
      forall ivs: seq<Interval>, t: real |
        && Carried(w, ivs) && Survives(w, Some(m), ivs) && EndsInOrder(Ordered(ivs))
        && (forall iv :: iv in ivs ==> iv.start < iv.end)
        && w.start <= t < w.end
        ensures BackSoon(w, m, ivs, t)
      {
        OrderedLaws(ivs);
        var resume :| resume in Ordered(ivs) && w.Resumes(resume);
        assert resume in ivs;
      }
    } else {
      LastMomentSurvives(w, m);
      LastMomentCarried(w, m);
      LastMomentOrdered(w, m);
      LastMomentIsLate(w, m);
      assert Survives(w, Some(m), LastMoment(w, m)) && !BackSoon(w, m, LastMoment(w, m), w.start);
    }
  }

  /** Without a sampling limit no bound holds at all: a hole of any length passes. */
  lemma NoLimitNoBound(bound: real)
    requires bound > 0.0
    ensures var w := Window(10.0, 11.0 + bound, 5.0, 3.0);
      var ivs := TwoPulses(w, 0.1, w.end);
      && Carried(w, ivs) && Survives(w, None, ivs)
      && NextCarrier(Ordered(ivs), 0, 1)
      && Hole(Ordered(ivs), 1) > bound
  {
    var w := Window(10.0, 11.0 + bound, 5.0, 3.0);
    var ivs := TwoPulses(w, 0.1, w.end);
    CarryingHasNoRuns(ivs);
    AlreadyOrdered(ivs);
    assert ivs[0] in ivs && ivs[1] in ivs;
  }

  lemma {:induction false} AlreadyOrdered(s: seq<Interval>)
    requires StartsInOrder(s)
    ensures Ordered(s) == s
  {
    if s != [] {
      AlreadyOrdered(s[1..]);
      assert s == [s[0]] + s[1..];
    }
  }

  lemma {:induction false} AllInCheck(w: Window, s: seq<Interval>, n: nat)
    requires n <= |s| && forall k :: 0 <= k < n ==> w.InCheck(s[k])
    ensures Checked(w, s, n) == s[..n]
  {
    if n > 0 { AllInCheck(w, s, n - 1); }
  }

  /** No two zero intervals are glued when every gap is over the tolerance. */
  lemma SplitRuns(s: seq<Interval>, r: Run)
    requires forall k :: 1 <= k < |s| ==> Hole(s, k) > RUN_TOLERANCE
    requires r in Runs(s)
    ensures exists k :: 0 <= k < |s| && r == Run(s[k].start, s[k].end)
  {
    RunsAreMaximalStretches(s, r);
    var g :| Maximal(ZeroFlags(s), Links(s, RUN_TOLERANCE), |s|, g) && r == TimeOf(s, g);
    if g.first + 1 < |s| {
      assert Hole(s, g.first + 1) > RUN_TOLERANCE;
    }
    assert g.past == g.first + 1;
    assert r == Run(s[g.first].start, s[g.first].end);
  }

  /** Two carrying intervals with `n` zero intervals between them, all `d` wide and `2m` apart. */
  ghost function Coarse(m: real, d: real, n: nat): (s: seq<Interval>)
    ensures |s| == n + 2
    ensures forall k {:trigger s[k]} :: 0 <= k < n + 2 ==>
      s[k] == Interval(At(m, d, k), At(m, d, k) + d, if k == 0 || k == n + 1 then 1.0 else 0.0)
  {
    seq(n + 2, k => Interval(At(m, d, k), At(m, d, k) + d, if k == 0 || k == n + 1 then 1.0 else 0.0))
  }

  ghost function At(m: real, d: real, k: int): (t: real) {
    k as real * (2.0 * m + d)
  }

  lemma AtMonotone(m: real, d: real, i: int, j: int)
    requires m > 0.0 && d > 0.0 && i <= j
    ensures At(m, d, j) - At(m, d, i) == (j - i) as real * (2.0 * m + d)
    ensures At(m, d, i) <= At(m, d, j)
  {
    assert (j - i) as real * (2.0 * m + d) >= 0.0;
  }

  lemma CoarseShape(m: real, d: real, n: nat)
    requires 2.0 * m > RUN_TOLERANCE && 0.0 < d <= m
    ensures StartsInOrder(Coarse(m, d, n)) && EndsInOrder(Coarse(m, d, n)) && WellSampled(Coarse(m, d, n), m)
    ensures forall r :: r in Runs(Coarse(m, d, n)) ==> r.Length() == d
    ensures NextCarrier(Coarse(m, d, n), 0, n + 1)
  {
    var s := Coarse(m, d, n);
    forall i, j | 0 <= i < j < |s| ensures s[i].start <= s[j].start && s[i].end <= s[j].end {
      AtMonotone(m, d, i, j);
    }
    forall k | 1 <= k < |s| ensures Hole(s, k) == 2.0 * m {
      AtMonotone(m, d, k - 1, k);
    }
    forall r | r in Runs(s) ensures r.Length() == d {
      SplitRuns(s, r);
    }
  }

  /** Above the run tolerance, zero intervals pass the gap check but are not glued, and any silence passes. */
  lemma CoarseHidesSilence(deadline: real, m: real) returns (w: Window, ivs: seq<Interval>, j: nat)
    requires deadline > 0.0 && m > 0.0 && 2.0 * m > RUN_TOLERANCE
    ensures w.deadline == deadline && Carried(w, ivs) && Survives(w, Some(m), ivs)
    ensures Ordered(ivs) == ivs && EndsInOrder(ivs) && NextCarrier(ivs, 0, j)
    ensures w.InCheck(ivs[0]) && w.InCheck(ivs[j])
    ensures ivs[j].start - ivs[0].end >= deadline + 4.0 * m
  {
    var d := if deadline < m then deadline / 2.0 else m / 2.0;
    d := if d < 1.0 then d else 1.0;
    j := Steps(deadline + 4.0 * m, 2.0 * m);
    ivs := Coarse(m, d, j - 1);
    w := Window(d / 2.0, At(m, d, j), 5.0, deadline);
    CoarseLength(deadline, m, d, j);
    CoarseSurvives(w, m, d, j);
    CoarseCarriers(w, m, d, j);
  }

  /** Enough steps of one size to cover a distance. */
  lemma Steps(distance: real, size: real) returns (n: nat)
    requires distance > 0.0 && size > 0.0
    ensures n > 0 && n as real * size >= distance
  {
    var x := distance / size;
    assert x * size == distance && x > 0.0;
    n := x.Floor + 1;
    assert n as real * size >= x * size;
  }

  lemma CoarseLength(deadline: real, m: real, d: real, j: nat)
    requires d > 0.0 && j > 0 && j as real * (2.0 * m) >= deadline + 4.0 * m
    ensures At(m, d, j) - d >= deadline + 4.0 * m
  {
    assert At(m, d, j) == j as real * (2.0 * m) + j as real * d;
    assert j as real * d >= 1.0 * d;
  }

  lemma CoarseSurvives(w: Window, m: real, d: real, j: nat)
    requires 2.0 * m > RUN_TOLERANCE && 0.0 < d <= m && d <= 1.0 && d < w.deadline && j > 0
    requires w.start == d / 2.0 && w.end == At(m, d, j) && w.pre == 5.0
    ensures Survives(w, Some(m), Coarse(m, d, j - 1))
  {
    var s := Coarse(m, d, j - 1);
    CoarseShape(m, d, j - 1);
    forall k | 0 <= k < |s| ensures w.InCheck(s[k]) {
      AtMonotone(m, d, 0, k);
      AtMonotone(m, d, k, j);
    }
    AllInCheck(w, s, |s|);
    assert s[..|s|] == s;
    SurvivesWith(w, m, s, 0, j);
  }

  lemma CoarseCarriers(w: Window, m: real, d: real, j: nat)
    requires 2.0 * m > RUN_TOLERANCE && 0.0 < d <= m && d <= 1.0 && d < w.deadline && j > 0
    requires w.start == d / 2.0 && w.end == At(m, d, j) && w.pre == 5.0
    ensures var s := Coarse(m, d, j - 1);
      && Carried(w, s) && Ordered(s) == s && EndsInOrder(s) && NextCarrier(s, 0, j)
      && w.InCheck(s[0]) && w.InCheck(s[j])
  {
    var s := Coarse(m, d, j - 1);
    CoarseShape(m, d, j - 1);
    AtMonotone(m, d, 0, j);
    AlreadyOrdered(s);
    assert s[0] in s;
  }

  ghost predicate SilenceUnder(deadline: real, m: real, bound: real) {
    forall w: Window, ivs: seq<Interval>, i: nat, j: nat {:trigger Survives(w, Some(m), ivs), NextCarrier(Ordered(ivs), i, j)} ::
      && w.deadline == deadline
      && Carried(w, ivs) && Survives(w, Some(m), ivs)
      && EndsInOrder(Ordered(ivs)) && NextCarrier(Ordered(ivs), i, j)
      && w.InCheck(Ordered(ivs)[i]) && w.InCheck(Ordered(ivs)[j])
      ==> Ordered(ivs)[j].start - Ordered(ivs)[i].end < bound
  }

  /** The silence bound holds for all evidence exactly when twice the sampling limit is within the run tolerance. */
  lemma SilenceBoundExact(deadline: real, m: real)
    requires deadline > 0.0 && m > 0.0
    ensures SilenceUnder(deadline, m, deadline + 4.0 * m) <==> 2.0 * m <= RUN_TOLERANCE
  {
    if 2.0 * m <= RUN_TOLERANCE {
      forall w: Window, ivs: seq<Interval>, i: nat, j: nat |
        && w.deadline == deadline
        && Carried(w, ivs) && Survives(w, Some(m), ivs)
        && EndsInOrder(Ordered(ivs)) && NextCarrier(Ordered(ivs), i, j)
        && w.InCheck(Ordered(ivs)[i]) && w.InCheck(Ordered(ivs)[j])
        ensures Ordered(ivs)[j].start - Ordered(ivs)[i].end < deadline + 4.0 * m
      {
        SilenceBounded(w, m, ivs, i, j);
      }
    } else {
      var w, ivs, j := CoarseHidesSilence(deadline, m);
      assert Survives(w, Some(m), ivs) && NextCarrier(Ordered(ivs), 0, j);
    }
  }
}
