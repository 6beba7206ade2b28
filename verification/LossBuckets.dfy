/** Bucketed ping loss (`loss_buckets`): replies and sequence gaps counted per stretch of wall time. */
module LossBuckets {
  import opened Sorting

  datatype Reply = Reply(epoch: real, seqno: int)

  datatype Bucket = Bucket(start: real, end: real, received: nat, expected: nat, lossPct: real)

  datatype Result = Buckets(buckets: seq<Bucket>) | BadInterval

  const byEpoch: (Reply, Reply) -> bool := (a: Reply, b: Reply) => a.epoch <= b.epoch

  ghost predicate InOrder(replies: seq<Reply>) {
    forall i, j :: 0 <= i < j < |replies| ==> replies[i].epoch <= replies[j].epoch
  }

  function Epochs(replies: seq<Reply>): (r: seq<real>)
    ensures |r| == |replies| && forall i :: 0 <= i < |r| ==> r[i] == replies[i].epoch
  {
    seq(|replies|, i requires 0 <= i < |replies| => replies[i].epoch)
  }

  /** Sequence numbers between two replies that were never answered. */
  function GapOf(previous: Reply, current: Reply): (g: nat) {
    if current.seqno - previous.seqno - 1 <= 0 then 0 else current.seqno - previous.seqno - 1
  }

  /** The interpolated epoch of the `o`-th missing probe between two replies. */
  function Interpolated(previous: Reply, current: Reply, o: nat): (t: real) {
    previous.epoch + (o as real / (GapOf(previous, current) + 1) as real) * (current.epoch - previous.epoch)
  }

  function GapProbes(previous: Reply, current: Reply, o: nat): (r: seq<real>)
    ensures |r| == o
  {
    if o == 0 then [] else GapProbes(previous, current, o - 1) + [Interpolated(previous, current, o)]
  }

  /** The epochs of all missing probes among the first `n` replies. */
  function Probes(ordered: seq<Reply>, n: nat): (r: seq<real>)
    requires n <= |ordered|
    ensures |r| == TotalGaps(ordered, n)
  {
    if n <= 1 then []
    else Probes(ordered, n - 1) + GapProbes(ordered[n - 2], ordered[n - 1], GapOf(ordered[n - 2], ordered[n - 1]))
  }

  function TotalGaps(ordered: seq<Reply>, n: nat): (g: nat)
    requires n <= |ordered|
  {
    if n <= 1 then 0 else TotalGaps(ordered, n - 1) + GapOf(ordered[n - 2], ordered[n - 1])
  }

  predicate InBucket(first: real, size: real, k: int, t: real) {
    Edge(first, size, k) <= t < Edge(first, size, k + 1)
  }

  /** Where bucket `k` starts. */
  function Edge(first: real, size: real, k: int): (t: real) {
    first + k as real * size
  }

  /** How many of the given instants fall into bucket `k`. */
  function CountIn(s: seq<real>, first: real, size: real, k: int): (c: nat) {
    if s == [] then 0
    else CountIn(s[..|s| - 1], first, size, k) + if InBucket(first, size, k, s[|s| - 1]) then 1 else 0
  }

  function BucketCount(first: real, last: real, size: real): (n: int)
    requires size > 0.0
  {
    var n := ((last - first) / size).Floor + 1;
    if n < 1 then 1 else n
  }

  /** The source's index of an instant, clamped to the buckets there are. */
  function BucketIndex(first: real, size: real, count: int, t: real): (k: int)
    requires size > 0.0
  {
    var raw := ((t - first) / size).Floor;
    var low := if raw < 0 then 0 else raw;
    if low > count - 1 then count - 1 else low
  }

  lemma Scaled(size: real, x: real, y: real)
    requires size > 0.0
    ensures x <= y ==> x * size <= y * size
    ensures x < y ==> x * size < y * size
  {
    assert (y - x) * size == y * size - x * size;
    if x < y { assert (y - x) * size > 0.0; }
  }

  lemma FloorInBucket(first: real, size: real, t: real)
    requires size > 0.0
    ensures InBucket(first, size, ((t - first) / size).Floor, t)
  {
    var x := (t - first) / size;
    assert x * size == t - first;
    assert x.Floor as real <= x < (x.Floor + 1) as real;
    BetweenEdges(first, size, x.Floor, x, t);
  }

  lemma BetweenEdges(first: real, size: real, k: int, x: real, t: real)
    requires size > 0.0 && k as real <= x < (k + 1) as real && x * size == t - first
    ensures InBucket(first, size, k, t)
  {
    NotBefore(first, size, k as real, x, t);
    Before(first, size, (k + 1) as real, x, t);
  }

  lemma NotBefore(first: real, size: real, low: real, x: real, t: real)
    requires size > 0.0 && low <= x && x * size == t - first
    ensures first + low * size <= t
  {
    Scaled(size, low, x);
  }

  lemma Before(first: real, size: real, high: real, x: real, t: real)
    requires size > 0.0 && x < high && x * size == t - first
    ensures t < first + high * size
  {
    Scaled(size, x, high);
  }

  lemma EdgesInOrder(first: real, size: real, i: int, j: int)
    requires size > 0.0 && i <= j
    ensures Edge(first, size, i) <= Edge(first, size, j)
  {
    Scaled(size, i as real, j as real);
  }

  lemma BucketUnique(first: real, size: real, i: int, j: int, t: real)
    requires size > 0.0 && InBucket(first, size, i, t) && InBucket(first, size, j, t)
    ensures i == j
  {
    if i < j {
      EdgesInOrder(first, size, i + 1, j);
    } else if j < i {
      EdgesInOrder(first, size, j + 1, i);
    }
  }

  lemma QuotientMonotone(size: real, x: real, y: real)
    requires size > 0.0 && x <= y
    ensures x / size <= y / size
  {
    var q, r := x / size, y / size;
    assert q * size == x && r * size == y;
    assert (r - q) * size >= 0.0;
  }

  /** The clamp never changes an index: every instant between the first and the last reply has a bucket of its own. */
  lemma ClampIsIdle(first: real, last: real, size: real, t: real)
    requires size > 0.0 && first <= t <= last
    ensures var count := BucketCount(first, last, size);
      && BucketIndex(first, size, count, t) == ((t - first) / size).Floor
      && 0 <= BucketIndex(first, size, count, t) < count
      && forall k :: InBucket(first, size, k, t) <==> k == BucketIndex(first, size, count, t)
  {
    QuotientMonotone(size, 0.0, t - first);
    QuotientMonotone(size, t - first, last - first);
    assert 0.0 / size == 0.0;
    FloorInBucket(first, size, t);
    var i := ((t - first) / size).Floor;
    forall k | InBucket(first, size, k, t) ensures k == i {
      BucketUnique(first, size, k, i, t);
    }
  }

  /** A missing probe is placed between its two neighbours. */
  lemma InterpolatedBetween(previous: Reply, current: Reply, o: nat)
    requires previous.epoch <= current.epoch && 1 <= o <= GapOf(previous, current)
    ensures previous.epoch <= Interpolated(previous, current, o) <= current.epoch
  {
    var n := (GapOf(previous, current) + 1) as real;
    var f := o as real / n;
    assert f * n == o as real;
    assert (1.0 - f) * n >= 0.0;
    assert 0.0 <= f <= 1.0;
    var d := current.epoch - previous.epoch;
    assert 0.0 <= f * d <= 1.0 * d;
  }

  /** Counting one more instant adds one to its own bucket and nothing to the others. */
  lemma CountStep(s: seq<real>, first: real, last: real, size: real, t: real, k: int)
    requires size > 0.0 && first <= t <= last
    ensures CountIn(s + [t], first, size, k)
         == CountIn(s, first, size, k) + if k == BucketIndex(first, size, BucketCount(first, last, size), t) then 1 else 0
  {
    assert (s + [t])[..|s|] == s;
    ClampIsIdle(first, last, size, t);
  }

  method CountReplies(ordered: seq<Reply>, first: real, last: real, size: real, received: array<nat>)
    requires size > 0.0 && received.Length == BucketCount(first, last, size)
    requires forall i :: 0 <= i < |ordered| ==> first <= ordered[i].epoch <= last
    requires forall k :: 0 <= k < received.Length ==> received[k] == 0
    modifies received
    ensures forall k :: 0 <= k < received.Length ==> received[k] == CountIn(Epochs(ordered), first, size, k)
  {
    for n := 0 to |ordered|
      invariant forall k :: 0 <= k < received.Length ==> received[k] == CountIn(Epochs(ordered[..n]), first, size, k)
    {
      var t := ordered[n].epoch;
      assert Epochs(ordered[..n + 1]) == Epochs(ordered[..n]) + [t];
      forall k | 0 <= k < received.Length
        ensures CountIn(Epochs(ordered[..n + 1]), first, size, k) == received[k] + if k == BucketIndex(first, size, received.Length, t) then 1 else 0
      {
        CountStep(Epochs(ordered[..n]), first, last, size, t, k);
      }
      ClampIsIdle(first, last, size, t);
      var index := BucketIndex(first, size, received.Length, t);
      received[index] := received[index] + 1;
    }
    assert ordered[..|ordered|] == ordered;
  }

  /** The inner loop over one gap. */
  method CountGap(previous: Reply, current: Reply, first: real, last: real, size: real, missing: array<nat>, ghost before: seq<real>)
    requires size > 0.0 && missing.Length == BucketCount(first, last, size)
    requires first <= previous.epoch <= current.epoch <= last
    requires forall k :: 0 <= k < missing.Length ==> missing[k] == CountIn(before, first, size, k)
    modifies missing
    ensures forall k :: 0 <= k < missing.Length ==>
      missing[k] == CountIn(before + GapProbes(previous, current, GapOf(previous, current)), first, size, k)
  {
    var gap := GapOf(previous, current);
    assert before + [] == before;
    for o := 0 to gap
      invariant forall k :: 0 <= k < missing.Length ==>
        missing[k] == CountIn(before + GapProbes(previous, current, o), first, size, k)
    {
      var t := Interpolated(previous, current, o + 1);
      InterpolatedBetween(previous, current, o + 1);
      ghost var sofar := before + GapProbes(previous, current, o);
      assert before + GapProbes(previous, current, o + 1) == sofar + [t];
      forall k | 0 <= k < missing.Length
        ensures CountIn(sofar + [t], first, size, k) == missing[k] + if k == BucketIndex(first, size, missing.Length, t) then 1 else 0
      {
        CountStep(sofar, first, last, size, t, k);
      }
      ClampIsIdle(first, last, size, t);
      var index := BucketIndex(first, size, missing.Length, t);
      missing[index] := missing[index] + 1;
    }
  }

  method CountMissing(ordered: seq<Reply>, first: real, last: real, size: real, missing: array<nat>)
    requires size > 0.0 && missing.Length == BucketCount(first, last, size)
    requires InOrder(ordered)
    requires forall i :: 0 <= i < |ordered| ==> first <= ordered[i].epoch <= last
    requires forall k :: 0 <= k < missing.Length ==> missing[k] == 0
    modifies missing
    ensures forall k :: 0 <= k < missing.Length ==> missing[k] == CountIn(Probes(ordered, |ordered|), first, size, k)
  {
    if |ordered| <= 1 {
      return;
    }
    for n := 1 to |ordered|
      invariant forall k :: 0 <= k < missing.Length ==> missing[k] == CountIn(Probes(ordered, n), first, size, k)
    {
      CountGap(ordered[n - 1], ordered[n], first, last, size, missing, Probes(ordered, n));
      assert Probes(ordered, n + 1)
          == Probes(ordered, n) + GapProbes(ordered[n - 1], ordered[n], GapOf(ordered[n - 1], ordered[n]));
    }
  }

  /** What bucket `k` has to say: its bounds, and the instants that fall between them. */
  ghost predicate IsBucket(ordered: seq<Reply>, size: real, k: nat, b: Bucket)
    requires ordered != []
  {
    var first := ordered[0].epoch;
    var missing := CountIn(Probes(ordered, |ordered|), first, size, k);
    && b.start == first + k as real * size
    && b.end == b.start + size
    && b.received == CountIn(Epochs(ordered), first, size, k)
    && b.expected == b.received + missing
    && b.lossPct == if b.expected == 0 then 0.0 else 100.0 * missing as real / b.expected as real
  }

  ghost predicate AreBuckets(ordered: seq<Reply>, size: real, buckets: seq<Bucket>)
    requires ordered != [] && size > 0.0
  {
    && |buckets| == BucketCount(ordered[0].epoch, ordered[|ordered| - 1].epoch, size)
    && forall k :: 0 <= k < |buckets| ==> IsBucket(ordered, size, k, buckets[k])
  }

  method LossBuckets(replies: seq<Reply>, bucketSec: real, intervalSec: real) returns (r: Result)
    ensures r.BadInterval? <==> bucketSec <= 0.0 || intervalSec <= 0.0
    ensures r.Buckets? ==> (replies == [] ==> r.buckets == [])
    ensures r.Buckets? && replies != [] ==>
      Sort(replies, byEpoch) != [] && AreBuckets(Sort(replies, byEpoch), bucketSec, r.buckets)
  {
    if bucketSec <= 0.0 || intervalSec <= 0.0 {
      return BadInterval;
    }
    if replies == [] {
      return Buckets([]);
    }
    var ordered := Sort(replies, byEpoch);
    SortSorts(replies, byEpoch);
    assert InOrder(ordered);
    var buckets := Fill(ordered, bucketSec);
    return Buckets(buckets);
  }

  /** The two arrays of counters, filled and put together. */
  method Fill(ordered: seq<Reply>, size: real) returns (buckets: seq<Bucket>)
    requires ordered != [] && size > 0.0 && InOrder(ordered)
    ensures AreBuckets(ordered, size, buckets)
  {
    var first, last := ordered[0].epoch, ordered[|ordered| - 1].epoch;
    var count := BucketCount(first, last, size);
    var received := new nat[count](_ => 0);
    var missing := new nat[count](_ => 0);
    CountReplies(ordered, first, last, size, received);
    CountMissing(ordered, first, last, size, missing);
    buckets := Assemble(ordered, size, received[..], missing[..]);
  }

  method Assemble(ordered: seq<Reply>, size: real, received: seq<nat>, missing: seq<nat>) returns (buckets: seq<Bucket>)
    requires ordered != [] && size > 0.0
    requires |received| == |missing| == BucketCount(ordered[0].epoch, ordered[|ordered| - 1].epoch, size)
    requires forall k :: 0 <= k < |received| ==> received[k] == CountIn(Epochs(ordered), ordered[0].epoch, size, k)
    requires forall k :: 0 <= k < |missing| ==> missing[k] == CountIn(Probes(ordered, |ordered|), ordered[0].epoch, size, k)
    ensures AreBuckets(ordered, size, buckets)
  {
    buckets := [];
    for k := 0 to |received|
      invariant |buckets| == k
      invariant forall i :: 0 <= i < k ==> IsBucket(ordered, size, i, buckets[i])
    {
      var start := ordered[0].epoch + k as real * size;
      var expected := received[k] + missing[k];
      var lossPct := if expected == 0 then 0.0 else 100.0 * missing[k] as real / expected as real;
      buckets := buckets + [Bucket(start, start + size, received[k], expected, lossPct)];
    }
  }

  /** The instants that fall into one of the first `n` buckets, counted bucket by bucket. */
  ghost function SumCounts(s: seq<real>, first: real, size: real, n: nat): (c: nat) {
    if n == 0 then 0 else SumCounts(s, first, size, n - 1) + CountIn(s, first, size, n - 1)
  }

  lemma {:induction false} SumStep(s: seq<real>, first: real, last: real, size: real, t: real, n: nat)
    requires size > 0.0 && first <= t <= last
    ensures SumCounts(s + [t], first, size, n)
         == SumCounts(s, first, size, n) + if BucketIndex(first, size, BucketCount(first, last, size), t) < n then 1 else 0
  {
    if n > 0 {
      SumStep(s, first, last, size, t, n - 1);
      CountStep(s, first, last, size, t, n - 1);
    }
    ClampIsIdle(first, last, size, t);
  }

  lemma {:induction false} SumIsLength(s: seq<real>, first: real, last: real, size: real)
    requires size > 0.0
    requires forall i :: 0 <= i < |s| ==> first <= s[i] <= last
    ensures SumCounts(s, first, size, BucketCount(first, last, size)) == |s|
  {
    var count := BucketCount(first, last, size);
    if s == [] {
      SumOfNone(first, size, count);
    } else {
      var front, t := s[..|s| - 1], s[|s| - 1];
      assert s == front + [t];
      SumIsLength(front, first, last, size);
      SumStep(front, first, last, size, t, count);
      ClampIsIdle(first, last, size, t);
    }
  }

  lemma {:induction false} SumOfNone(first: real, size: real, n: nat)
    ensures SumCounts([], first, size, n) == 0
  {
    if n > 0 { SumOfNone(first, size, n - 1); }
  }

  ghost function SumReceived(buckets: seq<Bucket>, n: nat): (c: nat)
    requires n <= |buckets|
  {
    if n == 0 then 0 else SumReceived(buckets, n - 1) + buckets[n - 1].received
  }

  ghost function SumExpected(buckets: seq<Bucket>, n: nat): (c: nat)
    requires n <= |buckets|
  {
    if n == 0 then 0 else SumExpected(buckets, n - 1) + buckets[n - 1].expected
  }

  lemma {:induction false} SumsAreCounts(ordered: seq<Reply>, size: real, buckets: seq<Bucket>, n: nat)
    requires ordered != [] && size > 0.0 && AreBuckets(ordered, size, buckets) && n <= |buckets|
    ensures SumReceived(buckets, n) == SumCounts(Epochs(ordered), ordered[0].epoch, size, n)
    ensures SumExpected(buckets, n)
         == SumReceived(buckets, n) + SumCounts(Probes(ordered, |ordered|), ordered[0].epoch, size, n)
  {
    if n > 0 {
      SumsAreCounts(ordered, size, buckets, n - 1);
      assert IsBucket(ordered, size, n - 1, buckets[n - 1]);
    }
  }

  /** Every missing probe lies between the first and the last reply. */
  lemma {:induction false} ProbesInRange(ordered: seq<Reply>, n: nat, i: nat)
    requires InOrder(ordered) && n <= |ordered| && i < |Probes(ordered, n)|
    ensures ordered[0].epoch <= Probes(ordered, n)[i] <= ordered[|ordered| - 1].epoch
  {
    var before := Probes(ordered, n - 1);
    if i < |before| {
      ProbesInRange(ordered, n - 1, i);
    } else {
      var p, c := ordered[n - 2], ordered[n - 1];
      GapProbeAt(p, c, GapOf(p, c), i - |before|);
      InterpolatedBetween(p, c, i - |before| + 1);
    }
  }

  lemma {:induction false} GapProbeAt(previous: Reply, current: Reply, o: nat, i: nat)
    requires i < o
    ensures GapProbes(previous, current, o)[i] == Interpolated(previous, current, i + 1)
  {
    if i < o - 1 { GapProbeAt(previous, current, o - 1, i); }
  }

  /** Conservation: the buckets account for every reply and for every missing sequence number. */
  lemma BucketsConserve(ordered: seq<Reply>, size: real, buckets: seq<Bucket>)
    requires ordered != [] && size > 0.0 && InOrder(ordered) && AreBuckets(ordered, size, buckets)
    ensures SumReceived(buckets, |buckets|) == |ordered|
    ensures SumExpected(buckets, |buckets|) == |ordered| + TotalGaps(ordered, |ordered|)
  {
    var first, last := ordered[0].epoch, ordered[|ordered| - 1].epoch;
    SumsAreCounts(ordered, size, buckets, |buckets|);
    SumIsLength(Epochs(ordered), first, last, size);
    forall i | 0 <= i < |Probes(ordered, |ordered|)|
      ensures first <= Probes(ordered, |ordered|)[i] <= last
    {
      ProbesInRange(ordered, |ordered|, i);
    }
    SumIsLength(Probes(ordered, |ordered|), first, last, size);
  }

  lemma {:induction false} GapsTelescope(ordered: seq<Reply>, n: nat)
    requires 0 < n <= |ordered|
    requires forall i :: 1 <= i < n ==> Advances(ordered, i)
    ensures n + TotalGaps(ordered, n) == ordered[n - 1].seqno - ordered[0].seqno + 1
  {
    if n > 1 {
      GapsTelescope(ordered, n - 1);
      assert Advances(ordered, n - 1);
    }
  }

  /** The sequence number of a reply is above that of the reply before it. */
  predicate Advances(ordered: seq<Reply>, i: nat)
    requires 1 <= i < |ordered|
  {
    ordered[i - 1].seqno < ordered[i].seqno
  }

  /** When sequence numbers increase with time, the total expected is the span of sequence numbers. */
  lemma ExpectedTelescopes(ordered: seq<Reply>, size: real, buckets: seq<Bucket>)
    requires ordered != [] && size > 0.0 && InOrder(ordered) && AreBuckets(ordered, size, buckets)
    requires forall i :: 1 <= i < |ordered| ==> Advances(ordered, i)
    ensures SumExpected(buckets, |buckets|) == ordered[|ordered| - 1].seqno - ordered[0].seqno + 1
  {
    BucketsConserve(ordered, size, buckets);
    GapsTelescope(ordered, |ordered|);
  }
}
