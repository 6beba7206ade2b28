/** Scoring one planned move (`score_planned_move`): PASS, COST or FAIL. */
module PlannedMoves {
  import opened Basics
  import opened ExcuseWindows

  /** One reporting interval: its bounds and, per stream it reports, whether the stream was stalled. */
  datatype Row = Row(lo: real, hi: real, stalled: map<string, bool>)

  datatype Params = Params(minFull: real, maxStall: real)

  datatype Verdict = PASS | COST | FAIL

  datatype Score = Score(
    stalled: set<string>,
    stallSec: map<string, real>,
    died: set<string>,
    aggregateZero: nat,
    zeroIntervals: nat,
    verdict: Verdict)

  predicate StalledAt(rows: seq<Row>, sid: string, i: nat)
    requires i < |rows|
  {
    sid in rows[i].stalled && rows[i].stalled[sid]
  }

  predicate InWindow(p: Params, ws: seq<Window>, rows: seq<Row>, i: nat)
    requires i < |rows|
  {
    Inside(p.minFull, ws, rows[i].lo, rows[i].hi)
  }

  /** Every stream the row reports is stalled, and it reports at least one. */
  predicate AllStalled(row: Row) {
    row.stalled != map[] && forall sid :: sid in row.stalled ==> row.stalled[sid]
  }

  /** A maximal stretch of consecutive rows, first and last included, in which the stream is stalled. */
  ghost predicate StallRun(rows: seq<Row>, sid: string, a: nat, b: nat) {
    && a <= b < |rows|
    && (forall k :: a <= k <= b ==> StalledAt(rows, sid, k))
    && (a > 0 ==> !StalledAt(rows, sid, a - 1))
    && (b + 1 < |rows| ==> !StalledAt(rows, sid, b + 1))
  }

  ghost predicate TouchingRun(p: Params, ws: seq<Window>, rows: seq<Row>, sid: string, a: nat, b: nat) {
    StallRun(rows, sid, a, b) && exists i :: a <= i <= b && InWindow(p, ws, rows, i)
  }

  function RunLength(rows: seq<Row>, a: nat, b: nat): (r: real)
    requires a < |rows| && b < |rows|
  {
    rows[b].hi - rows[a].lo
  }

  /** The stream is reported as not stalled in some row after `b`. */
  predicate Recovers(rows: seq<Row>, sid: string, b: nat) {
    exists j :: b < j < |rows| && sid in rows[j].stalled && !rows[j].stalled[sid]
  }

  /** The longest stall that touches the window; zero if there is none. */
  ghost predicate IsLongest(p: Params, ws: seq<Window>, rows: seq<Row>, sid: string, best: real) {
    && best >= 0.0
    && (forall a, b :: TouchingRun(p, ws, rows, sid, a, b) ==> RunLength(rows, a, b) <= best)
    && (best == 0.0 || exists a, b :: TouchingRun(p, ws, rows, sid, a, b) && RunLength(rows, a, b) == best)
  }

  ghost predicate AlwaysRecovers(p: Params, ws: seq<Window>, rows: seq<Row>, sid: string) {
    forall a, b :: TouchingRun(p, ws, rows, sid, a, b) ==> Recovers(rows, sid, b)
  }

  /** Python's `round(x, 3)`: to the nearest thousandth, a tie going to the even one. */
  function Round3(x: real): (r: real) {
    var whole := (x * 1000.0).Floor;
    var rest := x * 1000.0 - whole as real;
    var n := if rest < 0.5 || (rest == 0.5 && whole % 2 == 0) then whole else whole + 1;
    n as real / 1000.0
  }

  /** The stretch of stalled rows around a stalled row, found by walking both ways. */
  method RunAround(rows: seq<Row>, sid: string, i: nat) returns (lo: nat, hi: nat)
    requires i < |rows| && StalledAt(rows, sid, i)
    ensures StallRun(rows, sid, lo, hi) && lo <= i <= hi
  {
    lo := i;
    while lo > 0 && StalledAt(rows, sid, lo - 1)
      invariant lo <= i && forall k :: lo <= k <= i ==> StalledAt(rows, sid, k)
    {
      lo := lo - 1;
    }
    hi := i;
    while hi + 1 < |rows| && StalledAt(rows, sid, hi + 1)
      invariant i <= hi < |rows| && forall k :: i <= k <= hi ==> StalledAt(rows, sid, k)
    {
      hi := hi + 1;
    }
  }

  /** A row lies in at most one maximal stretch. */
  lemma RunUnique(rows: seq<Row>, sid: string, a: nat, b: nat, a': nat, b': nat, i: nat)
    requires StallRun(rows, sid, a, b) && StallRun(rows, sid, a', b')
    requires a <= i <= b && a' <= i <= b'
    ensures a == a' && b == b'
  {}

  /** The longest stall of one stream and whether every one of its stalls ended. */
  method WorstStall(p: Params, ws: seq<Window>, rows: seq<Row>, sid: string) returns (best: real, recovered: bool)
    ensures IsLongest(p, ws, rows, sid, best)
    ensures recovered <==> AlwaysRecovers(p, ws, rows, sid)
  {
    best, recovered := 0.0, true;
    for i := 0 to |rows|
      invariant best >= 0.0
      invariant best == 0.0 || exists a, b :: TouchingRun(p, ws, rows, sid, a, b) && RunLength(rows, a, b) == best
      invariant forall a: nat, b: nat, k: nat :: StallRun(rows, sid, a, b) && a <= k <= b && k < i && InWindow(p, ws, rows, k) ==>
        RunLength(rows, a, b) <= best && (recovered ==> Recovers(rows, sid, b))
      invariant !recovered ==> !AlwaysRecovers(p, ws, rows, sid)
    {
      if !InWindow(p, ws, rows, i) || !StalledAt(rows, sid, i) {
        continue;
      }
      var lo, hi := RunAround(rows, sid, i);
      assert TouchingRun(p, ws, rows, sid, lo, hi);
      forall a: nat, b: nat | StallRun(rows, sid, a, b) && a <= i <= b ensures a == lo && b == hi {
        RunUnique(rows, sid, a, b, lo, hi, i);
      }
      best := Max(best, RunLength(rows, lo, hi));
      if !Recovers(rows, sid, hi) {
        recovered := false;
      }
    }
  }

  ghost predicate Stalls(p: Params, ws: seq<Window>, rows: seq<Row>, sid: string) {
    exists i :: 0 <= i < |rows| && InWindow(p, ws, rows, i) && StalledAt(rows, sid, i)
  }

  ghost predicate AggregateOutage(p: Params, ws: seq<Window>, rows: seq<Row>) {
    exists i :: 0 <= i < |rows| && InWindow(p, ws, rows, i) && AllStalled(rows[i])
  }

  ghost predicate WithinBound(p: Params, ws: seq<Window>, rows: seq<Row>, sid: string) {
    exists best :: IsLongest(p, ws, rows, sid, best) && Round3(best) <= p.maxStall + EPS
  }

  /** A cost: one stream alone stalled, never all of them at once, not for too long, and it came back. */
  ghost predicate CostOf(p: Params, ws: seq<Window>, rows: seq<Row>, sid: string) {
    && Stalls(p, ws, rows, sid)
    && (forall other :: Stalls(p, ws, rows, other) ==> other == sid)
    && !AggregateOutage(p, ws, rows)
    && WithinBound(p, ws, rows, sid)
    && AlwaysRecovers(p, ws, rows, sid)
  }

  lemma LongestUnique(p: Params, ws: seq<Window>, rows: seq<Row>, sid: string, x: real, y: real)
    requires IsLongest(p, ws, rows, sid, x) && IsLongest(p, ws, rows, sid, y)
    ensures x == y
  {}

  /** The longest stall of every stalled stream, and which of them never came back. */
  method MeasureStalls(p: Params, ws: seq<Window>, rows: seq<Row>, stalled: set<string>)
    returns (stallSec: map<string, real>, died: set<string>)
    ensures stallSec.Keys == stalled && died <= stalled
    ensures forall sid :: sid in stalled ==> (sid in died <==> !AlwaysRecovers(p, ws, rows, sid))
    ensures forall sid :: sid in stalled ==>
      exists best :: IsLongest(p, ws, rows, sid, best) && stallSec[sid] == Round3(best)
  {
    stallSec, died := map[], {};
    var todo := stalled;
    while todo != {}
      invariant todo <= stalled && stallSec.Keys == stalled - todo && died <= stalled - todo
      invariant forall sid :: sid in stalled - todo ==> (sid in died <==> !AlwaysRecovers(p, ws, rows, sid))
      invariant forall sid :: sid in stalled - todo ==>
        exists best :: IsLongest(p, ws, rows, sid, best) && stallSec[sid] == Round3(best)
      decreases todo
    {
      var sid :| sid in todo;
      var best, recovered := WorstStall(p, ws, rows, sid);
      stallSec := stallSec[sid := Round3(best)];
      if !recovered {
        died := died + {sid};
      }
      todo := todo - {sid};
    }
  }

  function StalledStreams(p: Params, ws: seq<Window>, rows: seq<Row>): (r: set<string>)
    ensures forall sid :: sid in r <==> Stalls(p, ws, rows, sid)
  {
    set i, sid | 0 <= i < |rows| && InWindow(p, ws, rows, i) && sid in rows[i].stalled && StalledAt(rows, sid, i) :: sid
  }

  /** The stalled stream intervals in the window, as pairs of a row and a stream. */
  function StalledCells(p: Params, ws: seq<Window>, rows: seq<Row>): (r: set<(nat, string)>) {
    set i: nat, sid | i < |rows| && InWindow(p, ws, rows, i) && sid in rows[i].stalled && StalledAt(rows, sid, i) :: (i, sid)
  }

  function AggregateRows(p: Params, ws: seq<Window>, rows: seq<Row>): (r: set<nat>) {
    set i: nat | i < |rows| && InWindow(p, ws, rows, i) && AllStalled(rows[i])
  }

  /** The exact three-way classification of a planned move. */
  method ScorePlannedMove(p: Params, ws: seq<Window>, rows: seq<Row>) returns (score: Score)
    ensures forall sid :: sid in score.stalled <==> Stalls(p, ws, rows, sid)
    ensures score.aggregateZero == |AggregateRows(p, ws, rows)|
    ensures score.zeroIntervals == |StalledCells(p, ws, rows)|
    ensures score.stallSec.Keys == score.stalled
    ensures forall sid :: sid in score.stalled ==>
      exists best :: IsLongest(p, ws, rows, sid, best) && score.stallSec[sid] == Round3(best)
    ensures forall sid :: sid in score.died <==> Stalls(p, ws, rows, sid) && !AlwaysRecovers(p, ws, rows, sid)
    ensures score.verdict == PASS <==> forall sid :: !Stalls(p, ws, rows, sid)
    ensures score.verdict == COST <==> exists sid :: CostOf(p, ws, rows, sid)
  {
    var stalled := StalledStreams(p, ws, rows);
    var zeroIntervals := |StalledCells(p, ws, rows)|;
    var aggregateZero := |AggregateRows(p, ws, rows)|;
    AggregateMeans(p, ws, rows);
    var stallSec, died := MeasureStalls(p, ws, rows, stalled);
    var over := set sid | sid in stallSec && stallSec[sid] > p.maxStall + EPS;
    forall sid | sid in stalled ensures sid !in over <==> WithinBound(p, ws, rows, sid) {
      var best :| IsLongest(p, ws, rows, sid, best) && stallSec[sid] == Round3(best);
      if x :| IsLongest(p, ws, rows, sid, x) && Round3(x) <= p.maxStall + EPS {
        LongestUnique(p, ws, rows, sid, best, x);
      }
    }
    var verdict;
    if stalled == {} && aggregateZero == 0 {
      verdict := PASS;
    } else if aggregateZero > 0 || |stalled| > 1 || over != {} || died != {} {
      verdict := FAIL;
    } else {
      verdict := COST;
    }
    SoleMember(stalled);
    score := Score(stalled, stallSec, died, aggregateZero, zeroIntervals, verdict);
    CostMeans(p, ws, rows, score, over);
  }

  lemma SoleMember<T>(s: set<T>)
    ensures |s| == 1 <==> exists x :: s == {x}
    ensures |s| == 0 <==> s == {}
  {
    if |s| == 1 {
      var x :| x in s;
      assert |s - {x}| == 0;
      assert s == {x};
    }
  }

  lemma AggregateMeans(p: Params, ws: seq<Window>, rows: seq<Row>)
    ensures |AggregateRows(p, ws, rows)| > 0 <==> AggregateOutage(p, ws, rows)
    ensures AggregateOutage(p, ws, rows) ==> exists sid :: Stalls(p, ws, rows, sid)
  {
    if AggregateOutage(p, ws, rows) {
      var i :| 0 <= i < |rows| && InWindow(p, ws, rows, i) && AllStalled(rows[i]);
      assert i in AggregateRows(p, ws, rows);
      var sid :| sid in rows[i].stalled;
      assert StalledAt(rows, sid, i);
      assert Stalls(p, ws, rows, sid);
    } else {
      assert AggregateRows(p, ws, rows) == {};
    }
  }

  lemma CostMeans(p: Params, ws: seq<Window>, rows: seq<Row>, score: Score, over: set<string>)
    requires forall sid :: sid in score.stalled <==> Stalls(p, ws, rows, sid)
    requires score.aggregateZero > 0 <==> AggregateOutage(p, ws, rows)
    requires over <= score.stalled && forall sid :: sid in score.stalled ==> (sid !in over <==> WithinBound(p, ws, rows, sid))
    requires score.died <= score.stalled
    requires forall sid :: sid in score.stalled ==> (sid in score.died <==> !AlwaysRecovers(p, ws, rows, sid))
    ensures (exists sid :: CostOf(p, ws, rows, sid))
      <==> score.aggregateZero == 0 && |score.stalled| == 1 && over == {} && score.died == {}
  {
    SoleMember(score.stalled);
    if sid :| CostOf(p, ws, rows, sid) {
      assert score.stalled == {sid};
    }
    if score.aggregateZero == 0 && |score.stalled| == 1 && over == {} && score.died == {} {
      var sid :| score.stalled == {sid};
      assert sid in score.stalled;
      assert CostOf(p, ws, rows, sid);
    }
  }

  /** The longest stall among those that start before row `n` exists. */
  lemma {:induction false} LongestExists(p: Params, ws: seq<Window>, rows: seq<Row>, sid: string, n: nat)
    returns (best: real)
    requires n <= |rows|
    ensures best >= 0.0
    ensures forall a: nat, b: nat :: TouchingRun(p, ws, rows, sid, a, b) && a < n ==> RunLength(rows, a, b) <= best
    ensures best == 0.0 || exists a, b :: TouchingRun(p, ws, rows, sid, a, b) && RunLength(rows, a, b) == best
  {
    best := 0.0;
    if n > 0 {
      var m := n - 1;
      best := LongestExists(p, ws, rows, sid, m);
      if b: nat :| TouchingRun(p, ws, rows, sid, m, b) {
        forall b': nat | TouchingRun(p, ws, rows, sid, m, b') ensures b' == b {
          RunUnique(rows, sid, m, b, m, b', m);
        }
        best := Max(best, RunLength(rows, m, b));
      }
    }
  }

  /** A time on the millisecond grid. */
  predicate OnGrid(x: real) {
    (x * 1000.0).Floor as real == x * 1000.0
  }

  /** The rounding and the tolerance vanish on the grid: the bound compares the longest stall itself. */
  lemma GridBound(x: real, bound: real)
    requires OnGrid(x) && OnGrid(bound)
    ensures Round3(x) == x
    ensures Round3(x) <= bound + EPS <==> x <= bound
  {
    if x > bound {
      assert (x * 1000.0).Floor > (bound * 1000.0).Floor;
      assert x * 1000.0 >= bound * 1000.0 + 1.0;
    }
  }

  /** On the grid, a stall is within the bound exactly when every stall that touches the window is. */
  lemma WithinBoundOnGrid(p: Params, ws: seq<Window>, rows: seq<Row>, sid: string)
    requires OnGrid(p.maxStall) && p.maxStall >= 0.0
    requires forall a, b :: 0 <= a < |rows| && 0 <= b < |rows| ==> OnGrid(RunLength(rows, a, b))
    ensures WithinBound(p, ws, rows, sid)
      <==> forall a, b :: TouchingRun(p, ws, rows, sid, a, b) ==> RunLength(rows, a, b) <= p.maxStall
  {
    var best := LongestExists(p, ws, rows, sid, |rows|);
    assert OnGrid(best);
    GridBound(best, p.maxStall);
    if WithinBound(p, ws, rows, sid) {
      var x :| IsLongest(p, ws, rows, sid, x) && Round3(x) <= p.maxStall + EPS;
      LongestUnique(p, ws, rows, sid, best, x);
    }
  }
}
