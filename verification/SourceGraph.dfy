/** The reachability worklist of the Rust source census (`source_graph`). */
module SourceGraph {

  /** Files by name, the crate roots, and for each file the targets its text mentions, in some order. */
  datatype Crate = Crate(files: set<string>, roots: seq<string>, edges: map<string, seq<string>>)

  predicate Edge(c: Crate, x: string, y: string) {
    x in c.edges && y in c.edges[x] && y in c.files
  }

  /** A non-empty walk along recorded edges through existing files. */
  ghost predicate Walk(c: Crate, p: seq<string>) {
    && p != []
    && p[0] in c.roots && p[0] in c.files
    && forall k :: 0 <= k < |p| - 1 ==> Edge(c, p[k], p[k + 1])
  }

  ghost predicate Reachable(c: Crate, x: string) {
    exists p :: Walk(c, p) && p[|p| - 1] == x
  }

  lemma ReachableStep(c: Crate, x: string, y: string)
    requires Reachable(c, x) && Edge(c, x, y)
    ensures Reachable(c, y)
  {
    var p :| Walk(c, p) && p[|p| - 1] == x;
    assert Walk(c, p + [y]);
    assert (p + [y])[|p + [y]| - 1] == y;
  }

  ghost predicate Closed(c: Crate, s: set<string>) {
    && (forall r :: r in c.roots && r in c.files ==> r in s)
    && (forall x, y :: x in s && Edge(c, x, y) ==> y in s)
  }

  lemma {:induction false} ClosedHoldsWalk(c: Crate, s: set<string>, p: seq<string>, n: nat)
    requires Closed(c, s) && Walk(c, p) && n < |p|
    ensures p[n] in s
  {
    if n > 0 {
      ClosedHoldsWalk(c, s, p, n - 1);
      assert Edge(c, p[n - 1], p[n]);
    }
  }

  /** The entries of a list that name an existing file outside `seen`, in order. */
  function Fresh(c: Crate, names: seq<string>, seen: set<string>): (r: seq<string>)
    ensures forall y :: y in r <==> y in names && y in c.files && y !in seen
  {
    if names == [] then []
    else if names[0] in c.files && names[0] !in seen then [names[0]] + Fresh(c, names[1..], seen)
    else Fresh(c, names[1..], seen)
  }

  /** What the worklist keeps: only reachable files are met, and nothing met is forgotten. */
  ghost predicate Sound(c: Crate, seen: set<string>, stack: seq<string>) {
    && (forall x :: x in seen || x in stack ==> x in c.files && Reachable(c, x))
    && (forall r :: r in c.roots && r in c.files ==> r in seen || r in stack)
    && (forall x, y :: x in seen && Edge(c, x, y) ==> y in seen || y in stack)
  }

  lemma InitiallySound(c: Crate)
    ensures Sound(c, {}, Fresh(c, c.roots, {}))
  {
    forall x | x in Fresh(c, c.roots, {}) ensures Reachable(c, x) {
      assert Walk(c, [x]);
      assert [x][|[x]| - 1] == x;
    }
  }

  lemma VisitKeepsSound(c: Crate, seen: set<string>, stack: seq<string>, current: string)
    requires Sound(c, seen, stack + [current])
    ensures current in seen ==> Sound(c, seen, stack)
    ensures current !in seen ==>
      var targets := if current in c.edges then c.edges[current] else [];
      Sound(c, seen + {current}, stack + Fresh(c, targets, seen + {current}))
  {
    assert current in stack + [current];
    assert forall x :: x in stack + [current] <==> x in stack || x == current;
    if current !in seen {
      var targets := if current in c.edges then c.edges[current] else [];
      var added := Fresh(c, targets, seen + {current});
      forall y | y in added ensures Reachable(c, y) {
        ReachableStep(c, current, y);
      }
    }
  }

  /** With nothing left to visit, exactly the reachable files have been met. */
  lemma SoundIsExact(c: Crate, seen: set<string>)
    requires Sound(c, seen, [])
    ensures forall x :: x in seen <==> Reachable(c, x)
  {
    assert Closed(c, seen);
    forall x | Reachable(c, x) ensures x in seen {
      var p :| Walk(c, p) && p[|p| - 1] == x;
      ClosedHoldsWalk(c, seen, p, |p| - 1);
    }
  }

  /**
   The worklist.  Names may be pushed more than once and the graph may be
   cyclic; each turn either adds a file to `seen` or shortens the stack.
   The result is exactly the set of files reachable from the crate roots.
   */
  method ReachableFiles(c: Crate) returns (seen: set<string>)
    ensures forall x :: x in seen <==> Reachable(c, x)
  {
    seen := {};
    var stack := Fresh(c, c.roots, {});
    InitiallySound(c);
    while stack != []
      invariant Sound(c, seen, stack)
      decreases c.files - seen, |stack|
    {
      var current := stack[|stack| - 1];
      assert stack == stack[..|stack| - 1] + [current];
      VisitKeepsSound(c, seen, stack[..|stack| - 1], current);
      assert current in c.files;
      stack := stack[..|stack| - 1];
      if current in seen {
        continue;
      }
      seen := seen + {current};
      stack := stack + Fresh(c, if current in c.edges then c.edges[current] else [], seen);
    }
    SoundIsExact(c, seen);
  }

  /** The census fails exactly when some file is unreachable, and names those files. */
  method Census(c: Crate) returns (ok: bool, unreachable: set<string>)
    ensures unreachable == set x | x in c.files && !Reachable(c, x)
    ensures ok <==> forall x :: x in c.files ==> Reachable(c, x)
  {
    var seen := ReachableFiles(c);
    unreachable := c.files - seen;
    assert forall x :: x in unreachable <==> x in c.files && !Reachable(c, x);
    ok := unreachable == {};
  }
}
