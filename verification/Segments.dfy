/**
 Cutting a trace into maximal stretches.

 Both evidence tools of the repository look for stretches of consecutive rows
 that satisfy a predicate, and both break a stretch where two neighbouring rows
 are too far apart; they only disagree on how far is too far.  `Segs` is that
 common shape over two flag sequences: `on[k]` says that row `k` satisfies the
 predicate and `link[k]` that row `k` is close enough to row `k - 1`.
 */
module Segments {

  /** Rows `first` up to, but not including, `past`. */
  datatype Seg = Seg(first: nat, past: nat)

  function Segs(on: seq<bool>, link: seq<bool>, n: nat): (r: seq<Seg>)
    requires n <= |on| == |link|
    ensures n > 0 && on[n - 1] ==> r != []
  {
    if n == 0 then []
    else
      var before := Segs(on, link, n - 1);
      if !on[n - 1] then before
      else if Joined(on, link, n - 1) then Grow(before, n)
      else before + [Seg(n - 1, n)]
  }

  /** Row `k` continues the row before it. */
  predicate Joined(on: seq<bool>, link: seq<bool>, k: nat)
    requires k < |on| == |link|
  {
    k > 0 && on[k - 1] && on[k] && link[k]
  }

  /** The last stretch, extended up to row `n`. */
  function Grow(before: seq<Seg>, n: nat): (r: seq<Seg>)
    requires before != []
  {
    before[..|before| - 1] + [Seg(before[|before| - 1].first, n)]
  }

  ghost predicate Shaped(r: seq<Seg>, n: nat) {
    && (forall k :: 0 <= k < |r| ==> r[k].first < r[k].past <= n)
    && (forall i, j :: 0 <= i < j < |r| ==> r[i].past <= r[j].first)
  }

  lemma {:induction false} SegsShaped(on: seq<bool>, link: seq<bool>, n: nat)
    requires n <= |on| == |link|
    ensures Shaped(Segs(on, link, n), n)
    ensures n > 0 && on[n - 1] ==> Last(Segs(on, link, n)).past == n
  {
    if n > 0 {
      SegsShaped(on, link, n - 1);
      var before := Segs(on, link, n - 1);
      if on[n - 1] {
        if Joined(on, link, n - 1) {
          GrowShaped(before, n);
        } else {
          AppendShaped(before, n);
        }
      }
    }
  }

  lemma GrowShaped(before: seq<Seg>, n: nat)
    requires 0 < n && before != [] && Shaped(before, n - 1)
    ensures Shaped(Grow(before, n), n)
  {}

  lemma AppendShaped(before: seq<Seg>, n: nat)
    requires 0 < n && Shaped(before, n - 1)
    ensures Shaped(before + [Seg(n - 1, n)], n)
  {}

  function Last<T>(s: seq<T>): (x: T)
    requires s != []
  {
    s[|s| - 1]
  }

  /** Whether a stretch may not be crossed at row `k`: one of the two rows is off, or they are too far apart. */
  predicate Cut(on: seq<bool>, link: seq<bool>, n: nat, k: nat)
    requires k <= n <= |on| == |link|
  {
    k == n || !Joined(on, link, k)
  }

  /** A stretch of rows that are on and linked, and that cannot be extended on either side. */
  predicate Maximal(on: seq<bool>, link: seq<bool>, n: nat, s: Seg)
    requires n <= |on| == |link|
  {
    && s.first < s.past <= n
    && (forall k :: s.first <= k < s.past ==> on[k])
    && (forall k :: s.first < k < s.past ==> link[k])
    && Cut(on, link, n, s.first)
    && Cut(on, link, n, s.past)
  }

  /** Every reported stretch is maximal. */
  lemma {:induction false} SegsSound(on: seq<bool>, link: seq<bool>, n: nat, i: nat)
    requires n <= |on| == |link|
    requires i < |Segs(on, link, n)|
    ensures Maximal(on, link, n, Segs(on, link, n)[i])
  {
    var m, before := n - 1, Segs(on, link, n - 1);
    SegsShaped(on, link, m);
    if i < |before| {
      SegsSound(on, link, m, i);
      if i == |before| - 1 && Joined(on, link, m) {
        assert before[i].past == m;
        assert Segs(on, link, n)[i] == Seg(before[i].first, n);
        MaximalGrows(on, link, m, before[i]);
      } else {
        assert Segs(on, link, n)[i] == before[i];
        MaximalStays(on, link, m, before[i]);
      }
    } else {
      assert Segs(on, link, n)[i] == Seg(m, n);
    }
  }

  /** A stretch that row `m` does not continue stays maximal when row `m` is looked at. */
  lemma MaximalStays(on: seq<bool>, link: seq<bool>, m: nat, s: Seg)
    requires m < |on| == |link| && Maximal(on, link, m, s) && (s.past < m || !Joined(on, link, m))
    ensures Maximal(on, link, m + 1, s)
  {}

  lemma MaximalGrows(on: seq<bool>, link: seq<bool>, m: nat, s: Seg)
    requires m < |on| == |link| && Maximal(on, link, m, s) && s.past == m && Joined(on, link, m)
    ensures Maximal(on, link, m + 1, Seg(s.first, m + 1))
  {}

  /** Every maximal stretch is reported. */
  lemma {:induction false} SegsComplete(on: seq<bool>, link: seq<bool>, n: nat, s: Seg)
    returns (i: nat)
    requires n <= |on| == |link|
    requires Maximal(on, link, n, s)
    ensures i < |Segs(on, link, n)| && Segs(on, link, n)[i] == s
  {
    var m := n - 1;
    var before := Segs(on, link, m);
    SegsShaped(on, link, m);
    if s.past < n {
      assert Maximal(on, link, m, s);
      i := SegsComplete(on, link, m, s);
      if i == |before| - 1 && m > 0 && on[m - 1] {
        assert s.past == m;
      }
      assert Segs(on, link, n)[i] == before[i];
    } else if s.first == m {
      i := |before|;
      assert !Joined(on, link, m);
    } else {
      assert Joined(on, link, m);
      assert Maximal(on, link, m, Seg(s.first, m));
      i := SegsComplete(on, link, m, Seg(s.first, m));
      assert i == |before| - 1;
    }
  }

  /** The scan reports exactly the maximal stretches. */
  lemma SegsAreMaximal(on: seq<bool>, link: seq<bool>, n: nat)
    requires n <= |on| == |link|
    ensures forall s :: s in Segs(on, link, n) <==> Maximal(on, link, n, s)
  {
    forall s ensures s in Segs(on, link, n) <==> Maximal(on, link, n, s) {
      if s in Segs(on, link, n) {
        var i :| 0 <= i < |Segs(on, link, n)| && Segs(on, link, n)[i] == s;
        SegsSound(on, link, n, i);
      }
      if Maximal(on, link, n, s) {
        var i := SegsComplete(on, link, n, s);
      }
    }
  }

  /** Two rows that are both on, and on which two link rules disagree. */
  predicate Differ(on: seq<bool>, link: seq<bool>, link': seq<bool>, k: nat)
    requires 1 <= k < |on| == |link| == |link'|
  {
    on[k - 1] && on[k] && link[k] != link'[k]
  }

  /**
   Two link rules cut a trace the same way exactly when they agree on every
   pair of neighbouring rows that are both on.
   */
  lemma {:induction false} SameSegs(on: seq<bool>, link: seq<bool>, link': seq<bool>, n: nat)
    requires n <= |on| == |link| == |link'|
    ensures Segs(on, link, n) == Segs(on, link', n)
      <==> forall k :: 1 <= k < n ==> !Differ(on, link, link', k)
  {
    if n > 0 {
      SameSegs(on, link, link', n - 1);
      if k :| 1 <= k < n && Differ(on, link, link', k) {
        if link[k] {
          StartsHere(on, link', n, k);
          NoStartHere(on, link, n, k);
        } else {
          StartsHere(on, link, n, k);
          NoStartHere(on, link', n, k);
        }
      } else if n > 1 {
        assert !Differ(on, link, link', n - 1);
      }
    }
  }

  lemma StartKept(on: seq<bool>, link: seq<bool>, n: nat, i: nat)
    requires 0 < n <= |on| == |link| && i < |Segs(on, link, n - 1)|
    ensures i < |Segs(on, link, n)| && Segs(on, link, n)[i].first == Segs(on, link, n - 1)[i].first
  {}

  lemma {:induction false} StartsHere(on: seq<bool>, link: seq<bool>, n: nat, k: nat)
    requires 1 <= k < n <= |on| == |link| && on[k] && !link[k]
    ensures exists s :: s in Segs(on, link, n) && s.first == k
  {
    if k + 1 < n {
      StartsHere(on, link, n - 1, k);
      var before := Segs(on, link, n - 1);
      var i :| 0 <= i < |before| && before[i].first == k;
      StartKept(on, link, n, i);
    } else {
      assert Segs(on, link, n)[|Segs(on, link, n)| - 1].first == k;
    }
  }

  lemma NoStartHere(on: seq<bool>, link: seq<bool>, n: nat, k: nat)
    requires 1 <= k < n <= |on| == |link| && on[k - 1] && on[k] && link[k]
    ensures forall s :: s in Segs(on, link, n) ==> s.first != k
  {
    SegsAreMaximal(on, link, n);
  }
}
