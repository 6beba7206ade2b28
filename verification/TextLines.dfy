/** A text as offsets and as lines: what lets a scanner search the text and still report lines. */
module TextLines {

  /** The offset at which line `n` starts. */
  function StartOf(lines: seq<string>, n: nat): (s: nat)
    requires n <= |lines|
  {
    if n == 0 then 0 else StartOf(lines, n - 1) + |lines[n - 1]| + 1
  }

  /** Splitting at newlines, as `split("\n")` does: one line more than there are newlines. */
  function Split(raw: string): (lines: seq<string>)
    ensures lines != []
  {
    if raw == "" then [""]
    else
      var front := Split(raw[..|raw| - 1]);
      var c := raw[|raw| - 1];
      if c == '\n' then front + [""]
      else front[..|front| - 1] + [front[|front| - 1] + [c]]
  }

  /** Line `n` is found at its offset, and is followed by a newline or by the end of the text. */
  ghost predicate LaidAt(text: string, lines: seq<string>, n: nat)
    requires n < |lines|
  {
    var at := StartOf(lines, n);
    var end := at + |lines[n]|;
    && end <= |text|
    && text[at..end] == lines[n]
    && (n + 1 == |lines| <==> end == |text|)
    && (end < |text| ==> text[end] == '\n')
  }

  ghost predicate Laid(text: string, lines: seq<string>) {
    && lines != []
    && (forall n :: 0 <= n < |lines| ==> '\n' !in lines[n])
    && (forall n :: 0 <= n < |lines| ==> LaidAt(text, lines, n))
  }

  lemma {:induction false} StartsAgree(lines: seq<string>, more: seq<string>, n: nat)
    requires n <= |lines| && n <= |more| && forall k :: 0 <= k < n ==> lines[k] == more[k]
    ensures StartOf(lines, n) == StartOf(more, n)
  {
    if n > 0 { StartsAgree(lines, more, n - 1); }
  }

  lemma {:induction false} StartMonotone(lines: seq<string>, i: nat, j: nat)
    requires i < j <= |lines|
    ensures StartOf(lines, i) + |lines[i]| + 1 <= StartOf(lines, j)
  {
    if i < j - 1 { StartMonotone(lines, i, j - 1); }
  }

  /** The lines of a split text are laid out over the text, in order and without holes. */
  lemma {:induction false} SplitLaid(raw: string)
    ensures Laid(raw, Split(raw))
  {
    if raw == "" {
      assert LaidAt(raw, [""], 0);
    } else {
      var text, c := raw[..|raw| - 1], raw[|raw| - 1];
      SplitLaid(text);
      assert raw == text + [c];
      if c == '\n' {
        LaidBreak(text, Split(text));
      } else {
        LaidExtend(text, Split(text), c);
      }
    }
  }

  lemma LaidBreak(text: string, lines: seq<string>)
    requires Laid(text, lines)
    ensures Laid(text + "\n", lines + [""])
  {
    var longer := lines + [""];
    forall n | 0 <= n < |longer| ensures LaidAt(text + "\n", longer, n) {
      StartsAgree(lines, longer, if n < |lines| then n else |lines| - 1);
      if n < |lines| {
        assert LaidAt(text, lines, n);
        LaidPrefix(text, "\n", StartOf(lines, n), lines[n]);
      } else {
        assert LaidAt(text, lines, n - 1);
      }
    }
  }

  lemma LaidExtend(text: string, lines: seq<string>, c: char)
    requires Laid(text, lines) && c != '\n'
    ensures Laid(text + [c], lines[..|lines| - 1] + [lines[|lines| - 1] + [c]])
  {
    var longer := lines[..|lines| - 1] + [lines[|lines| - 1] + [c]];
    forall n | 0 <= n < |longer| ensures LaidAt(text + [c], longer, n) {
      StartsAgree(lines, longer, n);
      assert LaidAt(text, lines, n);
      LaidPrefix(text, [c], StartOf(lines, n), lines[n]);
      if n + 1 == |lines| {
        assert (text + [c])[StartOf(lines, n)..] == lines[n] + [c];
      }
    }
  }

  lemma LaidPrefix(text: string, more: string, at: nat, line: string)
    requires at + |line| <= |text| && text[at..at + |line|] == line
    ensures (text + more)[at..at + |line|] == line
  {
    assert (text + more)[at..at + |line|] == text[at..at + |line|];
  }

  predicate Occurs(text: string, lit: string, i: nat) {
    i + |lit| <= |text| && text[i..i + |lit|] == lit
  }

  ghost predicate Contains(text: string, lit: string) {
    exists i :: Occurs(text, lit, i)
  }

  /** A piece of a text and the text hold the same literals, at shifted offsets. */
  lemma OccursShifted(text: string, piece: string, at: nat, lit: string, i: nat, j: nat)
    requires at + |piece| <= |text| && text[at..at + |piece|] == piece && i + |lit| <= |piece| && j == at + i
    ensures Occurs(piece, lit, i) <==> Occurs(text, lit, j)
  {
    var a, b := piece[i..i + |lit|], text[j..j + |lit|];
    forall k | 0 <= k < |a| ensures a[k] == b[k] {
      assert piece[i + k] == text[at..at + |piece|][i + k];
    }
    assert a == b;
  }

  /** An occurrence within a line is an occurrence in the text. */
  lemma OccursInText(text: string, lines: seq<string>, lit: string, n: nat, i: nat)
    requires Laid(text, lines) && n < |lines| && Occurs(lines[n], lit, i)
    ensures Occurs(text, lit, StartOf(lines, n) + i)
  {
    assert LaidAt(text, lines, n);
    OccursShifted(text, lines[n], StartOf(lines, n), lit, i, StartOf(lines, n) + i);
  }

  /** The line that holds an offset of the text. */
  ghost predicate Holds(lines: seq<string>, n: nat, i: nat) {
    n < |lines| && StartOf(lines, n) <= i < StartOf(lines, n) + |lines[n]| + 1
  }

  lemma HoldsUnique(lines: seq<string>, n: nat, m: nat, i: nat)
    requires Holds(lines, n, i) && Holds(lines, m, i)
    ensures n == m
  {
    if n < m { StartMonotone(lines, n, m); } else if m < n { StartMonotone(lines, m, n); }
  }

  lemma OccursChar(text: string, lit: string, i: nat, k: nat)
    requires Occurs(text, lit, i) && i <= k < i + |lit|
    ensures text[k] in lit
  {
    assert text[i..i + |lit|][k - i] == text[k];
  }

  /** An occurrence of a literal without newlines ends before the next newline. */
  lemma OccursBefore(text: string, lit: string, i: nat, end: nat)
    requires Occurs(text, lit, i) && '\n' !in lit && i <= end <= |text| && (end < |text| ==> text[end] == '\n')
    ensures i + |lit| <= end
  {
    if end < i + |lit| {
      OccursChar(text, lit, i, end);
    }
  }

  /** An occurrence of a literal without newlines lies within one line. */
  lemma OccursInLine(text: string, lines: seq<string>, lit: string, n: nat, i: nat)
    requires Laid(text, lines) && '\n' !in lit
    requires Holds(lines, n, i) && Occurs(text, lit, i)
    ensures Occurs(lines[n], lit, i - StartOf(lines, n))
  {
    assert LaidAt(text, lines, n);
    var at := StartOf(lines, n);
    OccursBefore(text, lit, i, at + |lines[n]|);
    OccursShifted(text, lines[n], at, lit, i - at, i);
  }

  /** `r` is the first occurrence at or after `from`, or -1 if there is none. */
  ghost predicate FirstFrom(text: string, lit: string, from: nat, r: int) {
    && (r == -1 || (from <= r && Occurs(text, lit, r)))
    && forall i: nat :: from <= i && (r == -1 || i < r) ==> !Occurs(text, lit, i)
  }

  method Find(text: string, lit: string, from: nat) returns (r: int)
    ensures FirstFrom(text, lit, from, r)
  {
    var i := from;
    while i + |lit| <= |text|
      invariant from <= i
      invariant forall k :: from <= k < i ==> !Occurs(text, lit, k)
    {
      if text[i..i + |lit|] == lit {
        return i;
      }
      i := i + 1;
    }
    return -1;
  }

  ghost predicate Ascending(a: seq<int>) {
    forall i, j :: 0 <= i < j < |a| ==> a[i] <= a[j]
  }

  /** Binary search for the number of entries that are at most `x`. */
  method BisectRight(a: seq<int>, x: int) returns (r: nat)
    requires Ascending(a)
    ensures r <= |a|
    ensures forall i :: 0 <= i < r ==> a[i] <= x
    ensures forall i :: r <= i < |a| ==> x < a[i]
  {
    var lo, hi := 0, |a|;
    while lo < hi
      invariant 0 <= lo <= hi <= |a|
      invariant forall i :: 0 <= i < lo ==> a[i] <= x
      invariant forall i :: hi <= i < |a| ==> x < a[i]
    {
      var mid := (lo + hi) / 2;
      if x < a[mid] {
        hi := mid;
      } else {
        lo := mid + 1;
      }
    }
    r := lo;
  }

  /** The offsets of all lines, accumulated as the source does. */
  method LineStarts(lines: seq<string>) returns (starts: seq<int>)
    ensures |starts| == |lines| && forall n :: 0 <= n < |lines| ==> starts[n] == StartOf(lines, n)
  {
    starts := [];
    var at := 0;
    for n := 0 to |lines|
      invariant at == StartOf(lines, n) && |starts| == n
      invariant forall k :: 0 <= k < n ==> starts[k] == StartOf(lines, k)
    {
      starts := starts + [at];
      at := at + |lines[n]| + 1;
    }
  }

  /** The line of an offset, by binary search in the line starts. */
  method LineOf(text: string, lines: seq<string>, starts: seq<int>, i: nat) returns (n: nat)
    requires Laid(text, lines) && i <= |text|
    requires |starts| == |lines| && forall n :: 0 <= n < |lines| ==> starts[n] == StartOf(lines, n)
    ensures Holds(lines, n, i)
  {
    forall p, q | 0 <= p < q < |starts| ensures starts[p] <= starts[q] {
      StartMonotone(lines, p, q);
    }
    var r := BisectRight(starts, i);
    assert r > 0 by { assert starts[0] == 0; }
    n := r - 1;
    if r < |lines| {
      assert i < starts[r];
    } else {
      assert LaidAt(text, lines, n);
    }
  }
}
