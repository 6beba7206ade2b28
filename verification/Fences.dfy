/**
 Fenced code blocks in Markdown, as two tools of the repository track them: a
 find-and-skip scan over bytes (`fence_spans`) and a line-by-line blanker over
 text (`blank_code`).  The rule is that of section 4.5 of the CommonMark Spec,
 without its limit on indentation.
 */
module Fences {
  import opened Basics
  import opened TextLines

  // ---------- one line ----------

  predicate IsIndent(c: char) { c == ' ' || c == '\t' }

  /** White space to `bytes.strip`. */
  predicate ByteSpace(c: char) { c == ' ' || 0x09 <= c as int <= 0x0d }

  /** White space to `str.strip`, among ASCII characters: the four separators count as well. */
  predicate TextSpace(c: char) { ByteSpace(c) || 0x1c <= c as int <= 0x1f }

  predicate AllIn(s: string, space: char -> bool) {
    forall k :: 0 <= k < |s| ==> space(s[k])
  }

  /** How many indentation characters the line starts with. */
  function Indent(line: string): (n: nat)
    ensures n <= |line|
    ensures forall k :: 0 <= k < n ==> IsIndent(line[k])
    ensures n < |line| ==> !IsIndent(line[n])
  {
    if line == "" || !IsIndent(line[0]) then 0 else 1 + Indent(line[1..])
  }

  /** How many copies of `c` stand at position `i`. */
  function RunAt(line: string, i: nat, c: char): (n: nat)
    requires i <= |line|
    ensures i + n <= |line|
    ensures forall k :: i <= k < i + n ==> line[k] == c
    ensures i + n < |line| ==> line[i + n] != c
    decreases |line| - i
  {
    if i < |line| && line[i] == c then 1 + RunAt(line, i + 1, c) else 0
  }

  /** The line without its trailing carriage returns. */
  function DropCR(line: string): (r: string)
    ensures r <= line
    ensures forall k :: |r| <= k < |line| ==> line[k] == '\r'
  {
    if line != "" && line[|line| - 1] == '\r' then DropCR(line[..|line| - 1]) else line
  }

  /** A run of fence characters and what follows it. */
  datatype Fence = Fence(mark: char, length: nat, rest: string)

  function FenceIn(line: string): (f: Option<Fence>) {
    var i := Indent(line);
    if i == |line| || line[i] !in "`~" then None
    else
      var n := RunAt(line, i, line[i]);
      if n < 3 then None else Some(Fence(line[i], n, line[i + n..]))
  }

  function FenceOf(line: string): (f: Option<Fence>) {
    FenceIn(DropCR(line))
  }

  const TICKS: string := "```"
  const TILDES: string := "~~~"

  /** The line, without its indentation, starts with a literal. */
  predicate StartsWith(line: string, lit: string) {
    Occurs(line, lit, Indent(line))
  }

  /** The fence, if any, on each line. */
  function FencesOf(lines: seq<string>): (r: seq<Option<Fence>>)
    ensures |r| == |lines| && forall n :: 0 <= n < |lines| ==> r[n] == FenceOf(lines[n])
  {
    seq(|lines|, n requires 0 <= n < |lines| => FenceOf(lines[n]))
  }

  // ---------- the automaton ----------

  /** An open fence: the line that opened it, its character and its length. */
  datatype Open = Open(line: nat, mark: char, length: nat)

  predicate Opens(f: Fence) {
    !(f.mark == '`' && '`' in f.rest)
  }

  predicate Closes(o: Open, f: Fence, space: char -> bool) {
    f.mark == o.mark && f.length >= o.length && AllIn(f.rest, space)
  }

  function Step(open: Option<Open>, n: nat, fence: Option<Fence>, space: char -> bool): (r: Option<Open>) {
    match fence
    case None => open
    case Some(f) =>
      if open.None? then (if Opens(f) then Some(Open(n, f.mark, f.length)) else None)
      else if Closes(open.value, f, space) then None
      else open
  }

  /** The fence that is open before line `n`. */
  function Before(fences: seq<Option<Fence>>, n: nat, space: char -> bool): (r: Option<Open>)
    requires n <= |fences|
    ensures r.Some? ==> r.value.line < n
  {
    if n == 0 then None else Step(Before(fences, n - 1, space), n - 1, fences[n - 1], space)
  }

  /** Line `n` belongs to a fenced block: a fence is open before it, or it opens one. */
  predicate Fenced(fences: seq<Option<Fence>>, n: nat, space: char -> bool)
    requires n < |fences|
  {
    Before(fences, n, space).Some? || Before(fences, n + 1, space).Some?
  }

  /** A block, from its opening to its closing line. */
  datatype Span = Span(open: nat, close: nat)

  /** The blocks closed before line `n`. */
  function Closed(fences: seq<Option<Fence>>, n: nat, space: char -> bool): (r: seq<Span>)
    requires n <= |fences|
  {
    if n == 0 then []
    else
      var open := Before(fences, n - 1, space);
      if open.Some? && Before(fences, n, space).None? then Closed(fences, n - 1, space) + [Span(open.value.line, n - 1)]
      else Closed(fences, n - 1, space)
  }

  function Unclosed(fences: seq<Option<Fence>>, space: char -> bool): (r: Option<nat>) {
    var open := Before(fences, |fences|, space);
    if open.Some? then Some(open.value.line) else None
  }

  /** All blocks; one that is never closed reaches to the last line. */
  function Spans(fences: seq<Option<Fence>>, space: char -> bool): (r: seq<Span>) {
    match Unclosed(fences, space)
    case None => Closed(fences, |fences|, space)
    case Some(o) => Closed(fences, |fences|, space) + [Span(o, |fences| - 1)]
  }

  /** In order, not overlapping, and all before line `n`. */
  ghost predicate Tidy(spans: seq<Span>, n: nat) {
    && (forall k :: 0 <= k < |spans| ==> spans[k].open <= spans[k].close < n)
    && (forall i, j :: 0 <= i < j < |spans| ==> spans[i].close < spans[j].open)
  }

  lemma {:induction false} ClosedTidy(fences: seq<Option<Fence>>, n: nat, space: char -> bool)
    requires n <= |fences|
    ensures var open := Before(fences, n, space);
      Tidy(Closed(fences, n, space), if open.Some? then open.value.line else n)
  {
    if n > 0 { ClosedTidy(fences, n - 1, space); }
  }

  lemma SpansTidy(fences: seq<Option<Fence>>, space: char -> bool)
    ensures Tidy(Spans(fences, space), |fences|)
  {
    ClosedTidy(fences, |fences|, space);
  }

  ghost predicate Covered(spans: seq<Span>, n: nat) {
    exists k :: 0 <= k < |spans| && spans[k].open <= n <= spans[k].close
  }

  /** The blocks closed so far and the open one cover exactly the fenced lines. */
  lemma {:induction false} ClosedCover(fences: seq<Option<Fence>>, n: nat, k: nat, space: char -> bool)
    requires k < n <= |fences|
    ensures Fenced(fences, k, space) <==>
      || Covered(Closed(fences, n, space), k)
      || (Before(fences, n, space).Some? && Before(fences, n, space).value.line <= k)
  {
    if k == n - 1 {
      CoverLast(fences, n, space);
    } else {
      ClosedCover(fences, n - 1, k, space);
      var open := Before(fences, n - 1, space);
      if open.Some? && Before(fences, n, space).None? {
        CoveredAppend(Closed(fences, n - 1, space), Span(open.value.line, n - 1), k);
      }
    }
  }

  lemma CoverLast(fences: seq<Option<Fence>>, n: nat, space: char -> bool)
    requires 0 < n <= |fences|
    ensures Fenced(fences, n - 1, space) <==> Covered(Closed(fences, n, space), n - 1) || Before(fences, n, space).Some?
  {
    ClosedTidy(fences, n - 1, space);
    var open := Before(fences, n - 1, space);
    if open.Some? && Before(fences, n, space).None? {
      CoveredAppend(Closed(fences, n - 1, space), Span(open.value.line, n - 1), n - 1);
    }
  }

  lemma CoveredAppend(spans: seq<Span>, s: Span, n: nat)
    ensures Covered(spans + [s], n) <==> Covered(spans, n) || s.open <= n <= s.close
  {
    if Covered(spans, n) {
      var k :| 0 <= k < |spans| && spans[k].open <= n <= spans[k].close;
      assert (spans + [s])[k] == spans[k];
    }
    assert (spans + [s])[|spans|] == s;
  }

  /** A line is fenced exactly when some span covers it. */
  lemma FencedIffCovered(fences: seq<Option<Fence>>, k: nat, space: char -> bool)
    requires k < |fences|
    ensures Fenced(fences, k, space) <==> Covered(Spans(fences, space), k)
  {
    ClosedCover(fences, |fences|, k, space);
    if Unclosed(fences, space).Some? {
      CoveredAppend(Closed(fences, |fences|, space), Span(Unclosed(fences, space).value, |fences| - 1), k);
    }
  }
}
