/** The two fence trackers as the source writes them, and when they agree. */
module FenceScan {
  import opened Basics
  import opened TextLines
  import opened Fences

  ghost predicate AreStarts(lines: seq<string>, starts: seq<int>) {
    |starts| == |lines| && forall n :: 0 <= n < |lines| ==> starts[n] == StartOf(lines, n)
  }

  /** The lines below `m` that start with a literal. */
  ghost predicate AreCandidates(lines: seq<string>, lit: string, m: nat, cand: set<nat>)
    requires m <= |lines|
  {
    forall n: nat :: n in cand <==> n < m && StartsWith(lines[n], lit)
  }

  /** Lines between the place the search starts and the line of the hit are no candidates. */
  lemma SkippedLines(text: string, lines: seq<string>, lit: string, m: nat, past: nat, i: int)
    requires Laid(text, lines) && m <= past <= |lines| && FirstFrom(text, lit, StartOf(lines, m), i)
    requires i == -1 || (past < |lines| && StartOf(lines, past) <= i)
    ensures forall n :: m <= n < past ==> !StartsWith(lines[n], lit)
  {
    forall n | m <= n < past ensures !StartsWith(lines[n], lit) {
      if StartsWith(lines[n], lit) {
        OccursInText(text, lines, lit, n, Indent(lines[n]));
        if m < n { StartMonotone(lines, m, n); }
        StartMonotone(lines, n, past);
      }
    }
  }

  lemma CandidateStep(lines: seq<string>, lit: string, m: nat, n: nat, cand: set<nat>)
    requires m <= n < |lines| && AreCandidates(lines, lit, m, cand)
    requires forall k :: m <= k < n ==> !StartsWith(lines[k], lit)
    ensures AreCandidates(lines, lit, n + 1, if StartsWith(lines[n], lit) then cand + {n} else cand)
  {
    forall k: nat ensures k in (if StartsWith(lines[n], lit) then cand + {n} else cand)
      <==> k < n + 1 && StartsWith(lines[k], lit) {
      if m <= k < n { assert !StartsWith(lines[k], lit); }
    }
  }

  /** One turn: every line up to and including the line of the hit is accounted for. */
  lemma CandidatesTurn(text: string, lines: seq<string>, lit: string, m: nat, n: nat, i: nat, cand: set<nat>)
    requires Laid(text, lines) && m <= |lines| && AreCandidates(lines, lit, m, cand)
    requires FirstFrom(text, lit, StartOf(lines, m), i) && Holds(lines, n, i)
    ensures m <= n && AreCandidates(lines, lit, n + 1, if StartsWith(lines[n], lit) then cand + {n} else cand)
  {
    if n < m { StartMonotone(lines, n, m); }
    SkippedLines(text, lines, lit, m, n, i);
    CandidateStep(lines, lit, m, n, cand);
  }

  lemma CandidatesDone(text: string, lines: seq<string>, lit: string, m: nat, cand: set<nat>)
    requires Laid(text, lines) && m <= |lines| && AreCandidates(lines, lit, m, cand)
    requires FirstFrom(text, lit, StartOf(lines, m), -1)
    ensures AreCandidates(lines, lit, |lines|, cand)
  {
    SkippedLines(text, lines, lit, m, |lines|, -1);
  }

  /**
   The find-and-skip loop: search the text for the literal, look up the line of
   the hit, and go on searching behind that line.
   */
  method Candidates(text: string, lines: seq<string>, starts: seq<int>, lit: string) returns (cand: set<nat>)
    requires Laid(text, lines) && AreStarts(lines, starts) && lit != "" && '\n' !in lit
    ensures AreCandidates(lines, lit, |lines|, cand)
  {
    cand := {};
    ghost var m := 0;
    var i := Find(text, lit, 0);
    while i != -1
      invariant 0 <= m <= |lines|
      invariant AreCandidates(lines, lit, m, cand)
      invariant FirstFrom(text, lit, StartOf(lines, m), i)
      decreases i != -1, |lines| - m
    {
      var n := LineOf(text, lines, starts, i);
      CandidatesTurn(text, lines, lit, m, n, i, cand);
      if StartsWith(lines[n], lit) {
        cand := cand + {n};
      }
      m := n + 1;
      i := Find(text, lit, starts[n] + |lines[n]| + 1);
    }
    CandidatesDone(text, lines, lit, m, cand);
  }

  /** A line is a candidate of one of the two literals exactly when it holds a fence. */
  lemma CandidateIffFence(line: string)
    ensures FenceOf(line).Some? <==> StartsWith(line, TICKS) || StartsWith(line, TILDES)
  {
    var r := DropCR(line);
    IndentOfPrefix(line, r);
    StartsThrice(line, '`');
    StartsThrice(line, '~');
    FenceInIff(r);
  }

  predicate Thrice(line: string, i: nat, c: char) {
    i + 2 < |line| && line[i] == c && line[i + 1] == c && line[i + 2] == c
  }

  lemma StartsThrice(line: string, c: char)
    ensures StartsWith(line, [c, c, c]) <==> Thrice(line, Indent(line), c)
  {
    var i := Indent(line);
    if i + 3 <= |line| {
      assert line[i..i + 3] == [line[i], line[i + 1], line[i + 2]];
    }
  }

  lemma FenceInIff(line: string)
    ensures FenceIn(line).Some? <==> Thrice(line, Indent(line), '`') || Thrice(line, Indent(line), '~')
  {
    var i := Indent(line);
    if i < |line| {
      var n := RunAt(line, i, line[i]);
      assert n >= 3 <==> Thrice(line, i, line[i]);
    }
  }

  /** Dropping trailing carriage returns does not touch a fence at the start. */
  lemma IndentOfPrefix(line: string, r: string)
    requires r <= line && forall k :: |r| <= k < |line| ==> line[k] == '\r'
    ensures Indent(r) == if Indent(line) < |r| then Indent(line) else |r|
    ensures forall c :: c != '\r' ==> (Thrice(line, Indent(line), c) <==> Thrice(r, Indent(r), c))
  {
    assert forall k :: 0 <= k < |r| ==> r[k] == line[k];
    var i, j := Indent(line), Indent(r);
    if j < |r| && i < |r| {
      assert !(i < j) && !(j < i);
    }
  }

  /** The candidates of the two literals are the lines that hold a fence. */
  method FenceLines(text: string, lines: seq<string>, starts: seq<int>) returns (cand: set<nat>)
    requires Laid(text, lines) && AreStarts(lines, starts)
    ensures forall n: nat :: n < |lines| ==> (n in cand <==> FenceOf(lines[n]).Some?)
  {
    var ticks := Candidates(text, lines, starts, TICKS);
    var tildes := Candidates(text, lines, starts, TILDES);
    cand := ticks + tildes;
    forall n: nat | n < |lines| ensures n in cand <==> FenceOf(lines[n]).Some? {
      CandidateIffFence(lines[n]);
    }
  }

  /** One turn of the span loop, on a line that holds a fence. */
  method SpanTurn(f: Fence, i: nat, open: Option<Open>, spans: seq<Span>) returns (open': Option<Open>, spans': seq<Span>)
    ensures open' == Step(open, i, Some(f), ByteSpace)
    ensures spans' == if open.Some? && open'.None? then spans + [Span(open.value.line, i)] else spans
  {
    open', spans' := open, spans;
    if open.None? {
      if !(f.mark == '`' && '`' in f.rest) {
        open' := Some(Open(i, f.mark, f.length));
      }
    } else if f.mark == open.value.mark && f.length >= open.value.length && AllIn(f.rest, ByteSpace) {
      spans' := spans + [Span(open.value.line, i)];
      open' := None;
    }
  }

  /** The span loop over the candidates, in increasing order. */
  method TrackSpans(lines: seq<string>, cand: set<nat>) returns (spans: seq<Span>, open: Option<Open>)
    requires forall n: nat :: n < |lines| ==> (n in cand <==> FenceOf(lines[n]).Some?)
    ensures open == Before(FencesOf(lines), |lines|, ByteSpace)
    ensures spans == Closed(FencesOf(lines), |lines|, ByteSpace)
  {
    spans, open := [], None;
    for i := 0 to |lines|
      invariant open == Before(FencesOf(lines), i, ByteSpace) && spans == Closed(FencesOf(lines), i, ByteSpace)
    {
      open, spans := SpanLine(lines, cand, i, open, spans);
    }
  }

  /** One line of the span loop: a candidate takes a turn, any other line changes nothing. */
  method SpanLine(lines: seq<string>, cand: set<nat>, i: nat, open: Option<Open>, spans: seq<Span>)
    returns (open': Option<Open>, spans': seq<Span>)
    requires i < |lines| && (i in cand <==> FenceOf(lines[i]).Some?)
    requires open == Before(FencesOf(lines), i, ByteSpace) && spans == Closed(FencesOf(lines), i, ByteSpace)
    ensures open' == Before(FencesOf(lines), i + 1, ByteSpace) && spans' == Closed(FencesOf(lines), i + 1, ByteSpace)
  {
    open', spans' := open, spans;
    assert FencesOf(lines)[i] == FenceOf(lines[i]);
    if i in cand {
      open', spans' := SpanTurn(FenceOf(lines[i]).value, i, open, spans);
    }
  }

  /** The spans, from the candidates alone. */
  method FenceSpans(text: string, lines: seq<string>, starts: seq<int>) returns (spans: seq<Span>, unclosed: Option<nat>)
    requires Laid(text, lines) && AreStarts(lines, starts)
    ensures spans == Spans(FencesOf(lines), ByteSpace)
    ensures unclosed == Unclosed(FencesOf(lines), ByteSpace)
  {
    var cand := FenceLines(text, lines, starts);
    var closed, open := TrackSpans(lines, cand);
    spans, unclosed := CloseSpans(FencesOf(lines), closed, open, |lines|);
  }

  /** The tail: a fence that is still open reaches to the last line. */
  method CloseSpans(ghost fences: seq<Option<Fence>>, closed: seq<Span>, open: Option<Open>, n: nat)
    returns (spans: seq<Span>, unclosed: Option<nat>)
    requires n == |fences| && open == Before(fences, n, ByteSpace) && closed == Closed(fences, n, ByteSpace)
    ensures spans == Spans(fences, ByteSpace) && unclosed == Unclosed(fences, ByteSpace)
  {
    spans, unclosed := closed, None;
    if open.Some? {
      unclosed := Some(open.value.line);
      spans := spans + [Span(open.value.line, n - 1)];
    }
  }

  function Spaces(n: nat): (r: string)
    ensures |r| == n && forall k :: 0 <= k < n ==> r[k] == ' '
  {
    seq(n, _ => ' ')
  }

  /** The first `n` lines, with the fenced ones blanked. */
  function Blanked(lines: seq<string>, fences: seq<Option<Fence>>, n: nat): (r: seq<string>)
    requires n <= |lines| == |fences|
    ensures |r| == n
  {
    if n == 0 then [] else Blanked(lines, fences, n - 1) + [Rendered(lines[n - 1], Fenced(fences, n - 1, TextSpace))]
  }

  /** Blanking works line by line: fenced lines become spaces, other lines stay. */
  lemma {:induction false} BlankedAt(lines: seq<string>, fences: seq<Option<Fence>>, n: nat, k: nat)
    requires k < n <= |lines| == |fences|
    ensures Blanked(lines, fences, n)[k] == Rendered(lines[k], Fenced(fences, k, TextSpace))
  {
    if k < n - 1 { BlankedAt(lines, fences, n - 1, k); }
  }

  /** The loop of the line-by-line blanker. */
  method BlankLines(lines: seq<string>, ghost fences: seq<Option<Fence>>) returns (out: seq<string>, open: Option<Open>)
    requires |fences| == |lines| && forall n :: 0 <= n < |lines| ==> fences[n] == FenceOf(lines[n])
    ensures out == Blanked(lines, fences, |lines|)
    ensures open == Before(fences, |lines|, TextSpace)
  {
    out, open := [], None;
    for n := 0 to |lines|
      invariant out == Blanked(lines, fences, n) && open == Before(fences, n, TextSpace)
    {
      out, open := BlankNext(lines, fences, n, out, open);
    }
  }

  method BlankNext(lines: seq<string>, ghost fences: seq<Option<Fence>>, n: nat, out: seq<string>, open: Option<Open>)
    returns (out': seq<string>, open': Option<Open>)
    requires n < |lines| == |fences| && fences[n] == FenceOf(lines[n])
    requires out == Blanked(lines, fences, n) && open == Before(fences, n, TextSpace)
    ensures out' == Blanked(lines, fences, n + 1) && open' == Before(fences, n + 1, TextSpace)
  {
    var piece;
    open', piece := BlankLine(open, n, lines[n]);
    out' := out + [piece];
  }

  /** The blanker: the blanked lines, and the number, counted from one, of the line whose fence is never closed. */
  method BlankFences(lines: seq<string>) returns (out: seq<string>, unclosed: Option<nat>)
    ensures out == Blanked(lines, FencesOf(lines), |lines|)
    ensures unclosed == match Unclosed(FencesOf(lines), TextSpace) case None => None case Some(o) => Some(o + 1)
  {
    var open;
    out, open := BlankLines(lines, FencesOf(lines));
    unclosed := None;
    if open.Some? {
      unclosed := Some(open.value.line + 1);
    }
  }

  function Rendered(line: string, fenced: bool): (r: string) {
    if fenced then Spaces(|line|) else line
  }

  /** One turn of the blanker's loop. */
  method BlankLine(open: Option<Open>, n: nat, line: string) returns (open': Option<Open>, piece: string)
    ensures open' == Step(open, n, FenceOf(line), TextSpace)
    ensures piece == Rendered(line, open.Some? || open'.Some?)
  {
    open' := open;
    var m := FenceOf(line);
    if m.Some? && open.None? && !(m.value.mark == '`' && '`' in m.value.rest) {
      open' := Some(Open(n, m.value.mark, m.value.length));
      return open', Spaces(|line|);
    }
    if open.Some? {
      if m.Some? && m.value.mark == open.value.mark && m.value.length >= open.value.length && AllIn(m.value.rest, TextSpace) {
        open' := None;
      }
      return open', Spaces(|line|);
    }
    return open', line;
  }

  // ---------- agreement ----------

  /** A line that closes the open fence for the text tracker but not for the byte tracker. */
  ghost predicate Diverges(fences: seq<Option<Fence>>, n: nat)
    requires n < |fences|
  {
    var open, f := Before(fences, n, ByteSpace), fences[n];
    open.Some? && f.Some? && Closes(open.value, f.value, TextSpace) && !Closes(open.value, f.value, ByteSpace)
  }

  lemma {:induction false} SameStates(fences: seq<Option<Fence>>, n: nat)
    requires n <= |fences| && forall k :: 0 <= k < n ==> !Diverges(fences, k)
    ensures Before(fences, n, ByteSpace) == Before(fences, n, TextSpace)
    ensures Closed(fences, n, ByteSpace) == Closed(fences, n, TextSpace)
  {
    if n > 0 {
      SameStates(fences, n - 1);
      assert !Diverges(fences, n - 1);
    }
  }

  /** A block is closed on line `n` exactly when a fence is open before the line and none after it. */
  lemma {:induction false} ClosesOn(fences: seq<Option<Fence>>, n: nat, m: nat, space: char -> bool)
    requires n < m <= |fences|
    ensures (exists s :: s in Closed(fences, m, space) && s.close == n)
      <==> Before(fences, n, space).Some? && Before(fences, n + 1, space).None?
  {
    var before := Closed(fences, m - 1, space);
    if n < m - 1 {
      ClosesOn(fences, n, m - 1, space);
      if s :| s in before && s.close == n {
        assert s in Closed(fences, m, space);
      }
    } else {
      ClosedTidy(fences, n, space);
      assert forall s :: s in before ==> s.close < n;
      if Before(fences, n, space).Some? && Before(fences, n + 1, space).None? {
        assert Span(Before(fences, n, space).value.line, n) in Closed(fences, m, space);
      }
    }
  }

  lemma {:induction false} FirstDivergence(fences: seq<Option<Fence>>, n: nat) returns (m: nat)
    requires n < |fences| && Diverges(fences, n)
    ensures m < |fences| && Diverges(fences, m) && forall k :: 0 <= k < m ==> !Diverges(fences, k)
  {
    if k :| 0 <= k < n && Diverges(fences, k) {
      m := FirstDivergence(fences, k);
    } else {
      m := n;
    }
  }

  /**
   The two trackers report the same closed blocks and the same unclosed opener
   exactly when no line closes an open fence with a separator (0x1c to 0x1f)
   behind its run, which only `str.strip` removes.
   */
  lemma TrackersAgreeIff(fences: seq<Option<Fence>>)
    ensures (&& Closed(fences, |fences|, ByteSpace) == Closed(fences, |fences|, TextSpace)
             && Unclosed(fences, ByteSpace) == Unclosed(fences, TextSpace))
      <==> forall n :: 0 <= n < |fences| ==> !Diverges(fences, n)
  {
    if n :| 0 <= n < |fences| && Diverges(fences, n) {
      var m := FirstDivergence(fences, n);
      SameStates(fences, m);
      ClosesOn(fences, m, |fences|, ByteSpace);
      ClosesOn(fences, m, |fences|, TextSpace);
      if s :| s in Closed(fences, |fences|, TextSpace) && s.close == m {
        assert s !in Closed(fences, |fences|, ByteSpace);
      }
    } else {
      SameStates(fences, |fences|);
    }
  }

  ghost predicate NoSeparators(line: string) {
    forall k :: 0 <= k < |line| ==> !(0x1c <= line[k] as int <= 0x1f)
  }

  /** On lines without separators the spans cover exactly the lines that are blanked, and the opener is the same. */
  lemma SpansCoverBlanked(lines: seq<string>)
    requires forall n :: 0 <= n < |lines| ==> NoSeparators(lines[n])
    ensures var fences := FencesOf(lines);
      && (forall n :: 0 <= n < |lines| ==> (Covered(Spans(fences, ByteSpace), n) <==> Fenced(fences, n, TextSpace)))
      && Unclosed(fences, ByteSpace) == Unclosed(fences, TextSpace)
  {
    var fences := FencesOf(lines);
    forall n | 0 <= n < |lines| ensures !Diverges(fences, n) {
      NoDivergence(lines, n);
    }
    SameStates(fences, |lines|);
    forall n | 0 <= n < |lines| ensures Covered(Spans(fences, ByteSpace), n) <==> Fenced(fences, n, TextSpace) {
      FencedIffCovered(fences, n, ByteSpace);
      SameStates(fences, n);
      SameStates(fences, n + 1);
    }
  }

  /** What follows a fence on a line without separators is white space to both or to neither. */
  lemma SameBlank(line: string)
    requires NoSeparators(line) && FenceOf(line).Some?
    ensures AllIn(FenceOf(line).value.rest, TextSpace) ==> AllIn(FenceOf(line).value.rest, ByteSpace)
  {
    var r, rest := DropCR(line), FenceOf(line).value.rest;
    assert forall k :: 0 <= k < |rest| ==> rest[k] == r[|r| - |rest| + k];
  }

  lemma NoDivergence(lines: seq<string>, n: nat)
    requires n < |lines| && NoSeparators(lines[n])
    ensures !Diverges(FencesOf(lines), n)
  {
    if FenceOf(lines[n]).Some? { SameBlank(lines[n]); }
  }

  lemma FenceAlone(line: string)
    requires 3 <= |line| <= 4 && Thrice(line, 0, '`') && (|line| == 4 ==> line[3] !in "`\r")
    ensures FenceOf(line) == Some(Fence('`', 3, line[3..]))
  {
    assert DropCR(line) == line;
    assert Indent(line) == 0;
    assert RunAt(line, 0, '`') == 3;
  }

  /** Such a line exists: a fence closed with a file separator behind it stays open in the byte tracker only. */
  lemma SeparatorDiverges(close: string)
    requires |close| == 4 && Thrice(close, 0, '`') && close[3] as int == 0x1c
    ensures var fences := FencesOf([TICKS, close]);
      Diverges(fences, 1) && Unclosed(fences, ByteSpace) == Some(0) && Unclosed(fences, TextSpace) == None
  {
    FenceAlone(TICKS);
    FenceAlone(close);
    var fences := FencesOf([TICKS, close]);
    assert fences[0] == Some(Fence('`', 3, "")) && fences[1] == Some(Fence('`', 3, close[3..]));
    assert close[3..] == [close[3]];
    assert Before(fences, 1, ByteSpace) == Before(fences, 1, TextSpace) == Some(Open(0, '`', 3));
    assert !ByteSpace(close[3..][0]) && TextSpace(close[3..][0]);
  }
}
