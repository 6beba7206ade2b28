/** The expiry-marker census over one file (`scan_line`, `scan_file`): the accelerated scan is the plain one. */
module ExpiryScan {
  import opened Basics
  import opened TextLines
  import opened Fences
  import opened FenceScan
  import opened ExpiryKeys

  /** A key on a line: in a place where a marker may stand, with its payload, or anywhere else. */
  datatype Hit = Placed(start: nat, end: nat, payload: string) | Misplaced(start: nat, end: nat)

  /** A stretch of a line, `past` excluded. */
  datatype Stretch = Stretch(start: nat, past: nat)

  // ---------- one line ----------

  /** The end of a comment leader at `i`; `i` itself if there is none. */
  function LeaderEnd(text: string, i: nat): (j: nat)
    requires i <= |text|
    ensures i <= j <= |text|
  {
    if i == |text| then i
    else if text[i] == '#' || text[i] == ';' then i + RunAt(text, i, text[i])
    else if Occurs(text, "//", i) || Occurs(text, "--", i) || Occurs(text, "/*", i) then i + 2
    else if text[i] == '*' then i + 1
    else i
  }

  /** Where a key has to start to be a marker at the start of the line. */
  function LineStart(text: string, isMd: bool): (i: nat)
    ensures i <= |text|
  {
    var i := SkipSpace(text, 0);
    if isMd then i else SkipSpace(text, LeaderEnd(text, i))
  }

  /** The end of an HTML comment whose body is searched from `i`. */
  function CommentEnd(text: string, i: nat): (e: nat)
    requires i <= |text|
    ensures i <= e <= |text|
    decreases |text| - i
  {
    if i == |text| then i else if Occurs(text, "-->", i) then i + 3 else CommentEnd(text, i + 1)
  }

  function CommentBody(text: string, i: nat): (s: string)
    requires i <= |text|
    decreases |text| - i
  {
    if i == |text| || Occurs(text, "-->", i) then "" else [text[i]] + CommentBody(text, i + 1)
  }

  /** The markers that are the first word of an HTML comment, from `i` on, and the stretches they take up. */
  function HtmlHits(text: string, i: nat): (r: (seq<Hit>, seq<Stretch>))
    requires i <= |text|
    decreases |text| - i
  {
    if i == |text| then ([], [])
    else if Occurs(text, "<!--", i) && KeyEnd(text, SkipSpace(text, i + 4)).Some? then
      var start := SkipSpace(text, i + 4);
      var end := KeyEnd(text, start).value;
      var (hits, spans) := HtmlHits(text, CommentEnd(text, end));
      ([Placed(start, end, CommentBody(text, end))] + hits, [Stretch(start, CommentEnd(text, end))] + spans)
    else HtmlHits(text, i + 1)
  }

  /** The keys from `i` on, one after the other, that lie in none of the stretches. */
  function StrayKeys(text: string, i: nat, spans: seq<Stretch>): (r: seq<Hit>)
    requires i <= |text|
    decreases |text| - i
  {
    if i == |text| then []
    else match KeyEnd(text, i)
      case None => StrayKeys(text, i + 1, spans)
      case Some(e) =>
        if exists k :: 0 <= k < |spans| && spans[k].start <= i < spans[k].past then StrayKeys(text, e, spans)
        else [Misplaced(i, e)] + StrayKeys(text, e, spans)
  }

  /** Markers and misplaced keys on one line. */
  function ScanLine(line: string, isMd: bool): (hits: seq<Hit>) {
    var text := BlankCode(line, 0);
    var start := LineStart(text, isMd);
    match KeyEnd(text, start)
    case Some(e) => [Placed(start, e, text[e..])] + StrayKeys(text, 0, [Stretch(start, |text|)])
    case None =>
      var (hits, spans) := HtmlHits(text, 0);
      hits + StrayKeys(text, 0, spans)
  }

  lemma {:induction false} NoKeysNoHits(text: string, i: nat, spans: seq<Stretch>)
    requires i <= |text| && forall k: nat :: KeyEnd(text, k).None?
    ensures HtmlHits(text, i) == ([], []) && StrayKeys(text, i, spans) == [] && !HasKey(text, i)
    decreases |text| - i
  {
    if i < |text| { NoKeysNoHits(text, i + 1, spans); }
  }

  /** The prefilter loses nothing: a line without its literals has no hit and no key. */
  lemma PrefilterLosesNothing(line: string, isMd: bool)
    requires !Filtered(line)
    ensures ScanLine(line, isMd) == []
    ensures !HasKey(DropCode(line, 0), 0)
  {
    var text, dropped := BlankCode(line, 0), DropCode(line, 0);
    if Filtered(text) {
      var lit := if Contains(Lower(text), EXPIRES) then EXPIRES else REVIEW;
      var i :| Occurs(Lower(text), lit, i);
      BlankedFiltered(line, lit, i);
    }
    if Filtered(dropped) {
      var lit := if Contains(Lower(dropped), EXPIRES) then EXPIRES else REVIEW;
      var i :| Occurs(Lower(dropped), lit, i);
      DroppedFiltered(line, 0, lit, i);
    }
    KeyNeedsLiteral(text);
    KeyNeedsLiteral(dropped);
    NoKeysNoHits(text, 0, []);
    NoKeysNoHits(dropped, 0, []);
  }

  // ---------- the plain scan ----------

  datatype Marker = OnLine(line: nat, hit: Hit) | OpenFence(line: nat, hidden: nat)

  function Tagged(hits: seq<Hit>, line: nat): (r: seq<Marker>) {
    seq(|hits|, k requires 0 <= k < |hits| => OnLine(line, hits[k]))
  }

  predicate Example(lines: seq<string>, n: nat, isMd: bool)
    requires n < |lines|
  {
    isMd && Fenced(FencesOf(lines), n, ByteSpace)
  }

  /** What line `n` contributes. */
  function LineMarkers(lines: seq<string>, isMd: bool, n: nat): (r: seq<Marker>)
    requires n < |lines|
  {
    if Example(lines, n, isMd) then [] else Tagged(ScanLine(lines[n], isMd), n + 1)
  }

  /** What each line contributes. */
  function Reports(lines: seq<string>, isMd: bool): (r: seq<seq<Marker>>)
    ensures |r| == |lines| && forall n :: 0 <= n < |lines| ==> r[n] == LineMarkers(lines, isMd, n)
  {
    seq(|lines|, n requires 0 <= n < |lines| => LineMarkers(lines, isMd, n))
  }

  /** The reports of the first `n` lines, in order. */
  function Flat(reports: seq<seq<Marker>>, n: nat): (r: seq<Marker>)
    requires n <= |reports|
  {
    if n == 0 then [] else Flat(reports, n - 1) + reports[n - 1]
  }

  /** Which lines look like a marker outside their code spans. */
  function Keyed(lines: seq<string>): (r: seq<bool>)
    ensures |r| == |lines| && forall n :: 0 <= n < |lines| ==> r[n] == HasKey(DropCode(lines[n], 0), 0)
  {
    seq(|lines|, n requires 0 <= n < |lines| => HasKey(DropCode(lines[n], 0), 0))
  }

  /** The first line at or after the unclosed opening, and before `n`, that looks like a marker. */
  function Hidden(keyed: seq<bool>, unclosed: Option<nat>, n: nat): (r: Option<nat>)
    requires n <= |keyed|
  {
    if unclosed.None? || n <= unclosed.value then None
    else match Hidden(keyed, unclosed, n - 1)
      case Some(k) => Some(k)
      case None => if keyed[n - 1] then Some(n - 1) else None
  }

  /** The opening that is never closed; only Markdown has fences. */
  function Opening(lines: seq<string>, isMd: bool): (r: Option<nat>) {
    if isMd then Unclosed(FencesOf(lines), ByteSpace) else None
  }

  /** The complaint about a fence that is never closed and hides something that looks like a marker. */
  function FenceComplaint(unclosed: Option<nat>, hidden: Option<nat>): (r: seq<Marker>) {
    if unclosed.Some? && hidden.Some? then [OpenFence(unclosed.value + 1, hidden.value + 1)] else []
  }

  /** Every line outside a fenced block is scanned, in order; then the open fence is reported. */
  function PlainScan(lines: seq<string>, isMd: bool): (r: seq<Marker>) {
    var unclosed := Opening(lines, isMd);
    Flat(Reports(lines, isMd), |lines|) + FenceComplaint(unclosed, Hidden(Keyed(lines), unclosed, |lines|))
  }

  predicate Binary(raw: string) {
    exists k :: 0 <= k < |raw| && k < 8192 && raw[k] as int == 0
  }

  /** What the census means: scan every line outside the fences. */
  function Census(raw: string, isMd: bool): (r: seq<Marker>) {
    if Binary(raw) then []
    else PlainScan(Split(raw), isMd)
  }

  // ---------- the accelerated scan ----------

  function LowerLines(lines: seq<string>): (r: seq<string>)
    ensures |r| == |lines| && forall n :: 0 <= n < |lines| ==> r[n] == Lower(lines[n])
  {
    seq(|lines|, n requires 0 <= n < |lines| => Lower(lines[n]))
  }

  lemma {:induction false} LowerStarts(lines: seq<string>, n: nat)
    requires n <= |lines|
    ensures StartOf(LowerLines(lines), n) == StartOf(lines, n)
  {
    if n > 0 { LowerStarts(lines, n - 1); }
  }

  /** Lower-casing changes neither the layout nor the newlines. */
  lemma LowerLaid(text: string, lines: seq<string>)
    requires Laid(text, lines)
    ensures Laid(Lower(text), LowerLines(lines))
  {
    var low := LowerLines(lines);
    forall n | 0 <= n < |low| ensures '\n' !in low[n] && LaidAt(Lower(text), low, n) {
      assert LaidAt(text, lines, n);
      LowerStarts(lines, n);
      var at, end := StartOf(lines, n), StartOf(lines, n) + |lines[n]|;
      forall k | 0 <= k < |low[n]| ensures Lower(text)[at..end][k] == low[n][k] && low[n][k] != '\n' {
        assert text[at..end][k] == lines[n][k];
        assert lines[n][k] in lines[n];
      }
      assert Lower(text)[at..end] == low[n];
    }
  }

  /** The lines already found to hold the literal, when all its occurrences before `from` have been looked up. */
  ghost predicate Found(text: string, lines: seq<string>, lit: string, from: nat, cand: set<nat>) {
    && (forall n :: n in cand ==> n < |lines| && Contains(lines[n], lit))
    && (forall j: nat, n: nat :: j < from && Occurs(text, lit, j) && Holds(lines, n, j) ==> n in cand)
  }

  lemma FoundStep(text: string, lines: seq<string>, lit: string, from: nat, i: nat, n: nat, cand: set<nat>)
    requires Laid(text, lines) && '\n' !in lit && Found(text, lines, lit, from, cand)
    requires FirstFrom(text, lit, from, i) && Holds(lines, n, i)
    ensures Found(text, lines, lit, i + 1, cand + {n})
  {
    OccursInLine(text, lines, lit, n, i);
    forall j: nat, m: nat | j < i + 1 && Occurs(text, lit, j) && Holds(lines, m, j) ensures m in cand + {n} {
      if j == i { HoldsUnique(lines, n, m, i); }
    }
  }

  lemma FoundAll(text: string, lines: seq<string>, lit: string, from: nat, cand: set<nat>)
    requires Laid(text, lines) && lit != "" && Found(text, lines, lit, from, cand) && FirstFrom(text, lit, from, -1)
    ensures forall n: nat :: n in cand <==> n < |lines| && Contains(lines[n], lit)
  {
    forall n: nat | n < |lines| && Contains(lines[n], lit) ensures n in cand {
      var p :| Occurs(lines[n], lit, p);
      OccursInText(text, lines, lit, n, p);
      assert Holds(lines, n, StartOf(lines, n) + p);
    }
  }

  /** The find loop of the prefilter: the lines that hold a literal. */
  method LinesWith(text: string, lines: seq<string>, starts: seq<int>, lit: string) returns (cand: set<nat>)
    requires Laid(text, lines) && AreStarts(lines, starts) && lit != "" && '\n' !in lit
    ensures forall n: nat :: n in cand <==> n < |lines| && Contains(lines[n], lit)
  {
    cand := {};
    ghost var from := 0;
    var i := Find(text, lit, 0);
    while i != -1
      invariant from >= 0 && FirstFrom(text, lit, from, i) && Found(text, lines, lit, from, cand)
      decreases i != -1, |text| - from
    {
      var n := LineOf(text, lines, starts, i);
      FoundStep(text, lines, lit, from, i, n, cand);
      cand := cand + {n};
      from := i + 1;
      i := Find(text, lit, i + 1);
    }
    FoundAll(text, lines, lit, from, cand);
  }

  /** The last span that opens at or before a line is the only one that can cover it. */
  lemma OnlySpan(spans: seq<Span>, n: nat, idx: nat, k: nat, j: nat)
    requires Tidy(spans, n) && k <= j < |spans| && spans[k].open <= idx <= spans[k].close && spans[j].open <= idx
    ensures k == j
  {}

  /** The lookup of a line in the spans, by binary search in their openings. */
  method SpanOf(spans: seq<Span>, opens: seq<int>, idx: nat, ghost n: nat) returns (j: int)
    requires Tidy(spans, n) && |opens| == |spans| && forall k :: 0 <= k < |spans| ==> opens[k] == spans[k].open
    ensures -1 <= j < |spans|
    ensures j >= 0 && spans[j].open <= idx <= spans[j].close <==> Covered(spans, idx)
    ensures j >= 0 ==> spans[j].open <= idx
    ensures forall k :: j < k < |spans| ==> idx < spans[k].open
  {
    var r: int := BisectRight(opens, idx);
    j := r - 1;
    if Covered(spans, idx) {
      ghost var k :| 0 <= k < |spans| && spans[k].open <= idx <= spans[k].close;
      OnlySpan(spans, n, idx, k, j);
    }
  }

  /** A line the prefilter drops changes nothing. */
  lemma DroppedLine(lines: seq<string>, isMd: bool, n: nat)
    requires n < |lines| && !Filtered(lines[n])
    ensures Reports(lines, isMd)[n] == [] && !Keyed(lines)[n]
  {
    PrefilterLosesNothing(lines[n], isMd);
  }

  lemma {:induction false} FlatEmpty(reports: seq<seq<Marker>>, n: nat)
    requires n <= |reports| && forall k :: 0 <= k < n ==> reports[k] == []
    ensures Flat(reports, n) == []
  {
    if n > 0 { FlatEmpty(reports, n - 1); }
  }

  lemma {:induction false} NothingHidden(keyed: seq<bool>, unclosed: Option<nat>, n: nat)
    requires n <= |keyed| && forall k :: 0 <= k < n ==> !keyed[k]
    ensures Hidden(keyed, unclosed, n) == None
  {
    if n > 0 { NothingHidden(keyed, unclosed, n - 1); }
  }

  /** The report on a file that the prefilter drops as a whole. */
  lemma FilteredOut(lines: seq<string>, isMd: bool)
    requires forall k :: 0 <= k < |lines| ==> !Filtered(lines[k])
    ensures PlainScan(lines, isMd) == []
  {
    var reports, keyed := Reports(lines, isMd), Keyed(lines);
    forall k | 0 <= k < |lines| ensures reports[k] == [] && !keyed[k] {
      DroppedLine(lines, isMd, k);
    }
    FlatEmpty(reports, |lines|);
    NothingHidden(keyed, Opening(lines, isMd), |lines|);
  }

  /** A literal that is nowhere in the text is in none of its lines. */
  lemma NowhereInLines(text: string, lines: seq<string>, lit: string)
    requires Laid(text, lines) && FirstFrom(text, lit, 0, -1)
    ensures forall n :: 0 <= n < |lines| ==> !Contains(lines[n], lit)
  {
    forall n | 0 <= n < |lines| ensures !Contains(lines[n], lit) {
      forall p: nat ensures !Occurs(lines[n], lit, p) {
        if Occurs(lines[n], lit, p) { OccursInText(text, lines, lit, n, p); }
      }
    }
  }

  /** The span found for a line is the unclosed one exactly when the line is at or after its opening. */
  lemma InUnclosed(lines: seq<string>, o: nat, n: nat, j: nat)
    requires Unclosed(FencesOf(lines), ByteSpace) == Some(o) && n < |lines| && j < |Spans(FencesOf(lines), ByteSpace)|
    requires Spans(FencesOf(lines), ByteSpace)[j].open <= n
    requires forall k :: j < k < |Spans(FencesOf(lines), ByteSpace)| ==> n < Spans(FencesOf(lines), ByteSpace)[k].open
    ensures Spans(FencesOf(lines), ByteSpace)[j].open == o <==> o <= n
  {
    var spans := Spans(FencesOf(lines), ByteSpace);
    SpansTidy(FencesOf(lines), ByteSpace);
    assert spans[|spans| - 1] == Span(o, |lines| - 1);
    if j < |spans| - 1 {
      assert spans[j].close < spans[|spans| - 1].open;
    }
  }

  /** Whether an unclosed fence opens at or before line `n`. */
  predicate AfterOpening(unclosed: Option<nat>, n: nat) {
    unclosed.Some? && unclosed.value <= n
  }

  /** The lookup for one line: is it fenced, and by the fence that is never closed? */
  method Lookup(lines: seq<string>, isMd: bool, spans: seq<Span>, opens: seq<int>, unclosed: Option<nat>, n: nat)
    returns (inside: bool, last: bool)
    requires n < |lines| && Prepared(lines, isMd, spans, opens, unclosed)
    ensures inside <==> Example(lines, n, isMd)
    ensures last <==> inside && AfterOpening(unclosed, n)
  {
    SpansTidy(FencesOf(lines), ByteSpace);
    FencedIffCovered(FencesOf(lines), n, ByteSpace);
    var j := SpanOf(spans, opens, n, |lines|);
    inside := j >= 0 && spans[j].open <= n <= spans[j].close;
    last := inside && unclosed.Some? && spans[j].open == unclosed.value;
    if inside && unclosed.Some? {
      InUnclosed(lines, unclosed.value, n, j);
    }
  }

  /** Every line from the opening of an unclosed fence on is fenced. */
  lemma AfterOpeningIsExample(lines: seq<string>, o: nat, n: nat)
    requires Unclosed(FencesOf(lines), ByteSpace) == Some(o) && o <= n < |lines|
    ensures Example(lines, n, true)
  {
    var spans := Spans(FencesOf(lines), ByteSpace);
    assert spans[|spans| - 1] == Span(o, |lines| - 1);
    assert Covered(spans, n);
    FencedIffCovered(FencesOf(lines), n, ByteSpace);
  }

  /** What the scan of one line needs to know about its file. */
  ghost predicate Prepared(lines: seq<string>, isMd: bool, spans: seq<Span>, opens: seq<int>, unclosed: Option<nat>) {
    && spans == (if isMd then Spans(FencesOf(lines), ByteSpace) else [])
    && unclosed == Opening(lines, isMd)
    && |opens| == |spans| && forall k :: 0 <= k < |spans| ==> opens[k] == spans[k].open
  }

  /** One turn of the scan: a candidate line is looked up, then skipped or scanned; other lines are not touched. */
  method ScanIndex(lines: seq<string>, isMd: bool, cand: set<nat>, spans: seq<Span>, opens: seq<int>, unclosed: Option<nat>,
                   idx: nat, dropped: Option<nat>)
    returns (found: seq<Marker>, dropped': Option<nat>)
    requires idx < |lines| && (idx in cand <==> Filtered(lines[idx]))
    requires Prepared(lines, isMd, spans, opens, unclosed)
    ensures found == Reports(lines, isMd)[idx]
    ensures dropped' == if dropped.None? && AfterOpening(unclosed, idx) && Keyed(lines)[idx] then Some(idx) else dropped
  {
    found, dropped' := [], dropped;
    if idx !in cand {
      DroppedLine(lines, isMd, idx);
      return;
    }
    var line := lines[idx];
    var inside, last := Lookup(lines, isMd, spans, opens, unclosed, idx);
    if AfterOpening(unclosed, idx) { AfterOpeningIsExample(lines, unclosed.value, idx); }
    if inside {
      if last && dropped.None? && HasKey(DropCode(line, 0), 0) {
        dropped' := Some(idx);
      }
    } else {
      found := Tagged(ScanLine(line, isMd), idx + 1);
    }
  }

  lemma HiddenStep(keyed: seq<bool>, unclosed: Option<nat>, n: nat)
    requires n < |keyed|
    ensures var before := Hidden(keyed, unclosed, n);
      Hidden(keyed, unclosed, n + 1) == if before.None? && AfterOpening(unclosed, n) && keyed[n] then Some(n) else before
  {}

  /** The scan of the candidate lines, in increasing order. */
  method ScanCandidates(lines: seq<string>, isMd: bool, cand: set<nat>, spans: seq<Span>, opens: seq<int>, unclosed: Option<nat>)
    returns (markers: seq<Marker>, dropped: Option<nat>)
    requires forall n: nat :: n < |lines| ==> (n in cand <==> Filtered(lines[n]))
    requires Prepared(lines, isMd, spans, opens, unclosed)
    ensures markers == Flat(Reports(lines, isMd), |lines|)
    ensures dropped == Hidden(Keyed(lines), unclosed, |lines|)
  {
    markers, dropped := [], None;
    ghost var reports, keyed := Reports(lines, isMd), Keyed(lines);
    for idx := 0 to |lines|
      invariant markers == Flat(reports, idx)
      invariant dropped == Hidden(keyed, unclosed, idx)
    {
      var found;
      HiddenStep(keyed, unclosed, idx);
      found, dropped := ScanIndex(lines, isMd, cand, spans, opens, unclosed, idx, dropped);
      markers := markers + found;
    }
  }

  /** The lines the prefilter keeps, and whether it keeps the file at all. */
  method Prefilter(raw: string, lines: seq<string>, starts: seq<int>) returns (any: bool, cand: set<nat>)
    requires Laid(raw, lines) && AreStarts(lines, starts)
    ensures forall n: nat :: n < |lines| ==> (n in cand <==> Filtered(lines[n]))
    ensures !any ==> forall n :: 0 <= n < |lines| ==> !Filtered(lines[n])
  {
    var low, lowLines := Lower(raw), LowerLines(lines);
    LowerLaid(raw, lines);
    var first := Find(low, EXPIRES, 0);
    var second := Find(low, REVIEW, 0);
    any := first != -1 || second != -1;
    if !any {
      NowhereInLines(low, lowLines, EXPIRES);
      NowhereInLines(low, lowLines, REVIEW);
      return false, {};
    }
    forall n | 0 <= n < |lines| ensures starts[n] == StartOf(lowLines, n) { LowerStarts(lines, n); }
    var expires := LinesWith(low, lowLines, starts, EXPIRES);
    var review := LinesWith(low, lowLines, starts, REVIEW);
    cand := expires + review;
  }

  /** The spans and the openings the lookups search; only Markdown has fences. */
  method Prepare(raw: string, lines: seq<string>, starts: seq<int>, isMd: bool)
    returns (spans: seq<Span>, opens: seq<int>, unclosed: Option<nat>)
    requires Laid(raw, lines) && AreStarts(lines, starts)
    ensures Prepared(lines, isMd, spans, opens, unclosed)
  {
    spans, unclosed := [], None;
    if isMd {
      spans, unclosed := FenceSpans(raw, lines, starts);
    }
    opens := seq(|spans|, k requires 0 <= k < |spans| => spans[k].open);
  }

  /** The scan of a file the prefilter keeps, and the complaint about its open fence. */
  method ScanKept(raw: string, lines: seq<string>, starts: seq<int>, isMd: bool, cand: set<nat>) returns (markers: seq<Marker>)
    requires Laid(raw, lines) && AreStarts(lines, starts)
    requires forall n: nat :: n < |lines| ==> (n in cand <==> Filtered(lines[n]))
    ensures markers == PlainScan(lines, isMd)
  {
    var spans, opens, unclosed := Prepare(raw, lines, starts, isMd);
    var found, dropped := ScanCandidates(lines, isMd, cand, spans, opens, unclosed);
    markers := Complain(found, unclosed, dropped);
  }

  /** The tail of the scan; a line can only be dropped by an open fence. */
  method Complain(found: seq<Marker>, unclosed: Option<nat>, dropped: Option<nat>) returns (markers: seq<Marker>)
    requires dropped.Some? ==> unclosed.Some?
    ensures markers == found + FenceComplaint(unclosed, dropped)
  {
    markers := found;
    if dropped.Some? {
      markers := markers + [OpenFence(unclosed.value + 1, dropped.value + 1)];
    }
  }

  /** The scan of a text file by its lines. */
  method ScanText(raw: string, lines: seq<string>, isMd: bool) returns (markers: seq<Marker>)
    requires Laid(raw, lines)
    ensures markers == PlainScan(lines, isMd)
  {
    var starts := LineStarts(lines);
    var any, cand := Prefilter(raw, lines, starts);
    if any {
      markers := ScanKept(raw, lines, starts, isMd, cand);
    } else {
      FilteredOut(lines, isMd);
      markers := [];
    }
  }

  /** The file scan: byte prefilter, find loops, and binary searches, with the meaning of the plain scan. */
  method ScanFile(raw: string, isMd: bool) returns (markers: seq<Marker>)
    ensures markers == Census(raw, isMd)
  {
    if Binary(raw) {
      return [];
    }
    SplitLaid(raw);
    markers := ScanText(raw, Split(raw), isMd);
  }
}
