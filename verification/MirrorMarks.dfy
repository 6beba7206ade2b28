/**
 The text side of the mirror census: code is blanked, and markers, and anything
 almost like one, are found in what is left (`blank_code`, `MARK_RE`, `NEAR_RE`).
 */
module MirrorMarks {
  import opened Basics
  import opened TextLines
  import opened Fences
  import opened FenceScan
  import opened ExpiryKeys

  // ---------- blanking ----------

  /** `y` is `x` with some characters other than newlines replaced by spaces: offsets and lines are kept. */
  ghost predicate KeptOrBlank(x: string, y: string) {
    |x| == |y| && forall k :: 0 <= k < |x| ==> y[k] == x[k] || (y[k] == ' ' && x[k] != '\n')
  }

  function JoinLines(lines: seq<string>): (r: string)
    requires lines != []
  {
    if |lines| == 1 then lines[0] else JoinLines(lines[..|lines| - 1]) + "\n" + lines[|lines| - 1]
  }

  /** Joining undoes splitting. */
  lemma {:induction false} JoinSplit(text: string)
    ensures JoinLines(Split(text)) == text
  {
    if text != "" {
      var front, c := text[..|text| - 1], text[|text| - 1];
      var lines := Split(front);
      JoinSplit(front);
      assert text == front + [c];
      if c == '\n' {
        assert (lines + [""])[..|lines|] == lines;
      } else {
        JoinExtend(lines, c);
      }
    }
  }

  lemma JoinExtend(lines: seq<string>, c: char)
    requires lines != []
    ensures JoinLines(lines[..|lines| - 1] + [lines[|lines| - 1] + [c]]) == JoinLines(lines) + [c]
  {
    var last := lines[|lines| - 1];
    var longer := lines[..|lines| - 1] + [last + [c]];
    assert longer[..|lines| - 1] == lines[..|lines| - 1];
    if |lines| > 1 {
      var front := JoinLines(lines[..|lines| - 1]) + "\n";
      assert front + (last + [c]) == (front + last) + [c];
    }
  }

  lemma {:induction false} JoinKept(a: seq<string>, b: seq<string>)
    requires |a| == |b| > 0 && forall n :: 0 <= n < |a| ==> KeptOrBlank(a[n], b[n])
    ensures KeptOrBlank(JoinLines(a), JoinLines(b))
  {
    var n := |a| - 1;
    assert KeptOrBlank(a[n], b[n]);
    if n > 0 {
      JoinKept(a[..n], b[..n]);
      AppendKept(JoinLines(a[..n]), JoinLines(b[..n]), "\n", "\n");
      AppendKept(JoinLines(a[..n]) + "\n", JoinLines(b[..n]) + "\n", a[n], b[n]);
    }
  }

  lemma AppendKept(x: string, y: string, u: string, v: string)
    requires KeptOrBlank(x, y) && KeptOrBlank(u, v)
    ensures KeptOrBlank(x + u, y + v)
  {}

  /** A paragraph ends at `i`: a newline, and then a line of blanks and tabs only. */
  predicate ParagraphEnd(text: string, i: nat)
    requires i <= |text|
  {
    i < |text| && text[i] == '\n'
    && var j := i + 1 + Indent(text[i + 1..]);
       j < |text| && text[j] == '\n'
  }

  /** The first place at or after `i`, and in the same paragraph, where `n` backticks stand. */
  function TicksInParagraph(text: string, i: nat, n: nat): (j: Option<nat>)
    requires i <= |text|
    ensures j.Some? ==> i <= j.value && j.value + n <= |text|
    decreases |text| - i
  {
    if RunAt(text, i, '`') >= n then Some(i)
    else if i == |text| || ParagraphEnd(text, i) then None
    else TicksInParagraph(text, i + 1, n)
  }

  /** The end of the code span at `i` with a delimiter of `n` or fewer backticks, longest delimiter first. */
  function WrappedEnd(text: string, i: nat, n: nat): (e: Option<nat>)
    requires i + n <= |text|
    ensures e.Some? ==> i < e.value <= |text|
    decreases n
  {
    if n == 0 then None
    else match TicksInParagraph(text, i + n, n)
      case Some(j) => Some(j + n)
      case None => WrappedEnd(text, i, n - 1)
  }

  function Blank(s: string): (r: string)
    ensures KeptOrBlank(s, r) && forall k :: 0 <= k < |s| ==> r[k] == if s[k] == '\n' then '\n' else ' '
  {
    seq(|s|, k requires 0 <= k < |s| => if s[k] == '\n' then '\n' else ' ')
  }

  /** The text from `i` on, with blanks for what lies between a place and the end that is given for it, if any. */
  function Tile(text: string, end: nat -> Option<nat>, i: nat): (r: string)
    requires i <= |text|
    ensures |r| == |text| - i
    decreases |text| - i
  {
    if i == |text| then ""
    else if Ends(text, end, i) then Blank(text[i..end(i).value]) + Tile(text, end, end(i).value)
    else [text[i]] + Tile(text, end, i + 1)
  }

  predicate Ends(text: string, end: nat -> Option<nat>, i: nat) {
    end(i).Some? && i < end(i).value <= |text|
  }

  predicate Keeps(c: char, d: char) {
    d == c || (d == ' ' && c != '\n')
  }

  /** Whatever is blanked, offsets and newlines are kept. */
  lemma {:induction false} TileAt(text: string, end: nat -> Option<nat>, i: nat, k: nat)
    requires i <= k < |text|
    ensures Keeps(text[k], Tile(text, end, i)[k - i])
    decreases |text| - i
  {
    if Ends(text, end, i) {
      var j := end(i).value;
      if j <= k { TileAt(text, end, j, k); } else { assert text[i..j][k - i] == text[k]; }
    } else if i < k {
      TileAt(text, end, i + 1, k);
    }
  }

  /** Where nothing ends, everything is kept. */
  lemma {:induction false} TileKeeps(text: string, end: nat -> Option<nat>, i: nat, j: nat)
    requires i <= j <= |text| && forall k: nat :: i <= k < j ==> end(k).None?
    ensures Tile(text, end, i) == text[i..j] + Tile(text, end, j)
    decreases j - i
  {
    if i < j {
      TileKeeps(text, end, i + 1, j);
      Slices(text, i, j, Tile(text, end, j));
    }
  }

  lemma Slices(text: string, i: nat, j: nat, rest: string)
    requires i < j <= |text|
    ensures [text[i]] + (text[i + 1..j] + rest) == text[i..j] + rest
  {}

  /** The ends of the code spans; a span may wrap lines. */
  function SpanEnds(text: string): (end: nat -> Option<nat>) {
    (i: nat) => if i <= |text| then WrappedEnd(text, i, RunAt(text, i, '`')) else None
  }

  function BlankSpans(text: string): (r: string)
    ensures |r| == |text|
  {
    Tile(text, SpanEnds(text), 0)
  }

  /** The text without its fenced blocks and code spans. */
  function CodeBlanked(text: string): (code: string) {
    var lines := Split(text);
    BlankSpans(JoinLines(Blanked(lines, FencesOf(lines), |lines|)))
  }

  lemma BlankSpansKeeps(text: string)
    ensures KeptOrBlank(text, BlankSpans(text))
  {
    forall k | 0 <= k < |text| ensures Keeps(text[k], BlankSpans(text)[k]) { TileAt(text, SpanEnds(text), 0, k); }
  }

  lemma FencesKept(lines: seq<string>, n: nat)
    requires n < |lines| && '\n' !in lines[n]
    ensures KeptOrBlank(lines[n], Blanked(lines, FencesOf(lines), |lines|)[n])
  {
    BlankedAt(lines, FencesOf(lines), |lines|, n);
    assert forall k :: 0 <= k < |lines[n]| ==> lines[n][k] in lines[n];
  }

  lemma KeptTwice(x: string, y: string, z: string)
    requires KeptOrBlank(x, y) && KeptOrBlank(y, z)
    ensures KeptOrBlank(x, z)
  {}

  /** Blanking keeps offsets and newlines, and every other character is kept or becomes a space. */
  lemma CodeBlankedKeeps(text: string)
    ensures KeptOrBlank(text, CodeBlanked(text))
  {
    var lines := Split(text);
    var out := Blanked(lines, FencesOf(lines), |lines|);
    SplitLaid(text);
    forall n | 0 <= n < |lines| ensures KeptOrBlank(lines[n], out[n]) { FencesKept(lines, n); }
    JoinKept(lines, out);
    JoinSplit(text);
    BlankSpansKeeps(JoinLines(out));
    KeptTwice(text, JoinLines(out), CodeBlanked(text));
  }

  /** `blank_code`: the blanked text, and the number of the line whose fence is never closed. */
  method BlankText(text: string) returns (code: string, unclosed: Option<nat>)
    ensures code == CodeBlanked(text)
    ensures unclosed == match Unclosed(FencesOf(Split(text)), TextSpace) case None => None case Some(o) => Some(o + 1)
  {
    var out;
    out, unclosed := BlankFences(Split(text));
    code := BlankSpans(JoinLines(out));
  }

  // ---------- markers ----------

  /** An opening or closing marker, with its declared number of copies and its offsets. */
  datatype Mark = Mark(closing: bool, id: string, copies: Option<nat>, start: nat, end: nat)

  predicate IsIdStart(c: char) { 'a' <= c <= 'z' || '0' <= c <= '9' }

  predicate IsIdChar(c: char) { IsIdStart(c) || c == '-' }

  predicate IsDigit(c: char) { '0' <= c <= '9' }

  /** Where a run of characters of one sort that starts at `i` ends. */
  function SkipWhile(text: string, i: nat, sort: char -> bool): (j: nat)
    requires i <= |text|
    ensures i <= j <= |text| && forall k :: i <= k < j ==> sort(text[k])
    ensures j < |text| ==> !sort(text[j])
    decreases |text| - i
  {
    if i < |text| && sort(text[i]) then SkipWhile(text, i + 1, sort) else i
  }

  function Value(digits: string): (n: nat)
    requires forall k :: 0 <= k < |digits| ==> IsDigit(digits[k])
  {
    if digits == "" then 0
    else
      var d := digits[|digits| - 1];
      assert IsDigit(d);
      10 * Value(digits[..|digits| - 1]) + (d as int - '0' as int)
  }

  /** The end of white space and the end of a comment at `i`. */
  function CloseAt(text: string, i: nat): (e: Option<nat>)
    requires i <= |text|
    ensures e.Some? ==> i < e.value <= |text|
  {
    var j := SkipSpace(text, i);
    if Occurs(text, "-->", j) then Some(j + 3) else None
  }

  /** What follows the id at `i`: perhaps a count, then the end of the comment. */
  function TailAt(text: string, i: nat): (r: Option<(Option<nat>, nat)>)
    requires i <= |text|
    ensures r.Some? ==> i < r.value.1 <= |text|
  {
    var j := SkipSpace(text, i);
    var counted :=
      if i < j && Occurs(text, "n=", j) then
        var k := SkipWhile(text, j + 2, IsDigit);
        if k == j + 2 then None
        else match CloseAt(text, k)
          case Some(e) => Some((Some(Value(text[j + 2..k])), e))
          case None => None
      else None;
    if counted.Some? then counted
    else match CloseAt(text, i)
      case Some(e) => Some((None, e))
      case None => None
  }

  /** The start of a marker at `i`: whether it is a closing one, and where its id starts. */
  function HeadAt(text: string, i: nat): (r: Option<(bool, nat)>)
    ensures r.Some? ==> Occurs(text, "<!--", i) && i + 4 <= r.value.1 < |text| && IsIdStart(text[r.value.1])
  {
    if !Occurs(text, "<!--", i) then None
    else
      var j := SkipSpace(text, i + 4);
      var closing := j < |text| && text[j] == '/';
      var k := if closing then j + 1 else j;
      if !Occurs(text, "mirror:", k) || k + 7 == |text| || !IsIdStart(text[k + 7]) then None else Some((closing, k + 7))
  }

  /** The marker at `i`, if one stands there.  The id takes what it can, but leaves the dashes that end the comment. */
  function MarkAt(text: string, i: nat): (m: Option<Mark>)
    ensures m.Some? ==> HeadAt(text, i).Some? && m.value.start == i < m.value.end <= |text|
  {
    match HeadAt(text, i)
    case None => None
    case Some((closing, at)) =>
      var g := SkipWhile(text, at, IsIdChar);
      match TailAt(text, g)
      case Some((copies, e)) => Some(Mark(closing, text[at..g], copies, i, e))
      case None =>
        if at + 1 <= g - 2 && Occurs(text, "-->", g - 2) then Some(Mark(closing, text[at..g - 2], None, i, g + 1))
        else None
  }

  /** All markers from `i` on, one after the other. */
  function MarksFrom(text: string, i: nat): (r: seq<Mark>)
    requires i <= |text|
    decreases |text| - i
  {
    if i == |text| then []
    else match MarkAt(text, i)
      case Some(m) => [m] + MarksFrom(text, m.end)
      case None => MarksFrom(text, i + 1)
  }

  /** Something that looks like a marker starts at `i`, in any case and spacing. */
  predicate NearAt(text: string, i: nat) {
    Occurs(text, "<!--", i)
    && var j := SkipSpace(text, i + 4);
       var k := if j < |text| && text[j] == '/' then SkipSpace(text, j + 1) else j;
       Occurs(Lower(text), "mirror", k) && (k + 6 == |text| || !ExpiryKeys.IsWord(text[k + 6]))
  }

  /** The places at or after `i` that are marked. */
  function Places(flags: seq<bool>, i: nat): (r: seq<nat>)
    requires i <= |flags|
    decreases |flags| - i
  {
    if i == |flags| then [] else if flags[i] then [i] + Places(flags, i + 1) else Places(flags, i + 1)
  }

  lemma {:induction false} PlacesIff(flags: seq<bool>, i: nat, n: nat)
    requires i <= |flags|
    ensures n in Places(flags, i) <==> i <= n < |flags| && flags[n]
    decreases |flags| - i
  {
    if i < |flags| { PlacesIff(flags, i + 1, n); }
  }

  /** Where anything like a marker starts. */
  function NearStarts(text: string): (r: seq<nat>) {
    Places(seq(|text|, n requires 0 <= n < |text| => NearAt(text, n)), 0)
  }

  lemma NearStartsIff(text: string, n: nat)
    ensures n in NearStarts(text) <==> n < |text| && NearAt(text, n)
  {
    PlacesIff(seq(|text|, k requires 0 <= k < |text| => NearAt(text, k)), 0, n);
  }

  /** Something at or after `i` looks like a marker. */
  predicate HasNear(text: string, i: nat) {
    exists n :: i <= n < |text| && NearAt(text, n)
  }

  /** Every marker looks like one. */
  lemma MarkIsNear(text: string, i: nat)
    requires MarkAt(text, i).Some?
    ensures NearAt(text, i)
  {
    HeadIsNear(text, i);
  }

  lemma HeadIsNear(text: string, i: nat)
    requires HeadAt(text, i).Some?
    ensures NearAt(text, i)
  {
    var k := HeadAt(text, i).value.1 - 7;
    SpacesStop(text, k);
    MirrorLower(text, k);
  }

  lemma SpacesStop(text: string, k: nat)
    requires Occurs(text, "mirror:", k)
    ensures SkipSpace(text, k) == k
  {
    assert text[k] == text[k..k + 7][0];
  }

  lemma MirrorLower(text: string, k: nat)
    requires Occurs(text, "mirror:", k)
    ensures Occurs(Lower(text), "mirror", k) && text[k + 6] == ':'
  {
    var found, low := text[k..k + 7], Lower(text)[k..k + 6];
    forall j | 0 <= j < 6 ensures low[j] == found[j] {
      assert text[k + j] == found[j];
      assert 'a' <= "mirror:"[j] <= 'z';
    }
    assert low == found[..6] && found[..6] == "mirror";
  }

  /** The markers found are exactly the matches that no earlier match overlaps, in order; each one stands where it says. */
  lemma {:induction false} MarksStand(text: string, i: nat, n: nat)
    requires i <= |text| && n < |MarksFrom(text, i)|
    ensures var m := MarksFrom(text, i)[n]; i <= m.start < m.end <= |text| && MarkAt(text, m.start) == Some(m)
    ensures n + 1 < |MarksFrom(text, i)| ==> MarksFrom(text, i)[n].end <= MarksFrom(text, i)[n + 1].start
    decreases |text| - i
  {
    match MarkAt(text, i)
    case None => MarksStand(text, i + 1, n);
    case Some(m) =>
      var rest := MarksFrom(text, m.end);
      if n > 0 {
        MarksStand(text, m.end, n - 1);
      } else if rest != [] {
        MarksStand(text, m.end, 0);
      }
  }

  /** One of the markers reaches over a place. */
  ghost predicate Under(marks: seq<Mark>, p: nat) {
    exists n :: 0 <= n < |marks| && marks[n].start <= p < marks[n].end
  }

  lemma ConsUnder(m: Mark, rest: seq<Mark>, p: nat)
    requires Under(rest, p)
    ensures Under([m] + rest, p)
  {
    var n :| 0 <= n < |rest| && rest[n].start <= p < rest[n].end;
    assert ([m] + rest)[n + 1] == rest[n];
  }

  /** A match that is not among the markers lies under one that is. */
  lemma {:induction false} MarksComplete(text: string, i: nat, p: nat)
    requires i <= p < |text| && MarkAt(text, p).Some?
    ensures Under(MarksFrom(text, i), p)
    decreases |text| - i
  {
    match MarkAt(text, i)
    case None =>
      assert p != i;
      MarksComplete(text, i + 1, p);
    case Some(m) =>
      if p < m.end {
        assert MarksFrom(text, i)[0] == m;
      } else {
        MarksComplete(text, m.end, p);
        var rest := MarksFrom(text, m.end);
        ConsUnder(m, rest, p);
      }
  }

  // ---------- one file ----------

  /** Something outside code looks like a marker, but no marker starts there. */
  predicate NearMiss(marks: seq<Mark>, n: nat) {
    forall k :: 0 <= k < |marks| ==> marks[k].start != n
  }

  predicate HasMiss(code: string, marks: seq<Mark>) {
    exists n :: 0 <= n < |code| && NearAt(code, n) && NearMiss(marks, n)
  }

  /** A fence is never closed, and something from its opening on looks like a marker: it is invisible. */
  predicate HiddenByFence(text: string) {
    var unclosed := Unclosed(FencesOf(Split(text)), TextSpace);
    unclosed.Some? && unclosed.value <= |Split(text)| && HasNear(text, StartOf(Split(text), unclosed.value))
  }

  /**
   What the census reads in a text: whether anything looks like a marker at all,
   whether a fence hides such a thing, the markers outside code, and whether
   anything else outside code looks like one.
   */
  datatype Tokens = Tokens(near: bool, hidden: bool, marks: seq<Mark>, missed: bool)

  function TokensOf(text: string): (t: Tokens) {
    var code := CodeBlanked(text);
    Tokens(HasNear(text, 0), HiddenByFence(text), MarksFrom(code, 0), HasMiss(code, MarksFrom(code, 0)))
  }

  /** The search for near misses among the places that look like a marker. */
  method AnyMiss(code: string, marks: seq<Mark>) returns (found: bool)
    ensures found <==> HasMiss(code, marks)
  {
    var near := NearStarts(code);
    found := exists k :: 0 <= k < |near| && NearMiss(marks, near[k]);
    MissIff(code, marks, near);
  }

  lemma MissIff(code: string, marks: seq<Mark>, near: seq<nat>)
    requires near == NearStarts(code)
    ensures (exists k :: 0 <= k < |near| && NearMiss(marks, near[k])) <==> HasMiss(code, marks)
  {
    if k :| 0 <= k < |near| && NearMiss(marks, near[k]) {
      NearStartsIff(code, near[k]);
    }
    if HasMiss(code, marks) {
      var n: nat :| n < |code| && NearAt(code, n) && NearMiss(marks, n);
      NearStartsIff(code, n);
      var k :| 0 <= k < |near| && near[k] == n;
      assert NearMiss(marks, near[k]);
    }
  }

  /** The complaint about a fence that hides a marker, from the blanker's line number. */
  method AnyHidden(text: string, unclosed: Option<nat>) returns (hidden: bool)
    requires unclosed == match Unclosed(FencesOf(Split(text)), TextSpace) case None => None case Some(o) => Some(o + 1)
    ensures hidden <==> HiddenByFence(text)
  {
    var lines := Split(text);
    hidden := false;
    if unclosed.Some? {
      var o: nat := unclosed.value - 1;
      assert Unclosed(FencesOf(lines), TextSpace) == Some(o);
      hidden := o <= |lines| && HasNear(text, StartOf(lines, o));
    }
  }

  /** Reading a text: blank its code, then look for markers in what is left. */
  method Tokenise(text: string) returns (t: Tokens)
    ensures t == TokensOf(text)
  {
    var code, unclosed := BlankText(text);
    var hidden := AnyHidden(text, unclosed);
    var marks := MarksFrom(code, 0);
    var missed := AnyMiss(code, marks);
    t := Tokens(HasNear(text, 0), hidden, marks, missed);
  }

  // ---------- the shortcut ----------

  lemma {:induction false} SplitOneLine(text: string)
    requires '\n' !in text
    ensures Split(text) == [text]
  {
    if text != "" {
      var front, c := text[..|text| - 1], text[|text| - 1];
      assert text == front + [c] && c in text;
      SplitOneLine(front);
    }
  }

  /** In a single line without a fence only the code spans are blanked. */
  lemma LineBlanked(text: string)
    requires '\n' !in text && FenceOf(text).None?
    ensures CodeBlanked(text) == BlankSpans(text)
  {
    SplitOneLine(text);
    var lines, fences := [text], FencesOf([text]);
    assert fences[0] == None;
    assert Before(fences, 0, TextSpace) == None && Before(fences, 1, TextSpace) == None;
    BlankedAt(lines, fences, 1, 0);
    assert Blanked(lines, fences, 1) == [text];
  }

  /** A text with one code span of three characters. */
  predicate OneSpan(text: string, i: nat) {
    && i + 3 <= |text| && text[i] == '`' && text[i + 1] !in "`\n" && text[i + 2] == '`'
    && (forall k :: 0 <= k < i ==> text[k] != '`')
    && (forall k :: i + 3 <= k < |text| ==> text[k] != '`')
  }

  lemma OneSpanBlanked(text: string, i: nat)
    requires OneSpan(text, i)
    ensures BlankSpans(text) == text[..i] + ("   " + text[i + 3..])
  {
    var end := SpanEnds(text);
    forall k: nat | k < |text| && text[k] != '`' ensures end(k).None? { assert RunAt(text, k, '`') == 0; }
    OneSpanEnd(text, i);
    TileKeeps(text, end, 0, i);
    TileKeeps(text, end, i + 3, |text|);
    TileStep(text, end, i, i + 3);
    ThreeBlank(text, i);
    Glue(text, i, Tile(text, end, i + 3));
  }

  lemma TileStep(text: string, end: nat -> Option<nat>, i: nat, e: nat)
    requires i < e <= |text| && end(i) == Some(e)
    ensures Tile(text, end, i) == Blank(text[i..e]) + Tile(text, end, e)
  {}

  lemma ThreeBlank(text: string, i: nat)
    requires OneSpan(text, i)
    ensures Blank(text[i..i + 3]) == "   "
  {
    var s := text[i..i + 3];
    assert s[0] == text[i] && s[1] == text[i + 1] && s[2] == text[i + 2];
  }

  lemma Glue(text: string, i: nat, tail: string)
    requires i + 3 <= |text| && tail == text[i + 3..|text|] + ""
    ensures text[0..i] + ("   " + tail) == text[..i] + ("   " + text[i + 3..])
  {
    assert tail == text[i + 3..];
  }

  lemma OneSpanEnd(text: string, i: nat)
    requires OneSpan(text, i)
    ensures WrappedEnd(text, i, RunAt(text, i, '`')) == Some(i + 3)
  {
    assert RunAt(text, i + 1, '`') == 0;
    assert RunAt(text, i + 2, '`') == 1 + RunAt(text, i + 3, '`');
    assert RunAt(text, i, '`') == 1;
    assert TicksInParagraph(text, i + 2, 1) == Some(i + 2);
    assert TicksInParagraph(text, i + 1, 1) == Some(i + 2);
  }

  /** The start of a comment, a code span where white space could stand, and the word. */
  predicate Spaced(text: string) {
    |text| == 13 && OneSpan(text, 4) && text[..4] == "<!--" && text[7..] == "mirror" && text[5] != '<'
  }

  lemma SpacedChars(text: string)
    requires Spaced(text)
    ensures text[0] == '<' && text[12] == 'r' && '\n' !in text
    ensures forall n :: 0 < n < 13 ==> text[n] != '<'
  {
    var a, b := text[..4], text[7..];
    assert a[0] == text[0] && a[1] == text[1] && a[2] == text[2] && a[3] == text[3];
    assert forall k :: 0 <= k < 6 ==> b[k] == text[7 + k];
    forall n | 0 <= n < 13 ensures text[n] != '\n' && (n > 0 ==> text[n] != '<') {
      if n >= 7 { assert text[n] == b[n - 7]; }
    }
  }

  lemma SpacedBlanked(text: string)
    requires Spaced(text)
    ensures CodeBlanked(text) == text[..4] + ("   " + text[7..])
  {
    SpacedChars(text);
    assert DropCR(text) == text && Indent(text) == 0;
    LineBlanked(text);
    OneSpanBlanked(text, 4);
  }

  lemma SpacedNear(text: string, code: string)
    requires Spaced(text) && code == text[..4] + ("   " + text[7..])
    ensures NearAt(code, 0) && HeadAt(code, 0).None?
  {
    assert code[0..4] == "<!--";
    assert code[7..13] == text[7..];
    assert code[4] == code[5] == code[6] == ' ' && code[7] == text[7..][0];
    assert SkipSpace(code, 7) == 7 && SkipSpace(code, 6) == 7 && SkipSpace(code, 5) == 7;
    var low := Lower(code)[7..13];
    forall j | 0 <= j < 6 ensures low[j] == "mirror"[j] { assert code[7 + j] == code[7..13][j]; }
    assert low == "mirror";
  }

  lemma SpacedNotNear(text: string, n: nat)
    requires Spaced(text) && n < |text|
    ensures !NearAt(text, n)
  {
    SpacedChars(text);
    if n == 0 {
      assert SkipSpace(text, 4) == 4;
      FirstDiffers(Lower(text), "mirror", 4);
    } else {
      FirstDiffers(text, "<!--", n);
    }
  }

  lemma FirstDiffers(text: string, lit: string, i: nat)
    requires i < |text| && lit != "" && text[i] != lit[0]
    ensures !Occurs(text, lit, i)
  {
    if i + |lit| <= |text| { assert text[i..i + |lit|][0] == text[i]; }
  }

  /**
   The shortcut that skips a text in which nothing looks like a marker looks at
   the text, not at the blanked text.  Where a code span stands for the white
   space in a comment, something looks like a marker only after blanking, and the
   skipped text would have been reported.
   */
  lemma SkipMissesNear(text: string)
    requires Spaced(text)
    ensures var t := TokensOf(text); !t.near && t.missed
  {
    var code := CodeBlanked(text);
    var marks := MarksFrom(code, 0);
    SpacedBlanked(text);
    SpacedNear(text, code);
    forall n | 0 <= n < |text| ensures !NearAt(text, n) { SpacedNotNear(text, n); }
    forall k | 0 <= k < |marks| ensures marks[k].start != 0 {
      MarksStand(code, 0, k);
    }
    assert NearMiss(marks, 0);
  }

  /** Exactly when the shortcut is harmless: nothing looks like a marker after blanking either. */
  lemma SkipHarmlessIff(text: string)
    requires !HasNear(text, 0)
    ensures var t := TokensOf(text); t.marks == [] && !t.missed && !t.hidden <==> !HasNear(CodeBlanked(text), 0)
  {
    var code := CodeBlanked(text);
    var marks := MarksFrom(code, 0);
    if marks != [] {
      MarksStand(code, 0, 0);
      MarkIsNear(code, marks[0].start);
    }
    if HasNear(code, 0) {
      var n :| 0 <= n < |code| && NearAt(code, n);
      assert marks == [] ==> NearMiss(marks, n);
    }
  }
}
