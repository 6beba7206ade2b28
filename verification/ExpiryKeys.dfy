/** Expiry markers on one line (`scan_line`): the keys, code spans, and the places a marker may stand. */
module ExpiryKeys {
  import opened Basics
  import opened TextLines
  import opened Fences

  function LowerChar(c: char): (r: char) {
    if 'A' <= c <= 'Z' then (c as int + 32) as char else c
  }

  /** ASCII lower-casing, as `bytes.lower` does it. */
  function Lower(s: string): (r: string)
    ensures |r| == |s| && forall k :: 0 <= k < |s| ==> r[k] == LowerChar(s[k])
  {
    seq(|s|, k requires 0 <= k < |s| => LowerChar(s[k]))
  }

  /** The literals that every spelling of a key contains in lower case. */
  const EXPIRES: string := "expires"
  const REVIEW: string := "review"

  /** The line holds one of the prefilter's literals. */
  ghost predicate Filtered(line: string) {
    Contains(Lower(line), EXPIRES) || Contains(Lower(line), REVIEW)
  }

  // ---------- the keys ----------

  predicate IsSeparator(c: char) {
    c in "-_ " || c as int == 0xa0 || 0x2010 <= c as int <= 0x2015
  }

  predicate IsWord(c: char) {
    'a' <= LowerChar(c) <= 'z' || '0' <= c <= '9' || c == '_'
  }

  function SkipSpace(text: string, i: nat): (j: nat)
    requires i <= |text|
    ensures i <= j <= |text|
    decreases |text| - i
  {
    if i < |text| && TextSpace(text[i]) then SkipSpace(text, i + 1) else i
  }

  function SkipSeparator(text: string, i: nat): (j: nat)
    requires i <= |text|
    ensures i <= j <= |text|
  {
    if i < |text| && IsSeparator(text[i]) then i + 1 else i
  }

  /** The end of a word, an optional separator, a second word and a colon, if they stand at `i`. */
  function TwoWordsEnd(text: string, i: nat, first: string, second: string): (e: Option<nat>)
    ensures e.Some? ==> Occurs(Lower(text), first, i) && i < e.value <= |text|
  {
    if !Occurs(Lower(text), first, i) then None
    else
      var j := SkipSeparator(text, i + |first|);
      if !Occurs(Lower(text), second, j) then None
      else
        var k := SkipSpace(text, j + |second|);
        if k < |text| && text[k] == ':' then Some(k + 1) else None
  }

  /** The end of the spelling that puts the colon before "when". */
  function ColonWhenEnd(text: string, i: nat): (e: Option<nat>)
    ensures e.Some? ==> Occurs(Lower(text), EXPIRES, i) && i < e.value <= |text|
  {
    if !Occurs(Lower(text), EXPIRES, i) then None
    else
      var k := SkipSpace(text, i + |EXPIRES|);
      if k == |text| || text[k] != ':' then None
      else
        var j := SkipSpace(text, k + 1);
        if Occurs(Lower(text), "when", j) && (j + 4 == |text| || !IsWord(text[j + 4])) then Some(j + 4) else None
  }

  /** The end of the key that starts at `i`, in any of its loose spellings. */
  function KeyEnd(text: string, i: nat): (e: Option<nat>)
    ensures e.Some? ==> i < e.value <= |text|
    ensures e.Some? ==> Occurs(Lower(text), EXPIRES, i) || Occurs(Lower(text), REVIEW, i)
  {
    match TwoWordsEnd(text, i, EXPIRES, "when")
    case Some(e) => Some(e)
    case None =>
      match ColonWhenEnd(text, i)
      case Some(e) => Some(e)
      case None => TwoWordsEnd(text, i, REVIEW, "by")
  }

  /** Some key starts at or after `i`. */
  predicate HasKey(text: string, i: nat)
    requires i <= |text|
    decreases |text| - i
  {
    i < |text| && (KeyEnd(text, i).Some? || HasKey(text, i + 1))
  }

  lemma KeyNeedsLiteral(text: string)
    requires !Filtered(text)
    ensures forall i: nat :: KeyEnd(text, i).None?
  {
    forall i: nat ensures KeyEnd(text, i).None? {
      assert !Occurs(Lower(text), EXPIRES, i) && !Occurs(Lower(text), REVIEW, i);
    }
  }

  // ---------- code spans ----------

  /** The end of the shortest span at `i` that is delimited by `n` or fewer backticks, longest delimiter first. */
  function SpanEnd(text: string, i: nat, n: nat): (e: Option<nat>)
    requires i + n <= |text|
    ensures e.Some? ==> i < e.value <= |text|
    decreases n
  {
    if n == 0 then None
    else match TicksFrom(text, i + n, n)
      case Some(j) => Some(j + n)
      case None => SpanEnd(text, i, n - 1)
  }

  /** The first place at or after `i` where `n` backticks stand. */
  function TicksFrom(text: string, i: nat, n: nat): (j: Option<nat>)
    requires i <= |text|
    ensures j.Some? ==> i <= j.value && j.value + n <= |text|
    decreases |text| - i
  {
    if i + n > |text| then None
    else if RunAt(text, i, '`') >= n then Some(i)
    else if i == |text| then None
    else TicksFrom(text, i + 1, n)
  }

  /** The end of the code span that starts at `i`, if one does. */
  function CodeEnd(text: string, i: nat): (e: Option<nat>)
    requires i <= |text|
    ensures e.Some? ==> i < e.value <= |text|
  {
    SpanEnd(text, i, RunAt(text, i, '`'))
  }

  /** The line from `i` on with its code spans blanked, offsets kept. */
  function BlankCode(text: string, i: nat): (r: string)
    requires i <= |text|
    ensures |r| == |text| - i
    ensures forall k :: 0 <= k < |r| ==> r[k] == text[i + k] || r[k] == ' '
    decreases |text| - i
  {
    if i == |text| then ""
    else match CodeEnd(text, i)
      case Some(e) => seq(e - i, _ => ' ') + BlankCode(text, e)
      case None => [text[i]] + BlankCode(text, i + 1)
  }

  /** The line from `i` on with each code span collapsed to one space. */
  function DropCode(text: string, i: nat): (r: string)
    requires i <= |text|
    decreases |text| - i
  {
    if i == |text| then ""
    else match CodeEnd(text, i)
      case Some(e) => " " + DropCode(text, e)
      case None => [text[i]] + DropCode(text, i + 1)
  }

  /** Blanking creates no literal. */
  lemma BlankedFiltered(text: string, lit: string, i: nat)
    requires ' ' !in lit && Occurs(Lower(BlankCode(text, 0)), lit, i)
    ensures Occurs(Lower(text), lit, i)
  {
    var b := BlankCode(text, 0);
    var x, y := Lower(b)[i..i + |lit|], Lower(text)[i..i + |lit|];
    forall k | 0 <= k < |x| ensures x[k] == y[k] {
      assert x[k] in lit;
      assert b[i + k] != ' ';
    }
    assert x == y;
  }

  /** Characters of the collapsed line that are not spaces stood next to each other before. */
  lemma {:induction false} DroppedAt(text: string, i: nat, k: nat)
    requires i <= |text| && NoSpace(DropCode(text, i), k + 1)
    ensures i + k < |text| && text[i + k] == DropCode(text, i)[k]
    decreases k
  {
    DroppedHead(text, i);
    if k > 0 {
      var rest := DropCode(text, i + 1);
      NoSpaceTail(text[i], rest, k);
      DroppedAt(text, i + 1, k - 1);
      assert ([text[i]] + rest)[k] == rest[k - 1];
    }
  }

  /** The first `n` characters are there, and none of them is a space. */
  predicate NoSpace(s: string, n: nat) {
    n <= |s| && forall j :: 0 <= j < n ==> s[j] != ' '
  }

  lemma NoSpaceTail(c: char, rest: string, n: nat)
    requires NoSpace([c] + rest, n + 1)
    ensures NoSpace(rest, n)
  {
    forall j | 0 <= j < n ensures rest[j] != ' ' { assert ([c] + rest)[j + 1] == rest[j]; }
  }

  lemma DroppedHead(text: string, i: nat)
    requires i <= |text| && NoSpace(DropCode(text, i), 1)
    ensures i < |text| && DropCode(text, i) == [text[i]] + DropCode(text, i + 1)
  {
    assert DropCode(text, i)[0] != ' ';
  }

  /** A literal at the start of the collapsed line stood there before. */
  lemma DroppedStart(text: string, i: nat, lit: string)
    requires i <= |text| && ' ' !in lit && lit != "" && Occurs(Lower(DropCode(text, i)), lit, 0)
    ensures Occurs(Lower(text), lit, i)
  {
    var d := DropCode(text, i);
    var y := Lower(d)[0..|lit|];
    forall k | 0 <= k < |lit| ensures d[k] != ' ' {
      assert y[k] in lit;
    }
    forall k | 0 <= k < |lit| ensures i + k < |text| && text[i + k] == d[k] {
      assert NoSpace(d, k + 1);
      DroppedAt(text, i, k);
    }
    assert NoSpace(d, |lit|);
    DroppedAt(text, i, |lit| - 1);
    LowerSame(text, i, d, |lit|);
  }

  lemma LowerSame(text: string, i: nat, d: string, n: nat)
    requires i + n <= |text| && n <= |d| && forall k :: 0 <= k < n ==> text[i + k] == d[k]
    ensures Lower(text)[i..i + n] == Lower(d)[0..n]
  {}

  /** Collapsing creates no literal. */
  lemma {:induction false} DroppedFiltered(text: string, i: nat, lit: string, p: nat)
    requires i <= |text| && ' ' !in lit && lit != "" && Occurs(Lower(DropCode(text, i)), lit, p)
    ensures Contains(Lower(text), lit)
    decreases |text| - i
  {
    if p == 0 {
      DroppedStart(text, i, lit);
    } else {
      var next := match CodeEnd(text, i) case Some(e) => e case None => i + 1;
      var d, rest := DropCode(text, i), DropCode(text, next);
      assert |d| == |rest| + 1 && d[1..] == rest;
      LowerTail(d, rest, lit, p);
      DroppedFiltered(text, next, lit, p - 1);
    }
  }

  lemma LowerTail(d: string, rest: string, lit: string, p: nat)
    requires |d| == |rest| + 1 && d[1..] == rest && p > 0 && Occurs(Lower(d), lit, p)
    ensures Occurs(Lower(rest), lit, p - 1)
  {
    var x, y := Lower(rest)[p - 1..p - 1 + |lit|], Lower(d)[p..p + |lit|];
    forall k | 0 <= k < |x| ensures x[k] == y[k] {
      assert d[1..][p - 1 + k] == d[p + k];
    }
    assert x == y;
  }
}
