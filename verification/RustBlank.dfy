/**
 The blanking lexer of the Rust source census (`blank`): comments, strings and
 character literals become spaces, and every other character stays where it is.
 */
module RustBlank {

  /** Two given characters at position `i`. */
  predicate Pair(text: string, i: nat, a: char, b: char) {
    i + 1 < |text| && text[i] == a && text[i + 1] == b
  }

  /** The end of a line comment: the next newline, or the end of the text. */
  function LineEnd(text: string, i: nat): (end: nat)
    requires i <= |text|
    ensures i <= end <= |text|
    ensures forall k :: i <= k < end ==> text[k] != '\n'
    ensures end < |text| ==> text[end] == '\n'
    decreases |text| - i
  {
    if i < |text| && text[i] != '\n' then LineEnd(text, i + 1) else i
  }

  /** The end of a block comment that is `depth` deep at `end`; block comments nest. */
  function CommentEnd(text: string, end: nat, depth: nat): (r: nat)
    requires end <= |text|
    ensures end <= r <= |text|
    decreases |text| - end
  {
    if end == |text| || depth == 0 then end
    else if Pair(text, end, '/', '*') then CommentEnd(text, end + 2, depth + 1)
    else if Pair(text, end, '*', '/') then CommentEnd(text, end + 2, depth - 1)
    else CommentEnd(text, end + 1, depth)
  }

  function HashEnd(text: string, i: nat): (end: nat)
    requires i <= |text|
    ensures i <= end <= |text|
    decreases |text| - i
  {
    if i < |text| && text[i] == '#' then HashEnd(text, i + 1) else i
  }

  /** The closing delimiter of a raw string: a quote and as many hashes as opened it. */
  predicate ClosesRaw(text: string, i: nat, hashes: nat) {
    i + hashes < |text| && text[i] == '"' && forall k :: i < k <= i + hashes ==> text[k] == '#'
  }

  /** The end of a raw string searched from `i`: after its first closing delimiter, or the end of the text. */
  function RawEnd(text: string, i: nat, hashes: nat): (end: nat)
    requires i <= |text|
    ensures i <= end <= |text|
    decreases |text| - i
  {
    if i == |text| then i
    else if ClosesRaw(text, i, hashes) then i + 1 + hashes
    else RawEnd(text, i + 1, hashes)
  }

  /** The end of a string whose body starts at `end`; a backslash at the end of the text steps past it. */
  function StringEnd(text: string, end: nat): (r: nat)
    requires end <= |text| + 1
    ensures end <= r <= |text| + 1
    ensures end < |text| ==> end < r
    decreases |text| + 1 - end
  {
    if end >= |text| then end
    else if text[end] == '\\' then StringEnd(text, end + 2)
    else if text[end] == '"' then end + 1
    else StringEnd(text, end + 1)
  }

  /** The length of the character literal at `i`, or zero if the quote there only starts a lifetime. */
  function CharLength(text: string, i: nat): (n: nat)
    requires i < |text| && text[i] == '\''
  {
    if i + 3 < |text| && text[i + 1] == '\\' && text[i + 2] != '\n' && text[i + 3] == '\'' then 4
    else if i + 2 < |text| && text[i + 1] != '\\' && text[i + 1] != '\'' && text[i + 2] == '\'' then 3
    else 0
  }

  /** What the lexer does at a position: keep one character, or blank up to `end`, with or without its newlines. */
  datatype Token = Keep | Blanked(end: nat, newlines: bool)

  function TokenAt(text: string, i: nat): (t: Token)
    requires i < |text|
    ensures t.Blanked? ==> i < t.end && (i + 2 <= t.end || t.end == |text|)
  {
    if Pair(text, i, '/', '/') then Blanked(LineEnd(text, i + 2), false)
    else if Pair(text, i, '/', '*') then Blanked(CommentEnd(text, i + 2, 1), true)
    else if text[i] == 'r' && i + 1 < |text| && text[i + 1] in "\"#" then
      var quote := HashEnd(text, i + 1);
      if quote < |text| && text[quote] == '"' then Blanked(RawEnd(text, quote + 1, quote - i - 1), true) else Keep
    else if text[i] == '"' then Blanked(StringEnd(text, i + 1), true)
    else if text[i] == '\'' && CharLength(text, i) > 0 then Blanked(i + CharLength(text, i), false)
    else Keep
  }

  /** Where the lexer goes on after position `i`. */
  function Next(text: string, i: nat): (j: nat)
    requires i < |text|
    ensures i < j <= |text|
  {
    match TokenAt(text, i)
    case Keep => i + 1
    case Blanked(end, _) => if end < |text| then end else |text|
  }

  function Masked(s: string, newlines: bool): (r: string)
    ensures |r| == |s|
    ensures forall k :: 0 <= k < |s| ==> r[k] == if newlines && s[k] == '\n' then '\n' else ' '
  {
    seq(|s|, k requires 0 <= k < |s| => if newlines && s[k] == '\n' then '\n' else ' ')
  }

  function BlankFrom(text: string, i: nat): (r: string)
    requires i <= |text|
    ensures |r| == |text| - i
    decreases |text| - i
  {
    if i == |text| then "" else Piece(text, i) + BlankFrom(text, Next(text, i))
  }

  /** What the token at `i` becomes. */
  function Piece(text: string, i: nat): (r: string)
    requires i < |text|
    ensures |r| == Next(text, i) - i
  {
    match TokenAt(text, i)
    case Keep => [text[i]]
    case Blanked(_, newlines) => Masked(text[i..Next(text, i)], newlines)
  }

  function Blanking(text: string): (r: string)
    ensures |r| == |text|
  {
    BlankFrom(text, 0)
  }

  method ScanComment(text: string, start: nat) returns (end: nat)
    requires start <= |text|
    ensures end == CommentEnd(text, start, 1)
  {
    var depth: nat := 1;
    end := start;
    while end < |text| && depth > 0
      invariant end <= |text| && CommentEnd(text, end, depth) == CommentEnd(text, start, 1)
      decreases |text| - end
    {
      if Pair(text, end, '/', '*') {
        depth, end := depth + 1, end + 2;
      } else if Pair(text, end, '*', '/') {
        depth, end := depth - 1, end + 2;
      } else {
        end := end + 1;
      }
    }
  }

  method ScanString(text: string, start: nat) returns (end: nat)
    requires start <= |text|
    ensures end == StringEnd(text, start)
  {
    end := start;
    while end < |text|
      invariant end <= |text| + 1 && StringEnd(text, end) == StringEnd(text, start)
      decreases |text| + 1 - end
    {
      if text[end] == '\\' {
        end := end + 2;
        continue;
      }
      if text[end] == '"' {
        end := end + 1;
        return;
      }
      end := end + 1;
    }
  }

  method ScanHashes(text: string, start: nat) returns (end: nat)
    requires start <= |text|
    ensures end == HashEnd(text, start)
  {
    end := start;
    while end < |text| && text[end] == '#'
      invariant end <= |text| && HashEnd(text, end) == HashEnd(text, start)
    {
      end := end + 1;
    }
  }

  /** The branches of the source's main loop: the token at `i`, by scanning. */
  method Lex(text: string, i: nat) returns (t: Token)
    requires i < |text|
    ensures t == TokenAt(text, i)
  {
    var end;
    if Pair(text, i, '/', '/') {
      return Blanked(LineEnd(text, i + 2), false);
    } else if Pair(text, i, '/', '*') {
      end := ScanComment(text, i + 2);
    } else if text[i] == 'r' && i + 1 < |text| && text[i + 1] in "\"#" {
      end := ScanHashes(text, i + 1);
      if end < |text| && text[end] == '"' {
        end := RawEnd(text, end + 1, end - i - 1);
      } else {
        return Keep;
      }
    } else if text[i] == '"' {
      end := ScanString(text, i + 1);
    } else if text[i] == '\'' {
      var length := CharLength(text, i);
      if length > 0 {
        return Blanked(i + length, false);
      } else {
        return Keep;
      }
    } else {
      return Keep;
    }
    return Blanked(end, true);
  }

  /** One turn of the source's main loop: what to append and where to go on. */
  method Turn(text: string, i: nat) returns (piece: string, next: nat)
    requires i < |text|
    ensures piece == Piece(text, i)
    ensures i < next && Clamped(text, next) == Next(text, i)
  {
    var t := Lex(text, i);
    match t {
      case Keep => piece, next := [text[i]], i + 1;
      case Blanked(end, newlines) => piece, next := Masked(text[i..Clamped(text, end)], newlines), end;
    }
  }

  method Blank(text: string) returns (out: string)
    ensures out == Blanking(text)
  {
    out := "";
    var i: nat := 0;
    while i < |text|
      invariant out + BlankFrom(text, Clamped(text, i)) == BlankFrom(text, 0)
      decreases |text| - i
    {
      var piece, next := Turn(text, i);
      Regroup(out, piece, BlankFrom(text, Next(text, i)));
      out, i := out + piece, next;
    }
  }

  lemma Regroup(a: string, b: string, c: string)
    ensures a + (b + c) == (a + b) + c
  {}

  /** A position, or the end of the text if it lies behind it. */
  function Clamped(text: string, i: nat): (j: nat) {
    if i < |text| then i else |text|
  }

  /** The start of the token that holds position `k`, lexing from `i`. */
  function Owner(text: string, i: nat, k: nat): (s: nat)
    requires i <= k < |text|
    ensures i <= s <= k < Next(text, s)
    decreases |text| - i
  {
    if k < Next(text, i) then i else Owner(text, Next(text, i), k)
  }

  /** The character at position `k` of a token that starts at `s`, after blanking. */
  function Painted(text: string, s: nat, k: nat): (c: char)
    requires s < |text| && k < |text|
  {
    match TokenAt(text, s)
    case Keep => text[k]
    case Blanked(_, newlines) => if newlines && text[k] == '\n' then '\n' else ' '
  }

  /** Blanking works in place: each output character depends on its own token and its own input character. */
  lemma {:induction false} BlankAt(text: string, i: nat, k: nat)
    requires i <= k < |text|
    ensures BlankFrom(text, i)[k - i] == Painted(text, Owner(text, i, k), k)
    decreases |text| - i
  {
    var j := Next(text, i);
    if j <= k {
      BlankAt(text, j, k);
      assert BlankFrom(text, i)[k - i] == BlankFrom(text, j)[k - j];
    } else {
      PieceAt(text, i, k);
      assert BlankFrom(text, i)[k - i] == Piece(text, i)[k - i];
    }
  }

  lemma PieceAt(text: string, i: nat, k: nat)
    requires i <= k < |text| && k < Next(text, i)
    ensures Piece(text, i)[k - i] == Painted(text, i, k)
  {
    assert text[i..Next(text, i)][k - i] == text[k];
  }

  /** The lexer stops at position `k` and keeps the character there. */
  predicate Kept(text: string, k: nat)
    requires k < |text|
  {
    Owner(text, 0, k) == k && TokenAt(text, k).Keep?
  }

  /** Once the lexer stops at `s`, the token at `s` owns all its positions, and the lexer stops next at its end. */
  lemma {:induction false} OwnerFrom(text: string, i: nat, s: nat, k: nat)
    requires i <= s <= k < |text| && Owner(text, i, s) == s
    ensures k < Next(text, s) ==> Owner(text, i, k) == s
    ensures k == Next(text, s) ==> Owner(text, i, k) == k
    decreases |text| - i
  {
    if i < s {
      OwnerFrom(text, Next(text, i), s, k);
    }
  }

  /** A character of the output that is neither a space nor a newline was kept. */
  lemma VisibleIsKept(text: string, k: nat)
    requires k < |text| && Blanking(text)[k] !in " \n"
    ensures Kept(text, k) && Blanking(text)[k] == text[k]
  {
    BlankAt(text, 0, k);
  }

  lemma KeptIsSame(text: string, k: nat)
    requires k < |text| && Kept(text, k)
    ensures Blanking(text)[k] == text[k]
  {
    BlankAt(text, 0, k);
  }

  /** Between two kept characters two apart there is no room for a token: it would be one character long. */
  lemma NoRoomForToken(text: string, k: nat)
    requires k + 2 < |text| && Kept(text, k) && Kept(text, k + 2)
    ensures Kept(text, k + 1)
  {
    OwnerFrom(text, 0, k, k + 1);
    OwnerFrom(text, 0, k + 1, k + 2);
  }

  /** Nothing in the text starts a comment, a string or a character literal. */
  ghost predicate Clean(text: string) {
    forall k :: 0 <= k < |text| ==>
      && text[k] != '"'
      && !Pair(text, k, '/', '/') && !Pair(text, k, '/', '*')
      && (text[k] == '\'' ==> CharLength(text, k) == 0)
  }

  lemma NoQuoteLeft(text: string, k: nat)
    requires k < |text|
    ensures Blanking(text)[k] != '"'
  {
    if Blanking(text)[k] == '"' {
      VisibleIsKept(text, k);
    }
  }

  lemma NoCommentLeft(text: string, k: nat)
    requires k < |text|
    ensures !Pair(Blanking(text), k, '/', '/') && !Pair(Blanking(text), k, '/', '*')
  {
    if Pair(Blanking(text), k, '/', '/') || Pair(Blanking(text), k, '/', '*') {
      VisibleIsKept(text, k);
      VisibleIsKept(text, k + 1);
    }
  }

  lemma NoCharLeft(text: string, k: nat)
    requires k < |text| && Blanking(text)[k] == '\''
    ensures CharLength(Blanking(text), k) == 0
  {
    var out := Blanking(text);
    VisibleIsKept(text, k);
    if CharLength(out, k) == 3 {
      VisibleIsKept(text, k + 2);
      NoRoomForToken(text, k);
      KeptIsSame(text, k + 1);
    } else if CharLength(out, k) == 4 {
      VisibleIsKept(text, k + 1);
      VisibleIsKept(text, k + 3);
      NoRoomForToken(text, k + 1);
      KeptIsSame(text, k + 2);
    }
  }

  /** The output starts no comment, string or character literal anywhere. */
  lemma BlankingIsClean(text: string)
    ensures Clean(Blanking(text))
  {
    forall k | 0 <= k < |text|
      ensures Blanking(text)[k] != '"' && !Pair(Blanking(text), k, '/', '/') && !Pair(Blanking(text), k, '/', '*')
      ensures Blanking(text)[k] == '\'' ==> CharLength(Blanking(text), k) == 0
    {
      NoQuoteLeft(text, k);
      NoCommentLeft(text, k);
      if Blanking(text)[k] == '\'' { NoCharLeft(text, k); }
    }
  }

  /** A clean text is left as it is. */
  lemma {:induction false} CleanIsFixed(text: string, i: nat)
    requires Clean(text) && i <= |text|
    ensures BlankFrom(text, i) == text[i..]
    decreases |text| - i
  {
    if i < |text| {
      assert TokenAt(text, i).Keep?;
      CleanIsFixed(text, i + 1);
    }
  }

  lemma BlankingIdempotent(text: string)
    ensures Blanking(Blanking(text)) == Blanking(text)
  {
    BlankingIsClean(text);
    CleanIsFixed(Blanking(text), 0);
  }

  /** A character literal that holds a newline between its two quotes. */
  predicate NewlineLiteral(text: string, s: nat)
    requires s < |text|
  {
    s + 2 < |text| && text[s] == '\'' && text[s + 1] == '\n' && text[s + 2] == '\''
  }

  /**
   Newlines: none is invented, and one is lost exactly where the lexer stops at a
   quote, a newline and a quote, which it takes for a character literal.
   */
  lemma NewlineLostIff(text: string, k: nat)
    requires k < |text|
    ensures Blanking(text)[k] == '\n' ==> text[k] == '\n'
    ensures text[k] == '\n' && Blanking(text)[k] != '\n'
      <==> k > 0 && Owner(text, 0, k - 1) == k - 1 && NewlineLiteral(text, k - 1)
  {
    if k > 0 && Owner(text, 0, k - 1) == k - 1 && NewlineLiteral(text, k - 1) {
      NewlineLiteralLoses(text, k - 1);
    } else {
      BlankAt(text, 0, k);
      OwnerStops(text, 0, k);
      NewlineKept(text, Owner(text, 0, k), k);
    }
  }

  lemma NewlineKept(text: string, s: nat, k: nat)
    requires s <= k < |text| && k < Next(text, s)
    requires !(s + 1 == k && NewlineLiteral(text, s))
    ensures Painted(text, s, k) == '\n' <==> text[k] == '\n'
  {
    if text[k] == '\n' && Painted(text, s, k) != '\n' { NewlineLossCause(text, s, k); }
  }

  lemma NewlineLiteralLoses(text: string, s: nat)
    requires s < |text| && Owner(text, 0, s) == s && NewlineLiteral(text, s)
    ensures Blanking(text)[s + 1] == ' '
  {
    assert TokenAt(text, s) == Blanked(s + 3, false);
    OwnerFrom(text, 0, s, s + 1);
    BlankAt(text, 0, s + 1);
  }

  /** A token that blanks a newline to a space is a character literal. */
  lemma NewlineLossCause(text: string, s: nat, k: nat)
    requires s <= k < |text| && k < Next(text, s) && text[k] == '\n' && Painted(text, s, k) != '\n'
    ensures s + 1 == k && NewlineLiteral(text, s)
  {}

  /** The lexer stops where a token starts. */
  lemma {:induction false} OwnerStops(text: string, i: nat, k: nat)
    requires i <= k < |text|
    ensures Owner(text, i, Owner(text, i, k)) == Owner(text, i, k)
    decreases |text| - i
  {
    if k >= Next(text, i) { OwnerStops(text, Next(text, i), k); }
  }

  /** The documented promise, that newlines are kept, for the texts that keep it. */
  lemma NewlinesKept(text: string)
    requires forall s :: 0 <= s < |text| ==> !NewlineLiteral(text, s)
    ensures forall k :: 0 <= k < |text| ==> (Blanking(text)[k] == '\n' <==> text[k] == '\n')
  {
    forall k | 0 <= k < |text| ensures Blanking(text)[k] == '\n' <==> text[k] == '\n' {
      NewlineLostIff(text, k);
    }
  }

  /** Such a text: a quote, a newline and a quote. */
  lemma NewlineIsLost()
    ensures Blanking("'\n'") == "   "
  {
    var text := "'\n'";
    assert TokenAt(text, 0) == Blanked(3, false) && Next(text, 0) == 3;
    assert BlankFrom(text, 3) == "";
    assert text[0..3] == text;
  }
}
