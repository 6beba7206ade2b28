/** The census over mirrored document blocks (`scan` and the membership verdict in `main`). */
module MirrorCensus {
  import opened Basics
  import opened TextLines
  import opened Fences
  import opened FenceScan
  import opened MirrorMarks

  // ---------- normalisation ----------

  /** The words of a text: its maximal stretches without white space, as `split()` yields them. */
  function Words(text: string): (r: seq<string>) {
    if text == "" then []
    else
      var joins := |text| >= 2 && !TextSpace(text[|text| - 2]);
      AddChar(Words(text[..|text| - 1]), joins, text[|text| - 1])
  }

  /** One more character: white space adds nothing, and any other character continues the last word or starts one. */
  function AddChar(before: seq<string>, joins: bool, c: char): (r: seq<string>) {
    if TextSpace(c) then before
    else if joins && before != [] then before[..|before| - 1] + [before[|before| - 1] + [c]]
    else before + [[c]]
  }

  function JoinWords(words: seq<string>): (r: string) {
    if words == [] then ""
    else if |words| == 1 then words[0]
    else JoinWords(words[..|words| - 1]) + " " + words[|words| - 1]
  }

  /** Every run of white space becomes one space, and none is left at the ends. */
  function Normalise(text: string): (r: string) {
    JoinWords(Words(text))
  }

  predicate IsWord(w: string) {
    w != "" && forall k :: 0 <= k < |w| ==> !TextSpace(w[k])
  }

  ghost predicate AreWords(words: seq<string>) {
    forall k :: 0 <= k < |words| ==> IsWord(words[k])
  }

  lemma {:induction false} WordsAreWords(text: string)
    ensures AreWords(Words(text))
    ensures text != "" && !TextSpace(text[|text| - 1]) ==> Words(text) != []
  {
    if text != "" {
      WordsAreWords(text[..|text| - 1]);
    }
  }

  /** Splitting a text extended by one word, which either continues the text or stands behind a space. */
  lemma {:induction false} WordsAppendWord(text: string, w: string)
    requires IsWord(w) && (text == "" || TextSpace(text[|text| - 1]))
    ensures Words(text + w) == Words(text) + [w]
    decreases |w|
  {
    if |w| == 1 {
      WordsAppendChar(text, w[0]);
      assert w == [w[0]];
    } else {
      var front, c := w[..|w| - 1], w[|w| - 1];
      WordsAppendWord(text, front);
      WordsAppendLetter(text, front, c);
      SplitLast(text, w);
    }
  }

  lemma SplitLast(text: string, w: string)
    requires w != ""
    ensures text + w == (text + w[..|w| - 1]) + [w[|w| - 1]] && w == w[..|w| - 1] + [w[|w| - 1]]
  {}

  lemma WordsAppendLetter(text: string, w: string, c: char)
    requires IsWord(w) && !TextSpace(c) && Words(text + w) == Words(text) + [w]
    ensures Words((text + w) + [c]) == Words(text) + [w + [c]]
  {
    WordsAppendChar(text + w, c);
    assert (text + w)[|text + w| - 1] == w[|w| - 1];
    LastGrows(Words(text), w, c);
  }

  lemma LastGrows(before: seq<string>, w: string, c: char)
    requires !TextSpace(c)
    ensures AddChar(before + [w], true, c) == before + [w + [c]]
  {}

  lemma WordsAppendChar(text: string, c: char)
    ensures Words(text + [c]) == AddChar(Words(text), text != "" && !TextSpace(text[|text| - 1]), c)
  {
    assert (text + [c])[..|text|] == text;
  }

  /** Normalised text splits into the same words: normalisation forgets nothing but white space. */
  lemma {:induction false} SplitJoined(words: seq<string>)
    requires AreWords(words)
    ensures Words(JoinWords(words)) == words
  {
    if words != [] {
      var front, w := words[..|words| - 1], words[|words| - 1];
      assert words == front + [w];
      if front == [] {
        WordsAppendWord("", w);
        assert "" + w == w;
      } else {
        SplitJoined(front);
        var spaced := JoinWords(front) + " ";
        assert spaced[..|spaced| - 1] == JoinWords(front);
        assert Words(spaced) == front;
        WordsAppendWord(spaced, w);
      }
    }
  }

  /** Two texts normalise alike exactly when they have the same words, however wrapped or indented. */
  lemma NormaliseIffWords(a: string, b: string)
    ensures Normalise(a) == Normalise(b) <==> Words(a) == Words(b)
    ensures Normalise(Normalise(a)) == Normalise(a)
    ensures Normalise(a) == "" <==> Words(a) == []
  {
    WordsAreWords(a);
    WordsAreWords(b);
    SplitJoined(Words(a));
    SplitJoined(Words(b));
  }

  // ---------- the markers of one file ----------

  datatype Block = Block(id: string, body: string, copies: Option<nat>)

  datatype Finding =
    | Malformed(at: nat)
    | Nested(at: nat)
    | StrayClose(at: nat)
    | NeverClosed(at: nat)

  /** Python's `text[a:b]` for offsets that need not be in order. */
  function Slice(text: string, a: nat, b: nat): (r: string) {
    if a <= b <= |text| then text[a..b] else if a <= |text| < b then text[a..] else ""
  }

  /** The text between two markers, normalised, as a function that the marker machine need not look into. */
  type BodyOf = (Mark, Mark) -> string

  function Bodies(text: string): (f: BodyOf) {
    (open: Mark, close: Mark) => Normalise(Slice(text, open.end, close.start))
  }

  function BlockOf(body: BodyOf, open: Mark, close: Mark): (b: Block) {
    Block(open.id, body(open, close), open.copies)
  }

  datatype Scan = Scan(open: Option<Mark>, blocks: seq<Block>, findings: seq<Finding>)

  function Declared(m: Mark): (r: seq<Finding>) {
    if m.closing == m.copies.Some? then [Malformed(m.start)] else []
  }

  /** One step of the marker machine. */
  function Turn(body: BodyOf, s: Scan, m: Mark): (s': Scan) {
    var findings := s.findings + Declared(m);
    if !m.closing then
      Scan(Some(m), s.blocks, if s.open.Some? then findings + [Nested(m.start)] else findings)
    else if s.open.None? || s.open.value.id != m.id then
      Scan(s.open, s.blocks, findings + [StrayClose(m.start)])
    else
      Scan(None, s.blocks + [BlockOf(body, s.open.value, m)], findings)
  }

  /** The machine, run over the remaining markers. */
  function Run(body: BodyOf, s: Scan, marks: seq<Mark>): (r: Scan)
    decreases |marks|
  {
    if marks == [] then s else Run(body, Turn(body, s, marks[0]), marks[1..])
  }

  const START: Scan := Scan(None, [], [])

  /** The source's loop over the markers of one file. */
  method ScanMarks(text: string, marks: seq<Mark>) returns (blocks: seq<Block>, findings: seq<Finding>)
    ensures var s := Run(Bodies(text), START, marks);
      && blocks == s.blocks
      && findings == s.findings + if s.open.Some? then [NeverClosed(s.open.value.start)] else []
  {
    blocks, findings := [], [];
    var body := Bodies(text);
    var open: Option<Mark> := None;
    for n := 0 to |marks|
      invariant Run(body, START, marks) == Run(body, Scan(open, blocks, findings), marks[n..])
    {
      open, blocks, findings := HandleMark(body, open, blocks, findings, marks[n]);
      assert marks[n..][1..] == marks[n + 1..];
    }
    if open.Some? {
      findings := findings + [NeverClosed(open.value.start)];
    }
  }

  /** The body of the loop: one marker. */
  method HandleMark(body: BodyOf, open: Option<Mark>, blocks: seq<Block>, findings: seq<Finding>, m: Mark)
    returns (open': Option<Mark>, blocks': seq<Block>, findings': seq<Finding>)
    ensures Scan(open', blocks', findings') == Turn(body, Scan(open, blocks, findings), m)
  {
    open', blocks', findings' := open, blocks, findings;
    if m.closing && m.copies.Some? {
      findings' := findings' + [Malformed(m.start)];
    }
    if !m.closing && m.copies.None? {
      findings' := findings' + [Malformed(m.start)];
    }
    if !m.closing {
      if open.Some? {
        findings' := findings' + [Nested(m.start)];
      }
      open' := Some(m);
      return;
    }
    if open.None? || open.value.id != m.id {
      findings' := findings' + [StrayClose(m.start)];
      return;
    }
    blocks' := blocks + [BlockOf(body, open.value, m)];
    open' := None;
  }

  function CountNested(fs: seq<Finding>): (c: nat) {
    if fs == [] then 0 else CountNested(fs[..|fs| - 1]) + if fs[|fs| - 1].Nested? then 1 else 0
  }

  function CountStray(fs: seq<Finding>): (c: nat) {
    if fs == [] then 0 else CountStray(fs[..|fs| - 1]) + if fs[|fs| - 1].StrayClose? then 1 else 0
  }

  function CountMalformed(fs: seq<Finding>): (c: nat) {
    if fs == [] then 0 else CountMalformed(fs[..|fs| - 1]) + if fs[|fs| - 1].Malformed? then 1 else 0
  }

  lemma CountAppend(fs: seq<Finding>, f: Finding)
    ensures CountNested(fs + [f]) == CountNested(fs) + if f.Nested? then 1 else 0
    ensures CountStray(fs + [f]) == CountStray(fs) + if f.StrayClose? then 1 else 0
    ensures CountMalformed(fs + [f]) == CountMalformed(fs) + if f.Malformed? then 1 else 0
  {
    assert (fs + [f])[..|fs|] == fs;
  }

  function CountOpens(marks: seq<Mark>): (c: nat) {
    if marks == [] then 0 else (if marks[0].closing then 0 else 1) + CountOpens(marks[1..])
  }

  function CountUndeclared(marks: seq<Mark>): (c: nat) {
    if marks == [] then 0 else |Declared(marks[0])| + CountUndeclared(marks[1..])
  }

  predicate Strays(s: Scan, m: Mark) {
    m.closing && (s.open.None? || s.open.value.id != m.id)
  }

  /** How one marker changes the counts of findings. */
  lemma TurnCounts(body: BodyOf, s: Scan, m: Mark)
    ensures var s' := Turn(body, s, m);
      && CountNested(s'.findings) == CountNested(s.findings) + (if !m.closing && s.open.Some? then 1 else 0)
      && CountStray(s'.findings) == CountStray(s.findings) + (if Strays(s, m) then 1 else 0)
      && CountMalformed(s'.findings) == CountMalformed(s.findings) + |Declared(m)|
  {
    var findings := s.findings + Declared(m);
    if Declared(m) != [] { CountAppend(s.findings, Malformed(m.start)); } else { assert findings == s.findings; }
    CountAppend(findings, Nested(m.start));
    CountAppend(findings, StrayClose(m.start));
  }

  ghost predicate Balanced(s: Scan, opens: int, closes: int, undeclared: int) {
    && opens == |s.blocks| + CountNested(s.findings) + (if s.open.Some? then 1 else 0)
    && closes == |s.blocks| + CountStray(s.findings)
    && undeclared == CountMalformed(s.findings)
    && |s.findings| == CountNested(s.findings) + CountStray(s.findings) + CountMalformed(s.findings)
  }

  lemma TurnBalanced(body: BodyOf, s: Scan, m: Mark, opens: int, closes: int, undeclared: int)
    requires Balanced(s, opens, closes, undeclared)
    ensures Balanced(Turn(body, s, m), opens + (if m.closing then 0 else 1), closes + (if m.closing then 1 else 0),
                     undeclared + |Declared(m)|)
  {
    TurnCounts(body, s, m);
  }

  lemma {:induction false} RunBalanced(body: BodyOf, s: Scan, marks: seq<Mark>, opens: int, closes: int, undeclared: int)
    requires Balanced(s, opens, closes, undeclared)
    ensures Balanced(Run(body, s, marks), opens + CountOpens(marks), closes + |marks| - CountOpens(marks),
                     undeclared + CountUndeclared(marks))
    decreases |marks|
  {
    if marks != [] {
      var m := marks[0];
      TurnBalanced(body, s, m, opens, closes, undeclared);
      RunBalanced(body, Turn(body, s, m), marks[1..], opens + (if m.closing then 0 else 1),
                  closes + (if m.closing then 1 else 0), undeclared + |Declared(m)|);
    }
  }

  /**
   Conservation: every opening marker ends up in a block, is nested over, or
   stays open; every closing marker closes a block or strays; every marker with
   a misplaced or missing count is reported.
   */
  lemma MarksConserved(body: BodyOf, marks: seq<Mark>)
    ensures Balanced(Run(body, START, marks), CountOpens(marks), |marks| - CountOpens(marks), CountUndeclared(marks))
  {
    RunBalanced(body, START, marks, 0, 0, 0);
  }

  /** A concatenation of opening markers, each followed by a closing marker of the same id. */
  predicate Pairs(marks: seq<Mark>) {
    marks == [] ||
    (|marks| >= 2 && !marks[0].closing && marks[1].closing && marks[0].id == marks[1].id && Pairs(marks[2..]))
  }

  function PairBlocks(body: BodyOf, marks: seq<Mark>): (r: seq<Block>)
    requires Pairs(marks)
  {
    if marks == [] then [] else [BlockOf(body, marks[0], marks[1])] + PairBlocks(body, marks[2..])
  }

  /** Structural findings: NESTED and STRAY-CLOSE. */
  function Structural(s: Scan): (c: nat) {
    CountNested(s.findings) + CountStray(s.findings)
  }

  /** A marker that the machine complains about. */
  predicate Offends(s: Scan, m: Mark) {
    Strays(s, m) || (!m.closing && s.open.Some?)
  }

  lemma TurnStructural(body: BodyOf, s: Scan, m: Mark)
    ensures Structural(Turn(body, s, m)) == Structural(s) + if Offends(s, m) then 1 else 0
  {
    TurnCounts(body, s, m);
  }

  lemma {:induction false} StructuralGrows(body: BodyOf, s: Scan, marks: seq<Mark>)
    ensures Structural(s) <= Structural(Run(body, s, marks))
    decreases |marks|
  {
    if marks != [] {
      TurnStructural(body, s, marks[0]);
      StructuralGrows(body, Turn(body, s, marks[0]), marks[1..]);
    }
  }

  /** From a state with nothing open, the machine stays quiet and ends with nothing open exactly on pairs. */
  lemma {:induction false} QuietIffPairs(body: BodyOf, s: Scan, marks: seq<Mark>)
    requires s.open.None?
    ensures Structural(Run(body, s, marks)) == Structural(s) && Run(body, s, marks).open.None? <==> Pairs(marks)
    decreases |marks|
  {
    if marks != [] {
      var s1 := Turn(body, s, marks[0]);
      TurnStructural(body, s, marks[0]);
      StructuralGrows(body, s1, marks[1..]);
      if !marks[0].closing && |marks| >= 2 {
        var s2 := Turn(body, s1, marks[1]);
        assert marks[1..][1..] == marks[2..];
        assert Run(body, s, marks) == Run(body, s2, marks[2..]);
        TurnStructural(body, s1, marks[1]);
        if Offends(s1, marks[1]) {
          StructuralGrows(body, s2, marks[2..]);
        } else {
          QuietIffPairs(body, s2, marks[2..]);
        }
      }
    }
  }

  lemma {:induction false} RunPairs(body: BodyOf, s: Scan, marks: seq<Mark>)
    requires s.open.None? && Pairs(marks)
    ensures Run(body, s, marks).blocks == s.blocks + PairBlocks(body, marks)
    decreases |marks|
  {
    if marks != [] {
      var s2 := Turn(body, Turn(body, s, marks[0]), marks[1]);
      assert marks[1..][1..] == marks[2..];
      assert Run(body, s, marks) == Run(body, s2, marks[2..]);
      var b := BlockOf(body, marks[0], marks[1]);
      assert s2.open.None? && s2.blocks == s.blocks + [b];
      RunPairs(body, s2, marks[2..]);
      var rest := PairBlocks(body, marks[2..]);
      assert (s.blocks + [b]) + rest == s.blocks + ([b] + rest);
      assert PairBlocks(body, marks) == [b] + rest;
    }
  }

  /** No NESTED, STRAY-CLOSE or UNCLOSED finding. */
  predicate WellFormed(s: Scan) {
    Structural(s) == 0 && s.open.None?
  }

  /** A file is well formed exactly when its markers are same-id pairs, and then its blocks are the pairs. */
  lemma WellFormedIff(body: BodyOf, marks: seq<Mark>)
    ensures WellFormed(Run(body, START, marks)) <==> Pairs(marks)
    ensures Pairs(marks) ==> Run(body, START, marks).blocks == PairBlocks(body, marks)
  {
    QuietIffPairs(body, START, marks);
    if Pairs(marks) { RunPairs(body, START, marks); }
  }

  // ---------- membership ----------

  datatype Complaint = Members | EmptyBlock | Orphan | Differ

  /** The blocks of one id, in order. */
  function OfId(blocks: seq<Block>, id: string): (r: seq<Block>) {
    if blocks == [] then []
    else OfId(blocks[..|blocks| - 1], id) + if blocks[|blocks| - 1].id == id then [blocks[|blocks| - 1]] else []
  }

  lemma {:induction false} OfIdMembers(blocks: seq<Block>, id: string, b: Block)
    ensures b in OfId(blocks, id) <==> b in blocks && b.id == id
  {
    if blocks != [] {
      OfIdMembers(blocks[..|blocks| - 1], id, b);
      assert blocks == blocks[..|blocks| - 1] + [blocks[|blocks| - 1]];
    }
  }

  /** The source's dictionary from ids to their blocks. */
  method GroupById(blocks: seq<Block>) returns (byId: map<string, seq<Block>>)
    ensures forall id :: id in byId <==> OfId(blocks, id) != []
    ensures forall id :: id in byId ==> byId[id] == OfId(blocks, id)
  {
    byId := map[];
    for n := 0 to |blocks|
      invariant forall id :: id in byId <==> OfId(blocks[..n], id) != []
      invariant forall id :: id in byId ==> byId[id] == OfId(blocks[..n], id)
    {
      var b := blocks[n];
      assert blocks[..n + 1][..n] == blocks[..n];
      byId := byId[b.id := (if b.id in byId then byId[b.id] else []) + [b]];
    }
    assert blocks[..|blocks|] == blocks;
  }

  /** The numbers of copies that the blocks of one id declare. */
  function DeclaredCopies(members: seq<Block>): (r: set<nat>) {
    set k | 0 <= k < |members| && members[k].copies.Some? :: members[k].copies.value
  }

  /** The declared numbers differ, or the one declared number is not the number of blocks. */
  ghost predicate Miscounted(members: seq<Block>) {
    |DeclaredCopies(members)| > 1 || exists n :: DeclaredCopies(members) == {n} && n != |members|
  }

  /** The verdict on one id, check by check. */
  method JudgeId(members: seq<Block>) returns (complaints: seq<Complaint>)
    requires members != []
    ensures Members in complaints <==> Miscounted(members)
    ensures EmptyBlock in complaints <==> exists b :: b in members && b.body == ""
    ensures Orphan in complaints <==> |members| < 2
    ensures Differ in complaints <==> exists b :: b in members && b.body != members[0].body
  {
    complaints := [];
    var d := DeclaredCopies(members);
    if |d| > 1 {
      complaints := complaints + [Members];
    } else if |d| == 1 {
      var n :| n in d;
      SingleElement(d, n);
      if n != |members| {
        complaints := complaints + [Members];
      }
    }
    ghost var counted := complaints;
    for k := 0 to |members|
      invariant Members in complaints <==> Members in counted
      invariant Orphan !in complaints && Differ !in complaints
      invariant EmptyBlock in complaints <==> exists b :: b in members[..k] && b.body == ""
    {
      assert forall b :: b in members[..k + 1] <==> b in members[..k] || b == members[k];
      if members[k].body == "" {
        complaints := complaints + [EmptyBlock];
      }
    }
    assert members[..|members|] == members;
    if |members| < 2 {
      complaints := complaints + [Orphan];
      return;
    }
    if exists k :: 1 <= k < |members| && members[k].body != members[0].body {
      complaints := complaints + [Differ];
    }
  }

  lemma SingleElement<T>(s: set<T>, x: T)
    requires |s| <= 1 && x in s
    ensures s == {x}
  {
    assert |s - {x}| == 0;
  }

  /** All copies of a mirror agree: enough of them, the same text, and as many as each one declares. */
  ghost predicate Agreed(members: seq<Block>) {
    && |members| >= 2
    && forall b :: b in members ==> b.body == members[0].body && b.body != "" && b.copies == Some(|members|)
  }

  ghost predicate AllDeclared(blocks: seq<Block>) {
    forall b :: b in blocks ==> b.copies.Some?
  }

  /** Nothing to complain about: enough copies, the same text in all of them, and no count that contradicts. */
  ghost predicate Quiet(members: seq<Block>) {
    && members != [] && !Miscounted(members) && |members| >= 2
    && (forall b :: b in members ==> b.body != "")
    && (forall b :: b in members ==> b.body == members[0].body)
  }

  /** Where every copy declares its count, quiet means agreed. */
  lemma QuietIffAgreed(members: seq<Block>)
    requires members != [] && AllDeclared(members)
    ensures Quiet(members) <==> Agreed(members)
  {
    var d := DeclaredCopies(members);
    forall b | b in members ensures b.copies.value in d {
      var k :| 0 <= k < |members| && members[k] == b;
    }
    assert members[0] in members;
    if !Miscounted(members) {
      SingleElement(d, members[0].copies.value);
    }
    if Agreed(members) {
      assert forall n :: n in d ==> n == |members|;
      assert d == {|members|};
    }
  }

  /** Something is mirrored, and every mirror is quiet. */
  ghost predicate AllQuiet(blocks: seq<Block>) {
    blocks != [] && forall b :: b in blocks ==> Quiet(OfId(blocks, b.id))
  }

  /** Something is mirrored, and all copies of every mirror agree. */
  ghost predicate AllAgreed(blocks: seq<Block>) {
    blocks != [] && forall b :: b in blocks ==> Agreed(OfId(blocks, b.id))
  }

  lemma AllQuietIffAgreed(blocks: seq<Block>)
    requires AllDeclared(blocks)
    ensures AllQuiet(blocks) <==> AllAgreed(blocks)
  {
    forall b | b in blocks ensures Quiet(OfId(blocks, b.id)) <==> Agreed(OfId(blocks, b.id)) {
      var members := OfId(blocks, b.id);
      OfIdMembers(blocks, b.id, b);
      forall x | x in members ensures x.copies.Some? { OfIdMembers(blocks, b.id, x); }
      QuietIffAgreed(members);
    }
  }

  /** The membership verdict over the blocks of all files, whether or not they declare their counts. */
  method MembershipVerdict(blocks: seq<Block>) returns (clean: bool)
    ensures clean <==> AllQuiet(blocks)
  {
    var byId := GroupById(blocks);
    clean := blocks != [];
    var todo := byId.Keys;
    while todo != {}
      invariant todo <= byId.Keys
      invariant clean <==> blocks != [] && forall id :: id in byId && id !in todo ==> Quiet(OfId(blocks, id))
      decreases todo
    {
      var id :| id in todo;
      var complaints := JudgeId(byId[id]);
      SilentIsQuiet(OfId(blocks, id), complaints);
      if complaints != [] {
        clean := false;
      }
      todo := todo - {id};
    }
    ByIdMeansAll(blocks, byId.Keys);
  }

  lemma SilentIsQuiet(members: seq<Block>, complaints: seq<Complaint>)
    requires members != []
    requires Members in complaints <==> Miscounted(members)
    requires EmptyBlock in complaints <==> exists b :: b in members && b.body == ""
    requires Orphan in complaints <==> |members| < 2
    requires Differ in complaints <==> exists b :: b in members && b.body != members[0].body
    ensures complaints == [] <==> Quiet(members)
  {
    if complaints != [] {
      var c := complaints[0];
      assert c in complaints && (c == Members || c == EmptyBlock || c == Orphan || c == Differ);
    }
  }

  lemma ByIdMeansAll(blocks: seq<Block>, ids: set<string>)
    requires forall id :: id in ids <==> OfId(blocks, id) != []
    ensures (forall id :: id in ids ==> Quiet(OfId(blocks, id))) <==> forall b :: b in blocks ==> Quiet(OfId(blocks, b.id))
  {
    forall b | b in blocks ensures b.id in ids { OfIdMembers(blocks, b.id, b); }
    forall id | id in ids ensures exists b :: b in blocks && b.id == id {
      var b := OfId(blocks, id)[0];
      OfIdMembers(blocks, id, b);
    }
  }

  // ---------- the whole census ----------

  /** A file of the census: it cannot be read, or it has a text, with what is read in it. */
  datatype File = Unreadable | Document(text: string, tokens: Tokens)

  /** Same-id pairs, each opening marker with its count, no closing marker with one. */
  ghost predicate MarksClean(marks: seq<Mark>) {
    Pairs(marks) && forall k :: 0 <= k < |marks| ==> Declared(marks[k]) == []
  }

  /**
   Nothing to report about a file: nothing in it looks like a marker; or no fence
   hides one, the markers outside code are clean, and nothing else outside code
   looks like one.
   */
  ghost predicate FileClean(f: File) {
    f.Document? && (!f.tokens.near || (!f.tokens.hidden && MarksClean(f.tokens.marks) && !f.tokens.missed))
  }

  function FileBlocks(f: File): (r: seq<Block>) {
    if f.Unreadable? || !f.tokens.near then [] else Run(Bodies(f.text), START, f.tokens.marks).blocks
  }

  /** The blocks of the first `n` files, in order. */
  function BlocksOf(files: seq<File>, n: nat): (r: seq<Block>)
    requires n <= |files|
  {
    if n == 0 then [] else BlocksOf(files, n - 1) + FileBlocks(files[n - 1])
  }

  function AllBlocks(files: seq<File>): (r: seq<Block>) {
    BlocksOf(files, |files|)
  }

  lemma {:induction false} UndeclaredIff(marks: seq<Mark>)
    ensures CountUndeclared(marks) == 0 <==> forall k :: 0 <= k < |marks| ==> Declared(marks[k]) == []
  {
    if marks != [] {
      UndeclaredIff(marks[1..]);
      assert forall k :: 0 <= k < |marks| ==> marks[k] == if k == 0 then marks[0] else marks[1..][k - 1];
    }
  }

  /** The marker machine reports nothing exactly on pairs with their counts. */
  lemma SilentIff(body: BodyOf, marks: seq<Mark>)
    ensures var s := Run(body, START, marks);
      s.findings == [] && s.open.None? <==> Pairs(marks) && forall k :: 0 <= k < |marks| ==> Declared(marks[k]) == []
  {
    MarksConserved(body, marks);
    WellFormedIff(body, marks);
    UndeclaredIff(marks);
  }

  lemma {:induction false} PairBlocksDeclared(body: BodyOf, marks: seq<Mark>, b: Block)
    requires Pairs(marks) && (forall k :: 0 <= k < |marks| ==> Declared(marks[k]) == []) && b in PairBlocks(body, marks)
    ensures b.copies.Some?
    decreases |marks|
  {
    assert Declared(marks[0]) == [];
    if b != BlockOf(body, marks[0], marks[1]) {
      forall k | 0 <= k < |marks[2..]| ensures Declared(marks[2..][k]) == [] {
        assert marks[2..][k] == marks[k + 2];
      }
      PairBlocksDeclared(body, marks[2..], b);
    }
  }

  lemma FileDeclared(f: File)
    requires FileClean(f)
    ensures AllDeclared(FileBlocks(f))
  {
    if f.tokens.near {
      var body, marks := Bodies(f.text), f.tokens.marks;
      WellFormedIff(body, marks);
      forall b | b in FileBlocks(f) ensures b.copies.Some? {
        PairBlocksDeclared(body, marks, b);
      }
    }
  }

  lemma {:induction false} BlocksDeclared(files: seq<File>, n: nat)
    requires n <= |files| && CleanUpTo(files, n)
    ensures AllDeclared(BlocksOf(files, n))
  {
    if n > 0 {
      BlocksDeclared(files, n - 1);
      FileDeclared(files[n - 1]);
      DeclaredConcat(BlocksOf(files, n - 1), FileBlocks(files[n - 1]));
    }
  }

  lemma DeclaredConcat(a: seq<Block>, b: seq<Block>)
    requires AllDeclared(a) && AllDeclared(b)
    ensures AllDeclared(a + b)
  {}

  /** The scan of one file. */
  method ScanFile(f: File) returns (blocks: seq<Block>, clean: bool)
    ensures blocks == FileBlocks(f)
    ensures clean <==> FileClean(f)
  {
    if f.Unreadable? {
      return [], false;
    }
    if !f.tokens.near {
      return [], true;
    }
    var findings;
    blocks, findings := ScanMarks(f.text, f.tokens.marks);
    SilentIff(Bodies(f.text), f.tokens.marks);
    clean := !f.tokens.hidden && !f.tokens.missed && findings == [];
  }

  ghost predicate CleanUpTo(files: seq<File>, n: nat)
    requires n <= |files|
  {
    n == 0 || (CleanUpTo(files, n - 1) && FileClean(files[n - 1]))
  }

  lemma {:induction false} CleanUpToIff(files: seq<File>, n: nat)
    requires n <= |files|
    ensures CleanUpTo(files, n) <==> forall i :: 0 <= i < n ==> FileClean(files[i])
  {
    if n > 0 { CleanUpToIff(files, n - 1); }
  }

  /** One turn of the loop over the files. */
  method ScanNext(files: seq<File>, n: nat, blocks: seq<Block>, quiet: bool) returns (blocks': seq<Block>, quiet': bool)
    requires n < |files| && blocks == BlocksOf(files, n) && (quiet <==> CleanUpTo(files, n))
    ensures blocks' == BlocksOf(files, n + 1) && (quiet' <==> CleanUpTo(files, n + 1))
  {
    var more, ok := ScanFile(files[n]);
    blocks', quiet' := blocks + more, quiet && ok;
  }

  /** The loop over the files. */
  method ScanAll(files: seq<File>) returns (blocks: seq<Block>, quiet: bool)
    ensures blocks == BlocksOf(files, |files|) && (quiet <==> CleanUpTo(files, |files|))
  {
    blocks, quiet := [], true;
    for n := 0 to |files|
      invariant blocks == BlocksOf(files, n) && (quiet <==> CleanUpTo(files, n))
    {
      blocks, quiet := ScanNext(files, n, blocks, quiet);
    }
  }

  /** The text of a file, if it can be read. */
  function FileOf(text: Option<string>): (f: File) {
    match text
    case None => Unreadable
    case Some(t) => Document(t, TokensOf(t))
  }

  /** The first `n` files. */
  function FilesOf(texts: seq<Option<string>>, n: nat): (files: seq<File>)
    requires n <= |texts|
    ensures |files| == n
  {
    if n == 0 then [] else FilesOf(texts, n - 1) + [FileOf(texts[n - 1])]
  }

  lemma {:induction false} FilesOfAt(texts: seq<Option<string>>, n: nat, i: nat)
    requires i < n <= |texts|
    ensures FilesOf(texts, n)[i] == FileOf(texts[i])
  {
    if i < n - 1 { FilesOfAt(texts, n - 1, i); }
  }

  method ReadFile(text: Option<string>) returns (f: File)
    ensures f == FileOf(text)
  {
    match text {
      case None => f := Unreadable;
      case Some(t) =>
        var tokens := Tokenise(t);
        f := Document(t, tokens);
    }
  }

  method ReadFiles(texts: seq<Option<string>>) returns (files: seq<File>)
    ensures files == FilesOf(texts, |texts|)
  {
    files := [];
    for n := 0 to |texts|
      invariant files == FilesOf(texts, n)
    {
      var f := ReadFile(texts[n]);
      files := files + [f];
    }
  }

  /** The verdict over files that have been read, given whether the walk over the tree had nothing to report. */
  method Verdict(walked: bool, files: seq<File>) returns (clean: bool)
    ensures clean <==> walked && (forall i :: 0 <= i < |files| ==> FileClean(files[i])) && AllAgreed(AllBlocks(files))
  {
    var blocks, quiet := ScanAll(files);
    var agreed := MembershipVerdict(blocks);
    CleanUpToIff(files, |files|);
    if quiet {
      BlocksDeclared(files, |files|);
      AllQuietIffAgreed(blocks);
    }
    clean := walked && quiet && agreed;
  }

  /**
   The census, from the texts of the files: it is clean exactly when the walk had
   nothing to report, every file could be read and is clean, and all copies of
   every mirror agree in text and in number.
   */
  method Census(walked: bool, texts: seq<Option<string>>) returns (clean: bool)
    ensures var files := FilesOf(texts, |texts|);
      clean <==> walked && (forall i :: 0 <= i < |files| ==> FileClean(files[i])) && AllAgreed(AllBlocks(files))
  {
    var files := ReadFiles(texts);
    clean := Verdict(walked, files);
  }
}
