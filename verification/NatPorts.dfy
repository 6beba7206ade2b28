/** The port list of a destination NAT rule (`natDestPortsSuffix`): runs of ports printed as ranges, losing nothing. */
module NatPorts {

  // ---------- decimal numbers and lists in text ----------

  function Digit(d: nat): (c: char)
    requires d < 10
  {
    (d + '0' as int) as char
  }

  function Decimal(n: nat): (s: string)
    ensures s != "" && forall k :: 0 <= k < |s| ==> '0' <= s[k] <= '9'
  {
    if n < 10 then [Digit(n)] else Decimal(n / 10) + [Digit(n % 10)]
  }

  function Number(s: string): (n: int) {
    if s == "" then 0 else 10 * Number(s[..|s| - 1]) + (s[|s| - 1] as int - '0' as int)
  }

  lemma {:induction false} NumberOfDecimal(n: nat)
    ensures Number(Decimal(n)) == n
  {
    if n < 10 {
      assert Number([Digit(n)]) == 10 * Number([Digit(n)][..0]) + n;
    } else {
      NumberOfDecimal(n / 10);
      var s := Decimal(n);
      assert s[..|s| - 1] == Decimal(n / 10);
    }
  }

  /** One more character: a separator starts a new part, anything else extends the last one. */
  function Put(parts: seq<string>, sep: char, c: char): (r: seq<string>)
    requires parts != []
    ensures r != []
  {
    if c == sep then parts + [""] else parts[..|parts| - 1] + [parts[|parts| - 1] + [c]]
  }

  function PutAll(parts: seq<string>, sep: char, s: string): (r: seq<string>)
    requires parts != []
    ensures r != []
    decreases |s|
  {
    if s == "" then parts else PutAll(Put(parts, sep, s[0]), sep, s[1..])
  }

  /** A text cut at every separator. */
  function Cut(s: string, sep: char): (r: seq<string>)
    ensures r != []
  {
    PutAll([""], sep, s)
  }

  function JoinBy(parts: seq<string>, sep: char): (r: string)
    requires parts != []
  {
    if |parts| == 1 then parts[0] else JoinBy(parts[..|parts| - 1], sep) + [sep] + parts[|parts| - 1]
  }

  lemma {:induction false} PutConcat(parts: seq<string>, sep: char, s: string, w: string)
    requires parts != []
    ensures PutAll(parts, sep, s + w) == PutAll(PutAll(parts, sep, s), sep, w)
    decreases |s|
  {
    if s == "" {
      assert s + w == w;
    } else {
      assert (s + w)[1..] == s[1..] + w;
      PutConcat(Put(parts, sep, s[0]), sep, s[1..], w);
    }
  }

  /** A word extends the last part. */
  lemma {:induction false} PutWord(front: seq<string>, last: string, sep: char, w: string)
    requires sep !in w
    ensures PutAll(front + [last], sep, w) == front + [last + w]
    decreases |w|
  {
    if w == "" {
      assert last + w == last;
    } else {
      PutOne(front, last, sep, w[0]);
      PutWord(front, last + [w[0]], sep, w[1..]);
      assert (last + [w[0]]) + w[1..] == last + w;
    }
  }

  lemma PutOne(front: seq<string>, last: string, sep: char, c: char)
    requires c != sep
    ensures Put(front + [last], sep, c) == front + [last + [c]]
  {
    assert (front + [last])[..|front|] == front;
  }

  /** A separator and a word add a part. */
  lemma CutPart(s: string, sep: char, w: string)
    requires sep !in w
    ensures Cut(s + [sep] + w, sep) == Cut(s, sep) + [w]
  {
    PutConcat([""], sep, s + [sep], w);
    PutConcat([""], sep, s, [sep]);
    assert PutAll(Cut(s, sep), sep, [sep]) == Cut(s, sep) + [""] by { assert [sep][1..] == ""; }
    PutWord(Cut(s, sep), "", sep, w);
    assert "" + w == w;
  }

  lemma CutWord(sep: char, w: string)
    requires sep !in w
    ensures Cut(w, sep) == [w]
  {
    PutWord([], "", sep, w);
    assert [] + [""] == [""] && "" + w == w;
  }

  /** Cutting undoes joining. */
  lemma {:induction false} CutJoined(parts: seq<string>, sep: char)
    requires parts != [] && forall k :: 0 <= k < |parts| ==> sep !in parts[k]
    ensures Cut(JoinBy(parts, sep), sep) == parts
  {
    var last := parts[|parts| - 1];
    if |parts| == 1 {
      CutWord(sep, last);
    } else {
      var front := parts[..|parts| - 1];
      CutJoined(front, sep);
      CutPart(JoinBy(front, sep), sep, last);
      assert front + [last] == parts;
    }
  }

  // ---------- ranges ----------

  /** One past the largest 32-bit port field. */
  const LIMIT: int := 0x1_0000_0000

  type Port = p: int | 0 <= p < LIMIT

  datatype Range = Range(lo: Port, hi: Port)

  /** The successor in 32-bit arithmetic, which wraps. */
  function Succ(p: Port): (q: Port) {
    if p + 1 == LIMIT then 0 else p + 1
  }

  /** The ranges of the first `n` ports: a port that follows the last one extends its range. */
  function Ranges(ports: seq<Port>, n: nat): (r: seq<Range>)
    requires n <= |ports|
    ensures n > 0 ==> r != [] && r[|r| - 1].hi == ports[n - 1]
  {
    if n == 0 then []
    else
      var before, p := Ranges(ports, n - 1), ports[n - 1];
      if before != [] && p == Succ(before[|before| - 1].hi) then
        before[..|before| - 1] + [Range(before[|before| - 1].lo, p)]
      else before + [Range(p, p)]
  }

  function Expand(lo: int, hi: int): (r: seq<int>)
    ensures |r| == if lo <= hi then hi - lo + 1 else 0
    ensures forall k :: 0 <= k < |r| ==> r[k] == lo + k
  {
    if lo <= hi then seq(hi - lo + 1, k requires 0 <= k => lo + k) else []
  }

  /** The ports that a list of ranges stands for. */
  function Flat(ranges: seq<Range>): (r: seq<int>) {
    if ranges == [] then []
    else Flat(ranges[..|ranges| - 1]) + Expand(ranges[|ranges| - 1].lo, ranges[|ranges| - 1].hi)
  }

  lemma FlatAppend(ranges: seq<Range>, r: Range)
    ensures Flat(ranges + [r]) == Flat(ranges) + Expand(r.lo, r.hi)
  {
    assert (ranges + [r])[..|ranges|] == ranges;
  }

  /** No two neighbouring ranges could be printed as one. */
  lemma {:induction false} RangesApart(ports: seq<Port>, n: nat, k: nat)
    requires n <= |ports| && k + 1 < |Ranges(ports, n)|
    ensures Ranges(ports, n)[k + 1].lo != Succ(Ranges(ports, n)[k].hi)
  {
    var before := Ranges(ports, n - 1);
    if k + 1 < |before| {
      RangesApart(ports, n - 1, k);
    }
  }

  /** The largest field value, followed by zero, is taken for a run. */
  predicate WrapsAt(ports: seq<Port>, k: nat)
    requires 1 <= k < |ports|
  {
    ports[k - 1] == LIMIT - 1 && ports[k] == 0
  }

  ghost predicate Wraps(ports: seq<Port>, n: nat)
    requires n <= |ports|
  {
    exists k :: 1 <= k < n && WrapsAt(ports, k)
  }

  /** A port that follows the last one moves the end of the last range. */
  lemma ExtendStep(ports: seq<Port>, n: nat, closed: seq<Range>, last: Range)
    requires 0 < n < |ports| && Ranges(ports, n) == closed + [last] && ports[n] == Succ(last.hi)
    ensures Ranges(ports, n + 1) == closed + [Range(last.lo, ports[n])]
    ensures Flat(Ranges(ports, n)) == Flat(closed) + Expand(last.lo, last.hi)
    ensures Flat(Ranges(ports, n + 1)) == Flat(closed) + Expand(last.lo, ports[n])
  {
    assert (closed + [last])[..|closed|] == closed;
    FlatAppend(closed, last);
    FlatAppend(closed, Range(last.lo, ports[n]));
  }

  /** Any other port starts a range of its own. */
  lemma StartStep(ports: seq<Port>, n: nat)
    requires n < |ports| && (n == 0 || ports[n] != Succ(ports[n - 1]))
    ensures Ranges(ports, n + 1) == Ranges(ports, n) + [Range(ports[n], ports[n])]
    ensures Flat(Ranges(ports, n + 1)) == Flat(Ranges(ports, n)) + [ports[n]]
  {
    FlatAppend(Ranges(ports, n), Range(ports[n], ports[n]));
    assert Expand(ports[n], ports[n]) == [ports[n]];
  }

  lemma ExpandGrows(before: seq<int>, lo: int, hi: int)
    requires lo <= hi
    ensures before + Expand(lo, hi + 1) == (before + Expand(lo, hi)) + [hi + 1]
  {
    assert Expand(lo, hi + 1) == Expand(lo, hi) + [hi + 1];
  }

  /** Extending the last range adds its port, unless it wraps. */
  lemma ExtendsBack(ports: seq<Port>, m: nat)
    requires 0 < m < |ports| && ports[m] == Succ(ports[m - 1]) && !WrapsAt(ports, m)
    requires Ranges(ports, m)[|Ranges(ports, m)| - 1].lo <= ports[m - 1]
    ensures Flat(Ranges(ports, m + 1)) == Flat(Ranges(ports, m)) + [ports[m]]
    ensures Ranges(ports, m + 1)[|Ranges(ports, m + 1)| - 1].lo <= ports[m]
  {
    var before := Ranges(ports, m);
    var closed, last := before[..|before| - 1], before[|before| - 1];
    ExtendStep(ports, m, closed, last);
    ExpandGrows(Flat(closed), last.lo, last.hi);
  }

  lemma {:induction false} ExpandsBack(ports: seq<Port>, n: nat)
    requires n <= |ports| && !Wraps(ports, n)
    ensures Flat(Ranges(ports, n)) == ports[..n]
    ensures n > 0 ==> Ranges(ports, n)[|Ranges(ports, n)| - 1].lo <= ports[n - 1]
  {
    if n > 0 {
      var m := n - 1;
      WrapsStep(ports, m);
      ExpandsBack(ports, m);
      assert ports[..n] == ports[..m] + [ports[m]];
      if m > 0 && ports[m] == Succ(ports[m - 1]) {
        ExtendsBack(ports, m);
      } else {
        StartStep(ports, m);
      }
    }
  }

  /** The ranges never stand for more ports than there are, and for fewer once a run wraps. */
  lemma {:induction false} FlatLength(ports: seq<Port>, n: nat)
    requires n <= |ports|
    ensures |Flat(Ranges(ports, n))| <= n
    ensures Wraps(ports, n) ==> |Flat(Ranges(ports, n))| < n
  {
    if n > 0 {
      var m := n - 1;
      FlatLength(ports, m);
      if m > 0 && ports[m] == Succ(ports[m - 1]) {
        var before := Ranges(ports, m);
        var closed, last := before[..|before| - 1], before[|before| - 1];
        ExtendStep(ports, m, closed, last);
      } else {
        StartStep(ports, m);
      }
      WrapsStep(ports, m);
    }
  }

  /** A run that wraps does so at the last port or before it, and a port that wraps follows the one before. */
  lemma WrapsStep(ports: seq<Port>, m: nat)
    requires m < |ports|
    ensures Wraps(ports, m + 1) <==> Wraps(ports, m) || (m > 0 && WrapsAt(ports, m))
  {
    if Wraps(ports, m) {
      var k :| 1 <= k < m && WrapsAt(ports, k);
      assert k < m + 1;
    }
  }

  /** The ranges stand for exactly the printed ports, in order, unless a run wraps around the 32-bit field. */
  lemma RoundTripIff(ports: seq<Port>)
    ensures Flat(Ranges(ports, |ports|)) == ports <==> !Wraps(ports, |ports|)
  {
    FlatLength(ports, |ports|);
    if !Wraps(ports, |ports|) {
      ExpandsBack(ports, |ports|);
      assert ports[..|ports|] == ports;
    }
  }

  // ---------- the printed suffix ----------

  /** The port fields of a rule: the single port of an old daemon, and the full set. */
  datatype Rule = Rule(dstPort: Port, dstPorts: seq<Port>)

  function Shown(r: Range): (s: string) {
    if r.lo == r.hi then Decimal(r.lo) else Decimal(r.lo) + "-" + Decimal(r.hi)
  }

  function ShownAll(ranges: seq<Range>): (r: seq<string>)
    ensures |r| == |ranges| && forall k :: 0 <= k < |r| ==> r[k] == Shown(ranges[k])
  {
    seq(|ranges|, k requires 0 <= k < |ranges| => Shown(ranges[k]))
  }

  /** The source's pass over the ports, with the open range kept in two variables. */
  method Suffix(r: Rule) returns (s: string)
    ensures r.dstPorts == [] ==> s == if r.dstPort > 0 then ":" + Decimal(r.dstPort) else ""
    ensures r.dstPorts != [] ==> s == ":" + JoinBy(ShownAll(Ranges(r.dstPorts, |r.dstPorts|)), ',')
  {
    var ports := r.dstPorts;
    if |ports| == 0 {
      if r.dstPort > 0 {
        return ":" + Decimal(r.dstPort);
      }
      return "";
    }
    var parts: seq<string> := [];
    var lo, hi := ports[0], ports[0];
    ghost var closed: seq<Range> := [];
    assert Ranges(ports, 0) == [];
    for n := 1 to |ports|
      invariant parts == ShownAll(closed) && hi == ports[n - 1]
      invariant Ranges(ports, n) == closed + [Range(lo, hi)]
    {
      var p := ports[n];
      if p == Succ(hi) {
        ExtendStep(ports, n, closed, Range(lo, hi));
        hi := p;
        continue;
      }
      StartStep(ports, n);
      parts := parts + [Shown(Range(lo, hi))];
      closed := closed + [Range(lo, hi)];
      lo, hi := p, p;
    }
    parts := parts + [Shown(Range(lo, hi))];
    assert parts == ShownAll(Ranges(ports, |ports|));
    return ":" + JoinBy(parts, ',');
  }

  /** An independent reader of one printed range. */
  function ReadRange(s: string): (r: seq<int>) {
    var ends := Cut(s, '-');
    Expand(Number(ends[0]), Number(ends[|ends| - 1]))
  }

  function ReadParts(parts: seq<string>): (r: seq<int>) {
    if parts == [] then [] else ReadParts(parts[..|parts| - 1]) + ReadRange(parts[|parts| - 1])
  }

  /** An independent reader of the printed suffix. */
  function ReadSuffix(s: string): (r: seq<int>) {
    if s == "" then [] else ReadParts(Cut(s[1..], ','))
  }

  lemma ReadShown(r: Range)
    ensures ReadRange(Shown(r)) == Expand(r.lo, r.hi) && ',' !in Shown(r)
  {
    NumberOfDecimal(r.lo);
    NumberOfDecimal(r.hi);
    if r.lo == r.hi {
      CutJoined([Decimal(r.lo)], '-');
    } else {
      var ends := [Decimal(r.lo), Decimal(r.hi)];
      assert ends[..1] == [Decimal(r.lo)];
      assert JoinBy(ends, '-') == Shown(r);
      CutJoined(ends, '-');
    }
  }

  lemma {:induction false} ReadShownAll(ranges: seq<Range>)
    ensures ReadParts(ShownAll(ranges)) == Flat(ranges)
  {
    if ranges != [] {
      var front := ranges[..|ranges| - 1];
      ReadShownAll(front);
      ReadShown(ranges[|ranges| - 1]);
      assert ShownAll(ranges)[..|ranges| - 1] == ShownAll(front);
    }
  }

  /** Reading the printed suffix gives back the ports, in order and with repetitions, unless a run wraps. */
  lemma PrintedPortsReadBack(ports: seq<Port>)
    requires ports != []
    ensures ReadSuffix(":" + JoinBy(ShownAll(Ranges(ports, |ports|)), ',')) == ports <==> !Wraps(ports, |ports|)
  {
    var ranges := Ranges(ports, |ports|);
    var parts := ShownAll(ranges);
    var s := ":" + JoinBy(parts, ',');
    forall k | 0 <= k < |parts| ensures ',' !in parts[k] { ReadShown(ranges[k]); }
    assert s[1..] == JoinBy(parts, ',');
    CutJoined(parts, ',');
    ReadShownAll(ranges);
    RoundTripIff(ports);
  }

  /** Real ports never wrap, whatever their order. */
  lemma RealPortsReadBack(ports: seq<Port>)
    requires ports != [] && forall k :: 0 <= k < |ports| ==> ports[k] <= 65535
    ensures ReadSuffix(":" + JoinBy(ShownAll(Ranges(ports, |ports|)), ',')) == ports
  {
    PrintedPortsReadBack(ports);
  }

  /** The two ports at the ends of the field, printed as one backward range, read back as none. */
  lemma WrappedPortsVanish()
    ensures Flat(Ranges([LIMIT - 1, 0], 2)) == []
  {
    var ports: seq<Port> := [LIMIT - 1, 0];
    assert Ranges(ports, 1) == [Range(LIMIT - 1, LIMIT - 1)];
    assert Ranges(ports, 2) == [Range(LIMIT - 1, 0)];
    FlatAppend([], Range(LIMIT - 1, 0));
    assert [] + [Range(LIMIT - 1, 0)] == [Range(LIMIT - 1, 0)];
  }
}
