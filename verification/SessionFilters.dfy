/**
 Session filters typed on the command line (`clear security flow session`, `show
 security flow session`).  An empty request means every session, so the one thing
 a parser must never do is turn something typed into the empty request.
 */
module SessionFilters {
  import opened Basics

  // ---------- numbers ----------

  predicate AllDigits(s: string) {
    s != "" && forall k :: 0 <= k < |s| ==> '0' <= s[k] <= '9'
  }

  function Value(s: string): (n: nat)
    requires forall k :: 0 <= k < |s| ==> '0' <= s[k] <= '9'
  {
    if s == "" then 0 else 10 * Value(s[..|s| - 1]) + (s[|s| - 1] as int - '0' as int)
  }

  /** `strconv.ParseUint(s, 10, 32)`. */
  function ParseUint(s: string): (n: Option<nat>) {
    if AllDigits(s) && Value(s) < 0x1_0000_0000 then Some(Value(s)) else None
  }

  /** A signed decimal number of any size; the callers check its range. */
  function ParseInt(s: string): (n: Option<int>) {
    if AllDigits(s) then Some(Value(s))
    else if s != "" && s[0] in "+-" && AllDigits(s[1..]) then
      Some(if s[0] == '-' then -(Value(s[1..]) as int) else Value(s[1..]))
    else None
  }

  function ParsePort(s: string): (n: Option<nat>)
    ensures n.Some? ==> 1 <= n.value <= 65535
  {
    match ParseInt(s)
    case Some(v) => if 1 <= v <= 65535 then Some(v) else None
    case None => None
  }

  // ---------- selectors ----------

  datatype TextField = SourcePrefix | DestinationPrefix | Protocol | Zone | Application | Interface | SourceNatPool

  datatype PortField = SourcePort | DestinationPort

  /** The selector fields of a request; the default of each one is its wildcard. */
  datatype Selectors = Selectors(
    sourcePrefix: string, destinationPrefix: string, protocol: string, zone: string,
    application: string, interface: string, sourceNatPool: string,
    sourcePort: nat, destinationPort: nat, natOnly: bool)

  const EVERYTHING: Selectors := Selectors("", "", "", "", "", "", "", 0, 0, false)

  function Text(r: Selectors, f: TextField): (v: string) {
    match f
    case SourcePrefix => r.sourcePrefix
    case DestinationPrefix => r.destinationPrefix
    case Protocol => r.protocol
    case Zone => r.zone
    case Application => r.application
    case Interface => r.interface
    case SourceNatPool => r.sourceNatPool
  }

  function PortOf(r: Selectors, f: PortField): (v: nat) {
    match f
    case SourcePort => r.sourcePort
    case DestinationPort => r.destinationPort
  }

  /** One typed filter. */
  datatype Filter = NatOnly | ByText(field: TextField, value: string) | ByPort(port: PortField, number: nat)

  function Apply(r: Selectors, f: Filter): (r': Selectors) {
    match f
    case NatOnly => r.(natOnly := true)
    case ByText(SourcePrefix, v) => r.(sourcePrefix := v)
    case ByText(DestinationPrefix, v) => r.(destinationPrefix := v)
    case ByText(Protocol, v) => r.(protocol := v)
    case ByText(Zone, v) => r.(zone := v)
    case ByText(Application, v) => r.(application := v)
    case ByText(Interface, v) => r.(interface := v)
    case ByText(SourceNatPool, v) => r.(sourceNatPool := v)
    case ByPort(SourcePort, n) => r.(sourcePort := n)
    case ByPort(DestinationPort, n) => r.(destinationPort := n)
  }

  function ApplyAll(fs: seq<Filter>): (r: Selectors) {
    if fs == [] then EVERYTHING else Apply(ApplyAll(fs[..|fs| - 1]), fs[|fs| - 1])
  }

  // ---------- spelling and reading filters ----------

  function TextKeyword(f: TextField): (s: string) {
    match f
    case SourcePrefix => "source-prefix"
    case DestinationPrefix => "destination-prefix"
    case Protocol => "protocol"
    case Zone => "zone"
    case Application => "application"
    case Interface => "interface"
    case SourceNatPool => "source-nat-pool"
  }

  function PortKeyword(f: PortField): (s: string) {
    match f
    case SourcePort => "source-port"
    case DestinationPort => "destination-port"
  }

  function TextFieldOf(s: string): (f: Option<TextField>)
    ensures forall g :: f == Some(g) <==> s == TextKeyword(g)
  {
    if s == "source-prefix" then Some(SourcePrefix)
    else if s == "destination-prefix" then Some(DestinationPrefix)
    else if s == "protocol" then Some(Protocol)
    else if s == "zone" then Some(Zone)
    else if s == "application" then Some(Application)
    else if s == "interface" then Some(Interface)
    else if s == "source-nat-pool" then Some(SourceNatPool)
    else None
  }

  function PortFieldOf(s: string): (f: Option<PortField>)
    ensures forall g :: f == Some(g) <==> s == PortKeyword(g)
  {
    if s == "source-port" then Some(SourcePort) else if s == "destination-port" then Some(DestinationPort) else None
  }

  /** How many tokens a filter takes. */
  function Width(f: Filter): (n: nat) {
    if f.NatOnly? then 1 else 2
  }

  /** The tokens from `i` on start with this filter. */
  predicate SpellsOne(args: seq<string>, i: nat, f: Filter) {
    && i + Width(f) <= |args|
    && match f
       case NatOnly => args[i] == "nat" || args[i] == "nat-only"
       case ByText(field, v) => args[i] == TextKeyword(field) && args[i + 1] == v
       case ByPort(field, n) => args[i] == PortKeyword(field) && ParsePort(args[i + 1]) == Some(n)
  }

  /** The tokens from `i` on are exactly these filters, one after the other. */
  predicate Spells(args: seq<string>, i: nat, fs: seq<Filter>)
    decreases |fs|
  {
    if fs == [] then i == |args| else SpellsOne(args, i, fs[0]) && Spells(args, i + Width(fs[0]), fs[1..])
  }

  datatype Error = MissingValue(token: string) | InvalidPort(value: string) | Unknown(token: string)

  datatype Result<+T> = Ok(value: T) | Err(error: Error)

  /** The filter at `i`, read the way the source's loop body does. */
  function ReadOne(args: seq<string>, i: nat): (r: Result<Filter>)
    requires i < |args|
    ensures r.Ok? ==> i + Width(r.value) <= |args|
  {
    if args[i] == "nat-only" || args[i] == "nat" then Ok(NatOnly)
    else if i + 1 >= |args| then Err(MissingValue(args[i]))
    else match TextFieldOf(args[i])
      case Some(f) => Ok(ByText(f, args[i + 1]))
      case None =>
        match PortFieldOf(args[i])
        case None => Err(Unknown(args[i]))
        case Some(f) =>
          match ParsePort(args[i + 1])
          case Some(n) => Ok(ByPort(f, n))
          case None => Err(InvalidPort(args[i + 1]))
  }

  /** The filter read is the one filter that the tokens start with. */
  lemma ReadOneIff(args: seq<string>, i: nat, f: Filter)
    requires i < |args|
    ensures ReadOne(args, i) == Ok(f) <==> SpellsOne(args, i, f)
  {}

  /** A way to read the filter at a place. */
  type Reader = nat -> Result<Filter>

  function ReaderOf(args: seq<string>): (read: Reader) {
    (i: nat) => if i < |args| then ReadOne(args, i) else Err(MissingValue(""))
  }

  /** The filters from `i` on, up to place `n`. */
  function ReadFrom(read: Reader, n: nat, i: nat): (r: Result<seq<Filter>>)
    decreases n - i
  {
    if i >= n then Ok([])
    else match read(i)
      case Err(e) => Err(e)
      case Ok(f) =>
        match ReadFrom(read, n, i + Width(f))
        case Err(e) => Err(e)
        case Ok(fs) => Ok([f] + fs)
  }

  function ReadAll(args: seq<string>, i: nat): (r: Result<seq<Filter>>) {
    ReadFrom(ReaderOf(args), |args|, i)
  }

  /** Reading undoes spelling: the tokens are accepted exactly when they spell filters, and then as those filters. */
  lemma {:induction false} ReadIffSpells(args: seq<string>, i: nat, fs: seq<Filter>)
    requires i <= |args|
    ensures ReadAll(args, i) == Ok(fs) <==> Spells(args, i, fs)
    decreases |args| - i
  {
    if i < |args| {
      if fs != [] {
        ReadOneIff(args, i, fs[0]);
        assert fs == [fs[0]] + fs[1..];
        if ReadOne(args, i) == Ok(fs[0]) { ReadIffSpells(args, i + Width(fs[0]), fs[1..]); }
      }
      var r := ReadOne(args, i);
      if r.Ok? {
        var rest := ReadAll(args, i + Width(r.value));
        if rest.Ok? { assert ([r.value] + rest.value)[1..] == rest.value; }
      }
    }
  }

  // ---------- clear ----------

  /** The request after reading and applying the filters from `i` on. */
  function ParseFrom(read: Reader, n: nat, req: Selectors, i: nat): (r: Result<Selectors>)
    decreases n - i
  {
    if i >= n then Ok(req)
    else match read(i)
      case Err(e) => Err(e)
      case Ok(f) => ParseFrom(read, n, Apply(req, f), i + Width(f))
  }

  ghost function Then(done: seq<Filter>, rest: Result<seq<Filter>>): (r: Result<Selectors>) {
    match rest
    case Ok(fs) => Ok(ApplyAll(done + fs))
    case Err(e) => Err(e)
  }

  /** Applying while reading is reading first and applying afterwards. */
  lemma {:induction false} ParsedIsApplied(read: Reader, n: nat, req: Selectors, done: seq<Filter>, i: nat)
    requires req == ApplyAll(done)
    ensures ParseFrom(read, n, req, i) == Then(done, ReadFrom(read, n, i))
    decreases n - i
  {
    if i >= n {
      assert done + [] == done;
    } else if read(i).Ok? {
      var f := read(i).value;
      ApplyLast(done, f);
      ParsedIsApplied(read, n, Apply(req, f), done + [f], i + Width(f));
      ThenCons(done, f, ReadFrom(read, n, i + Width(f)));
    }
  }

  lemma ApplyLast(done: seq<Filter>, f: Filter)
    ensures ApplyAll(done + [f]) == Apply(ApplyAll(done), f)
  {
    assert (done + [f])[..|done|] == done;
  }

  lemma ThenCons(done: seq<Filter>, f: Filter, rest: Result<seq<Filter>>)
    ensures Then(done + [f], rest) == if rest.Ok? then Then(done, Ok([f] + rest.value)) else Then(done, rest)
  {
    if rest.Ok? { assert (done + [f]) + rest.value == done + ([f] + rest.value); }
  }

  /** The filter loop of `clear security flow session`: it accepts what spells filters, and applies them in order. */
  method ParseClear(args: seq<string>) returns (r: Result<Selectors>)
    ensures match ReadAll(args, 0)
      case Ok(fs) => r == Ok(ApplyAll(fs))
      case Err(e) => r == Err(e)
  {
    r := ParseLoop(args);
    ParsedIsApplied(ReaderOf(args), |args|, EVERYTHING, [], 0);
    ghost var all := ReadAll(args, 0);
    assert all.Ok? ==> [] + all.value == all.value;
  }

  method ParseLoop(args: seq<string>) returns (r: Result<Selectors>)
    ensures r == ParseFrom(ReaderOf(args), |args|, EVERYTHING, 0)
  {
    var req := EVERYTHING;
    var i := 0;
    while i < |args|
      invariant 0 <= i <= |args|
      invariant ParseFrom(ReaderOf(args), |args|, EVERYTHING, 0) == ParseFrom(ReaderOf(args), |args|, req, i)
    {
      var f := ReadOne(args, i);
      if f.Err? {
        return Err(f.error);
      }
      req, i := Apply(req, f.value), i + Width(f.value);
    }
    return Ok(req);
  }

  /** A filter that asks for something: not a text filter with an empty value. */
  predicate Narrows(f: Filter) {
    match f
    case NatOnly => true
    case ByText(_, v) => v != ""
    case ByPort(_, n) => n > 0
  }

  /** Non-empty tokens spell only filters that ask for something. */
  lemma {:induction false} TypedFiltersNarrow(args: seq<string>, i: nat, fs: seq<Filter>, k: nat)
    requires Spells(args, i, fs) && k < |fs| && forall j :: 0 <= j < |args| ==> args[j] != ""
    ensures Narrows(fs[k])
    decreases |fs|
  {
    if k > 0 { TypedFiltersNarrow(args, i + Width(fs[0]), fs[1..], k - 1); }
  }

  /** The value that a list of filters leaves in a text field: the last one typed for it. */
  function LastText(fs: seq<Filter>, field: TextField): (v: string) {
    if fs == [] then ""
    else
      var f := fs[|fs| - 1];
      if f.ByText? && f.field == field then f.value else LastText(fs[..|fs| - 1], field)
  }

  function LastPort(fs: seq<Filter>, port: PortField): (n: nat) {
    if fs == [] then 0
    else
      var f := fs[|fs| - 1];
      if f.ByPort? && f.port == port then f.number else LastPort(fs[..|fs| - 1], port)
  }

  /** Applying a filter sets its own field and no other. */
  lemma ApplySetsOne(r: Selectors, f: Filter, field: TextField, port: PortField)
    ensures Text(Apply(r, f), field) == if f.ByText? && f.field == field then f.value else Text(r, field)
    ensures PortOf(Apply(r, f), port) == if f.ByPort? && f.port == port then f.number else PortOf(r, port)
    ensures Apply(r, f).natOnly == (r.natOnly || f.NatOnly?)
  {}

  /** Every field holds the last value typed for it, and the NAT flag is set when it was typed at all. */
  lemma {:induction false} LastValueWins(fs: seq<Filter>, field: TextField, port: PortField)
    ensures Text(ApplyAll(fs), field) == LastText(fs, field)
    ensures PortOf(ApplyAll(fs), port) == LastPort(fs, port)
    ensures ApplyAll(fs).natOnly <==> NatOnly in fs
  {
    if fs != [] {
      var front, f := fs[..|fs| - 1], fs[|fs| - 1];
      LastValueWins(front, field, port);
      ApplySetsOne(ApplyAll(front), f, field, port);
      assert NatOnly in fs <==> NatOnly in front || NatOnly == f by { assert fs == front + [f]; }
    }
  }

  ghost predicate NothingLeft(fs: seq<Filter>) {
    && (forall field :: LastText(fs, field) == "")
    && (forall port :: LastPort(fs, port) == 0)
    && NatOnly !in fs
  }

  /** Exactly which accepted filters ask for everything: no port, no NAT flag, and an empty last value in every text field. */
  lemma EverythingIff(fs: seq<Filter>)
    ensures ApplyAll(fs) == EVERYTHING <==> NothingLeft(fs)
  {
    var r := ApplyAll(fs);
    LastValueWins(fs, Zone, SourcePort);
    EverythingFields(r);
    if r == EVERYTHING {
      forall field ensures LastText(fs, field) == "" { LastValueWins(fs, field, SourcePort); }
      forall port ensures LastPort(fs, port) == 0 { LastValueWins(fs, Zone, port); }
    } else if NothingLeft(fs) {
      forall field ensures Text(r, field) == "" { LastValueWins(fs, field, SourcePort); }
      forall port ensures PortOf(r, port) == 0 { LastValueWins(fs, Zone, port); }
    }
  }

  lemma EverythingFields(r: Selectors)
    ensures r == EVERYTHING <==> (forall field :: Text(r, field) == "") && (forall port :: PortOf(r, port) == 0) && !r.natOnly
  {
    if (forall field :: Text(r, field) == "") && (forall port :: PortOf(r, port) == 0) && !r.natOnly {
      assert Text(r, SourcePrefix) == Text(r, DestinationPrefix) == Text(r, Protocol) == Text(r, Zone) == "";
      assert Text(r, Application) == Text(r, Interface) == Text(r, SourceNatPool) == "";
      assert PortOf(r, SourcePort) == PortOf(r, DestinationPort) == 0;
    }
  }

  /** Filters that ask for something never add up to the request for everything. */
  lemma {:induction false} NarrowedNotEverything(fs: seq<Filter>)
    requires forall k :: 0 <= k < |fs| ==> Narrows(fs[k])
    ensures ApplyAll(fs) == EVERYTHING <==> fs == []
  {
    if fs != [] {
      assert Narrows(fs[|fs| - 1]);
    }
  }

  /** An accepted clear request is the request for everything exactly when nothing was typed. */
  lemma ClearNeverWidens(args: seq<string>)
    requires forall j :: 0 <= j < |args| ==> args[j] != ""
    requires ReadAll(args, 0).Ok?
    ensures ApplyAll(ReadAll(args, 0).value) == EVERYTHING <==> args == []
  {
    var fs := ReadAll(args, 0).value;
    ReadIffSpells(args, 0, fs);
    forall k | 0 <= k < |fs| ensures Narrows(fs[k]) { TypedFiltersNarrow(args, 0, fs, k); }
    NarrowedNotEverything(fs);
  }

  /** The condition on the tokens is needed: an empty value typed for a text filter is lost. */
  lemma EmptyValueWidens(field: TextField)
    ensures ReadAll([TextKeyword(field), ""], 0) == Ok([ByText(field, "")])
    ensures ApplyAll([ByText(field, "")]) == EVERYTHING
  {
    var args := [TextKeyword(field), ""];
    assert Spells(args, 0, [ByText(field, "")]);
    ReadIffSpells(args, 0, [ByText(field, "")]);
    var fs := [ByText(field, "")];
    assert fs[..0] == [];
  }
}
