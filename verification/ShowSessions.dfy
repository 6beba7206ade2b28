/** The show path of the session filters: parsing, zone resolution, and the two requests that leave the client. */
module ShowSessions {
  import opened Basics
  import opened SessionFilters

  /** What the client takes from elsewhere: the protocol taxonomy and upper-casing. */
  datatype Taxonomy = Taxonomy(known: string -> bool, upper: string -> string)

  ghost predicate Sane(x: Taxonomy) {
    forall s :: s != "" ==> x.upper(s) != ""
  }

  datatype Action = List | Summary | TopTalkers

  /** One typed token with its value. */
  datatype Item = Typed(filter: Filter) | Limit(n: int) | Summarise | Brief | SortBy(key: string)

  datatype ShowError = NoValue(token: string) | BadValue(value: string) | UnknownToken(token: string) | Combined | NoZone(name: string)

  datatype Outcome<+T> = Good(value: T) | Bad(error: ShowError)

  /** The selectors as they travel: the zone is an id, and zero stands for every zone. */
  datatype Wire = Wire(
    zone: nat, protocol: string, sourcePrefix: string, destinationPrefix: string,
    application: string, interfaceFilter: string, sourceNatPool: string,
    sourcePort: nat, destinationPort: nat, natOnly: bool)

  const ANY: Wire := Wire(0, "", "", "", "", "", "", 0, 0, false)

  datatype ListRequest = ListRequest(selectors: Wire, limit: int, includePeer: bool)

  datatype SummaryRequest = SummaryRequest(selectors: Wire, includePeer: bool)

  datatype Parse = Parse(req: ListRequest, zoneName: string, brief: bool, action: Action, sortKey: string, hasFilter: bool)

  const BLANK: Parse := Parse(ListRequest(ANY, 100, true), "", false, List, "", false)

  /** The item at `i` and how many tokens it takes. */
  function ReadItem(x: Taxonomy, args: seq<string>, i: nat): (r: Outcome<(Item, nat)>)
    requires i < |args|
    ensures r.Good? ==> r.value.1 > 0 && i + r.value.1 <= |args|
  {
    var token := args[i];
    if token == "nat" || token == "nat-only" then Good((Typed(NatOnly), 1))
    else if token == "summary" then Good((Summarise, 1))
    else if token == "brief" then Good((Brief, 1))
    else if TextFieldOf(token).None? && PortFieldOf(token).None? && token != "limit" && token != "sort-by" then
      Bad(UnknownToken(token))
    else if i + 1 >= |args| then Bad(NoValue(token))
    else
      var v := args[i + 1];
      if token == "sort-by" then Good((SortBy(v), 2))
      else if token == "limit" then
        match ParseInt(v)
        case Some(n) => if 1 <= n < 0x8000_0000 then Good((Limit(n), 2)) else Bad(BadValue(v))
        case None => Bad(BadValue(v))
      else if token == "protocol" then
        if x.known(v) then Good((Typed(ByText(Protocol, x.upper(v))), 2)) else Bad(BadValue(v))
      else match TextFieldOf(token)
        case Some(f) => Good((Typed(ByText(f, v)), 2))
        case None =>
          match ParsePort(v)
          case Some(n) => Good((Typed(ByPort(PortFieldOf(token).value, n)), 2))
          case None => Bad(BadValue(v))
  }

  /** Non-empty tokens are read as filters that ask for something. */
  lemma ReadItemNarrows(x: Taxonomy, args: seq<string>, i: nat)
    requires i < |args| && Sane(x) && forall j :: 0 <= j < |args| ==> args[j] != ""
    ensures var r := ReadItem(x, args, i); r.Good? && r.value.0.Typed? ==> Narrows(r.value.0.filter)
  {}

  /** A way to read the item at a place, with its width. */
  type ItemReader = nat -> Outcome<(Item, nat)>

  function ItemReaderOf(x: Taxonomy, args: seq<string>): (read: ItemReader) {
    (i: nat) => if i < |args| then ReadItem(x, args, i) else Bad(NoValue(""))
  }

  /** The items from `i` on, up to place `n`; an item takes at least one place. */
  function ReadItemsFrom(read: ItemReader, n: nat, i: nat): (r: Outcome<seq<Item>>)
    decreases n - i
  {
    if i >= n then Good([])
    else match read(i)
      case Bad(e) => Bad(e)
      case Good((item, width)) =>
        match ReadItemsFrom(read, n, i + AtLeastOne(width))
        case Bad(e) => Bad(e)
        case Good(items) => Good([item] + items)
  }

  function AtLeastOne(width: nat): (w: nat) {
    if width == 0 then 1 else width
  }

  function ReadItems(x: Taxonomy, args: seq<string>, i: nat): (r: Outcome<seq<Item>>) {
    ReadItemsFrom(ItemReaderOf(x, args), |args|, i)
  }

  function SetSelector(w: Wire, f: Filter): (w': Wire) {
    match f
    case NatOnly => w.(natOnly := true)
    case ByText(SourcePrefix, v) => w.(sourcePrefix := v)
    case ByText(DestinationPrefix, v) => w.(destinationPrefix := v)
    case ByText(Protocol, v) => w.(protocol := v)
    case ByText(Zone, v) => w
    case ByText(Application, v) => w.(application := v)
    case ByText(Interface, v) => w.(interfaceFilter := v)
    case ByText(SourceNatPool, v) => w.(sourceNatPool := v)
    case ByPort(SourcePort, n) => w.(sourcePort := n)
    case ByPort(DestinationPort, n) => w.(destinationPort := n)
  }

  /** The parse record after one more item; a zone is kept by name until it is resolved. */
  function Take(p: Parse, item: Item): (p': Parse) {
    match item
    case Typed(f) =>
      var p' := p.(req := p.req.(selectors := SetSelector(p.req.selectors, f)), hasFilter := true);
      if f.ByText? && f.field == Zone then p'.(zoneName := f.value) else p'
    case Limit(n) => p.(req := p.req.(limit := n))
    case Summarise => p.(action := Summary)
    case Brief => p.(brief := true)
    case SortBy(key) => p.(action := TopTalkers, sortKey := key)
  }

  function TakeAll(items: seq<Item>): (p: Parse) {
    if items == [] then BLANK else Take(TakeAll(items[..|items| - 1]), items[|items| - 1])
  }

  function Checked(p: Parse): (r: Outcome<Parse>) {
    if p.hasFilter && p.action == TopTalkers then Bad(Combined) else Good(p)
  }

  /** What the argument vector means: its items in order, then the check on combinations. */
  function Meaning(x: Taxonomy, args: seq<string>): (r: Outcome<Parse>) {
    match ReadItems(x, args, 0)
    case Bad(e) => Bad(e)
    case Good(items) => Checked(TakeAll(items))
  }

  /** The parse record after reading and taking the items from `i` on. */
  function ParseItemsFrom(read: ItemReader, n: nat, p: Parse, i: nat): (r: Outcome<Parse>)
    decreases n - i
  {
    if i >= n then Good(p)
    else match read(i)
      case Bad(e) => Bad(e)
      case Good((item, width)) => ParseItemsFrom(read, n, Take(p, item), i + AtLeastOne(width))
  }

  ghost function TakeThen(done: seq<Item>, rest: Outcome<seq<Item>>): (r: Outcome<Parse>) {
    match rest
    case Good(items) => Good(TakeAll(done + items))
    case Bad(e) => Bad(e)
  }

  lemma TakeLast(done: seq<Item>, item: Item)
    ensures TakeAll(done + [item]) == Take(TakeAll(done), item)
  {
    assert (done + [item])[..|done|] == done;
  }

  lemma TakeThenCons(done: seq<Item>, item: Item, rest: Outcome<seq<Item>>)
    ensures TakeThen(done + [item], rest)
         == if rest.Good? then TakeThen(done, Good([item] + rest.value)) else TakeThen(done, rest)
  {
    if rest.Good? { assert (done + [item]) + rest.value == done + ([item] + rest.value); }
  }

  /** Taking while reading is reading first and taking afterwards. */
  lemma {:induction false} ParsedIsTaken(read: ItemReader, n: nat, p: Parse, done: seq<Item>, i: nat)
    requires p == TakeAll(done)
    ensures ParseItemsFrom(read, n, p, i) == TakeThen(done, ReadItemsFrom(read, n, i))
    decreases n - i
  {
    if i >= n {
      assert done + [] == done;
    } else if read(i).Good? {
      var item, next := read(i).value.0, i + AtLeastOne(read(i).value.1);
      TakeLast(done, item);
      var p' := Take(p, item);
      ParsedIsTaken(read, n, p', done + [item], next);
      TakeThenCons(done, item, ReadItemsFrom(read, n, next));
      ReadStep(read, n, i);
      assert ParseItemsFrom(read, n, p, i) == ParseItemsFrom(read, n, p', next);
    }
  }

  lemma ReadStep(read: ItemReader, n: nat, i: nat)
    requires i < n && read(i).Good?
    ensures var rest := ReadItemsFrom(read, n, i + AtLeastOne(read(i).value.1));
      ReadItemsFrom(read, n, i) == if rest.Good? then Good([read(i).value.0] + rest.value) else rest
  {}

  /** The source's loop over the arguments, and its check on combinations. */
  method ParseArgs(x: Taxonomy, args: seq<string>) returns (r: Outcome<Parse>)
    ensures r == Meaning(x, args)
  {
    var p := ParseLoop(x, args);
    ParsedIsTaken(ItemReaderOf(x, args), |args|, BLANK, [], 0);
    ghost var all := ReadItems(x, args, 0);
    assert all.Good? ==> [] + all.value == all.value;
    r := if p.Good? then Checked(p.value) else p;
  }

  lemma ParseStep(read: ItemReader, n: nat, p: Parse, i: nat, item: Item, width: nat)
    requires i < n && read(i) == Good((item, width)) && width > 0
    ensures ParseItemsFrom(read, n, p, i) == ParseItemsFrom(read, n, Take(p, item), i + width)
  {}

  /** One turn: the item at `i` is taken, or it ends the parse. */
  method TakeItem(x: Taxonomy, args: seq<string>, p: Parse, i: nat) returns (r: Outcome<(Parse, nat)>)
    requires i < |args|
    ensures var read := ItemReaderOf(x, args);
      match r
      case Bad(e) => ParseItemsFrom(read, |args|, p, i) == Bad(e)
      case Good((p', j)) => i < j <= |args| && ParseItemsFrom(read, |args|, p, i) == ParseItemsFrom(read, |args|, p', j)
  {
    var next := ReadItem(x, args, i);
    if next.Bad? {
      return Bad(next.error);
    }
    ParseStep(ItemReaderOf(x, args), |args|, p, i, next.value.0, next.value.1);
    return Good((Take(p, next.value.0), i + next.value.1));
  }

  method ParseLoop(x: Taxonomy, args: seq<string>) returns (r: Outcome<Parse>)
    ensures r == ParseItemsFrom(ItemReaderOf(x, args), |args|, BLANK, 0)
  {
    var p := BLANK;
    var i := 0;
    while i < |args|
      invariant 0 <= i <= |args|
      invariant ParseItemsFrom(ItemReaderOf(x, args), |args|, BLANK, 0) == ParseItemsFrom(ItemReaderOf(x, args), |args|, p, i)
    {
      var next := TakeItem(x, args, p, i);
      if next.Bad? {
        return Bad(next.error);
      }
      p, i := next.value.0, next.value.1;
    }
    return Good(p);
  }

  /** The parse asks for something: a zone by name, or a selector that is not its wildcard. */
  predicate Asks(p: Parse) {
    p.zoneName != "" || p.req.selectors != ANY
  }

  ghost predicate AllNarrow(items: seq<Item>) {
    forall k :: 0 <= k < |items| ==> items[k].Typed? ==> Narrows(items[k].filter)
  }

  lemma NarrowCons(item: Item, items: seq<Item>)
    requires AllNarrow(items) && (item.Typed? ==> Narrows(item.filter))
    ensures AllNarrow([item] + items)
  {}

  lemma {:induction false} TypedItemsNarrow(x: Taxonomy, args: seq<string>, i: nat)
    requires Sane(x) && (forall j :: 0 <= j < |args| ==> args[j] != "") && ReadItems(x, args, i).Good?
    ensures AllNarrow(ReadItems(x, args, i).value)
    decreases |args| - i
  {
    if i < |args| {
      var (item, width) := ReadItem(x, args, i).value;
      ReadItemNarrows(x, args, i);
      TypedItemsNarrow(x, args, i + width);
      NarrowCons(item, ReadItems(x, args, i + width).value);
    }
  }

  lemma {:induction false} AsksIffTyped(items: seq<Item>)
    requires AllNarrow(items)
    ensures Asks(TakeAll(items)) <==> exists k :: 0 <= k < |items| && items[k].Typed?
    ensures TakeAll(items).hasFilter <==> exists k :: 0 <= k < |items| && items[k].Typed?
    ensures TakeAll(items).req.selectors.zone == 0
  {
    if items != [] {
      var front, last := items[..|items| - 1], items[|items| - 1];
      AsksIffTyped(front);
      if k :| 0 <= k < |front| && front[k].Typed? { assert items[k].Typed?; }
      TakeAsks(TakeAll(front), last);
    }
  }

  lemma TakeAsks(p: Parse, item: Item)
    requires item.Typed? ==> Narrows(item.filter)
    ensures Asks(Take(p, item)) <==> Asks(p) || item.Typed?
  {}

  // ---------- resolving the zone ----------

  datatype ZoneInfo = ZoneInfo(name: string, id: nat)

  /** The zones the daemon reports, or a failed call. */
  datatype Zones = Zones(list: seq<ZoneInfo>) | Unreachable

  ghost predicate FirstNamed(zones: seq<ZoneInfo>, name: string, k: nat) {
    k < |zones| && zones[k].name == name && forall j :: 0 <= j < k ==> zones[j].name != name
  }

  /** Resolution: by name first, by number only if no zone bears the name, and never to the wildcard. */
  method ResolveZone(p: Parse, zones: Zones) returns (r: Outcome<Parse>)
    ensures p.zoneName == "" ==> r == Good(p)
    ensures r.Good? && p.zoneName != "" ==>
      && r.value.req.selectors.zone > 0
      && r.value == p.(req := p.req.(selectors := p.req.selectors.(zone := r.value.req.selectors.zone)))
      && zones.Zones?
      && (forall k: nat :: FirstNamed(zones.list, p.zoneName, k) ==> r.value.req.selectors.zone == zones.list[k].id)
      && ((forall k :: 0 <= k < |zones.list| ==> zones.list[k].name != p.zoneName) ==>
          ParseUint(p.zoneName) == Some(r.value.req.selectors.zone))
    ensures r.Bad? ==> r.error == NoZone(p.zoneName)
    ensures r.Bad? && zones.Zones? ==>
      || (exists k: nat :: FirstNamed(zones.list, p.zoneName, k) && zones.list[k].id == 0)
      || ((forall k :: 0 <= k < |zones.list| ==> zones.list[k].name != p.zoneName)
          && (ParseUint(p.zoneName).None? || ParseUint(p.zoneName) == Some(0)))
  {
    if p.zoneName == "" {
      return Good(p);
    }
    if zones.Unreachable? {
      return Bad(NoZone(p.zoneName));
    }
    for k := 0 to |zones.list|
      invariant forall j :: 0 <= j < k ==> zones.list[j].name != p.zoneName
    {
      var z := zones.list[k];
      if z.name != p.zoneName {
        continue;
      }
      assert FirstNamed(zones.list, p.zoneName, k);
      assert forall j: nat :: FirstNamed(zones.list, p.zoneName, j) ==> j == k;
      if z.id == 0 {
        return Bad(NoZone(p.zoneName));
      }
      return Good(p.(req := p.req.(selectors := p.req.selectors.(zone := z.id))));
    }
    var n := ParseUint(p.zoneName);
    if n.Some? && n.value > 0 {
      return Good(p.(req := p.req.(selectors := p.req.selectors.(zone := n.value))));
    }
    return Bad(NoZone(p.zoneName));
  }

  /** The summary request: the selectors of the list request, field by field. */
  function SummaryOf(p: Parse): (r: SummaryRequest)
    ensures r.selectors == p.req.selectors
  {
    var s := p.req.selectors;
    SummaryRequest(Wire(s.zone, s.protocol, s.sourcePrefix, s.destinationPrefix, s.application, s.interfaceFilter,
                        s.sourceNatPool, s.sourcePort, s.destinationPort, s.natOnly), true)
  }

  /** What leaves the client. */
  datatype Sent = SentList(list: ListRequest) | SentSummary(summary: SummaryRequest) | SentTopTalkers(key: string) | Refused(why: ShowError)

  function SelectorsOf(s: Sent): (w: Wire)
    requires s.SentList? || s.SentSummary?
  {
    if s.SentList? then s.list.selectors else s.summary.selectors
  }

  ghost predicate FilterTyped(x: Taxonomy, args: seq<string>) {
    var items := ReadItems(x, args, 0);
    items.Good? && exists k :: 0 <= k < |items.value| && items.value[k].Typed?
  }

  /**
   `show security flow session`, end to end: a request that leaves the client
   asks for everything exactly when no filter was typed, and top talkers are
   never asked for with a filter.
   */
  method ShowFlowSession(x: Taxonomy, args: seq<string>, zones: Zones) returns (sent: Sent)
    requires Sane(x) && forall j :: 0 <= j < |args| ==> args[j] != ""
    ensures sent.SentList? || sent.SentSummary? ==> (SelectorsOf(sent) == ANY <==> !FilterTyped(x, args))
    ensures sent.SentTopTalkers? ==> !FilterTyped(x, args)
    ensures Meaning(x, args).Bad? ==> sent == Refused(Meaning(x, args).error)
    ensures Meaning(x, args).Good? ==>
      match Meaning(x, args).value.action
      case List => !sent.SentSummary? && !sent.SentTopTalkers?
      case Summary => !sent.SentList? && !sent.SentTopTalkers?
      case TopTalkers => sent == SentTopTalkers(Meaning(x, args).value.sortKey)
  {
    var parsed := ParseArgs(x, args);
    if parsed.Bad? {
      return Refused(parsed.error);
    }
    var p := parsed.value;
    TypedItemsNarrow(x, args, 0);
    AsksIffTyped(ReadItems(x, args, 0).value);
    if p.action == TopTalkers {
      return SentTopTalkers(p.sortKey);
    }
    var resolved := ResolveZone(p, zones);
    if resolved.Bad? {
      return Refused(resolved.error);
    }
    if p.action == Summary {
      return SentSummary(SummaryOf(resolved.value));
    }
    return SentList(resolved.value.req);
  }
}
