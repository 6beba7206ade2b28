/** What a single command keeps: the lock, the mode, and the cursor. */
module CliLaws {
  import opened Basics
  import opened CliModes

  // ---------- act by act ----------

  /** What matters for the lock: the stored mode, and whether a known grant awaits its release. */
  datatype View = View(mode: bool, owed: bool)

  function See(v: View, a: Act): (v': View) {
    match a
    case Enter(_, Success) => v.(owed := true)
    case Exit(_) => v.(owed := false)
    case Store(mode) => v.(mode := mode)
    case _ => v
  }

  function SeeAll(v: View, acts: seq<Act>): (v': View)
    decreases |acts|
  {
    if acts == [] then v else SeeAll(See(v, acts[0]), acts[1..])
  }

  function ViewOf(c: Client): (v: View) {
    View(c.configMode, Owed(c.log))
  }

  /** While these acts are done, a release is owed in operational mode only right before configuration mode is stored. */
  predicate Smooth(v: View, acts: seq<Act>)
    decreases |acts|
  {
    if acts == [] then v.mode || !v.owed
    else (v.owed && !v.mode ==> acts[0] == Store(true)) && Smooth(See(v, acts[0]), acts[1..])
  }

  lemma SeeDone(c: Client, a: Act)
    ensures ViewOf(Do(c, a)) == See(ViewOf(c), a)
  {
    LeftStep(c.log, a, Success);
  }

  lemma SmoothEnds(v: View, acts: seq<Act>)
    requires Smooth(v, acts)
    ensures SeeAll(v, acts).mode || !SeeAll(v, acts).owed
    decreases |acts|
  {
    if acts != [] { SmoothEnds(See(v, acts[0]), acts[1..]); }
  }

  /** An attempt at a release by someone else disturbs nothing. */
  lemma {:induction false} SmoothWithoutDebt(v: View, acts: seq<Act>)
    requires Smooth(v, acts)
    ensures Smooth(v.(owed := false), acts)
    decreases |acts|
  {
    if acts != [] {
      var v', w' := See(v, acts[0]), See(v.(owed := false), acts[0]);
      SmoothWithoutDebt(v', acts[1..]);
      assert w' == v' || w' == v'.(owed := false);
    }
  }

  /** The client went on from `c` to `c'` by these acts, smoothly. */
  ghost predicate Adds(c: Client, c': Client, acts: seq<Act>) {
    && c'.log == c.log + acts
    && c'.interactive == c.interactive
    && SeeAll(ViewOf(c), acts) == ViewOf(c')
    && Smooth(ViewOf(c), acts)
  }

  lemma AddsNothing(c: Client, c': Client)
    requires Settled(c) && c'.log == c.log && c'.interactive == c.interactive && c'.configMode == c.configMode
    ensures Adds(c, c', [])
  {
    assert c.log + [] == c.log;
  }

  /** One act, and then more; the cursor may change at any time. */
  lemma AddsCons(c: Client, a: Act, mid: Client, c': Client, rest: seq<Act>)
    requires ViewOf(c).owed && !c.configMode ==> a == Store(true)
    requires mid == Do(c, a).(editPath := mid.editPath) && Adds(mid, c', rest)
    ensures Adds(c, c', [a] + rest)
  {
    SeeDone(c, a);
    assert ViewOf(mid) == ViewOf(Do(c, a));
    assert ([a] + rest)[1..] == rest;
    assert (c.log + [a]) + rest == c.log + ([a] + rest);
  }

  /** The last act; the client has to be in configuration mode or owe nothing then. */
  lemma AddsLast(c: Client, a: Act, c': Client)
    requires ViewOf(c).owed && !c.configMode ==> a == Store(true)
    requires See(ViewOf(c), a).mode || !See(ViewOf(c), a).owed
    requires c' == Do(c, a).(editPath := c'.editPath)
    ensures Adds(c, c', [a])
  {
    SeeDone(c, a);
    assert ViewOf(c') == ViewOf(Do(c, a));
    assert [a][1..] == [];
  }

  lemma {:induction false} AddsQueries(d: Daemon, c: Client, n: nat) returns (acts: seq<Act>)
    requires Settled(c)
    ensures Adds(c, c.(log := Queried(d, c.log, n)), acts)
    ensures |acts| == n && forall k :: 0 <= k < n ==> acts[k].Query?
    decreases n
  {
    if n == 0 {
      acts := [];
      AddsNothing(c, c);
    } else {
      var q := Query(d(|c.log|));
      var c' := Do(c, q);
      SeeDone(c, q);
      var rest := AddsQueries(d, c', n - 1);
      AddsCons(c, q, c', c'.(log := Queried(d, c'.log, n - 1)), rest);
      acts := [q] + rest;
    }
  }

  lemma ConfigureAdds(d: Daemon, c: Client, exclusive: bool) returns (acts: seq<Act>)
    requires Settled(c)
    ensures Adds(c, Configure(d, c, exclusive).0, acts)
  {
    acts := [];
    var e := Enter(exclusive, d(|c.log|));
    if !c.interactive {
      AddsNothing(c, c);
    } else if e.answer != Success {
      acts := [e];
      AddsLast(c, e, Do(c, e));
    } else {
      var c1 := Do(c, e).(editPath := []);
      AddsLast(c1, Store(true), Do(c1, Store(true)));
      AddsCons(c, e, c1, Do(c1, Store(true)), [Store(true)]);
      acts := [e] + [Store(true)];
    }
  }

  lemma LeaveAdds(l: Library, d: Daemon, c: Client) returns (acts: seq<Act>)
    requires c.configMode
    ensures Adds(c, Leave(l, d, c).0, acts)
  {
    acts := [];
    var c' := Leave(l, d, c).0;
    if l.normalise(c.editPath) != [] {
      AddsNothing(c, c');
      return;
    }
    var q := Query(d(|c.log|));
    var c1 := Do(c, q);
    var e := Exit(d(|c1.log|));
    var c2 := Do(c1, e);
    if e.answer == Success {
      SeeDone(c1, e);
      AddsLast(c2, Store(false), c');
      AddsCons(c1, e, c2, c', [Store(false)]);
      acts := [e] + [Store(false)];
    } else {
      AddsLast(c1, e, c2);
      acts := [e];
    }
    AddsCons(c, q, c1, c', acts);
    acts := [q] + acts;
  }

  lemma OperationalAdds(l: Library, d: Daemon, c: Client, line: string) returns (acts: seq<Act>)
    requires Settled(c)
    ensures Adds(c, Operational(l, d, c, line).0, acts)
  {
    var parts := l.fields(line);
    if parts != [] && (parts[0] == "?" || parts[0] == "help" || l.gate(parts)) {
      if parts[0] == "configure" {
        acts := ConfigureAdds(d, c, |parts| >= 2 && parts[1] == "exclusive");
        return;
      }
      if IsOperationalQuery(parts[0]) {
        acts := AddsQueries(d, c, l.handler(line, d, |c.log|).0);
        return;
      }
    }
    acts := [];
    AddsNothing(c, c);
  }

  lemma PlainAdds(l: Library, d: Daemon, c: Client, line: string) returns (acts: seq<Act>)
    requires c.configMode && l.fields(line) != []
    ensures Adds(c, Plain(l, d, c, line).0, acts)
  {
    var parts := l.fields(line);
    if IsStrict(parts[0]) || IsLenient(parts[0]) {
      var input := l.payload(l.normalise(c.editPath), line);
      if input.Some? {
        acts := [Mutate(input.value, d(|c.log|))];
        AddsLast(c, acts[0], Do(c, acts[0]));
        return;
      }
    } else if IsConfigQuery(parts[0]) {
      acts := AddsQueries(d, c, l.handler(line, d, |c.log|).0);
      return;
    } else if parts[0] == "run" && |parts| >= 2 {
      acts := OperationalAdds(l, d, c, l.join(parts[1..]));
      return;
    } else if parts[0] == "exit" || parts[0] == "quit" {
      acts := LeaveAdds(l, d, c);
      return;
    }
    acts := [];
    AddsNothing(c, Plain(l, d, c, line).0);
  }

  lemma {:induction false} ConfigAdds(l: Library, d: Daemon, c: Client, line: string) returns (acts: seq<Act>)
    requires c.configMode
    ensures Adds(c, Config(l, d, c, line).0, acts)
    decreases |line|
  {
    if l.fields(line) != [] && !IsPrefix(l, line) {
      acts := PlainAdds(l, d, c, line);
      return;
    }
    if IsPrefix(l, line) {
      var p := l.prefix(l.normalise(c.editPath), line);
      if p.Some? && p.value.inner != [] && p.value.inner[0] !in ["top", "up", "edit"] {
        acts := ConfigAdds(l, d, c.(editPath := p.value.target), p.value.innerLine);
        return;
      }
    }
    acts := [];
    AddsNothing(c, Config(l, d, c, line).0);
  }

  /** Every command proceeds smoothly from a settled client. */
  lemma {:induction false} DispatchAdds(l: Library, d: Daemon, c: Client, line: string) returns (acts: seq<Act>)
    requires Settled(c)
    ensures Adds(c, Dispatch(l, d, c, line).0, acts)
    decreases |line|
  {
    match l.splitPipe(line) {
      case Some(cmd) => acts := DispatchAdds(l, d, c, cmd);
      case None => if c.configMode { acts := ConfigAdds(l, d, c, line); } else { acts := OperationalAdds(l, d, c, line); }
    }
  }

  // ---------- the cursor outside configuration mode ----------

  lemma OperationalEmpty(l: Library, d: Daemon, c: Client, line: string)
    requires !c.configMode ==> c.editPath == []
    ensures var c' := Operational(l, d, c, line).0; (c.configMode ==> c'.configMode) && (!c'.configMode ==> c'.editPath == [])
  {}

  lemma {:induction false} ConfigEmpty(l: Library, d: Daemon, c: Client, line: string)
    requires c.configMode
    ensures var c' := Config(l, d, c, line).0; !c'.configMode ==> c'.editPath == [] && EndsWithRelease(c'.log)
    decreases |line|
  {
    if l.fields(line) != [] && !IsPrefix(l, line) {
      PlainEmpty(l, d, c, line);
    } else if IsPrefix(l, line) {
      var p := l.prefix(l.normalise(c.editPath), line);
      if p.Some? && p.value.inner != [] {
        ConfigEmpty(l, d, c.(editPath := p.value.target), p.value.innerLine);
      }
    }
  }

  lemma PlainEmpty(l: Library, d: Daemon, c: Client, line: string)
    requires c.configMode && l.fields(line) != []
    ensures var c' := Plain(l, d, c, line).0; !c'.configMode ==> c'.editPath == [] && EndsWithRelease(c'.log)
  {
    var parts := l.fields(line);
    if |parts| >= 2 { OperationalEmpty(l, d, c, l.join(parts[1..])); }
    LeaveEmpty(l, d, c);
  }

  lemma LeaveEmpty(l: Library, d: Daemon, c: Client)
    requires c.configMode
    ensures var c' := Leave(l, d, c).0; !c'.configMode ==> c'.editPath == [] && EndsWithRelease(c'.log)
  {}

  /** A typed line takes the client out of configuration mode only by a release that succeeded, and then clears the cursor. */
  lemma {:induction false} LeavesOnlyReleased(l: Library, d: Daemon, c: Client, line: string)
    requires c.configMode && !Dispatch(l, d, c, line).0.configMode
    ensures EndsWithRelease(Dispatch(l, d, c, line).0.log)
    decreases |line|
  {
    match l.splitPipe(line)
    case Some(cmd) => LeavesOnlyReleased(l, d, c, cmd);
    case None => ConfigEmpty(l, d, c, line);
  }

  lemma {:induction false} DispatchEmpty(l: Library, d: Daemon, c: Client, line: string)
    requires !c.configMode ==> c.editPath == []
    ensures var c' := Dispatch(l, d, c, line).0; !c'.configMode ==> c'.editPath == []
    decreases |line|
  {
    match l.splitPipe(line)
    case Some(cmd) => DispatchEmpty(l, d, c, cmd);
    case None => if c.configMode { ConfigEmpty(l, d, c, line); } else { OperationalEmpty(l, d, c, line); }
  }

  /** Every command leaves a settled client settled, whatever the daemon answers. */
  lemma DispatchSettles(l: Library, d: Daemon, c: Client, line: string)
    requires Settled(c)
    ensures Settled(Dispatch(l, d, c, line).0)
  {
    var acts := DispatchAdds(l, d, c, line);
    SmoothEnds(ViewOf(c), acts);
    DispatchEmpty(l, d, c, line);
  }

  // ---------- the cursor in configuration mode ----------

  /** What the path functions promise: normalising is stable, and popping shortens and stays normal. */
  ghost predicate PathLaws(l: Library) {
    && (forall p :: l.normalise(l.normalise(p)) == l.normalise(p))
    && (forall p :: l.normalise(l.pop(l.normalise(p))) == l.pop(l.normalise(p)))
    && (forall p :: p != [] ==> |l.pop(p)| < |p|)
    && (forall p, line :: l.prefix(l.normalise(p), line).Some? ==>
        l.normalise(l.prefix(l.normalise(p), line).value.target) == l.prefix(l.normalise(p), line).value.target)
  }

  predicate Normal(l: Library, p: Path) {
    l.normalise(p) == p
  }

  lemma PlainNormal(l: Library, d: Daemon, c: Client, line: string)
    requires PathLaws(l) && Normal(l, c.editPath) && l.fields(line) != []
    ensures Normal(l, Plain(l, d, c, line).0.editPath)
  {}

  lemma {:induction false} ConfigNormal(l: Library, d: Daemon, c: Client, line: string)
    requires PathLaws(l) && Normal(l, c.editPath)
    ensures Normal(l, Config(l, d, c, line).0.editPath)
    decreases |line|
  {
    if IsPrefix(l, line) {
      var p := l.prefix(l.normalise(c.editPath), line);
      if p.Some? && p.value.inner != [] {
        ConfigNormal(l, d, c.(editPath := p.value.target), p.value.innerLine);
      }
    } else if l.fields(line) != [] {
      PlainNormal(l, d, c, line);
    }
  }

  lemma {:induction false} DispatchNormal(l: Library, d: Daemon, c: Client, line: string)
    requires PathLaws(l) && Normal(l, c.editPath)
    ensures Normal(l, Dispatch(l, d, c, line).0.editPath)
    decreases |line|
  {
    match l.splitPipe(line)
    case Some(cmd) => DispatchNormal(l, d, c, cmd);
    case None => if c.configMode { ConfigNormal(l, d, c, line); }
  }

  /** A `top` or `up` line that parses, with a command behind its prefix that may stand there. */
  predicate Prefixed(l: Library, c: Client, line: string) {
    && IsPrefix(l, line)
    && var p := l.prefix(l.normalise(c.editPath), line);
       p.Some? && p.value.inner != [] && p.value.inner[0] !in ["top", "up", "edit"]
  }

  /** The bare form of a prefix: it only moves the cursor to the same level. */
  predicate MovesTo(l: Library, c: Client, bare: string, target: Path) {
    && IsPrefix(l, bare)
    && var p := l.prefix(l.normalise(c.editPath), bare);
       p.Some? && p.value.inner == [] && p.value.target == target
  }

  /**
   A prefixed command does what typing its bare prefix and then its inner command
   would do: the same acts, the same outcome and the same mode.  It differs in the
   cursor alone: whether the inner command succeeds or fails, a client that is
   still in configuration mode is back where it was.
   */
  lemma PrefixIsThereAndBack(l: Library, d: Daemon, c: Client, line: string, bare: string)
    requires c.configMode && Prefixed(l, c, line)
    requires MovesTo(l, c, bare, l.prefix(l.normalise(c.editPath), line).value.target)
    ensures var (there, _) := Config(l, d, c, bare);
      var (after, r) := Config(l, d, there, l.prefix(l.normalise(c.editPath), line).value.innerLine);
      var (once, r') := Config(l, d, c, line);
      && once.log == after.log && once.configMode == after.configMode && r' == r
      && (once.configMode ==> once.editPath == l.normalise(c.editPath))
      && (!once.configMode ==> once.editPath == [] && EndsWithRelease(once.log))
  {
    ConfigEmpty(l, d, c, line);
  }

  // ---------- leaving by repetition ----------

  predicate IsExitLine(l: Library, line: string) {
    l.splitPipe(line).None? && l.fields(line) == ["exit"]
  }

  /** The same line typed `n` times. */
  function Repeat(l: Library, d: Daemon, c: Client, line: string, n: nat): (c': Client)
    decreases n
  {
    if n == 0 then c else Repeat(l, d, Dispatch(l, d, c, line).0, line, n - 1)
  }

  lemma {:induction false} StaysOut(l: Library, d: Daemon, c: Client, line: string, n: nat)
    requires IsExitLine(l, line) && !c.configMode
    ensures !Repeat(l, d, c, line, n).configMode
    decreases n
  {
    if n > 0 { StaysOut(l, d, Dispatch(l, d, c, line).0, line, n - 1); }
  }

  /** With a daemon that answers, `exit` typed once more than the cursor is deep reaches operational mode. */
  lemma {:induction false} ExitConverges(l: Library, d: Daemon, c: Client, line: string, n: nat)
    requires PathLaws(l) && IsExitLine(l, line) && c.configMode && forall k :: d(k) == Success
    requires n > |l.normalise(c.editPath)|
    ensures !Repeat(l, d, c, line, n).configMode
    decreases n
  {
    var c' := Dispatch(l, d, c, line).0;
    if c'.configMode {
      ExitConverges(l, d, c', line, n - 1);
    } else {
      StaysOut(l, d, c', line, n - 1);
    }
  }

  /** Path functions that normalise the same tokens differently depending on their neighbours. */
  const UNSTABLE: Lib := NO_LIB.(
    fields := line => if line == "exit" then ["exit"] else [],
    gate := _ => true,
    normalise := (p: Path) => if p == ["x"] then ["a", "b"] else p,
    pop := (p: Path) => if p == [] then [] else p[..|p| - 1])

  /** The law about popping is needed: with it alone missing, a cursor of depth two takes more than three exits. */
  lemma UnstablePopTakesLonger(d: Daemon)
    requires forall k :: d(k) == Success
    ensures Lawful(UNSTABLE) && IsExitLine(UNSTABLE, "exit")
    ensures forall p :: UNSTABLE.normalise(UNSTABLE.normalise(p)) == UNSTABLE.normalise(p)
    ensures forall p :: p != [] ==> |UNSTABLE.pop(p)| < |p|
    ensures var c := Client(true, ["x", "y"], true, []);
      |UNSTABLE.normalise(c.editPath)| == 2 && Repeat(UNSTABLE, d, c, "exit", 3).configMode
  {
    var c := Client(true, ["x", "y"], true, []);
    assert ["x", "y"][..1] == ["x"] && ["a", "b"][..1] == ["a"] && ["a"][..0] == [];
    var c1 := Dispatch(UNSTABLE, d, c, "exit").0;
    assert c1 == c.(editPath := ["x"]);
    var c2 := Dispatch(UNSTABLE, d, c1, "exit").0;
    assert c2 == c.(editPath := ["a"]);
    var c3 := Dispatch(UNSTABLE, d, c2, "exit").0;
    assert c3 == c.(editPath := []);
    assert Repeat(UNSTABLE, d, c3, "exit", 0) == c3;
    assert Repeat(UNSTABLE, d, c2, "exit", 1) == c3;
    assert Repeat(UNSTABLE, d, c1, "exit", 2) == c3;
  }
}
