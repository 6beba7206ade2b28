/**
 The modes of the remote command line: operational and configuration mode, the
 edit cursor, and the configuration lock on the daemon.
 */
module CliModes {
  import opened Basics

  type Path = seq<string>

  /** A parsed `top` or `up` line: the level it names, and the command behind the prefix, if any. */
  datatype Prefix = Prefix(target: Path, inner: seq<string>, innerLine: string)

  /**
   How a call ends: carried out and seen to be, refused, or carried out while the
   client sees only an error, because it was cancelled or its response got lost.
   */
  datatype Answer = Success | Failure | Lost

  /** The daemon: how the call at a place of the log ends. */
  type Daemon = nat -> Answer

  /**
   The text and path functions the client takes from other packages, and the
   command handlers that touch neither mode nor cursor: how many calls a handler
   makes, from which place of the log on, and whether it succeeds.
   */
  datatype Lib = Lib(
    fields: string -> seq<string>,
    join: seq<string> -> string,
    splitPipe: string -> Option<string>,
    gate: seq<string> -> bool,
    normalise: Path -> Path,
    pop: Path -> Path,
    editFragment: string -> Option<Path>,
    prefix: (Path, string) -> Option<Prefix>,
    payload: (Path, string) -> Option<string>,
    handler: (string, Daemon, nat) -> (nat, bool))

  /** What the recursion of the dispatchers relies on: a pipe and a prefix both leave less of the line. */
  ghost predicate Lawful(l: Lib) {
    && (forall line :: l.splitPipe(line).Some? ==> |l.splitPipe(line).value| < |line|)
    && (forall p, line :: l.prefix(p, line).Some? && l.prefix(p, line).value.inner != [] ==>
        |l.prefix(p, line).value.innerLine| < |line|)
    && l.normalise([]) == []
  }

  const NO_LIB: Lib :=
    Lib(_ => [], _ => "", _ => None, _ => false, p => p, p => p, _ => None, (_, _) => None, (_, _) => None, (_, _, _) => (0, false))

  type Library = l: Lib | Lawful(l) witness NO_LIB

  /** What others can see of the client: its calls, and its stores of the mode, which the interrupt handler reads. */
  datatype Act =
    | Enter(exclusive: bool, answer: Answer)
    | Exit(answer: Answer)
    | Mutate(input: string, answer: Answer)
    | Query(answer: Answer)
    | Store(mode: bool)

  /** The client: its mode, its cursor, whether it has a terminal, and everything it has done. */
  datatype Client = Client(configMode: bool, editPath: Path, interactive: bool, log: seq<Act>)

  datatype Outcome = Done | Failed | Quit

  function Do(c: Client, a: Act): (c': Client) {
    Client(if a.Store? then a.mode else c.configMode, c.editPath, c.interactive, c.log + [a])
  }

  function Result(a: Answer): (r: Outcome) {
    if a == Success then Done else Failed
  }

  /** The log after `n` more calls that change nothing of interest here. */
  function Queried(d: Daemon, log: seq<Act>, n: nat): (r: seq<Act>)
    ensures |r| == |log| + n
    decreases n
  {
    if n == 0 then log else Queried(d, log + [Query(d(|log|))], n - 1)
  }

  /** A command that is left to its handler. */
  function Handled(l: Library, d: Daemon, c: Client, line: string): (r: (Client, Outcome))
    ensures |c.log| <= |r.0.log|
  {
    var (calls, ok) := l.handler(line, d, |c.log|);
    (c.(log := Queried(d, c.log, calls)), if ok then Done else Failed)
  }

  /** The verbs that complain about a path they cannot read. */
  predicate IsStrict(verb: string) {
    verb in ["set", "delete", "deactivate", "activate"]
  }

  /** The verbs that only print their usage then. */
  predicate IsLenient(verb: string) {
    verb in ["annotate", "copy", "rename", "insert"]
  }

  predicate IsConfigQuery(verb: string) {
    verb in ["show", "commit", "rollback", "load"]
  }

  predicate IsOperationalQuery(verb: string) {
    verb in ["show", "clear", "ping", "traceroute", "request", "test", "monitor"]
  }

  /** `configure`: take the lock, and on success clear the cursor and store the mode. */
  function Configure(d: Daemon, c: Client, exclusive: bool): (r: (Client, Outcome))
    ensures |c.log| <= |r.0.log|
  {
    if !c.interactive then (c, Failed)
    else
      var a := d(|c.log|);
      var c' := Do(c, Enter(exclusive, a));
      if a == Success then (Do(c'.(editPath := []), Store(true)), Done) else (c', Failed)
  }

  /** A command in operational mode, or one behind `run`. */
  function Operational(l: Library, d: Daemon, c: Client, line: string): (r: (Client, Outcome))
    ensures |c.log| <= |r.0.log|
  {
    var parts := l.fields(line);
    if parts == [] then (c, Done)
    else if parts[0] != "?" && parts[0] != "help" && !l.gate(parts) then (c, Failed)
    else if parts[0] == "configure" then Configure(d, c, |parts| >= 2 && parts[1] == "exclusive")
    else if IsOperationalQuery(parts[0]) then Handled(l, d, c, line)
    else if parts[0] == "quit" || parts[0] == "exit" then (c, Quit)
    else if parts[0] == "?" || parts[0] == "help" then (c, Done)
    else (c, Failed)
  }

  /** `exit` in configuration mode: one level up, or at the top the release of the lock. */
  function Leave(l: Library, d: Daemon, c: Client): (r: (Client, Outcome))
    ensures |c.log| <= |r.0.log|
  {
    var norm := l.normalise(c.editPath);
    if norm != [] then (c.(editPath := l.pop(norm)), Done)
    else
      var c1 := Do(c, Query(d(|c.log|)));
      var a := d(|c1.log|);
      var c2 := Do(c1, Exit(a));
      if a == Success then (Do(c2, Store(false)).(editPath := []), Done) else (c2, Failed)
  }

  /** A configuration command that is not a prefix. */
  function Plain(l: Library, d: Daemon, c: Client, line: string): (r: (Client, Outcome))
    requires l.fields(line) != []
    ensures |c.log| <= |r.0.log|
  {
    var parts := l.fields(line);
    if parts[0] == "edit" then
      match l.editFragment(line)
      case None => (c, Failed)
      case Some(frag) =>
        if frag == [] then (c, Done)
        else (c.(editPath := l.normalise(l.normalise(c.editPath) + frag)), Done)
    else if IsStrict(parts[0]) || IsLenient(parts[0]) then
      match l.payload(l.normalise(c.editPath), line)
      case None => (c, if IsStrict(parts[0]) then Failed else Done)
      case Some(input) => (Do(c, Mutate(input, d(|c.log|))), Result(d(|c.log|)))
    else if IsConfigQuery(parts[0]) then Handled(l, d, c, line)
    else if parts[0] == "run" then
      if |parts| < 2 then (c, Failed) else Operational(l, d, c, l.join(parts[1..]))
    else if parts[0] == "exit" || parts[0] == "quit" then Leave(l, d, c)
    else if parts[0] == "?" || parts[0] == "help" then (c, Done)
    else (c, Failed)
  }

  predicate IsPrefix(l: Library, line: string) {
    l.fields(line) != [] && (l.fields(line)[0] == "top" || l.fields(line)[0] == "up")
  }

  /** A command in configuration mode. */
  function Config(l: Library, d: Daemon, c: Client, line: string): (r: (Client, Outcome))
    ensures |c.log| <= |r.0.log|
    decreases |line|
  {
    if l.fields(line) == [] then (c, Done)
    else if !IsPrefix(l, line) then Plain(l, d, c, line)
    else match l.prefix(l.normalise(c.editPath), line)
      case None => (c, Failed)
      case Some(p) =>
        if p.inner == [] then (c.(editPath := p.target), Done)
        else if p.inner[0] in ["top", "up", "edit"] then (c, Failed)
        else
          var (c', r) := Config(l, d, c.(editPath := p.target), p.innerLine);
          (if c'.configMode then c'.(editPath := l.normalise(c.editPath)) else c', r)
  }

  function Dispatch(l: Library, d: Daemon, c: Client, line: string): (r: (Client, Outcome))
    ensures |c.log| <= |r.0.log|
    decreases |line|
  {
    match l.splitPipe(line)
    case Some(cmd) => Dispatch(l, d, c, cmd)
    case None => if c.configMode then Config(l, d, c, line) else Operational(l, d, c, line)
  }

  // ---------- the lock, as the log tells it ----------

  /** The daemon granted the lock. */
  predicate Granted(a: Act) {
    a.Enter? && a.answer != Failure
  }

  /** A lock was granted and no release was attempted since. */
  ghost predicate Unreleased(log: seq<Act>) {
    exists k :: 0 <= k < |log| && Granted(log[k]) && forall j :: k < j < |log| ==> !log[j].Exit?
  }

  /** The last attempt at a release is followed by a grant that ended with this answer. */
  predicate Left(log: seq<Act>, answer: Answer) {
    log != [] && !log[|log| - 1].Exit? && (IsEnter(log[|log| - 1], answer) || Left(log[..|log| - 1], answer))
  }

  predicate IsEnter(a: Act, answer: Answer) {
    a.Enter? && a.answer == answer
  }

  /** A grant the client knows of awaits its release. */
  predicate Owed(log: seq<Act>) {
    Left(log, Success)
  }

  /** A grant the client never learned of awaits its release. */
  predicate Stray(log: seq<Act>) {
    Left(log, Lost)
  }

  lemma LeftStep(log: seq<Act>, a: Act, answer: Answer)
    ensures Left(log + [a], answer) == (IsEnter(a, answer) || (!a.Exit? && Left(log, answer)))
  {
    assert (log + [a])[..|log|] == log;
  }

  /** A lock is unreleased exactly when it was granted to a client that knows, or to one that does not. */
  lemma {:induction false} UnreleasedIff(log: seq<Act>)
    ensures Unreleased(log) <==> Owed(log) || Stray(log)
  {
    if log != [] {
      var front, a := log[..|log| - 1], log[|log| - 1];
      UnreleasedIff(front);
      UnreleasedStep(front, a);
      assert front + [a] == log;
    }
  }

  lemma UnreleasedStep(log: seq<Act>, a: Act)
    ensures Unreleased(log + [a]) <==> Granted(a) || (!a.Exit? && Unreleased(log))
  {
    var longer := log + [a];
    if Unreleased(longer) {
      var k :| 0 <= k < |longer| && Granted(longer[k]) && forall j :: k < j < |longer| ==> !longer[j].Exit?;
      if k < |log| {
        assert !longer[|log|].Exit?;
        assert forall j :: k < j < |log| ==> log[j] == longer[j];
        assert Granted(log[k]);
      }
    }
    if !a.Exit? && Unreleased(log) {
      var k :| 0 <= k < |log| && Granted(log[k]) && forall j :: k < j < |log| ==> !log[j].Exit?;
      assert Granted(longer[k]);
    }
    if Granted(a) { assert longer[|log|] == a; }
  }

  /** The same, with the log cut anywhere. */
  lemma {:induction false} LeftCut(log: seq<Act>, at: nat, answer: Answer)
    requires at <= |log|
    ensures Left(log, answer) == (Left(log[at..], answer) || (Left(log[..at], answer) && NoExit(log[at..])))
    decreases |log|
  {
    if at == |log| {
      assert log[..at] == log && log[at..] == [];
    } else {
      var front, a := log[..|log| - 1], log[|log| - 1];
      LeftCut(front, at, answer);
      assert front[..at] == log[..at];
      assert log[at..] == front[at..] + [a];
      LeftStep(front[at..], a, answer);
    }
  }

  ghost predicate NoExit(log: seq<Act>) {
    forall k :: 0 <= k < |log| ==> !log[k].Exit?
  }

  /** Outside configuration mode the cursor is empty, and no grant the client knows of awaits its release. */
  predicate Settled(c: Client) {
    !c.configMode ==> c.editPath == [] && !Owed(c.log)
  }

  /** The client has just been given back the lock and left configuration mode. */
  predicate EndsWithRelease(log: seq<Act>) {
    |log| >= 2 && log[|log| - 2] == Exit(Success) && log[|log| - 1] == Store(false)
  }
}
