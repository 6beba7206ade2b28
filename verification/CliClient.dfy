/** The remote client as an object: the dispatchers on its fields, and the main loop that drives them. */
module CliClient {
  import opened Basics
  import opened CliModes
  import opened CliLaws
  import opened CliSession

  class Ctl {
    const lib: Library
    const daemon: Daemon
    var configMode: bool
    var editPath: Path
    const interactive: bool
    var log: seq<Act>

    ghost function State(): (c: Client)
      reads this
    {
      Client(configMode, editPath, interactive, log)
    }

    /** Outside configuration mode the cursor is empty, and no grant the client knows of awaits its release. */
    ghost predicate Valid()
      reads this
    {
      Settled(State())
    }

    constructor (lib: Library, daemon: Daemon, interactive: bool)
      ensures this.lib == lib && this.daemon == daemon
      ensures Valid() && State() == Client(false, [], interactive, [])
    {
      this.lib, this.daemon, this.interactive := lib, daemon, interactive;
      configMode, editPath, log := false, [], [];
    }

    /** A handler makes calls that neither take nor release the lock, and touches nothing else. */
    method Handle(line: string) returns (r: Outcome)
      requires Valid()
      modifies `log
      ensures Valid()
      ensures old(log) <= log && forall k :: |old(log)| <= k < |log| ==> log[k].Query?
      ensures (State(), r) == Handled(lib, daemon, old(State()), line)
    {
      var (calls, ok) := lib.handler(line, daemon, |log|);
      ghost var acts := AddsQueries(daemon, State(), calls);
      SmoothEnds(ViewOf(State()), acts);
      for k := 0 to calls
        invariant Queried(daemon, old(log), calls) == Queried(daemon, log, calls - k)
      {
        log := log + [Query(daemon(|log|))];
      }
      assert log == old(log) + acts;
      r := if ok then Done else Failed;
    }

    /** Configuration mode is entered at the top level, with a lock the client knows of, or not at all. */
    method Configure(exclusive: bool) returns (r: Outcome)
      requires Valid()
      modifies this
      ensures Valid()
      ensures r == Done ==> configMode && editPath == [] && log == old(log) + [Enter(exclusive, Success), Store(true)]
      ensures r != Done ==> configMode == old(configMode) && editPath == old(editPath)
      ensures (State(), r) == CliModes.Configure(daemon, old(State()), exclusive)
    {
      if !interactive {
        return Failed;
      }
      ghost var acts := ConfigureAdds(daemon, State(), exclusive);
      SmoothEnds(ViewOf(State()), acts);
      var answer := daemon(|log|);
      log := log + [Enter(exclusive, answer)];
      if answer != Success {
        return Failed;
      }
      editPath := [];
      configMode := true;
      log := log + [Store(true)];
      return Done;
    }

    /** No operational command leaves configuration mode, also not behind `run`; only `configure` enters it. */
    method DispatchOperational(line: string) returns (r: Outcome)
      requires Valid()
      modifies this
      ensures Valid()
      ensures old(configMode) ==> configMode
      ensures configMode && !old(configMode) ==> editPath == [] && |log| >= 2 && log[|log| - 1] == Store(true)
      ensures (State(), r) == Operational(lib, daemon, old(State()), line)
    {
      var parts := lib.fields(line);
      if parts == [] {
        return Done;
      }
      if parts[0] != "?" && parts[0] != "help" && !lib.gate(parts) {
        return Failed;
      }
      if parts[0] == "configure" {
        r := Configure(|parts| >= 2 && parts[1] == "exclusive");
        return;
      }
      if IsOperationalQuery(parts[0]) {
        r := Handle(line);
        return;
      }
      if parts[0] == "quit" || parts[0] == "exit" {
        return Quit;
      }
      return if parts[0] == "?" || parts[0] == "help" then Done else Failed;
    }

    /** `exit` is a transaction: the client leaves with a release that succeeded, or stays, and says so. */
    method ExitConfig() returns (r: Outcome)
      requires Valid() && configMode
      modifies this
      ensures Valid()
      ensures !configMode ==> r == Done && editPath == [] && EndsWithRelease(log)
      ensures r == Failed ==> configMode && editPath == old(editPath)
      ensures lib.normalise(old(editPath)) != [] ==> configMode && log == old(log)
      ensures (State(), r) == Leave(lib, daemon, old(State()))
    {
      ghost var acts := LeaveAdds(lib, daemon, State());
      SmoothEnds(ViewOf(State()), acts);
      var norm := lib.normalise(editPath);
      if norm != [] {
        editPath := lib.pop(norm);
        return Done;
      }
      log := log + [Query(daemon(|log|))];
      var answer := daemon(|log|);
      log := log + [Exit(answer)];
      if answer != Success {
        return Failed;
      }
      configMode := false;
      log := log + [Store(false)];
      editPath := [];
      return Done;
    }

    /** A configuration command without a prefix leaves configuration mode only by a release that succeeded. */
    method DispatchPlain(line: string) returns (r: Outcome)
      requires Valid() && configMode && lib.fields(line) != []
      modifies this
      ensures Valid()
      ensures !configMode ==> editPath == [] && EndsWithRelease(log)
      ensures (State(), r) == Plain(lib, daemon, old(State()), line)
    {
      ghost var acts := PlainAdds(lib, daemon, State(), line);
      SmoothEnds(ViewOf(State()), acts);
      var parts := lib.fields(line);
      if parts[0] == "edit" {
        var frag := lib.editFragment(line);
        if frag.None? {
          return Failed;
        }
        if frag.value != [] {
          editPath := lib.normalise(lib.normalise(editPath) + frag.value);
        }
        return Done;
      } else if IsStrict(parts[0]) || IsLenient(parts[0]) {
        var input := lib.payload(lib.normalise(editPath), line);
        if input.None? {
          return if IsStrict(parts[0]) then Failed else Done;
        }
        var answer := daemon(|log|);
        log := log + [Mutate(input.value, answer)];
        return Result(answer);
      } else if IsConfigQuery(parts[0]) {
        r := Handle(line);
      } else if parts[0] == "run" {
        if |parts| < 2 {
          return Failed;
        }
        r := DispatchOperational(lib.join(parts[1..]));
      } else if parts[0] == "exit" || parts[0] == "quit" {
        r := ExitConfig();
      } else {
        return if parts[0] == "?" || parts[0] == "help" then Done else Failed;
      }
    }

    method DispatchConfig(line: string) returns (r: Outcome)
      requires Valid() && configMode
      modifies this
      ensures Valid()
      ensures !configMode ==> editPath == [] && EndsWithRelease(log)
      ensures Prefixed(lib, old(State()), line) && configMode ==> editPath == lib.normalise(old(editPath))
      ensures (State(), r) == Config(lib, daemon, old(State()), line)
      decreases |line|, 1
    {
      if lib.fields(line) == [] {
        return Done;
      }
      if IsPrefix(lib, line) {
        r := DispatchTopUp(line);
      } else {
        r := DispatchPlain(line);
      }
    }

    /** The prefixed form installs the target cursor, runs the inner command, and restores the cursor. */
    method DispatchTopUp(line: string) returns (r: Outcome)
      requires Valid() && configMode && IsPrefix(lib, line)
      modifies this
      ensures Valid()
      ensures !configMode ==> editPath == [] && EndsWithRelease(log)
      ensures Prefixed(lib, old(State()), line) && configMode ==> editPath == lib.normalise(old(editPath))
      ensures (State(), r) == Config(lib, daemon, old(State()), line)
      decreases |line|, 0
    {
      var saved := editPath;
      var parsed := lib.prefix(lib.normalise(saved), line);
      if parsed.None? {
        return Failed;
      }
      var p := parsed.value;
      if p.inner == [] {
        editPath := p.target;
        return Done;
      }
      if p.inner[0] == "top" || p.inner[0] == "up" || p.inner[0] == "edit" {
        return Failed;
      }
      editPath := p.target;
      r := DispatchConfig(p.innerLine);
      if configMode {
        editPath := lib.normalise(saved);
      }
    }

    /** One line, in either mode: the client stays settled, and leaves configuration mode only released. */
    method DispatchLine(line: string) returns (r: Outcome)
      requires Valid()
      modifies this
      ensures Valid()
      ensures old(configMode) && !configMode ==> EndsWithRelease(log)
      ensures (State(), r) == Dispatch(lib, daemon, old(State()), line)
      decreases |line|
    {
      var cmd := lib.splitPipe(line);
      if cmd.Some? {
        r := DispatchLine(cmd.value);
      } else if configMode {
        r := DispatchConfig(line);
      } else {
        r := DispatchOperational(line);
      }
    }

    /** The release on the way out: attempted whenever the client is in configuration mode, its result ignored. */
    method Release()
      requires Valid()
      modifies `log
      ensures !Owed(log)
      ensures old(configMode) ==> |log| > 0 && log[|log| - 1].Exit?
      ensures !old(configMode) ==> log == old(log)
    {
      if configMode {
        ghost var e := Exit(daemon(|log|));
        LeftStep(log, e, Success);
        log := log + [Exit(daemon(|log|))];
      }
    }

    /** End of input in configuration mode: back to operational mode at once, then the release. */
    method EndInput()
      requires Valid() && configMode
      modifies this
      ensures Valid() && !configMode && !Owed(log)
    {
      configMode := false;
      log := log + [Store(false)];
      editPath := [];
      ghost var e := Exit(daemon(|log|));
      LeftStep(log, e, Success);
      log := log + [Exit(daemon(|log|))];
    }

    /**
     The main loop, undisturbed: between two inputs the client is settled, and
     when the loop is over, every grant it knows of has been given a release.
     */
    method Serve(inputs: seq<Input>) returns (read: nat, over: bool)
      requires Valid()
      modifies this
      ensures Valid()
      ensures read <= |inputs| && (!over ==> read == |inputs|)
      ensures over ==> !Owed(log)
      ensures forall k :: 0 <= k < read && inputs[k].ReadError? ==> over && k == read - 1
    {
      read, over := 0, false;
      while read < |inputs| && !over
        invariant read <= |inputs| && Valid()
        invariant forall k :: 0 <= k < read && inputs[k].ReadError? ==> over && k == read - 1
        decreases |inputs| - read
      {
        match inputs[read] {
          case Line(text) =>
            var r := DispatchLine(text);
            over := r == Quit;
          case EndOfInput =>
            if configMode {
              EndInput();
            } else {
              over := true;
            }
          case ReadError =>
            over := true;
        }
        read := read + 1;
      }
      if over {
        Release();
      }
    }
  }
}
