/**
 Whole sessions of the remote command line: the main loop and the interrupt
 handler as two threads, interleaved act by act.
 */
module CliSession {
  import opened Basics
  import opened CliModes
  import opened CliLaws

  /** What the main loop reads at its prompt. */
  datatype Input = Line(text: string) | EndOfInput | ReadError

  /** What follows the acts at hand: the prompt again, the way out of the loop, or the end of the process. */
  datatype After = Prompt | Over | Out

  /** Where the main loop is.  Only while it runs a command can an interrupt cancel something. */
  datatype Main = AtPrompt | Busy(command: bool, todo: seq<Act>, path: Path, after: After)

  /**
   Where the interrupt handler is: waiting, on its way to end the process, past
   its look at the mode, or past its release.  It remembers what it saw, where
   the main loop was then, and how long the log was when it was done with it.
   */
  datatype Handler =
    | Waiting
    | Deciding
    | Looked(saw: bool, place: Main, at: nat)
    | Ready(saw: bool, place: Main, at: nat)

  datatype Session = Session(client: Client, main: Main, handler: Handler, lastInterrupt: Option<int>, ended: bool)

  /** The main loop reads, the main loop takes a step, Ctrl-C arrives at a time in milliseconds, or the handler takes a step. */
  datatype Event = Read(input: Input) | Advance | Interrupt(now: int) | Handle

  /** A second Ctrl-C within this many milliseconds ends the client. */
  const INTERRUPT_WINDOW: int := 2000

  const FIRST: Session := Session(Client(false, [], true, []), AtPrompt, Waiting, None, false)

  /** What the main loop sets out to do with its input. */
  function Begin(l: Library, d: Daemon, c: Client, input: Input): (m: Main) {
    match input
    case Line(text) =>
      var (c', r) := Dispatch(l, d, c, text);
      Busy(true, c'.log[|c.log|..], c'.editPath, if r == Quit then Over else Prompt)
    case EndOfInput =>
      if c.configMode then Busy(false, [Store(false), Exit(d(|c.log| + 1))], [], Prompt)
      else Busy(false, [], c.editPath, Over)
    case ReadError => Busy(false, [], c.editPath, Over)
  }

  /** One act of the main loop, or the turn from one part of it to the next. */
  function Proceed(d: Daemon, s: Session): (s': Session)
    requires s.main.Busy?
  {
    var m := s.main;
    if m.todo != [] then s.(client := Do(s.client, m.todo[0]), main := m.(todo := m.todo[1..]))
    else match m.after
      case Prompt => s.(client := s.client.(editPath := m.path), main := AtPrompt)
      case Over =>
        s.(client := s.client.(editPath := m.path),
           main := Busy(false, if s.client.configMode then [Exit(d(|s.client.log|))] else [], m.path, Out))
      case Out => s.(ended := true)
  }

  /** One act of the handler on its way to end the process. */
  function React(d: Daemon, s: Session): (s': Session) {
    match s.handler
    case Waiting => s
    case Deciding => s.(handler := Looked(s.client.configMode, s.main, |s.client.log|))
    case Looked(true, place, _) =>
      s.(client := Do(s.client, Exit(d(|s.client.log|))), handler := Ready(true, place, |s.client.log| + 1))
    case Looked(false, place, at) => s.(handler := Ready(false, place, at))
    case Ready(_, _, _) => s.(ended := true)
  }

  function Interrupted(s: Session, now: int): (s': Session) {
    if !s.handler.Waiting? || (s.main.Busy? && s.main.command) then s
    else if s.lastInterrupt.Some? && now - s.lastInterrupt.value < INTERRUPT_WINDOW then s.(handler := Deciding)
    else s.(lastInterrupt := Some(now))
  }

  function Step(l: Library, d: Daemon, s: Session, e: Event): (s': Session) {
    if s.ended then s
    else match e
      case Read(input) => if s.main.AtPrompt? then s.(main := Begin(l, d, s.client, input)) else s
      case Advance => if s.main.Busy? then Proceed(d, s) else s
      case Interrupt(now) => Interrupted(s, now)
      case Handle => React(d, s)
  }

  function Run(l: Library, d: Daemon, s: Session, events: seq<Event>): (s': Session)
    decreases |events|
  {
    if events == [] then s else Run(l, d, Step(l, d, s, events[0]), events[1..])
  }

  // ---------- what every interleaving keeps ----------

  /** End of input in configuration mode, at each of its three places. */
  predicate TearingDown(v: View, todo: seq<Act>) {
    || (|todo| == 2 && v.mode && todo[0] == Store(false) && todo[1].Exit?)
    || (|todo| == 1 && todo[0].Exit? && !v.mode)
    || (todo == [] && !v.mode && !v.owed)
  }

  predicate MainInv(c: Client, m: Main) {
    var v := ViewOf(c);
    match m
    case AtPrompt => Settled(c)
    case Busy(command, todo, path, after) =>
      match after
      case Prompt =>
        && (!SeeAll(v, todo).mode ==> path == [])
        && (if command then Smooth(v, todo) else TearingDown(v, todo))
      case Over => if command then Smooth(v, todo) else todo == [] && (v.mode || !v.owed)
      case Out => !command && ((|todo| == 1 && todo[0].Exit? && v.mode) || (todo == [] && !v.owed))
  }

  /** The two places where a release is owed while the stored mode is operational: before `configure` stores it, and inside end of input. */
  predicate InWindow(m: Main) {
    && m.Busy? && m.todo != []
    && ((m.command && m.todo[0] == Store(true)) || (!m.command && m.after == Prompt && m.todo[0].Exit?))
  }

  predicate HandlerInv(log: seq<Act>, h: Handler) {
    match h
    case Looked(saw, place, at) => at <= |log| && (!saw && Owed(log[..at]) ==> InWindow(place))
    case Ready(saw, place, at) => at <= |log| && (Owed(log[..at]) ==> !saw && InWindow(place))
    case _ => true
  }

  ghost predicate Inv(s: Session) {
    && MainInv(s.client, s.main)
    && HandlerInv(s.client.log, s.handler)
    && (s.ended ==> s.handler.Ready? || !Owed(s.client.log))
  }

  /** A release is owed in operational mode only in the two windows. */
  lemma OwedInWindow(c: Client, m: Main)
    requires MainInv(c, m) && !c.configMode && Owed(c.log)
    ensures InWindow(m)
  {
    if m.Busy? && m.command { assert Smooth(ViewOf(c), m.todo); }
  }

  lemma HandlerKeeps(log: seq<Act>, h: Handler, a: Act)
    requires HandlerInv(log, h)
    ensures HandlerInv(log + [a], h)
  {
    if h.Looked? || h.Ready? { assert (log + [a])[..h.at] == log[..h.at]; }
  }

  lemma BeginInv(l: Library, d: Daemon, c: Client, input: Input)
    requires Settled(c)
    ensures MainInv(c, Begin(l, d, c, input))
  {
    if input.Line? {
      var c' := Dispatch(l, d, c, input.text).0;
      var acts := DispatchAdds(l, d, c, input.text);
      assert c'.log[|c.log|..] == acts;
      DispatchEmpty(l, d, c, input.text);
    } else if input.EndOfInput? && c.configMode {
      var todo := [Store(false), Exit(d(|c.log| + 1))];
      assert todo[1..] == [todo[1]] && todo[1..][1..] == [];
    }
  }

  lemma ActInv(c: Client, m: Main)
    requires m.Busy? && m.todo != [] && MainInv(c, m)
    ensures MainInv(Do(c, m.todo[0]), m.(todo := m.todo[1..]))
  {
    SeeDone(c, m.todo[0]);
  }

  lemma ProceedInv(d: Daemon, s: Session)
    requires Inv(s) && s.main.Busy? && !s.ended
    ensures Inv(Proceed(d, s))
  {
    var m := s.main;
    if m.todo != [] {
      ActInv(s.client, m);
      HandlerKeeps(s.client.log, s.handler, m.todo[0]);
    }
  }

  /** A release by the handler settles what the main loop may owe. */
  lemma ReleaseInv(c: Client, m: Main, a: Act)
    requires MainInv(c, m) && a.Exit?
    ensures MainInv(Do(c, a), m)
  {
    SeeDone(c, a);
    var v := ViewOf(c);
    if m.Busy? {
      SeesMode(v, m.todo);
      if m.command { SmoothWithoutDebt(v, m.todo); }
    }
  }

  /** The mode that acts lead to does not depend on what is owed. */
  lemma {:induction false} SeesMode(v: View, acts: seq<Act>)
    ensures SeeAll(v.(owed := false), acts).mode == SeeAll(v, acts).mode
    decreases |acts|
  {
    if acts != [] {
      var v', w' := See(v, acts[0]), See(v.(owed := false), acts[0]);
      SeesMode(v', acts[1..]);
      SeesMode(w', acts[1..]);
      assert v'.(owed := false) == w'.(owed := false);
    }
  }

  lemma ReactInv(d: Daemon, s: Session)
    requires Inv(s) && !s.ended
    ensures Inv(React(d, s))
  {
    var log := s.client.log;
    match s.handler
    case Waiting =>
    case Deciding =>
      assert log[..|log|] == log;
      if !s.client.configMode && Owed(log) { OwedInWindow(s.client, s.main); }
    case Looked(saw, _, _) =>
      if saw {
        var e := Exit(d(|log|));
        ReleaseInv(s.client, s.main, e);
        LeftStep(log, e, Success);
        assert (log + [e])[..|log| + 1] == log + [e];
      }
    case Ready(_, _, _) =>
  }

  lemma StepInv(l: Library, d: Daemon, s: Session, e: Event)
    requires Inv(s)
    ensures Inv(Step(l, d, s, e))
  {
    if !s.ended {
      match e
      case Read(input) => if s.main.AtPrompt? { BeginInv(l, d, s.client, input); }
      case Advance => if s.main.Busy? { ProceedInv(d, s); }
      case Interrupt(_) =>
      case Handle => ReactInv(d, s);
    }
  }

  lemma {:induction false} RunInv(l: Library, d: Daemon, s: Session, events: seq<Event>)
    requires Inv(s)
    ensures Inv(Run(l, d, s, events))
    decreases |events|
  {
    if events != [] {
      StepInv(l, d, s, events[0]);
      RunInv(l, d, Step(l, d, s, events[0]), events[1..]);
    }
  }

  /**
   At the prompt, in every interleaving and whatever the daemon answers:
   operational mode has an empty cursor, and a granted lock for which no release
   was attempted is there exactly when the client never learned of its grant.
   */
  lemma PromptIsTidy(l: Library, d: Daemon, events: seq<Event>)
    requires Run(l, d, FIRST, events).main.AtPrompt?
    ensures var c := Run(l, d, FIRST, events).client;
      !c.configMode ==> c.editPath == [] && (Unreleased(c.log) <==> Stray(c.log))
  {
    RunInv(l, d, FIRST, events);
    UnreleasedIff(Run(l, d, FIRST, events).client.log);
  }

  /**
   The interrupt handler let a known grant slip: the client was granted one after
   the handler was done with the log; or the handler looked while the main loop
   was in one of the two windows, saw operational mode although a release was
   owed, and none was attempted afterwards.
   */
  ghost predicate Slipped(s: Session) {
    && s.handler.Ready?
    && var log, at := s.client.log, s.handler.at;
       && at <= |log|
       && (|| Owed(log[at..])
           || (!s.handler.saw && InWindow(s.handler.place) && Owed(log[..at]) && NoExit(log[at..])))
  }

  /**
   When the process has ended, in every interleaving: a granted lock was left
   without any attempt at a release exactly when the client never learned of the
   grant, or the interrupt handler let it slip.
   */
  lemma LockIsLeftIff(l: Library, d: Daemon, events: seq<Event>)
    requires Run(l, d, FIRST, events).ended
    ensures var s := Run(l, d, FIRST, events);
      Unreleased(s.client.log) <==> Stray(s.client.log) || Slipped(s)
  {
    var s := Run(l, d, FIRST, events);
    RunInv(l, d, FIRST, events);
    UnreleasedIff(s.client.log);
    if s.handler.Ready? { LeftCut(s.client.log, s.handler.at, Success); }
  }

  // ---------- each way to leave a lock behind ----------

  /** The library reads `configure` as that one word. */
  predicate ReadsConfigure(l: Library) {
    l.splitPipe("configure").None? && l.fields("configure") == ["configure"] && l.gate(["configure"])
  }

  lemma {:induction false} RunConcat(l: Library, d: Daemon, s: Session, a: seq<Event>, b: seq<Event>)
    ensures Run(l, d, s, a + b) == Run(l, d, Run(l, d, s, a), b)
    decreases |a|
  {
    if a == [] {
      assert a + b == b;
    } else {
      assert (a + b)[1..] == a[1..] + b;
      RunConcat(l, d, Step(l, d, s, a[0]), a[1..], b);
    }
  }

  lemma RunOne(l: Library, d: Daemon, s: Session, e: Event)
    ensures Run(l, d, s, [e]) == Step(l, d, s, e)
  {
    assert [e][1..] == [];
  }

  lemma RunTwo(l: Library, d: Daemon, s: Session, e: Event, f: Event)
    ensures Run(l, d, s, [e, f]) == Step(l, d, Step(l, d, s, e), f)
  {
    assert [e, f][1..] == [f];
    RunOne(l, d, Step(l, d, s, e), f);
  }

  /** A session at the prompt of a new client, with some of the handler's state. */
  function Fresh(handler: Handler, last: Option<int>): (s: Session) {
    FIRST.(handler := handler, lastInterrupt := last)
  }

  /** `configure` up to and including its call. */
  lemma Requests(l: Library, d: Daemon, s: Session)
    requires ReadsConfigure(l) && s.client == FIRST.client && s.main.AtPrompt? && !s.ended
    ensures var e := Enter(false, d(0));
      Run(l, d, s, [Read(Line("configure")), Advance]) ==
      s.(client := Do(s.client, e), main := Busy(true, if d(0) == Success then [Store(true)] else [], [], Prompt))
  {
    var e := Enter(false, d(0));
    var c' := Dispatch(l, d, s.client, "configure").0;
    RunTwo(l, d, s, Read(Line("configure")), Advance);
    if d(0) == Success {
      assert c'.log == [] + [e] + [Store(true)];
      assert c'.log[0..] == [e, Store(true)] && [e, Store(true)][1..] == [Store(true)];
    } else {
      assert c'.log == [] + [e];
      assert c'.log[0..] == [e] && [e][1..] == [];
    }
  }

  /**
   Inside end of input: the mode is stored before the release is made, and a
   second Ctrl-C between the two ends the process without one, although the
   daemon answers every call.
   */
  lemma EndOfInputSlips(l: Library, d: Daemon) returns (events: seq<Event>)
    requires ReadsConfigure(l) && forall k :: d(k) == Success
    ensures var s := Run(l, d, FIRST, events);
      s.ended && s.client.log == [Enter(false, Success), Store(true), Store(false)] && Unreleased(s.client.log)
  {
    var typed := [Read(Line("configure")), Advance];
    var s1 := Run(l, d, FIRST, typed);
    Requests(l, d, FIRST);
    var s2 := Run(l, d, s1, [Advance, Advance]);
    RunTwo(l, d, s1, Advance, Advance);
    assert [Store(true)][1..] == [];
    assert s2.main.AtPrompt? && s2.client.configMode && s2.client.log == [Enter(false, Success), Store(true)];
    var s3 := Run(l, d, s2, [Interrupt(0), Read(EndOfInput)]);
    RunTwo(l, d, s2, Interrupt(0), Read(EndOfInput));
    var s4 := Run(l, d, s3, [Advance, Interrupt(1)]);
    RunTwo(l, d, s3, Advance, Interrupt(1));
    assert s4.handler.Deciding? && s4.client.log == [Enter(false, Success), Store(true), Store(false)];
    events := typed + [Advance, Advance] + [Interrupt(0), Read(EndOfInput)] + [Advance, Interrupt(1)];
    RunConcat(l, d, FIRST, typed, [Advance, Advance]);
    RunConcat(l, d, FIRST, typed + [Advance, Advance], [Interrupt(0), Read(EndOfInput)]);
    RunConcat(l, d, FIRST, typed + [Advance, Advance] + [Interrupt(0), Read(EndOfInput)], [Advance, Interrupt(1)]);
    var s5 := DecidedEnds(l, d, s4);
    RunConcat(l, d, FIRST, events, [Handle] + [Handle, Handle]);
    events := events + ([Handle] + [Handle, Handle]);
    assert Granted(s5.client.log[0]);
  }

  /** A handler that has decided and sees operational mode ends the process and does nothing else. */
  lemma DecidedEnds(l: Library, d: Daemon, s: Session) returns (s': Session)
    requires s.handler.Deciding? && !s.client.configMode && !s.ended
    ensures s' == Run(l, d, s, [Handle] + [Handle, Handle]) && s'.ended && s'.client == s.client && s'.main == s.main
    ensures s'.handler == Ready(false, s.main, |s.client.log|)
  {
    var s1 := Step(l, d, s, Handle);
    RunConcat(l, d, s, [Handle], [Handle, Handle]);
    RunOne(l, d, s, Handle);
    RunTwo(l, d, s1, Handle, Handle);
    s' := Run(l, d, s, [Handle] + [Handle, Handle]);
  }

  /**
   Inside `configure`: a handler that decided before the command began looks
   between the grant and the store of the mode.
   */
  lemma ConfigureSlips(l: Library, d: Daemon) returns (events: seq<Event>)
    requires ReadsConfigure(l) && forall k :: d(k) == Success
    ensures var s := Run(l, d, FIRST, events);
      s.ended && s.client.log == [Enter(false, Success)] && Unreleased(s.client.log)
  {
    var pressed := [Interrupt(0), Interrupt(1)];
    var typed := [Read(Line("configure")), Advance];
    RunTwo(l, d, FIRST, Interrupt(0), Interrupt(1));
    var s1 := Run(l, d, FIRST, pressed);
    assert s1 == Fresh(Deciding, Some(0));
    Requests(l, d, s1);
    RunConcat(l, d, FIRST, pressed, typed);
    var s2 := DecidedEnds(l, d, Run(l, d, s1, typed));
    RunConcat(l, d, FIRST, pressed + typed, [Handle] + [Handle, Handle]);
    events := pressed + typed + ([Handle] + [Handle, Handle]);
    assert Granted(s2.client.log[0]);
  }

  /** A lock that is granted after the handler's look, whatever it saw, is out of its sight. */
  lemma LateGrantSlips(l: Library, d: Daemon) returns (events: seq<Event>)
    requires ReadsConfigure(l) && forall k :: d(k) == Success
    ensures var s := Run(l, d, FIRST, events);
      s.ended && s.handler == Ready(false, AtPrompt, 0) && s.client.log == [Enter(false, Success)] && Unreleased(s.client.log)
  {
    var pressed := [Interrupt(0), Interrupt(1)];
    var typed := [Read(Line("configure")), Advance];
    RunTwo(l, d, FIRST, Interrupt(0), Interrupt(1));
    var s1 := Run(l, d, FIRST, pressed);
    assert s1 == Fresh(Deciding, Some(0));
    RunOne(l, d, s1, Handle);
    var s2 := Run(l, d, s1, [Handle]);
    Requests(l, d, s2);
    var s3 := Run(l, d, s2, typed);
    RunTwo(l, d, s3, Handle, Handle);
    RunConcat(l, d, FIRST, pressed, [Handle]);
    RunConcat(l, d, FIRST, pressed + [Handle], typed);
    RunConcat(l, d, FIRST, pressed + [Handle] + typed, [Handle, Handle]);
    events := pressed + [Handle] + typed + [Handle, Handle];
    assert Granted(s3.client.log[0]);
  }

  /**
   A grant whose answer does not reach the client, because Ctrl-C cancelled the
   call or the connection broke: the client stays in operational mode, and
   leaves without a release, on the regular way out.
   */
  lemma LostGrantStays(l: Library, d: Daemon) returns (events: seq<Event>)
    requires ReadsConfigure(l) && d(0) == Lost
    ensures var s := Run(l, d, FIRST, events);
      s.ended && s.handler.Waiting? && s.client.log == [Enter(false, Lost)] && Unreleased(s.client.log)
  {
    var typed := [Read(Line("configure")), Advance];
    var s1 := Run(l, d, FIRST, typed);
    Requests(l, d, FIRST);
    var s2 := Run(l, d, s1, [Advance, Read(EndOfInput)]);
    RunTwo(l, d, s1, Advance, Read(EndOfInput));
    var s3 := Run(l, d, s2, [Advance, Advance]);
    RunTwo(l, d, s2, Advance, Advance);
    assert s3.ended && s3.client.log == [Enter(false, Lost)];
    events := typed + [Advance, Read(EndOfInput)] + [Advance, Advance];
    RunConcat(l, d, FIRST, typed, [Advance, Read(EndOfInput)]);
    RunConcat(l, d, FIRST, typed + [Advance, Read(EndOfInput)], [Advance, Advance]);
    assert Granted(s3.client.log[0]);
  }

  // ---------- acts and commands ----------

  /** The steps of a command add up to the command. */
  lemma {:induction false} StepsAddUp(l: Library, d: Daemon, s: Session, n: nat) returns (events: seq<Event>)
    requires s.main.Busy? && !s.ended && n == |s.main.todo|
    ensures var s' := Run(l, d, s, events);
      && s' == s.(client := s'.client, main := s.main.(todo := []))
      && s'.client.log == s.client.log + s.main.todo
      && s'.client.editPath == s.client.editPath && s'.client.interactive == s.client.interactive
      && s'.client.configMode == SeeAll(View(s.client.configMode, false), s.main.todo).mode
    decreases n
  {
    events := [];
    if n > 0 {
      var a, s1 := s.main.todo[0], Step(l, d, s, Advance);
      var rest := StepsAddUp(l, d, s1, n - 1);
      events := [Advance] + rest;
      RunConcat(l, d, s, [Advance], rest);
      RunOne(l, d, s, Advance);
      assert (s.client.log + [a]) + s.main.todo[1..] == s.client.log + s.main.todo;
      SeesMode(See(View(s.client.configMode, false), a), s.main.todo[1..]);
      SeesMode(View(s1.client.configMode, false), s.main.todo[1..]);
    } else {
      assert s.client.log + [] == s.client.log && s.main.todo == [];
    }
  }

  /** An undisturbed line takes the client from prompt to prompt exactly as the dispatcher says. */
  lemma LineRuns(l: Library, d: Daemon, s: Session, text: string) returns (events: seq<Event>)
    requires s.main.AtPrompt? && !s.ended && Settled(s.client) && Dispatch(l, d, s.client, text).1 != Quit
    ensures Run(l, d, s, events) == s.(client := Dispatch(l, d, s.client, text).0)
  {
    var c' := Dispatch(l, d, s.client, text).0;
    var acts := DispatchAdds(l, d, s.client, text);
    var s1 := Step(l, d, s, Read(Line(text)));
    assert c'.log[|s.client.log|..] == acts;
    var rest := StepsAddUp(l, d, s1, |acts|);
    SeesMode(ViewOf(s.client), acts);
    var s2 := Run(l, d, s1, rest);
    RunOne(l, d, s, Read(Line(text)));
    RunOne(l, d, s2, Advance);
    RunConcat(l, d, s, [Read(Line(text))], rest);
    RunConcat(l, d, s, [Read(Line(text))] + rest, [Advance]);
    events := [Read(Line(text))] + rest + [Advance];
    assert s2.client.(editPath := c'.editPath) == c';
  }

  // ---------- the cursor ----------

  ghost predicate NormalSession(l: Library, s: Session) {
    Normal(l, s.client.editPath) && (s.main.Busy? ==> Normal(l, s.main.path))
  }

  /** The stored cursor is normal in every session. */
  lemma {:induction false} CursorStaysNormal(l: Library, d: Daemon, s: Session, events: seq<Event>)
    requires PathLaws(l) && NormalSession(l, s)
    ensures NormalSession(l, Run(l, d, s, events))
    decreases |events|
  {
    if events != [] {
      var e := events[0];
      if e.Read? && e.input.Line? { DispatchNormal(l, d, s.client, e.input.text); }
      CursorStaysNormal(l, d, Step(l, d, s, e), events[1..]);
    }
  }

  /**
   In every session: a prefixed command that leaves the client in configuration
   mode ends with the very cursor it started with, whether it succeeds or fails.
   */
  lemma PrefixRestoresCursor(l: Library, d: Daemon, events: seq<Event>, line: string)
    requires PathLaws(l)
    requires var c := Run(l, d, FIRST, events).client; c.configMode && Prefixed(l, c, line)
    ensures var c := Run(l, d, FIRST, events).client;
      var c' := Config(l, d, c, line).0; c'.configMode ==> c'.editPath == c.editPath
  {
    CursorStaysNormal(l, d, FIRST, events);
  }
}
