/**
 The interactive monitor of the remote client: one goroutine per stream feeds a
 bounded channel, and switching the mode starts a new stream while older ones
 may still be sending.
 */
module MonitorStreams {
  import opened Basics

  datatype Mode = Combined | Packets | Bytes | Delta | Rate

  /** What a stream delivers: a frame rendered in some mode, its regular end, or an error. */
  datatype Item = Frame(mode: Mode, text: string) | Eof | Error(text: string)

  /** What travels on the channel: an item and the generation of its stream. */
  datatype Msg = Msg(gen: nat, item: Item)

  /** A stream: the mode it was asked for, everything its goroutine has received, and the item it is about to send. */
  datatype Stream = Stream(mode: Mode, cancelled: bool, received: seq<Item>, pending: Option<Item>, ended: bool)

  /** How the monitor ends: by a key, by the end or an error of a stream, or because a new stream does not start. */
  datatype Outcome = Quit | Ended | Failed(text: string) | StartFailed

  /** A rendered message, with the mode and the generation that were current when it was rendered. */
  datatype Shown = Shown(msg: Msg, mode: Mode, gen: nat)

  /** The monitor.  The generation counter is the number of streams started; stream `g` is at index `g - 1`. */
  datatype Monitor = Monitor(
    streams: seq<Stream>, channel: seq<Msg>, mode: Mode, outcome: Option<Outcome>,
    consumed: seq<Msg>, shown: seq<Shown>, last: Option<Shown>)

  const CAPACITY: nat := 16

  datatype Event =
    | Receive(gen: nat, item: Item)
    | Send(gen: nat)
    | Take
    | Press(key: char, starts: bool)

  predicate IsQuitKey(key: char) {
    key == 'q' || key == 'Q' || key as int == 27 || key as int == 3
  }

  function ModeOf(key: char): (m: Option<Mode>) {
    if key in "cC" then Some(Combined)
    else if key in "pP" then Some(Packets)
    else if key in "bB" then Some(Bytes)
    else if key in "dD" then Some(Delta)
    else if key in "rR" then Some(Rate)
    else None
  }

  function Fresh(mode: Mode): (s: Stream) {
    Stream(mode, false, [], None, false)
  }

  function Start(mode: Mode): (m: Monitor) {
    Monitor([Fresh(mode)], [], mode, None, [], [], None)
  }

  function Current(m: Monitor): (gen: nat) {
    |m.streams|
  }

  predicate IsStream(m: Monitor, gen: nat) {
    1 <= gen <= |m.streams|
  }

  /** An event that can happen: a server renders frames in the mode it was asked for, and a full channel blocks. */
  predicate Enabled(m: Monitor, e: Event) {
    && m.outcome.None?
    && match e
       case Receive(gen, item) =>
         && IsStream(m, gen)
         && m.streams[gen - 1].pending.None? && !m.streams[gen - 1].ended
         && (item.Frame? ==> item.mode == m.streams[gen - 1].mode)
       case Send(gen) => IsStream(m, gen) && m.streams[gen - 1].pending.Some? && |m.channel| < CAPACITY
       case Take => m.channel != []
       case Press(_, _) => true
  }

  function Received(s: Stream, item: Item): (s': Stream) {
    s.(received := s.received + [item], pending := Some(item))
  }

  function Sent(s: Stream): (s': Stream)
    requires s.pending.Some?
  {
    s.(pending := None, ended := !s.pending.value.Frame?)
  }

  /** The loop takes a message: one of an older generation is dropped, an end or an error ends the monitor. */
  function Taken(m: Monitor): (m': Monitor)
    requires m.channel != []
  {
    var msg := m.channel[0];
    var m' := m.(channel := m.channel[1..], consumed := m.consumed + [msg]);
    var now := Shown(msg, m.mode, Current(m));
    if msg.gen != Current(m) then m'
    else match msg.item
      case Eof => m'.(outcome := Some(Ended), last := Some(now))
      case Error(text) => m'.(outcome := Some(Failed(text)), last := Some(now))
      case Frame(_, _) => m'.(shown := m.shown + [now])
  }

  /** A new mode: the current stream is cancelled, and a new one is started, or the monitor ends if that fails. */
  function Switched(m: Monitor, mode: Mode, starts: bool): (m': Monitor)
    requires m.streams != []
  {
    var last := |m.streams| - 1;
    var streams := m.streams[last := m.streams[last].(cancelled := true)];
    if starts then m.(streams := streams + [Fresh(mode)], mode := mode)
    else m.(streams := streams, mode := mode, outcome := Some(StartFailed))
  }

  function Pressed(m: Monitor, key: char, starts: bool): (m': Monitor)
    requires m.streams != []
  {
    if IsQuitKey(key) then m.(outcome := Some(Quit))
    else match ModeOf(key)
      case None => m
      case Some(mode) => if mode == m.mode then m else Switched(m, mode, starts)
  }

  function Step(m: Monitor, e: Event): (m': Monitor)
    requires Enabled(m, e) && m.streams != []
    ensures m'.streams != []
  {
    match e
    case Receive(gen, item) => m.(streams := m.streams[gen - 1 := Received(m.streams[gen - 1], item)])
    case Send(gen) =>
      m.(channel := m.channel + [Msg(gen, m.streams[gen - 1].pending.value)],
         streams := m.streams[gen - 1 := Sent(m.streams[gen - 1])])
    case Take => Taken(m)
    case Press(key, starts) => Pressed(m, key, starts)
  }

  /** A run: every event is possible when it happens. */
  ghost predicate Runs(m: Monitor, events: seq<Event>, end: Monitor)
    requires m.streams != []
    decreases |events|
  {
    if events == [] then m == end
    else Enabled(m, events[0]) && Runs(Step(m, events[0]), events[1..], end)
  }

  // ---------- what every run keeps ----------

  /** The items of one generation among messages, in order. */
  function Of(msgs: seq<Msg>, gen: nat): (r: seq<Item>) {
    if msgs == [] then []
    else Of(msgs[..|msgs| - 1], gen) + if msgs[|msgs| - 1].gen == gen then [msgs[|msgs| - 1].item] else []
  }

  function ShownOf(shown: seq<Shown>, gen: nat): (r: seq<Item>) {
    if shown == [] then []
    else ShownOf(shown[..|shown| - 1], gen) + if shown[|shown| - 1].msg.gen == gen then [shown[|shown| - 1].msg.item] else []
  }

  function Held(s: Stream): (r: seq<Item>) {
    if s.pending.Some? then [s.pending.value] else []
  }

  /** A message comes from a stream that exists, and a frame is in the mode that stream was asked for. */
  predicate Genuine(m: Monitor, msg: Msg) {
    IsStream(m, msg.gen) && (msg.item.Frame? ==> msg.item.mode == m.streams[msg.gen - 1].mode)
  }

  /** A shown message was current when it was shown: generation and mode. */
  predicate WasCurrent(s: Shown) {
    s.msg.gen == s.gen && (s.msg.item.Frame? ==> s.msg.item.mode == s.mode)
  }

  ghost predicate Inv(m: Monitor) {
    && m.streams != []
    && |m.channel| <= CAPACITY
    && (m.outcome.None? ==> m.streams[|m.streams| - 1].mode == m.mode && !m.streams[|m.streams| - 1].cancelled)
    && (forall k :: 0 <= k < |m.streams| - 1 ==> m.streams[k].cancelled)
    && (forall k :: 0 <= k < |m.channel| ==> Genuine(m, m.channel[k]))
    && (forall k :: 0 <= k < |m.streams| && m.streams[k].pending.Some? ==> Genuine(m, Msg(k + 1, m.streams[k].pending.value)))
    && (forall k :: 0 <= k < |m.shown| ==> WasCurrent(m.shown[k]))
    && (m.last.Some? ==> m.outcome.Some? && WasCurrent(m.last.value) && m.last.value.gen == Current(m))
    && EndIsJustified(m)
  }

  /** A monitor that ended with a stream took that stream's end or error as its last message. */
  ghost predicate EndIsJustified(m: Monitor) {
    && (m.outcome == Some(Ended) ==> m.last.Some? && m.last.value.msg.item == Eof)
    && (m.outcome.Some? && m.outcome.value.Failed? ==> m.last.Some? && m.last.value.msg.item == Error(m.outcome.value.text))
  }

  lemma StartInv(mode: Mode)
    ensures Inv(Start(mode))
  {}

  lemma ProducerInv(m: Monitor, e: Event)
    requires Inv(m) && Enabled(m, e) && (e.Receive? || e.Send?)
    ensures Inv(Step(m, e))
  {}

  lemma TakeInv(m: Monitor)
    requires Inv(m) && Enabled(m, Take)
    ensures Inv(Step(m, Take))
  {
    assert Genuine(m, m.channel[0]);
  }

  lemma PressInv(m: Monitor, key: char, starts: bool)
    requires Inv(m) && Enabled(m, Press(key, starts))
    ensures Inv(Step(m, Press(key, starts)))
  {}

  lemma StepInv(m: Monitor, e: Event)
    requires Inv(m) && Enabled(m, e)
    ensures Inv(Step(m, e))
  {
    match e
    case Receive(_, _) => ProducerInv(m, e);
    case Send(_) => ProducerInv(m, e);
    case Take => TakeInv(m);
    case Press(key, starts) => PressInv(m, key, starts);
  }

  /** For every run: whatever the interleaving, each rendered frame is current, and only the current stream ends the monitor. */
  lemma {:induction false} RunKeepsInv(m: Monitor, events: seq<Event>, end: Monitor)
    requires Inv(m) && Runs(m, events, end)
    ensures Inv(end)
    decreases |events|
  {
    if events != [] {
      StepInv(m, events[0]);
      RunKeepsInv(Step(m, events[0]), events[1..], end);
    }
  }

  lemma EveryFrameIsCurrent(mode: Mode, events: seq<Event>, end: Monitor)
    requires Runs(Start(mode), events, end)
    ensures forall k :: 0 <= k < |end.shown| ==>
      end.shown[k].msg.gen == end.shown[k].gen && (end.shown[k].msg.item.Frame? ==> end.shown[k].msg.item.mode == end.shown[k].mode)
    ensures end.outcome == Some(Ended) ==> end.last.Some? && end.last.value.msg == Msg(Current(end), Eof)
    ensures end.outcome.Some? && end.outcome.value.Failed? ==>
      end.last.Some? && end.last.value.msg == Msg(Current(end), Error(end.outcome.value.text))
    ensures |end.channel| <= CAPACITY
  {
    StartInv(mode);
    RunKeepsInv(Start(mode), events, end);
    forall k | 0 <= k < |end.shown| ensures WasCurrent(end.shown[k]) {}
  }

  // ---------- nothing is lost, doubled or reordered ----------

  lemma {:induction false} OfConcat(a: seq<Msg>, b: seq<Msg>, gen: nat)
    ensures Of(a + b, gen) == Of(a, gen) + Of(b, gen)
    decreases |b|
  {
    if b == [] {
      assert a + b == a;
    } else {
      var front, last := b[..|b| - 1], b[|b| - 1];
      OfConcat(a, front, gen);
      assert (a + b)[..|a + b| - 1] == a + front;
    }
  }

  lemma OfOne(msg: Msg, gen: nat)
    ensures Of([msg], gen) == if msg.gen == gen then [msg.item] else []
  {
    assert [msg][..0] == [];
  }

  /** Everything a stream's goroutine received is, in order, consumed by the loop, queued, or about to be sent. */
  ghost predicate Conserved(m: Monitor, gen: nat)
    requires IsStream(m, gen)
  {
    Of(m.consumed, gen) + Of(m.channel, gen) + Held(m.streams[gen - 1]) == m.streams[gen - 1].received
  }

  /** Of a stream that is current everything consumed was shown; of an older one, a beginning of it. */
  ghost predicate ShownInOrder(m: Monitor, gen: nat) {
    && ShownOf(m.shown, gen) <= Of(m.consumed, gen)
    && (m.outcome.None? && gen == Current(m) ==> ShownOf(m.shown, gen) == Of(m.consumed, gen))
  }

  ghost predicate NoFuture(m: Monitor) {
    && (forall k :: 0 <= k < |m.consumed| ==> m.consumed[k].gen <= |m.streams|)
    && (forall k :: 0 <= k < |m.channel| ==> m.channel[k].gen <= |m.streams|)
    && (forall k :: 0 <= k < |m.shown| ==> m.shown[k].msg.gen <= |m.streams|)
  }

  ghost predicate Flow(m: Monitor) {
    && NoFuture(m)
    && (forall gen: nat :: IsStream(m, gen) ==> Conserved(m, gen) && ShownInOrder(m, gen))
  }

  lemma {:induction false} NoneOf(msgs: seq<Msg>, gen: nat)
    requires forall k :: 0 <= k < |msgs| ==> msgs[k].gen < gen
    ensures Of(msgs, gen) == []
  {
    if msgs != [] { NoneOf(msgs[..|msgs| - 1], gen); }
  }

  lemma {:induction false} NoneShown(shown: seq<Shown>, gen: nat)
    requires forall k :: 0 <= k < |shown| ==> shown[k].msg.gen < gen
    ensures ShownOf(shown, gen) == []
  {
    if shown != [] { NoneShown(shown[..|shown| - 1], gen); }
  }

  lemma ReceiveFlow(m: Monitor, at: nat, item: Item)
    requires Flow(m) && m.streams != [] && Enabled(m, Receive(at, item))
    ensures Flow(Step(m, Receive(at, item)))
  {
    var m' := Step(m, Receive(at, item));
    forall gen: nat | IsStream(m', gen) ensures Conserved(m', gen) && ShownInOrder(m', gen) {
      assert IsStream(m, gen) && Conserved(m, gen) && ShownInOrder(m, gen);
      if gen == at {
        assert Held(m.streams[gen - 1]) == [];
        assert Of(m.consumed, gen) + Of(m.channel, gen) + [] == Of(m.consumed, gen) + Of(m.channel, gen);
      }
    }
  }

  lemma SendFlow(m: Monitor, at: nat)
    requires Flow(m) && m.streams != [] && Enabled(m, Send(at))
    ensures Flow(Step(m, Send(at)))
  {
    var m' := Step(m, Send(at));
    forall gen: nat | IsStream(m', gen) ensures Conserved(m', gen) && ShownInOrder(m', gen) {
      assert IsStream(m, gen) && Conserved(m, gen) && ShownInOrder(m, gen);
      SendConserves(m, at, gen);
    }
  }

  lemma SendConserves(m: Monitor, at: nat, gen: nat)
    requires m.streams != [] && Enabled(m, Send(at)) && IsStream(m, gen) && Conserved(m, gen)
    ensures Conserved(Step(m, Send(at)), gen)
  {
    var msg := Msg(at, m.streams[at - 1].pending.value);
    OfConcat(m.channel, [msg], gen);
    OfOne(msg, gen);
    var c, q := Of(m.consumed, gen), Of(m.channel, gen);
    if gen == at {
      assert c + (q + [msg.item]) + [] == c + q + [msg.item];
    } else {
      assert q + [] == q;
    }
  }

  /** What the head of the channel adds to what is consumed of a generation. */
  function Head(m: Monitor, gen: nat): (r: seq<Item>)
    requires m.channel != []
  {
    if m.channel[0].gen == gen then [m.channel[0].item] else []
  }

  lemma TakeConsumes(m: Monitor, gen: nat)
    requires m.channel != []
    ensures Of(Taken(m).consumed, gen) == Of(m.consumed, gen) + Head(m, gen)
    ensures Of(m.channel, gen) == Head(m, gen) + Of(Taken(m).channel, gen)
  {
    var msg, rest := m.channel[0], m.channel[1..];
    assert Taken(m).consumed == m.consumed + [msg] && Taken(m).channel == rest;
    assert m.channel == [msg] + rest;
    OfConcat([msg], rest, gen);
    OfConcat(m.consumed, [msg], gen);
    OfOne(msg, gen);
  }

  lemma Regroup(a: seq<Item>, b: seq<Item>, c: seq<Item>, d: seq<Item>)
    ensures (a + b) + c + d == a + (b + c) + d
  {}

  lemma ShownAppend(shown: seq<Shown>, s: Shown, gen: nat)
    ensures ShownOf(shown + [s], gen) == ShownOf(shown, gen) + if s.msg.gen == gen then [s.msg.item] else []
  {
    assert (shown + [s])[..|shown|] == shown;
  }

  lemma TakeShows(m: Monitor, gen: nat)
    requires Enabled(m, Take) && ShownInOrder(m, gen)
    ensures ShownInOrder(Taken(m), gen)
  {
    TakeConsumes(m, gen);
    var msg, now := m.channel[0], Shown(m.channel[0], m.mode, Current(m));
    if msg.gen == Current(m) && msg.item.Frame? {
      ShownAppend(m.shown, now, gen);
      assert Taken(m).shown == m.shown + [now];
    } else {
      assert Taken(m).shown == m.shown;
    }
  }

  lemma TakeFlow(m: Monitor)
    requires Flow(m) && m.streams != [] && Enabled(m, Take)
    ensures Flow(Step(m, Take))
  {
    var m' := Taken(m);
    forall gen: nat | IsStream(m', gen) ensures Conserved(m', gen) && ShownInOrder(m', gen) {
      assert IsStream(m, gen) && Conserved(m, gen) && ShownInOrder(m, gen);
      TakeShows(m, gen);
      assert Conserved(m', gen) by {
        TakeConsumes(m, gen);
        Regroup(Of(m.consumed, gen), Head(m, gen), Of(m'.channel, gen), Held(m.streams[gen - 1]));
      }
    }
  }

  lemma PressFlow(m: Monitor, key: char, starts: bool)
    requires Flow(m) && m.streams != [] && Enabled(m, Press(key, starts))
    ensures Flow(Step(m, Press(key, starts)))
  {
    var m' := Pressed(m, key, starts);
    forall gen: nat | IsStream(m', gen) ensures Conserved(m', gen) && ShownInOrder(m', gen) {
      if gen <= |m.streams| {
        assert IsStream(m, gen) && Conserved(m, gen) && ShownInOrder(m, gen);
      } else {
        NewStreamFlow(m, m', gen);
      }
    }
  }

  /** Nothing of a stream that has just been started is queued, consumed or shown. */
  lemma NewStreamFlow(m: Monitor, m': Monitor, gen: nat)
    requires NoFuture(m) && |m.streams| < gen && IsStream(m', gen) && m'.streams[gen - 1] == Fresh(m'.streams[gen - 1].mode)
    requires m'.consumed == m.consumed && m'.channel == m.channel && m'.shown == m.shown
    ensures Conserved(m', gen) && ShownInOrder(m', gen)
  {
    NoneOf(m.consumed, gen);
    NoneOf(m.channel, gen);
    NoneShown(m.shown, gen);
  }

  lemma StepFlow(m: Monitor, e: Event)
    requires Flow(m) && m.streams != [] && Enabled(m, e)
    ensures Flow(Step(m, e))
  {
    match e
    case Receive(gen, item) => ReceiveFlow(m, gen, item);
    case Send(gen) => SendFlow(m, gen);
    case Take => TakeFlow(m);
    case Press(key, starts) => PressFlow(m, key, starts);
  }

  lemma {:induction false} RunKeepsFlow(m: Monitor, events: seq<Event>, end: Monitor)
    requires Flow(m) && m.streams != [] && Runs(m, events, end)
    ensures Flow(end)
    decreases |events|
  {
    if events != [] {
      StepFlow(m, events[0]);
      RunKeepsFlow(Step(m, events[0]), events[1..], end);
    }
  }

  /**
   For every run: the frames shown of each stream are a beginning of what that
   stream delivered, in order; and while the monitor is running, everything the
   current stream delivered is shown, queued, or about to be sent.
   */
  lemma FramesInOrder(mode: Mode, events: seq<Event>, end: Monitor, gen: nat)
    requires Runs(Start(mode), events, end) && IsStream(end, gen)
    ensures ShownOf(end.shown, gen) <= end.streams[gen - 1].received
    ensures end.outcome.None? && gen == Current(end) ==>
      ShownOf(end.shown, gen) + Of(end.channel, gen) + Held(end.streams[gen - 1]) == end.streams[gen - 1].received
  {
    var start := Start(mode);
    assert Flow(start) by {
      forall g: nat | IsStream(start, g) ensures Conserved(start, g) && ShownInOrder(start, g) {}
    }
    RunKeepsFlow(start, events, end);
    assert Conserved(end, gen) && ShownInOrder(end, gen);
  }
}
