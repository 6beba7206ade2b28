/**
 The archive snapshots of the build script: read the archive, write the
 snapshot, read the version, read the archive again, while a package manager may
 install something at any moment.
 */
module ArchiveSnapshot {
  import opened Basics

  type Bytes = string

  /** What an installed package shows: its pkg-config version, its header version, its archive. */
  datatype Package = Package(version: string, header: string, archive: Bytes)

  /** How a library is checked: libxdp, or a host library with pkg-config and perhaps a header, or with a header only. */
  datatype Kind = Xdp | PkgConfigured(withHeader: bool) | HeaderOnly

  /** A library of the build: its kind, the version found at discovery, and its accepted versions. */
  datatype Spec = Spec(kind: Kind, before: string, accepts: string -> bool, same: (string, string) -> bool)

  function VersionOf(kind: Kind, p: Package): (v: string) {
    if kind.HeaderOnly? then p.header else p.version
  }

  datatype Phase = ReadArchive | WriteSnapshot | ReadVersion | ReadHeader | ReadAgain

  /** Which of the packages installed so far was there at each of a library's reads. */
  datatype Reads = Reads(bytesAt: nat, versionAt: nat, headerAt: nat, againAt: nat)

  /** One library during the build: all packages installed so far, the linked snapshot, and what was recorded. */
  datatype Lib = Lib(history: seq<Package>, snapshot: Option<Bytes>, recorded: Option<string>, seen: Option<Reads>)

  /**
   The build: libraries are snapshotted one after the other.  `bytesAt`,
   `versionAt` and `headerAt` remember which package was installed at each read.
   */
  datatype Build = Build(
    libs: seq<Lib>, current: nat, phase: Phase, panicked: bool,
    held: Bytes, version: string, bytesAt: nat, versionAt: nat, headerAt: nat)

  /** The package manager installs something, the build takes a step, or a read or write fails. */
  datatype Event = Install(lib: nat, package: Package) | Advance | IoError

  ghost predicate Initial(specs: seq<Spec>, b: Build) {
    && |b.libs| == |specs| && b.current == 0 && b.phase == ReadArchive && !b.panicked
    && forall i :: 0 <= i < |b.libs| ==>
      |b.libs[i].history| == 1 && b.libs[i].snapshot.None? && b.libs[i].recorded.None?
  }

  function Installed(l: Lib): (p: Package)
    requires l.history != []
  {
    l.history[|l.history| - 1]
  }

  predicate Sound(specs: seq<Spec>, b: Build) {
    |b.libs| == |specs| && forall i :: 0 <= i < |b.libs| ==> b.libs[i].history != []
  }

  /** The checks on the version read: in range, and for a host library also the version found at discovery. */
  predicate VersionPasses(spec: Spec, v: string) {
    spec.accepts(v) && (spec.kind.Xdp? || v == spec.before)
  }

  function Recorded(l: Lib, b: Build, at: nat): (l': Lib) {
    l.(recorded := Some(b.version), seen := Some(Reads(b.bytesAt, b.versionAt, b.headerAt, at)))
  }

  /** One step of the build on its current library. */
  function Advanced(specs: seq<Spec>, b: Build): (b': Build)
    requires Sound(specs, b)
    ensures Sound(specs, b')
  {
    if b.panicked || b.current >= |b.libs| then b
    else
      var spec, lib := specs[b.current], b.libs[b.current];
      var now, at := Installed(lib), |lib.history| - 1;
      match b.phase
      case ReadArchive => b.(held := now.archive, bytesAt := at, phase := WriteSnapshot)
      case WriteSnapshot => b.(libs := b.libs[b.current := lib.(snapshot := Some(b.held))], phase := ReadVersion)
      case ReadVersion =>
        var v := VersionOf(spec.kind, now);
        if !VersionPasses(spec, v) then b.(panicked := true)
        else b.(version := v, versionAt := at, headerAt := at, phase := if spec.kind == PkgConfigured(true) then ReadHeader else ReadAgain)
      case ReadHeader =>
        if !spec.same(now.header, b.version) then b.(panicked := true)
        else b.(headerAt := at, phase := ReadAgain)
      case ReadAgain =>
        if now.archive != b.held || b.version != spec.before then b.(panicked := true)
        else b.(libs := b.libs[b.current := Recorded(lib, b, at)], current := b.current + 1, phase := ReadArchive)
  }

  function Step(specs: seq<Spec>, b: Build, e: Event): (b': Build)
    requires Sound(specs, b)
    ensures Sound(specs, b')
  {
    match e
    case Install(i, p) =>
      if i < |b.libs| then b.(libs := b.libs[i := b.libs[i].(history := b.libs[i].history + [p])]) else b
    case Advance => Advanced(specs, b)
    case IoError => b.(panicked := true)
  }

  function Run(specs: seq<Spec>, b: Build, events: seq<Event>): (b': Build)
    requires Sound(specs, b)
    ensures Sound(specs, b')
    decreases |events|
  {
    if events == [] then b else Run(specs, Step(specs, b, events[0]), events[1..])
  }

  /** The package has this archive and this version, and where its header is checked, a header to match. */
  predicate IsSource(spec: Spec, p: Package, archive: Bytes, version: string) {
    && p.archive == archive
    && VersionOf(spec.kind, p) == version
    && (spec.kind == PkgConfigured(true) ==> spec.same(p.header, version))
  }

  /** The recorded version belongs to a package whose archive is the linked one. */
  ghost predicate Described(spec: Spec, l: Lib)
    requires l.snapshot.Some? && l.recorded.Some?
  {
    exists k :: 0 <= k < |l.history| && IsSource(spec, l.history[k], l.snapshot.value, l.recorded.value)
  }

  /** What is established, read by read, about a library once its version is recorded. */
  predicate Traced(spec: Spec, l: Lib) {
    l.recorded.Some? ==>
      && l.snapshot.Some? && l.seen.Some?
      && spec.accepts(l.recorded.value)
      && l.recorded.value == spec.before
      && var r := l.seen.value;
         && r.bytesAt <= r.versionAt <= r.headerAt <= r.againAt < |l.history|
         && l.history[r.bytesAt].archive == l.history[r.againAt].archive == l.snapshot.value
         && VersionOf(spec.kind, l.history[r.versionAt]) == l.recorded.value
         && (spec.kind == PkgConfigured(true) ==> spec.same(l.history[r.headerAt].header, l.recorded.value))
  }

  /** What has been established about the library in progress, phase by phase. */
  predicate InProgress(spec: Spec, l: Lib, b: Build) {
    && (b.phase != ReadArchive ==> b.bytesAt < |l.history| && l.history[b.bytesAt].archive == b.held)
    && (b.phase.ReadVersion? || b.phase.ReadHeader? || b.phase.ReadAgain? ==> l.snapshot == Some(b.held))
    && (b.phase.ReadHeader? || b.phase.ReadAgain? ==>
        && b.bytesAt <= b.versionAt <= b.headerAt < |l.history|
        && VersionOf(spec.kind, l.history[b.versionAt]) == b.version
        && spec.accepts(b.version))
    && (b.phase.ReadAgain? && spec.kind == PkgConfigured(true) ==> spec.same(l.history[b.headerAt].header, b.version))
  }

  ghost predicate Inv(specs: seq<Spec>, b: Build) {
    && Sound(specs, b)
    && (forall i :: 0 <= i < |specs| ==> Traced(specs[i], b.libs[i]))
    && (forall i :: 0 <= i < |specs| ==> (b.libs[i].recorded.Some? <==> i < b.current))
    && b.current <= |specs|
    && (b.current < |specs| ==> InProgress(specs[b.current], b.libs[b.current], b))
  }

  lemma InitialInv(specs: seq<Spec>, b: Build)
    requires Initial(specs, b)
    ensures Inv(specs, b)
  {}

  /** Installing a package adds to the history and takes nothing back. */
  lemma InstallInv(specs: seq<Spec>, b: Build, i: nat, p: Package)
    requires Inv(specs, b) && i < |specs|
    ensures Inv(specs, Step(specs, b, Install(i, p)))
  {
    var l := b.libs[i];
    assert forall k :: 0 <= k < |l.history| ==> (l.history + [p])[k] == l.history[k];
    assert Traced(specs[i], l) && Traced(specs[i], l.(history := l.history + [p]));
  }

  /** The steps before the last one change at most the snapshot of the current library. */
  lemma ReadsInv(specs: seq<Spec>, b: Build)
    requires Inv(specs, b) && !b.panicked && b.current < |specs| && !b.phase.ReadAgain?
    ensures Inv(specs, Advanced(specs, b))
  {
    var b' := Advanced(specs, b);
    forall i | 0 <= i < |specs| ensures Traced(specs[i], b'.libs[i]) {
      assert Traced(specs[i], b.libs[i]);
    }
  }

  /** The last step panics, or records a version whose reads are all accounted for. */
  lemma RecordInv(specs: seq<Spec>, b: Build)
    requires Inv(specs, b) && !b.panicked && b.current < |specs| && b.phase.ReadAgain?
    ensures Inv(specs, Advanced(specs, b))
  {
    var b' := Advanced(specs, b);
    forall i | 0 <= i < |specs| ensures Traced(specs[i], b'.libs[i]) {
      assert Traced(specs[i], b.libs[i]);
    }
  }

  lemma AdvanceInv(specs: seq<Spec>, b: Build)
    requires Inv(specs, b)
    ensures Inv(specs, Advanced(specs, b))
  {
    if !b.panicked && b.current < |specs| {
      if b.phase.ReadAgain? { RecordInv(specs, b); } else { ReadsInv(specs, b); }
    }
  }

  lemma StepInv(specs: seq<Spec>, b: Build, e: Event)
    requires Inv(specs, b)
    ensures Inv(specs, Step(specs, b, e))
  {
    match e
    case Install(i, p) => if i < |specs| { InstallInv(specs, b, i, p); }
    case Advance => AdvanceInv(specs, b);
    case IoError =>
  }

  lemma {:induction false} RunInv(specs: seq<Spec>, b: Build, events: seq<Event>)
    requires Inv(specs, b)
    ensures Inv(specs, Run(specs, b, events))
    decreases |events|
  {
    if events != [] {
      StepInv(specs, b, events[0]);
      RunInv(specs, Step(specs, b, events[0]), events[1..]);
    }
  }

  /** Between the library's two reads of its archive another archive was installed; the first one is back at the second read. */
  predicate Reverted(l: Lib)
    requires l.snapshot.Some? && l.seen.Some? && l.seen.value.againAt < |l.history|
  {
    var r := l.seen.value;
    exists k :: r.bytesAt < k < r.againAt && l.history[k].archive != l.snapshot.value
  }

  /** Version and header were read from two packages that share the linked archive. */
  predicate Repackaged(l: Lib)
    requires l.snapshot.Some? && l.seen.Some? && l.seen.value.versionAt < |l.history| && l.seen.value.headerAt < |l.history|
  {
    var p, q := l.history[l.seen.value.versionAt], l.history[l.seen.value.headerAt];
    p.archive == q.archive == l.snapshot.value && p != q
  }

  /** A recorded version that describes no package with the linked archive takes a change inside the window. */
  lemma DescribedUnlessChanged(spec: Spec, l: Lib)
    requires Traced(spec, l) && l.recorded.Some?
    ensures Described(spec, l) || Reverted(l) || (spec.kind == PkgConfigured(true) && Repackaged(l))
  {
    var r, archive := l.seen.value, l.snapshot.value;
    if !Reverted(l) {
      forall k | r.bytesAt <= k <= r.againAt ensures l.history[k].archive == archive {
        if r.bytesAt < k < r.againAt { assert !(l.history[k].archive != archive); }
      }
      if spec.kind == PkgConfigured(true) && !Repackaged(l) {
        assert l.history[r.versionAt] == l.history[r.headerAt];
      }
      if spec.kind != PkgConfigured(true) || !Repackaged(l) {
        assert IsSource(spec, l.history[r.versionAt], archive, l.recorded.value);
      }
    }
  }

  /**
   For every interleaving of installs with the steps of the build, and whatever is
   installed: a build that gets through without panicking has recorded, for every
   library, an accepted version.  That version describes exactly the archive it
   linked, unless between the two reads of that library's archive another archive
   was installed and the first one put back, or the same archive came with two
   sets of metadata.
   */
  lemma SnapshotsDescribeTheirArchives(specs: seq<Spec>, start: Build, events: seq<Event>, i: nat)
    requires Initial(specs, start)
    requires !Run(specs, start, events).panicked && Run(specs, start, events).current == |specs| && i < |specs|
    ensures var l := Run(specs, start, events).libs[i];
      && l.recorded.Some? && Traced(specs[i], l)
      && (Described(specs[i], l) || Reverted(l) || (specs[i].kind == PkgConfigured(true) && Repackaged(l)))
  {
    InitialInv(specs, start);
    RunInv(specs, start, events);
    DescribedUnlessChanged(specs[i], Run(specs, start, events).libs[i]);
  }

  // ---------- a package manager that never goes back ----------

  /** An installed archive differs from every earlier one. */
  predicate Forward(b: Build, e: Event) {
    e.Install? && e.lib < |b.libs| ==>
      forall k :: 0 <= k < |b.libs[e.lib].history| ==> b.libs[e.lib].history[k].archive != e.package.archive
  }

  predicate ForwardRun(specs: seq<Spec>, b: Build, events: seq<Event>)
    requires Sound(specs, b)
    decreases |events|
  {
    events == [] || (Forward(b, events[0]) && ForwardRun(specs, Step(specs, b, events[0]), events[1..]))
  }

  ghost predicate Fresh(history: seq<Package>) {
    forall i, j :: 0 <= i < j < |history| ==> history[i].archive != history[j].archive
  }

  ghost predicate AllFresh(b: Build) {
    forall i :: 0 <= i < |b.libs| ==> Fresh(b.libs[i].history)
  }

  lemma {:induction false} RunFresh(specs: seq<Spec>, b: Build, events: seq<Event>)
    requires Sound(specs, b) && AllFresh(b) && ForwardRun(specs, b, events)
    ensures AllFresh(Run(specs, b, events))
    decreases |events|
  {
    if events != [] {
      StepFresh(specs, b, events[0]);
      RunFresh(specs, Step(specs, b, events[0]), events[1..]);
    }
  }

  lemma StepFresh(specs: seq<Spec>, b: Build, e: Event)
    requires Sound(specs, b) && AllFresh(b) && Forward(b, e)
    ensures AllFresh(Step(specs, b, e))
  {
    var b' := Step(specs, b, e);
    forall i | 0 <= i < |b'.libs| ensures Fresh(b'.libs[i].history) {
      assert Fresh(b.libs[i].history);
    }
  }

  /** If archives only ever change to new ones, the recorded version is that of every package with the linked archive. */
  lemma ForwardIsDescribed(specs: seq<Spec>, start: Build, events: seq<Event>, i: nat)
    requires Initial(specs, start) && ForwardRun(specs, start, events)
    requires !Run(specs, start, events).panicked && Run(specs, start, events).current == |specs| && i < |specs|
    ensures var l := Run(specs, start, events).libs[i];
      && l.recorded.Some? && l.snapshot.Some? && Described(specs[i], l)
      && forall k :: 0 <= k < |l.history| && l.history[k].archive == l.snapshot.value ==>
           IsSource(specs[i], l.history[k], l.snapshot.value, l.recorded.value)
  {
    SnapshotsDescribeTheirArchives(specs, start, events, i);
    RunFresh(specs, start, events);
    var l := Run(specs, start, events).libs[i];
    assert Fresh(l.history);
    FreshIsDescribed(specs[i], l);
  }

  lemma FreshIsDescribed(spec: Spec, l: Lib)
    requires Traced(spec, l) && l.recorded.Some? && Fresh(l.history)
    ensures exists k :: 0 <= k < |l.history| && IsSource(spec, l.history[k], l.snapshot.value, l.recorded.value)
    ensures forall k :: 0 <= k < |l.history| && l.history[k].archive == l.snapshot.value ==>
      IsSource(spec, l.history[k], l.snapshot.value, l.recorded.value)
  {
    var r := l.seen.value;
    assert r.bytesAt == r.againAt;
    assert IsSource(spec, l.history[r.bytesAt], l.snapshot.value, l.recorded.value);
    forall k | 0 <= k < |l.history| && l.history[k].archive == l.snapshot.value ensures k == r.bytesAt {
      assert !(k < r.bytesAt) && !(r.bytesAt < k);
    }
  }

  // ---------- exactly which packages can be confused ----------

  /**
   With `a` installed at both reads of the archive, `b` at the read of the version
   and `h` at the read of the header, the build goes through, and none of the
   three packages is described by what it records.
   */
  predicate Confusable(spec: Spec, a: Package, b: Package, h: Package) {
    var v := VersionOf(spec.kind, b);
    && VersionPasses(spec, v) && v == spec.before
    && (spec.kind == PkgConfigured(true) ==> spec.same(h.header, v))
    && !IsSource(spec, a, a.archive, v) && !IsSource(spec, b, a.archive, v) && !IsSource(spec, h, a.archive, v)
  }

  /** Only packages the package manager has to offer are installed. */
  predicate From(offered: Package -> bool, events: seq<Event>) {
    forall k :: 0 <= k < |events| && events[k].Install? ==> offered(events[k].package)
  }

  predicate AllOffered(offered: Package -> bool, l: Lib) {
    forall k :: 0 <= k < |l.history| ==> offered(l.history[k])
  }

  lemma {:induction false} RunOffers(offered: Package -> bool, specs: seq<Spec>, b: Build, events: seq<Event>)
    requires Sound(specs, b) && From(offered, events) && forall i :: 0 <= i < |specs| ==> AllOffered(offered, b.libs[i])
    ensures forall i :: 0 <= i < |specs| ==> AllOffered(offered, Run(specs, b, events).libs[i])
    decreases |events|
  {
    if events != [] {
      var e, b' := events[0], Step(specs, b, events[0]);
      forall i | 0 <= i < |specs| ensures AllOffered(offered, b'.libs[i]) { assert AllOffered(offered, b.libs[i]); }
      assert forall k :: 0 <= k < |events[1..]| ==> events[1..][k] == events[k + 1];
      RunOffers(offered, specs, b', events[1..]);
    }
  }

  /** The build of one library, with `p` installed when it starts. */
  function Starting(p: Package): (b: Build) {
    Build([Lib([p], None, None, None)], 0, ReadArchive, false, "", "", 0, 0, 0)
  }

  /** Every build of this library that gets through, from whatever is offered, records what it linked. */
  ghost predicate AlwaysDescribes(offered: Package -> bool, spec: Spec) {
    forall p: Package, events: seq<Event> {:trigger Run([spec], Starting(p), events)} ::
      offered(p) && From(offered, events) ==>
        var b := Run([spec], Starting(p), events);
        !b.panicked && b.current == 1 ==> b.libs[0].recorded.Some? && b.libs[0].snapshot.Some? && Described(spec, b.libs[0])
  }

  /** A build that records something else had three confusable packages in its history. */
  lemma ConfusedBuild(offered: Package -> bool, spec: Spec, p: Package, events: seq<Event>)
    returns (a: Package, b: Package, h: Package)
    requires offered(p) && From(offered, events)
    requires var end := Run([spec], Starting(p), events);
      !end.panicked && end.current == 1
      && !(end.libs[0].recorded.Some? && end.libs[0].snapshot.Some? && Described(spec, end.libs[0]))
    ensures offered(a) && offered(b) && offered(h) && Confusable(spec, a, b, h)
  {
    var specs, end := [spec], Run([spec], Starting(p), events);
    InitialInv(specs, Starting(p));
    RunInv(specs, Starting(p), events);
    RunOffers(offered, specs, Starting(p), events);
    var l := end.libs[0];
    assert Traced(specs[0], l) && AllOffered(offered, l) && l.recorded.Some?;
    var r := l.seen.value;
    a, b, h := l.history[r.bytesAt], l.history[r.versionAt], l.history[r.headerAt];
    assert !IsSource(spec, a, l.snapshot.value, l.recorded.value);
    assert !IsSource(spec, b, l.snapshot.value, l.recorded.value);
    assert !IsSource(spec, h, l.snapshot.value, l.recorded.value);
  }

  lemma {:induction false} RunConcat(specs: seq<Spec>, b: Build, first: seq<Event>, rest: seq<Event>)
    requires Sound(specs, b)
    ensures Run(specs, b, first + rest) == Run(specs, Run(specs, b, first), rest)
    decreases |first|
  {
    if first == [] {
      assert first + rest == rest;
    } else {
      assert (first + rest)[1..] == first[1..] + rest;
      RunConcat(specs, Step(specs, b, first[0]), first[1..], rest);
    }
  }

  lemma RunTwo(specs: seq<Spec>, b: Build, e: Event, f: Event)
    requires Sound(specs, b)
    ensures Run(specs, b, [e, f]) == Step(specs, Step(specs, b, e), f)
  {
    RunConcat(specs, b, [e], [f]);
    assert [e] + [f] == [e, f];
    RunOne(specs, b, e);
    RunOne(specs, Step(specs, b, e), f);
  }

  lemma RunOne(specs: seq<Spec>, b: Build, e: Event)
    requires Sound(specs, b)
    ensures Run(specs, b, [e]) == Step(specs, b, e)
  {
    assert [e][1..] == [];
  }

  /** The archive of `a` is read and written, then `b` is installed and its version read. */
  lemma ReadsOther(spec: Spec, a: Package, b: Package)
    requires VersionPasses(spec, VersionOf(spec.kind, b))
    ensures Run([spec], Starting(a), [Advance, Advance] + [Install(0, b), Advance]) ==
      Build([Lib([a, b], Some(a.archive), None, None)], 0, if spec.kind == PkgConfigured(true) then ReadHeader else ReadAgain,
            false, a.archive, VersionOf(spec.kind, b), 0, 1, 1)
  {
    var s0 := Starting(a);
    RunTwo([spec], s0, Advance, Advance);
    var s2 := Run([spec], s0, [Advance, Advance]);
    assert s2 == s0.(libs := [Lib([a], Some(a.archive), None, None)], phase := ReadVersion, held := a.archive);
    RunTwo([spec], s2, Install(0, b), Advance);
    assert [a] + [b] == [a, b];
    RunConcat([spec], s0, [Advance, Advance], [Install(0, b), Advance]);
  }

  /** The rest: `h` is installed and its header read where it is checked, then `a` is put back and read again. */
  lemma PutsBack(spec: Spec, a: Package, b: Package, h: Package) returns (events: seq<Event>)
    requires Confusable(spec, a, b, h)
    ensures From(p => p == a || p == b || p == h, events)
    ensures var end := Run([spec], Starting(a), events);
      && !end.panicked && end.current == 1
      && end.libs[0].history == [a, b, h, a]
      && end.libs[0].snapshot == Some(a.archive) && end.libs[0].recorded == Some(VersionOf(spec.kind, b))
  {
    var first := [Advance, Advance] + [Install(0, b), Advance];
    var s4 := Run([spec], Starting(a), first);
    ReadsOther(spec, a, b);
    var middle := if spec.kind == PkgConfigured(true) then [Install(0, h), Advance] else [Install(0, h)];
    RunTwo([spec], s4, Install(0, h), Advance);
    RunOne([spec], s4, Install(0, h));
    var s5 := Run([spec], s4, middle);
    assert [a, b] + [h] == [a, b, h];
    assert s5.libs == [Lib([a, b, h], Some(a.archive), None, None)] && s5.phase == ReadAgain && s5.held == a.archive;
    RunTwo([spec], s5, Install(0, a), Advance);
    assert [a, b, h] + [a] == [a, b, h, a];
    RunConcat([spec], Starting(a), first, middle);
    RunConcat([spec], Starting(a), first + middle, [Install(0, a), Advance]);
    events := first + middle + [Install(0, a), Advance];
  }

  /**
   Equality of the two reads is only an observation.  Exactly when no three
   packages on offer can be confused does every build record what it linked,
   whatever is installed when: a package that is replaced and then put back
   between the two reads defeats the check, for every kind of library.
   */
  lemma DescribesIffNotConfusable(offered: Package -> bool, spec: Spec)
    ensures AlwaysDescribes(offered, spec) <==>
      forall a, b, h :: offered(a) && offered(b) && offered(h) ==> !Confusable(spec, a, b, h)
  {
    if a, b, h :| offered(a) && offered(b) && offered(h) && Confusable(spec, a, b, h) {
      var events := PutsBack(spec, a, b, h);
      var l := Run([spec], Starting(a), events).libs[0];
      assert forall k :: 0 <= k < |l.history| ==> l.history[k] == a || l.history[k] == b || l.history[k] == h;
      assert !Described(spec, l);
    } else if !AlwaysDescribes(offered, spec) {
      var p, events :| offered(p) && From(offered, events)
        && var end := Run([spec], Starting(p), events);
           !end.panicked && end.current == 1
           && !(end.libs[0].recorded.Some? && end.libs[0].snapshot.Some? && Described(spec, end.libs[0]));
      var a, b, h := ConfusedBuild(offered, spec, p, events);
    }
  }

  /** The smallest case: two packages with different archives and versions, the accepted one installed in between. */
  lemma RevertDefeatsSnapshot(spec: Spec, a: Package, b: Package)
    requires VersionPasses(spec, VersionOf(spec.kind, b)) && VersionOf(spec.kind, b) == spec.before
    requires spec.kind == PkgConfigured(true) ==> spec.same(b.header, spec.before)
    requires a.archive != b.archive && VersionOf(spec.kind, a) != VersionOf(spec.kind, b)
    ensures Confusable(spec, a, b, b)
    ensures !AlwaysDescribes(Either(a, b), spec)
  {
    var offered := Either(a, b);
    DescribesIffNotConfusable(offered, spec);
    assert offered(a) && offered(b) && Confusable(spec, a, b, b);
  }

  function Either(a: Package, b: Package): (offered: Package -> bool) {
    p => p == a || p == b
  }
}
