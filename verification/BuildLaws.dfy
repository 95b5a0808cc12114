/** No stale output: what a cached build reuses or writes is the fresh module of the inputs it read. */
module BuildLaws {
  import opened Sequences
  import opened Fingerprints
  import opened BuildCaches
  import opened BuildSteps

  // ----- What was read when -----

  /** `inputs` were read one a moment from `t` on. */
  predicate ReadFrom(m: seq<Moment>, t: nat, inputs: seq<Input>) {
    && t + |inputs| <= |m|
    && forall i :: 0 <= i < |inputs| ==> Lookup(m[t + i].disk, inputs[i].path) == Some(inputs[i].bytes)
  }

  /** `bundle` was loaded from `t` on: the lock file, then the documents the loader asks for. */
  predicate LoadedFrom(tools: Tools, m: seq<Moment>, t: nat, bundle: Bundle) {
    && t < |m| && Lookup(m[t].disk, tools.LockPath()) == bundle.lock
    && ReadFrom(m, t + 1, bundle.documents) && Follows(tools, bundle)
  }

  /** The moment at which a snapshot taken from `t` on sees whether there is a lock file. */
  function LockSeen(t: nat, s: Snapshot): nat {
    t + 1 + |s.bundle.documents|
  }

  predicate SnapshotFrom(tools: Tools, m: seq<Moment>, t: nat, s: Snapshot) {
    && LoadedFrom(tools, m, t, s.bundle)
    && LockSeen(t, s) < |m| && ReadFrom(m, LockSeen(t, s) + 1, s.files)
    && (tools.LockPath() in m[LockSeen(t, s)].disk ==> s.files != [] && s.files[0].path == tools.LockPath())
    && s.sorted == Sorted(tools.machine.le, s.bundle.documents + s.files)
  }

  lemma ReadFromPush(m: seq<Moment>, t: nat, inputs: seq<Input>, x: Input)
    requires ReadFrom(m, t, inputs) && t + |inputs| < |m| && Lookup(m[t + |inputs|].disk, x.path) == Some(x.bytes)
    ensures ReadFrom(m, t, inputs + [x])
  {
  }

  /** A document asked for next keeps every document asked for in its turn. */
  lemma AskedFor(tools: Tools, bundle: Bundle, document: Input)
    requires forall i :: 0 <= i < |bundle.documents| ==> tools.Answers(Upto(bundle, i), bundle.documents[i])
    requires tools.Answers(bundle, document)
    ensures var more := bundle.(documents := bundle.documents + [document]);
            forall i :: 0 <= i < |more.documents| ==> tools.Answers(Upto(more, i), more.documents[i])
  {
    var more := bundle.(documents := bundle.documents + [document]);
    forall i | 0 <= i < |more.documents|
      ensures tools.Answers(Upto(more, i), more.documents[i])
    {
      if i < |bundle.documents| {
        assert Upto(more, i) == Upto(bundle, i);
      } else {
        assert Upto(more, i) == bundle;
      }
    }
  }

  lemma {:induction false} LoadedOnReads(tools: Tools, m: seq<Moment>, t: nat, bundle: Bundle, at: nat)
    requires t < at == t + 1 + |bundle.documents| <= |m| && ReadFrom(m, t + 1, bundle.documents)
    requires forall i :: 0 <= i < |bundle.documents| ==> tools.Answers(Upto(bundle, i), bundle.documents[i])
    ensures var (loaded, to) := LoadedOn(tools, m, at, bundle);
            loaded.Got? ==>
              && loaded.value.lock == bundle.lock && to == t + 1 + |loaded.value.documents|
              && ReadFrom(m, t + 1, loaded.value.documents) && Follows(tools, loaded.value)
    decreases |m| - at
  {
    match tools.Next(bundle)
    case Complete =>
    case Refuse =>
    case Read(path, pin) =>
      if at < |m| && Lookup(m[at].disk, path).Some? && tools.Accepts(pin, Lookup(m[at].disk, path).value) {
        var document := Input(path, Lookup(m[at].disk, path).value);
        var more := bundle.(documents := bundle.documents + [document]);
        ReadFromPush(m, t + 1, bundle.documents, document);
        AskedFor(tools, bundle, document);
        hide ReadFrom, Follows;
        LoadedOnReads(tools, m, t, more, at + 1);
      }
  }

  lemma LoadedReads(tools: Tools, m: seq<Moment>, t: nat)
    requires t <= |m|
    ensures var (loaded, to) := LoadedAt(tools, m, t);
            loaded.Got? ==> LoadedFrom(tools, m, t, loaded.value) && to == t + 1 + |loaded.value.documents|
  {
    if t < |m| {
      LoadedOnReads(tools, m, t, Bundle(Lookup(m[t].disk, tools.LockPath()), []), t + 1);
    }
  }

  lemma {:induction false} FilesOnReads(m: seq<Moment>, t: nat, at: nat, paths: seq<Slice>, files: seq<Input>)
    requires at == t + |files| <= |m| && ReadFrom(m, t, files)
    ensures var (read, to) := FilesOn(m, at, paths, files);
            read.Got? ==>
              && ReadFrom(m, t, read.value) && to == t + |read.value| && files <= read.value
              && (paths != [] ==> |read.value| > |files| && read.value[|files|].path == paths[0])
    decreases |paths|
  {
    if paths != [] && at < |m| && Lookup(m[at].disk, paths[0]).Some? {
      var file := Input(paths[0], Lookup(m[at].disk, paths[0]).value);
      ReadFromPush(m, t, files, file);
      hide ReadFrom;
      FilesOnReads(m, t, at + 1, paths[1..], files + [file]);
    }
  }

  lemma SnapshotReads(tools: Tools, configFiles: seq<Slice>, m: seq<Moment>, t: nat)
    requires t <= |m|
    ensures var (taken, to) := SnapshotAt(tools, configFiles, m, t);
            taken.Got? ==>
              SnapshotFrom(tools, m, t, taken.value) && to == LockSeen(t, taken.value) + 1 + |taken.value.files|
  {
    LoadedReads(tools, m, t);
    var (loaded, c) := LoadedAt(tools, m, t);
    hide LoadedAt, LoadedFrom, ReadFrom;
    if loaded.Got? && c < |m| {
      NothingRead(m, c + 1);
      FilesOnReads(m, c + 1, c + 1, FilePaths(tools, configFiles, m[c].disk), []);
    }
  }

  lemma NothingRead(m: seq<Moment>, t: nat)
    requires t <= |m|
    ensures ReadFrom(m, t, [])
  {
  }

  // ----- What a snapshot names -----

  /** Whether the digest of `inputs` depends on the file at `path`. */
  predicate IsNamed(tools: Tools, inputs: seq<Input>, path: Slice) {
    path == tools.LockPath() || FirstBytes(inputs, path).Some?
  }

  lemma {:induction false} FirstIsAnEntry(inputs: seq<Input>, path: Slice) returns (i: nat)
    requires FirstBytes(inputs, path).Some?
    ensures i < |inputs| && inputs[i] == Input(path, FirstBytes(inputs, path).value)
    ensures forall j :: 0 <= j < i ==> inputs[j].path != path
  {
    if inputs[0].path == path {
      i := 0;
    } else {
      i := FirstIsAnEntry(inputs[1..], path);
      i := i + 1;
    }
  }

  lemma {:induction false} PresentIsFound(inputs: seq<Input>, i: nat)
    requires i < |inputs|
    ensures FirstBytes(inputs, inputs[i].path).Some?
  {
    if i > 0 {
      PresentIsFound(inputs[1..], i - 1);
    }
  }

  /** A snapshot read what it names: a path's bytes, or the lock file's absence. */
  lemma NamedWasRead(tools: Tools, m: seq<Moment>, t: nat, to: nat, s: Snapshot, path: Slice) returns (k: nat)
    requires TotalOrder(tools.machine.le) && SnapshotFrom(tools, m, t, s) && to == LockSeen(t, s) + 1 + |s.files|
    requires IsNamed(tools, s.sorted, path)
    ensures t < k < to && k < |m| && Lookup(m[k].disk, path) == FirstBytes(s.sorted, path)
  {
    var documents, files := s.bundle.documents, s.files;
    var chain := documents + files;
    SortedKeepsBytes(tools.machine.le, chain, path);
    hide TotalOrder, Sorted, Follows;
    if FirstBytes(chain, path).Some? {
      var i := FirstIsAnEntry(chain, path);
      k := if i < |documents| then t + 1 + i else LockSeen(t, s) + 1 + (i - |documents|);
      if i < |documents| {
        assert chain[i] == documents[i];
      } else {
        assert chain[i] == files[i - |documents|];
      }
    } else {
      k := LockSeen(t, s);
      if tools.LockPath() in m[k].disk {
        assert chain[|documents|] == files[0];
        PresentIsFound(chain, |documents|);
      }
    }
  }

  // ----- Renders between two snapshots -----

  /** Content that the file at `path` changed away from does not come back in the moments from `from` to `to`. */
  predicate Steady(m: seq<Moment>, from: nat, to: nat, path: Slice) {
    forall i, j, k | from <= i <= j <= k < to && k < |m| && Lookup(m[i].disk, path) == Lookup(m[k].disk, path) ::
      Lookup(m[j].disk, path) == Lookup(m[i].disk, path)
  }

  /** Nor does that of any file that the digest of `inputs` depends on. */
  ghost predicate NamedSteady(tools: Tools, m: seq<Moment>, from: nat, to: nat, inputs: seq<Input>) {
    forall path :: IsNamed(tools, inputs, path) ==> Steady(m, from, to, path)
  }

  /** Two snapshots with the same inputs, the moments they span, and a render between them. */
  datatype Between = Between(tools: Tools, m: seq<Moment>, s0: nat, s: Snapshot, r0: nat, rendered: Bundle, a0: nat, a: Snapshot) {
    function SnapshotEnd(): nat {
      LockSeen(s0, s) + 1 + |s.files|
    }

    function RenderEnd(): nat {
      r0 + 1 + |rendered.documents|
    }

    function AfterEnd(): nat {
      LockSeen(a0, a) + 1 + |a.files|
    }

    predicate IsBetween() {
      && SnapshotFrom(tools, m, s0, s) && LoadedFrom(tools, m, r0, rendered) && SnapshotFrom(tools, m, a0, a)
      && SnapshotEnd() <= r0 && RenderEnd() <= a0 && s.sorted == a.sorted
    }
  }

  /** What a moment between the snapshots, or at the start of the second, held of a path they name. */
  lemma NamedBetween(b: Between, path: Slice, j: nat)
    requires TotalOrder(b.tools.machine.le) && b.IsBetween() && NamedSteady(b.tools, b.m, b.s0, b.AfterEnd(), b.s.sorted)
    requires IsNamed(b.tools, b.s.sorted, path) && b.SnapshotEnd() <= j <= b.a0
    ensures Lookup(b.m[j].disk, path) == FirstBytes(b.s.sorted, path)
  {
    var i := NamedWasRead(b.tools, b.m, b.s0, b.SnapshotEnd(), b.s, path);
    var k := NamedWasRead(b.tools, b.m, b.a0, b.AfterEnd(), b.a, path);
    hide SnapshotFrom, LoadedFrom, IsNamed, TotalOrder;
    assert Steady(b.m, b.s0, b.AfterEnd(), path);
  }

  /** What a load between the snapshots found at a path they name. */
  predicate FindsNamed(inputs: seq<Input>, read: Input) {
    FirstBytes(inputs, read.path).Some? ==> FirstBytes(inputs, read.path) == Some(read.bytes)
  }

  /** The first of the documents at a path is what the snapshot's digest names there. */
  lemma DocumentIsNamed(tools: Tools, s: Snapshot, i: nat)
    requires TotalOrder(tools.machine.le) && s.sorted == Sorted(tools.machine.le, s.bundle.documents + s.files)
    requires i < |s.bundle.documents|
    ensures var document := s.bundle.documents[i];
            && FirstBytes(s.sorted, document.path).Some?
            && (FirstBytes(s.bundle.documents[..i], document.path).None? ==>
                  FirstBytes(s.sorted, document.path) == Some(document.bytes))
  {
    var documents := s.bundle.documents;
    var chain := documents + s.files;
    SortedKeepsBytes(tools.machine.le, chain, documents[i].path);
    hide TotalOrder, Sorted;
    assert chain[i] == documents[i];
    PresentIsFound(chain, i);
    if FirstBytes(documents[..i], documents[i].path).None? {
      assert chain == documents[..i] + [documents[i]] + chain[i + 1..];
      FirstBytesAppend(documents[..i], documents[i], documents[i].path);
      FirstBytesStand(documents[..i] + [documents[i]], chain[i + 1..], documents[i].path);
    }
  }

  lemma {:induction false} FirstBytesStand(a: seq<Input>, b: seq<Input>, path: Slice)
    requires FirstBytes(a, path).Some?
    ensures FirstBytes(a + b, path) == FirstBytes(a, path)
  {
    assert (a + b)[0] == a[0];
    if a[0].path != path {
      assert (a + b)[1..] == a[1..] + b;
      FirstBytesStand(a[1..], b, path);
    }
  }

  /**
   * A load that finds the named bytes at every path that a snapshot names reads the snapshot's own
   * documents: what it reads again it is pinned to, and so was the snapshot.
   */
  lemma {:induction false} LoadedDocuments(tools: Tools, loaded: Bundle, s: Snapshot, i: nat)
    requires Sound(tools.machine) && Follows(tools, loaded) && Follows(tools, s.bundle) && loaded.lock == s.bundle.lock
    requires s.sorted == Sorted(tools.machine.le, s.bundle.documents + s.files)
    requires forall j :: 0 <= j < |loaded.documents| ==> FindsNamed(s.sorted, loaded.documents[j])
    requires i <= |loaded.documents|
    ensures i <= |s.bundle.documents| && loaded.documents[..i] == s.bundle.documents[..i]
  {
    if i > 0 {
      LoadedDocuments(tools, loaded, s, i - 1);
      var named, before := s.bundle, Upto(loaded, i - 1);
      assert before == Upto(named, i - 1);
      assert Upto(named, |named.documents|) == named;
      assert tools.Answers(before, loaded.documents[i - 1]);
      assert i <= |named.documents| && tools.Answers(before, named.documents[i - 1]);
      DocumentIsNamed(tools, s, i - 1);
      assert FindsNamed(s.sorted, loaded.documents[i - 1]);
      if FirstBytes(before.documents, loaded.documents[i - 1].path).Some? {
        RereadIsPinned(tools, before);
      }
      assert loaded.documents[..i] == loaded.documents[..i - 1] + [loaded.documents[i - 1]];
      assert named.documents[..i] == named.documents[..i - 1] + [named.documents[i - 1]];
    }
  }

  /** A document the load read is one of the snapshot's, so the digest names it. */
  lemma LoadedIsNamed(tools: Tools, loaded: Bundle, s: Snapshot)
    requires Sound(tools.machine) && Follows(tools, loaded) && Follows(tools, s.bundle) && loaded.lock == s.bundle.lock
    requires s.sorted == Sorted(tools.machine.le, s.bundle.documents + s.files)
    requires forall j :: 0 <= j < |loaded.documents| ==> FindsNamed(s.sorted, loaded.documents[j])
    ensures forall j :: 0 <= j < |loaded.documents| ==>
              FirstBytes(s.sorted, loaded.documents[j].path) == Some(loaded.documents[j].bytes)
  {
    LoadedDocuments(tools, loaded, s, |loaded.documents|);
    forall j | 0 <= j < |loaded.documents|
      ensures FirstBytes(s.sorted, loaded.documents[j].path) == Some(loaded.documents[j].bytes)
    {
      assert loaded.documents[..|loaded.documents|][j] == s.bundle.documents[..|loaded.documents|][j];
      DocumentIsNamed(tools, s, j);
      assert FindsNamed(s.sorted, loaded.documents[j]);
    }
  }

  /**
   * A load between two snapshots of the same inputs read exactly the inputs that their digest names,
   * however files changed meanwhile, as long as no named content came back.
   */
  lemma RenderReadsWhatTheDigestNames(b: Between)
    requires Sound(b.tools.machine) && b.IsBetween() && NamedSteady(b.tools, b.m, b.s0, b.AfterEnd(), b.s.sorted)
    ensures Replays(b.tools, b.s.sorted, b.rendered)
  {
    NamedBetween(b, b.tools.LockPath(), b.a0);
    NamedBetween(b, b.tools.LockPath(), b.r0);
    forall j | 0 <= j < |b.rendered.documents|
      ensures FindsNamed(b.s.sorted, b.rendered.documents[j])
    {
      if FirstBytes(b.s.sorted, b.rendered.documents[j].path).Some? {
        NamedBetween(b, b.rendered.documents[j].path, b.r0 + 1 + j);
      }
    }
    hide NamedSteady, ReadFrom, FindsNamed, Sorted, Sound, Follows;
    LoadedIsNamed(b.tools, b.rendered, b.a);
  }

  // ----- One build -----

  /** The module a fresh build of `inputs` writes. */
  ghost predicate IsFresh(tools: Tools, inputs: seq<Input>, written: Bytes) {
    exists rendered :: FreshModule(tools, inputs, rendered) && written == Finalized(tools, rendered, Digest(tools, inputs))
  }

  /** A record names inputs and the content digest of their fresh module, under whichever identity they were built. */
  ghost predicate Truthful(machine: Machine, record: Option<Record>) {
    record.Some? ==> exists identity, inputs, rendered :: Records(Tools(machine, identity), inputs, rendered, record.value)
  }

  ghost predicate Records(tools: Tools, inputs: seq<Input>, rendered: Bytes, record: Record) {
    FreshModule(tools, inputs, rendered) && record == Record(Digest(tools, inputs), tools.machine.hash(rendered))
  }

  /** An output that verifies under a truthful record is the fresh module of the inputs digested. */
  lemma CachedOutputIsFresh(tools: Tools, record: Record, inputs: seq<Input>, output: Bytes, content: Bytes)
    requires Sound(tools.machine) && Truthful(tools.machine, Some(record))
    requires VerifiedOutput(tools, Some(output), Digest(tools, inputs)) == Some(content)
    requires record == Record(Digest(tools, inputs), content)
    ensures IsFresh(tools, inputs, output)
  {
    var identity, named, rendered :| Records(Tools(tools.machine, identity), named, rendered, record);
    DigestIsInjective(Tools(tools.machine, identity), named, tools, inputs);
    VerifiedOutputAcceptsFinalized(tools, output, Digest(tools, inputs), content);
    var body :| output == Finalized(tools, body, Digest(tools, inputs)) && content == tools.machine.hash(body);
    assert tools.machine.hash(body) == tools.machine.hash(rendered);
  }

  /**
   * The condition on a build that wrote a module: from its first snapshot to its second no content
   * came back of a file the digest depends on.
   */
  ghost predicate IsSteady(tools: Tools, m: seq<Moment>, ending: Ending) {
    ending.outcome.Generated? && ending.evidence.Some? ==>
      var e := ending.evidence.value;
      NamedSteady(tools, m, e.from, e.to, e.snapshot.sorted)
  }

  /** What an ending rests on: a written or reused module is fresh, and the record is as truthful as it was. */
  ghost predicate IsSafe(tools: Tools, m: seq<Moment>, record: Option<Record>, ending: Ending) {
    && (ending.outcome.Cached? || ending.outcome.Generated? ==>
          && ending.evidence.Some?
          && SnapshotFrom(tools, m, ending.evidence.value.from, ending.evidence.value.snapshot))
    && (ending.outcome.Cached? && Truthful(tools.machine, record) ==>
          IsFresh(tools, ending.evidence.value.snapshot.sorted, ending.outcome.output))
    && (ending.outcome.Generated? && IsSteady(tools, m, ending) ==>
          IsFresh(tools, ending.evidence.value.snapshot.sorted, ending.outcome.written))
    && (Truthful(tools.machine, record) && IsSteady(tools, m, ending) ==> Truthful(tools.machine, ending.record))
  }

  lemma NothingIsTruthful(machine: Machine)
    ensures Truthful(machine, None)
  {
  }

  /** A render every load of which reads the inputs gives their fresh module. */
  lemma RenderedIsFresh(tools: Tools, inputs: seq<Input>, loads: seq<Bundle>, rendered: Bytes)
    requires RendersBy(tools, loads, rendered) && forall j :: 0 <= j < |loads| ==> Replays(tools, inputs, loads[j])
    ensures IsFresh(tools, inputs, Finalized(tools, rendered, Digest(tools, inputs)))
    ensures Truthful(tools.machine, Some(Record(Digest(tools, inputs), tools.machine.hash(rendered))))
  {
    hide Replays, Finalized, Digest;
    forall j | 0 <= j < |loads|
      ensures loads[j] == loads[0]
    {
      ReplayIsUnique(tools, inputs, loads[0], loads[j]);
    }
    assert loads == Repeated(loads[0], |loads|);
    assert IsFreshBy(tools, inputs, rendered, loads[0], |loads|);
    assert FreshModule(tools, inputs, rendered);
    assert Records(Tools(tools.machine, tools.identity), inputs, rendered, Record(Digest(tools, inputs), tools.machine.hash(rendered)));
  }

  /** `bundle` was loaded within the moments from `from` to `to`. */
  predicate LoadedWithin(tools: Tools, m: seq<Moment>, from: nat, to: nat, bundle: Bundle) {
    exists r :: from <= r && r + 1 + |bundle.documents| <= to && LoadedFrom(tools, m, r, bundle)
  }

  lemma {:induction false} RenderedOnReads(tools: Tools, m: seq<Moment>, t: nat, loads: seq<Bundle>, from: nat)
    returns (all: seq<Bundle>)
    requires from <= t <= |m| && RenderedOn(tools, m, t, loads).0.Got?
    requires forall k :: 0 < k <= |loads| ==> tools.Render(loads[..k]) == Again
    requires forall j :: 0 <= j < |loads| ==> LoadedWithin(tools, m, from, t, loads[j])
    ensures var (rendered, to) := RenderedOn(tools, m, t, loads);
            && RendersBy(tools, all, rendered.value)
            && forall j :: 0 <= j < |all| ==> LoadedWithin(tools, m, from, to, all[j])
    decreases |m| - t
  {
    LoadedReads(tools, m, t);
    var (loaded, r) := LoadedAt(tools, m, t);
    hide LoadedAt, LoadedFrom;
    var more := loads + [loaded.value];
    forall j | 0 <= j < |more|
      ensures LoadedWithin(tools, m, from, r, more[j])
    {
      if j < |loads| {
        var q :| from <= q && q + 1 + |loads[j].documents| <= t && LoadedFrom(tools, m, q, loads[j]);
      }
    }
    hide LoadedWithin;
    assert forall k :: 0 < k <= |loads| ==> more[..k] == loads[..k];
    assert more[..|more|] == more;
    match tools.Render(more)
    case Again => all := RenderedOnReads(tools, m, r, more, from);
    case Rejects =>
    case Module(_) => all := more;
  }

  /** `load` lies between the two snapshots. */
  ghost predicate IsLoadBetween(tools: Tools, m: seq<Moment>, s0: nat, s: Snapshot, a0: nat, a: Snapshot, load: Bundle) {
    exists r0 :: Between(tools, m, s0, s, r0, load, a0, a).IsBetween()
  }

  /** Where a round finds the inputs as they were, every load of its render lies between two snapshots of them. */
  lemma AgreedIsBetween(tools: Tools, configFiles: seq<Slice>, m: seq<Moment>, from: nat, t: nat, current: Snapshot)
    returns (loads: seq<Bundle>)
    requires Sound(tools.machine) && t <= |m| && SnapshotFrom(tools, m, from, current)
    requires LockSeen(from, current) + 1 + |current.files| <= t && RoundAt(tools, configFiles, m, t, current).0.Agreed?
    ensures var (end, to) := RoundAt(tools, configFiles, m, t, current);
            && RendersBy(tools, loads, end.rendered)
            && to == LockSeen(end.from, end.after) + 1 + |end.after.files|
            && forall j :: 0 <= j < |loads| ==> IsLoadBetween(tools, m, from, current, end.from, end.after, loads[j])
  {
    hide RenderedOn, SnapshotAt, SnapshotFrom, LoadedFrom, LoadedWithin, RendersBy, Sound, Digest;
    var (end, to) := RoundAt(tools, configFiles, m, t, current);
    var r := RenderedOn(tools, m, t, []).1;
    SnapshotReads(tools, configFiles, m, r + 1);
    DigestIsInjective(tools, current.sorted, tools, end.after.sorted);
    loads := RenderedOnReads(tools, m, t, [], t);
    hide RoundAt;
    forall j | 0 <= j < |loads|
      ensures IsLoadBetween(tools, m, from, current, end.from, end.after, loads[j])
    {
      LoadIsBetween(tools, m, from, current, t, r, end.from, end.after, loads[j]);
    }
  }

  lemma LoadIsBetween(tools: Tools, m: seq<Moment>, s0: nat, s: Snapshot, from: nat, to: nat, a0: nat, a: Snapshot, load: Bundle)
    requires SnapshotFrom(tools, m, s0, s) && SnapshotFrom(tools, m, a0, a) && s.sorted == a.sorted
    requires LockSeen(s0, s) + 1 + |s.files| <= from && to <= a0 && LoadedWithin(tools, m, from, to, load)
    ensures IsLoadBetween(tools, m, s0, s, a0, a, load)
  {
    hide SnapshotFrom, LoadedFrom;
    var r0 :| from <= r0 && r0 + 1 + |load.documents| <= to && LoadedFrom(tools, m, r0, load);
    assert Between(tools, m, s0, s, r0, load, a0, a).IsBetween();
  }

  lemma ChangedIsSnapshot(tools: Tools, configFiles: seq<Slice>, m: seq<Moment>, t: nat, current: Snapshot)
    requires t <= |m| && RoundAt(tools, configFiles, m, t, current).0.Changed?
    ensures var (end, to) := RoundAt(tools, configFiles, m, t, current);
            SnapshotFrom(tools, m, end.from, end.after) && to == LockSeen(end.from, end.after) + 1 + |end.after.files|
  {
    var r := RenderedOn(tools, m, t, []).1;
    if r < |m| {
      SnapshotReads(tools, configFiles, m, r + 1);
    }
    hide RenderedOn, SnapshotAt, SnapshotFrom;
  }

  lemma StoredIsSafe(tools: Tools, build: Build, e: Evidence, loads: seq<Bundle>, a0: nat, rendered: Bytes,
                     record: Option<Record>, kept: Option<Record>)
    requires Sound(tools.machine) && RendersBy(tools, loads, rendered) && SnapshotFrom(tools, build.moments, e.from, e.snapshot)
    requires e.to == LockSeen(a0, e.after) + 1 + |e.after.files| <= |build.moments| && (kept == record || kept == None)
    requires forall j :: 0 <= j < |loads| ==> IsLoadBetween(tools, build.moments, e.from, e.snapshot, a0, e.after, loads[j])
    ensures var (outcome, stored) := StoredAt(tools, build.hasCacheDir, build.moments, e.to, kept, e.snapshot.sorted, rendered);
            IsSafe(tools, build.moments, record, Ending(outcome, stored, Some(e)))
  {
    hide SnapshotFrom, LoadedFrom, Finalized, Digest, NamedSteady, RendersBy;
    NothingIsTruthful(tools.machine);
    if NamedSteady(tools, build.moments, e.from, e.to, e.snapshot.sorted) {
      forall j | 0 <= j < |loads|
        ensures Replays(tools, e.snapshot.sorted, loads[j])
      {
        var r0 :| Between(tools, build.moments, e.from, e.snapshot, r0, loads[j], a0, e.after).IsBetween();
        RenderReadsWhatTheDigestNames(Between(tools, build.moments, e.from, e.snapshot, r0, loads[j], a0, e.after));
      }
      hide IsLoadBetween;
      RenderedIsFresh(tools, e.snapshot.sorted, loads, rendered);
    }
    hide Sound, IsFresh, Truthful, Replays, IsLoadBetween;
  }

  lemma {:induction false} RoundsAreSafe(tools: Tools, build: Build, rounds: nat, t: nat, from: nat, current: Snapshot,
                                         record: Option<Record>, kept: Option<Record>)
    requires Sound(tools.machine) && t <= |build.moments| && SnapshotFrom(tools, build.moments, from, current)
    requires LockSeen(from, current) + 1 + |current.files| <= t && (kept == record || kept == None)
    ensures IsSafe(tools, build.moments, record, RoundsAt(tools, build, rounds, t, from, current, kept))
    decreases rounds
  {
    hide SnapshotFrom, RoundAt, StoredAt, RendersBy, IsLoadBetween, IsFresh, Truthful, Sound, NamedSteady;
    var m := build.moments;
    NothingIsTruthful(tools.machine);
    if rounds > 0 {
      var (end, to) := RoundAt(tools, build.configFiles, m, t, current);
      var later := Kept(kept, m, t, to);
      match end
      case Ends(_) => EndsWithoutModule(tools, build.configFiles, m, t, current);
      case Changed(start, after) =>
        ChangedIsSnapshot(tools, build.configFiles, m, t, current);
        RoundsAreSafe(tools, build, rounds - 1, to, start, after, record, later);
      case Agreed(rendered, start, after) =>
        var loads := AgreedIsBetween(tools, build.configFiles, m, from, t, current);
        StoredIsSafe(tools, build, Evidence(from, to, current, after), loads, start, rendered, record, later);
    }
  }

  lemma EndsWithoutModule(tools: Tools, configFiles: seq<Slice>, m: seq<Moment>, t: nat, current: Snapshot)
    requires t <= |m| && RoundAt(tools, configFiles, m, t, current).0.Ends?
    ensures var outcome := RoundAt(tools, configFiles, m, t, current).0.outcome; outcome.Rejected? || outcome.Crashed?
  {
    hide RenderedOn, SnapshotAt, Digest;
  }

  lemma HitIsSafe(tools: Tools, m: seq<Moment>, t: nat, from: nat, record: Option<Record>, kept: Option<Record>, current: Snapshot, later: Option<Record>)
    requires Sound(tools.machine) && t <= |m| && SnapshotFrom(tools, m, from, current) && (kept == record || kept == None)
    requires HitAt(tools, m, t, kept, current.sorted).0.Some? && (later == record || later == None)
    ensures IsSafe(tools, m, record, Ending(HitAt(tools, m, t, kept, current.sorted).0.value, later, Some(Evidence(from, t, current, current))))
  {
    hide SnapshotFrom, VerifiedOutput, Digest, IsFresh, Truthful, Sound;
    NothingIsTruthful(tools.machine);
    var outcome := HitAt(tools, m, t, kept, current.sorted).0.value;
    if outcome.Cached? && Truthful(tools.machine, record) {
      var content := VerifiedOutput(tools, m[t].output, Digest(tools, current.sorted)).value;
      OutputIsThere(tools, m[t].output, Digest(tools, current.sorted));
      CachedOutputIsFresh(tools, Record(Digest(tools, current.sorted), content), current.sorted, outcome.output, content);
    }
  }

  lemma OutputIsThere(tools: Tools, output: Option<Bytes>, inputDigest: Bytes)
    requires VerifiedOutput(tools, output, inputDigest).Some?
    ensures output.Some?
  {
  }

  /**
   * A build reuses or writes only the fresh module of inputs it read, and leaves a truthful record,
   * through edits, deletions, failed writes and being killed at any step.
   */
  lemma BuildIsSafe(machine: Machine, build: Build, record: Option<Record>)
    requires Sound(machine)
    ensures IsSafe(Tools(machine, build.identity), build.moments, record, Built(machine, build, record))
  {
    var tools, m := Tools(machine, build.identity), build.moments;
    SnapshotReads(tools, build.configFiles, m, 0);
    NothingIsTruthful(machine);
    hide SnapshotAt, SnapshotFrom, HitAt, RoundsAt, IsFresh, Truthful, Sound, NamedSteady;
    var (taken, t) := SnapshotAt(tools, build.configFiles, m, 0);
    if taken.Got? {
      var current, kept := taken.value, Kept(record, m, 0, t);
      if !build.hasCacheDir {
        RoundsAreSafe(tools, build, 3, t, 0, current, record, kept);
      } else {
        var (hit, h) := HitAt(tools, m, t, kept, current.sorted);
        if hit.Some? {
          HitIsSafe(tools, m, t, 0, record, kept, current, Kept(record, m, 0, h));
        } else {
          RoundsAreSafe(tools, build, 3, h, 0, current, record, Kept(record, m, 0, h));
        }
      }
    }
  }

  // ----- Builds after each other -----

  /** How builds end that follow each other with one output and one record. */
  function Builds(machine: Machine, builds: seq<Build>, record: Option<Record>): (endings: seq<Ending>)
    ensures |endings| == |builds|
  {
    if builds == [] then []
    else
      var first := Built(machine, builds[0], record);
      [first] + Builds(machine, builds[1..], first.record)
  }

  /** What was reused or written is the fresh module of the inputs of a snapshot that the build took. */
  ghost predicate NotStale(tools: Tools, m: seq<Moment>, ending: Ending) {
    ending.outcome.Cached? || ending.outcome.Generated? ==>
      && ending.evidence.Some?
      && var e := ending.evidence.value;
         SnapshotFrom(tools, m, e.from, e.snapshot)
         && IsFresh(tools, e.snapshot.sorted, if ending.outcome.Cached? then ending.outcome.output else ending.outcome.written)
  }

  ghost predicate SteadyUpto(machine: Machine, builds: seq<Build>, endings: seq<Ending>, i: nat)
    requires i < |builds| == |endings|
  {
    forall j :: 0 <= j <= i ==> IsSteady(Tools(machine, builds[j].identity), builds[j].moments, endings[j])
  }

  /**
   * Any number of builds after each other, each as whatever version and configuration, with files
   * edited, the record deleted, writes failing and the build killed at any of their steps: as long as
   * no build up to it wrote while a named file's content came back, a build reuses or writes only the
   * fresh module of inputs that it read itself.
   */
  lemma {:induction false} NoStaleOutput(machine: Machine, builds: seq<Build>, record: Option<Record>, i: nat)
    requires Sound(machine) && Truthful(machine, record) && i < |builds|
    requires SteadyUpto(machine, builds, Builds(machine, builds, record), i)
    ensures NotStale(Tools(machine, builds[i].identity), builds[i].moments, Builds(machine, builds, record)[i])
  {
    hide IsSteady, IsFresh, Truthful, Sound, SnapshotFrom, Built;
    var endings, first, rest := Builds(machine, builds, record), Built(machine, builds[0], record), builds[1..];
    assert endings[0] == first && endings[1..] == Builds(machine, rest, first.record);
    assert IsSteady(Tools(machine, builds[0].identity), builds[0].moments, endings[0]);
    BuildIsSafe(machine, builds[0], record);
    if i > 0 {
      forall j | 0 <= j <= i - 1
        ensures IsSteady(Tools(machine, rest[j].identity), rest[j].moments, endings[1..][j])
      {
        assert rest[j] == builds[j + 1] && endings[1..][j] == endings[j + 1];
      }
      NoStaleOutput(machine, rest, first.record, i - 1);
      assert endings[1..][i - 1] == endings[i] && rest[i - 1] == builds[i];
    } else {
      SteadyIsNotStale(Tools(machine, builds[0].identity), builds[0].moments, record, first);
    }
  }

  lemma SteadyIsNotStale(tools: Tools, m: seq<Moment>, record: Option<Record>, ending: Ending)
    requires IsSafe(tools, m, record, ending) && Truthful(tools.machine, record) && IsSteady(tools, m, ending)
    ensures NotStale(tools, m, ending)
  {
    hide IsFresh, Truthful, SnapshotFrom, IsSteady;
  }

  // ----- An unchanged rebuild is a hit -----

  /** A build that wrote its module and its record: both name what was rendered of the inputs it read. */
  predicate Wrote(tools: Tools, hasCacheDir: bool, ending: Ending, rendered: Bytes) {
    && ending.outcome.Generated? && ending.evidence.Some?
    && var digest := Digest(tools, ending.evidence.value.snapshot.sorted);
       && ending.outcome.written == Finalized(tools, rendered, digest)
       && (hasCacheDir ==> ending.record == Some(Record(digest, tools.machine.hash(rendered))))
  }

  lemma {:induction false} RoundsWrite(tools: Tools, build: Build, rounds: nat, t: nat, from: nat, current: Snapshot, record: Option<Record>)
    returns (rendered: Bytes)
    requires t <= |build.moments| && RoundsAt(tools, build, rounds, t, from, current, record).outcome.Generated?
    ensures Wrote(tools, build.hasCacheDir, RoundsAt(tools, build, rounds, t, from, current, record), rendered)
    decreases rounds
  {
    hide RoundAt, Kept, Finalized, Digest;
    var (end, to) := RoundAt(tools, build.configFiles, build.moments, t, current);
    match end
    case Ends(_) =>
      EndsWithoutModule(tools, build.configFiles, build.moments, t, current);
    case Changed(start, after) =>
      rendered := RoundsWrite(tools, build, rounds - 1, to, start, after, Kept(record, build.moments, t, to));
    case Agreed(found, _, _) =>
      rendered := found;
  }

  lemma BuildWrites(machine: Machine, build: Build, record: Option<Record>) returns (rendered: Bytes)
    requires Built(machine, build, record).outcome.Generated?
    ensures Wrote(Tools(machine, build.identity), build.hasCacheDir, Built(machine, build, record), rendered)
  {
    hide SnapshotAt, RoundsAt, VerifiedOutput, Kept, Wrote;
    var tools, m := Tools(machine, build.identity), build.moments;
    var (taken, t) := SnapshotAt(tools, build.configFiles, m, 0);
    var current, kept := taken.value, Kept(record, m, 0, t);
    if !build.hasCacheDir {
      rendered := RoundsWrite(tools, build, 3, t, 0, current, kept);
    } else {
      var h := HitAt(tools, m, t, kept, current.sorted).1;
      rendered := RoundsWrite(tools, build, 3, h, 0, current, Kept(record, m, 0, h));
    }
  }

  /** A build finds the inputs, the module and the record as an earlier one left them. */
  predicate FindsUnchanged(tools: Tools, build: Build, before: Ending) {
    && before.outcome.Generated? && before.evidence.Some?
    && var m := build.moments;
       var (taken, t) := SnapshotAt(tools, build.configFiles, m, 0);
       && taken.Got? && t + 3 <= |m|
       && Digest(tools, taken.value.sorted) == Digest(tools, before.evidence.value.snapshot.sorted)
       && m[t].output == Some(before.outcome.written)
       && (forall k :: 0 <= k < t + 2 ==> !m[k].dropsRecord) && !m[t + 2].auditFails
  }

  /** Such a build reuses the module: no hit is missed for another reason than a change. */
  lemma UnchangedRebuildIsCached(machine: Machine, first: Build, second: Build, record: Option<Record>)
    requires Sound(machine) && first.identity == second.identity && first.hasCacheDir && second.hasCacheDir
    requires FindsUnchanged(Tools(machine, second.identity), second, Built(machine, first, record))
    ensures Built(machine, second, Built(machine, first, record).record).outcome
         == Cached(Built(machine, first, record).outcome.written)
  {
    hide Built;
    var rendered := BuildWrites(machine, first, record);
    RecordedIsHit(machine, second, Built(machine, first, record), rendered);
  }

  lemma RecordedIsHit(machine: Machine, build: Build, before: Ending, rendered: Bytes)
    requires Sound(machine) && build.hasCacheDir && Wrote(Tools(machine, build.identity), true, before, rendered)
    requires FindsUnchanged(Tools(machine, build.identity), build, before)
    ensures Built(machine, build, before.record).outcome == Cached(before.outcome.written)
  {
    var tools, m := Tools(machine, build.identity), build.moments;
    var (taken, t) := SnapshotAt(tools, build.configFiles, m, 0);
    var digest := Digest(tools, taken.value.sorted);
    VerifiedOutputAcceptsFinalized(tools, before.outcome.written, digest, machine.hash(rendered));
    hide SnapshotAt, RoundsAt, VerifiedOutput, Finalized, Digest;
    assert Kept(before.record, m, 0, t) == before.record;
    assert Kept(before.record, m, t, t + 2) == before.record;
  }

  // ----- Content that comes back -----

  /** A loader that reads one document, and a module that is that document. */
  function OneDocument(path: Slice): Machine {
    SomeMachine((_, _) => Wishes([Local(path)], true),
                (_, loads: seq<Bundle>) =>
                  if loads == [] || loads[0].documents == [] then Rejects else Module(loads[0].documents[0].bytes),
                _ => [])
  }

  function Still(disk: Disk): Moment {
    Moment(disk, None, false, false, false)
  }

  /** A build during whose render the document holds `meanwhile`, and `before` at every other moment. */
  function ChangedMeanwhile(identity: Identity, path: Slice, before: Slice, meanwhile: Slice): Build {
    var was, became := Still(map[path := before]), Still(map[path := meanwhile]);
    Build(identity, false, [], [was, was, was, became, became, was, was, was, was, was])
  }

  lemma OneDocumentNext(identity: Identity, path: Slice, lock: Option<Slice>, content: Slice)
    ensures var tools := Tools(OneDocument(path), identity);
            && tools.Next(Bundle(lock, [])) == Read(path, None)
            && tools.Next(Bundle(lock, [Input(path, content)])) == Complete
  {
    var wishes := [Local(path)];
    var documents := [Input(path, content)];
    assert wishes[1..] == [] && FirstBytes(documents, path).Some?;
    assert FirstUnread(wishes[1..], documents) == None;
    assert FirstUnread(wishes, documents) == None;
  }

  lemma OneDocumentLoads(identity: Identity, path: Slice, m: seq<Moment>, t: nat, content: Slice)
    requires path != [] && t + 2 <= |m| && m[t] == m[t + 1] == Still(map[path := content])
    ensures LoadedAt(Tools(OneDocument(path), identity), m, t) == (Got(Bundle(None, [Input(path, content)])), t + 2)
  {
    var tools := Tools(OneDocument(path), identity);
    var document := Input(path, content);
    assert [] + [document] == [document];
    OneDocumentNext(identity, path, None, content);
    assert LoadedOn(tools, m, t + 2, Bundle(None, [document])) == (Got(Bundle(None, [document])), t + 2);
    assert LoadedOn(tools, m, t + 1, Bundle(None, [])) == LoadedOn(tools, m, t + 2, Bundle(None, [document]));
  }

  lemma OneDocumentSnapshot(identity: Identity, path: Slice, m: seq<Moment>, t: nat, content: Slice)
    requires path != [] && t + 3 <= |m| && m[t] == m[t + 1] == m[t + 2] == Still(map[path := content])
    ensures var document := Input(path, content);
            SnapshotAt(Tools(OneDocument(path), identity), [], m, t)
            == (Got(Snapshot(Bundle(None, [document]), [], [document])), t + 3)
  {
    OneDocumentLoads(identity, path, m, t, content);
    hide LoadedAt;
    var le, one := OneDocument(path).le, [Input(path, content)];
    assert one + [] == one;
    assert one[..0] == [];
    assert StableSorted(le, []) == [] && Deduped(le, []) == [];
    assert Sorted(le, one) == one;
  }

  /** Such a build writes a module that is not that of the inputs its digest names: both snapshots missed the change. */
  lemma ContentThatComesBackGoesUnseen(identity: Identity, path: Slice, before: Slice, meanwhile: Slice)
    requires path != [] && before != meanwhile
    ensures var machine, build := OneDocument(path), ChangedMeanwhile(identity, path, before, meanwhile);
            var ending := Built(machine, build, None);
            && Sound(machine) && ending.outcome.Generated? && ending.evidence.Some?
            && !IsFresh(Tools(machine, identity), ending.evidence.value.snapshot.sorted, ending.outcome.written)
  {
    hide SnapshotAt, RoundAt, StoredAt, Digest, Finalized, IsFresh, RoundsAt, HitAt;
    var machine, build := OneDocument(path), ChangedMeanwhile(identity, path, before, meanwhile);
    SomeMachineIsSound(machine.wants, machine.render, machine.lockPath);
    assert machine == SomeMachine(machine.wants, machine.render, machine.lockPath);
    hide Sound, OneDocument, SomeMachine;
    var tools, m := Tools(machine, identity), build.moments;
    var inputs := [Input(path, before)];
    OneDocumentSnapshot(identity, path, m, 0, before);
    RoundAgrees(identity, path, m, before, meanwhile);
    StoresAtEnd(tools, m, inputs, meanwhile);
    OneRound(tools, build, Snapshot(Bundle(None, inputs), [], inputs), meanwhile);
    NotTheirModule(identity, path, before, meanwhile);
  }

  lemma OneRound(tools: Tools, build: Build, current: Snapshot, rendered: Bytes)
    requires |build.moments| == 10 && !build.hasCacheDir
    requires RoundAt(tools, build.configFiles, build.moments, 3, current) == (Agreed(rendered, 6, current), 9)
    ensures var m := build.moments;
            var ending := RoundsAt(tools, build, 3, 3, 0, current, Kept(None, m, 0, 3));
            && ending.outcome == StoredAt(tools, false, m, 9, Kept(Kept(None, m, 0, 3), m, 3, 9), current.sorted, rendered).0
            && ending.evidence == Some(Evidence(0, 9, current, current))
  {
    hide RoundAt, StoredAt, Kept;
  }

  lemma RoundAgrees(identity: Identity, path: Slice, m: seq<Moment>, before: Slice, meanwhile: Slice)
    requires path != [] && |m| >= 9 && m[3] == m[4] == Still(map[path := meanwhile]) && !m[5].auditFails
    requires m[6] == m[7] == m[8] == Still(map[path := before])
    ensures var current := Snapshot(Bundle(None, [Input(path, before)]), [], [Input(path, before)]);
            RoundAt(Tools(OneDocument(path), identity), [], m, 3, current) == (Agreed(meanwhile, 6, current), 9)
  {
    OneDocumentLoads(identity, path, m, 3, meanwhile);
    OneDocumentSnapshot(identity, path, m, 6, before);
    hide SnapshotAt, LoadedAt, Digest;
    assert [] + [Bundle(None, [Input(path, meanwhile)])] == [Bundle(None, [Input(path, meanwhile)])];
  }

  lemma StoresAtEnd(tools: Tools, m: seq<Moment>, inputs: seq<Input>, rendered: Bytes)
    requires |m| == 10 && !m[9].writeFails
    ensures StoredAt(tools, false, m, 9, Kept(Kept(None, m, 0, 3), m, 3, 9), inputs, rendered).0
         == Generated(Finalized(tools, rendered, Digest(tools, inputs)))
  {
    hide Finalized, Digest;
  }

  lemma NotTheirModule(identity: Identity, path: Slice, before: Slice, meanwhile: Slice)
    requires path != [] && before != meanwhile && Sound(OneDocument(path))
    ensures var tools, inputs := Tools(OneDocument(path), identity), [Input(path, before)];
            !IsFresh(tools, inputs, Finalized(tools, meanwhile, Digest(tools, inputs)))
  {
    var tools, inputs := Tools(OneDocument(path), identity), [Input(path, before)];
    var digest, bundle := Digest(tools, inputs), Bundle(None, inputs);
    var written := Finalized(tools, meanwhile, digest);
    assert Upto(bundle, 0) == Bundle(None, []);
    OneDocumentNext(identity, path, None, before);
    assert FirstBytes(inputs, path) == Some(before) && FirstBytes(inputs, []) == None by {
      assert inputs[1..] == [];
    }
    assert Replays(tools, inputs, bundle);
    assert Repeated(bundle, 1) == [bundle];
    assert IsFreshBy(tools, inputs, before, bundle, 1);
    forall rendered | FreshModule(tools, inputs, rendered)
      ensures written != Finalized(tools, rendered, digest)
    {
      FreshModuleIsUnique(tools, inputs, before, rendered);
      VerifiedOutputAcceptsFinalized(tools, written, digest, tools.machine.hash(meanwhile));
      VerifiedOutputAcceptsFinalized(tools, written, digest, tools.machine.hash(before));
    }
  }
}
