/** How a build ends, told from what the world does at each moment: its snapshots, renders, audits and writes. */
module BuildEndings {
  import opened Sequences
  import opened Fingerprints
  import opened BuildCaches
  import opened BuildSteps
  import opened BuildLaws

  // ----- Reading over moments -----

  function Paths(files: seq<Input>): seq<Slice> {
    if files == [] then [] else [files[0].path] + Paths(files[1..])
  }

  /** The inputs are read one a moment from `t` on: the bundle, a look for the lock file, that file if there is one, the config files. */
  predicate ReadsInputs(tools: Tools, configFiles: seq<Slice>, m: seq<Moment>, t: nat, s: Snapshot) {
    && LoadedFrom(tools, m, t, s.bundle)
    && LockSeen(t, s) < |m| && ReadFrom(m, LockSeen(t, s) + 1, s.files)
    && Paths(s.files) == (if tools.LockPath() in m[LockSeen(t, s)].disk then [tools.LockPath()] else []) + configFiles
    && s.sorted == Sorted(tools.machine.le, s.bundle.documents + s.files)
  }

  function InputsEnd(t: nat, s: Snapshot): nat {
    LockSeen(t, s) + 1 + |s.files|
  }

  /** The bundle is loaded for a render, once for each of `loads`. */
  predicate LoadsFrom(tools: Tools, m: seq<Moment>, t: nat, loads: seq<Bundle>)
    decreases |loads|
  {
    loads == [] || (LoadedFrom(tools, m, t, loads[0]) && LoadsFrom(tools, m, t + 1 + |loads[0].documents|, loads[1..]))
  }

  function LoadsEnd(t: nat, loads: seq<Bundle>): nat
    decreases |loads|
  {
    if loads == [] then t else LoadsEnd(t + 1 + |loads[0].documents|, loads[1..])
  }

  /** Rendering asks for the bundle `|loads|` times, and then rejects it. */
  predicate RejectsBy(tools: Tools, loads: seq<Bundle>) {
    && loads != [] && tools.Render(loads) == Rejects
    && forall k :: 0 < k < |loads| ==> tools.Render(loads[..k]) == Again
  }

  // ----- A round -----

  /** A render, and the inputs read again behind its audit. */
  datatype Round = Round(loads: seq<Bundle>, rendered: Bytes, after: Snapshot)

  /** The moment of the audit: right behind the render. */
  function AuditAt(t: nat, loads: seq<Bundle>): nat {
    LoadsEnd(t, loads)
  }

  function RoundTo(t: nat, round: Round): nat {
    InputsEnd(AuditAt(t, round.loads) + 1, round.after)
  }

  predicate Renders(tools: Tools, m: seq<Moment>, t: nat, loads: seq<Bundle>, rendered: Bytes) {
    LoadsFrom(tools, m, t, loads) && RendersBy(tools, loads, rendered) && AuditAt(t, loads) < |m|
  }

  /** A round renders, passes its audit, and reads the inputs again. */
  predicate Passes(tools: Tools, build: Build, t: nat, round: Round) {
    && Renders(tools, build.moments, t, round.loads, round.rendered)
    && !build.moments[AuditAt(t, round.loads)].auditFails
    && ReadsInputs(tools, build.configFiles, build.moments, AuditAt(t, round.loads) + 1, round.after)
  }

  /** Each round passes, and finds other inputs than the ones before it. */
  predicate AllChange(tools: Tools, build: Build, t: nat, current: Snapshot, rounds: seq<Round>)
    decreases |rounds|
  {
    rounds == [] ||
    (Passes(tools, build, t, rounds[0]) && rounds[0].after.sorted != current.sorted
     && AllChange(tools, build, RoundTo(t, rounds[0]), rounds[0].after, rounds[1..]))
  }

  function ChangedTo(t: nat, rounds: seq<Round>): nat
    decreases |rounds|
  {
    if rounds == [] then t else ChangedTo(RoundTo(t, rounds[0]), rounds[1..])
  }

  function LatestInputs(current: Snapshot, rounds: seq<Round>): Snapshot {
    if rounds == [] then current else rounds[|rounds| - 1].after
  }

  // ----- Reading decides what is read -----

  lemma {:induction false} LoadsOn(tools: Tools, m: seq<Moment>, t: nat, bundle: Bundle, i: nat)
    requires LoadedFrom(tools, m, t, bundle) && i <= |bundle.documents|
    ensures LoadedOn(tools, m, t + 1 + i, Upto(bundle, i)) == (Got(bundle), t + 1 + |bundle.documents|)
    decreases |bundle.documents| - i
  {
    if i < |bundle.documents| {
      var document := bundle.documents[i];
      assert tools.Answers(Upto(bundle, i), document);
      assert Lookup(m[t + 1 + i].disk, document.path) == Some(document.bytes);
      assert Upto(bundle, i).(documents := Upto(bundle, i).documents + [document]) == Upto(bundle, i + 1);
      hide LoadedFrom;
      LoadsOn(tools, m, t, bundle, i + 1);
    } else {
      assert Upto(bundle, i) == bundle;
    }
  }

  lemma LoadDecides(tools: Tools, m: seq<Moment>, t: nat, bundle: Bundle)
    requires LoadedFrom(tools, m, t, bundle)
    ensures LoadedAt(tools, m, t) == (Got(bundle), t + 1 + |bundle.documents|)
  {
    LoadsOn(tools, m, t, bundle, 0);
    assert Upto(bundle, 0) == Bundle(bundle.lock, []);
    hide LoadedOn, Follows;
  }

  lemma {:induction false} FilesDecide(m: seq<Moment>, t: nat, all: seq<Input>, i: nat)
    requires ReadFrom(m, t, all) && i <= |all|
    ensures FilesOn(m, t + i, Paths(all[i..]), all[..i]) == (Got(all), t + |all|)
    decreases |all| - i
  {
    if i < |all| {
      assert all[i..][0] == all[i] && all[i..][1..] == all[i + 1..];
      assert all[..i] + [all[i]] == all[..i + 1];
      assert Lookup(m[t + i].disk, all[i].path) == Some(all[i].bytes);
      FilesDecide(m, t, all, i + 1);
    } else {
      assert all[i..] == [] && all[..i] == all;
    }
  }

  lemma InputsDecide(tools: Tools, configFiles: seq<Slice>, m: seq<Moment>, t: nat, s: Snapshot)
    requires ReadsInputs(tools, configFiles, m, t, s)
    ensures t <= |m| && SnapshotAt(tools, configFiles, m, t) == (Got(s), InputsEnd(t, s)) && SnapshotFrom(tools, m, t, s)
  {
    LoadDecides(tools, m, t, s.bundle);
    FilesDecide(m, LockSeen(t, s) + 1, s.files, 0);
    assert s.files[0..] == s.files && s.files[..0] == [];
    PathsAre(tools, configFiles, m, t, s);
    IsSnapshot(tools, configFiles, m, t, s);
    hide *;
    SnapshotUnfolds(tools, configFiles, m, t, s);
  }

  lemma PathsAre(tools: Tools, configFiles: seq<Slice>, m: seq<Moment>, t: nat, s: Snapshot)
    requires ReadsInputs(tools, configFiles, m, t, s)
    ensures LockSeen(t, s) < |m| && Paths(s.files) == FilePaths(tools, configFiles, m[LockSeen(t, s)].disk)
    ensures s.sorted == Sorted(tools.machine.le, s.bundle.documents + s.files)
  {
    hide LoadedFrom, ReadFrom, Sorted;
    assert [] + configFiles == configFiles;
  }

  lemma IsSnapshot(tools: Tools, configFiles: seq<Slice>, m: seq<Moment>, t: nat, s: Snapshot)
    requires ReadsInputs(tools, configFiles, m, t, s)
    ensures t <= |m| && SnapshotFrom(tools, m, t, s)
  {
    hide ReadFrom, LoadedFrom, Sorted;
    LoadDecides(tools, m, t, s.bundle);
    var disk := m[LockSeen(t, s)].disk;
    if tools.LockPath() in disk {
      assert Paths(s.files)[0] == tools.LockPath();
      assert s.files != [] && Paths(s.files)[0] == s.files[0].path;
    }
    hide Paths, LoadedAt;
  }

  lemma SnapshotUnfolds(tools: Tools, configFiles: seq<Slice>, m: seq<Moment>, t: nat, s: Snapshot)
    requires t <= |m| && LoadedAt(tools, m, t) == (Got(s.bundle), LockSeen(t, s)) && LockSeen(t, s) < |m|
    requires FilesOn(m, LockSeen(t, s) + 1, FilePaths(tools, configFiles, m[LockSeen(t, s)].disk), []) == (Got(s.files), InputsEnd(t, s))
    requires s.sorted == Sorted(tools.machine.le, s.bundle.documents + s.files)
    ensures SnapshotAt(tools, configFiles, m, t) == (Got(s), InputsEnd(t, s))
  {
    hide LoadedAt, FilesOn, FilePaths, Sorted;
  }

  lemma {:induction false} RenderDecides(tools: Tools, m: seq<Moment>, t: nat, loads: seq<Bundle>, rest: seq<Bundle>)
    requires rest != [] && LoadsFrom(tools, m, t, rest)
    requires forall k :: 0 < k < |loads + rest| ==> tools.Render((loads + rest)[..k]) == Again
    ensures t <= |m|
    ensures match tools.Render(loads + rest)
            case Again => true
            case Rejects => RenderedOn(tools, m, t, loads) == (Refused, LoadsEnd(t, rest))
            case Module(bytes) => RenderedOn(tools, m, t, loads) == (Got(bytes), LoadsEnd(t, rest))
    decreases |rest|
  {
    var first := rest[0];
    LoadDecides(tools, m, t, first);
    var more := loads + [first];
    assert more + rest[1..] == loads + rest;
    if |rest| == 1 {
      assert rest == [first] && rest[1..] == [];
    } else {
      assert (loads + rest)[..|more|] == more;
      hide LoadedAt, LoadedFrom;
      RenderDecides(tools, m, t + 1 + |first.documents|, more, rest[1..]);
    }
  }

  lemma {:induction false} LoadsSpan(tools: Tools, m: seq<Moment>, t: nat, loads: seq<Bundle>)
    requires LoadsFrom(tools, m, t, loads) && (loads == [] ==> t <= |m|)
    ensures t <= LoadsEnd(t, loads) <= |m|
    decreases |loads|
  {
    if loads != [] {
      LoadsSpan(tools, m, t + 1 + |loads[0].documents|, loads[1..]);
    }
  }

  /** The loads decide what the render comes to. */
  lemma WholeRenderDecides(tools: Tools, m: seq<Moment>, t: nat, loads: seq<Bundle>)
    requires loads != [] && LoadsFrom(tools, m, t, loads)
    requires forall k :: 0 < k < |loads| ==> tools.Render(loads[..k]) == Again
    ensures t <= LoadsEnd(t, loads) <= |m|
    ensures match tools.Render(loads)
            case Again => true
            case Rejects => RenderedOn(tools, m, t, []) == (Refused, LoadsEnd(t, loads))
            case Module(bytes) => RenderedOn(tools, m, t, []) == (Got(bytes), LoadsEnd(t, loads))
  {
    assert [] + loads == loads;
    LoadsSpan(tools, m, t, loads);
    RenderDecides(tools, m, t, [], loads);
  }

  // ----- A round decides how the build goes on -----

  /** A failing audit ends the build as rejected: nothing is written, and no record either. */
  lemma AuditEnds(tools: Tools, build: Build, rounds: nat, t: nat, from: nat, current: Snapshot, record: Option<Record>,
                  loads: seq<Bundle>, rendered: Bytes)
    requires rounds > 0 && Renders(tools, build.moments, t, loads, rendered) && build.moments[AuditAt(t, loads)].auditFails
    ensures t <= AuditAt(t, loads) < |build.moments|
    ensures RoundsAt(tools, build, rounds, t, from, current, record)
         == Ending(Rejected, Kept(record, build.moments, t, AuditAt(t, loads) + 1), None)
  {
    WholeRenderDecides(tools, build.moments, t, loads);
    hide RenderedOn, LoadsFrom, SnapshotAt, StoredAt;
  }

  /** So does a render that rejects the inputs. */
  lemma RejectionEnds(tools: Tools, build: Build, rounds: nat, t: nat, from: nat, current: Snapshot, record: Option<Record>, loads: seq<Bundle>)
    requires rounds > 0 && LoadsFrom(tools, build.moments, t, loads) && RejectsBy(tools, loads)
    ensures t <= LoadsEnd(t, loads) <= |build.moments|
    ensures RoundsAt(tools, build, rounds, t, from, current, record)
         == Ending(Rejected, Kept(record, build.moments, t, LoadsEnd(t, loads)), None)
  {
    WholeRenderDecides(tools, build.moments, t, loads);
    hide RenderedOn, LoadsFrom, SnapshotAt, StoredAt;
  }

  lemma PassDecides(tools: Tools, build: Build, t: nat, current: Snapshot, round: Round)
    requires Sound(tools.machine) && Passes(tools, build, t, round)
    ensures t <= RoundTo(t, round) <= |build.moments|
    ensures RoundAt(tools, build.configFiles, build.moments, t, current)
         == (if round.after.sorted == current.sorted then Agreed(round.rendered, AuditAt(t, round.loads) + 1, round.after)
             else Changed(AuditAt(t, round.loads) + 1, round.after),
             RoundTo(t, round))
  {
    var m, a := build.moments, AuditAt(t, round.loads);
    WholeRenderDecides(tools, m, t, round.loads);
    InputsDecide(tools, build.configFiles, m, a + 1, round.after);
    SameDigest(tools, current.sorted, round.after.sorted);
    hide *;
    RoundUnfolds(tools, build.configFiles, m, t, current, round.rendered, a, round.after, RoundTo(t, round));
  }

  lemma RoundUnfolds(tools: Tools, configFiles: seq<Slice>, m: seq<Moment>, t: nat, current: Snapshot, rendered: Bytes, a: nat,
                     after: Snapshot, to: nat)
    requires t <= |m| && RenderedOn(tools, m, t, []) == (Got(rendered), a) && a < |m| && !m[a].auditFails
    requires SnapshotAt(tools, configFiles, m, a + 1) == (Got(after), to)
    ensures RoundAt(tools, configFiles, m, t, current)
         == (if Digest(tools, current.sorted) == Digest(tools, after.sorted) then Agreed(rendered, a + 1, after)
             else Changed(a + 1, after), to)
  {
    hide RenderedOn, SnapshotAt, Digest;
  }

  lemma SameDigest(tools: Tools, a: seq<Input>, b: seq<Input>)
    requires Sound(tools.machine)
    ensures Digest(tools, a) == Digest(tools, b) <==> a == b
  {
    if Digest(tools, a) == Digest(tools, b) {
      DigestIsInjective(tools, a, tools, b);
    }
  }

  /**
   * How the writes at `w` and behind it end a build: the module's, unless the output is that module already,
   * and the record's where there is a cache; a build killed ahead of either crashed.
   */
  function WritesEnd(tools: Tools, build: Build, w: nat, inputs: seq<Input>, rendered: Bytes): Outcome {
    var m, contents := build.moments, Finalized(tools, rendered, Digest(tools, inputs));
    var needed := if build.hasCacheDir then 2 else 1;
    if w < |m| && m[w].writeFails && m[w].output != Some(contents) then PipelineError
    else if w + needed > |m| then Crashed
    else if needed == 2 && m[w + 1].writeFails then PipelineError
    else Generated(contents)
  }

  /** The record a build leaves that wrote its module: its own, or what the world left of the one before. */
  predicate RecordLeft(tools: Tools, build: Build, outcome: Outcome, left: Option<Record>, inputs: seq<Input>, rendered: Bytes,
                       record: Option<Record>) {
    if outcome.Generated? && build.hasCacheDir
    then left == Some(Record(Digest(tools, inputs), tools.machine.hash(rendered)))
    else left == record || left == None
  }

  /** A round that finds the inputs as they were writes the module of its render, and then the record. */
  lemma PassEnds(tools: Tools, build: Build, rounds: nat, t: nat, from: nat, current: Snapshot, record: Option<Record>, round: Round)
    requires rounds > 0 && Sound(tools.machine) && Passes(tools, build, t, round) && round.after.sorted == current.sorted
    ensures t <= |build.moments|
    ensures var ending := RoundsAt(tools, build, rounds, t, from, current, record);
            && ending.outcome == WritesEnd(tools, build, RoundTo(t, round), current.sorted, round.rendered)
            && RecordLeft(tools, build, ending.outcome, ending.record, current.sorted, round.rendered, record)
  {
    hide *;
    PassDecides(tools, build, t, current, round);
    PassSpan(build.moments, t, round);
    KeptOrNone(record, build.moments, t, RoundTo(t, round));
    StoreEnds(tools, build, RoundTo(t, round), Kept(record, build.moments, t, RoundTo(t, round)), record, current.sorted, round.rendered);
    AgreedEnds(tools, build, rounds, t, from, current, record, round.rendered, AuditAt(t, round.loads) + 1, round.after, RoundTo(t, round));
  }

  lemma PassSpan(m: seq<Moment>, t: nat, round: Round)
    ensures AuditAt(t, round.loads) + 1 <= RoundTo(t, round)
  {
  }

  /** The writes decide how the build ends. */
  lemma StoreEnds(tools: Tools, build: Build, w: nat, kept: Option<Record>, record: Option<Record>, inputs: seq<Input>, rendered: Bytes)
    requires w <= |build.moments| && (kept == record || kept == None)
    ensures var (outcome, stored) := StoredAt(tools, build.hasCacheDir, build.moments, w, kept, inputs, rendered);
            && outcome == WritesEnd(tools, build, w, inputs, rendered)
            && RecordLeft(tools, build, outcome, stored, inputs, rendered, record)
  {
    hide Finalized, Digest;
  }

  lemma AgreedEnds(tools: Tools, build: Build, rounds: nat, t: nat, from: nat, current: Snapshot, record: Option<Record>,
                   rendered: Bytes, start: nat, after: Snapshot, to: nat)
    requires rounds > 0 && t <= to <= |build.moments|
    requires RoundAt(tools, build.configFiles, build.moments, t, current) == (Agreed(rendered, start, after), to)
    ensures var ending := RoundsAt(tools, build, rounds, t, from, current, record);
            var stored := StoredAt(tools, build.hasCacheDir, build.moments, to, Kept(record, build.moments, t, to), current.sorted, rendered);
            ending.outcome == stored.0 && ending.record == stored.1
  {
    hide RoundAt, Kept, StoredAt, Digest;
  }

  /** A round that finds other inputs goes on with those, while there are rounds left. */
  lemma {:induction false} ChangesGoOn(tools: Tools, build: Build, rounds: nat, t: nat, from: nat, current: Snapshot, record: Option<Record>,
                                       changed: seq<Round>)
    returns (laterFrom: nat, laterRecord: Option<Record>)
    requires Sound(tools.machine) && t <= |build.moments| && AllChange(tools, build, t, current, changed) && |changed| <= rounds
    ensures ChangedTo(t, changed) <= |build.moments| && (laterRecord == record || laterRecord == None)
    ensures RoundsAt(tools, build, rounds, t, from, current, record)
         == RoundsAt(tools, build, rounds - |changed|, ChangedTo(t, changed), laterFrom, LatestInputs(current, changed), laterRecord)
    decreases |changed|
  {
    hide *;
    if changed == [] {
      NothingChanges(t, current);
      return from, record;
    }
    var round := changed[0];
    FirstChanges(tools, build, t, current, changed);
    PassDecides(tools, build, t, current, round);
    ChangeGoesOn(tools, build, rounds, t, from, current, record, AuditAt(t, round.loads) + 1, round.after, RoundTo(t, round));
    KeptOrNone(record, build.moments, t, RoundTo(t, round));
    laterFrom, laterRecord := ChangesGoOn(tools, build, rounds - 1, RoundTo(t, round), AuditAt(t, round.loads) + 1, round.after,
                                          Kept(record, build.moments, t, RoundTo(t, round)), changed[1..]);
  }

  lemma NothingChanges(t: nat, current: Snapshot)
    ensures ChangedTo(t, []) == t && LatestInputs(current, []) == current
  {
  }

  lemma FirstChanges(tools: Tools, build: Build, t: nat, current: Snapshot, changed: seq<Round>)
    requires AllChange(tools, build, t, current, changed) && changed != []
    ensures Passes(tools, build, t, changed[0]) && changed[0].after.sorted != current.sorted
    ensures AllChange(tools, build, RoundTo(t, changed[0]), changed[0].after, changed[1..])
    ensures ChangedTo(t, changed) == ChangedTo(RoundTo(t, changed[0]), changed[1..])
    ensures LatestInputs(changed[0].after, changed[1..]) == LatestInputs(current, changed)
  {
    hide Passes;
    if |changed| > 1 {
      assert changed[1..][|changed| - 2] == changed[|changed| - 1];
    }
  }

  lemma ChangeGoesOn(tools: Tools, build: Build, rounds: nat, t: nat, from: nat, current: Snapshot, record: Option<Record>,
                     laterFrom: nat, after: Snapshot, to: nat)
    requires rounds > 0 && t <= to <= |build.moments|
    requires RoundAt(tools, build.configFiles, build.moments, t, current) == (Changed(laterFrom, after), to)
    ensures RoundsAt(tools, build, rounds, t, from, current, record)
         == RoundsAt(tools, build, rounds - 1, to, laterFrom, after, Kept(record, build.moments, t, to))
  {
    hide RoundAt, Kept;
  }

  // ----- A whole build -----

  /** The cache is missed: there is none, the output is not of these inputs, or the record is not of this output. */
  predicate Misses(tools: Tools, build: Build, record: Option<Record>, t: nat, inputs: seq<Input>, h: nat) {
    var m := build.moments;
    t <= h <= |m| &&
    if !build.hasCacheDir then h == t
    else if t < |m| && VerifiedOutput(tools, m[t].output, Digest(tools, inputs)).None? then h == t + 1
    else
      && h == t + 2
      && Kept(record, m, 0, t + 2) != Some(Record(Digest(tools, inputs), VerifiedOutput(tools, m[t].output, Digest(tools, inputs)).value))
  }

  /** How a build goes that misses the cache: the inputs it reads first, and the rounds that find other ones. */
  predicate Goes(machine: Machine, build: Build, record: Option<Record>, first: Snapshot, h: nat, changed: seq<Round>) {
    var tools := Tools(machine, build.identity);
    && ReadsInputs(tools, build.configFiles, build.moments, 0, first)
    && Misses(tools, build, record, InputsEnd(0, first), first.sorted, h)
    && AllChange(tools, build, h, first, changed)
  }

  lemma KeptTwice(record: Option<Record>, m: seq<Moment>, from: nat, via: nat, to: nat)
    requires from <= via <= to <= |m|
    ensures Kept(Kept(record, m, from, via), m, via, to) == Kept(record, m, from, to)
  {
  }

  lemma GoesOn(machine: Machine, build: Build, record: Option<Record>, first: Snapshot, h: nat, changed: seq<Round>)
    returns (from: nat, kept: Option<Record>)
    requires Sound(machine) && Goes(machine, build, record, first, h, changed) && |changed| <= 3
    ensures ChangedTo(h, changed) <= |build.moments| && (kept == record || kept == None)
    ensures Built(machine, build, record)
         == RoundsAt(Tools(machine, build.identity), build, 3 - |changed|, ChangedTo(h, changed), from, LatestInputs(first, changed), kept)
  {
    hide *;
    var tools := Tools(machine, build.identity);
    FirstInputs(machine, build, record, first, h, changed);
    MissGoesOn(machine, build, record, first, h);
    KeptOrNone(record, build.moments, 0, h);
    from, kept := ChangesGoOn(tools, build, 3, h, 0, first, Kept(record, build.moments, 0, h), changed);
  }

  lemma FirstInputs(machine: Machine, build: Build, record: Option<Record>, first: Snapshot, h: nat, changed: seq<Round>)
    requires Goes(machine, build, record, first, h, changed)
    ensures var tools := Tools(machine, build.identity);
            && ReadsInputs(tools, build.configFiles, build.moments, 0, first)
            && Misses(tools, build, record, InputsEnd(0, first), first.sorted, h)
            && AllChange(tools, build, h, first, changed) && h <= |build.moments| && tools.machine == machine
  {
    hide ReadsInputs, AllChange;
  }

  /** A build that misses the cache starts on its rounds. */
  lemma MissGoesOn(machine: Machine, build: Build, record: Option<Record>, first: Snapshot, h: nat)
    requires var tools := Tools(machine, build.identity);
             ReadsInputs(tools, build.configFiles, build.moments, 0, first)
             && Misses(tools, build, record, InputsEnd(0, first), first.sorted, h)
    ensures h <= |build.moments|
    ensures Built(machine, build, record)
         == RoundsAt(Tools(machine, build.identity), build, 3, h, 0, first, Kept(record, build.moments, 0, h))
  {
    var tools, m := Tools(machine, build.identity), build.moments;
    InputsDecide(tools, build.configFiles, m, 0, first);
    var t := InputsEnd(0, first);
    KeptTwice(record, m, 0, t, h);
    if build.hasCacheDir {
      KeptTwice(record, m, 0, t, if h == t + 2 then h else t);
    }
    hide *;
    BuiltUnfolds(machine, build, record, first, t);
    if build.hasCacheDir {
      MissIs(tools, build, record, t, first.sorted, h);
    } else {
      MissIsNone(tools, build, record, t, first.sorted, h);
    }
  }

  lemma BuiltUnfolds(machine: Machine, build: Build, record: Option<Record>, first: Snapshot, t: nat)
    requires t <= |build.moments| && SnapshotAt(Tools(machine, build.identity), build.configFiles, build.moments, 0) == (Got(first), t)
    ensures var tools, m := Tools(machine, build.identity), build.moments;
            var kept := Kept(record, m, 0, t);
            var (hit, h) := HitAt(tools, m, t, kept, first.sorted);
            && (!build.hasCacheDir ==> Built(machine, build, record) == RoundsAt(tools, build, 3, t, 0, first, kept))
            && (build.hasCacheDir && hit == None ==>
                  Built(machine, build, record) == RoundsAt(tools, build, 3, h, 0, first, Kept(record, m, 0, h)))
  {
    hide SnapshotAt, HitAt, RoundsAt, Kept;
  }

  lemma MissIs(tools: Tools, build: Build, record: Option<Record>, t: nat, inputs: seq<Input>, h: nat)
    requires build.hasCacheDir && Misses(tools, build, record, t, inputs, h)
    ensures t <= h <= |build.moments|
    ensures HitAt(tools, build.moments, t, Kept(record, build.moments, 0, t), inputs) == (None, h)
  {
    if h == t + 2 {
      KeptTwice(record, build.moments, 0, t, h);
    }
    hide VerifiedOutput, Digest, Kept;
  }

  lemma MissIsNone(tools: Tools, build: Build, record: Option<Record>, t: nat, inputs: seq<Input>, h: nat)
    requires !build.hasCacheDir && Misses(tools, build, record, t, inputs, h)
    ensures h == t
  {
  }

  /**
   * A build that misses the cache writes the module of the first round that finds the inputs as they
   * were: up to two rounds before it may find them changed.
   */
  lemma SettledBuildEnds(machine: Machine, build: Build, record: Option<Record>, first: Snapshot, h: nat, changed: seq<Round>, last: Round)
    requires Sound(machine) && Goes(machine, build, record, first, h, changed) && |changed| < 3
    requires var tools, t, inputs := Tools(machine, build.identity), ChangedTo(h, changed), LatestInputs(first, changed).sorted;
             Passes(tools, build, t, last) && last.after.sorted == inputs
    ensures var tools, t, inputs := Tools(machine, build.identity), ChangedTo(h, changed), LatestInputs(first, changed).sorted;
            var ending := Built(machine, build, record);
            && ending.outcome == WritesEnd(tools, build, RoundTo(t, last), inputs, last.rendered)
            && RecordLeft(tools, build, ending.outcome, ending.record, inputs, last.rendered, record)
  {
    hide *;
    var from, kept := GoesOn(machine, build, record, first, h, changed);
    PassEnds(Tools(machine, build.identity), build, 3 - |changed|, ChangedTo(h, changed), from, LatestInputs(first, changed), kept, last);
    var ending := Built(machine, build, record);
    RecordLeftBy(Tools(machine, build.identity), build, ending.outcome, ending.record, LatestInputs(first, changed).sorted,
                 last.rendered, record, kept);
  }

  lemma RecordLeftBy(tools: Tools, build: Build, outcome: Outcome, left: Option<Record>, inputs: seq<Input>, rendered: Bytes,
                     record: Option<Record>, kept: Option<Record>)
    requires RecordLeft(tools, build, outcome, left, inputs, rendered, kept) && (kept == record || kept == None)
    ensures RecordLeft(tools, build, outcome, left, inputs, rendered, record)
  {
  }

  /** A build whose audit fails is rejected, whatever it rendered; so is one whose render rejects the inputs. The record is not touched. */
  lemma RejectedBuildEnds(machine: Machine, build: Build, record: Option<Record>, first: Snapshot, h: nat, changed: seq<Round>,
                          loads: seq<Bundle>, rendered: Bytes)
    requires Sound(machine) && Goes(machine, build, record, first, h, changed) && |changed| < 3
    requires var tools, t, m := Tools(machine, build.identity), ChangedTo(h, changed), build.moments;
             || (Renders(tools, m, t, loads, rendered) && m[AuditAt(t, loads)].auditFails)
             || (LoadsFrom(tools, m, t, loads) && RejectsBy(tools, loads))
    ensures var ending := Built(machine, build, record);
            ending.outcome == Rejected && (ending.record == record || ending.record == None)
  {
    hide *;
    var tools, t, m := Tools(machine, build.identity), ChangedTo(h, changed), build.moments;
    var from, kept := GoesOn(machine, build, record, first, h, changed);
    if LoadsFrom(tools, m, t, loads) && RejectsBy(tools, loads) {
      RejectionEnds(tools, build, 3 - |changed|, t, from, LatestInputs(first, changed), kept, loads);
      KeptOrNone(kept, m, t, LoadsEnd(t, loads));
    } else {
      AuditEnds(tools, build, 3 - |changed|, t, from, LatestInputs(first, changed), kept, loads, rendered);
      KeptOrNone(kept, m, t, AuditAt(t, loads) + 1);
    }
  }

  lemma KeptOrNone(record: Option<Record>, m: seq<Moment>, from: nat, to: nat)
    requires from <= to <= |m|
    ensures Kept(record, m, from, to) == record || Kept(record, m, from, to) == None
  {
  }

  /** Inputs that change in three rounds end a build with an error. */
  lemma RestlessBuildEnds(machine: Machine, build: Build, record: Option<Record>, first: Snapshot, h: nat, changed: seq<Round>)
    requires Sound(machine) && Goes(machine, build, record, first, h, changed) && |changed| == 3
    ensures var ending := Built(machine, build, record);
            ending.outcome == PipelineError && (ending.record == record || ending.record == None)
  {
    hide Goes, Built;
    var from, kept := GoesOn(machine, build, record, first, h, changed);
  }

  /** A verified output with its record is reused exactly when its audit passes, and rejected otherwise. */
  lemma HitEnds(machine: Machine, build: Build, record: Option<Record>, first: Snapshot, output: Bytes, content: Bytes)
    requires var tools, m, t := Tools(machine, build.identity), build.moments, InputsEnd(0, first);
             && build.hasCacheDir && ReadsInputs(tools, build.configFiles, m, 0, first) && t + 2 < |m|
             && m[t].output == Some(output) && VerifiedOutput(tools, Some(output), Digest(tools, first.sorted)) == Some(content)
             && record == Some(Record(Digest(tools, first.sorted), content)) && forall k :: 0 <= k < t + 2 ==> !m[k].dropsRecord
    ensures var ending, failed := Built(machine, build, record), build.moments[InputsEnd(0, first) + 2].auditFails;
            && ending.outcome == (if failed then Rejected else Cached(output))
            && (ending.record == record || ending.record == None)
  {
    var tools, m, t := Tools(machine, build.identity), build.moments, InputsEnd(0, first);
    InputsDecide(tools, build.configFiles, m, 0, first);
    KeptTwice(record, m, 0, t, t + 2);
    hide SnapshotAt, SnapshotFrom, ReadsInputs, RoundsAt, VerifiedOutput, Digest;
  }

  /** A build killed while it looks at its cache crashed. */
  lemma KilledAtHit(machine: Machine, build: Build, record: Option<Record>, first: Snapshot)
    requires var tools, m, t := Tools(machine, build.identity), build.moments, InputsEnd(0, first);
             && build.hasCacheDir && ReadsInputs(tools, build.configFiles, m, 0, first) && t <= |m| <= t + 2
             && (t < |m| ==> VerifiedOutput(tools, m[t].output, Digest(tools, first.sorted)).Some?)
             && (t + 2 == |m| ==>
                   Kept(record, m, 0, t + 2)
                   == Some(Record(Digest(tools, first.sorted), VerifiedOutput(tools, m[t].output, Digest(tools, first.sorted)).value)))
    ensures Built(machine, build, record).outcome == Crashed
  {
    var tools, m, t := Tools(machine, build.identity), build.moments, InputsEnd(0, first);
    InputsDecide(tools, build.configFiles, m, 0, first);
    if t + 2 == |m| {
      KeptTwice(record, m, 0, t, t + 2);
    }
    hide SnapshotAt, SnapshotFrom, ReadsInputs, RoundsAt, VerifiedOutput, Digest, Kept;
  }

  // ----- A world that stands still -----

  predicate Still(m: seq<Moment>) {
    forall i, j :: 0 <= i < |m| && 0 <= j < |m| ==> m[i].disk == m[j].disk
  }

  lemma LoadsAgain(tools: Tools, m: seq<Moment>, t: nat, u: nat, bundle: Bundle)
    requires Still(m) && LoadedFrom(tools, m, t, bundle) && u + 1 + |bundle.documents| <= |m|
    ensures LoadedFrom(tools, m, u, bundle)
  {
    hide Follows;
    forall i | 0 <= i < |bundle.documents|
      ensures Lookup(m[u + 1 + i].disk, bundle.documents[i].path) == Some(bundle.documents[i].bytes)
    {
      assert Lookup(m[t + 1 + i].disk, bundle.documents[i].path) == Some(bundle.documents[i].bytes);
      assert m[u + 1 + i].disk == m[t + 1 + i].disk;
    }
    assert m[u].disk == m[t].disk;
  }

  lemma ReadsAgain(tools: Tools, configFiles: seq<Slice>, m: seq<Moment>, t: nat, u: nat, s: Snapshot)
    requires Still(m) && ReadsInputs(tools, configFiles, m, t, s) && InputsEnd(u, s) <= |m|
    ensures ReadsInputs(tools, configFiles, m, u, s)
  {
    LoadsAgain(tools, m, t, u, s.bundle);
    hide LoadedFrom, Sorted;
    forall i | 0 <= i < |s.files|
      ensures Lookup(m[LockSeen(u, s) + 1 + i].disk, s.files[i].path) == Some(s.files[i].bytes)
    {
      assert Lookup(m[LockSeen(t, s) + 1 + i].disk, s.files[i].path) == Some(s.files[i].bytes);
      assert m[LockSeen(u, s) + 1 + i].disk == m[LockSeen(t, s) + 1 + i].disk;
    }
    assert m[LockSeen(u, s)].disk == m[LockSeen(t, s)].disk;
  }

  lemma {:induction false} LoadsRepeat(tools: Tools, m: seq<Moment>, t: nat, u: nat, bundle: Bundle, k: nat)
    requires Still(m) && LoadedFrom(tools, m, t, bundle) && LoadsEnd(u, Repeated(bundle, k)) <= |m|
    ensures LoadsFrom(tools, m, u, Repeated(bundle, k))
    decreases k
  {
    if k > 0 {
      var loads := Repeated(bundle, k);
      assert loads[1..] == Repeated(bundle, k - 1) && loads[0] == bundle;
      EndsLater(u + 1 + |bundle.documents|, loads[1..]);
      LoadsAgain(tools, m, t, u, bundle);
      hide LoadedFrom;
      LoadsRepeat(tools, m, t, u + 1 + |bundle.documents|, bundle, k - 1);
    }
  }

  lemma {:induction false} EndsLater(t: nat, loads: seq<Bundle>)
    ensures t <= LoadsEnd(t, loads)
    decreases |loads|
  {
    if loads != [] {
      EndsLater(t + 1 + |loads[0].documents|, loads[1..]);
    }
  }

  /**
   * Where the inputs stand still, a build that misses the cache and renders a module with `k` loads ends
   * by its audit and its writes: it is rejected if and only if the audit fails, and otherwise generated
   * if and only if the writes it needs succeed.
   */
  lemma StillBuildEnds(machine: Machine, build: Build, record: Option<Record>, s: Snapshot, h: nat, k: nat, rendered: Bytes)
    requires var tools, m := Tools(machine, build.identity), build.moments;
             && Sound(machine) && Still(m) && ReadsInputs(tools, build.configFiles, m, 0, s)
             && Misses(tools, build, record, InputsEnd(0, s), s.sorted, h)
             && RendersBy(tools, Repeated(s.bundle, k), rendered)
             && InputsEnd(LoadsEnd(h, Repeated(s.bundle, k)) + 1, s) <= |m|
    ensures var tools, m, a := Tools(machine, build.identity), build.moments, LoadsEnd(h, Repeated(s.bundle, k));
            Built(machine, build, record).outcome ==
            if m[a].auditFails then Rejected else WritesEnd(tools, build, InputsEnd(a + 1, s), s.sorted, rendered)
  {
    hide *;
    var loads := Repeated(s.bundle, k);
    var tools, m, a := Tools(machine, build.identity), build.moments, LoadsEnd(h, loads);
    InputsSpan(s, a + 1);
    InputsAreLoaded(tools, build.configFiles, m, 0, s);
    LoadsRepeat(tools, m, 0, h, s.bundle, k);
    GoesAtOnce(machine, build, record, s, h);
    RendersThere(tools, m, h, loads, rendered);
    if m[a].auditFails {
      RejectedBuildEnds(machine, build, record, s, h, [], loads, rendered);
    } else {
      ReadsAgain(tools, build.configFiles, m, 0, a + 1, s);
      PassesThere(tools, build, h, Round(loads, rendered, s));
      SettledBuildEnds(machine, build, record, s, h, [], Round(loads, rendered, s));
    }
  }

  lemma InputsSpan(s: Snapshot, t: nat)
    ensures t < InputsEnd(t, s)
  {
  }

  lemma InputsAreLoaded(tools: Tools, configFiles: seq<Slice>, m: seq<Moment>, t: nat, s: Snapshot)
    requires ReadsInputs(tools, configFiles, m, t, s)
    ensures LoadedFrom(tools, m, t, s.bundle)
  {
  }

  lemma GoesAtOnce(machine: Machine, build: Build, record: Option<Record>, s: Snapshot, h: nat)
    requires var tools := Tools(machine, build.identity);
             ReadsInputs(tools, build.configFiles, build.moments, 0, s) && Misses(tools, build, record, InputsEnd(0, s), s.sorted, h)
    ensures Goes(machine, build, record, s, h, []) && ChangedTo(h, []) == h && LatestInputs(s, []) == s
  {
    hide ReadsInputs, Misses;
  }

  lemma RendersThere(tools: Tools, m: seq<Moment>, t: nat, loads: seq<Bundle>, rendered: Bytes)
    requires LoadsFrom(tools, m, t, loads) && RendersBy(tools, loads, rendered) && LoadsEnd(t, loads) < |m|
    ensures Renders(tools, m, t, loads, rendered) && AuditAt(t, loads) == LoadsEnd(t, loads)
  {
  }

  lemma PassesThere(tools: Tools, build: Build, t: nat, round: Round)
    requires Renders(tools, build.moments, t, round.loads, round.rendered)
    requires !build.moments[AuditAt(t, round.loads)].auditFails
    requires ReadsInputs(tools, build.configFiles, build.moments, AuditAt(t, round.loads) + 1, round.after)
    ensures Passes(tools, build, t, round) && RoundTo(t, round) == InputsEnd(AuditAt(t, round.loads) + 1, round.after)
  {
  }

  // ----- Whatever is generated passed -----

  lemma {:induction false} FilesRead(m: seq<Moment>, t: nat, at: nat, paths: seq<Slice>, files: seq<Input>)
    requires at == t + |files| <= |m| && ReadFrom(m, t, files)
    ensures var (read, to) := FilesOn(m, at, paths, files);
            read.Got? ==> ReadFrom(m, t, read.value) && to == t + |read.value| && Paths(read.value) == Paths(files) + paths
    decreases |paths|
  {
    if paths == [] {
      assert Paths(files) + [] == Paths(files);
    } else if at < |m| && Lookup(m[at].disk, paths[0]).Some? {
      var file := Input(paths[0], Lookup(m[at].disk, paths[0]).value);
      ReadFromPush(m, t, files, file);
      PathsPush(files, file);
      hide ReadFrom;
      FilesRead(m, t, at + 1, paths[1..], files + [file]);
      assert Paths(files) + [paths[0]] + paths[1..] == Paths(files) + paths;
    }
  }

  lemma {:induction false} PathsPush(files: seq<Input>, file: Input)
    ensures Paths(files + [file]) == Paths(files) + [file.path]
  {
    if files == [] {
      assert files + [file] == [file] && [file][1..] == [];
    } else {
      PathsPush(files[1..], file);
      assert (files + [file])[1..] == files[1..] + [file];
    }
  }

  /** What a snapshot got was read as it is to be read. */
  lemma SnapshotReadsInputs(tools: Tools, configFiles: seq<Slice>, m: seq<Moment>, t: nat)
    requires t <= |m|
    ensures var (taken, to) := SnapshotAt(tools, configFiles, m, t);
            taken.Got? ==> ReadsInputs(tools, configFiles, m, t, taken.value) && to == InputsEnd(t, taken.value)
  {
    LoadedReads(tools, m, t);
    var (loaded, c) := LoadedAt(tools, m, t);
    hide LoadedAt, LoadedFrom;
    if loaded.Got? && c < |m| {
      NothingRead(m, c + 1);
      FilesRead(m, c + 1, c + 1, FilePaths(tools, configFiles, m[c].disk), []);
      assert [] + FilePaths(tools, configFiles, m[c].disk) == FilePaths(tools, configFiles, m[c].disk);
      assert [] + configFiles == configFiles;
      hide ReadFrom, FilesOn, Sorted;
    }
  }

  /** What a render got was loaded as it is to be loaded. */
  lemma {:induction false} RenderReads(tools: Tools, m: seq<Moment>, t: nat, loads: seq<Bundle>) returns (rest: seq<Bundle>)
    requires t <= |m| && RenderedOn(tools, m, t, loads).0.Got?
    requires forall k :: 0 < k <= |loads| ==> tools.Render(loads[..k]) == Again
    ensures var (rendered, to) := RenderedOn(tools, m, t, loads);
            LoadsFrom(tools, m, t, rest) && to == LoadsEnd(t, rest) && RendersBy(tools, loads + rest, rendered.value)
    decreases |m| - t
  {
    LoadedReads(tools, m, t);
    var (loaded, r) := LoadedAt(tools, m, t);
    hide LoadedAt, LoadedFrom;
    var more := loads + [loaded.value];
    assert forall k :: 0 < k <= |loads| ==> more[..k] == loads[..k];
    assert more[..|more|] == more;
    match tools.Render(more)
    case Again =>
      var later := RenderReads(tools, m, r, more);
      rest := [loaded.value] + later;
      assert rest[1..] == later && loads + rest == more + later;
    case Rejects =>
    case Module(_) =>
      rest := [loaded.value];
      assert rest[1..] == [] && loads + rest == more;
  }

  lemma {:induction false} RoundsPassed(tools: Tools, build: Build, rounds: nat, t: nat, from: nat, current: Snapshot, record: Option<Record>)
    returns (at: nat, round: Round)
    requires Sound(tools.machine) && t <= |build.moments| && RoundsAt(tools, build, rounds, t, from, current, record).outcome.Generated?
    ensures var ending := RoundsAt(tools, build, rounds, t, from, current, record);
            && Passes(tools, build, at, round) && ending.evidence.Some? && ending.evidence.value.after == round.after
            && ending.evidence.value.to == RoundTo(at, round) && ending.evidence.value.snapshot.sorted == round.after.sorted
            && ending.outcome.written == Finalized(tools, round.rendered, Digest(tools, round.after.sorted))
    decreases rounds
  {
    hide SnapshotAt, RenderedOn, ReadsInputs, LoadsFrom, RendersBy, Finalized, Digest, Sound;
    var m := build.moments;
    var (end, to) := RoundAt(tools, build.configFiles, m, t, current);
    match end
    case Ends(_) => EndsWithoutModule(tools, build.configFiles, m, t, current);
    case Changed(start, after) => at, round := RoundsPassed(tools, build, rounds - 1, to, start, after, Kept(record, m, t, to));
    case Agreed(rendered, start, after) =>
      var loads := RenderReads(tools, m, t, []);
      assert [] + loads == loads;
      SnapshotReadsInputs(tools, build.configFiles, m, start);
      SameDigest(tools, current.sorted, after.sorted);
      at, round := t, Round(loads, rendered, after);
  }

  /**
   * Whatever a build generates is the module of a round that passed its audit right behind its render and
   * right ahead of the second reading of the inputs, which found them as the first did.
   */
  lemma GeneratedPassed(machine: Machine, build: Build, record: Option<Record>) returns (at: nat, round: Round)
    requires Sound(machine) && Built(machine, build, record).outcome.Generated?
    ensures var tools, ending := Tools(machine, build.identity), Built(machine, build, record);
            && Passes(tools, build, at, round) && ending.evidence.Some? && ending.evidence.value.after == round.after
            && ending.evidence.value.to == RoundTo(at, round) && ending.evidence.value.snapshot.sorted == round.after.sorted
            && ending.outcome.written == Finalized(tools, round.rendered, Digest(tools, round.after.sorted))
  {
    var tools, m := Tools(machine, build.identity), build.moments;
    var (taken, t) := SnapshotAt(tools, build.configFiles, m, 0);
    hide SnapshotAt, RoundsAt, Passes, Finalized, Digest, Sound;
    if build.hasCacheDir {
      var (hit, h) := HitAt(tools, m, t, Kept(record, m, 0, t), taken.value.sorted);
      HitGeneratesNothing(tools, m, t, Kept(record, m, 0, t), taken.value.sorted);
      hide HitAt;
      at, round := RoundsPassed(tools, build, 3, h, 0, taken.value, Kept(record, m, 0, h));
    } else {
      at, round := RoundsPassed(tools, build, 3, t, 0, taken.value, Kept(record, m, 0, t));
    }
  }

  lemma HitGeneratesNothing(tools: Tools, m: seq<Moment>, t: nat, record: Option<Record>, inputs: seq<Input>)
    requires t <= |m|
    ensures var hit := HitAt(tools, m, t, record, inputs).0; hit.Some? ==> !hit.value.Generated?
  {
  }

  // ----- Readings that fail, and builds that are killed -----

  function Stopped(died: bool): Outcome {
    if died then Crashed else Rejected
  }

  /**
   * Loading gets as far as `partial`: then the loader refuses it, or a document it asks for is missing or not
   * the pinned one, or the build is killed.
   */
  predicate BundleStops(tools: Tools, m: seq<Moment>, t: nat, partial: Bundle, died: bool) {
    if t >= |m| then t == |m| && died && partial == Bundle(None, [])
    else
      && Lookup(m[t].disk, tools.LockPath()) == partial.lock && ReadFrom(m, t + 1, partial.documents)
      && (forall i :: 0 <= i < |partial.documents| ==> tools.Answers(Upto(partial, i), partial.documents[i]))
      && var k := t + 1 + |partial.documents|;
         match tools.Next(partial)
         case Complete => false
         case Refuse => !died
         case Read(path, pin) =>
           if k == |m| then died
           else !died && (Lookup(m[k].disk, path) == None || !tools.Accepts(pin, Lookup(m[k].disk, path).value))
  }

  lemma {:induction false} BundleStopsOn(tools: Tools, m: seq<Moment>, t: nat, partial: Bundle, died: bool, i: nat)
    requires t < |m| && BundleStops(tools, m, t, partial, died) && i <= |partial.documents|
    ensures LoadedOn(tools, m, t + 1 + i, Upto(partial, i)).0 == if died then Died else Refused
    decreases |partial.documents| - i
  {
    if i < |partial.documents| {
      var document := partial.documents[i];
      assert tools.Answers(Upto(partial, i), document);
      assert Lookup(m[t + 1 + i].disk, document.path) == Some(document.bytes);
      assert Upto(partial, i).(documents := Upto(partial, i).documents + [document]) == Upto(partial, i + 1);
      hide BundleStops;
      BundleStopsOn(tools, m, t, partial, died, i + 1);
    } else {
      assert Upto(partial, i) == partial;
    }
  }

  lemma BundleStopDecides(tools: Tools, m: seq<Moment>, t: nat, partial: Bundle, died: bool)
    requires BundleStops(tools, m, t, partial, died)
    ensures t <= |m| && LoadedAt(tools, m, t).0 == if died then Died else Refused
  {
    if t < |m| {
      BundleStopsOn(tools, m, t, partial, died, 0);
      assert Upto(partial, 0) == Bundle(partial.lock, []);
      hide LoadedOn;
    }
  }

  /** Of the files at `paths` only `files` are read: the next one is missing, or the build is killed. */
  predicate FilesStop(m: seq<Moment>, t: nat, paths: seq<Slice>, files: seq<Input>, died: bool) {
    && ReadFrom(m, t, files) && Paths(files) < paths
    && if t + |files| == |m| then died else !died && Lookup(m[t + |files|].disk, paths[|Paths(files)|]) == None
  }

  lemma {:induction false} PathsAt(files: seq<Input>)
    ensures |Paths(files)| == |files| && forall i :: 0 <= i < |files| ==> Paths(files)[i] == files[i].path
  {
    if files != [] {
      PathsAt(files[1..]);
    }
  }

  lemma {:induction false} FilesStopOn(m: seq<Moment>, t: nat, paths: seq<Slice>, files: seq<Input>, died: bool, i: nat)
    requires FilesStop(m, t, paths, files, died) && i <= |files|
    ensures i <= |paths| && FilesOn(m, t + i, paths[i..], files[..i]).0 == if died then Died else Refused
    decreases |files| - i
  {
    PathsAt(files);
    assert paths[i..] != [] && paths[i..][0] == paths[i] && paths[i..][1..] == paths[i + 1..];
    if i < |files| {
      assert Paths(files)[i] == paths[i] == files[i].path;
      assert Lookup(m[t + i].disk, files[i].path) == Some(files[i].bytes);
      assert files[..i] + [files[i]] == files[..i + 1];
      hide FilesStop;
      FilesStopOn(m, t, paths, files, died, i + 1);
    } else {
      assert files[..i] == files;
    }
  }

  /** The reading of the inputs stops in the bundle, at the look for the lock file, or in the other files. */
  predicate InputsStop(tools: Tools, configFiles: seq<Slice>, m: seq<Moment>, t: nat, bundle: Bundle, files: seq<Input>, died: bool) {
    || BundleStops(tools, m, t, bundle, died)
    || (LoadedFrom(tools, m, t, bundle)
        && var c := t + 1 + |bundle.documents|;
           if c == |m| then died
           else FilesStop(m, c + 1, (if tools.LockPath() in m[c].disk then [tools.LockPath()] else []) + configFiles, files, died))
  }

  lemma InputsStopDecides(tools: Tools, configFiles: seq<Slice>, m: seq<Moment>, t: nat, bundle: Bundle, files: seq<Input>, died: bool)
    requires InputsStop(tools, configFiles, m, t, bundle, files, died)
    ensures t <= |m| && SnapshotAt(tools, configFiles, m, t).0 == if died then Died else Refused
  {
    if BundleStops(tools, m, t, bundle, died) {
      BundleStopDecides(tools, m, t, bundle, died);
      hide LoadedAt, BundleStops, LoadedFrom, FilesOn;
    } else {
      LoadDecides(tools, m, t, bundle);
      var c := t + 1 + |bundle.documents|;
      if c < |m| {
        var paths := (if tools.LockPath() in m[c].disk then [tools.LockPath()] else []) + configFiles;
        FilesStopOn(m, c + 1, paths, files, died, 0);
        assert paths[0..] == paths && files[..0] == [];
        assert [] + configFiles == configFiles;
      }
      hide LoadedAt, BundleStops, LoadedFrom, FilesOn, FilesStop;
    }
  }

  /** Inputs that cannot be read reject a build before it looks at its cache, and one killed there crashed. */
  lemma UnreadableInputsEnd(machine: Machine, build: Build, record: Option<Record>, bundle: Bundle, files: seq<Input>, died: bool)
    requires InputsStop(Tools(machine, build.identity), build.configFiles, build.moments, 0, bundle, files, died)
    ensures Built(machine, build, record).outcome == Stopped(died)
  {
    InputsStopDecides(Tools(machine, build.identity), build.configFiles, build.moments, 0, bundle, files, died);
    hide SnapshotAt, InputsStop, Kept, RoundsAt;
  }

  lemma {:induction false} RenderStops(tools: Tools, m: seq<Moment>, t: nat, loads: seq<Bundle>, rest: seq<Bundle>, partial: Bundle, died: bool)
    requires LoadsFrom(tools, m, t, rest) && BundleStops(tools, m, LoadsEnd(t, rest), partial, died)
    requires forall k :: 0 < k <= |loads + rest| ==> tools.Render((loads + rest)[..k]) == Again
    ensures t <= |m| && RenderedOn(tools, m, t, loads).0 == if died then Died else Refused
    decreases |rest|
  {
    if rest == [] {
      BundleStopDecides(tools, m, t, partial, died);
      hide LoadedAt, BundleStops;
    } else {
      var first := rest[0];
      var more := loads + [first];
      LoadDecides(tools, m, t, first);
      hide LoadedAt, LoadedFrom, BundleStops;
      assert more + rest[1..] == loads + rest;
      assert (loads + rest)[..|more|] == more;
      RenderStops(tools, m, t + 1 + |first.documents|, more, rest[1..], partial, died);
    }
  }

  /** How a round stops short: a load of its render fails, it is killed ahead of its audit, or the inputs cannot be read again. */
  datatype Shortfall = InRender(loads: seq<Bundle>, partial: Bundle)
                     | AtAudit(loads: seq<Bundle>, rendered: Bytes)
                     | InReading(loads: seq<Bundle>, rendered: Bytes, bundle: Bundle, files: seq<Input>)

  predicate FallsShort(tools: Tools, build: Build, t: nat, shortfall: Shortfall, died: bool) {
    var m := build.moments;
    match shortfall
    case InRender(loads, partial) =>
      && LoadsFrom(tools, m, t, loads) && BundleStops(tools, m, LoadsEnd(t, loads), partial, died)
      && forall k :: 0 < k <= |loads| ==> tools.Render(loads[..k]) == Again
    case AtAudit(loads, rendered) =>
      LoadsFrom(tools, m, t, loads) && RendersBy(tools, loads, rendered) && LoadsEnd(t, loads) == |m| && died
    case InReading(loads, rendered, bundle, files) =>
      && Renders(tools, m, t, loads, rendered) && !m[AuditAt(t, loads)].auditFails
      && InputsStop(tools, build.configFiles, m, AuditAt(t, loads) + 1, bundle, files, died)
  }

  lemma ShortfallDecides(tools: Tools, build: Build, t: nat, current: Snapshot, shortfall: Shortfall, died: bool)
    requires FallsShort(tools, build, t, shortfall, died)
    ensures t <= |build.moments| && RoundAt(tools, build.configFiles, build.moments, t, current).0 == Ends(Stopped(died))
  {
    var m := build.moments;
    match shortfall
    case InRender(loads, partial) =>
      assert [] + loads == loads;
      RenderStops(tools, m, t, [], loads, partial, died);
      hide *;
      RenderFails(tools, build.configFiles, m, t, current, died);
    case AtAudit(loads, rendered) =>
      WholeRenderDecides(tools, m, t, loads);
      hide *;
      AuditMissing(tools, build.configFiles, m, t, current, rendered);
    case InReading(loads, rendered, bundle, files) =>
      WholeRenderDecides(tools, m, t, loads);
      InputsStopDecides(tools, build.configFiles, m, AuditAt(t, loads) + 1, bundle, files, died);
      hide *;
      ReadingFails(tools, build.configFiles, m, t, current, rendered, AuditAt(t, loads), died);
  }

  lemma RenderFails(tools: Tools, configFiles: seq<Slice>, m: seq<Moment>, t: nat, current: Snapshot, died: bool)
    requires t <= |m| && RenderedOn(tools, m, t, []).0 == if died then Died else Refused
    ensures RoundAt(tools, configFiles, m, t, current).0 == Ends(Stopped(died))
  {
    hide RenderedOn, SnapshotAt;
  }

  lemma AuditMissing(tools: Tools, configFiles: seq<Slice>, m: seq<Moment>, t: nat, current: Snapshot, rendered: Bytes)
    requires t <= |m| && RenderedOn(tools, m, t, []) == (Got(rendered), |m|)
    ensures RoundAt(tools, configFiles, m, t, current).0 == Ends(Stopped(true))
  {
    hide RenderedOn, SnapshotAt;
  }

  lemma ReadingFails(tools: Tools, configFiles: seq<Slice>, m: seq<Moment>, t: nat, current: Snapshot, rendered: Bytes, a: nat, died: bool)
    requires t <= |m| && RenderedOn(tools, m, t, []) == (Got(rendered), a) && a < |m| && !m[a].auditFails
    requires SnapshotAt(tools, configFiles, m, a + 1).0 == if died then Died else Refused
    ensures RoundAt(tools, configFiles, m, t, current).0 == Ends(Stopped(died))
  {
    hide RenderedOn, SnapshotAt;
  }

  /** A round that falls short ends its build: rejected where something cannot be read, crashed where it is killed. */
  lemma ShortBuildEnds(machine: Machine, build: Build, record: Option<Record>, first: Snapshot, h: nat, changed: seq<Round>,
                       shortfall: Shortfall, died: bool)
    requires Sound(machine) && Goes(machine, build, record, first, h, changed) && |changed| < 3
    requires FallsShort(Tools(machine, build.identity), build, ChangedTo(h, changed), shortfall, died)
    ensures Built(machine, build, record).outcome == Stopped(died)
  {
    hide *;
    var tools, t := Tools(machine, build.identity), ChangedTo(h, changed);
    var from, kept := GoesOn(machine, build, record, first, h, changed);
    ShortfallDecides(tools, build, t, LatestInputs(first, changed), shortfall, died);
    RoundEnds(tools, build, 3 - |changed|, t, from, LatestInputs(first, changed), kept, Stopped(died));
  }

  lemma RoundEnds(tools: Tools, build: Build, rounds: nat, t: nat, from: nat, current: Snapshot, record: Option<Record>, outcome: Outcome)
    requires rounds > 0 && t <= |build.moments| && RoundAt(tools, build.configFiles, build.moments, t, current).0 == Ends(outcome)
    ensures RoundsAt(tools, build, rounds, t, from, current, record).outcome == outcome
  {
    hide RoundAt, Kept;
  }
}
