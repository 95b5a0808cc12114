/** `generate_with_cache_dir`, step by step, in a changing world. */
module CachedBuilds {
  import opened Sequences
  import opened Fingerprints
  import opened BuildCaches
  import opened BuildSteps
  import opened BuildLaws

  lemma KeptOn(record: Option<Record>, m: seq<Moment>, from: nat, via: nat, to: nat)
    requires from <= via <= to <= |m|
    ensures Kept(Kept(record, m, from, via), m, via, to) == Kept(record, m, from, to)
  {
  }

  lemma KeptOne(record: Option<Record>, m: seq<Moment>, t: nat)
    requires t < |m|
    ensures Kept(record, m, t, t) == record
    ensures Kept(record, m, t, t + 1) == if m[t].dropsRecord then None else record
  {
  }

  class CachedBuild {
    const machine: Machine
    var tools: Tools
    var configFiles: seq<Slice>
    var hasCacheDir: bool
    var disk: Disk
    var output: Option<Bytes>
    var record: Option<Record>
    /** What the world does during the current build, and how much of it has happened. */
    var moments: seq<Moment>
    var clock: nat

    constructor (machine: Machine, identity: Identity, disk: Disk, output: Option<Bytes>)
      ensures this.machine == machine && record == None
    {
      this.machine, tools, hasCacheDir, configFiles := machine, Tools(machine, identity), false, [];
      this.disk, this.output := disk, output;
      record, moments, clock := None, [], 0;
    }

    ghost predicate Valid()
      reads this
    {
      tools.machine == machine && clock <= |moments|
    }

    /** Time has passed to where it stands, and nothing but the world touched the files, the output and the record. */
    twostate predicate Waited()
      reads this
    {
      && Valid() && old(clock) <= clock && record == Kept(old(record), moments, old(clock), clock)
      && output == if clock == old(clock) then old(output) else moments[clock - 1].output
    }

    /** Let the world move: any file may change, and the record may be deleted. */
    method Tick() returns (moment: Option<Moment>)
      requires Valid()
      modifies this`disk, this`output, this`record, this`clock
      ensures Waited()
      ensures moment.None? <==> old(clock) == |moments|
      ensures moment.None? ==> clock == old(clock) && record == old(record)
      ensures moment.Some? ==>
        clock == old(clock) + 1 && moment.value == moments[old(clock)] && disk == moment.value.disk && output == moment.value.output
    {
      if clock == |moments| {
        KeptNone(record, moments, clock);
        return None;
      }
      KeptOne(record, moments, clock);
      moment := Some(moments[clock]);
      clock := clock + 1;
      disk, output := moment.value.disk, moment.value.output;
      if moment.value.dropsRecord {
        record := None;
      }
    }

    /** Load the bundle: the lock file, then each document the loader asks for. */
    method LoadBundle() returns (loaded: Reading<Bundle>)
      requires Valid()
      modifies this`disk, this`output, this`record, this`clock
      ensures Waited() && (loaded, clock) == LoadedAt(tools, moments, old(clock))
    {
      hide Kept;
      var moment := Tick();
      if moment.None? {
        return Died;
      }
      var bundle := Bundle(Lookup(disk, tools.LockPath()), []);
      while true
        invariant Waited() && old(clock) < clock
        invariant LoadedOn(tools, moments, clock, bundle) == LoadedAt(tools, moments, old(clock))
        decreases |moments| - clock
      {
        match tools.Next(bundle)
        case Complete => return Got(bundle);
        case Refuse => return Refused;
        case Read(path, pin) =>
          ghost var via := clock;
          moment := Tick();
          if moment.None? {
            return Died;
          }
          KeptOn(old(record), moments, old(clock), via, clock);
          var content := Lookup(disk, path);
          if content.None? || !tools.Accepts(pin, content.value) {
            return Refused;
          }
          bundle := bundle.(documents := bundle.documents + [Input(path, content.value)]);
      }
    }

    /** Read `paths`, in order. */
    method ReadFiles(paths: seq<Slice>) returns (read: Reading<seq<Input>>)
      requires Valid()
      modifies this`disk, this`output, this`record, this`clock
      ensures Waited() && (read, clock) == FilesOn(moments, old(clock), paths, [])
    {
      hide Kept;
      KeptNone(record, moments, clock);
      var files: seq<Input> := [];
      for i := 0 to |paths|
        invariant Waited()
        invariant FilesOn(moments, clock, paths[i..], files) == FilesOn(moments, old(clock), paths, [])
      {
        ghost var via := clock;
        assert paths[i..][0] == paths[i] && paths[i..][1..] == paths[i + 1..];
        var moment := Tick();
        if moment.None? {
          return Died;
        }
        KeptOn(old(record), moments, old(clock), via, clock);
        var content := Lookup(disk, paths[i]);
        if content.None? {
          return Refused;
        }
        files := files + [Input(paths[i], content.value)];
      }
      assert paths[|paths|..] == [];
      read := Got(files);
    }

    /** Read every input: the bundle, the lock file when there is one, and the applied config files. */
    method TakeSnapshot() returns (taken: Reading<Snapshot>)
      requires Valid() && TotalOrder(machine.le)
      modifies this`disk, this`output, this`record, this`clock
      ensures Waited() && (taken, clock) == SnapshotAt(tools, configFiles, moments, old(clock))
    {
      hide Kept, LoadedAt, FilesOn, Sorted;
      var loaded := LoadBundle();
      if !loaded.Got? {
        return if loaded.Died? then Died else Refused;
      }
      ghost var c := clock;
      var moment := Tick();
      if moment.None? {
        return Died;
      }
      KeptOn(old(record), moments, old(clock), c, clock);
      ghost var via := clock;
      var files := ReadFiles(FilePaths(tools, configFiles, disk));
      KeptOn(old(record), moments, old(clock), via, clock);
      if !files.Got? {
        return if files.Died? then Died else Refused;
      }
      var sorted := SortInputs(machine.le, loaded.value.documents + files.value);
      taken := Got(Snapshot(loaded.value, files.value, sorted));
    }

    /** Reuse the output when it and the record are of these inputs. */
    method Hit(inputs: seq<Input>) returns (outcome: Option<Outcome>)
      requires Valid()
      modifies this`disk, this`output, this`record, this`clock
      ensures Waited() && (outcome, clock) == HitAt(tools, moments, old(clock), old(record), inputs)
      ensures outcome.Some? ==> !outcome.value.Generated?
    {
      hide Kept, Digest;
      ghost var t := clock;
      var moment := Tick();
      if moment.None? {
        return Some(Crashed);
      }
      var seen := output;
      var content := VerifiedOutput(tools, seen, Digest(tools, inputs));
      if content.None? {
        return None;
      }
      moment := Tick();
      if moment.None? {
        return Some(Crashed);
      }
      KeptOn(old(record), moments, t, t + 1, t + 2);
      if record != Some(Record(Digest(tools, inputs), content.value)) {
        return None;
      }
      moment := Tick();
      if moment.None? {
        return Some(Crashed);
      }
      KeptOn(old(record), moments, t, t + 2, t + 3);
      outcome := Some(if moment.value.auditFails then Rejected else Cached(seen.value));
    }

    /** Write the module, then the record. */
    method Store(inputs: seq<Input>, rendered: Bytes) returns (outcome: Outcome)
      requires Valid()
      modifies this`disk, this`output, this`record, this`clock
      ensures Valid() && (outcome, record) == StoredAt(tools, hasCacheDir, moments, old(clock), old(record), inputs, rendered)
      ensures outcome.Generated? && !hasCacheDir ==> output == Some(outcome.written)
      ensures outcome.Generated? || outcome.PipelineError? || outcome.Crashed?
    {
      hide Kept, Finalized, Digest;
      ghost var t := clock;
      var contents := Finalized(tools, rendered, Digest(tools, inputs));
      var moment := Tick();
      if moment.None? {
        return Crashed;
      }
      if output != Some(contents) {
        if moment.value.writeFails {
          return PipelineError;
        }
        output := Some(contents);
      }
      if hasCacheDir {
        moment := Tick();
        if moment.None? {
          return Crashed;
        }
        KeptOn(old(record), moments, t, t + 1, t + 2);
        if moment.value.writeFails {
          return PipelineError;
        }
        record := Some(Record(Digest(tools, inputs), tools.machine.hash(rendered)));
      }
      outcome := Generated(contents);
    }

    /** Load the bundle and render it, as often as it takes. */
    method RenderModule() returns (rendered: Reading<Bytes>)
      requires Valid()
      modifies this`disk, this`output, this`record, this`clock
      ensures Waited() && (rendered, clock) == RenderedOn(tools, moments, old(clock), [])
    {
      hide Kept, LoadedAt;
      KeptNone(record, moments, clock);
      var loads: seq<Bundle> := [];
      while true
        invariant Waited()
        invariant RenderedOn(tools, moments, clock, loads) == RenderedOn(tools, moments, old(clock), [])
        decreases |moments| - clock
      {
        ghost var via := clock;
        var loaded := LoadBundle();
        KeptOn(old(record), moments, old(clock), via, clock);
        if !loaded.Got? {
          return if loaded.Died? then Died else Refused;
        }
        loads := loads + [loaded.value];
        match tools.Render(loads)
        case Again =>
        case Rejects => return Refused;
        case Module(bytes) => return Got(bytes);
      }
    }

    /** Render, audit, and read the inputs again. */
    method Round(current: Snapshot) returns (end: RoundEnd)
      requires Valid() && TotalOrder(machine.le)
      modifies this`disk, this`output, this`record, this`clock
      ensures Waited() && (end, clock) == RoundAt(tools, configFiles, moments, old(clock), current)
      ensures end.Ends? ==> end.outcome.Rejected? || end.outcome.Crashed?
    {
      hide Kept, RenderedOn, SnapshotAt, Digest;
      var rendered := RenderModule();
      if !rendered.Got? {
        return Ends(if rendered.Died? then Crashed else Rejected);
      }
      ghost var r := clock;
      var moment := Tick();
      if moment.None? {
        return Ends(Crashed);
      }
      KeptOn(old(record), moments, old(clock), r, clock);
      if moment.value.auditFails {
        return Ends(Rejected);
      }
      var start := clock;
      var after := TakeSnapshot();
      KeptOn(old(record), moments, old(clock), start, clock);
      if !after.Got? {
        return Ends(if after.Died? then Crashed else Rejected);
      }
      if Digest(tools, current.sorted) != Digest(tools, after.value.sorted) {
        return Changed(start, after.value);
      }
      end := Agreed(rendered.value, start, after.value);
    }

    /** One build, to its end. */
    method Generate(build: Build) returns (outcome: Outcome)
      requires TotalOrder(machine.le)
      modifies this
      ensures outcome == Built(machine, build, old(record)).outcome
      ensures record == Built(machine, build, old(record)).record
      ensures clock <= |build.moments|
      ensures outcome.Rejected? || outcome.Cached? ==>
                output == if clock == 0 then old(output) else build.moments[clock - 1].output
      ensures outcome.Generated? && !build.hasCacheDir ==> output == Some(outcome.written)
      ensures Sound(machine) ==>
                IsSafe(Tools(machine, build.identity), build.moments, old(record), Built(machine, build, old(record)))
    {
      hide Kept, RoundAt, SnapshotAt, HitAt, StoredAt, IsSafe, Sound, TotalOrder;
      SafeIfSound(machine, build, record);
      tools, hasCacheDir, configFiles := Tools(machine, build.identity), build.hasCacheDir, build.configFiles;
      moments, clock := build.moments, 0;
      var taken := TakeSnapshot();
      if !taken.Got? {
        outcome := if taken.Died? then Crashed else Rejected;
        return;
      }
      var current := taken.value;
      ghost var t, from := clock, 0;
      if hasCacheDir {
        var hit := Hit(current.sorted);
        KeptOn(old(record), moments, 0, t, clock);
        if hit.Some? {
          outcome := hit.value;
          return;
        }
      }
      for round := 0 to 3
        invariant Valid() && tools == Tools(machine, build.identity) && hasCacheDir == build.hasCacheDir
        invariant configFiles == build.configFiles && moments == build.moments
        invariant output == if clock == 0 then old(output) else moments[clock - 1].output
        invariant RoundsAt(tools, build, 3 - round, clock, from, current, record) == Built(machine, build, old(record))
      {
        ghost var via := clock;
        var end := Round(current);
        match end
        case Ends(ended) =>
          outcome := ended;
          return;
        case Changed(start, after) =>
          current, from := after, start;
        case Agreed(rendered, _, _) =>
          outcome := Store(current.sorted, rendered);
          return;
      }
      outcome := PipelineError;
    }
  }

  lemma SafeIfSound(machine: Machine, build: Build, record: Option<Record>)
    ensures Sound(machine) ==> IsSafe(Tools(machine, build.identity), build.moments, record, Built(machine, build, record))
  {
    hide IsSafe, Built;
    if Sound(machine) {
      BuildIsSafe(machine, build, record);
    }
  }

  lemma KeptNone(record: Option<Record>, m: seq<Moment>, t: nat)
    requires t <= |m|
    ensures Kept(record, m, t, t) == record
  {
  }

  /** Builds after each other, starting without a record. */
  method RunBuilds(machine: Machine, builds: seq<Build>, disk: Disk, output: Option<Bytes>) returns (outcomes: seq<Outcome>)
    requires TotalOrder(machine.le)
    ensures |outcomes| == |builds|
    ensures forall i :: 0 <= i < |builds| ==> outcomes[i] == Builds(machine, builds, None)[i].outcome
    ensures forall i :: 0 <= i < |builds| && Sound(machine) && SteadyUpto(machine, builds, Builds(machine, builds, None), i) ==>
              IsFreshOutcome(machine, builds[i], outcomes[i])
  {
    AllFresh(machine, builds);
    hide Built, SteadyUpto, Sound, IsFreshOutcome;
    outcomes := [];
    if builds == [] {
      return;
    }
    var world := new CachedBuild(machine, builds[0].identity, disk, output);
    ghost var endings := Builds(machine, builds, None);
    assert builds[0..] == builds && endings[0..] == endings;
    for k := 0 to |builds|
      invariant fresh(world) && world.machine == machine && |outcomes| == k
      invariant endings[k..] == Builds(machine, builds[k..], world.record)
      invariant forall i :: 0 <= i < k ==> outcomes[i] == endings[i].outcome
    {
      assert builds[k..][0] == builds[k] && builds[k..][1..] == builds[k + 1..];
      assert endings[k..][0] == endings[k] && endings[k..][1..] == endings[k + 1..];
      var outcome := world.Generate(builds[k]);
      outcomes := outcomes + [outcome];
    }
  }

  /** What was reused or written is the fresh module of the inputs of some snapshot that the build took. */
  ghost predicate IsFreshOutcome(machine: Machine, build: Build, outcome: Outcome) {
    match outcome
    case Cached(output) => exists from, s :: IsSource(machine, build, output, from, s)
    case Generated(written) => exists from, s :: IsSource(machine, build, written, from, s)
    case _ => true
  }

  ghost predicate IsSource(machine: Machine, build: Build, output: Bytes, from: nat, s: Snapshot) {
    var tools := Tools(machine, build.identity);
    SnapshotFrom(tools, build.moments, from, s) && IsFresh(tools, s.sorted, output)
  }

  lemma AllFresh(machine: Machine, builds: seq<Build>)
    ensures forall i :: 0 <= i < |builds| && Sound(machine) && SteadyUpto(machine, builds, Builds(machine, builds, None), i) ==>
              IsFreshOutcome(machine, builds[i], Builds(machine, builds, None)[i].outcome)
  {
    hide Built, SteadyUpto, Sound, SnapshotFrom, IsFresh;
    var endings := Builds(machine, builds, None);
    NothingIsTruthful(machine);
    forall i | 0 <= i < |builds| && Sound(machine) && SteadyUpto(machine, builds, endings, i)
      ensures IsFreshOutcome(machine, builds[i], endings[i].outcome)
    {
      NoStaleOutput(machine, builds, None, i);
      var ending := endings[i];
      if ending.outcome.Cached? {
        assert IsSource(machine, builds[i], ending.outcome.output, ending.evidence.value.from, ending.evidence.value.snapshot);
      } else if ending.outcome.Generated? {
        assert IsSource(machine, builds[i], ending.outcome.written, ending.evidence.value.from, ending.evidence.value.snapshot);
      }
    }
  }
}
