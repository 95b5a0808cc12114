/**
 * `generate_with_cache_dir` as a function of what the world does meanwhile: a build takes one moment
 * of it for each of its steps, and is killed where there are no more.
 */
module BuildSteps {
  import opened Sequences
  import opened Fingerprints
  import opened BuildCaches

  /** How the world stands at one step: the files, and what becomes of the step. */
  datatype Moment = Moment(disk: Disk, output: Option<Bytes>, dropsRecord: bool, auditFails: bool, writeFails: bool)

  /** The cache record: what the output was generated from, and its content digest. */
  datatype Record = Record(inputDigest: Bytes, contentDigest: Bytes)

  datatype Reading<T> = Died | Refused | Got(value: T)

  /** A snapshot: the bundle loaded and the other files read, in the order of reading, and the sorted list digested. */
  datatype Snapshot = Snapshot(bundle: Bundle, files: seq<Input>, sorted: seq<Input>)

  datatype Outcome =
    | Cached(output: Bytes)
    | Generated(written: Bytes)
    | Rejected
    | PipelineError
    | Crashed

  /** One build's configuration, and what the world does meanwhile. */
  datatype Build = Build(identity: Identity, hasCacheDir: bool, configFiles: seq<Slice>, moments: seq<Moment>)

  // ----- Reading the inputs -----

  /** Loads on with `bundle` read so far; the result, and the moments taken by then. */
  function LoadedOn(tools: Tools, m: seq<Moment>, t: nat, bundle: Bundle): (result: (Reading<Bundle>, nat))
    requires t <= |m|
    ensures t <= result.1 <= |m|
    decreases |m| - t
  {
    match tools.Next(bundle)
    case Complete => (Got(bundle), t)
    case Refuse => (Refused, t)
    case Read(path, pin) =>
      if t == |m| then (Died, t)
      else
        var content := Lookup(m[t].disk, path);
        if content.None? || !tools.Accepts(pin, content.value) then (Refused, t + 1)
        else LoadedOn(tools, m, t + 1, bundle.(documents := bundle.documents + [Input(path, content.value)]))
  }

  /** The lock file, then each document the loader asks for. */
  function LoadedAt(tools: Tools, m: seq<Moment>, t: nat): (result: (Reading<Bundle>, nat))
    requires t <= |m|
    ensures t <= result.1 <= |m| && (result.0.Got? ==> t < result.1)
  {
    if t == |m| then (Died, t)
    else LoadedOn(tools, m, t + 1, Bundle(Lookup(m[t].disk, tools.LockPath()), []))
  }

  function FilesOn(m: seq<Moment>, t: nat, paths: seq<Slice>, files: seq<Input>): (result: (Reading<seq<Input>>, nat))
    requires t <= |m|
    ensures t <= result.1 <= |m|
    decreases |paths|
  {
    if paths == [] then (Got(files), t)
    else if t == |m| then (Died, t)
    else
      var content := Lookup(m[t].disk, paths[0]);
      if content.None? then (Refused, t + 1) else FilesOn(m, t + 1, paths[1..], files + [Input(paths[0], content.value)])
  }

  /** The lock file, when there is one, and the applied config files. */
  function FilePaths(tools: Tools, configFiles: seq<Slice>, disk: Disk): seq<Slice> {
    if tools.LockPath() in disk then [tools.LockPath()] + configFiles else configFiles
  }

  /** Every input: the bundle, then the other files. */
  function SnapshotAt(tools: Tools, configFiles: seq<Slice>, m: seq<Moment>, t: nat): (result: (Reading<Snapshot>, nat))
    requires t <= |m|
    ensures t <= result.1 <= |m|
  {
    var (loaded, c) := LoadedAt(tools, m, t);
    if !loaded.Got? then (if loaded.Died? then Died else Refused, c)
    else if c == |m| then (Died, c)
    else
      var (files, to) := FilesOn(m, c + 1, FilePaths(tools, configFiles, m[c].disk), []);
      if !files.Got? then (if files.Died? then Died else Refused, to)
      else
        var chain := loaded.value.documents + files.value;
        (Got(Snapshot(loaded.value, files.value, Sorted(tools.machine.le, chain))), to)
  }

  // ----- The record, the hit and the store -----

  /** The record as it stands after the moments from `from` to `to`. */
  function Kept(record: Option<Record>, m: seq<Moment>, from: nat, to: nat): Option<Record>
    requires from <= to <= |m|
  {
    if exists k :: from <= k < to && m[k].dropsRecord then None else record
  }

  /** Whether the output is the recorded one for these inputs: the outcome if so, and the moments taken. */
  function HitAt(tools: Tools, m: seq<Moment>, t: nat, record: Option<Record>, inputs: seq<Input>)
    : (result: (Option<Outcome>, nat))
    requires t <= |m|
    ensures t <= result.1 <= |m|
  {
    if t == |m| then (Some(Crashed), t)
    else
      var content := VerifiedOutput(tools, m[t].output, Digest(tools, inputs));
      if content.None? then (None, t + 1)
      else if t + 1 == |m| then (Some(Crashed), t + 1)
      else if Kept(record, m, t, t + 2) != Some(Record(Digest(tools, inputs), content.value)) then (None, t + 2)
      else if t + 2 == |m| then (Some(Crashed), t + 2)
      else (Some(if m[t + 2].auditFails then Rejected else Cached(m[t].output.value)), t + 3)
  }

  /** Writes the module, then the record. */
  function StoredAt(tools: Tools, hasCacheDir: bool, m: seq<Moment>, t: nat, record: Option<Record>, inputs: seq<Input>, rendered: Bytes)
    : (Outcome, Option<Record>)
    requires t <= |m|
  {
    var contents := Finalized(tools, rendered, Digest(tools, inputs));
    if t == |m| then (Crashed, record)
    else if m[t].output != Some(contents) && m[t].writeFails then (PipelineError, Kept(record, m, t, t + 1))
    else if !hasCacheDir then (Generated(contents), Kept(record, m, t, t + 1))
    else if t + 1 == |m| then (Crashed, Kept(record, m, t, t + 1))
    else if m[t + 1].writeFails then (PipelineError, Kept(record, m, t, t + 2))
    else (Generated(contents), Some(Record(Digest(tools, inputs), tools.machine.hash(rendered))))
  }

  // ----- Rounds -----

  /** Renders on with `loads` loaded so far, loading the bundle as often as it takes. */
  function RenderedOn(tools: Tools, m: seq<Moment>, t: nat, loads: seq<Bundle>): (result: (Reading<Bytes>, nat))
    requires t <= |m|
    ensures t <= result.1 <= |m|
    decreases |m| - t
  {
    var (loaded, r) := LoadedAt(tools, m, t);
    if !loaded.Got? then (if loaded.Died? then Died else Refused, r)
    else
      var more := loads + [loaded.value];
      match tools.Render(more)
      case Again => RenderedOn(tools, m, r, more)
      case Rejects => (Refused, r)
      case Module(bytes) => (Got(bytes), r)
  }

  /** How a round goes: it ends the build, finds the inputs changed, or finds them as they were. */
  datatype RoundEnd =
    | Ends(outcome: Outcome)
    | Changed(from: nat, after: Snapshot)
    | Agreed(rendered: Bytes, from: nat, after: Snapshot)

  function Ended<T>(reading: Reading<T>): RoundEnd {
    Ends(if reading.Died? then Crashed else Rejected)
  }

  /** Render, audit, and read the inputs again. */
  function RoundAt(tools: Tools, configFiles: seq<Slice>, m: seq<Moment>, t: nat, current: Snapshot): (result: (RoundEnd, nat))
    requires t <= |m|
    ensures t <= result.1 <= |m|
  {
    var (rendered, r) := RenderedOn(tools, m, t, []);
    if !rendered.Got? then (Ended(rendered), r)
    else if r == |m| then (Ends(Crashed), r)
    else if m[r].auditFails then (Ends(Rejected), r + 1)
    else
      var (after, to) := SnapshotAt(tools, configFiles, m, r + 1);
      if !after.Got? then (Ended(after), to)
      else if Digest(tools, current.sorted) != Digest(tools, after.value.sorted) then (Changed(r + 1, after.value), to)
      else (Agreed(rendered.value, r + 1, after.value), to)
  }

  /** What an outcome rests on: the snapshots before and behind it, and the moments they span. */
  datatype Evidence = Evidence(from: nat, to: nat, snapshot: Snapshot, after: Snapshot)

  datatype Ending = Ending(outcome: Outcome, record: Option<Record>, evidence: Option<Evidence>)

  /** Up to `rounds` rounds, `current` having been read from moment `from` on. */
  function RoundsAt(tools: Tools, build: Build, rounds: nat, t: nat, from: nat, current: Snapshot, record: Option<Record>): Ending
    requires t <= |build.moments|
    decreases rounds
  {
    var m := build.moments;
    if rounds == 0 then Ending(PipelineError, record, None)
    else
      var (end, to) := RoundAt(tools, build.configFiles, m, t, current);
      match end
      case Ends(outcome) => Ending(outcome, Kept(record, m, t, to), None)
      case Changed(start, after) => RoundsAt(tools, build, rounds - 1, to, start, after, Kept(record, m, t, to))
      case Agreed(rendered, _, after) =>
        var (outcome, stored) := StoredAt(tools, build.hasCacheDir, m, to, Kept(record, m, t, to), current.sorted, rendered);
        Ending(outcome, stored, Some(Evidence(from, to, current, after)))
  }

  /** One build: how it ends, and the record it leaves. */
  function Built(machine: Machine, build: Build, record: Option<Record>): Ending {
    var tools, m := Tools(machine, build.identity), build.moments;
    var (taken, t) := SnapshotAt(tools, build.configFiles, m, 0);
    if !taken.Got? then Ending(if taken.Died? then Crashed else Rejected, Kept(record, m, 0, t), None)
    else
      var current := taken.value;
      if !build.hasCacheDir then RoundsAt(tools, build, 3, t, 0, current, Kept(record, m, 0, t))
      else
        var (hit, h) := HitAt(tools, m, t, Kept(record, m, 0, t), current.sorted);
        if hit.Some? then Ending(hit.value, Kept(record, m, 0, h), Some(Evidence(0, t, current, current)))
        else RoundsAt(tools, build, 3, h, 0, current, Kept(record, m, 0, h))
  }
}
