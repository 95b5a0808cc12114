/** What a build of spargen/src/pipeline.rs reads and writes: its inputs' digest, its module, its loader and renderer. */
module BuildCaches {
  import opened Sequences
  import opened Fingerprints

  type Disk = map<Slice, Slice>

  /**
   * What the loader does next: read a document, for a vendored one with the digest that the lock file
   * pins it by, stop with a whole bundle, or refuse the inputs.
   */
  datatype Demand = Read(path: Slice, pin: Option<Bytes>) | Complete | Refuse

  /** A document that a loaded one refers to: a local file, or a vendored copy with its pin. */
  datatype Wish = Local(path: Slice) | Vendored(path: Slice, digest: Bytes)

  /** What the loaded documents refer to, in the order of walking them, and whether they are accepted once all that is loaded. */
  datatype Wishes = Wishes(wishes: seq<Wish>, accepted: bool)

  /** What a renderer makes of the bundles loaded so far: nothing yet, the module, or a rejection. */
  datatype Rendering = Again | Module(bytes: Bytes) | Rejects

  /** A loaded bundle: the lock file, when there is one, and each document in load order. */
  datatype Bundle = Bundle(lock: Option<Slice>, documents: seq<Input>)

  /** What a build runs as: its configuration, the version of spargen, and the build of it. */
  datatype Identity = Identity(spec: Spec, version: Slice, build: Slice)

  /**
   * What every spargen there is does. `wants` is what the documents loaded so far refer to, given the
   * lock file. `render` may have the bundle loaded again, which auto-carving does for every round.
   */
  datatype Machine = Machine(
    wants: (Identity, Bundle) -> Wishes,
    render: (Identity, seq<Bundle>) -> Rendering,
    lockPath: Identity -> Slice,
    hash: Bytes -> Bytes,
    le: (Slice, Slice) -> bool)

  /** The first document referred to that is to be read: a local one that is loaded is not read again. */
  function FirstUnread(wishes: seq<Wish>, documents: seq<Input>): (wish: Option<Wish>)
    ensures wish.Some? && wish.value.Local? ==> FirstBytes(documents, wish.value.path).None?
  {
    if wishes == [] then None
    else if wishes[0].Local? && FirstBytes(documents, wishes[0].path).Some? then FirstUnread(wishes[1..], documents)
    else Some(wishes[0])
  }

  /** One build's part of that. */
  datatype Tools = Tools(machine: Machine, identity: Identity) {
    function Next(bundle: Bundle): Demand {
      var wishes := machine.wants(identity, bundle);
      match FirstUnread(wishes.wishes, bundle.documents)
      case Some(Local(path)) => Read(path, None)
      case Some(Vendored(path, digest)) => Read(path, Some(digest))
      case None => if wishes.accepted then Complete else Refuse
    }

    function Render(loads: seq<Bundle>): Rendering {
      machine.render(identity, loads)
    }

    function LockPath(): Slice {
      machine.lockPath(identity)
    }

    /** Bytes that a read accepts: any of a local file, and of a vendored one those that its pin names. */
    predicate Accepts(pin: Option<Bytes>, bytes: Slice) {
      pin.Some? ==> machine.hash(bytes) == pin.value
    }

    /** `document` is what the loader asks for once it has `bundle`. */
    predicate Answers(bundle: Bundle, document: Input) {
      Next(bundle).Read? && Next(bundle).path == document.path && Accepts(Next(bundle).pin, document.bytes)
    }
  }

  /** A document that is referred to and still to be read: any vendored one, and a local one that is not loaded. */
  predicate IsUnread(wish: Wish, documents: seq<Input>) {
    match wish
    case Local(path) => forall i :: 0 <= i < |documents| ==> documents[i].path != path
    case Vendored(_, _) => true
  }

  lemma {:induction false} LoadedIsFound(documents: seq<Input>, path: Slice)
    ensures FirstBytes(documents, path).Some? <==> exists i :: 0 <= i < |documents| && documents[i].path == path
  {
    if documents != [] {
      LoadedIsFound(documents[1..], path);
      assert forall i :: 1 <= i < |documents| ==> documents[i] == documents[1..][i - 1];
      if exists i :: 0 <= i < |documents[1..]| && documents[1..][i].path == path {
        var i :| 0 <= i < |documents[1..]| && documents[1..][i].path == path;
        assert documents[i + 1].path == path;
      }
    }
  }

  lemma {:induction false} FirstUnreadAt(wishes: seq<Wish>, documents: seq<Input>, k: nat)
    requires k <= |wishes| && forall j :: 0 <= j < k ==> !IsUnread(wishes[j], documents)
    requires k < |wishes| ==> IsUnread(wishes[k], documents)
    ensures FirstUnread(wishes, documents) == if k < |wishes| then Some(wishes[k]) else None
    decreases |wishes|
  {
    if wishes != [] {
      if wishes[0].Local? {
        LoadedIsFound(documents, wishes[0].path);
      }
      if k > 0 {
        assert forall j :: 0 <= j < k - 1 ==> wishes[1..][j] == wishes[j + 1];
        FirstUnreadAt(wishes[1..], documents, k - 1);
      }
    }
  }

  /**
   * The loader reads the first document referred to that is still to be read, a vendored one with its pin;
   * once there is none, it is done if what it loaded is accepted, and refuses it otherwise.
   */
  lemma NextExactly(tools: Tools, bundle: Bundle, k: nat)
    requires var wishes := tools.machine.wants(tools.identity, bundle).wishes;
             && k <= |wishes| && (forall j :: 0 <= j < k ==> !IsUnread(wishes[j], bundle.documents))
             && (k < |wishes| ==> IsUnread(wishes[k], bundle.documents))
    ensures var wanted := tools.machine.wants(tools.identity, bundle);
            if k == |wanted.wishes| then tools.Next(bundle) == if wanted.accepted then Complete else Refuse
            else
              match wanted.wishes[k]
              case Local(path) => tools.Next(bundle) == Read(path, None)
              case Vendored(path, digest) => tools.Next(bundle) == Read(path, Some(digest))
  {
    FirstUnreadAt(tools.machine.wants(tools.identity, bundle).wishes, bundle.documents, k);
  }

  /** A vendored document is accepted exactly when its digest is the pinned one. */
  lemma AcceptsExactly(tools: Tools, bytes: Slice, digest: Bytes)
    ensures tools.Accepts(None, bytes) && (tools.Accepts(Some(digest), bytes) <==> tools.machine.hash(bytes) == digest)
  {
  }

  /** Only a pinned document is read again. */
  lemma RereadIsPinned(tools: Tools, bundle: Bundle)
    requires tools.Next(bundle).Read? && FirstBytes(bundle.documents, tools.Next(bundle).path).Some?
    ensures tools.Next(bundle).pin.Some?
  {
  }

  /** Digests are injective lines of text, and paths, each with one spelling, are ordered. */
  ghost predicate Sound(machine: Machine) {
    && (forall a, b :: machine.hash(a) == machine.hash(b) ==> a == b)
    && (forall a :: LF !in machine.hash(a))
    && TotalOrder(machine.le)
  }

  function Digest(tools: Tools, inputs: seq<Input>): Bytes {
    tools.machine.hash(Fingerprint(tools.identity.spec, tools.identity.version, tools.identity.build, inputs))
  }

  /** Equal digests come from the same identity and the same inputs. */
  lemma DigestIsInjective(a: Tools, inputs: seq<Input>, b: Tools, others: seq<Input>)
    requires Sound(a.machine) && a.machine == b.machine && Digest(a, inputs) == Digest(b, others)
    ensures a == b && inputs == others
  {
    FingerprintIsInjective(a.identity.spec, a.identity.version, a.identity.build, inputs,
                           b.identity.spec, b.identity.version, b.identity.build, others);
  }

  function Lookup(disk: Disk, path: Slice): Option<Slice> {
    if path in disk then Some(disk[path]) else None
  }

  // ----- The generated module on disk -----

  /** "// input-sha256: " */
  const INPUT_PREFIX: Bytes := [47, 47, 32, 105, 110, 112, 117, 116, 45, 115, 104, 97, 50, 53, 54, 58, 32]
  /** "// content-sha256: " */
  const CONTENT_PREFIX: Bytes := [47, 47, 32, 99, 111, 110, 116, 101, 110, 116, 45, 115, 104, 97, 50, 53, 54, 58, 32]

  lemma InputPrefixAt(i: nat)
    requires i < 17
    ensures INPUT_PREFIX[i] == "// input-sha256: "[i] as int
  {
  }

  lemma ContentPrefixAt(i: nat)
    requires i < 19
    ensures CONTENT_PREFIX[i] == "// content-sha256: "[i] as int
  {
  }

  /** The two header lines open as comments that name their digest. */
  lemma HeadersSpelled()
    ensures |INPUT_PREFIX| == 17 && |CONTENT_PREFIX| == 19
    ensures forall i :: 0 <= i < 17 ==> INPUT_PREFIX[i] == "// input-sha256: "[i] as int
    ensures forall i :: 0 <= i < 19 ==> CONTENT_PREFIX[i] == "// content-sha256: "[i] as int
  {
    forall i | 0 <= i < 17
      ensures INPUT_PREFIX[i] == "// input-sha256: "[i] as int
    {
      InputPrefixAt(i);
    }
    forall i | 0 <= i < 19
      ensures CONTENT_PREFIX[i] == "// content-sha256: "[i] as int
    {
      ContentPrefixAt(i);
    }
  }

  /** The module with its two header lines. */
  function Finalized(tools: Tools, rendered: Bytes, inputDigest: Bytes): Bytes {
    INPUT_PREFIX + inputDigest + [LF] + CONTENT_PREFIX + tools.machine.hash(rendered) + [LF] + rendered
  }

  function StripPrefix(s: Bytes, prefix: Bytes): Option<Bytes> {
    if prefix <= s then Some(s[|prefix|..]) else None
  }

  /** The content digest of a module that is still the output of `inputDigest`. */
  function VerifiedOutput(tools: Tools, output: Option<Bytes>, inputDigest: Bytes): Option<Bytes> {
    if output.None? then None
    else
      var lines := SplitOn(output.value, LF);
      if |lines| < 3 then None
      else
        var body := Join(lines[2..], LF);
        var actual := tools.machine.hash(body);
        if StripPrefix(lines[0], INPUT_PREFIX) == Some(inputDigest) && StripPrefix(lines[1], CONTENT_PREFIX) == Some(actual)
        then Some(actual) else None
  }

  lemma SplitHeader(first: Bytes, second: Bytes, body: Bytes)
    requires LF !in first && LF !in second
    ensures var lines := SplitOn(first + [LF] + second + [LF] + body, LF);
            |lines| >= 3 && lines[0] == first && lines[1] == second && Join(lines[2..], LF) == body
  {
    assert first + [LF] + second + [LF] + body == first + [LF] + (second + [LF] + body);
    SplitFirst(first, LF, second + [LF] + body);
    SplitFirst(second, LF, body);
    JoinSplit(body, LF);
    var lines := [first] + ([second] + SplitOn(body, LF));
    assert lines[2..] == SplitOn(body, LF);
  }

  lemma JoinHeader(lines: seq<Bytes>)
    requires |lines| >= 3
    ensures Join(lines, LF) == lines[0] + [LF] + lines[1] + [LF] + Join(lines[2..], LF)
  {
    JoinMore(lines, LF);
    JoinMore(lines[1..], LF);
    hide Join;
    assert lines[1..][1..] == lines[2..];
    JoinTwice(lines[0], lines[1], Join(lines[2..], LF), LF);
  }

  /** A module verifies exactly when it is a finalized one: no other edit of it passes. */
  lemma VerifiedOutputAcceptsFinalized(tools: Tools, output: Bytes, inputDigest: Bytes, content: Bytes)
    requires LF !in inputDigest && forall a :: LF !in tools.machine.hash(a)
    ensures VerifiedOutput(tools, Some(output), inputDigest) == Some(content)
       <==> exists rendered :: output == Finalized(tools, rendered, inputDigest) && content == tools.machine.hash(rendered)
  {
    if VerifiedOutput(tools, Some(output), inputDigest) == Some(content) {
      var lines := SplitOn(output, LF);
      JoinSplit(output, LF);
      JoinHeader(lines);
      var rendered := Join(lines[2..], LF);
      assert lines[0] == INPUT_PREFIX + inputDigest;
      assert lines[1] == CONTENT_PREFIX + content;
      assert output == Finalized(tools, rendered, inputDigest);
    }
    forall rendered | output == Finalized(tools, rendered, inputDigest) && content == tools.machine.hash(rendered)
      ensures VerifiedOutput(tools, Some(output), inputDigest) == Some(content)
    {
      var first, second := INPUT_PREFIX + inputDigest, CONTENT_PREFIX + content;
      assert output == first + [LF] + second + [LF] + rendered;
      SplitHeader(first, second, rendered);
      assert first[|INPUT_PREFIX|..] == inputDigest && second[|CONTENT_PREFIX|..] == content;
    }
  }

  // ----- What a fresh build of given inputs produces -----

  /** Loading from exactly the files `inputs` names gives `bundle`. */
  predicate Replays(tools: Tools, inputs: seq<Input>, bundle: Bundle) {
    && bundle.lock == FirstBytes(inputs, tools.LockPath())
    && Follows(tools, bundle)
    && forall i :: 0 <= i < |bundle.documents| ==>
         FirstBytes(inputs, bundle.documents[i].path) == Some(bundle.documents[i].bytes)
  }

  function Upto(bundle: Bundle, i: nat): Bundle
    requires i <= |bundle.documents|
  {
    Bundle(bundle.lock, bundle.documents[..i])
  }

  /** The loader asks for the documents of `bundle`, in order, and then for no more. */
  predicate Follows(tools: Tools, bundle: Bundle) {
    && (forall i :: 0 <= i < |bundle.documents| ==> tools.Answers(Upto(bundle, i), bundle.documents[i]))
    && tools.Next(bundle) == Complete
  }

  /** Rendering asks for the bundle `|loads|` times, and then gives `rendered`. */
  predicate RendersBy(tools: Tools, loads: seq<Bundle>, rendered: Bytes) {
    && loads != [] && tools.Render(loads) == Module(rendered)
    && forall k :: 0 < k < |loads| ==> tools.Render(loads[..k]) == Again
  }

  function Repeated(bundle: Bundle, n: nat): (bundles: seq<Bundle>)
    ensures |bundles| == n && forall k :: 0 <= k < n ==> bundles[k] == bundle
  {
    seq(n, _ => bundle)
  }

  /** The module that exactly the files `inputs` names give, however often they are loaded. */
  ghost predicate FreshModule(tools: Tools, inputs: seq<Input>, rendered: Bytes) {
    exists bundle, n :: IsFreshBy(tools, inputs, rendered, bundle, n)
  }

  predicate IsFreshBy(tools: Tools, inputs: seq<Input>, rendered: Bytes, bundle: Bundle, n: nat) {
    Replays(tools, inputs, bundle) && RendersBy(tools, Repeated(bundle, n), rendered)
  }

  lemma {:induction false} SameDocuments(tools: Tools, inputs: seq<Input>, a: Bundle, b: Bundle, i: nat)
    requires Replays(tools, inputs, a) && Replays(tools, inputs, b) && i <= |a.documents|
    ensures i <= |b.documents| && a.documents[..i] == b.documents[..i]
  {
    if i > 0 {
      SameDocuments(tools, inputs, a, b, i - 1);
      assert Upto(a, i - 1) == Upto(b, i - 1);
      assert tools.Answers(Upto(a, i - 1), a.documents[i - 1]);
      assert Upto(b, |b.documents|) == b;
      assert a.documents[..i] == a.documents[..i - 1] + [a.documents[i - 1]];
      assert b.documents[..i] == b.documents[..i - 1] + [b.documents[i - 1]];
    }
  }

  /** Given inputs are loaded as one bundle. */
  lemma ReplayIsUnique(tools: Tools, inputs: seq<Input>, a: Bundle, b: Bundle)
    requires Replays(tools, inputs, a) && Replays(tools, inputs, b)
    ensures a == b
  {
    SameDocuments(tools, inputs, a, b, |a.documents|);
    SameDocuments(tools, inputs, b, a, |b.documents|);
    assert a.documents[..|a.documents|] == a.documents && b.documents[..|b.documents|] == b.documents;
  }

  /** Given inputs have one fresh module. */
  lemma FreshModuleIsUnique(tools: Tools, inputs: seq<Input>, x: Bytes, y: Bytes)
    requires FreshModule(tools, inputs, x) && FreshModule(tools, inputs, y)
    ensures x == y
  {
    hide Replays;
    var a, k: nat :| IsFreshBy(tools, inputs, x, a, k);
    var b, n: nat :| IsFreshBy(tools, inputs, y, b, n);
    ReplayIsUnique(tools, inputs, a, b);
    RepeatedUpto(a, if k < n then k else n, if k < n then n else k);
  }

  lemma RepeatedUpto(bundle: Bundle, k: nat, n: nat)
    requires k <= n
    ensures Repeated(bundle, n)[..k] == Repeated(bundle, k)
  {
  }

  // ----- A machine there is -----

  /** Two bytes for each byte, neither of them LF. */
  function Hex(bytes: Bytes): Bytes {
    if bytes == [] then [] else [48 + bytes[0] / 16, 48 + bytes[0] % 16] + Hex(bytes[1..])
  }

  lemma {:induction false} HexIsInjective(a: Bytes, b: Bytes)
    requires Hex(a) == Hex(b)
    ensures a == b
  {
    if a != [] && b != [] {
      var x, y := Hex(a[1..]), Hex(b[1..]);
      assert Hex(a)[0] == Hex(b)[0] && Hex(a)[1] == Hex(b)[1];
      assert a[0] == b[0];
      assert Hex(a)[2..] == x && Hex(b)[2..] == y;
      HexIsInjective(a[1..], b[1..]);
      assert a == [a[0]] + a[1..] && b == [b[0]] + b[1..];
    }
  }

  lemma {:induction false} HexIsOneLine(bytes: Bytes)
    ensures LF !in Hex(bytes)
  {
    if bytes != [] {
      HexIsOneLine(bytes[1..]);
    }
  }

  /** The order of byte strings by their first difference. */
  predicate Precedes(a: Bytes, b: Bytes) {
    a == [] || (b != [] && (a[0] < b[0] || (a[0] == b[0] && Precedes(a[1..], b[1..]))))
  }

  lemma {:induction false} PrecedesOrders(a: Bytes, b: Bytes, c: Bytes)
    ensures Precedes(a, b) || Precedes(b, a)
    ensures Precedes(a, b) && Precedes(b, a) ==> a == b
    ensures Precedes(a, b) && Precedes(b, c) ==> Precedes(a, c)
  {
    if a != [] && b != [] {
      PrecedesOrders(a[1..], b[1..], if c == [] then [] else c[1..]);
      assert a == [a[0]] + a[1..] && b == [b[0]] + b[1..];
    }
  }

  /** A machine that loads and renders as it is told. */
  function SomeMachine(wants: (Identity, Bundle) -> Wishes, render: (Identity, seq<Bundle>) -> Rendering, lockPath: Identity -> Slice): Machine {
    Machine(wants, render, lockPath, bytes => Hex(bytes), (a, b) => Precedes(a, b))
  }

  /** What is asked of a machine can be had, whatever it loads and renders. */
  lemma SomeMachineIsSound(wants: (Identity, Bundle) -> Wishes, render: (Identity, seq<Bundle>) -> Rendering, lockPath: Identity -> Slice)
    ensures Sound(SomeMachine(wants, render, lockPath))
  {
    var machine := SomeMachine(wants, render, lockPath);
    forall a, b | machine.hash(a) == machine.hash(b)
      ensures a == b
    {
      HexIsInjective(a, b);
    }
    forall a
      ensures LF !in machine.hash(a)
    {
      HexIsOneLine(a);
    }
    forall a: Slice, b: Slice, c: Slice
      ensures machine.le(a, b) || machine.le(b, a)
      ensures machine.le(a, b) && machine.le(b, a) ==> a == b
      ensures machine.le(a, b) && machine.le(b, c) ==> machine.le(a, c)
    {
      PrecedesOrders(a, b, c);
    }
  }
}
