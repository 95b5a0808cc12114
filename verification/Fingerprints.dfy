/** The input digest of spargen/src/cache.rs: what it frames, and that the framing loses nothing. */
module Fingerprints {
  import opened Sequences
  import opened Arithmetic

  /** A byte slice: its length fits 64 bits. */
  type Slice = s: Bytes | |s| < U64_LIMIT

  type Word = n: nat | n < U64_LIMIT

  datatype Input = Input(path: Slice, bytes: Slice)

  datatype Switches = Switches(uuid: bool, time: bool, carve: bool, openNarrowing: bool, openUnions: bool)

  /** What a build is configured with; `omit` is the omit profile's canonical encoding. */
  datatype Spec = Spec(path: Slice, switches: Switches, errorBodyCap: Word, batchCap: Word, omit: Slice)

  /** "spargen-build-input-v1" and a NUL. */
  const PREFIX: Bytes :=
    [115, 112, 97, 114, 103, 101, 110, 45, 98, 117, 105, 108, 100, 45, 105, 110, 112, 117, 116, 45, 118, 49, 0]

  /** `n` in `width` bytes, most significant first. */
  function BigEndian(n: nat, width: nat): (bytes: Bytes)
    ensures |bytes| == width
  {
    if width == 0 then [] else BigEndian(n / 256, width - 1) + [n % 256]
  }

  function FromBigEndian(bytes: Bytes): nat {
    if bytes == [] then 0 else 256 * FromBigEndian(bytes[..|bytes| - 1]) + bytes[|bytes| - 1]
  }

  function Power256(width: nat): nat {
    if width == 0 then 1 else 256 * Power256(width - 1)
  }

  lemma {:induction false} BigEndianRoundTrip(n: nat, width: nat)
    requires n < Power256(width)
    ensures FromBigEndian(BigEndian(n, width)) == n
  {
    if width > 0 {
      BigEndianRoundTrip(n / 256, width - 1);
      var front := BigEndian(n / 256, width - 1);
      assert (front + [n % 256])[..width - 1] == front;
    }
  }

  function Be64(n: Word): (bytes: Slice)
    ensures |bytes| == 8
  {
    BigEndian(n, 8)
  }

  lemma Be64IsInjective(m: Word, n: Word)
    requires Be64(m) == Be64(n)
    ensures m == n
  {
    assert Power256(8) == U64_LIMIT by {
      assert Power256(2) == 0x1_0000;
      assert Power256(4) == 0x1_0000_0000;
      assert Power256(6) == 0x1_0000_0000_0000;
    }
    BigEndianRoundTrip(m, 8);
    BigEndianRoundTrip(n, 8);
  }

  function Flag(b: bool): Slice {
    if b then [1] else [0]
  }

  /** Each field with its length ahead of it. */
  function Frame(fields: seq<Slice>): Bytes {
    if fields == [] then [] else Be64(|fields[0]|) + fields[0] + Frame(fields[1..])
  }

  lemma {:induction false} FrameIsInjective(a: seq<Slice>, b: seq<Slice>)
    requires Frame(a) == Frame(b)
    ensures a == b
  {
    if a == [] || b == [] {
      assert a != [] ==> |Frame(a)| >= 8;
      assert b != [] ==> |Frame(b)| >= 8;
    } else {
      var s := Frame(a);
      assert s[..8] == Be64(|a[0]|) && s[..8] == Be64(|b[0]|);
      Be64IsInjective(|a[0]|, |b[0]|);
      var end := 8 + |a[0]|;
      assert s[8..end] == a[0] && s[8..end] == b[0];
      assert s[end..] == Frame(a[1..]) && s[end..] == Frame(b[1..]);
      FrameIsInjective(a[1..], b[1..]);
      assert a == [a[0]] + a[1..] && b == [b[0]] + b[1..];
    }
  }

  function InputFields(inputs: seq<Input>): seq<Slice> {
    if inputs == [] then [] else [inputs[0].path, inputs[0].bytes] + InputFields(inputs[1..])
  }

  function SpecFields(spec: Spec, version: Slice, build: Slice): (fields: seq<Slice>)
    ensures |fields| == 11
  {
    var s := spec.switches;
    [version, build, spec.path, Flag(s.uuid), Flag(s.time), Be64(spec.errorBodyCap), Be64(spec.batchCap),
     Flag(s.carve), Flag(s.openNarrowing), Flag(s.openUnions), spec.omit]
  }

  /** The byte string the digest hashes. */
  function Fingerprint(spec: Spec, version: Slice, build: Slice, inputs: seq<Input>): Bytes {
    PREFIX + Frame(SpecFields(spec, version, build) + InputFields(inputs))
  }

  lemma {:induction false} InputFieldsIsInjective(a: seq<Input>, b: seq<Input>)
    requires InputFields(a) == InputFields(b)
    ensures a == b
  {
    if a != [] && b != [] {
      var fields := InputFields(a);
      assert fields[0] == a[0].path == b[0].path && fields[1] == a[0].bytes == b[0].bytes;
      assert fields[2..] == InputFields(a[1..]) && fields[2..] == InputFields(b[1..]);
      InputFieldsIsInjective(a[1..], b[1..]);
      assert a == [a[0]] + a[1..] && b == [b[0]] + b[1..];
    }
  }

  lemma SpecFieldsIsInjective(s1: Spec, v1: Slice, b1: Slice, s2: Spec, v2: Slice, b2: Slice)
    requires SpecFields(s1, v1, b1) == SpecFields(s2, v2, b2)
    ensures s1 == s2 && v1 == v2 && b1 == b2
  {
    var f, g := SpecFields(s1, v1, b1), SpecFields(s2, v2, b2);
    assert forall i :: 0 <= i < 11 ==> f[i] == g[i];
    assert f[0] == v1 && f[1] == b1 && f[2] == s1.path && f[10] == s1.omit;
    assert f[3] == Flag(s1.switches.uuid) && f[4] == Flag(s1.switches.time);
    assert f[5] == Be64(s1.errorBodyCap) && f[6] == Be64(s1.batchCap);
    Be64IsInjective(s1.errorBodyCap, s2.errorBodyCap);
    Be64IsInjective(s1.batchCap, s2.batchCap);
    assert forall p, q :: Flag(p) == Flag(q) ==> p == q by {
      forall p, q | Flag(p) == Flag(q) ensures p == q { assert Flag(p)[0] == Flag(q)[0]; }
    }
    assert f[7] == Flag(s1.switches.carve) && f[8] == Flag(s1.switches.openNarrowing) && f[9] == Flag(s1.switches.openUnions);
  }

  /** Equal byte strings come from the same spargen, the same configuration and the same inputs. */
  lemma FingerprintIsInjective(s1: Spec, v1: Slice, b1: Slice, i1: seq<Input>, s2: Spec, v2: Slice, b2: Slice, i2: seq<Input>)
    requires Fingerprint(s1, v1, b1, i1) == Fingerprint(s2, v2, b2, i2)
    ensures s1 == s2 && v1 == v2 && b1 == b2 && i1 == i2
  {
    var f, g := SpecFields(s1, v1, b1), SpecFields(s2, v2, b2);
    var x, y := f + InputFields(i1), g + InputFields(i2);
    var whole := Fingerprint(s1, v1, b1, i1);
    assert whole[|PREFIX|..] == Frame(x) && whole[|PREFIX|..] == Frame(y);
    FrameIsInjective(x, y);
    assert x[..11] == f && y[..11] == g && x[11..] == InputFields(i1) && y[11..] == InputFields(i2);
    SpecFieldsIsInjective(s1, v1, b1, s2, v2, b2);
    InputFieldsIsInjective(i1, i2);
  }

  /** Feeds the hasher field by field, each framed as it is fed. */
  method FeedFingerprint(spec: Spec, version: Slice, build: Slice, inputs: seq<Input>) returns (fed: Bytes)
    ensures fed == Fingerprint(spec, version, build, inputs)
  {
    hide Frame;
    hide Be64;
    var fields := SpecFields(spec, version, build);
    fed := PREFIX;
    NothingToFrame();
    for i := 0 to |fields|
      invariant fed == PREFIX + Frame(fields[..i])
    {
      FrameAppend(fields[..i], [fields[i]]);
      FrameOne(fields[i]);
      assert fields[..i] + [fields[i]] == fields[..i + 1];
      fed := fed + Be64(|fields[i]|) + fields[i];
    }
    assert fields[..|fields|] == fields;
    assert fields + InputFields(inputs[..0]) == fields;
    for i := 0 to |inputs|
      invariant fed == PREFIX + Frame(fields + InputFields(inputs[..i]))
    {
      var input := inputs[i];
      InputFieldsAppend(inputs[..i], input);
      assert inputs[..i] + [input] == inputs[..i + 1];
      ghost var framed := fields + InputFields(inputs[..i]);
      FrameAppend(framed, [input.path]);
      FrameAppend(framed + [input.path], [input.bytes]);
      FrameOne(input.path);
      FrameOne(input.bytes);
      assert framed + [input.path] + [input.bytes] == fields + InputFields(inputs[..i + 1]);
      fed := fed + Be64(|input.path|) + input.path;
      fed := fed + Be64(|input.bytes|) + input.bytes;
    }
    assert inputs[..|inputs|] == inputs;
  }

  lemma NothingToFrame()
    ensures Frame([]) == []
  {
  }

  lemma {:induction false} FrameAppend(a: seq<Slice>, b: seq<Slice>)
    ensures Frame(a + b) == Frame(a) + Frame(b)
  {
    hide Be64;
    if a == [] {
      assert a + b == b;
    } else {
      FrameAppend(a[1..], b);
      assert (a + b)[1..] == a[1..] + b;
    }
  }

  lemma FrameOne(field: Slice)
    ensures Frame([field]) == Be64(|field|) + field
  {
    assert Frame([field][1..]) == [];
  }

  lemma {:induction false} InputFieldsAppend(inputs: seq<Input>, input: Input)
    ensures InputFields(inputs + [input]) == InputFields(inputs) + [input.path, input.bytes]
  {
    if inputs == [] {
      assert inputs + [input] == [input];
      assert [input][1..] == [];
    } else {
      InputFieldsAppend(inputs[1..], input);
      assert (inputs + [input])[1..] == inputs[1..] + [input];
    }
  }

  // ----- The byte string, spelled out -----

  function PowerOf256(n: nat): (p: nat)
    ensures p > 0
  {
    if n == 0 then 1 else PowerOf256(n - 1) * 256
  }

  /** The byte worth `256^i` stands `i` places from the end. */
  lemma {:induction false} BigEndianAt(n: nat, width: nat, i: nat)
    requires i < width
    ensures BigEndian(n, width)[width - 1 - i] == n / PowerOf256(i) % 256
    decreases width
  {
    if i > 0 {
      BigEndianAt(n / 256, width - 1, i - 1);
      DivideTwice(n, 256, PowerOf256(i - 1));
    }
  }

  lemma DivideTwice(n: nat, a: nat, b: nat)
    requires a > 0 && b > 0
    ensures b * a > 0 && n / a / b == n / (b * a)
  {
    var q, r := n / a, n % a;
    var p, t := q / b, q % b;
    SplitTwice(n, a, b, p, t, r);
    QuotientIs(n, b * a, p, a * t + r);
  }

  lemma SplitTwice(n: nat, a: nat, b: nat, p: nat, t: nat, r: nat)
    requires t < b && r < a && n == a * (b * p + t) + r
    ensures n == (b * a) * p + (a * t + r) && 0 <= a * t + r < b * a
  {
    assert a * (b * p + t) == (b * a) * p + a * t;
    assert a * t <= a * (b - 1) == b * a - a;
  }

  /** A field behind its length in eight bytes. */
  function Framed(field: Slice): Bytes {
    Be64(|field|) + field
  }

  lemma PrefixAt(i: nat)
    requires i < 22
    ensures PREFIX[i] == "spargen-build-input-v1"[i] as int
  {
  }

  lemma PrefixSpelled()
    ensures |PREFIX| == 23 && PREFIX[22] == 0
    ensures forall i :: 0 <= i < 22 ==> PREFIX[i] == "spargen-build-input-v1"[i] as int
  {
    forall i | 0 <= i < 22
      ensures PREFIX[i] == "spargen-build-input-v1"[i] as int
    {
      PrefixAt(i);
    }
  }

  /** Each field behind its length, the later ones behind the earlier ones. */
  function AllFramed(fields: seq<Slice>): Bytes {
    if fields == [] then [] else AllFramed(fields[..|fields| - 1]) + Framed(fields[|fields| - 1])
  }

  lemma {:induction false} FramesAll(fields: seq<Slice>)
    ensures Frame(fields) == AllFramed(fields)
  {
    hide Be64, Framed;
    if fields != [] {
      var front, last := fields[..|fields| - 1], fields[|fields| - 1];
      assert fields == front + [last];
      FramesAll(front);
      FrameAppend(front, [last]);
      FramesOne(last);
    }
  }

  lemma FramesOne(field: Slice)
    ensures Frame([field]) == Framed(field)
  {
    FrameOne(field);
  }

  function PathsAndBytes(inputs: seq<Input>): seq<Slice> {
    if inputs == [] then []
    else PathsAndBytes(inputs[..|inputs| - 1]) + [inputs[|inputs| - 1].path, inputs[|inputs| - 1].bytes]
  }

  lemma {:induction false} FieldsOfInputs(inputs: seq<Input>)
    ensures InputFields(inputs) == PathsAndBytes(inputs)
  {
    if inputs != [] {
      var front, last := inputs[..|inputs| - 1], inputs[|inputs| - 1];
      assert inputs == front + [last];
      FieldsOfInputs(front);
      InputFieldsAppend(front, last);
    }
  }

  function Bit(b: bool): Slice {
    if b then [1] else [0]
  }

  /**
   * The byte string is the name of the format, then the version and build of spargen, the spec's path, its
   * switches and caps and the omit profile, and then each input's path and bytes, each behind its length.
   */
  lemma FingerprintSpelled(spec: Spec, version: Slice, build: Slice, inputs: seq<Input>)
    ensures var s := spec.switches;
            var fields := [version, build, spec.path, Bit(s.uuid), Bit(s.time), Be64(spec.errorBodyCap), Be64(spec.batchCap),
                           Bit(s.carve), Bit(s.openNarrowing), Bit(s.openUnions), spec.omit];
            Fingerprint(spec, version, build, inputs) == PREFIX + AllFramed(fields + PathsAndBytes(inputs))
  {
    hide Be64, Frame, AllFramed;
    FieldsOfInputs(inputs);
    FramesAll(SpecFields(spec, version, build) + InputFields(inputs));
  }

  // ----- Sorting the inputs -----

  /** `le` compares any two paths; it may take several spellings for one path, as a comparison by components does. */
  ghost predicate Preorder(le: (Slice, Slice) -> bool) {
    && (forall a, b :: le(a, b) || le(b, a))
    && (forall a, b, c :: le(a, b) && le(b, c) ==> le(a, c))
  }

  /** No two spellings are one path. */
  ghost predicate TotalOrder(le: (Slice, Slice) -> bool) {
    Preorder(le) && forall a, b :: Same(le, a, b) ==> a == b
  }

  predicate Same(le: (Slice, Slice) -> bool, a: Slice, b: Slice) {
    le(a, b) && le(b, a)
  }

  predicate Below(le: (Slice, Slice) -> bool, a: Slice, b: Slice) {
    le(a, b) && !le(b, a)
  }

  /** The first entry for `path`, in whichever spelling. */
  function FirstEntry(le: (Slice, Slice) -> bool, inputs: seq<Input>, path: Slice): Option<Input> {
    if inputs == [] then None
    else if Same(le, inputs[0].path, path) then Some(inputs[0])
    else FirstEntry(le, inputs[1..], path)
  }

  predicate Ordered(le: (Slice, Slice) -> bool, inputs: seq<Input>) {
    forall i, j :: 0 <= i < j < |inputs| ==> le(inputs[i].path, inputs[j].path)
  }

  predicate StrictlyOrdered(le: (Slice, Slice) -> bool, inputs: seq<Input>) {
    forall i, j :: 0 <= i < j < |inputs| ==> Below(le, inputs[i].path, inputs[j].path)
  }

  /** `x` placed after every entry that is not past it. */
  function InsertAfter(le: (Slice, Slice) -> bool, inputs: seq<Input>, x: Input): seq<Input> {
    if inputs == [] then [x]
    else if le(inputs[0].path, x.path) then [inputs[0]] + InsertAfter(le, inputs[1..], x)
    else [x] + inputs
  }

  /** The stable order of `inputs` by path. */
  function StableSorted(le: (Slice, Slice) -> bool, inputs: seq<Input>): seq<Input> {
    if inputs == [] then []
    else InsertAfter(le, StableSorted(le, inputs[..|inputs| - 1]), inputs[|inputs| - 1])
  }

  lemma {:induction false} InsertAfterOrders(le: (Slice, Slice) -> bool, inputs: seq<Input>, x: Input)
    requires Preorder(le) && Ordered(le, inputs)
    ensures Ordered(le, InsertAfter(le, inputs, x))
    ensures forall y :: y in InsertAfter(le, inputs, x) ==> y in inputs || y == x
  {
    if inputs != [] {
      var head, tail := inputs[0], inputs[1..];
      if le(head.path, x.path) {
        InsertAfterOrders(le, tail, x);
        var inserted := InsertAfter(le, tail, x);
        forall i | 0 <= i < |inserted|
          ensures le(head.path, inserted[i].path)
        {
          assert inserted[i] in tail || inserted[i] == x;
        }
      } else {
        PastHead(le, inputs, x.path);
      }
    }
  }

  lemma PastHead(le: (Slice, Slice) -> bool, inputs: seq<Input>, path: Slice)
    requires Preorder(le) && Ordered(le, inputs) && inputs != [] && !le(inputs[0].path, path)
    ensures forall i :: 0 <= i < |inputs| ==> Below(le, path, inputs[i].path)
  {
    forall i | 0 <= i < |inputs|
      ensures Below(le, path, inputs[i].path)
    {
      assert i > 0 ==> le(inputs[0].path, inputs[i].path);
    }
  }

  /** What looking in `inputs`, and then at `x`, finds for `path`. */
  function Otherwise(le: (Slice, Slice) -> bool, inputs: seq<Input>, x: Input, path: Slice): Option<Input> {
    if FirstEntry(le, inputs, path).Some? then FirstEntry(le, inputs, path)
    else if Same(le, x.path, path) then Some(x)
    else None
  }

  lemma {:induction false} InsertAfterKeeps(le: (Slice, Slice) -> bool, inputs: seq<Input>, x: Input, path: Slice)
    requires Preorder(le) && Ordered(le, inputs)
    ensures FirstEntry(le, InsertAfter(le, inputs, x), path) == Otherwise(le, inputs, x, path)
  {
    if inputs != [] {
      var head, tail := inputs[0], inputs[1..];
      if le(head.path, x.path) {
        InsertAfterKeeps(le, tail, x, path);
        var inserted := InsertAfter(le, tail, x);
        assert ([head] + inserted)[1..] == inserted;
      } else {
        assert ([x] + inputs)[1..] == inputs;
        PastHead(le, inputs, x.path);
        if Same(le, x.path, path) {
          AbsentEntry(le, inputs, path);
        }
      }
    } else {
      assert [x][1..] == [];
    }
  }

  lemma {:induction false} AbsentEntry(le: (Slice, Slice) -> bool, inputs: seq<Input>, path: Slice)
    requires forall i :: 0 <= i < |inputs| ==> !Same(le, inputs[i].path, path)
    ensures FirstEntry(le, inputs, path) == None
  {
    if inputs != [] {
      AbsentEntry(le, inputs[1..], path);
    }
  }

  lemma {:induction false} FirstEntryAppend(le: (Slice, Slice) -> bool, inputs: seq<Input>, x: Input, path: Slice)
    ensures FirstEntry(le, inputs + [x], path) == Otherwise(le, inputs, x, path)
  {
    if inputs == [] {
      assert inputs + [x] == [x];
      assert [x][1..] == [];
    } else {
      FirstEntryAppend(le, inputs[1..], x, path);
      assert (inputs + [x])[1..] == inputs[1..] + [x];
    }
  }

  lemma {:induction false} StableSortedKeeps(le: (Slice, Slice) -> bool, inputs: seq<Input>, path: Slice)
    requires Preorder(le)
    ensures Ordered(le, StableSorted(le, inputs))
    ensures FirstEntry(le, StableSorted(le, inputs), path) == FirstEntry(le, inputs, path)
  {
    if inputs != [] {
      var front, last := inputs[..|inputs| - 1], inputs[|inputs| - 1];
      assert inputs == front + [last];
      StableSortedKeeps(le, front, path);
      hide Preorder, Ordered;
      InsertAfterOrders(le, StableSorted(le, front), last);
      InsertAfterKeeps(le, StableSorted(le, front), last, path);
      FirstEntryAppend(le, front, last, path);
    }
  }

  /** `sorted` has the first entry of each path of `inputs`, as it is spelled there, and the paths in order. */
  ghost predicate Canonical(le: (Slice, Slice) -> bool, inputs: seq<Input>, sorted: seq<Input>) {
    StrictlyOrdered(le, sorted) && forall path :: FirstEntry(le, sorted, path) == FirstEntry(le, inputs, path)
  }

  /** The entries without those that have the path of the one kept before them. */
  function Deduped(le: (Slice, Slice) -> bool, inputs: seq<Input>): seq<Input> {
    if inputs == [] then []
    else
      var before, last := Deduped(le, inputs[..|inputs| - 1]), inputs[|inputs| - 1];
      if before != [] && Same(le, before[|before| - 1].path, last.path) then before else before + [last]
  }

  /** Every input with its bytes, sorted and deduplicated by path; the first entry of a path is kept. */
  function Sorted(le: (Slice, Slice) -> bool, inputs: seq<Input>): seq<Input> {
    Deduped(le, StableSorted(le, inputs))
  }

  lemma {:induction false} DedupedOrders(le: (Slice, Slice) -> bool, ordered: seq<Input>)
    requires Preorder(le) && Ordered(le, ordered)
    ensures StrictlyOrdered(le, Deduped(le, ordered))
    ensures ordered == [] <==> Deduped(le, ordered) == []
    ensures ordered != [] ==> Same(le, Deduped(le, ordered)[|Deduped(le, ordered)| - 1].path, ordered[|ordered| - 1].path)
  {
    if ordered != [] {
      var front, last := ordered[..|ordered| - 1], ordered[|ordered| - 1];
      DedupedOrders(le, front);
      var before := Deduped(le, front);
      if before != [] && !Same(le, before[|before| - 1].path, last.path) {
        assert le(front[|front| - 1].path, last.path);
        LastBelow(le, before, last.path);
      }
    }
  }

  lemma {:induction false} DedupedKeeps(le: (Slice, Slice) -> bool, ordered: seq<Input>, path: Slice)
    requires Preorder(le)
    ensures FirstEntry(le, Deduped(le, ordered), path) == FirstEntry(le, ordered, path)
  {
    if ordered != [] {
      var front, last := ordered[..|ordered| - 1], ordered[|ordered| - 1];
      var before := Deduped(le, front);
      DedupedKeeps(le, front, path);
      assert ordered == front + [last];
      FirstEntryAppend(le, front, last, path);
      FirstEntryAppend(le, before, last, path);
      if before != [] {
        LastPresent(le, before, path);
      }
    }
  }

  lemma SortedIsCanonical(le: (Slice, Slice) -> bool, inputs: seq<Input>)
    requires Preorder(le)
    ensures Canonical(le, inputs, Sorted(le, inputs))
  {
    hide Preorder, Ordered, StrictlyOrdered, StableSorted, Deduped;
    StableSortedKeeps(le, inputs, []);
    DedupedOrders(le, StableSorted(le, inputs));
    forall path
      ensures FirstEntry(le, Sorted(le, inputs), path) == FirstEntry(le, inputs, path)
    {
      StableSortedKeeps(le, inputs, path);
      DedupedKeeps(le, StableSorted(le, inputs), path);
    }
  }

  /** Sorts the inputs, then drops each that has the path of the one kept before it. */
  method SortInputs(le: (Slice, Slice) -> bool, inputs: seq<Input>) returns (sorted: seq<Input>)
    requires Preorder(le)
    ensures sorted == Sorted(le, inputs) && Canonical(le, inputs, sorted)
  {
    hide Preorder, StableSorted;
    var ordered := StableSorted(le, inputs);
    sorted := [];
    for i := 0 to |ordered|
      invariant sorted == Deduped(le, ordered[..i])
    {
      assert ordered[..i + 1][..i] == ordered[..i];
      if sorted == [] || !Same(le, sorted[|sorted| - 1].path, ordered[i].path) {
        sorted := sorted + [ordered[i]];
      }
    }
    assert ordered[..|ordered|] == ordered;
    SortedIsCanonical(le, inputs);
  }

  lemma LastBelow(le: (Slice, Slice) -> bool, sorted: seq<Input>, path: Slice)
    requires Preorder(le) && StrictlyOrdered(le, sorted) && sorted != [] && Below(le, sorted[|sorted| - 1].path, path)
    ensures forall i :: 0 <= i < |sorted| ==> Below(le, sorted[i].path, path)
  {
    forall i | 0 <= i < |sorted|
      ensures Below(le, sorted[i].path, path)
    {
      assert i < |sorted| - 1 ==> Below(le, sorted[i].path, sorted[|sorted| - 1].path);
    }
  }

  lemma {:induction false} LastPresent(le: (Slice, Slice) -> bool, inputs: seq<Input>, path: Slice)
    requires inputs != []
    ensures Same(le, inputs[|inputs| - 1].path, path) ==> FirstEntry(le, inputs, path).Some?
  {
    if |inputs| > 1 {
      LastPresent(le, inputs[1..], path);
    }
  }

  /** There is only one such list. */
  lemma {:induction false} CanonicalIsUnique(le: (Slice, Slice) -> bool, a: seq<Input>, b: seq<Input>)
    requires Preorder(le) && StrictlyOrdered(le, a) && StrictlyOrdered(le, b)
    requires forall path :: FirstEntry(le, a, path) == FirstEntry(le, b, path)
    ensures a == b
  {
    hide StrictlyOrdered;
    assert a != [] ==> FirstEntry(le, a, a[0].path) == FirstEntry(le, b, a[0].path);
    assert b != [] ==> FirstEntry(le, a, b[0].path) == FirstEntry(le, b, b[0].path);
    if a != [] {
      HeadsAgree(le, a, b);
      forall path
        ensures FirstEntry(le, a[1..], path) == FirstEntry(le, b[1..], path)
      {
        assert FirstEntry(le, a, path) == FirstEntry(le, b, path);
        if Same(le, a[0].path, path) {
          TailAbsent(le, a, path);
          TailAbsent(le, b, path);
        }
      }
      TailOrdered(le, a);
      TailOrdered(le, b);
      CanonicalIsUnique(le, a[1..], b[1..]);
      assert a == [a[0]] + a[1..] && b == [b[0]] + b[1..];
    }
  }

  lemma TailOrdered(le: (Slice, Slice) -> bool, inputs: seq<Input>)
    requires StrictlyOrdered(le, inputs) && inputs != []
    ensures StrictlyOrdered(le, inputs[1..])
  {
  }

  lemma TailAbsent(le: (Slice, Slice) -> bool, inputs: seq<Input>, path: Slice)
    requires Preorder(le) && StrictlyOrdered(le, inputs) && inputs != [] && Same(le, inputs[0].path, path)
    ensures FirstEntry(le, inputs[1..], path) == None
  {
    forall i | 0 <= i < |inputs[1..]|
      ensures !Same(le, inputs[1..][i].path, path)
    {
      assert Below(le, inputs[0].path, inputs[i + 1].path);
    }
    AbsentEntry(le, inputs[1..], path);
  }

  lemma HeadsAgree(le: (Slice, Slice) -> bool, a: seq<Input>, b: seq<Input>)
    requires Preorder(le) && StrictlyOrdered(le, a) && StrictlyOrdered(le, b) && a != []
    requires FirstEntry(le, a, a[0].path) == FirstEntry(le, b, a[0].path)
    requires b != [] ==> FirstEntry(le, a, b[0].path) == FirstEntry(le, b, b[0].path)
    ensures b != [] && a[0] == b[0]
  {
    var i := EntryAt(le, b, a[0].path);
    var j := EntryAt(le, a, b[0].path);
    assert i > 0 ==> Below(le, b[0].path, b[i].path);
    assert j > 0 ==> Below(le, a[0].path, a[j].path);
  }

  lemma {:induction false} EntryAt(le: (Slice, Slice) -> bool, inputs: seq<Input>, path: Slice) returns (i: nat)
    requires FirstEntry(le, inputs, path).Some?
    ensures i < |inputs| && Same(le, inputs[i].path, path) && FirstEntry(le, inputs, path) == Some(inputs[i])
  {
    if Same(le, inputs[0].path, path) {
      i := 0;
    } else {
      i := EntryAt(le, inputs[1..], path);
      i := i + 1;
    }
  }

  // ----- Paths of one spelling -----

  /** The bytes of the first entry for `path`, spelled so. */
  function FirstBytes(inputs: seq<Input>, path: Slice): Option<Slice> {
    if inputs == [] then None
    else if inputs[0].path == path then Some(inputs[0].bytes)
    else FirstBytes(inputs[1..], path)
  }

  lemma {:induction false} FirstBytesAppend(inputs: seq<Input>, x: Input, path: Slice)
    ensures FirstBytes(inputs + [x], path)
         == if FirstBytes(inputs, path).Some? then FirstBytes(inputs, path)
            else if path == x.path then Some(x.bytes) else None
  {
    if inputs == [] {
      assert inputs + [x] == [x];
      assert [x][1..] == [];
    } else {
      FirstBytesAppend(inputs[1..], x, path);
      assert (inputs + [x])[1..] == inputs[1..] + [x];
    }
  }

  lemma {:induction false} FirstBytesAreEntry(le: (Slice, Slice) -> bool, inputs: seq<Input>, path: Slice)
    requires TotalOrder(le)
    ensures FirstBytes(inputs, path)
         == if FirstEntry(le, inputs, path).Some? then Some(FirstEntry(le, inputs, path).value.bytes) else None
  {
    if inputs != [] {
      assert Same(le, inputs[0].path, path) ==> inputs[0].path == path;
      FirstBytesAreEntry(le, inputs[1..], path);
    }
  }

  /** Where each path has one spelling, sorting keeps the bytes of each path's first entry. */
  lemma SortedKeepsBytes(le: (Slice, Slice) -> bool, inputs: seq<Input>, path: Slice)
    requires TotalOrder(le)
    ensures FirstBytes(Sorted(le, inputs), path) == FirstBytes(inputs, path)
  {
    SortedIsCanonical(le, inputs);
    FirstBytesAreEntry(le, inputs, path);
    FirstBytesAreEntry(le, Sorted(le, inputs), path);
  }
}
