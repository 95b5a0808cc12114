/** The base64 codec of support-runtime/src/base64.rs (section 4 of RFC 4648). */
module Base64 {
  import opened Sequences
  import opened Arithmetic

  type Sextet = n: nat | n < 64

  const PAD: Byte := 61

  /** The character of a sextet in the standard alphabet. */
  function Letter(n: Sextet): Byte {
    if n < 26 then 65 + n
    else if n < 52 then 97 + (n - 26)
    else if n < 62 then 48 + (n - 52)
    else if n == 62 then 43
    else 47
  }

  /** The sextet of one alphabet character, or `None` for any other byte. */
  function SextetOf(c: Byte): (n: Option<Sextet>)
    ensures n.Some? ==> Letter(n.value) == c
  {
    if 65 <= c <= 90 then Some(c - 65)
    else if 97 <= c <= 122 then Some(c - 97 + 26)
    else if 48 <= c <= 57 then Some(c - 48 + 52)
    else if c == 43 then Some(62)
    else if c == 47 then Some(63)
    else None
  }

  lemma LetterReads(n: Sextet)
    ensures SextetOf(Letter(n)) == Some(n) && Letter(n) != PAD
  {
  }

  // ----- Quanta -----

  function Min(a: nat, b: nat): nat {
    if a < b then a else b
  }

  /** The sextets that one to three bytes fill, six bits each, the last one filled up with zero bits. */
  function Sextets(chunk: Bytes): (sextets: seq<Sextet>)
    requires 1 <= |chunk| <= 3
    ensures |sextets| == |chunk| + 1
  {
    var b := chunk;
    if |b| == 1 then [b[0] / 4, (b[0] % 4) * 16]
    else if |b| == 2 then [b[0] / 4, (b[0] % 4) * 16 + b[1] / 16, (b[1] % 16) * 4]
    else [b[0] / 4, (b[0] % 4) * 16 + b[1] / 16, (b[1] % 16) * 4 + b[2] / 64, b[2] % 64]
  }

  /** The whole bytes that two to four sextets carry; spare bits are dropped. */
  function Octets(n: seq<Sextet>): (bytes: Bytes)
    requires 2 <= |n| <= 4
    ensures |bytes| == |n| - 1
  {
    var n0: nat, n1: nat := n[0], n[1];
    if |n| == 2 then [n0 * 4 + n1 / 16]
    else
      var n2: nat := n[2];
      if |n| == 3 then [n0 * 4 + n1 / 16, (n1 % 16) * 16 + n2 / 4]
      else
        var n3: nat := n[3];
        [n0 * 4 + n1 / 16, (n1 % 16) * 16 + n2 / 4, (n2 % 4) * 64 + n3]
  }

  /** Whether the bits of the last sextet that no whole byte takes are zero. */
  predicate NoSpareBits(n: seq<Sextet>)
    requires 2 <= |n| <= 4
  {
    (|n| == 2 ==> n[1] % 16 == 0) && (|n| == 3 ==> n[2] % 4 == 0)
  }

  lemma OctetsOfSextets(chunk: Bytes)
    requires 1 <= |chunk| <= 3
    ensures Octets(Sextets(chunk)) == chunk && NoSpareBits(Sextets(chunk))
  {
  }

  lemma SextetsOfOctets(n: seq<Sextet>)
    requires 2 <= |n| <= 4 && NoSpareBits(n)
    ensures Sextets(Octets(n)) == n
  {
    RejoinSextets(At(n, 0), At(n, 1), At(n, 2), At(n, 3));
    if |n| == 2 {
      RejoinSextets(n[0], n[1], 0, 0);
    } else if |n| == 3 {
      RejoinSextets(n[0], n[1], n[2], 0);
    }
  }

  lemma RejoinSextets(n0: nat, n1: nat, n2: nat, n3: nat)
    requires n0 < 64 && n1 < 64 && n2 < 64 && n3 < 64
    ensures var b0, b1, b2 := n0 * 4 + n1 / 16, (n1 % 16) * 16 + n2 / 4, (n2 % 4) * 64 + n3;
            && b0 / 4 == n0 && (b0 % 4) * 16 + b1 / 16 == n1 && (b1 % 16) * 4 + b2 / 64 == n2 && b2 % 64 == n3
            && (n1 % 16 == 0 ==> (b0 % 4) * 16 == n1) && (n2 % 4 == 0 ==> (b1 % 16) * 4 == n2)
  {
  }

  function Letters(sextets: seq<Sextet>): (letters: Bytes)
    ensures |letters| == |sextets|
  {
    if sextets == [] then [] else [Letter(sextets[0])] + Letters(sextets[1..])
  }

  function Padding(n: nat): (pads: Bytes)
    ensures |pads| == n && forall i :: 0 <= i < n ==> pads[i] == PAD
  {
    if n == 0 then [] else [PAD] + Padding(n - 1)
  }

  /** The text of `bytes` without its padding. */
  function Unpadded(bytes: Bytes): Bytes
    decreases |bytes|
  {
    if bytes == [] then []
    else
      var size := Min(3, |bytes|);
      Letters(Sextets(bytes[..size])) + Unpadded(bytes[size..])
  }

  /** How many characters the last quantum of `n` bytes lacks. */
  function PadsFor(n: nat): nat {
    if n % 3 == 0 then 0 else 3 - n % 3
  }

  /** How many letters `n` bytes take. */
  function LettersFor(n: nat): nat {
    4 * (n / 3) + if n % 3 == 0 then 0 else n % 3 + 1
  }

  lemma LettersAndPads(n: nat)
    ensures (LettersFor(n) + PadsFor(n)) % 4 == 0 && PadsFor(n) <= 2
    ensures LettersFor(n) % 4 == (if n % 3 == 0 then 0 else n % 3 + 1)
  {
    FourTimes(n / 3, LettersFor(n) - 4 * (n / 3));
    FourTimes(n / 3 + if n % 3 == 0 then 0 else 1, 0);
  }

  lemma FourTimes(q: nat, r: nat)
    requires r < 4
    ensures (4 * q + r) % 4 == r
  {
  }

  /** The padded text of `bytes`. */
  function Encoded(bytes: Bytes): Bytes {
    Unpadded(bytes) + Padding(PadsFor(|bytes|))
  }

  // ----- The encoder -----

  const POWERS: seq<nat> := [1, 64, 4096, 262_144]

  /** The group of one to three bytes in 24 bits: each byte shifted to its own eight of them. */
  function Group(chunk: Bytes): nat
    requires 1 <= |chunk| <= 3
  {
    At(chunk, 0) * 65_536 + At(chunk, 1) * 256 + At(chunk, 2)
  }

  /** The value at `i`, zero past the end. */
  function At(s: seq<nat>, i: nat): nat {
    if i < |s| then s[i] else 0
  }

  lemma SplitGroup(b0: nat, b1: nat, b2: nat)
    requires b0 < 256 && b1 < 256 && b2 < 256
    ensures var g := b0 * 65_536 + b1 * 256 + b2;
            && g / 262_144 % 64 == b0 / 4
            && g / 4096 % 64 == (b0 % 4) * 16 + b1 / 16
            && g / 64 % 64 == (b1 % 16) * 4 + b2 / 64
            && g % 64 == b2 % 64
  {
    var g := b0 * 65_536 + b1 * 256 + b2;
    var n0, n1, n2, n3 := b0 / 4, (b0 % 4) * 16 + b1 / 16, (b1 % 16) * 4 + b2 / 64, b2 % 64;
    assert g == 262_144 * n0 + 4096 * n1 + 64 * n2 + n3;
    SplitSum(g, n0, n1, n2, n3);
  }

  /** The four sextets of a sum of shifted ones. */
  lemma SplitSum(g: nat, n0: nat, n1: nat, n2: nat, n3: nat)
    requires n0 < 64 && n1 < 64 && n2 < 64 && n3 < 64 && g == 262_144 * n0 + 4096 * n1 + 64 * n2 + n3
    ensures g / 262_144 % 64 == n0 && g / 4096 % 64 == n1 && g / 64 % 64 == n2 && g % 64 == n3
  {
    QuotientIs(g, 262_144, n0, 4096 * n1 + 64 * n2 + n3);
    QuotientIs(g, 4096, 64 * n0 + n1, 64 * n2 + n3);
    QuotientIs(g, 64, 4096 * n0 + 64 * n1 + n2, n3);
    QuotientIs(n0, 64, 0, n0);
    QuotientIs(64 * n0 + n1, 64, n0, n1);
    QuotientIs(4096 * n0 + 64 * n1 + n2, 64, 64 * n0 + n1, n2);
  }

  lemma GroupSextets(chunk: Bytes, i: nat)
    requires 1 <= |chunk| <= 3 && i <= |chunk|
    ensures Group(chunk) / POWERS[3 - i] % 64 == Sextets(chunk)[i]
  {
    SplitGroup(At(chunk, 0), At(chunk, 1), At(chunk, 2));
  }

  /** The four characters of one quantum. */
  method EncodeQuantum(chunk: Bytes) returns (quantum: Bytes)
    requires 1 <= |chunk| <= 3
    ensures quantum == Letters(Sextets(chunk)) + Padding(3 - |chunk|)
  {
    var group: nat := 0;
    for index := 0 to |chunk|
      invariant group == At(chunk[..index], 0) * 65_536 + At(chunk[..index], 1) * 256 + At(chunk[..index], 2)
    {
      var byte: nat := chunk[index];
      group := group + byte * (if index == 0 then 65_536 else if index == 1 then 256 else 1);
    }
    assert chunk[..|chunk|] == chunk;
    quantum := [];
    ghost var sextets := Sextets(chunk);
    for sextet := 0 to 4
      invariant sextet <= |sextets| ==> quantum == Letters(sextets[..sextet])
      invariant sextet > |sextets| ==> quantum == Letters(sextets) + Padding(sextet - |sextets|)
    {
      if sextet <= |chunk| {
        GroupSextets(chunk, sextet);
        var value := group / POWERS[3 - sextet] % 64;
        LettersAppend(sextets[..sextet], value);
        assert sextets[..sextet] + [value] == sextets[..sextet + 1];
        quantum := quantum + [Letter(value)];
      } else {
        PaddingAppend(sextet - |sextets|);
        assert sextets[..|sextets|] == sextets;
        quantum := quantum + [PAD];
      }
    }
    assert sextets[..|sextets|] == sextets;
  }

  lemma {:induction false} LettersAppend(sextets: seq<Sextet>, n: Sextet)
    ensures Letters(sextets + [n]) == Letters(sextets) + [Letter(n)]
  {
    if sextets == [] {
      assert [n][1..] == [];
    } else {
      LettersAppend(sextets[1..], n);
      assert (sextets + [n])[1..] == sextets[1..] + [n];
    }
  }

  lemma {:induction false} PaddingAppend(n: nat)
    ensures Padding(n) + [PAD] == Padding(n + 1)
  {
    if n > 0 {
      PaddingAppend(n - 1);
    }
  }

  method Encode(bytes: Bytes) returns (out: Bytes)
    ensures out == Encoded(bytes)
  {
    hide Sextets;
    hide Letters;
    hide Unpadded;
    hide Encoded;
    NothingEncoded();
    out := [];
    var i := 0;
    while i < |bytes|
      invariant i <= |bytes| && (i < |bytes| ==> i % 3 == 0)
      invariant out + (if i < |bytes| then Encoded(bytes[i..]) else []) == Encoded(bytes)
    {
      var size := Min(3, |bytes| - i);
      var rest := bytes[i..];
      var quantum := EncodeQuantum(bytes[i..i + size]);
      assert bytes[i..i + size] == rest[..size];
      assert rest[size..] == bytes[i + size..];
      EncodedSteps(rest);
      out := out + quantum;
      i := i + size;
    }
  }

  lemma NothingEncoded()
    ensures Encoded([]) == []
  {
  }

  lemma EncodedSteps(rest: Bytes)
    requires rest != []
    ensures var size := Min(3, |rest|);
            Encoded(rest) == Letters(Sextets(rest[..size])) + Padding(3 - size)
                             + if size < |rest| then Encoded(rest[size..]) else []
  {
    var size := Min(3, |rest|);
    if size < |rest| {
      assert (|rest| - 3) % 3 == |rest| % 3;
    } else {
      assert Unpadded(rest[size..]) == [];
    }
  }

  // ----- The decoder -----

  /** The sextets of `data`, unless some byte is no letter. */
  function ReadSextets(data: Bytes): (sextets: Option<seq<Sextet>>)
    ensures sextets.Some? ==> |sextets.value| == |data|
  {
    if data == [] then Some([])
    else
      var first :- SextetOf(data[0]);
      var rest :- ReadSextets(data[1..]);
      Some([first] + rest)
  }

  /** The bytes of the sextets, four at a time. */
  function AllOctets(n: seq<Sextet>): Bytes
    requires |n| % 4 != 1
    decreases |n|
  {
    if n == [] then []
    else
      var size := Min(4, |n|);
      Octets(n[..size]) + AllOctets(n[size..])
  }

  /** `text` up to its last byte that is no padding. */
  function DataLength(text: Bytes): (length: nat)
    ensures length <= |text|
    ensures length > 0 ==> text[length - 1] != PAD
    ensures forall i :: length <= i < |text| ==> text[i] == PAD
  {
    if text == [] then 0
    else if text[|text| - 1] == PAD then DataLength(text[..|text| - 1])
    else |text|
  }

  /** Padding is absent, or completes the last quantum exactly; and a quantum of one letter carries nothing. */
  predicate WellPadded(data: nat, padding: nat) {
    data % 4 != 1 && (padding == 0 || (padding <= 2 && (data + padding) % 4 == 0))
  }

  function Decoded(text: Bytes): Option<Bytes> {
    var length := DataLength(text);
    if !WellPadded(length, |text| - length) then None
    else
      var sextets :- ReadSextets(text[..length]);
      Some(AllOctets(sextets))
  }

  const BYTES: seq<nat> := [1, 256, 65_536]

  /** The group of two to four sextets in 24 bits: each shifted to its own six of them. */
  function SextetGroup(n: seq<Sextet>): nat
    requires |n| <= 4
  {
    At(n, 0) * 262_144 + At(n, 1) * 4096 + At(n, 2) * 64 + At(n, 3)
  }

  lemma SplitSextetGroup(n0: nat, n1: nat, n2: nat, n3: nat)
    requires n0 < 64 && n1 < 64 && n2 < 64 && n3 < 64
    ensures var g := n0 * 262_144 + n1 * 4096 + n2 * 64 + n3;
            && g / 65_536 % 256 == n0 * 4 + n1 / 16
            && g / 256 % 256 == (n1 % 16) * 16 + n2 / 4
            && g % 256 == (n2 % 4) * 64 + n3
  {
    var g := n0 * 262_144 + n1 * 4096 + n2 * 64 + n3;
    var b0, b1, b2 := n0 * 4 + n1 / 16, (n1 % 16) * 16 + n2 / 4, (n2 % 4) * 64 + n3;
    assert g == 65_536 * b0 + 256 * b1 + b2;
    assert g / 65_536 == b0;
    assert g / 256 == 256 * b0 + b1;
  }

  lemma GroupOctets(n: seq<Sextet>, i: nat)
    requires 2 <= |n| <= 4 && i < |n| - 1
    ensures SextetGroup(n) / BYTES[2 - i] % 256 == Octets(n)[i]
  {
    SplitSextetGroup(At(n, 0), At(n, 1), At(n, 2), At(n, 3));
  }

  /** The bytes of one quantum of two to four letters, unless some byte is no letter. */
  method DecodeQuantum(chunk: Bytes) returns (bytes: Option<Bytes>)
    requires 2 <= |chunk| <= 4
    ensures bytes == if ReadSextets(chunk).Some? then Some(Octets(ReadSextets(chunk).value)) else None
  {
    hide SextetOf;
    hide Octets;
    var group: nat := 0;
    ghost var read: seq<Sextet> := [];
    for index := 0 to |chunk|
      invariant ReadSextets(chunk[..index]) == Some(read)
      invariant group == SextetGroup(read)
    {
      var sextet := SextetOf(chunk[index]);
      ReadAppend(chunk[..index], chunk[index..]);
      assert chunk[..index] + chunk[index..] == chunk;
      if sextet.None? {
        return None;
      }
      ReadAppend(chunk[..index], [chunk[index]]);
      ReadOne(chunk[index]);
      assert chunk[..index] + [chunk[index]] == chunk[..index + 1];
      read := read + [sextet.value];
      var value: nat := sextet.value;
      group := group + value * POWERS[3 - index];
    }
    assert chunk[..|chunk|] == chunk;
    var out: Bytes := [];
    for index := 0 to |chunk| - 1
      invariant out == Octets(read)[..index]
    {
      GroupOctets(read, index);
      out := out + [group / BYTES[2 - index] % 256];
    }
    assert Octets(read)[..|chunk| - 1] == Octets(read);
    bytes := Some(out);
  }

  lemma ReadOne(c: Byte)
    ensures ReadSextets([c]) == if SextetOf(c).Some? then Some([SextetOf(c).value]) else None
  {
    var none: Bytes := [];
    assert [c][1..] == none;
    assert ReadSextets(none) == Some([]);
    if SextetOf(c).Some? {
      assert [SextetOf(c).value] + [] == [SextetOf(c).value];
    }
  }

  lemma {:induction false} ReadAppend(a: Bytes, b: Bytes)
    ensures ReadSextets(a + b) == if ReadSextets(a).Some? && ReadSextets(b).Some?
                                  then Some(ReadSextets(a).value + ReadSextets(b).value) else None
  {
    hide SextetOf;
    if a == [] {
      assert a + b == b;
      assert ReadSextets(b).Some? ==> [] + ReadSextets(b).value == ReadSextets(b).value;
    } else {
      ReadAppend(a[1..], b);
      assert (a + b)[1..] == a[1..] + b;
      var first, x, y := SextetOf(a[0]), ReadSextets(a[1..]), ReadSextets(b);
      if first.Some? && x.Some? && y.Some? {
        assert [first.value] + (x.value + y.value) == [first.value] + x.value + y.value;
      }
    }
  }

  lemma {:induction false} OctetsAppend(a: seq<Sextet>, b: seq<Sextet>)
    requires |a| % 4 == 0 && |b| % 4 != 1
    ensures AllOctets(a + b) == AllOctets(a) + AllOctets(b)
    decreases |a|
  {
    hide Octets;
    if a == [] {
      assert a + b == b;
    } else {
      OctetsAppend(a[4..], b);
      assert (a + b)[..4] == a[..4] && (a + b)[4..] == a[4..] + b;
    }
  }

  method Decode(text: Bytes) returns (bytes: Option<Bytes>)
    ensures bytes == Decoded(text)
  {
    hide Octets;
    hide SextetOf;
    hide AllOctets;
    hide ReadSextets;
    var length := DataLength(text);
    if !WellPadded(length, |text| - length) {
      return None;
    }
    NothingRead();
    var data := text[..length];
    var out: Bytes := [];
    var i := 0;
    ghost var read: seq<Sextet> := [];
    while i < |data|
      invariant i <= |data| && (i < |data| ==> i % 4 == 0)
      invariant ReadSextets(data[..i]) == Some(read)
      invariant out == AllOctets(read)
    {
      var size := Min(4, |data| - i);
      FourMore(i, |data|);
      var quantum := DecodeQuantum(data[i..i + size]);
      ReadUpTo(data, i, i + size);
      if quantum.None? {
        return None;
      }
      ghost var more := ReadSextets(data[i..i + size]).value;
      OctetsAppend(read, more);
      OneQuantum(more);
      read := read + more;
      out := out + quantum.value;
      i := i + size;
    }
    assert data[..i] == data;
    bytes := Some(out);
  }

  lemma FourMore(i: nat, length: nat)
    requires i < length && i % 4 == 0 && length % 4 != 1
    ensures 2 <= Min(4, length - i) <= 4
    ensures i + Min(4, length - i) < length ==> (i + Min(4, length - i)) % 4 == 0
    ensures Min(4, length - i) % 4 != 1
  {
  }

  lemma CutAt(data: Bytes, i: nat, j: nat)
    requires i <= j <= |data|
    ensures data[..i] + data[i..j] == data[..j] && data[..j] + data[j..] == data
  {
  }

  /** What is read up to `j` is what is read up to `i` and then on to `j`; what cannot be read spoils the whole. */
  lemma ReadUpTo(data: Bytes, i: nat, j: nat)
    requires i <= j <= |data|
    ensures var before, next := ReadSextets(data[..i]), ReadSextets(data[i..j]);
            && (before.Some? && next.Some? ==> ReadSextets(data[..j]) == Some(before.value + next.value))
            && (before.None? || next.None? ==> ReadSextets(data).None?)
  {
    hide ReadSextets;
    CutAt(data, i, j);
    ReadAppend(data[..i], data[i..j]);
    ReadAppend(data[..j], data[j..]);
  }

  lemma NothingRead()
    ensures ReadSextets([]) == Some([]) && AllOctets([]) == []
  {
  }

  lemma OneQuantum(n: seq<Sextet>)
    requires 2 <= |n| <= 4
    ensures AllOctets(n) == Octets(n)
  {
    assert n[..|n|] == n;
  }

  // ----- Round trips and acceptance -----

  lemma {:induction false} LettersRead(n: seq<Sextet>)
    ensures ReadSextets(Letters(n)) == Some(n)
    ensures forall i :: 0 <= i < |Letters(n)| ==> Letters(n)[i] != PAD
  {
    if n != [] {
      LetterReads(n[0]);
      LettersRead(n[1..]);
      assert [n[0]] + n[1..] == n;
    }
  }

  lemma {:induction false} UnpaddedReads(bytes: Bytes)
    ensures ReadSextets(Unpadded(bytes)).Some?
    ensures AllBytesBack(bytes, ReadSextets(Unpadded(bytes)).value)
    ensures forall i :: 0 <= i < |Unpadded(bytes)| ==> Unpadded(bytes)[i] != PAD
    decreases |bytes|
  {
    hide Sextets;
    hide Octets;
    hide Letter;
    hide SextetOf;
    if bytes != [] {
      var size := Min(3, |bytes|);
      var chunk, rest := bytes[..size], bytes[size..];
      var n := Sextets(chunk);
      UnpaddedReads(rest);
      LettersRead(n);
      ReadAppend(Letters(n), Unpadded(rest));
      OctetsOfSextets(chunk);
      var more := ReadSextets(Unpadded(rest)).value;
      assert chunk + rest == bytes;
      assert Unpadded(bytes) == Letters(n) + Unpadded(rest);
      assert size < 3 ==> rest == [] && more == [];
      hide Unpadded, Letters, ReadSextets;
      QuantumBack(chunk, n, rest, more);
    }
  }

  lemma QuantumBack(chunk: Bytes, n: seq<Sextet>, rest: Bytes, more: seq<Sextet>)
    requires 1 <= |chunk| <= 3 && |n| == |chunk| + 1 && Octets(n) == chunk && AllBytesBack(rest, more)
    requires |chunk| < 3 ==> rest == [] && more == []
    ensures AllBytesBack(chunk + rest, n + more)
  {
    hide Octets;
    OneQuantum(n);
    if |chunk| == 3 {
      LettersForMore(|rest|);
      OctetsAppend(n, more);
    } else {
      assert n + more == n && chunk + rest == chunk;
    }
  }

  lemma LettersForMore(n: nat)
    ensures LettersFor(3 + n) == 4 + LettersFor(n) && LettersFor(n) % 4 != 1
  {
  }

  predicate AllBytesBack(bytes: Bytes, n: seq<Sextet>) {
    && |n| == LettersFor(|bytes|)
    && AllOctets(n) == bytes
  }

  lemma {:induction false} DataLengthIs(data: Bytes, pads: nat)
    requires data != [] ==> data[|data| - 1] != PAD
    ensures DataLength(data + Padding(pads)) == |data|
  {
    var text := data + Padding(pads);
    if pads > 0 {
      assert text[|text| - 1] == Padding(pads)[pads - 1];
      PaddingAppend(pads - 1);
      assert text[..|text| - 1] == data + Padding(pads - 1);
      DataLengthIs(data, pads - 1);
    } else {
      assert text == data;
    }
  }

  lemma DecodedText(data: Bytes, pads: nat)
    requires ReadSextets(data).Some? && WellPadded(|data|, pads)
    requires data != [] ==> data[|data| - 1] != PAD
    ensures Decoded(data + Padding(pads)) == Some(AllOctets(ReadSextets(data).value))
  {
    hide AllOctets;
    hide ReadSextets;
    hide DataLength;
    DataLengthIs(data, pads);
    assert (data + Padding(pads))[..|data|] == data;
  }

  /** Every byte string comes back, from its padded text and from that text without its padding. */
  lemma DecodeUndoesEncode(bytes: Bytes)
    ensures Decoded(Encoded(bytes)) == Some(bytes) && Decoded(Unpadded(bytes)) == Some(bytes)
    ensures |Encoded(bytes)| % 4 == 0
  {
    hide AllOctets;
    hide ReadSextets;
    hide Unpadded;
    hide Decoded;
    hide PadsFor;
    hide LettersFor;
    UnpaddedReads(bytes);
    var data := Unpadded(bytes);
    assert |data| == LettersFor(|bytes|);
    LettersAndPads(|bytes|);
    DecodedText(data, PadsFor(|bytes|));
    DecodedText(data, 0);
    assert data + Padding(0) == data;
  }

  predicate IsLetter(c: Byte) {
    65 <= c <= 90 || 97 <= c <= 122 || 48 <= c <= 57 || c == 43 || c == 47
  }

  /** The texts the decoder is to accept: letters, then padding that is absent or completes the last quantum. */
  ghost predicate Acceptable(text: Bytes) {
    exists length: nat :: length <= |text| && IsAcceptableAt(text, length)
  }

  predicate IsAcceptableAt(text: Bytes, length: nat)
    requires length <= |text|
  {
    && (forall i :: 0 <= i < length ==> IsLetter(text[i]))
    && (forall i :: length <= i < |text| ==> text[i] == 61)
    && length % 4 != 1
    && (|text| == length || (length % 4 != 0 && |text| == length + 4 - length % 4))
  }

  lemma {:induction false} ReadsExactlyLetters(data: Bytes)
    ensures ReadSextets(data).Some? <==> forall i :: 0 <= i < |data| ==> IsLetter(data[i])
  {
    if data != [] {
      ReadsExactlyLetters(data[1..]);
      assert data == [data[0]] + data[1..];
      assert forall i :: 1 <= i < |data| ==> data[i] == data[1..][i - 1];
    }
  }

  /** The decoder accepts exactly those texts. */
  lemma AcceptsExactly(text: Bytes)
    ensures Decoded(text).Some? <==> Acceptable(text)
  {
    hide AllOctets;
    hide ReadSextets;
    hide DataLength;
    hide IsLetter;
    LettersAreNoPadding();
    var length := DataLength(text);
    ReadsExactlyLetters(text[..length]);
    assert forall i :: 0 <= i < length ==> text[..length][i] == text[i];
    if Decoded(text).Some? {
      assert IsAcceptableAt(text, length);
    }
    if Acceptable(text) {
      var other: nat :| other <= |text| && IsAcceptableAt(text, other);
      assert text == text[..other] + Padding(|text| - other);
      DataLengthIs(text[..other], |text| - other);
    }
  }

  lemma LettersAreNoPadding()
    ensures !IsLetter(PAD)
  {
  }

  lemma {:induction false} ReadLetters(data: Bytes)
    requires ReadSextets(data).Some?
    ensures Letters(ReadSextets(data).value) == data
  {
    if data != [] {
      ReadLetters(data[1..]);
      assert [data[0]] + data[1..] == data;
    }
  }

  /** The last quantum's spare bits are zero. */
  predicate Canonical(n: seq<Sextet>)
    requires |n| % 4 != 1
  {
    |n| % 4 == 0 || NoSpareBits(n[|n| - |n| % 4..])
  }

  /** How many bytes `n` letters carry. */
  function BytesFor(n: nat): nat {
    3 * (n / 4) + if n % 4 == 0 then 0 else n % 4 - 1
  }

  lemma BytesForMore(n: nat)
    ensures BytesFor(n + 4) == BytesFor(n) + 3
  {
  }

  lemma CanonicalTail(head: seq<Sextet>, rest: seq<Sextet>)
    requires |head| == 4 && |rest| % 4 != 1 && |head + rest| % 4 != 1 && Canonical(head + rest)
    ensures Canonical(rest)
  {
    var n := head + rest;
    hide NoSpareBits;
    assert rest[|rest| - |rest| % 4..] == n[|n| - |n| % 4..];
  }

  lemma OneQuantumReencodes(n: seq<Sextet>)
    requires 2 <= |n| <= 4 && Canonical(n)
    ensures Sextets(Octets(n)) == n
  {
    assert |n| < 4 ==> n[|n| - |n| % 4..] == n;
    SextetsOfOctets(n);
  }

  lemma UnpaddedPrepend(chunk: Bytes, rest: Bytes)
    requires 1 <= |chunk| <= 3 && (|chunk| < 3 ==> rest == [])
    ensures Unpadded(chunk + rest) == Letters(Sextets(chunk)) + Unpadded(rest)
  {
    var bytes := chunk + rest;
    assert bytes[..Min(3, |bytes|)] == chunk && bytes[Min(3, |bytes|)..] == rest;
    hide Sextets, Letters;
  }

  lemma {:induction false} CanonicalReencodes(n: seq<Sextet>)
    requires |n| % 4 != 1 && Canonical(n)
    ensures Unpadded(AllOctets(n)) == Letters(n)
    ensures |AllOctets(n)| == BytesFor(|n|)
    decreases |n|
  {
    hide Octets, Sextets, Letters, Unpadded;
    if n == [] {
      NothingEncodes();
    } else if |n| <= 4 {
      OneQuantum(n);
      OneQuantumReencodes(n);
      UnpaddedPrepend(Octets(n), []);
      NothingEncodes();
      assert Octets(n) + [] == Octets(n);
    } else {
      var head, rest := n[..4], n[4..];
      assert n == head + rest;
      CanonicalTail(head, rest);
      CanonicalReencodes(rest);
      QuantumReencodes(head, rest);
    }
  }

  lemma QuantumReencodes(head: seq<Sextet>, rest: seq<Sextet>)
    requires |head| == 4 && |rest| % 4 != 1
    requires Unpadded(AllOctets(rest)) == Letters(rest) && |AllOctets(rest)| == BytesFor(|rest|)
    ensures |head + rest| % 4 != 1 && Unpadded(AllOctets(head + rest)) == Letters(head + rest)
    ensures |AllOctets(head + rest)| == BytesFor(|head + rest|)
  {
    hide Octets, Sextets, Letters, Unpadded, AllOctets;
    OctetsAppend(head, rest);
    OneQuantum(head);
    OneQuantumReencodes(head);
    UnpaddedPrepend(Octets(head), AllOctets(rest));
    LettersConcat(head, rest);
    BytesForMore(|rest|);
  }

  lemma NothingEncodes()
    ensures Unpadded([]) == [] && Letters([]) == []
  {
  }

  lemma LettersCons(n: Sextet, rest: seq<Sextet>)
    ensures Letters([n] + rest) == [Letter(n)] + Letters(rest)
  {
    assert ([n] + rest)[1..] == rest;
  }

  lemma {:induction false} LettersConcat(a: seq<Sextet>, b: seq<Sextet>)
    ensures Letters(a + b) == Letters(a) + Letters(b)
  {
    if a == [] {
      assert a + b == b;
      assert Letters([]) == [];
      hide Letters;
    } else {
      var rest := a[1..];
      LettersConcat(rest, b);
      LettersCons(a[0], rest);
      LettersCons(a[0], rest + b);
      hide Letters;
      assert [a[0]] + rest == a && [a[0]] + (rest + b) == a + b;
    }
  }

  lemma CanonicalTextReencodes(data: Bytes, pads: nat)
    requires ReadSextets(data).Some? && WellPadded(|data|, pads) && (|data| + pads) % 4 == 0
    requires Canonical(ReadSextets(data).value)
    ensures Encoded(AllOctets(ReadSextets(data).value)) == data + Padding(pads)
  {
    hide AllOctets;
    hide ReadSextets;
    hide Unpadded;
    hide Letters;
    hide Canonical;
    var n := ReadSextets(data).value;
    ReadLetters(data);
    CanonicalReencodes(n);
    PadsComplete(|data|, pads);
  }

  lemma PadsComplete(data: nat, pads: nat)
    requires WellPadded(data, pads) && (data + pads) % 4 == 0
    ensures PadsFor(BytesFor(data)) == pads
  {
    var q, r := data / 4, data % 4;
    assert data == 4 * q + r;
    ThreeTimes(q, if r == 0 then 0 else r - 1);
    assert BytesFor(data) % 3 == if r == 0 then 0 else r - 1;
  }

  lemma ThreeTimes(q: nat, r: nat)
    requires r < 3
    ensures (3 * q + r) % 3 == r
  {
  }

  lemma ReencodedTextIsCanonical(bytes: Bytes)
    ensures var data := Unpadded(bytes);
            && DataLength(Encoded(bytes)) == |data| && Encoded(bytes)[..|data|] == data
            && ReadSextets(data).Some? && |data| % 4 != 1 && Canonical(ReadSextets(data).value)
  {
    hide AllOctets;
    hide ReadSextets;
    hide Unpadded;
    hide Canonical;
    UnpaddedReads(bytes);
    DataLengthIs(Unpadded(bytes), PadsFor(|bytes|));
    UnpaddedIsCanonical(bytes);
  }

  /** An accepted text re-encodes to itself exactly when it is padded and its spare bits are zero. */
  lemma ReencodesWhenCanonical(text: Bytes)
    requires Decoded(text).Some?
    ensures Encoded(Decoded(text).value) == text
       <==> |text| % 4 == 0 && Canonical(ReadSextets(text[..DataLength(text)]).value)
  {
    hide AllOctets;
    hide ReadSextets;
    hide Encoded;
    hide Unpadded;
    hide DataLength;
    hide Canonical;
    var length := DataLength(text);
    var data := text[..length];
    var n := ReadSextets(data).value;
    var pads := |text| - length;
    assert text == data + Padding(pads);
    if |text| % 4 == 0 && Canonical(n) {
      CanonicalTextReencodes(data, pads);
    }
    if Encoded(AllOctets(n)) == text {
      DecodeUndoesEncode(AllOctets(n));
      ReencodedTextIsCanonical(AllOctets(n));
    }
  }

  lemma CanonicalPrepend(n: seq<Sextet>, more: seq<Sextet>)
    requires |n| == 4 && |more| % 4 != 1 && Canonical(more)
    ensures |n + more| % 4 != 1 && Canonical(n + more)
  {
    var all := n + more;
    assert all[|all| - |all| % 4..] == more[|more| - |more| % 4..];
  }

  lemma CanonicalQuantum(n: seq<Sextet>)
    requires 2 <= |n| <= 4 && NoSpareBits(n)
    ensures Canonical(n)
  {
    if |n| < 4 {
      assert n[|n| - |n| % 4..] == n;
    }
  }

  lemma NothingIsCanonical()
    ensures Canonical([])
  {
  }

  lemma {:induction false} UnpaddedIsCanonical(bytes: Bytes)
    ensures ReadSextets(Unpadded(bytes)).Some? && |Unpadded(bytes)| % 4 != 1
    ensures Canonical(ReadSextets(Unpadded(bytes)).value)
    decreases |bytes|
  {
    hide Sextets;
    hide Octets;
    hide Letter;
    hide SextetOf;
    hide Canonical;
    hide NoSpareBits;
    NothingIsCanonical();
    if bytes != [] {
      var size := Min(3, |bytes|);
      var chunk, rest := bytes[..size], bytes[size..];
      var n := Sextets(chunk);
      UnpaddedIsCanonical(rest);
      LettersRead(n);
      ReadAppend(Letters(n), Unpadded(rest));
      OctetsOfSextets(chunk);
      var more := ReadSextets(Unpadded(rest)).value;
      if size < 3 {
        assert n + more == n;
        CanonicalQuantum(n);
      } else {
        CanonicalPrepend(n, more);
      }
    }
  }
}
