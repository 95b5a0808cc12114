/** The percent-encoder of support-runtime/src/parameter.rs, and what decoding its output gives back. */
module Percent {
  import opened Sequences

  datatype PercentEncoding = Unreserved | Form | Reserved | ReservedPath | Passthrough

  const PERCENT: Byte := 37
  const TILDE: Byte := 126

  predicate IsAlphanumeric(b: Byte) {
    48 <= b <= 57 || 65 <= b <= 90 || 97 <= b <= 122
  }

  predicate IsHexDigit(b: Byte) {
    48 <= b <= 57 || 65 <= b <= 70 || 97 <= b <= 102
  }

  /** `-`, `.`, `_` and `~` besides letters and digits (section 2.3 of RFC 3986). */
  predicate IsUnreserved(b: Byte) {
    IsAlphanumeric(b) || b in [45, 46, 95, TILDE]
  }

  /** Whether `b` is emitted literally. */
  predicate Keeps(b: Byte, encoding: PercentEncoding) {
    match encoding
    case Passthrough => true
    case Unreserved => IsUnreserved(b)
    case Form => IsUnreserved(b) && b != TILDE
    // : / ? @ ! $ ' ( ) * , ;
    case Reserved => IsUnreserved(b) || b in [58, 47, 63, 64, 33, 36, 39, 40, 41, 42, 44, 59]
    // : @ ! $ ' ( ) * , ; & = + [ ]
    case ReservedPath => IsUnreserved(b) || b in [58, 64, 33, 36, 39, 40, 41, 42, 44, 59, 38, 61, 43, 91, 93]
  }

  function UpperHex(nibble: nat): Byte
    requires nibble < 16
  {
    if nibble <= 9 then 48 + nibble else 65 + (nibble - 10)
  }

  function HexValue(b: Byte): (nibble: nat)
    requires IsHexDigit(b)
    ensures nibble < 16
  {
    if b <= 57 then b - 48 else if b <= 70 then b - 55 else b - 87
  }

  function Triple(b: Byte): Bytes {
    [PERCENT, UpperHex(b / 16), UpperHex(b % 16)]
  }

  /** `s` opens with `%` and two hexadecimal digits. */
  predicate OpensWithTriple(s: Bytes) {
    |s| > 2 && s[0] == PERCENT && IsHexDigit(s[1]) && IsHexDigit(s[2])
  }

  predicate KeepsTriples(encoding: PercentEncoding) {
    encoding.Reserved? || encoding.ReservedPath?
  }

  /** The first step of encoding a non-empty `s`: what is written for it, and how much of it is read. */
  function EncodeStep(s: Bytes, encoding: PercentEncoding): (step: (Bytes, nat))
    requires s != []
    ensures 1 <= step.1 <= |s|
  {
    if KeepsTriples(encoding) && OpensWithTriple(s) then (s[..3], 3)
    else if Keeps(s[0], encoding) then ([s[0]], 1)
    else (Triple(s[0]), 1)
  }

  function Encoded(s: Bytes, encoding: PercentEncoding): Bytes
    decreases |s|
  {
    if s == [] then []
    else
      var (written, read) := EncodeStep(s, encoding);
      written + Encoded(s[read..], encoding)
  }

  /** A triple at `index` that the encoding keeps. */
  predicate KeptTripleAt(value: Bytes, index: nat, encoding: PercentEncoding) {
    && index + 2 < |value| && value[index] == PERCENT && KeepsTriples(encoding)
    && IsHexDigit(value[index + 1]) && IsHexDigit(value[index + 2])
  }

  lemma EncodeAt(value: Bytes, index: nat, encoding: PercentEncoding)
    requires index < |value|
    ensures Encoded(value[index..], encoding) ==
            if KeptTripleAt(value, index, encoding) then value[index..index + 3] + Encoded(value[index + 3..], encoding)
            else (if Keeps(value[index], encoding) then [value[index]] else Triple(value[index])) + Encoded(value[index + 1..], encoding)
  {
    hide Keeps, IsHexDigit, UpperHex;
    var rest := value[index..];
    assert rest[0] == value[index] && rest[1..] == value[index + 1..];
    if |rest| > 2 {
      assert rest[1] == value[index + 1] && rest[2] == value[index + 2];
      assert rest[..3] == value[index..index + 3] && rest[3..] == value[index + 3..];
    }
  }

  method Encode(value: Bytes, encoding: PercentEncoding) returns (out: Bytes)
    ensures out == Encoded(value, encoding)
  {
    hide Encoded;
    hide Keeps;
    hide UpperHex;
    hide IsHexDigit;
    if encoding == Passthrough {
      PassthroughKeepsAll(value);
      return value;
    }
    out := [];
    var index := 0;
    while index < |value|
      invariant index <= |value|
      invariant Encoded(value, encoding) == out + Encoded(value[index..], encoding)
    {
      var byte := value[index];
      EncodeAt(value, index, encoding);
      ghost var before := out;
      if byte == PERCENT && KeepsTriples(encoding) && index + 2 < |value|
         && IsHexDigit(value[index + 1]) && IsHexDigit(value[index + 2]) {
        out := out + [PERCENT] + [value[index + 1]] + [value[index + 2]];
        assert value[index..index + 3] == [PERCENT, value[index + 1], value[index + 2]];
        Regroup(before, value[index..index + 3], Encoded(value[index + 3..], encoding));
        index := index + 3;
        continue;
      }
      if Keeps(byte, encoding) {
        out := out + [byte];
        Regroup(before, [byte], Encoded(value[index + 1..], encoding));
      } else {
        out := out + [PERCENT] + [UpperHex(byte / 16)] + [UpperHex(byte % 16)];
        assert out == before + Triple(byte);
        Regroup(before, Triple(byte), Encoded(value[index + 1..], encoding));
      }
      index := index + 1;
    }
    NothingEncodes(encoding);
    assert value[index..] == [];
  }

  lemma Regroup(a: Bytes, b: Bytes, c: Bytes)
    ensures a + (b + c) == (a + b) + c
  {
  }

  lemma NothingEncodes(encoding: PercentEncoding)
    ensures Encoded([], encoding) == []
  {
  }

  lemma {:induction false} PassthroughKeepsAll(s: Bytes)
    ensures Encoded(s, Passthrough) == s
  {
    if s != [] {
      PassthroughKeepsAll(s[1..]);
      assert [s[0]] + s[1..] == s;
    }
  }

  // ----- Decoding -----

  /** Percent-decoding that refuses a `%` that opens no triple. */
  function Decode(s: Bytes): Option<Bytes> {
    if s == [] then Some([])
    else if OpensWithTriple(s) then
      var rest :- Decode(s[3..]);
      Some([HexValue(s[1]) * 16 + HexValue(s[2])] + rest)
    else if s[0] == 37 then None
    else
      var rest :- Decode(s[1..]);
      Some([s[0]] + rest)
  }

  /** Percent-decoding that reads a `%` that opens no triple as itself. */
  function DecodeLeniently(s: Bytes): Bytes {
    if s == [] then []
    else if OpensWithTriple(s) then [HexValue(s[1]) * 16 + HexValue(s[2])] + DecodeLeniently(s[3..])
    else [s[0]] + DecodeLeniently(s[1..])
  }

  lemma HexReads(nibble: nat)
    requires nibble < 16
    ensures IsHexDigit(UpperHex(nibble)) && HexValue(UpperHex(nibble)) == nibble
  {
  }

  lemma TripleDecodes(b: Byte, rest: Bytes)
    ensures OpensWithTriple(Triple(b) + rest)
    ensures Decode(Triple(b) + rest) == if Decode(rest).Some? then Some([b] + Decode(rest).value) else None
  {
    hide UpperHex, IsHexDigit, HexValue;
    HexReads(b / 16);
    HexReads(b % 16);
    var s := Triple(b) + rest;
    assert s[0] == PERCENT && s[1] == UpperHex(b / 16) && s[2] == UpperHex(b % 16) && s[3..] == rest;
  }

  /** Encoding every byte outside the set loses nothing: decoding gives the value back. */
  lemma {:induction false} DecodeUndoesEncode(s: Bytes, encoding: PercentEncoding)
    requires encoding.Unreserved? || encoding.Form?
    ensures Decode(Encoded(s, encoding)) == Some(s)
  {
    if s != [] {
      DecodeUndoesEncode(s[1..], encoding);
      var rest := Encoded(s[1..], encoding);
      assert [s[0]] + s[1..] == s;
      if Keeps(s[0], encoding) {
        assert ([s[0]] + rest)[1..] == rest;
      } else {
        TripleDecodes(s[0], rest);
      }
    }
  }

  /** One step of the encoder, read back. */
  lemma StepDecodes(s: Bytes, encoding: PercentEncoding, rest: Bytes)
    requires s != [] && KeepsTriples(encoding) && Decode(rest).Some?
    ensures var (written, read) := EncodeStep(s, encoding);
            && Decode(written + rest) == Some((if OpensWithTriple(s) then [HexValue(s[1]) * 16 + HexValue(s[2])] else [s[0]]) + Decode(rest).value)
            && read == if OpensWithTriple(s) then 3 else 1
  {
    hide UpperHex, HexValue;
    var whole := s[..EncodeStep(s, encoding).1] + rest;
    if OpensWithTriple(s) {
      assert whole[3..] == rest && whole[0] == s[0] && whole[1] == s[1] && whole[2] == s[2];
    } else if Keeps(s[0], encoding) {
      assert ([s[0]] + rest)[1..] == rest;
    } else {
      TripleDecodes(s[0], rest);
    }
  }

  /** Reserved expansion keeps triples, so it means what a lenient reading of the value means. */
  lemma {:induction false} DecodeReadsLeniently(s: Bytes, encoding: PercentEncoding)
    requires encoding.Reserved? || encoding.ReservedPath?
    ensures Decode(Encoded(s, encoding)) == Some(DecodeLeniently(s))
    decreases |s|
  {
    if s != [] {
      var read := EncodeStep(s, encoding).1;
      DecodeReadsLeniently(s[read..], encoding);
      StepDecodes(s, encoding, Encoded(s[read..], encoding));
      hide EncodeStep, Decode, HexValue, OpensWithTriple;
    }
  }

  /** `s` is made of literals of the encoding and triples: what the encoder writes. */
  predicate Wellformed(s: Bytes, encoding: PercentEncoding) {
    s == [] ||
    if OpensWithTriple(s) then Wellformed(s[3..], encoding)
    else Keeps(s[0], encoding) && Wellformed(s[1..], encoding)
  }

  lemma {:induction false} EncodedIsWellformed(s: Bytes, encoding: PercentEncoding)
    requires !encoding.Passthrough?
    ensures Wellformed(Encoded(s, encoding), encoding)
    decreases |s|
  {
    if s != [] {
      var (written, read) := EncodeStep(s, encoding);
      EncodedIsWellformed(s[read..], encoding);
      var rest := Encoded(s[read..], encoding);
      if read == 3 {
        assert (s[..3] + rest)[3..] == rest;
        assert OpensWithTriple(s[..3] + rest);
      } else if Keeps(s[0], encoding) {
        assert ([s[0]] + rest)[1..] == rest;
      } else {
        TripleDecodes(s[0], rest);
        assert (Triple(s[0]) + rest)[3..] == rest;
      }
    }
  }

  /** Reserved expansion leaves a text as it is exactly when the text is made of its literals and triples. */
  lemma {:induction false} FixedExactlyWhenWellformed(s: Bytes, encoding: PercentEncoding)
    requires encoding.Reserved? || encoding.ReservedPath?
    ensures Encoded(s, encoding) == s <==> Wellformed(s, encoding)
    decreases |s|
  {
    if s != [] {
      var (written, read) := EncodeStep(s, encoding);
      FixedExactlyWhenWellformed(s[read..], encoding);
      assert s == s[..read] + s[read..];
      if read == 3 || Keeps(s[0], encoding) {
        assert written == s[..read];
        assert Encoded(s, encoding) == s ==> Encoded(s[read..], encoding) == s[read..] by {
          assert Encoded(s, encoding)[read..] == Encoded(s[read..], encoding);
        }
      } else if Encoded(s, encoding) == s {
        NeverStartsUnkept(s, encoding);
      }
    }
  }

  lemma NeverStartsUnkept(s: Bytes, encoding: PercentEncoding)
    requires KeepsTriples(encoding) && s != [] && !OpensWithTriple(s) && !Keeps(s[0], encoding)
    ensures Encoded(s, encoding) != s
  {
    TripleDecodes(s[0], Encoded(s[1..], encoding));
  }

  /** Encoding a value twice is encoding it once. */
  lemma EncodeIsIdempotent(s: Bytes, encoding: PercentEncoding)
    requires encoding.Reserved? || encoding.ReservedPath?
    ensures Encoded(Encoded(s, encoding), encoding) == Encoded(s, encoding)
  {
    EncodedIsWellformed(s, encoding);
    FixedExactlyWhenWellformed(Encoded(s, encoding), encoding);
  }

  /** A byte the encoding does not keep never comes out, unless it belongs to a triple. */
  lemma {:induction false} OutputHasNo(s: Bytes, encoding: PercentEncoding, b: Byte)
    requires !encoding.Passthrough? && !Keeps(b, encoding) && b != PERCENT && !IsHexDigit(b)
    ensures b !in Encoded(s, encoding)
    decreases |s|
  {
    if s != [] {
      var (written, read) := EncodeStep(s, encoding);
      OutputHasNo(s[read..], encoding, b);
      assert read == 3 ==> written == [s[0], s[1], s[2]];
    }
  }

  const COMMA: Byte := 44
  const AMPERSAND: Byte := 38
  const EQUALS: Byte := 61

  // ----- Which bytes are kept, and how the others are written -----

  predicate IsLetterOrDigit(c: char) {
    'A' <= c <= 'Z' || 'a' <= c <= 'z' || '0' <= c <= '9'
  }

  /**
   * The ASCII characters each encoding writes as they are (sections 2.2 and 2.3 of RFC 3986): under
   * reserved expansion no `#`, no brackets, and none of `&`, `=` and `+`; in a path no `/`, `?` or `#`.
   */
  lemma KeepsExactly(c: char)
    requires (c as int) < 128
    ensures Keeps(c as int, Unreserved) <==> IsLetterOrDigit(c) || c in "-._~"
    ensures Keeps(c as int, Form) <==> IsLetterOrDigit(c) || c in "-._"
    ensures Keeps(c as int, Reserved) <==> IsLetterOrDigit(c) || c in "-._~:/?@!$'()*,;"
    ensures Keeps(c as int, ReservedPath) <==> IsLetterOrDigit(c) || c in "-._~:@!$'()*,;&=+[]"
  {
  }

  /** A hexadecimal digit, in either case, has its value. */
  lemma HexDigitsExactly(c: char)
    requires (c as int) < 128
    ensures IsHexDigit(c as int) <==> '0' <= c <= '9' || 'a' <= c <= 'f' || 'A' <= c <= 'F'
    ensures '0' <= c <= '9' ==> HexValue(c as int) == c as int - '0' as int
    ensures 'a' <= c <= 'f' ==> HexValue(c as int) == 10 + (c as int - 'a' as int)
    ensures 'A' <= c <= 'F' ==> HexValue(c as int) == 10 + (c as int - 'A' as int)
  {
  }

  /** Of the other bytes none is. */
  lemma KeepsAsciiOnly(b: Byte, encoding: PercentEncoding)
    requires b >= 128 && !encoding.Passthrough?
    ensures !Keeps(b, encoding)
  {
  }

  const HEX_DIGITS := "0123456789ABCDEF"

  /** `%` and the two hexadecimal digits of the byte, in upper case. */
  lemma TripleSpelled(b: Byte)
    ensures Triple(b) == ['%' as int, HEX_DIGITS[b / 16] as int, HEX_DIGITS[b % 16] as int]
  {
    HexSpelled(b / 16);
    HexSpelled(b % 16);
  }

  lemma HexSpelled(nibble: nat)
    requires nibble < 16
    ensures UpperHex(nibble) == HEX_DIGITS[nibble] as int
  {
  }

  /** What is written for each byte, outside reserved expansion: itself, or its triple. */
  function Spelled(s: Bytes, encoding: PercentEncoding): Bytes {
    if s == [] then []
    else
      Spelled(s[..|s| - 1], encoding)
      + (if Keeps(s[|s| - 1], encoding) then [s[|s| - 1]] else Triple(s[|s| - 1]))
  }

  lemma {:induction false} EncodedAppend(a: Bytes, b: Bytes, encoding: PercentEncoding)
    requires !KeepsTriples(encoding)
    ensures Encoded(a + b, encoding) == Encoded(a, encoding) + Encoded(b, encoding)
  {
    if a == [] {
      assert a + b == b;
    } else {
      hide Keeps, Triple;
      EncodedAppend(a[1..], b, encoding);
      assert (a + b)[0] == a[0] && (a + b)[1..] == a[1..] + b;
      Regroup(EncodeStep(a, encoding).0, Encoded(a[1..], encoding), Encoded(b, encoding));
    }
  }

  /** Encoding writes each byte by itself. */
  lemma {:induction false} EncodesEachByte(s: Bytes, encoding: PercentEncoding)
    requires !encoding.Reserved? && !encoding.ReservedPath?
    ensures Encoded(s, encoding) == Spelled(s, encoding)
  {
    if s != [] {
      var front, last := s[..|s| - 1], s[|s| - 1];
      assert s == front + [last];
      EncodesEachByte(front, encoding);
      EncodedAppend(front, [last], encoding);
      assert [last][1..] == [] && Encoded([], encoding) == [];
      hide Keeps, Triple;
    }
  }

  /** A value placed in a path cannot end its segment, its path or its URL's path part. */
  lemma PathValuesStayInTheirSegment(s: Bytes, encoding: PercentEncoding)
    requires encoding.Unreserved? || encoding.ReservedPath?
    ensures '/' as int !in Encoded(s, encoding) && '?' as int !in Encoded(s, encoding) && '#' as int !in Encoded(s, encoding)
  {
    OutputHasNo(s, encoding, '/' as int);
    OutputHasNo(s, encoding, '?' as int);
    OutputHasNo(s, encoding, '#' as int);
  }

  // ----- Joined values -----

  function EncodedAll(values: seq<Bytes>, encoding: PercentEncoding): seq<Bytes> {
    if values == [] then [] else [Encoded(values[0], encoding)] + EncodedAll(values[1..], encoding)
  }

  function DecodeAll(parts: seq<Bytes>): Option<seq<Bytes>> {
    if parts == [] then Some([])
    else
      var first :- Decode(parts[0]);
      var rest :- DecodeAll(parts[1..]);
      Some([first] + rest)
  }

  lemma {:induction false} DecodeAllUndoesEncodeAll(values: seq<Bytes>, encoding: PercentEncoding)
    requires encoding.Unreserved? || encoding.Form?
    ensures DecodeAll(EncodedAll(values, encoding)) == Some(values)
    ensures |EncodedAll(values, encoding)| == |values|
    ensures forall part :: part in EncodedAll(values, encoding) ==> COMMA !in part
  {
    if values != [] {
      DecodeUndoesEncode(values[0], encoding);
      OutputHasNo(values[0], encoding, COMMA);
      DecodeAllUndoesEncodeAll(values[1..], encoding);
      var rest := EncodedAll(values[1..], encoding);
      assert ([Encoded(values[0], encoding)] + rest)[1..] == rest;
      assert [values[0]] + values[1..] == values;
    }
  }

  /** A comma that joins two values is told apart from a comma inside one. */
  lemma JoinedValuesSplitBack(values: seq<Bytes>, encoding: PercentEncoding)
    requires values != [] && (encoding.Unreserved? || encoding.Form?)
    ensures DecodeAll(SplitOn(Join(EncodedAll(values, encoding), 44), 44)) == Some(values)
  {
    DecodeAllUndoesEncodeAll(values, encoding);
    SplitJoin(EncodedAll(values, encoding), COMMA);
  }
}
