/**
 * The `simple` style of support-runtime/src/parameter.rs and the header parser of
 * support-runtime/src/header.rs that inverts it.
 */
module SimpleStyle {
  import opened Sequences
  import opened Percent
  import opened Parameters

  // ----- Writing -----

  function SerializeSimple(value: Json, explode: bool, encoding: PercentEncoding): Result<Bytes> {
    match value
    case Null => Success([])
    case Array(items) => JoinScalars(items, [COMMA], encoding)
    case Object(members) =>
      if explode then
        var pairs :- ObjectPairs(members, encoding);
        Success(JoinBy(pairs, [COMMA]))
      else ObjectFlat(members, [COMMA], encoding)
    case _ => Scalar(value, encoding)
  }

  // ----- Reading -----

  /** The occurrences of a header as one text. */
  function RawHeader(lines: seq<Bytes>): Bytes {
    Join(lines, COMMA)
  }

  /** The items of an array header, every token as text. */
  function ParseArray(raw: Bytes): seq<Bytes> {
    SplitOn(raw, COMMA)
  }

  /** The pair in `key=value`, if there is an `=`. */
  function SplitPair(pair: Bytes): Option<(Bytes, Bytes)> {
    var sides := SplitOn(pair, EQUALS);
    if |sides| < 2 then None else Some((sides[0], Join(sides[1..], EQUALS)))
  }

  function ParsedObject(raw: Bytes, explode: bool): map<Bytes, Bytes> {
    var parts := SplitOn(raw, COMMA);
    if explode then PairMembers(parts) else FlatMembers(parts)
  }

  /** The members of an object header, every token as text; an incomplete pair is dropped. */
  method ParseObject(raw: Bytes, explode: bool) returns (members: map<Bytes, Bytes>)
    ensures members == ParsedObject(raw, explode)
  {
    members := map[];
    var parts := SplitOn(raw, COMMA);
    if explode {
      for i := 0 to |parts|
        invariant members == PairMembers(parts[..i])
      {
        assert parts[..i + 1][..i] == parts[..i];
        var pair := SplitPair(parts[i]);
        if pair.Some? {
          members := members[pair.value.0 := pair.value.1];
        }
      }
      assert parts[..|parts|] == parts;
    } else {
      var i := 0;
      while i + 1 < |parts|
        invariant i % 2 == 0 && i <= |parts|
        invariant members == FlatMembers(parts[..i])
      {
        assert parts[..i + 2][..i] == parts[..i];
        members := members[parts[i] := parts[i + 1]];
        i := i + 2;
      }
      FlatTail(parts, i);
    }
  }

  function PairMembers(parts: seq<Bytes>): map<Bytes, Bytes> {
    if parts == [] then map[]
    else
      var before := PairMembers(parts[..|parts| - 1]);
      var pair := SplitPair(parts[|parts| - 1]);
      if pair.Some? then before[pair.value.0 := pair.value.1] else before
  }

  function FlatMembers(parts: seq<Bytes>): map<Bytes, Bytes> {
    if |parts| < 2 then map[]
    else if |parts| % 2 == 1 then FlatMembers(parts[..|parts| - 1])
    else FlatMembers(parts[..|parts| - 2])[parts[|parts| - 2] := parts[|parts| - 1]]
  }

  lemma FlatTail(parts: seq<Bytes>, i: nat)
    requires i % 2 == 0 && i <= |parts| <= i + 1
    ensures FlatMembers(parts) == FlatMembers(parts[..i])
  {
    if i == |parts| {
      assert parts[..i] == parts;
    } else if i > 0 {
      assert |parts| % 2 == 1;
    }
  }

  // ----- Round trips -----

  function TextMembers(members: seq<(Bytes, Bytes)>): seq<(Bytes, Json)> {
    if members == [] then [] else [(members[0].0, Str(members[0].1))] + TextMembers(members[1..])
  }

  lemma {:induction false} TextScalars(values: seq<Bytes>)
    ensures Scalars(Texts(values), Passthrough) == Success(values)
  {
    if values != [] {
      TextScalars(values[1..]);
      PassthroughKeepsAll(values[0]);
      var rest := Texts(values[1..]);
      assert ([Str(values[0])] + rest)[1..] == rest;
      assert [values[0]] + values[1..] == values;
    }
  }

  /** An array of texts comes back as itself exactly when it is not empty and no text holds a comma. */
  lemma ArrayRoundTrip(values: seq<Bytes>)
    ensures var raw := SerializeSimple(Array(Texts(values)), false, Passthrough);
            && raw == Success(Join(values, 44))
            && (ParseArray(RawHeader([raw.value])) == values
                <==> values != [] && forall value :: value in values ==> 44 !in value)
  {
    TextScalars(values);
    JoinByOne(values, COMMA);
    var raw := Join(values, COMMA);
    if values != [] && forall value :: value in values ==> COMMA !in value {
      SplitJoin(values, COMMA);
    }
    if SplitOn(raw, COMMA) == values {
      JoinSplit(raw, COMMA);
    }
  }

  function ParseEach(lines: seq<Bytes>): seq<Bytes> {
    if lines == [] then [] else ParseArray(lines[0]) + ParseEach(lines[1..])
  }

  /** An array spread over several header lines is the concatenation of its lines' items (section 5.3 of RFC 9110). */
  lemma {:induction false} SpreadArrayConcatenates(lines: seq<Bytes>)
    requires lines != []
    ensures ParseArray(RawHeader(lines)) == ParseEach(lines)
  {
    if |lines| == 1 {
      assert ParseEach(lines[1..]) == [];
    } else {
      SpreadArrayConcatenates(lines[1..]);
      SplitAppend(lines[0], RawHeader(lines[1..]), COMMA);
    }
  }

  function MapOf(members: seq<(Bytes, Bytes)>): map<Bytes, Bytes> {
    if members == [] then map[]
    else
      var last := members[|members| - 1];
      MapOf(members[..|members| - 1])[last.0 := last.1]
  }

  function Flat(members: seq<(Bytes, Bytes)>): seq<Bytes> {
    if members == [] then [] else [members[0].0, members[0].1] + Flat(members[1..])
  }

  function Paired(members: seq<(Bytes, Bytes)>): seq<Bytes> {
    if members == [] then [] else [members[0].0 + [61] + members[0].1] + Paired(members[1..])
  }

  lemma {:induction false} TextObjectParts(members: seq<(Bytes, Bytes)>)
    ensures FlatParts(TextMembers(members), Passthrough) == Success(Flat(members))
    ensures ObjectPairs(TextMembers(members), Passthrough) == Success(Paired(members))
  {
    if members != [] {
      TextObjectParts(members[1..]);
      PassthroughKeepsAll(members[0].0);
      PassthroughKeepsAll(members[0].1);
      var rest := TextMembers(members[1..]);
      assert ([(members[0].0, Str(members[0].1))] + rest)[1..] == rest;
    }
  }

  lemma {:induction false} FlatAppend(members: seq<(Bytes, Bytes)>, last: (Bytes, Bytes))
    ensures Flat(members + [last]) == Flat(members) + [last.0, last.1]
    ensures Paired(members + [last]) == Paired(members) + [last.0 + [EQUALS] + last.1]
  {
    if members == [] {
      assert members + [last] == [last];
      assert [last][1..] == [];
    } else {
      FlatAppend(members[1..], last);
      assert (members + [last])[1..] == members[1..] + [last];
    }
  }

  predicate CommaFree(members: seq<(Bytes, Bytes)>) {
    forall i :: 0 <= i < |members| ==> 44 !in members[i].0 && 44 !in members[i].1
  }

  predicate KeysHaveNoEquals(members: seq<(Bytes, Bytes)>) {
    forall i :: 0 <= i < |members| ==> 61 !in members[i].0
  }

  lemma {:induction false} PartsCommaFree(members: seq<(Bytes, Bytes)>)
    requires CommaFree(members)
    ensures forall part :: part in Flat(members) || part in Paired(members) ==> COMMA !in part
    ensures |Flat(members)| == 2 * |members| && |Paired(members)| == |members|
  {
    if members != [] {
      PartsCommaFree(members[1..]);
    }
  }

  lemma {:induction false} FlatMembersAreMembers(members: seq<(Bytes, Bytes)>)
    ensures FlatMembers(Flat(members)) == MapOf(members)
    ensures |Flat(members)| == 2 * |members|
  {
    if members != [] {
      var front, last := members[..|members| - 1], members[|members| - 1];
      FlatMembersAreMembers(front);
      assert members == front + [last];
      FlatAppend(front, last);
      var parts := Flat(members);
      assert parts[..|parts| - 2] == Flat(front);
    }
  }

  lemma {:induction false} PairMembersAreMembers(members: seq<(Bytes, Bytes)>)
    requires KeysHaveNoEquals(members)
    ensures PairMembers(Paired(members)) == MapOf(members)
  {
    if members != [] {
      var front, last := members[..|members| - 1], members[|members| - 1];
      PairMembersAreMembers(front);
      assert members == front + [last];
      FlatAppend(front, last);
      var parts := Paired(members);
      assert parts[..|parts| - 1] == Paired(front);
      SplitFirst(last.0, EQUALS, last.1);
      JoinSplit(last.1, EQUALS);
      assert ([last.0] + SplitOn(last.1, EQUALS))[1..] == SplitOn(last.1, EQUALS);
    }
  }

  /** What is read of comma-free parts holds no comma, and keys read from pairs hold no `=`. */
  predicate IsPlain(members: map<Bytes, Bytes>, explode: bool) {
    forall key :: key in members ==> COMMA !in key && COMMA !in members[key] && (explode ==> EQUALS !in key)
  }

  predicate NoCommas(parts: seq<Bytes>) {
    forall part :: part in parts ==> COMMA !in part
  }

  lemma PairIsPlain(pair: Bytes)
    requires COMMA !in pair && SplitPair(pair).Some?
    ensures var (key, value) := SplitPair(pair).value; COMMA !in key && EQUALS !in key && COMMA !in value
  {
    JoinSplit(pair, EQUALS);
    var sides := SplitOn(pair, EQUALS);
    var key, value := sides[0], Join(sides[1..], EQUALS);
    assert pair == key + [EQUALS] + value;
  }

  lemma {:induction false} PairMembersArePlain(parts: seq<Bytes>)
    requires NoCommas(parts)
    ensures IsPlain(PairMembers(parts), true)
  {
    if parts != [] {
      var last := parts[|parts| - 1];
      PairMembersArePlain(parts[..|parts| - 1]);
      assert last in parts;
      if SplitPair(last).Some? {
        PairIsPlain(last);
      }
      hide SplitPair;
    }
  }

  lemma {:induction false} FlatMembersArePlain(parts: seq<Bytes>)
    requires NoCommas(parts)
    ensures IsPlain(FlatMembers(parts), false)
  {
    if |parts| >= 2 {
      if |parts| % 2 == 1 {
        FlatMembersArePlain(parts[..|parts| - 1]);
      } else {
        FlatMembersArePlain(parts[..|parts| - 2]);
      }
    }
  }

  predicate DistinctKeys(members: seq<(Bytes, Bytes)>) {
    forall i, j :: 0 <= i < j < |members| ==> members[i].0 != members[j].0
  }

  lemma {:induction false} MapHolds(members: seq<(Bytes, Bytes)>)
    requires DistinctKeys(members)
    ensures forall key :: key in MapOf(members) ==> exists i :: 0 <= i < |members| && members[i].0 == key
    ensures forall i :: 0 <= i < |members| ==> members[i].0 in MapOf(members) && MapOf(members)[members[i].0] == members[i].1
  {
    if members != [] {
      var front := members[..|members| - 1];
      MapHolds(front);
      assert forall i :: 0 <= i < |front| ==> front[i] == members[i];
    }
  }

  lemma RawLine(line: Bytes)
    ensures RawHeader([line]) == line
  {
  }

  /** The header text of an object of texts. */
  function ObjectText(members: seq<(Bytes, Bytes)>, explode: bool): Bytes {
    Join(if explode then Paired(members) else Flat(members), 44)
  }

  lemma ObjectIsWritten(members: seq<(Bytes, Bytes)>, explode: bool)
    ensures SerializeSimple(Object(TextMembers(members)), explode, Passthrough) == Success(ObjectText(members, explode))
    ensures RawHeader([ObjectText(members, explode)]) == ObjectText(members, explode)
  {
    hide ObjectPairs, FlatParts, TextMembers, Paired, Flat, Join;
    TextObjectParts(members);
    JoinByOne(if explode then Paired(members) else Flat(members), COMMA);
    RawLine(ObjectText(members, explode));
  }

  lemma ObjectReads(members: seq<(Bytes, Bytes)>, explode: bool)
    requires CommaFree(members) && (explode ==> KeysHaveNoEquals(members))
    ensures ParsedObject(ObjectText(members, explode), explode) == MapOf(members)
  {
    hide SplitOn, Join, PairMembers, FlatMembers;
    if members == [] {
      NothingReads(explode);
    } else {
      PartsCommaFree(members);
      hide Paired, Flat, MapOf;
      if explode {
        SplitJoin(Paired(members), COMMA);
        PairMembersAreMembers(members);
      } else {
        SplitJoin(Flat(members), COMMA);
        FlatMembersAreMembers(members);
      }
    }
  }

  lemma ReadIsPlain(raw: Bytes, explode: bool)
    ensures IsPlain(ParsedObject(raw, explode), explode)
  {
    JoinSplit(raw, COMMA);
    PairMembersArePlain(SplitOn(raw, COMMA));
    FlatMembersArePlain(SplitOn(raw, COMMA));
  }

  /**
   * An object of texts, each key there once, comes back as its members exactly when no key and no
   * text holds a comma and, exploded, no key holds `=`.
   */
  lemma ObjectRoundTrip(members: seq<(Bytes, Bytes)>, explode: bool)
    requires DistinctKeys(members)
    ensures var raw := SerializeSimple(Object(TextMembers(members)), explode, Passthrough);
            && raw == Success(ObjectText(members, explode))
            && (ParsedObject(RawHeader([raw.value]), explode) == MapOf(members)
                <==> CommaFree(members) && (explode ==> KeysHaveNoEquals(members)))
  {
    hide SerializeSimple, ParsedObject, ObjectText, MapOf, RawHeader;
    ObjectIsWritten(members, explode);
    if CommaFree(members) && (explode ==> KeysHaveNoEquals(members)) {
      ObjectReads(members, explode);
    }
    ReadIsPlain(ObjectText(members, explode), explode);
    MapHolds(members);
    if IsPlain(MapOf(members), explode) {
      assert forall i :: 0 <= i < |members| ==> members[i].0 in MapOf(members);
    }
  }

  lemma NothingReads(explode: bool)
    ensures ParsedObject(ObjectText([], explode), explode) == MapOf([])
  {
    assert SplitOn([], COMMA) == [[]];
    var parts: seq<Bytes> := [[]];
    assert parts[..0] == [];
    assert SplitPair([]).None?;
  }

  // ----- Incomplete members -----

  /** An exploded member, or a part without `=`. */
  datatype Part = Whole(key: Bytes, text: Bytes) | Alone(key: Bytes)

  predicate ArePartsOf(parts: seq<Part>) {
    forall i :: 0 <= i < |parts| ==>
      44 !in parts[i].key && 61 !in parts[i].key && (parts[i].Whole? ==> 44 !in parts[i].text)
  }

  function PartTexts(parts: seq<Part>): seq<Bytes> {
    if parts == [] then []
    else PartTexts(parts[..|parts| - 1]) + [PartText(parts[|parts| - 1])]
  }

  function PartText(part: Part): Bytes {
    if part.Whole? then part.key + [61] + part.text else part.key
  }

  function WholeOnes(parts: seq<Part>): seq<(Bytes, Bytes)> {
    if parts == [] then []
    else
      var last := parts[|parts| - 1];
      WholeOnes(parts[..|parts| - 1]) + if last.Whole? then [(last.key, last.text)] else []
  }

  lemma {:induction false} PartTextsRead(parts: seq<Part>)
    requires ArePartsOf(parts)
    ensures PairMembers(PartTexts(parts)) == MapOf(WholeOnes(parts))
    ensures |PartTexts(parts)| == |parts| && forall text :: text in PartTexts(parts) ==> 44 !in text
  {
    if parts != [] {
      var front, last := parts[..|parts| - 1], parts[|parts| - 1];
      PartTextsRead(front);
      var texts := PartTexts(parts);
      assert texts[..|texts| - 1] == PartTexts(front) && texts[|texts| - 1] == PartText(last);
      PartSplits(last);
      hide PartTexts, SplitPair, PartText;
      if last.Whole? {
        var members := WholeOnes(parts);
        assert members[..|members| - 1] == WholeOnes(front);
      } else {
        assert WholeOnes(parts) == WholeOnes(front);
      }
    }
  }

  lemma PartSplits(part: Part)
    requires 61 !in part.key
    ensures SplitPair(PartText(part)) == if part.Whole? then Some((part.key, part.text)) else None
  {
    if part.Whole? {
      SplitFirst(part.key, EQUALS, part.text);
      JoinSplit(part.text, EQUALS);
      assert ([part.key] + SplitOn(part.text, EQUALS))[1..] == SplitOn(part.text, EQUALS);
    } else {
      SplitNone(part.key, EQUALS);
    }
  }

  /** An exploded header is read as its members, the later of two with one key winning; a part without `=` is dropped. */
  lemma ExplodedReads(parts: seq<Part>)
    requires parts != [] && ArePartsOf(parts)
    ensures ParsedObject(Join(PartTexts(parts), 44), true) == MapOf(WholeOnes(parts))
  {
    PartTextsRead(parts);
    hide PartTexts, PairMembers, ArePartsOf;
    SplitJoin(PartTexts(parts), COMMA);
  }

  /** A header of alternating keys and texts is read as those members; a last key without a text is dropped. */
  lemma FlatReads(members: seq<(Bytes, Bytes)>, extra: Option<Bytes>)
    requires CommaFree(members) && (extra.Some? ==> 44 !in extra.value) && (members != [] || extra.Some?)
    ensures var parts := Flat(members) + if extra.Some? then [extra.value] else [];
            ParsedObject(Join(parts, 44), false) == MapOf(members)
  {
    var parts := Flat(members) + if extra.Some? then [extra.value] else [];
    PartsCommaFree(members);
    FlatMembersAreMembers(members);
    hide Flat, Paired, MapOf, CommaFree, FlatMembers, SplitOn, Join;
    SplitJoin(parts, COMMA);
    FlatWithExtra(Flat(members), extra);
  }

  lemma FlatWithExtra(flat: seq<Bytes>, extra: Option<Bytes>)
    requires |flat| % 2 == 0
    ensures FlatMembers(flat + if extra.Some? then [extra.value] else []) == FlatMembers(flat)
  {
    if extra.Some? {
      OddOneOut(flat + [extra.value]);
      assert (flat + [extra.value])[..|flat|] == flat;
      hide FlatMembers;
    } else {
      assert flat + [] == flat;
    }
  }

  lemma OddOneOut(parts: seq<Bytes>)
    requires |parts| % 2 == 1
    ensures FlatMembers(parts) == FlatMembers(parts[..|parts| - 1])
  {
  }
}
