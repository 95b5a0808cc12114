/** The `form`, delimited and `deepObject` styles of support-runtime/src/parameter.rs, and the pairs they carry. */
module FormStyles {
  import opened Sequences
  import opened Percent
  import opened Parameters

  datatype Delimiter = Space | Pipe

  datatype FormStyle = Form | Delimited(delimiter: Delimiter) | DeepObject

  /** The encodings a query or form value is given: under each, `&` and `=` never come out of data. */
  type QueryEncoding = e: PercentEncoding | e.Unreserved? || e.Form? || e.Reserved? witness PercentEncoding.Form

  const SPACE: Byte := 32
  const PIPE: Byte := 124
  const OPEN: Byte := 91
  const CLOSE: Byte := 93

  function DelimiterByte(delimiter: Delimiter): Byte {
    match delimiter
    case Space => SPACE
    case Pipe => PIPE
  }

  // ----- Writing -----

  /** A delimiter is always written as its triple: `%20` or `%7C`. */
  function DelimiterText(delimiter: Delimiter): Bytes {
    Triple(DelimiterByte(delimiter))
  }

  function NameValue(name: Bytes, value: Bytes): Bytes {
    name + [EQUALS] + value
  }

  function NameValues(name: Bytes, values: seq<Bytes>): seq<Bytes> {
    if values == [] then [] else [NameValue(name, values[0])] + NameValues(name, values[1..])
  }

  /** An empty array or object counts as undefined. */
  function EmptyAsUndefined(value: Json): Json {
    if value == Array([]) || value == Object([]) then Null else value
  }

  function SerializeForm(name: Bytes, value: Json, explode: bool, encoding: PercentEncoding): Result<seq<Bytes>> {
    var encodedName := Encoded(name, encoding);
    match if name == [] then value else EmptyAsUndefined(value)
    case Null => Success([NameValue(encodedName, [])])
    case Array(items) =>
      if explode then
        var values :- Scalars(items, encoding);
        Success(NameValues(encodedName, values))
      else
        var joined :- JoinScalars(items, [COMMA], encoding);
        Success([NameValue(encodedName, joined)])
    case Object(members) =>
      if explode then ObjectPairs(members, encoding)
      else
        var joined :- ObjectFlat(members, [COMMA], encoding);
        Success([NameValue(encodedName, joined)])
    case scalar =>
      var text :- Scalar(scalar, encoding);
      Success([NameValue(encodedName, text)])
  }

  function SerializeDelimited(name: Bytes, value: Json, delimiter: Delimiter, encoding: PercentEncoding): Result<seq<Bytes>> {
    var encodedName := Encoded(name, encoding);
    match value
    case Array(items) =>
      var joined :- JoinScalars(items, DelimiterText(delimiter), encoding);
      Success([NameValue(encodedName, joined)])
    case Object(members) =>
      var joined :- ObjectFlat(members, DelimiterText(delimiter), encoding);
      Success([NameValue(encodedName, joined)])
    case _ => Failure(ExpectedComposite)
  }

  /** `name[key]=value` of each member, the brackets as their triples. */
  function DeepPairs(name: Bytes, members: seq<(Bytes, Json)>, encoding: PercentEncoding): Result<seq<Bytes>> {
    if members == [] then Success([])
    else
      var value :- Scalar(members[0].1, encoding);
      var rest :- DeepPairs(name, members[1..], encoding);
      Success([NameValue(name + Triple(OPEN) + Encoded(members[0].0, encoding) + Triple(CLOSE), value)] + rest)
  }

  function SerializeDeepObject(name: Bytes, value: Json, encoding: PercentEncoding): Result<seq<Bytes>> {
    if value.Object? then DeepPairs(Encoded(name, encoding), value.members, encoding) else Failure(ExpectedObject)
  }

  function StyleFragments(name: Bytes, value: Json, style: FormStyle, explode: bool, encoding: PercentEncoding): Result<seq<Bytes>> {
    match style
    case Form => SerializeForm(name, value, explode, encoding)
    case Delimited(delimiter) => SerializeDelimited(name, value, delimiter, encoding)
    case DeepObject => SerializeDeepObject(name, value, encoding)
  }

  // ----- What is sent, before any encoding -----

  /** The text a value stands for: reserved expansion takes a triple in it for the byte it spells. */
  function Reading(text: Bytes, encoding: QueryEncoding): Bytes {
    if encoding.Reserved? then DecodeLeniently(text) else text
  }

  function Plain(value: Json, encoding: QueryEncoding): Result<Bytes> {
    match value
    case Null => Success([])
    case Bool(b) => Success(Ascii(if b then "true" else "false"))
    case Number(text) => Success(text)
    case Str(text) => Success(Reading(text, encoding))
    case _ => Failure(NestedValue)
  }

  function Plains(values: seq<Json>, encoding: QueryEncoding): Result<seq<Bytes>> {
    if values == [] then Success([])
    else
      var first :- Plain(values[0], encoding);
      var rest :- Plains(values[1..], encoding);
      Success([first] + rest)
  }

  /** Each member's key and plain text, the key after `open` and before `close`. */
  function PlainPairs(open: Bytes, members: seq<(Bytes, Json)>, close: Bytes, encoding: QueryEncoding): Result<seq<(Bytes, Bytes)>> {
    if members == [] then Success([])
    else
      var text :- Plain(members[0].1, encoding);
      var rest :- PlainPairs(open, members[1..], close, encoding);
      Success([(open + Reading(members[0].0, encoding) + close, text)] + rest)
  }

  function KeysAndTexts(pairs: seq<(Bytes, Bytes)>): seq<Bytes> {
    if pairs == [] then [] else [pairs[0].0, pairs[0].1] + KeysAndTexts(pairs[1..])
  }

  function SameName(name: Bytes, texts: seq<Bytes>): seq<(Bytes, Bytes)> {
    if texts == [] then [] else [(name, texts[0])] + SameName(name, texts[1..])
  }

  /** The parts of an array or object sent as one text. */
  function PlainParts(value: Json, encoding: QueryEncoding): Result<seq<Bytes>>
    requires value.Array? || value.Object?
  {
    if value.Array? then Plains(value.items, encoding)
    else
      var pairs :- PlainPairs([], value.members, [], encoding);
      Success(KeysAndTexts(pairs))
  }

  /** An array or object as one pair, its parts joined by `d`. */
  function JoinedPair(name: Bytes, value: Json, d: Byte, encoding: QueryEncoding): Result<seq<(Bytes, Bytes)>>
    requires value.Array? || value.Object?
  {
    var parts :- PlainParts(value, encoding);
    Success([(name, Join(parts, d))])
  }

  /** A space or a bar. */
  function PlainByte(delimiter: Delimiter): Byte {
    match delimiter
    case Space => 32
    case Pipe => 124
  }

  /** The pairs a value is sent as; a named array or object without parts is sent as the empty text. */
  function StylePairs(name: Bytes, value: Json, style: FormStyle, explode: bool, encoding: QueryEncoding): Result<seq<(Bytes, Bytes)>> {
    var plainName := Reading(name, encoding);
    match style
    case Delimited(delimiter) =>
      if value.Array? || value.Object? then JoinedPair(plainName, value, PlainByte(delimiter), encoding)
      else Failure(ExpectedComposite)
    case DeepObject =>
      if value.Object? then PlainPairs(plainName + [91], value.members, [93], encoding)
      else Failure(ExpectedObject)
    case Form =>
      var sent := if name != [] && (value == Array([]) || value == Object([])) then Null else value;
      if sent.Array? && explode then
        var texts :- Plains(sent.items, encoding);
        Success(SameName(plainName, texts))
      else if sent.Object? && explode then PlainPairs([], sent.members, [], encoding)
      else if sent.Array? || sent.Object? then JoinedPair(plainName, sent, 44, encoding)
      else
        var text :- Plain(sent, encoding);
        Success([(plainName, text)])
  }

  // ----- Reading a fragment -----

  /** The pair a fragment carries: its two sides of the first `=`, decoded. */
  function DecodeFragment(fragment: Bytes): Option<(Bytes, Bytes)> {
    var sides := SplitOn(fragment, 61);
    if |sides| < 2 then None
    else
      var name :- Decode(sides[0]);
      var text :- Decode(Join(sides[1..], 61));
      Some((name, text))
  }

  predicate CarriesOne(fragment: Bytes, pair: (Bytes, Bytes)) {
    DecodeFragment(fragment) == Some(pair) && 38 !in fragment && fragment != []
  }

  /** Each fragment carries the pair at its place, and no `&` of its own. */
  predicate Carries(fragments: seq<Bytes>, pairs: seq<(Bytes, Bytes)>) {
    |fragments| == |pairs| && forall i :: 0 <= i < |pairs| ==> CarriesOne(fragments[i], pairs[i])
  }

  /** `encoded` is `text` under percent-encoding, and holds no delimiter of a form. */
  predicate Spells(encoded: Bytes, text: Bytes) {
    Decode(encoded) == Some(text) && 38 !in encoded && 61 !in encoded
  }

  predicate SpellsAll(parts: seq<Bytes>, texts: seq<Bytes>) {
    |parts| == |texts| && forall i :: 0 <= i < |parts| ==> Spells(parts[i], texts[i])
  }

  /** A triple, or a byte that opens none. */
  predicate IsUnit(unit: Bytes) {
    if |unit| == 1 then unit[0] != PERCENT else |unit| == 3 && OpensWithTriple(unit)
  }

  function UnitByte(unit: Bytes): Byte
    requires IsUnit(unit)
  {
    if |unit| == 1 then unit[0] else HexValue(unit[1]) * 16 + HexValue(unit[2])
  }

  lemma UnitDecodes(unit: Bytes, rest: Bytes)
    requires IsUnit(unit)
    ensures Decode(unit + rest) == if Decode(rest).Some? then Some([UnitByte(unit)] + Decode(rest).value) else None
  {
    hide IsHexDigit, HexValue;
    var s := unit + rest;
    assert s[|unit|..] == rest && s[0] == unit[0];
    if |unit| == 3 {
      assert s[1] == unit[1] && s[2] == unit[2];
    }
  }

  lemma {:induction false} DecodeAppend(a: Bytes, b: Bytes)
    requires Decode(a).Some? && Decode(b).Some?
    ensures Decode(a + b) == Some(Decode(a).value + Decode(b).value)
    decreases |a|
  {
    if a == [] {
      assert a + b == b && Decode(a).value + Decode(b).value == Decode(b).value;
    } else {
      var unit := if OpensWithTriple(a) then a[..3] else a[..1];
      assert IsUnit(unit);
      hide Decode, OpensWithTriple, IsUnit, UnitByte;
      var rest := a[|unit|..];
      assert a == unit + rest && a + b == unit + (rest + b);
      UnitDecodes(unit, rest);
      DecodeAppend(rest, b);
      UnitDecodes(unit, rest + b);
      Regroup([UnitByte(unit)], Decode(rest).value, Decode(b).value);
    }
  }

  lemma SpellsAppend(a: Bytes, x: Bytes, b: Bytes, y: Bytes)
    requires Spells(a, x) && Spells(b, y)
    ensures Spells(a + b, x + y)
  {
    DecodeAppend(a, b);
  }

  lemma EncodedSpells(text: Bytes, encoding: QueryEncoding)
    ensures Spells(Encoded(text, encoding), Reading(text, encoding))
  {
    OutputHasNo(text, encoding, AMPERSAND);
    OutputHasNo(text, encoding, EQUALS);
    if encoding.Reserved? {
      DecodeReadsLeniently(text, encoding);
    } else {
      DecodeUndoesEncode(text, encoding);
    }
  }

  lemma {:induction false} LiteralSpells(text: NumberText)
    ensures Spells(text, text)
  {
    if text != [] {
      LiteralSpells(text[1..]);
      assert [text[0]] + text[1..] == text;
    }
  }

  lemma TripleSpells(b: Byte)
    ensures Spells(Triple(b), [b])
  {
    TripleDecodes(b, []);
    assert Triple(b) + [] == Triple(b) && [b] + [] == [b];
    hide Decode;
  }

  lemma CommaSpells()
    ensures Spells([COMMA], [COMMA])
  {
    assert [COMMA][1..] == [] && [COMMA] + [] == [COMMA];
  }

  lemma BoolsSpelled()
    ensures Ascii("true") == TRUE && Ascii("false") == FALSE
  {
    assert "true"[1..] == "rue" && "rue"[1..] == "ue" && "ue"[1..] == "e" && "e"[1..] == "";
    assert "false"[1..] == "alse" && "alse"[1..] == "lse" && "lse"[1..] == "se" && "se"[1..] == "e";
  }

  /** A scalar is refused as its plain text is, or spells it. */
  lemma ScalarSpells(value: Json, encoding: QueryEncoding)
    ensures var written, plain := Scalar(value, encoding), Plain(value, encoding);
            if plain.Failure? then written == Failure(plain.error) else written.Success? && Spells(written.value, plain.value)
  {
    BoolsSpelled();
    hide Spells, Encoded, Reading, Ascii;
    match value
    case Null => LiteralSpells([]);
    case Bool(b) => LiteralSpells(if b then TRUE else FALSE);
    case Number(text) => LiteralSpells(text);
    case Str(text) => EncodedSpells(text, encoding);
    case Array(_) =>
    case Object(_) =>
  }

  lemma SpellsMore(part: Bytes, text: Bytes, parts: seq<Bytes>, texts: seq<Bytes>)
    requires Spells(part, text) && SpellsAll(parts, texts)
    ensures SpellsAll([part] + parts, [text] + texts)
  {
    hide Spells;
  }

  lemma {:induction false} ScalarsSpell(values: seq<Json>, encoding: QueryEncoding)
    ensures var written, plain := Scalars(values, encoding), Plains(values, encoding);
            if plain.Failure? then written == Failure(plain.error) else written.Success? && SpellsAll(written.value, plain.value)
  {
    if values != [] {
      ScalarSpells(values[0], encoding);
      ScalarsSpell(values[1..], encoding);
      hide Scalar, Plain, Spells, SpellsAll;
      var plain, rest := Plain(values[0], encoding), Plains(values[1..], encoding);
      if plain.Success? && rest.Success? {
        SpellsMore(Scalar(values[0], encoding).value, plain.value, Scalars(values[1..], encoding).value, rest.value);
      }
    }
  }

  lemma {:induction false} FlatSpells(members: seq<(Bytes, Json)>, encoding: QueryEncoding)
    ensures var written, plain := FlatParts(members, encoding), PlainPairs([], members, [], encoding);
            if plain.Failure? then written == Failure(plain.error)
            else written.Success? && SpellsAll(written.value, KeysAndTexts(plain.value))
  {
    if members != [] {
      var (key, value) := members[0];
      ScalarSpells(value, encoding);
      EncodedSpells(key, encoding);
      FlatSpells(members[1..], encoding);
      hide Scalar, Plain, Spells, SpellsAll, Encoded, Reading;
      var plainKey := Reading(key, encoding);
      assert [] + plainKey + [] == plainKey;
      var plain, rest := Plain(value, encoding), PlainPairs([], members[1..], [], encoding);
      if plain.Success? && rest.Success? {
        var written, text := FlatParts(members[1..], encoding).value, Scalar(value, encoding).value;
        assert PlainPairs([], members, [], encoding) == Success([(plainKey, plain.value)] + rest.value);
        assert [Encoded(key, encoding), text] + written == [Encoded(key, encoding)] + ([text] + written);
        assert FlatParts(members, encoding) == Success([Encoded(key, encoding)] + ([text] + written));
        hide FlatParts, PlainPairs, KeysAndTexts;
        KeysAndTextsMore((plainKey, plain.value), rest.value);
        SpellsMore(text, plain.value, written, KeysAndTexts(rest.value));
        SpellsMore(Encoded(key, encoding), plainKey, [text] + written, [plain.value] + KeysAndTexts(rest.value));
      }
    }
  }

  lemma KeysAndTextsMore(pair: (Bytes, Bytes), pairs: seq<(Bytes, Bytes)>)
    ensures KeysAndTexts([pair] + pairs) == [pair.0] + ([pair.1] + KeysAndTexts(pairs))
  {
    assert ([pair] + pairs)[1..] == pairs;
  }

  lemma {:induction false} JoinSpells(parts: seq<Bytes>, texts: seq<Bytes>, separator: Bytes, d: Byte)
    requires SpellsAll(parts, texts) && Spells(separator, [d])
    ensures Spells(JoinBy(parts, separator), Join(texts, d))
  {
    hide Spells;
    if parts == [] {
      LiteralSpells([]);
    } else if |parts| > 1 {
      JoinSpells(parts[1..], texts[1..], separator, d);
      SpellsAppend(parts[0], texts[0], separator, [d]);
      SpellsAppend(parts[0] + separator, texts[0] + [d], JoinBy(parts[1..], separator), Join(texts[1..], d));
    }
  }

  /** A name and a value that spell their texts make a fragment that carries them. */
  lemma NameValueCarries(name: Bytes, plainName: Bytes, value: Bytes, text: Bytes)
    requires Spells(name, plainName) && Spells(value, text)
    ensures CarriesOne(NameValue(name, value), (plainName, text))
  {
    hide Decode;
    SplitFirst(name, EQUALS, value);
    SplitNone(value, EQUALS);
    assert ([name] + [value])[1..] == [value];
  }

  lemma {:induction false} NameValuesCarry(name: Bytes, plainName: Bytes, values: seq<Bytes>, texts: seq<Bytes>)
    requires Spells(name, plainName) && SpellsAll(values, texts)
    ensures Carries(NameValues(name, values), SameName(plainName, texts))
  {
    hide Spells, NameValue, CarriesOne;
    if values != [] {
      NameValueCarries(name, plainName, values[0], texts[0]);
      NameValuesCarry(name, plainName, values[1..], texts[1..]);
    }
  }

  /** The fragments of an object's members, one by one. */
  lemma PairsCarryMore(fragment: Bytes, pair: (Bytes, Bytes), fragments: seq<Bytes>, pairs: seq<(Bytes, Bytes)>)
    requires CarriesOne(fragment, pair) && Carries(fragments, pairs)
    ensures Carries([fragment] + fragments, [pair] + pairs)
  {
    hide CarriesOne;
  }

  lemma {:induction false} ObjectPairsCarry(members: seq<(Bytes, Json)>, encoding: QueryEncoding)
    ensures var written, plain := ObjectPairs(members, encoding), PlainPairs([], members, [], encoding);
            if plain.Failure? then written == Failure(plain.error) else written.Success? && Carries(written.value, plain.value)
  {
    if members != [] {
      var (key, value) := members[0];
      ScalarSpells(value, encoding);
      EncodedSpells(key, encoding);
      ObjectPairsCarry(members[1..], encoding);
      hide Scalar, Plain, Spells, Encoded, Reading, CarriesOne, Carries, DecodeFragment;
      var plainKey := Reading(key, encoding);
      assert [] + plainKey + [] == plainKey;
      var plain, rest := Plain(value, encoding), PlainPairs([], members[1..], [], encoding);
      if plain.Success? && rest.Success? {
        var fragment := NameValue(Encoded(key, encoding), Scalar(value, encoding).value);
        NameValueCarries(Encoded(key, encoding), plainKey, Scalar(value, encoding).value, plain.value);
        PairsCarryMore(fragment, (plainKey, plain.value), ObjectPairs(members[1..], encoding).value, rest.value);
      }
    }
  }

  /** A bracketed key spells the name, the key between brackets. */
  lemma DeepKeySpells(name: Bytes, plainName: Bytes, key: Bytes, plainKey: Bytes)
    requires Spells(name, plainName) && Spells(key, plainKey)
    ensures Spells(name + Triple(OPEN) + key + Triple(CLOSE), plainName + [OPEN] + plainKey + [CLOSE])
  {
    hide Spells, Triple;
    TripleSpells(OPEN);
    TripleSpells(CLOSE);
    SpellsAppend(name, plainName, Triple(OPEN), [OPEN]);
    SpellsAppend(name + Triple(OPEN), plainName + [OPEN], key, plainKey);
    SpellsAppend(name + Triple(OPEN) + key, plainName + [OPEN] + plainKey, Triple(CLOSE), [CLOSE]);
  }

  lemma {:induction false} DeepPairsCarry(name: Bytes, plainName: Bytes, members: seq<(Bytes, Json)>, encoding: QueryEncoding)
    requires Spells(name, plainName)
    ensures var written, plain := DeepPairs(name, members, encoding), PlainPairs(plainName + [OPEN], members, [CLOSE], encoding);
            if plain.Failure? then written == Failure(plain.error) else written.Success? && Carries(written.value, plain.value)
  {
    if members != [] {
      var (key, value) := members[0];
      ScalarSpells(value, encoding);
      EncodedSpells(key, encoding);
      DeepPairsCarry(name, plainName, members[1..], encoding);
      hide Scalar, Plain, Spells, Encoded, Reading, CarriesOne, Carries, Triple;
      var encodedKey, plainKey := Encoded(key, encoding), Reading(key, encoding);
      DeepKeySpells(name, plainName, encodedKey, plainKey);
      var plain, rest := Plain(value, encoding), PlainPairs(plainName + [OPEN], members[1..], [CLOSE], encoding);
      if plain.Success? && rest.Success? {
        var bracketed, plainBracketed := name + Triple(OPEN) + encodedKey + Triple(CLOSE), plainName + [OPEN] + plainKey + [CLOSE];
        NameValueCarries(bracketed, plainBracketed, Scalar(value, encoding).value, plain.value);
        PairsCarryMore(NameValue(bracketed, Scalar(value, encoding).value), (plainBracketed, plain.value),
                       DeepPairs(name, members[1..], encoding).value, rest.value);
      }
    }
  }

  /** The parts of an array or object, joined by a separator that spells `d`. */
  function JoinedText(value: Json, separator: Bytes, encoding: PercentEncoding): Result<Bytes>
    requires value.Array? || value.Object?
  {
    if value.Array? then JoinScalars(value.items, separator, encoding) else ObjectFlat(value.members, separator, encoding)
  }

  lemma JoinedCarries(name: Bytes, plainName: Bytes, value: Json, separator: Bytes, d: Byte, encoding: QueryEncoding)
    requires value.Array? || value.Object?
    requires Spells(name, plainName) && Spells(separator, [d])
    ensures var written, plain := JoinedText(value, separator, encoding), JoinedPair(plainName, value, d, encoding);
            if plain.Failure? then written == Failure(plain.error)
            else written.Success? && Carries([NameValue(name, written.value)], plain.value)
  {
    hide Spells, Scalars, Plains, FlatParts, PlainPairs, KeysAndTexts, CarriesOne, NameValue, JoinBy, Join;
    var plain := PlainParts(value, encoding);
    var parts := if value.Array? then Scalars(value.items, encoding) else FlatParts(value.members, encoding);
    if value.Array? {
      ScalarsSpell(value.items, encoding);
    } else {
      FlatSpells(value.members, encoding);
    }
    if plain.Success? {
      JoinSpells(parts.value, plain.value, separator, d);
      NameValueCarries(name, plainName, JoinBy(parts.value, separator), Join(plain.value, d));
    }
  }

  lemma FormCarries(name: Bytes, value: Json, explode: bool, encoding: QueryEncoding)
    ensures var written, plain := SerializeForm(name, value, explode, encoding), StylePairs(name, value, FormStyle.Form, explode, encoding);
            if plain.Failure? then written == Failure(plain.error) else written.Success? && Carries(written.value, plain.value)
  {
    hide Spells, Scalars, Plains, ObjectPairs, JoinScalars, ObjectFlat, PlainPairs, JoinedPair, CarriesOne, NameValue, Encoded, Reading;
    var encodedName, plainName := Encoded(name, encoding), Reading(name, encoding);
    EncodedSpells(name, encoding);
    CommaSpells();
    var sent := if name == [] then value else EmptyAsUndefined(value);
    match sent
    case Array(items) =>
      ScalarsSpell(items, encoding);
      if explode && Plains(items, encoding).Success? {
        NameValuesCarry(encodedName, plainName, Scalars(items, encoding).value, Plains(items, encoding).value);
      }
      JoinedCarries(encodedName, plainName, sent, [COMMA], COMMA, encoding);
    case Object(members) =>
      ObjectPairsCarry(members, encoding);
      JoinedCarries(encodedName, plainName, sent, [COMMA], COMMA, encoding);
    case _ =>
      ScalarSpells(sent, encoding);
      if Plain(sent, encoding).Success? {
        NameValueCarries(encodedName, plainName, Scalar(sent, encoding).value, Plain(sent, encoding).value);
      }
  }

  /** A value in a style is refused as its pairs are, or its fragments carry exactly its pairs. */
  lemma StyleCarries(name: Bytes, value: Json, style: FormStyle, explode: bool, encoding: QueryEncoding)
    ensures var written, plain := StyleFragments(name, value, style, explode, encoding), StylePairs(name, value, style, explode, encoding);
            if plain.Failure? then written == Failure(plain.error) else written.Success? && Carries(written.value, plain.value)
  {
    hide Spells, SerializeForm, DeepPairs, PlainPairs, JoinedPair, Encoded, Reading, CarriesOne, NameValue, Triple;
    var encodedName, plainName := Encoded(name, encoding), Reading(name, encoding);
    EncodedSpells(name, encoding);
    match style
    case Form => FormCarries(name, value, explode, encoding);
    case Delimited(delimiter) =>
      TripleSpells(DelimiterByte(delimiter));
      if value.Array? || value.Object? {
        JoinedCarries(encodedName, plainName, value, DelimiterText(delimiter), DelimiterByte(delimiter), encoding);
      }
    case DeepObject =>
      if value.Object? {
        DeepPairsCarry(encodedName, plainName, value.members, encoding);
      }
  }

  // ----- Telling a delimiter from data -----

  function Readings(values: seq<Bytes>, encoding: QueryEncoding): seq<Bytes> {
    if values == [] then [] else [Reading(values[0], encoding)] + Readings(values[1..], encoding)
  }

  /** The items of a joined value: cut at the commas as they stand, then decoded one by one. */
  function ReadItems(fragment: Bytes): Option<seq<Bytes>> {
    DecodeAll(SplitOn(Join(SplitOn(fragment, 61)[1..], 61), 44))
  }

  lemma {:induction false} TextsAreWritten(values: seq<Bytes>, encoding: QueryEncoding)
    ensures Scalars(Texts(values), encoding) == Success(EncodedAll(values, encoding))
    ensures Plains(Texts(values), encoding) == Success(Readings(values, encoding))
    ensures SpellsAll(EncodedAll(values, encoding), Readings(values, encoding))
    ensures |values| == |EncodedAll(values, encoding)|
  {
    if values != [] {
      EncodedSpells(values[0], encoding);
      TextsAreWritten(values[1..], encoding);
      hide Encoded, Reading, Spells, SpellsAll;
      SpellsMore(Encoded(values[0], encoding), Reading(values[0], encoding),
                 EncodedAll(values[1..], encoding), Readings(values[1..], encoding));
      var rest := Texts(values[1..]);
      assert ([Str(values[0])] + rest)[1..] == rest;
    }
  }

  lemma {:induction false} AllDecode(parts: seq<Bytes>, texts: seq<Bytes>)
    requires SpellsAll(parts, texts)
    ensures DecodeAll(parts) == Some(texts)
  {
    if parts != [] {
      AllDecode(parts[1..], texts[1..]);
      assert [texts[0]] + texts[1..] == texts;
    }
  }

  lemma {:induction false} DecodeAllKeepsCount(parts: seq<Bytes>)
    ensures DecodeAll(parts).Some? ==> |DecodeAll(parts).value| == |parts|
  {
    if parts != [] {
      DecodeAllKeepsCount(parts[1..]);
    }
  }

  /** A comma comes out of data only as itself, under reserved expansion. */
  lemma {:induction false} CommasOf(text: Bytes, encoding: QueryEncoding)
    ensures COMMA in Encoded(text, encoding) <==> encoding.Reserved? && COMMA in text
    decreases |text|
  {
    if !encoding.Reserved? {
      OutputHasNo(text, encoding, COMMA);
    } else if text != [] {
      var (written, read) := EncodeStep(text, encoding);
      CommasOf(text[read..], encoding);
      assert text == text[..read] + text[read..];
      assert COMMA in written <==> COMMA in text[..read];
    }
  }

  lemma {:induction false} CommasOfAll(values: seq<Bytes>, encoding: QueryEncoding)
    ensures (exists part :: part in EncodedAll(values, encoding) && COMMA in part)
       <==> encoding.Reserved? && exists value :: value in values && COMMA in value
  {
    if values != [] {
      hide Encoded;
      var first, rest := Encoded(values[0], encoding), EncodedAll(values[1..], encoding);
      CommasOf(values[0], encoding);
      CommasOfAll(values[1..], encoding);
      assert EncodedAll(values, encoding) == [first] + rest && values == [values[0]] + values[1..];
      assert first in EncodedAll(values, encoding) && values[0] in values;
      assert forall part :: part in rest ==> part in EncodedAll(values, encoding);
      assert forall value :: value in values[1..] ==> value in values;
    }
  }

  /**
   * A joined array of texts comes back, cut before it is decoded, exactly when it is not empty and
   * reserved expansion lets no comma of a text through.
   */
  lemma JoinedArrayReads(name: Bytes, values: seq<Bytes>, encoding: QueryEncoding)
    ensures var written := SerializeForm(name, Array(Texts(values)), false, encoding);
            && written.Success? && |written.value| == 1
            && (ReadItems(written.value[0]) == Some(Readings(values, encoding))
                <==> values != [] && !(encoding.Reserved? && exists value :: value in values && 44 in value))
  {
    var parts, texts := EncodedAll(values, encoding), Readings(values, encoding);
    var encodedName, joined := Encoded(name, encoding), JoinBy(EncodedAll(values, encoding), [COMMA]);
    TextsAreWritten(values, encoding);
    EncodedSpells(name, encoding);
    CommaSpells();
    JoinSpells(parts, texts, [COMMA], COMMA);
    JoinByOne(parts, COMMA);
    SplitFirst(encodedName, EQUALS, joined);
    SplitNone(joined, EQUALS);
    CommasOfAll(values, encoding);
    assert values == [] <==> Texts(values) == [];
    hide Encoded, Reading, Decode, DecodeAll, EncodedAll, Readings, JoinBy, Scalars, Texts, SplitOn;
    assert SerializeForm(name, Array(Texts(values)), false, encoding) == Success([NameValue(encodedName, joined)]);
    assert ([encodedName] + [joined])[1..] == [joined];
    assert ReadItems(NameValue(encodedName, joined)) == DecodeAll(SplitOn(joined, COMMA));
    DecodeAllKeepsCount(SplitOn(joined, COMMA));
    if values != [] {
      if exists part :: part in parts && COMMA in part {
        SplitCounts(parts, COMMA);
      } else {
        SplitJoin(parts, COMMA);
        AllDecode(parts, texts);
      }
    }
  }

  /**
   * The pair of a delimited array of texts, cut at the delimiter, gives the texts back exactly when
   * there is one and none holds the delimiter: it is written as a byte of data is.
   */
  lemma DelimitedArrayReads(name: Bytes, values: seq<Bytes>, delimiter: Delimiter, encoding: QueryEncoding)
    ensures var written := SerializeDelimited(name, Array(Texts(values)), delimiter, encoding);
            var d, texts := PlainByte(delimiter), Readings(values, encoding);
            && written.Success? && |written.value| == 1 && DecodeFragment(written.value[0]).Some?
            && (SplitOn(DecodeFragment(written.value[0]).value.1, d) == texts
                <==> values != [] && forall text :: text in texts ==> d !in text)
  {
    hide SerializeDelimited, Decode, Encoded, Reading, Triple;
    var d, texts := DelimiterByte(delimiter), Readings(values, encoding);
    TextsAreWritten(values, encoding);
    StyleCarries(name, Array(Texts(values)), Delimited(delimiter), false, encoding);
    var written := SerializeDelimited(name, Array(Texts(values)), delimiter, encoding);
    assert CarriesOne(written.value[0], (Reading(name, encoding), Join(texts, d)));
    assert values == [] <==> texts == [];
    hide Readings, DecodeFragment;
    JoinSplit(Join(texts, d), d);
    if values != [] && forall text :: text in texts ==> d !in text {
      SplitJoin(texts, d);
    }
  }
}
