/** The form-urlencoded body of support-runtime/src/parameter.rs, and the pairs it carries. */
module FormBodies {
  import opened Sequences
  import opened Percent
  import opened Parameters
  import opened FormStyles

  /** How a member is rendered: as its scalar, as JSON, or in a query style. */
  datatype FormMode = Text | AsJson | Style(style: FormStyle, explode: bool, encoding: QueryEncoding)

  datatype FormProperty = FormProperty(name: Bytes, mode: FormMode)

  /** What a form body is rendered with: the text of a JSON value. */
  type JsonText = Json -> Bytes

  /** `pushed` is refused as the pairs are, or adds to `fragments` one fragment for each of them, in order. */
  ghost predicate Pushes(pushed: Result<seq<Bytes>>, fragments: seq<Bytes>, pairs: Result<seq<(Bytes, Bytes)>>) {
    if pairs.Failure? then pushed == Failure(pairs.error)
    else pushed.Success? && fragments <= pushed.value && Carries(pushed.value[|fragments|..], pairs.value)
  }

  /** The fragments of one member, in its mode; a null member adds none. */
  method PushFormMember(fragments: seq<Bytes>, name: Bytes, member: Json, mode: FormMode, toText: JsonText)
    returns (pushed: Result<seq<Bytes>>)
    ensures Pushes(pushed, fragments, MemberPairs(name, member, mode, toText))
  {
    hide Carries, CarriesOne, StyleFragments, StylePairs, Spells;
    if member.Null? {
      NothingCarries();
      assert fragments[|fragments|..] == [];
      return Success(fragments);
    }
    var encodedName := Encode(name, PercentEncoding.Form);
    EncodedSpells(name, PercentEncoding.Form);
    match mode
    case Text =>
      var value := Scalar(member, PercentEncoding.Form);
      ScalarSpells(member, PercentEncoding.Form);
      if value.Failure? {
        return Failure(value.error);
      }
      OneCarries(encodedName, name, value.value, Plain(member, PercentEncoding.Form).value);
      pushed := Success(fragments + [NameValue(encodedName, value.value)]);
      assert pushed.value[|fragments|..] == [NameValue(encodedName, value.value)];
    case AsJson =>
      var value := Encode(toText(member), PercentEncoding.Form);
      EncodedSpells(toText(member), PercentEncoding.Form);
      OneCarries(encodedName, name, value, toText(member));
      pushed := Success(fragments + [NameValue(encodedName, value)]);
      assert pushed.value[|fragments|..] == [NameValue(encodedName, value)];
    case Style(style, explode, encoding) =>
      var styled := StyleFragments(name, member, style, explode, encoding);
      StyleCarries(name, member, style, explode, encoding);
      if styled.Failure? {
        return Failure(styled.error);
      }
      pushed := Success(fragments + styled.value);
      assert pushed.value[|fragments|..] == styled.value;
  }

  // ----- What the body means -----

  /** The names and the plain texts a member is sent as, if it is sent. */
  function MemberPairs(name: Bytes, member: Json, mode: FormMode, toText: JsonText): Result<seq<(Bytes, Bytes)>> {
    if member.Null? then Success([])
    else
      match mode
      case Text =>
        var text :- Plain(member, PercentEncoding.Form);
        Success([(name, text)])
      case AsJson => Success([(name, toText(member))])
      case Style(style, explode, encoding) => StylePairs(name, member, style, explode, encoding)
  }

  /** The first member of that name. */
  function Find(members: seq<(Bytes, Json)>, name: Bytes): (found: Option<Json>)
    ensures found.Some? <==> exists i :: 0 <= i < |members| && members[i].0 == name
  {
    if members == [] then None
    else if members[0].0 == name then Some(members[0].1)
    else
      var found := Find(members[1..], name);
      assert found.None? ==> forall i :: 1 <= i < |members| ==> members[i] == members[1..][i - 1];
      found
  }

  predicate Declares(properties: seq<FormProperty>, name: Bytes) {
    exists i :: 0 <= i < |properties| && properties[i].name == name
  }

  /** The declared members, in the order of the properties, each the first of its name. */
  function DeclaredPairs(properties: seq<FormProperty>, declared: seq<(Bytes, Json)>, toText: JsonText)
    : Result<seq<(Bytes, Bytes)>>
  {
    if properties == [] then Success([])
    else
      var before :- DeclaredPairs(properties[..|properties| - 1], declared, toText);
      var property := properties[|properties| - 1];
      var found := Find(declared, property.name);
      if found.None? then Success(before)
      else
        var pair :- MemberPairs(property.name, found.value, property.mode, toText);
        Success(before + pair)
  }

  /** The overflow members whose name no property declares, in the order they arrive. */
  function OverflowPairs(properties: seq<FormProperty>, overflow: seq<(Bytes, Json)>, mode: FormMode, toText: JsonText)
    : Result<seq<(Bytes, Bytes)>>
  {
    if overflow == [] then Success([])
    else
      var before :- OverflowPairs(properties, overflow[..|overflow| - 1], mode, toText);
      var (name, member) := overflow[|overflow| - 1];
      if Declares(properties, name) then Success(before)
      else
        var pair :- MemberPairs(name, member, mode, toText);
        Success(before + pair)
  }

  /** The pairs a body is to carry: the declared members, then the overflow ones. */
  function BodyPairs(value: Json, properties: seq<FormProperty>, additional: Option<(FormMode, nat)>, toText: JsonText)
    : Result<seq<(Bytes, Bytes)>>
  {
    if !value.Object? then Failure(FormBodyNotObject)
    else
      var members := value.members;
      var overflowLen := if additional.Some? then additional.value.1 else 0;
      var at := if overflowLen <= |members| then |members| - overflowLen else 0;
      var declared :- DeclaredPairs(properties, members[..at], toText);
      if additional.None? then Success(declared)
      else
        var overflow :- OverflowPairs(properties, members[at..], additional.value.0, toText);
        Success(declared + overflow)
  }

  // ----- Reading a body -----

  function DecodeFragments(fragments: seq<Bytes>): Option<seq<(Bytes, Bytes)>> {
    if fragments == [] then Some([])
    else
      var first :- DecodeFragment(fragments[0]);
      var rest :- DecodeFragments(fragments[1..]);
      Some([first] + rest)
  }

  function DecodeBody(body: Bytes): Option<seq<(Bytes, Bytes)>> {
    if body == [] then Some([]) else DecodeFragments(SplitOn(body, 38))
  }

  lemma NothingCarries()
    ensures Carries([], [])
  {
  }

  lemma OneCarries(name: Bytes, plainName: Bytes, value: Bytes, text: Bytes)
    requires Spells(name, plainName) && Spells(value, text)
    ensures Carries([NameValue(name, value)], [(plainName, text)])
  {
    hide CarriesOne, Spells;
    NameValueCarries(name, plainName, value, text);
  }

  lemma CarriesAppend(a: seq<Bytes>, x: seq<(Bytes, Bytes)>, b: seq<Bytes>, y: seq<(Bytes, Bytes)>)
    requires Carries(a, x) && Carries(b, y)
    ensures Carries(a + b, x + y)
  {
    hide CarriesOne;
  }

  /** Fragments pushed onto those that carry `before` carry what was pushed after it. */
  lemma PushedCarry(pushed: Result<seq<Bytes>>, fragments: seq<Bytes>, before: seq<(Bytes, Bytes)>, pairs: Result<seq<(Bytes, Bytes)>>)
    requires Pushes(pushed, fragments, pairs) && pairs.Success? && Carries(fragments, before)
    ensures Carries(pushed.value, before + pairs.value)
  {
    hide Carries;
    CarriesAppend(fragments, before, pushed.value[|fragments|..], pairs.value);
    assert fragments + pushed.value[|fragments|..] == pushed.value;
  }

  lemma {:induction false} FragmentsDecode(fragments: seq<Bytes>, pairs: seq<(Bytes, Bytes)>)
    requires Carries(fragments, pairs)
    ensures DecodeFragments(fragments) == Some(pairs)
  {
    if pairs != [] {
      hide DecodeFragment;
      assert CarriesOne(fragments[0], pairs[0]);
      FragmentsDecode(fragments[1..], pairs[1..]);
      assert [pairs[0]] + pairs[1..] == pairs;
    }
  }

  /** A joined body carries the pairs its fragments carry. */
  lemma BodyDecodes(fragments: seq<Bytes>, pairs: seq<(Bytes, Bytes)>)
    requires Carries(fragments, pairs)
    ensures DecodeBody(Join(fragments, AMPERSAND)) == Some(pairs)
  {
    hide DecodeFragment;
    FragmentsDecode(fragments, pairs);
    if pairs != [] {
      assert CarriesOne(fragments[0], pairs[0]);
      forall fragment | fragment in fragments
        ensures AMPERSAND !in fragment
      {
        var i :| 0 <= i < |fragments| && fragments[i] == fragment;
        assert CarriesOne(fragments[i], pairs[i]);
      }
      SplitJoin(fragments, AMPERSAND);
      assert Join(fragments, AMPERSAND) != [];
    }
  }

  /** The fragments of the declared members. */
  method PushDeclared(properties: seq<FormProperty>, declared: seq<(Bytes, Json)>, toText: JsonText)
    returns (fragments: Result<seq<Bytes>>)
    ensures Pushes(fragments, [], DeclaredPairs(properties, declared, toText))
  {
    hide Carries;
    hide MemberPairs;
    NothingCarries();
    fragments := Success([]);
    for i := 0 to |properties|
      invariant DeclaredPairs(properties[..i], declared, toText).Success?
      invariant fragments.Success? && Carries(fragments.value, DeclaredPairs(properties[..i], declared, toText).value)
    {
      var property := properties[i];
      assert properties[..i + 1][..i] == properties[..i];
      var found := Find(declared, property.name);
      if found.Some? {
        ghost var before, pairs := fragments.value, MemberPairs(property.name, found.value, property.mode, toText);
        fragments := PushFormMember(fragments.value, property.name, found.value, property.mode, toText);
        if fragments.Failure? {
          DeclaredFails(properties, declared, toText, i);
          return;
        }
        PushedCarry(fragments, before, DeclaredPairs(properties[..i], declared, toText).value, pairs);
      }
    }
    assert properties[..|properties|] == properties;
    assert fragments.value[0..] == fragments.value;
  }

  /** The fragments of the overflow members, after those already there. */
  method PushOverflow(start: seq<Bytes>, properties: seq<FormProperty>, overflow: seq<(Bytes, Json)>, mode: FormMode, toText: JsonText)
    returns (fragments: Result<seq<Bytes>>)
    ensures Pushes(fragments, start, OverflowPairs(properties, overflow, mode, toText))
  {
    hide Carries;
    hide MemberPairs;
    NothingCarries();
    fragments := Success(start);
    assert start[|start|..] == [];
    for i := 0 to |overflow|
      invariant OverflowPairs(properties, overflow[..i], mode, toText).Success?
      invariant Pushes(fragments, start, OverflowPairs(properties, overflow[..i], mode, toText))
    {
      var (name, member) := overflow[i];
      assert overflow[..i + 1][..i] == overflow[..i];
      if !Declares(properties, name) {
        ghost var before, pairs := fragments.value, MemberPairs(name, member, mode, toText);
        fragments := PushFormMember(fragments.value, name, member, mode, toText);
        if fragments.Failure? {
          OverflowFails(properties, overflow, mode, toText, i);
          return;
        }
        ghost var added := before[|start|..];
        assert fragments.value[|start|..] == added + fragments.value[|before|..];
        CarriesAppend(added, OverflowPairs(properties, overflow[..i], mode, toText).value,
                      fragments.value[|before|..], pairs.value);
      }
    }
    assert overflow[..|overflow|] == overflow;
  }

  /** Serializes a whole form body: it is refused, or it carries exactly the pairs it is to carry. */
  method SerializeFormBody(value: Json, properties: seq<FormProperty>, additional: Option<(FormMode, nat)>, toText: JsonText)
    returns (body: Result<Bytes>)
    ensures var pairs := BodyPairs(value, properties, additional, toText);
            if pairs.Failure? then body == Failure(pairs.error)
            else body.Success? && DecodeBody(body.value) == Some(pairs.value)
  {
    hide Carries;
    hide DecodeBody;
    if !value.Object? {
      return Failure(FormBodyNotObject);
    }
    var members := value.members;
    var overflowLen := if additional.Some? then additional.value.1 else 0;
    var at := if overflowLen <= |members| then |members| - overflowLen else 0;
    var fragments := PushDeclared(properties, members[..at], toText);
    if fragments.Failure? {
      return Failure(fragments.error);
    }
    ghost var pairs := DeclaredPairs(properties, members[..at], toText).value;
    assert fragments.value[0..] == fragments.value;
    if additional.Some? {
      ghost var before := fragments.value;
      fragments := PushOverflow(fragments.value, properties, members[at..], additional.value.0, toText);
      if fragments.Failure? {
        return Failure(fragments.error);
      }
      ghost var overflow := OverflowPairs(properties, members[at..], additional.value.0, toText);
      PushedCarry(fragments, before, pairs, overflow);
      pairs := pairs + overflow.value;
    }
    BodyDecodes(fragments.value, pairs);
    body := Success(Join(fragments.value, AMPERSAND));
  }

  /** A member that cannot be sent fails the whole body. */
  lemma {:induction false} DeclaredFails(properties: seq<FormProperty>, declared: seq<(Bytes, Json)>, toText: JsonText, i: nat)
    requires i < |properties| && DeclaredPairs(properties[..i + 1], declared, toText).Failure?
    ensures DeclaredPairs(properties, declared, toText) == DeclaredPairs(properties[..i + 1], declared, toText)
    decreases |properties|
  {
    if i + 1 < |properties| {
      var front := properties[..|properties| - 1];
      assert front[..i + 1] == properties[..i + 1];
      DeclaredFails(front, declared, toText, i);
    } else {
      assert properties[..i + 1] == properties;
    }
  }

  lemma {:induction false} OverflowFails(properties: seq<FormProperty>, overflow: seq<(Bytes, Json)>, mode: FormMode, toText: JsonText, i: nat)
    requires i < |overflow| && OverflowPairs(properties, overflow[..i + 1], mode, toText).Failure?
    ensures OverflowPairs(properties, overflow, mode, toText) == OverflowPairs(properties, overflow[..i + 1], mode, toText)
    decreases |overflow|
  {
    if i + 1 < |overflow| {
      var front := overflow[..|overflow| - 1];
      assert front[..i + 1] == overflow[..i + 1];
      OverflowFails(properties, front, mode, toText, i);
    } else {
      assert overflow[..i + 1] == overflow;
    }
  }

  /** `pair` is one of those that the first member of a property's name is sent as. */
  ghost predicate SendsDeclared(properties: seq<FormProperty>, declared: seq<(Bytes, Json)>, toText: JsonText, pair: (Bytes, Bytes)) {
    exists i :: 0 <= i < |properties| && PropertySends(properties[i], declared, toText, pair)
  }

  predicate PropertySends(property: FormProperty, declared: seq<(Bytes, Json)>, toText: JsonText, pair: (Bytes, Bytes)) {
    var found := Find(declared, property.name);
    found.Some? && Sends(property.name, found.value, property.mode, toText, pair)
  }

  predicate Sends(name: Bytes, member: Json, mode: FormMode, toText: JsonText, pair: (Bytes, Bytes)) {
    var sent := MemberPairs(name, member, mode, toText);
    sent.Success? && pair in sent.value
  }

  /** `pair` is one of those that an overflow member that no property declares is sent as. */
  ghost predicate SendsOverflow(properties: seq<FormProperty>, overflow: seq<(Bytes, Json)>, mode: FormMode, toText: JsonText,
                                pair: (Bytes, Bytes)) {
    exists i :: 0 <= i < |overflow| && MemberSends(properties, overflow[i], mode, toText, pair)
  }

  predicate MemberSends(properties: seq<FormProperty>, member: (Bytes, Json), mode: FormMode, toText: JsonText, pair: (Bytes, Bytes)) {
    !Declares(properties, member.0) && Sends(member.0, member.1, mode, toText, pair)
  }

  /** Exactly the undeclared, non-null overflow members are sent: none stands in for a declared property. */
  lemma {:induction false} OverflowNeverStandsIn(properties: seq<FormProperty>, overflow: seq<(Bytes, Json)>, mode: FormMode,
                                                 toText: JsonText, pair: (Bytes, Bytes))
    requires OverflowPairs(properties, overflow, mode, toText).Success?
    ensures pair in OverflowPairs(properties, overflow, mode, toText).value
            <==> SendsOverflow(properties, overflow, mode, toText, pair)
    ensures pair in OverflowPairs(properties, overflow, mode, toText).value && !mode.Style? ==> !Declares(properties, pair.0)
  {
    if overflow != [] {
      var front, last := overflow[..|overflow| - 1], overflow[|overflow| - 1];
      OverflowNeverStandsIn(properties, front, mode, toText, pair);
      NamedAsMember(last.0, last.1, mode, toText, pair);
      hide MemberPairs, Declares;
      assert overflow == front + [last];
      SendsOverflowMore(properties, front, last, mode, toText, pair);
    }
  }

  lemma NamedAsMember(name: Bytes, member: Json, mode: FormMode, toText: JsonText, pair: (Bytes, Bytes))
    ensures Sends(name, member, mode, toText, pair) && !mode.Style? ==> pair.0 == name
  {
  }

  lemma SendsOverflowMore(properties: seq<FormProperty>, overflow: seq<(Bytes, Json)>, last: (Bytes, Json), mode: FormMode,
                          toText: JsonText, pair: (Bytes, Bytes))
    ensures SendsOverflow(properties, overflow + [last], mode, toText, pair)
       <==> SendsOverflow(properties, overflow, mode, toText, pair) || MemberSends(properties, last, mode, toText, pair)
  {
    hide MemberSends;
    var more := overflow + [last];
    assert more[|overflow|] == last;
    assert forall i :: 0 <= i < |overflow| ==> more[i] == overflow[i];
  }

  /** Exactly the first members of the declared names are sent, unless they are null. */
  lemma {:induction false} DeclaredPairsAreFirstMembers(properties: seq<FormProperty>, declared: seq<(Bytes, Json)>,
                                                        toText: JsonText, pair: (Bytes, Bytes))
    requires DeclaredPairs(properties, declared, toText).Success?
    ensures pair in DeclaredPairs(properties, declared, toText).value <==> SendsDeclared(properties, declared, toText, pair)
  {
    if properties != [] {
      var front, last := properties[..|properties| - 1], properties[|properties| - 1];
      DeclaredPairsAreFirstMembers(front, declared, toText, pair);
      hide MemberPairs, Find;
      assert properties == front + [last];
      SendsDeclaredMore(front, last, declared, toText, pair);
    }
  }

  lemma SendsDeclaredMore(properties: seq<FormProperty>, last: FormProperty, declared: seq<(Bytes, Json)>, toText: JsonText,
                          pair: (Bytes, Bytes))
    ensures SendsDeclared(properties + [last], declared, toText, pair)
       <==> SendsDeclared(properties, declared, toText, pair) || PropertySends(last, declared, toText, pair)
  {
    hide PropertySends;
    var more := properties + [last];
    assert more[|properties|] == last;
    assert forall i :: 0 <= i < |properties| ==> more[i] == properties[i];
  }
}
