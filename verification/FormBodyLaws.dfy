/** What a form body carries, member by member: the declared members in the order of the properties, then the overflow. */
module FormBodyLaws {
  import opened Sequences
  import opened Percent
  import opened Parameters
  import opened FormStyles
  import opened FormBodies

  type Pairs = seq<(Bytes, Bytes)>

  /** The member at `i` is the first of that name. */
  predicate IsFirst(members: seq<(Bytes, Json)>, name: Bytes, i: nat) {
    i < |members| && members[i].0 == name && forall j :: 0 <= j < i ==> members[j].0 != name
  }

  predicate NoneNamed(members: seq<(Bytes, Json)>, name: Bytes) {
    forall i :: 0 <= i < |members| ==> members[i].0 != name
  }

  lemma {:induction false} FindsNone(members: seq<(Bytes, Json)>, name: Bytes)
    requires NoneNamed(members, name)
    ensures Find(members, name) == None
  {
    if members != [] {
      FindsNone(members[1..], name);
    }
  }

  lemma {:induction false} FindsFirst(members: seq<(Bytes, Json)>, name: Bytes, i: nat)
    requires IsFirst(members, name, i)
    ensures Find(members, name) == Some(members[i].1)
  {
    if i > 0 {
      assert forall j :: 0 <= j < i - 1 ==> members[1..][j] == members[j + 1];
      FindsFirst(members[1..], name, i - 1);
    }
  }

  /** What one member is sent as: nothing when it is null, its text, its JSON text, or its pairs in a style. */
  predicate IsSentAs(name: Bytes, member: Json, mode: FormMode, toText: JsonText, pairs: Pairs) {
    if member == Null then pairs == []
    else
      match mode
      case Text =>
        (match member
         case Bool(b) => pairs == [(name, Ascii(if b then "true" else "false"))]
         case Number(digits) => pairs == [(name, digits)]
         case Str(text) => pairs == [(name, text)]
         case _ => false)
      case AsJson => pairs == [(name, toText(member))]
      case Style(style, explode, encoding) => StylePairs(name, member, style, explode, encoding) == Success(pairs)
  }

  lemma MemberSent(name: Bytes, member: Json, mode: FormMode, toText: JsonText, pairs: Pairs)
    ensures MemberPairs(name, member, mode, toText) == Success(pairs) <==> IsSentAs(name, member, mode, toText, pairs)
    ensures MemberPairs(name, member, Text, toText) == Failure(NestedValue) <==> member.Array? || member.Object?
  {
    hide StylePairs, Ascii;
  }

  /** A property is sent as the first member of its name is, and not at all without one. */
  ghost predicate PropertySentAs(property: FormProperty, declared: seq<(Bytes, Json)>, toText: JsonText, pairs: Pairs) {
    if NoneNamed(declared, property.name) then pairs == []
    else exists i :: 0 <= i < |declared| && FirstSentAs(property, declared, i, toText, pairs)
  }

  predicate FirstSentAs(property: FormProperty, declared: seq<(Bytes, Json)>, i: nat, toText: JsonText, pairs: Pairs) {
    IsFirst(declared, property.name, i) && IsSentAs(property.name, declared[i].1, property.mode, toText, pairs)
  }

  /** An overflow member is sent as itself, and not at all where a property has its name. */
  predicate OverflowSentAs(properties: seq<FormProperty>, member: (Bytes, Json), mode: FormMode, toText: JsonText, pairs: Pairs) {
    if exists i :: 0 <= i < |properties| && properties[i].name == member.0 then pairs == []
    else IsSentAs(member.0, member.1, mode, toText, pairs)
  }

  function Together(lists: seq<Pairs>): Pairs {
    if lists == [] then [] else Together(lists[..|lists| - 1]) + lists[|lists| - 1]
  }

  ghost predicate DeclaredSentAs(properties: seq<FormProperty>, declared: seq<(Bytes, Json)>, toText: JsonText, sent: seq<Pairs>) {
    |sent| == |properties| && forall i :: 0 <= i < |sent| ==> PropertySentAs(properties[i], declared, toText, sent[i])
  }

  predicate AllSentAs(properties: seq<FormProperty>, overflow: seq<(Bytes, Json)>, mode: FormMode, toText: JsonText, sent: seq<Pairs>) {
    |sent| == |overflow| && forall i :: 0 <= i < |sent| ==> OverflowSentAs(properties, overflow[i], mode, toText, sent[i])
  }

  lemma {:induction false} DeclaredInOrder(properties: seq<FormProperty>, declared: seq<(Bytes, Json)>, toText: JsonText, sent: seq<Pairs>)
    requires DeclaredSentAs(properties, declared, toText, sent)
    ensures DeclaredPairs(properties, declared, toText) == Success(Together(sent))
  {
    if properties != [] {
      var property, pairs := properties[|properties| - 1], sent[|sent| - 1];
      assert PropertySentAs(property, declared, toText, pairs);
      DeclaredInOrder(properties[..|properties| - 1], declared, toText, sent[..|sent| - 1]);
      PropertySent(property, declared, toText, pairs);
      hide MemberPairs, Find, PropertySentAs;
      var before := Together(sent[..|sent| - 1]);
      assert before + [] == before;
    }
  }

  lemma PropertySent(property: FormProperty, declared: seq<(Bytes, Json)>, toText: JsonText, pairs: Pairs)
    requires PropertySentAs(property, declared, toText, pairs)
    ensures var found := Find(declared, property.name);
            if found.None? then pairs == []
            else MemberPairs(property.name, found.value, property.mode, toText) == Success(pairs)
  {
    hide MemberPairs, Find, IsSentAs;
    if NoneNamed(declared, property.name) {
      FindsNone(declared, property.name);
    } else {
      var i: nat :| i < |declared| && FirstSentAs(property, declared, i, toText, pairs);
      FindsFirst(declared, property.name, i);
      MemberSent(property.name, declared[i].1, property.mode, toText, pairs);
    }
  }

  lemma {:induction false} OverflowInOrder(properties: seq<FormProperty>, overflow: seq<(Bytes, Json)>, mode: FormMode, toText: JsonText,
                                           sent: seq<Pairs>)
    requires AllSentAs(properties, overflow, mode, toText, sent)
    ensures OverflowPairs(properties, overflow, mode, toText) == Success(Together(sent))
  {
    if overflow != [] {
      var member, pairs := overflow[|overflow| - 1], sent[|sent| - 1];
      assert OverflowSentAs(properties, member, mode, toText, pairs);
      OverflowInOrder(properties, overflow[..|overflow| - 1], mode, toText, sent[..|sent| - 1]);
      MemberSent(member.0, member.1, mode, toText, pairs);
      hide MemberPairs, IsSentAs;
      var before := Together(sent[..|sent| - 1]);
      assert before + [] == before;
    }
  }

  /**
   * A body's pairs: those of its declared members, which come first in it, in the order of the
   * properties, and then those of its overflow members, in their own order; without an overflow mode
   * every member is declared, and an overflow as long as the body leaves none declared.
   */
  lemma BodyInOrder(declared: seq<(Bytes, Json)>, overflow: seq<(Bytes, Json)>, more: nat, properties: seq<FormProperty>,
                    mode: FormMode, toText: JsonText, sent: seq<Pairs>, sentBehind: seq<Pairs>)
    requires DeclaredSentAs(properties, declared, toText, sent) && AllSentAs(properties, overflow, mode, toText, sentBehind)
    requires more > 0 ==> declared == []
    ensures BodyPairs(Object(declared + overflow), properties, Some((mode, |overflow| + more)), toText)
         == Success(Together(sent) + Together(sentBehind))
    ensures BodyPairs(Object(declared), properties, None, toText) == Success(Together(sent))
  {
    DeclaredInOrder(properties, declared, toText, sent);
    OverflowInOrder(properties, overflow, mode, toText, sentBehind);
    hide DeclaredPairs, OverflowPairs, Together, DeclaredSentAs, AllSentAs;
    var members := declared + overflow;
    assert members[..|declared|] == declared && members[|declared|..] == overflow;
    assert declared[..|declared|] == declared;
  }

  /** Anything but an object is no form body. */
  lemma OnlyObjectsAreBodies(value: Json, properties: seq<FormProperty>, additional: Option<(FormMode, nat)>, toText: JsonText)
    ensures (forall members :: value != Object(members)) ==>
              BodyPairs(value, properties, additional, toText) == Failure(FormBodyNotObject)
    ensures value.Object? ==> BodyPairs(value, properties, additional, toText) != Failure(FormBodyNotObject)
  {
    if value.Object? {
      assert value == Object(value.members);
      var members := value.members;
      var overflowLen := if additional.Some? then additional.value.1 else 0;
      var at := if overflowLen <= |members| then |members| - overflowLen else 0;
      DeclaredRefusal(properties, members[..at], toText);
      if additional.Some? {
        OverflowRefusal(properties, members[at..], additional.value.0, toText);
      }
      hide DeclaredPairs, OverflowPairs;
    }
  }

  lemma {:induction false} DeclaredRefusal(properties: seq<FormProperty>, declared: seq<(Bytes, Json)>, toText: JsonText)
    ensures DeclaredPairs(properties, declared, toText) != Failure(FormBodyNotObject)
  {
    if properties != [] {
      DeclaredRefusal(properties[..|properties| - 1], declared, toText);
      var property := properties[|properties| - 1];
      var found := Find(declared, property.name);
      if found.Some? {
        MemberRefusal(property.name, found.value, property.mode, toText);
      }
      hide MemberPairs;
    }
  }

  lemma {:induction false} OverflowRefusal(properties: seq<FormProperty>, overflow: seq<(Bytes, Json)>, mode: FormMode, toText: JsonText)
    ensures OverflowPairs(properties, overflow, mode, toText) != Failure(FormBodyNotObject)
  {
    if overflow != [] {
      OverflowRefusal(properties, overflow[..|overflow| - 1], mode, toText);
      MemberRefusal(overflow[|overflow| - 1].0, overflow[|overflow| - 1].1, mode, toText);
      hide MemberPairs;
    }
  }

  lemma MemberRefusal(name: Bytes, member: Json, mode: FormMode, toText: JsonText)
    ensures MemberPairs(name, member, mode, toText) != Failure(FormBodyNotObject)
  {
    if mode.Style? {
      StyleRefusal(name, member, mode.style, mode.explode, mode.encoding);
    }
    hide StylePairs;
  }

  lemma {:induction false} PlainsRefusal(values: seq<Json>, encoding: QueryEncoding)
    ensures Plains(values, encoding) != Failure(FormBodyNotObject)
  {
    if values != [] {
      PlainsRefusal(values[1..], encoding);
    }
  }

  lemma {:induction false} PlainPairsRefusal(open: Bytes, members: seq<(Bytes, Json)>, close: Bytes, encoding: QueryEncoding)
    ensures PlainPairs(open, members, close, encoding) != Failure(FormBodyNotObject)
  {
    if members != [] {
      PlainPairsRefusal(open, members[1..], close, encoding);
    }
  }

  lemma StyleRefusal(name: Bytes, value: Json, style: FormStyle, explode: bool, encoding: QueryEncoding)
    ensures StylePairs(name, value, style, explode, encoding) != Failure(FormBodyNotObject)
  {
    if value.Array? {
      PlainsRefusal(value.items, encoding);
    }
    if value.Object? {
      PlainPairsRefusal([], value.members, [], encoding);
      PlainPairsRefusal(Reading(name, encoding) + [91], value.members, [93], encoding);
    }
    hide Plains, PlainPairs, Reading;
  }
}
