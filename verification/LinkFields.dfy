/** Well-formed `Link` header values (section 3 of RFC 8288), and what is read of them. */
module LinkFields {
  import opened Sequences
  import opened LinkSplitting
  import opened Links
  import opened LinkRelations

  /** The value of a parameter, quoted or not. */
  datatype Value = Value(text: string, quoted: bool)

  /** A parameter: a name, with a value or alone, and the white space around it and around its `=`. */
  datatype Param = Param(lead: string, name: string, behindName: string, beforeValue: string, value: Option<Value>, trail: string)

  /** What stands between a reference and the first `;`: white space, or a parameter all the same. */
  datatype Ahead = Gap(text: string) | Direct(param: Param)

  /**
   * An entry: a reference in angles with its parameters, white space wherever some may stand and other
   * text ahead of the reference, or something without a reference.
   */
  datatype Entry =
    | Link(lead: string, uriLead: string, uri: string, uriTrail: string, ahead: Ahead, params: seq<Param>, trail: string)
    | Other(text: string)

  /** Text that needs no quotes. */
  predicate IsToken(s: string) {
    s != [] && forall i :: 0 <= i < |s| ==> !IsWhite(s[i]) && s[i] !in "\"\\,;=<>"
  }

  /** Text that may stand between quotes: a quote or a backslash in it has a backslash before it. */
  predicate IsQuotedText(s: string) {
    s == [] || (if s[0] == '\\' then |s| > 1 && IsQuotedText(s[2..]) else s[0] != '"' && IsQuotedText(s[1..]))
  }

  predicate IsValue(value: Value) {
    if value.quoted then IsQuotedText(value.text) else IsToken(value.text)
  }

  predicate IsParam(param: Param) {
    && AllWhite(param.lead) && IsToken(param.name) && AllWhite(param.trail)
    && (param.value.Some? ==> AllWhite(param.behindName) && AllWhite(param.beforeValue) && IsValue(param.value.value))
  }

  predicate AreParams(params: seq<Param>) {
    forall k :: 0 <= k < |params| ==> IsParam(params[k])
  }

  predicate IsEntry(entry: Entry) {
    match entry
    case Link(lead, uriLead, uri, uriTrail, ahead, params, trail) =>
      && IsLoose(lead) && AllWhite(uriLead) && AllWhite(uriTrail) && AllWhite(trail)
      && IsTrimmed(uri) && '>' !in uri && IsAhead(ahead) && AreParams(params)
    case Other(text) => IsLoose(text)
  }

  /** Text that opens neither angles nor quotes and holds no comma. */
  predicate IsLoose(text: string) {
    forall i :: 0 <= i < |text| ==> text[i] !in "<\","
  }

  predicate IsAhead(ahead: Ahead) {
    match ahead
    case Gap(text) => AllWhite(text)
    case Direct(param) => IsParam(param)
  }

  predicate AreEntries(entries: seq<Entry>) {
    forall k :: 0 <= k < |entries| ==> IsEntry(entries[k])
  }

  function ValueText(value: Value): string {
    if value.quoted then "\"" + value.text + "\"" else value.text
  }

  /** `name = "value"`, without the white space around it. */
  function CoreText(param: Param): string {
    param.name + match param.value
                 case None => ""
                 case Some(value) => param.behindName + "=" + (param.beforeValue + ValueText(value))
  }

  function ParamText(param: Param): string {
    param.lead + CoreText(param) + param.trail
  }

  function ParamsText(params: seq<Param>): string {
    if params == [] then "" else ";" + ParamText(params[0]) + ParamsText(params[1..])
  }

  function AheadText(ahead: Ahead): string {
    match ahead
    case Gap(text) => text
    case Direct(param) => ParamText(param)
  }

  /** `<uri>; rel="..."; title="..."`, without what stands around it. */
  function LinkText(entry: Entry): string
    requires entry.Link?
  {
    "<" + (entry.uriLead + entry.uri + entry.uriTrail) + ">" + (AheadText(entry.ahead) + ParamsText(entry.params))
  }

  function EntryText(entry: Entry): string {
    if entry.Other? then entry.text else entry.lead + LinkText(entry) + entry.trail
  }

  function EntryTexts(entries: seq<Entry>): seq<string> {
    if entries == [] then [] else [EntryText(entries[0])] + EntryTexts(entries[1..])
  }

  /** The entries, with a comma between each two. */
  function FieldText(entries: seq<Entry>): string {
    Join(EntryTexts(entries), ',')
  }

  /** A `rel` in either case, in the value of which `next` stands as a word in either case. */
  predicate IsNext(param: Param) {
    IsRelName(param.name) && param.value.Some? && HoldsNext(param.value.value.text)
  }

  predicate AnyNext(ahead: Ahead, params: seq<Param>) {
    (ahead.Direct? && IsNext(ahead.param)) || exists k :: 0 <= k < |params| && IsNext(params[k])
  }

  predicate NamesNext(entry: Entry) {
    entry.Link? && entry.uri != "" && AnyNext(entry.ahead, entry.params)
  }

  function FirstNextLink(entries: seq<Entry>): Option<string> {
    if entries == [] then None
    else if NamesNext(entries[0]) then Some(entries[0].uri)
    else FirstNextLink(entries[1..])
  }

  // ----- Scanning a rendered entry -----

  /** Read from `place`, no delimiter of `text` counts. */
  predicate Inert(place: Place, text: string, delim: char, respectAngles: bool) {
    forall i :: 0 <= i < |text| ==> text[i] != delim || PlaceAfter(place, text[..i], respectAngles) != Outside
  }

  /** Read from `place`, `text` holds no delimiter that counts, and leaves off at `end`. */
  predicate Leads(place: Place, text: string, end: Place, delim: char, respectAngles: bool) {
    Inert(place, text, delim, respectAngles) && PlaceAfter(place, text, respectAngles) == end
  }

  lemma LeadsOn(place: Place, a: string, via: Place, b: string, end: Place, delim: char, respectAngles: bool)
    requires Leads(place, a, via, delim, respectAngles) && Leads(via, b, end, delim, respectAngles)
    ensures Leads(place, a + b, end, delim, respectAngles)
  {
    PlaceAfterAppend(place, a, b, respectAngles);
    var text := a + b;
    forall i | 0 <= i < |text|
      ensures text[i] != delim || PlaceAfter(place, text[..i], respectAngles) != Outside
    {
      if i < |a| {
        assert text[..i] == a[..i];
      } else {
        assert text[..i] == a + b[..i - |a|];
        PlaceAfterAppend(place, a, b[..i - |a|], respectAngles);
      }
    }
  }

  /** What leaves a place at every character leaves it as a whole, and protects what it holds. */
  lemma {:induction false} Stays(place: Place, text: string, delim: char, respectAngles: bool)
    requires forall i :: 0 <= i < |text| ==> Step(place, text[i], respectAngles) == place
    requires place == Outside ==> delim !in text
    ensures Leads(place, text, place, delim, respectAngles)
  {
    if text != [] {
      var front := text[..|text| - 1];
      Stays(place, front, delim, respectAngles);
      forall i | 0 <= i < |text|
        ensures text[i] != delim || PlaceAfter(place, text[..i], respectAngles) != Outside
      {
        if i < |front| {
          assert text[..i] == front[..i] && text[i] == front[i];
        } else {
          assert text[..i] == front;
        }
      }
    }
  }

  lemma OneStep(place: Place, c: char, delim: char, respectAngles: bool)
    requires c != delim || place != Outside
    ensures Leads(place, [c], Step(place, c, respectAngles), delim, respectAngles)
  {
    assert [c][..0] == [];
  }

  /** Quoted text stays between its quotes, escapes and all. */
  lemma {:induction false} QuotedStays(s: string, delim: char, respectAngles: bool)
    requires IsQuotedText(s)
    ensures Leads(InQuote, s, InQuote, delim, respectAngles)
    decreases |s|
  {
    hide Leads;
    if s == [] {
      Stays(InQuote, s, delim, respectAngles);
    } else if s[0] == '\\' {
      OneStep(InQuote, s[0], delim, respectAngles);
      OneStep(Escaped, s[1], delim, respectAngles);
      LeadsOn(InQuote, [s[0]], Escaped, [s[1]], InQuote, delim, respectAngles);
      QuotedStays(s[2..], delim, respectAngles);
      LeadsOn(InQuote, [s[0]] + [s[1]], InQuote, s[2..], InQuote, delim, respectAngles);
      assert [s[0]] + [s[1]] + s[2..] == s;
    } else {
      OneStep(InQuote, s[0], delim, respectAngles);
      QuotedStays(s[1..], delim, respectAngles);
      LeadsOn(InQuote, [s[0]], InQuote, s[1..], InQuote, delim, respectAngles);
      assert [s[0]] + s[1..] == s;
    }
  }

  predicate IsDelim(delim: char) {
    delim == ',' || delim == ';'
  }

  lemma TokenStays(s: string, delim: char, respectAngles: bool)
    requires IsToken(s) && IsDelim(delim)
    ensures Leads(Outside, s, Outside, delim, respectAngles)
  {
    Stays(Outside, s, delim, respectAngles);
  }

  /** White space leaves off where it starts, outside and in angles. */
  lemma WhiteStays(s: string, delim: char, respectAngles: bool)
    requires AllWhite(s) && IsDelim(delim)
    ensures Leads(Outside, s, Outside, delim, respectAngles)
  {
    Stays(Outside, s, delim, respectAngles);
  }

  lemma ValueIsInert(value: Value, delim: char, respectAngles: bool)
    requires IsValue(value) && IsDelim(delim)
    ensures Leads(Outside, ValueText(value), Outside, delim, respectAngles)
    ensures IsTrimmed(ValueText(value)) && ValueText(value) != []
  {
    var text := value.text;
    if value.quoted {
      QuotedStays(text, delim, respectAngles);
      OneStep(Outside, '"', delim, respectAngles);
      OneStep(InQuote, '"', delim, respectAngles);
      hide Leads;
      LeadsOn(Outside, "\"", InQuote, text, InQuote, delim, respectAngles);
      LeadsOn(Outside, "\"" + text, InQuote, "\"", Outside, delim, respectAngles);
    } else {
      TokenStays(text, delim, respectAngles);
    }
  }

  lemma CoreIsInert(param: Param, delim: char, respectAngles: bool)
    requires IsParam(param) && IsDelim(delim)
    ensures Leads(Outside, CoreText(param), Outside, delim, respectAngles)
  {
    hide Leads, IsToken, AllWhite;
    TokenStays(param.name, delim, respectAngles);
    if param.value.Some? {
      var text := ValueText(param.value.value);
      ValueIsInert(param.value.value, delim, respectAngles);
      WhiteStays(param.behindName, delim, respectAngles);
      WhiteStays(param.beforeValue, delim, respectAngles);
      OneStep(Outside, '=', delim, respectAngles);
      LeadsOn(Outside, param.behindName, Outside, "=", Outside, delim, respectAngles);
      LeadsOn(Outside, param.beforeValue, Outside, text, Outside, delim, respectAngles);
      LeadsOn(Outside, param.behindName + "=", Outside, param.beforeValue + text, Outside, delim, respectAngles);
      LeadsOn(Outside, param.name, Outside, param.behindName + "=" + (param.beforeValue + text), Outside, delim, respectAngles);
    } else {
      assert param.name + "" == param.name;
    }
  }

  lemma ParamIsInert(param: Param, delim: char, respectAngles: bool)
    requires IsParam(param) && IsDelim(delim)
    ensures Leads(Outside, ParamText(param), Outside, delim, respectAngles)
  {
    hide Leads, CoreText, AllWhite;
    CoreIsInert(param, delim, respectAngles);
    WhiteStays(param.lead, delim, respectAngles);
    WhiteStays(param.trail, delim, respectAngles);
    LeadsOn(Outside, param.lead, Outside, CoreText(param), Outside, delim, respectAngles);
    LeadsOn(Outside, param.lead + CoreText(param), Outside, param.trail, Outside, delim, respectAngles);
  }

  lemma {:induction false} ParamsAreInert(params: seq<Param>)
    requires AreParams(params)
    ensures Leads(Outside, ParamsText(params), Outside, ',', true)
  {
    hide Leads;
    if params == [] {
      Stays(Outside, "", ',', true);
    } else {
      assert IsParam(params[0]);
      hide IsParam, ParamText;
      OneStep(Outside, ';', ',', true);
      ParamIsInert(params[0], ',', true);
      LeadsOn(Outside, ";", Outside, ParamText(params[0]), Outside, ',', true);
      assert forall k :: 0 <= k < |params[1..]| ==> params[1..][k] == params[k + 1];
      ParamsAreInert(params[1..]);
      LeadsOn(Outside, ";" + ParamText(params[0]), Outside, ParamsText(params[1..]), Outside, ',', true);
    }
  }

  /** A reference in angles, whatever it holds, and text behind it that leaves off outside. */
  lemma EnclosedIsInert(uri: string, rest: string)
    requires '>' !in uri && Leads(Outside, rest, Outside, ',', true)
    ensures Leads(Outside, "<" + uri + ">" + rest, Outside, ',', true)
  {
    OneStep(Outside, '<', ',', true);
    Stays(InAngle, uri, ',', true);
    OneStep(InAngle, '>', ',', true);
    hide Leads, PlaceAfter;
    LeadsOn(Outside, "<", InAngle, uri, InAngle, ',', true);
    LeadsOn(Outside, "<" + uri, InAngle, ">", Outside, ',', true);
    LeadsOn(Outside, "<" + uri + ">", Outside, rest, Outside, ',', true);
  }

  lemma AheadIsInert(ahead: Ahead, delim: char, respectAngles: bool)
    requires IsAhead(ahead) && IsDelim(delim)
    ensures Leads(Outside, AheadText(ahead), Outside, delim, respectAngles)
  {
    if ahead.Gap? {
      WhiteStays(ahead.text, delim, respectAngles);
    } else {
      ParamIsInert(ahead.param, delim, respectAngles);
    }
  }

  /** A rendered entry is one part, whatever its reference and parameters hold. */
  lemma EntryIsInert(entry: Entry)
    requires IsEntry(entry)
    ensures Whole(EntryText(entry), ',', true) && Closed(EntryText(entry), true)
  {
    if entry.Other? {
      Stays(Outside, entry.text, ',', true);
    } else {
      UriHasNoEnd(entry);
      var ahead := AheadText(entry.ahead);
      Stays(Outside, entry.lead, ',', true);
      hide Leads, ParamsText, PlaceAfter, AreParams, AllWhite, IsLoose;
      ParamsAreInert(entry.params);
      AheadIsInert(entry.ahead, ',', true);
      LeadsOn(Outside, ahead, Outside, ParamsText(entry.params), Outside, ',', true);
      EnclosedIsInert(entry.uriLead + entry.uri + entry.uriTrail, ahead + ParamsText(entry.params));
      WhiteStays(entry.trail, ',', true);
      hide LinkText;
      LeadsOn(Outside, entry.lead, Outside, LinkText(entry), Outside, ',', true);
      LeadsOn(Outside, entry.lead + LinkText(entry), Outside, entry.trail, Outside, ',', true);
    }
    hide EntryText, Leads;
    InertIsWhole(EntryText(entry), ',', true);
  }

  lemma UriHasNoEnd(entry: Entry)
    requires IsEntry(entry) && entry.Link?
    ensures '>' !in entry.uriLead + entry.uri + entry.uriTrail
  {
  }

  lemma InertIsWhole(text: string, delim: char, respectAngles: bool)
    requires Leads(Outside, text, Outside, delim, respectAngles)
    ensures Whole(text, delim, respectAngles) && Closed(text, respectAngles)
  {
  }

  // ----- Reading a parameter -----

  lemma FindIs(s: string, from: nat, c: char, at: nat)
    requires from <= at < |s| && s[at] == c && forall k :: from <= k < at ==> s[k] != c
    ensures Find(s, from, c) == Some(at)
  {
  }

  lemma TokenIsTrimmed(s: string)
    requires IsToken(s)
    ensures IsTrimmed(s) && '=' !in s
  {
  }

  /** The text of a parameter opens and closes with a name or a value, not with white space. */
  lemma CoreIsTrimmed(param: Param)
    requires IsParam(param)
    ensures IsTrimmed(CoreText(param)) && CoreText(param) != []
  {
    TokenIsTrimmed(param.name);
    if param.value.Some? {
      var value := ValueText(param.value.value);
      ValueIsInert(param.value.value, ',', true);
      hide Leads, ValueText;
      var text := CoreText(param);
      assert text[0] == param.name[0] && text[|text| - 1] == value[|value| - 1];
    }
  }

  /** The two sides of a parameter's `=`. */
  lemma CoreSplits(param: Param)
    requires IsParam(param)
    ensures param.value.None? ==> Find(CoreText(param), 0, '=') == None
    ensures param.value.Some? ==>
              var text, at := CoreText(param), |param.name| + |param.behindName|;
              && Find(text, 0, '=') == Some(at) && text[..at] == param.name + param.behindName
              && text[at + 1..] == param.beforeValue + ValueText(param.value.value)
  {
    TokenIsTrimmed(param.name);
    var text := CoreText(param);
    if param.value.Some? {
      hide ValueText;
      var front := param.name + param.behindName;
      assert text == front + "=" + (param.beforeValue + ValueText(param.value.value));
      assert forall k :: 0 <= k < |front| ==> front[k] != '=';
      assert text[..|front|] == front;
      FindIs(text, 0, '=', |front|);
    } else {
      assert text == param.name;
    }
  }

  lemma ValueUnquotes(value: Value)
    requires IsValue(value)
    ensures Unquoted(ValueText(value)) == value.text
  {
    var text := ValueText(value);
    if value.quoted {
      assert text[1..|text| - 1] == value.text;
    } else {
      assert text[0] != '"';
    }
  }

  lemma NextRelUnfolds(parameter: string)
    ensures var param := Trim(parameter);
            var eq := Find(param, 0, '=');
            IsNextRel(parameter) <==>
              && eq.Some? && EqualIgnoringCase(Trim(param[..eq.value]), "rel")
              && ListsNext(Words(Unquoted(Trim(param[eq.value + 1..]))))
  {
  }

  /** The name and the value of a parameter, trimmed and unquoted, are its own. */
  lemma SidesTrim(param: Param)
    requires IsParam(param) && param.value.Some?
    ensures Trim(param.name + param.behindName) == param.name
    ensures Unquoted(Trim(param.beforeValue + ValueText(param.value.value))) == param.value.value.text
  {
    hide *;
    ParamParts(param);
    TokenIsTrimmed(param.name);
    ValueIsInert(param.value.value, ',', true);
    NothingAround(param.name, param.behindName);
    NothingIsWhite();
    WhiteTrims([], param.name, param.behindName);
    AroundNothing(param.beforeValue, ValueText(param.value.value));
    WhiteTrims(param.beforeValue, ValueText(param.value.value), []);
    ValueUnquotes(param.value.value);
  }

  lemma ParamParts(param: Param)
    requires IsParam(param)
    ensures AllWhite(param.lead) && IsToken(param.name) && AllWhite(param.trail) && IsDelim(',')
    ensures param.value.Some? ==> AllWhite(param.behindName) && AllWhite(param.beforeValue) && IsValue(param.value.value)
  {
  }

  lemma NothingIsWhite()
    ensures AllWhite([])
  {
  }

  /** A parameter is read as naming `next` exactly when it does. */
  lemma ParamReads(param: Param)
    requires IsParam(param)
    ensures IsNextRel(ParamText(param)) <==> IsNext(param)
  {
    CoreIsTrimmed(param);
    CoreSplits(param);
    ParamParts(param);
    WhiteTrims(param.lead, CoreText(param), param.trail);
    NextRelUnfolds(ParamText(param));
    if param.value.Some? {
      SidesTrim(param);
      RelNameExactly(param.name);
      WordsListNext(param.value.value.text);
    }
    hide IsNextRel, IsParam, Trim, Find, Words, ListsNext, EqualIgnoringCase, CoreText, ValueText, Unquoted, HoldsNext, IsRelName, IsTrimmed, Leads;
  }

  lemma NothingAround(s: string, trail: string)
    ensures [] + s + trail == s + trail
  {
  }

  lemma AroundNothing(lead: string, s: string)
    ensures lead + s + [] == lead + s
  {
  }

  // ----- Reading an entry -----

  /** The parameters behind a reference, as the splitter cuts them. */
  function ParamTexts(params: seq<Param>): seq<string> {
    if params == [] then [] else [ParamText(params[0])] + ParamTexts(params[1..])
  }

  lemma {:induction false} ParamTextsAt(params: seq<Param>)
    ensures |ParamTexts(params)| == |params|
    ensures forall k :: 0 <= k < |params| ==> ParamTexts(params)[k] == ParamText(params[k])
  {
    hide ParamText;
    if params != [] {
      ParamTextsAt(params[1..]);
    }
  }

  /** The white space ahead of the first `;` is a part of its own. */
  lemma {:induction false} ParamTextsJoin(gap: string, params: seq<Param>)
    ensures Join([gap] + ParamTexts(params), ';') == gap + ParamsText(params)
    decreases |params|
  {
    hide ParamText;
    if params == [] {
      assert [gap] + ParamTexts(params) == [gap] && gap + "" == gap;
    } else {
      var first, rest := ParamText(params[0]), ParamTexts(params[1..]);
      ParamTextsJoin(first, params[1..]);
      var parts := [gap] + ([first] + rest);
      assert parts[1..] == [first] + rest;
      assert gap + [';'] + (first + ParamsText(params[1..])) == gap + (";" + first + ParamsText(params[1..]));
    }
  }

  lemma ParametersSplit(ahead: Ahead, params: seq<Param>)
    requires IsAhead(ahead) && AreParams(params)
    ensures Split(AheadText(ahead) + ParamsText(params), ';', false) == [AheadText(ahead)] + ParamTexts(params)
  {
    var text, parts := AheadText(ahead) + ParamsText(params), [AheadText(ahead)] + ParamTexts(params);
    ParamTextsJoin(AheadText(ahead), params);
    ParamTextsAt(params);
    forall k | 0 <= k < |parts|
      ensures Whole(parts[k], ';', false) && Closed(parts[k], false)
    {
      hide Leads, Whole, Closed, AheadText;
      if k == 0 {
        AheadIsInert(ahead, ';', false);
        InertIsWhole(AheadText(ahead), ';', false);
      } else {
        ParamIsInert(params[k - 1], ';', false);
        InertIsWhole(ParamText(params[k - 1]), ';', false);
      }
    }
    hide AreParams, ParamsText, ParamTexts, Whole, Closed, Split, Join, AheadText;
    SplitIsSplit(text, ';', false);
    SplitIsUnique(text, Split(text, ';', false), parts, ';', false);
  }

  lemma NoParameter(gap: string)
    requires AllWhite(gap)
    ensures !IsNextRel(gap)
  {
    WhiteTrims(gap, [], []);
    assert gap + [] + [] == gap;
  }

  lemma AheadReads(ahead: Ahead)
    requires IsAhead(ahead)
    ensures IsNextRel(AheadText(ahead)) <==> ahead.Direct? && IsNext(ahead.param)
  {
    if ahead.Gap? {
      NoParameter(ahead.text);
    } else {
      ParamReads(ahead.param);
    }
    hide IsNextRel, ParamText, IsNext;
  }

  lemma NextParams(ahead: Ahead, params: seq<Param>)
    requires IsAhead(ahead) && AreParams(params)
    ensures AnyNextRel([AheadText(ahead)] + ParamTexts(params)) <==> AnyNext(ahead, params)
  {
    hide IsNextRel, ParamText, IsNext, AheadText, IsAhead;
    AheadReads(ahead);
    ParamTextsAt(params);
    var parts := [AheadText(ahead)] + ParamTexts(params);
    forall k | 0 <= k < |params|
      ensures IsNextRel(parts[k + 1]) <==> IsNext(params[k])
    {
      ParamReads(params[k]);
    }
    hide ParamTexts;
    assert parts[0] == AheadText(ahead);
    if AnyNextRel(parts) {
      var k :| 0 <= k < |parts| && IsNextRel(parts[k]);
      assert k > 0 ==> IsNext(params[k - 1]);
    }
  }

  /** The white space that ends a list of parameters, taken off. */
  function WithoutTrail(params: seq<Param>): seq<Param> {
    if params == [] then [] else params[..|params| - 1] + [params[|params| - 1].(trail := "")]
  }

  lemma {:induction false} ParamsTextPush(params: seq<Param>, last: Param)
    ensures ParamsText(params + [last]) == ParamsText(params) + (";" + ParamText(last))
  {
    hide ParamText;
    if params == [] {
      assert params + [last] == [last] && [last][1..] == [];
      assert "" + (";" + ParamText(last)) == ";" + ParamText(last) + "";
    } else {
      ParamsTextPush(params[1..], last);
      assert (params + [last])[1..] == params[1..] + [last];
    }
  }

  /** What follows a reference, once trimmed. */
  lemma BehindTrims(params: seq<Param>)
    requires AreParams(params) && params != []
    ensures var last, shorter := params[|params| - 1], WithoutTrail(params);
            && ParamsText(params) == ParamsText(shorter) + last.trail && AllWhite(last.trail)
            && ParamsText(shorter) != [] && !IsWhite(ParamsText(shorter)[|ParamsText(shorter)| - 1])
            && AreParams(shorter) && |shorter| == |params|
            && forall k :: 0 <= k < |params| ==> (IsNext(shorter[k]) <==> IsNext(params[k]))
  {
    var front, last := params[..|params| - 1], params[|params| - 1];
    var cut := last.(trail := "");
    assert params == front + [last];
    ParamsTextPush(front, last);
    ParamsTextPush(front, cut);
    CoreIsTrimmed(last);
    assert CoreText(cut) == CoreText(last);
    hide CoreText, ParamsText, HoldsNext, IsRelName;
    assert ParamText(last) == ParamText(cut) + last.trail;
    assert ParamsText(front) + (";" + (ParamText(cut) + last.trail)) == ParamsText(front) + (";" + ParamText(cut)) + last.trail;
  }

  lemma EntrySlices(uri: string, rest: string)
    requires '>' !in uri
    ensures var text, end := "<" + uri + ">" + rest, 1 + |uri|;
            && text[0] == '<' && text[1..end] == uri && text[end] == '>' && text[end + 1..] == rest
            && forall k :: 1 <= k < end ==> text[k] != '>'
  {
    var text := "<" + uri + ">" + rest;
    assert forall k :: 1 <= k < 1 + |uri| ==> text[k] == uri[k - 1];
  }

  /** Loose text and white space around a text that opens and closes with something else. */
  lemma {:induction false} LooseTrims(lead: string, s: string, trail: string)
    requires s != [] && IsTrimmed(s) && AllWhite(trail)
    ensures Trim(lead + s + trail) == TrimStart(lead) + s
  {
    StartTrims(lead, s + trail);
    var rest := TrimStart(lead) + s;
    assert lead + s + trail == lead + (s + trail) && TrimStart(lead) + (s + trail) == rest + trail;
    assert rest[|rest| - 1] == s[|s| - 1];
    TrailTrims(rest, trail);
  }

  lemma {:induction false} StartTrims(lead: string, s: string)
    requires s != [] && !IsWhite(s[0])
    ensures TrimStart(lead + s) == TrimStart(lead) + s
  {
    if lead == [] {
      assert lead + s == s;
    } else {
      StartTrims(lead[1..], s);
      assert (lead + s)[0] == lead[0] && (lead + s)[1..] == lead[1..] + s;
    }
  }

  /** The places of the angles behind loose text. */
  lemma AnglesBehind(lead: string, uri: string, rest: string)
    requires '<' !in lead && '>' !in uri
    ensures var text, n := lead + ("<" + uri + ">" + rest), |lead|;
            && Find(text, 0, '<') == Some(n) && Find(text, n + 1, '>') == Some(n + 1 + |uri|)
            && text[n + 1..n + 1 + |uri|] == uri && text[n + 2 + |uri|..] == rest
  {
    hide Find;
    EntrySlices(uri, rest);
    var link, n := "<" + uri + ">" + rest, |lead|;
    var text := lead + link;
    assert forall k :: 0 <= k < n ==> text[k] == lead[k];
    assert forall k :: n <= k < |text| ==> text[k] == link[k - n];
    FindIs(text, 0, '<', n);
    FindIs(text, n + 1, '>', n + 1 + |uri|);
    assert text[n + 1..n + 1 + |uri|] == link[1..1 + |uri|];
    assert text[n + 2 + |uri|..] == link[2 + |uri|..];
  }

  /** A reference in angles with text behind it that does not end in white space, and what may stand around both. */
  lemma TargetReads(lead: string, uriLead: string, uri: string, uriTrail: string, rest: string, trail: string)
    requires '<' !in lead && AllWhite(uriLead) && AllWhite(uriTrail) && AllWhite(trail) && IsTrimmed(uri) && '>' !in uri
    requires rest != [] ==> !IsWhite(rest[|rest| - 1])
    ensures Target(lead + ("<" + (uriLead + uri + uriTrail) + ">" + rest) + trail) == if uri == "" then None else Some((uri, rest))
  {
    var inner := uriLead + uri + uriTrail;
    var text := "<" + inner + ">" + rest;
    assert text[0] == '<' && (rest == [] ==> text[|text| - 1] == '>') && (rest != [] ==> text[|text| - 1] == rest[|rest| - 1]);
    LooseTrims(lead, text, trail);
    WhiteTrims(uriLead, uri, uriTrail);
    TrimStartKeeps(lead);
    AnglesBehind(TrimStart(lead), inner, rest);
    hide Trim, Find, TrimStart;
  }

  /** What is left of an entry behind its reference, once trimmed. */
  function RestAhead(entry: Entry): Ahead
    requires entry.Link?
  {
    if entry.params != [] then entry.ahead
    else if entry.ahead.Gap? then Gap("")
    else Direct(entry.ahead.param.(trail := ""))
  }

  function Rest(entry: Entry): string
    requires entry.Link?
  {
    AheadText(RestAhead(entry)) + ParamsText(WithoutTrail(entry.params))
  }

  /** The white space that trimming takes off behind the parameters. */
  function Trimmed(entry: Entry): string
    requires entry.Link?
  {
    if entry.params != [] then entry.params[|entry.params| - 1].trail
    else if entry.ahead.Gap? then entry.ahead.text
    else entry.ahead.param.trail
  }

  lemma RestIs(entry: Entry)
    requires IsEntry(entry) && entry.Link?
    ensures AheadText(entry.ahead) + ParamsText(entry.params) == Rest(entry) + Trimmed(entry) && AllWhite(Trimmed(entry))
    ensures Rest(entry) != [] ==> !IsWhite(Rest(entry)[|Rest(entry)| - 1])
    ensures IsAhead(RestAhead(entry)) && AreParams(WithoutTrail(entry.params))
    ensures AnyNext(RestAhead(entry), WithoutTrail(entry.params)) <==> AnyNext(entry.ahead, entry.params)
  {
    if entry.params != [] {
      BehindTrims(entry.params);
      hide ParamsText, WithoutTrail, IsNext, IsParam, AheadText, IsWhite, AllWhite;
      var shorter := WithoutTrail(entry.params);
      assert AheadText(entry.ahead) + (ParamsText(shorter) + Trimmed(entry)) == AheadText(entry.ahead) + ParamsText(shorter) + Trimmed(entry);
    } else {
      assert ParamsText([]) == "" && WithoutTrail([]) == [];
      if entry.ahead.Direct? {
        var param := entry.ahead.param;
        var cut := param.(trail := "");
        CoreIsTrimmed(param);
        assert CoreText(cut) == CoreText(param);
        hide CoreText, HoldsNext, IsRelName;
        assert ParamText(param) == ParamText(cut) + param.trail;
      }
    }
  }

  lemma LinkTarget(entry: Entry)
    requires IsEntry(entry) && entry.Link?
    ensures Target(EntryText(entry)) == if entry.uri == "" then None else Some((entry.uri, Rest(entry)))
  {
    hide *;
    RestIs(entry);
    EntryParts(entry);
    var inner := entry.uriLead + entry.uri + entry.uriTrail;
    Regroups(entry.lead, "<" + inner + ">", AheadText(entry.ahead), ParamsText(entry.params), entry.trail, Rest(entry), Trimmed(entry));
    TargetReads(entry.lead, entry.uriLead, entry.uri, entry.uriTrail, Rest(entry), Trimmed(entry) + entry.trail);
  }

  lemma EntryParts(entry: Entry)
    requires IsEntry(entry) && entry.Link?
    ensures '<' !in entry.lead && AllWhite(entry.uriLead) && AllWhite(entry.uriTrail) && IsTrimmed(entry.uri) && '>' !in entry.uri
    ensures AllWhite(Trimmed(entry)) ==> AllWhite(Trimmed(entry) + entry.trail)
    ensures EntryText(entry) == entry.lead + ("<" + (entry.uriLead + entry.uri + entry.uriTrail) + ">"
                                              + (AheadText(entry.ahead) + ParamsText(entry.params))) + entry.trail
  {
    hide AheadText, ParamsText, Trimmed, IsTrimmed, IsAhead, AreParams, IsWhite;
  }

  lemma Regroups(lead: string, link: string, ahead: string, params: string, trail: string, rest: string, cut: string)
    requires ahead + params == rest + cut
    ensures lead + (link + (ahead + params)) + trail == lead + (link + rest) + (cut + trail)
  {
  }

  lemma RestNext(entry: Entry)
    requires IsEntry(entry) && entry.Link?
    ensures AnyNextRel(Split(Rest(entry), ';', false)) <==> AnyNext(entry.ahead, entry.params)
  {
    RestIs(entry);
    ParametersSplit(RestAhead(entry), WithoutTrail(entry.params));
    NextParams(RestAhead(entry), WithoutTrail(entry.params));
    hide ParamsText, WithoutTrail, Split, AnyNextRel, ParamTexts, AnyNext, RestAhead, IsAhead, AreParams;
  }

  lemma OtherHasNone(text: string)
    requires '<' !in text
    ensures EntryOf(text) == None
  {
    var trimmed := Trim(text);
    TrimKeeps(text);
    assert Find(trimmed, 0, '<') == None;
  }

  lemma TrimKeeps(text: string)
    ensures forall c :: c in Trim(text) ==> c in text
  {
    TrimStartKeeps(text);
    TrimEndKeeps(TrimStart(text));
  }

  lemma {:induction false} TrimStartKeeps(text: string)
    ensures forall c :: c in TrimStart(text) ==> c in text
  {
    if text != [] {
      TrimStartKeeps(text[1..]);
    }
  }

  lemma {:induction false} TrimEndKeeps(text: string)
    ensures forall c :: c in TrimEnd(text) ==> c in text
  {
    if text != [] {
      TrimEndKeeps(text[..|text| - 1]);
    }
  }

  /** An entry reads back as its reference and whether a `rel` of it lists `next`; without a reference it is none. */
  lemma EntryReads(entry: Entry)
    requires IsEntry(entry)
    ensures EntryOf(EntryText(entry)) == if entry.Other? || entry.uri == "" then None else Some((entry.uri, NamesNext(entry)))
  {
    if entry.Other? {
      OtherHasNone(entry.text);
    } else {
      hide Target, Split, AnyNextRel, EntryText, AnyNext, Rest;
      LinkTarget(entry);
      RestNext(entry);
    }
  }

  lemma {:induction false} EntryTextsAt(entries: seq<Entry>)
    ensures |EntryTexts(entries)| == |entries|
    ensures forall k :: 0 <= k < |entries| ==> EntryTexts(entries)[k] == EntryText(entries[k])
  {
    hide EntryText;
    if entries != [] {
      EntryTextsAt(entries[1..]);
    }
  }

  lemma {:induction false} FirstNextReads(entries: seq<Entry>)
    requires AreEntries(entries)
    ensures FirstNext(EntryTexts(entries)) == FirstNextLink(entries)
  {
    if entries != [] {
      hide EntryText, EntryOf, IsEntry;
      EntryReads(entries[0]);
      FirstNextReads(entries[1..]);
      var rest := EntryTexts(entries[1..]);
      assert ([EntryText(entries[0])] + rest)[1..] == rest;
    }
  }

  lemma FieldReads(entries: seq<Entry>)
    requires entries != [] && AreEntries(entries)
    ensures FirstNext(Split(FieldText(entries), ',', true)) == FirstNextLink(entries)
  {
    var text, parts := FieldText(entries), EntryTexts(entries);
    EntryTextsAt(entries);
    hide EntryText, EntryTexts, Split, EntryOf, IsEntry, Whole, Closed;
    forall k | 0 <= k < |parts|
      ensures Whole(parts[k], ',', true) && Closed(parts[k], true)
    {
      EntryIsInert(entries[k]);
    }
    SplitIsSplit(text, ',', true);
    SplitIsUnique(text, Split(text, ',', true), parts, ',', true);
    FirstNextReads(entries);
  }

  // ----- Several values -----

  /** A header value: the entries it holds, or none when it is no text. */
  type Field = Option<seq<Entry>>

  predicate IsField(field: Field) {
    field.Some? ==> field.value != [] && AreEntries(field.value)
  }

  function Rendered(fields: seq<Field>): seq<Option<string>> {
    if fields == [] then []
    else [if fields[0].Some? then Some(FieldText(fields[0].value)) else None] + Rendered(fields[1..])
  }

  /** Every entry, over all values that are text. */
  function AllEntries(fields: seq<Field>): seq<Entry> {
    if fields == [] then [] else (if fields[0].Some? then fields[0].value else []) + AllEntries(fields[1..])
  }

  lemma {:induction false} FirstNextOfMore(first: seq<Entry>, more: seq<Entry>)
    ensures FirstNextLink(first + more) == if FirstNextLink(first).Some? then FirstNextLink(first) else FirstNextLink(more)
  {
    hide NamesNext;
    if first == [] {
      assert first + more == more;
    } else {
      FirstNextOfMore(first[1..], more);
      assert (first + more)[1..] == first[1..] + more;
    }
  }

  /**
   * Well-formed values name the reference of their first link with a parameter whose relation types
   * list `next`, whatever other parameters stand around it and however the values are cut.
   */
  lemma {:induction false} RenderedFieldsRead(fields: seq<Field>)
    requires forall k :: 0 <= k < |fields| ==> IsField(fields[k])
    ensures FirstNextOf(Rendered(fields)) == FirstNextLink(AllEntries(fields))
  {
    hide FieldText, Split, FirstNext, IsEntry;
    if fields != [] {
      var rest := fields[1..];
      assert forall k :: 0 <= k < |rest| ==> rest[k] == fields[k + 1];
      RenderedFieldsRead(rest);
      assert Rendered(fields)[1..] == Rendered(rest);
      assert IsField(fields[0]);
      if fields[0].Some? {
        FieldReads(fields[0].value);
        FirstNextOfMore(fields[0].value, AllEntries(rest));
      } else {
        assert [] + AllEntries(rest) == AllEntries(rest);
      }
    }
  }
}
