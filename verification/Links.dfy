/** `Link` header values: the entry parser of support-runtime/src/paginate.rs. */
module Links {
  import opened Sequences
  import opened LinkSplitting

  predicate IsSpace(c: char) {
    c == ' ' || c == '\t'
  }

  function TrimStart(s: string): string {
    if s != [] && IsSpace(s[0]) then TrimStart(s[1..]) else s
  }

  function TrimEnd(s: string): string {
    if s != [] && IsSpace(s[|s| - 1]) then TrimEnd(s[..|s| - 1]) else s
  }

  function Trim(s: string): string {
    TrimEnd(TrimStart(s))
  }

  /** The index of the first `c` at or after `from`. */
  function Find(s: string, from: nat, c: char): (index: Option<nat>)
    requires from <= |s|
    ensures index.Some? ==> from <= index.value < |s| && s[index.value] == c
    ensures forall k :: from <= k < (if index.Some? then index.value else |s|) ==> s[k] != c
    decreases |s| - from
  {
    if from == |s| then None else if s[from] == c then Some(from) else Find(s, from + 1, c)
  }

  predicate EqualIgnoringCase(a: string, b: string) {
    |a| == |b| && forall i :: 0 <= i < |a| ==> Lower(a[i]) == Lower(b[i])
  }

  function SpacesOnly(s: string): string {
    if s == [] then [] else [if s[0] == '\t' then ' ' else s[0]] + SpacesOnly(s[1..])
  }

  /** The words of `s` between runs of white space. */
  function Words(s: string): seq<string> {
    NonEmpty(SplitOn(SpacesOnly(s), ' '))
  }

  predicate ListsNext(words: seq<string>) {
    exists i :: 0 <= i < |words| && EqualIgnoringCase(words[i], "next")
  }

  function Unquoted(value: string): string {
    if |value| >= 2 && value[0] == '"' && value[|value| - 1] == '"' then value[1..|value| - 1] else value
  }

  /** Whether a parameter is a `rel` that lists `next`. */
  predicate IsNextRel(parameter: string) {
    var param := Trim(parameter);
    var eq := Find(param, 0, '=');
    && eq.Some?
    && EqualIgnoringCase(Trim(param[..eq.value]), "rel")
    && ListsNext(Words(Unquoted(Trim(param[eq.value + 1..]))))
  }

  /** The reference between the first `<` and the next `>`, and what follows it. */
  function Target(entry: string): Option<(string, string)> {
    var trimmed := Trim(entry);
    var open :- Find(trimmed, 0, '<');
    var close :- Find(trimmed, open + 1, '>');
    var uri := Trim(trimmed[open + 1..close]);
    if uri == [] then None else Some((uri, trimmed[close + 1..]))
  }

  predicate AnyNextRel(parameters: seq<string>) {
    exists k :: 0 <= k < |parameters| && IsNextRel(parameters[k])
  }

  /** What an entry names: its reference, and whether its `rel` lists `next`. */
  function EntryOf(entry: string): Option<(string, bool)> {
    var target :- Target(entry);
    Some((target.0, AnyNextRel(Split(target.1, ';', false))))
  }

  method ParseLinkEntry(entry: string) returns (parsed: Option<(string, bool)>)
    ensures parsed == EntryOf(entry)
  {
    hide IsNextRel, Target, Split;
    var target := Target(entry);
    if target.None? {
      return None;
    }
    var isNext := false;
    var parameters := SplitOutside(target.value.1, ';', false);
    for i := 0 to |parameters|
      invariant isNext <==> exists k :: 0 <= k < i && IsNextRel(parameters[k])
    {
      if IsNextRel(parameters[i]) {
        isNext := true;
      }
    }
    parsed := Some((target.value.0, isNext));
  }

  /** The reference of the first entry that names `next`. */
  function FirstNext(entries: seq<string>): Option<string> {
    if entries == [] then None
    else
      var entry := EntryOf(entries[0]);
      if entry.Some? && entry.value.1 then Some(entry.value.0) else FirstNext(entries[1..])
  }

  /** The same over every header value; a value that is no text is skipped. */
  function FirstNextOf(values: seq<Option<string>>): Option<string> {
    if values == [] then None
    else
      var found := if values[0].Some? then FirstNext(Split(values[0].value, ',', true)) else None;
      if found.Some? then found else FirstNextOf(values[1..])
  }

  method NextLinkTarget(values: seq<Option<string>>) returns (target: Option<string>)
    ensures target == FirstNextOf(values)
  {
    for i := 0 to |values|
      invariant FirstNextOf(values) == FirstNextOf(values[i..])
    {
      assert values[i..][1..] == values[i + 1..];
      if values[i].None? {
        continue;
      }
      var entries := SplitOutside(values[i].value, ',', true);
      for j := 0 to |entries|
        invariant FirstNext(entries) == FirstNext(entries[j..])
      {
        assert entries[j..][1..] == entries[j + 1..];
        var entry := ParseLinkEntry(entries[j]);
        if entry.Some? && entry.value.1 {
          return Some(entry.value.0);
        }
      }
      assert entries[|entries|..] == [];
    }
    assert values[|values|..] == [];
    target := None;
  }
}
