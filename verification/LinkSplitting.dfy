/** The quote- and angle-aware splitter of support-runtime/src/paginate.rs. */
module LinkSplitting {
  import opened Sequences

  /** Where in a field value a character stands: outside, in `<...>`, in `"..."`, or after a backslash there. */
  datatype Place = Outside | InAngle | InQuote | Escaped

  function Step(place: Place, c: char, respectAngles: bool): Place {
    match place
    case Outside => if c == '<' && respectAngles then InAngle else if c == '"' then InQuote else Outside
    case InAngle => if c == '>' then Outside else InAngle
    case InQuote => if c == '\\' then Escaped else if c == '"' then Outside else InQuote
    case Escaped => InQuote
  }

  /** Where a text leaves off that starts at `place`. */
  function PlaceAfter(place: Place, text: string, respectAngles: bool): Place {
    if text == [] then place
    else Step(PlaceAfter(place, text[..|text| - 1], respectAngles), text[|text| - 1], respectAngles)
  }

  /** The delimiter at `i` counts: nothing around it protects it. */
  predicate CutsAt(text: string, i: nat, delim: char, respectAngles: bool) {
    i < |text| && text[i] == delim && PlaceAfter(Outside, text[..i], respectAngles) == Outside
  }

  /** No delimiter of `part` counts. */
  predicate Whole(part: string, delim: char, respectAngles: bool) {
    forall i :: 0 <= i < |part| ==> !CutsAt(part, i, delim, respectAngles)
  }

  predicate Closed(part: string, respectAngles: bool) {
    PlaceAfter(Outside, part, respectAngles) == Outside
  }

  /**
   * `parts` is `text` cut at exactly the delimiters that count: joined they are the text, no part holds
   * one that counts, and each part but the last leaves off where a delimiter counts.
   */
  ghost predicate IsSplit(text: string, parts: seq<string>, delim: char, respectAngles: bool) {
    && parts != []
    && Join(parts, delim) == text
    && (forall k :: 0 <= k < |parts| ==> Whole(parts[k], delim, respectAngles))
    && (forall k :: 0 <= k < |parts| - 1 ==> Closed(parts[k], respectAngles))
  }

  /** The characters the splitter itself gives a meaning to, which no delimiter is. */
  predicate IsDelimiter(c: char) {
    c != '<' && c != '>' && c != '"' && c != '\\'
  }

  lemma {:induction false} PlaceAfterAppend(place: Place, a: string, b: string, respectAngles: bool)
    ensures PlaceAfter(place, a + b, respectAngles) == PlaceAfter(PlaceAfter(place, a, respectAngles), b, respectAngles)
  {
    if b == [] {
      assert a + b == a;
    } else {
      PlaceAfterAppend(place, a, b[..|b| - 1], respectAngles);
      assert (a + b)[..|a + b| - 1] == a + b[..|b| - 1];
    }
  }

  lemma CutsPrefix(a: string, b: string, i: nat, delim: char, respectAngles: bool)
    requires i < |a|
    ensures CutsAt(a + b, i, delim, respectAngles) <==> CutsAt(a, i, delim, respectAngles)
  {
    assert (a + b)[..i] == a[..i];
  }

  /** There is one way to split a text. */
  lemma {:induction false} SplitIsUnique(text: string, a: seq<string>, b: seq<string>, delim: char, respectAngles: bool)
    requires IsDelimiter(delim) && IsSplit(text, a, delim, respectAngles) && IsSplit(text, b, delim, respectAngles)
    ensures a == b
    decreases |a|
  {
    FirstCut(text, a, delim, respectAngles);
    FirstCut(text, b, delim, respectAngles);
    assert |a| > 1 ==> CutsAt(text, |a[0]|, delim, respectAngles);
    assert |b| > 1 ==> CutsAt(text, |b[0]|, delim, respectAngles);
    if |a| > 1 && |b| > 1 {
      assert |a[0]| == |b[0]|;
      assert text[..|a[0]|] == a[0] && text[..|b[0]|] == b[0];
      SplitIsUnique(text[|a[0]| + 1..], a[1..], b[1..], delim, respectAngles);
      assert a == [a[0]] + a[1..] && b == [b[0]] + b[1..];
    }
  }

  /** The first part of a split ends where the first delimiter counts. */
  lemma FirstCut(text: string, parts: seq<string>, delim: char, respectAngles: bool)
    requires IsSplit(text, parts, delim, respectAngles)
    ensures |parts| == 1 ==> text == parts[0]
    ensures |parts| > 1 ==> |parts[0]| < |text| && text[..|parts[0]|] == parts[0]
                            && CutsAt(text, |parts[0]|, delim, respectAngles)
                            && IsSplit(text[|parts[0]| + 1..], parts[1..], delim, respectAngles)
    ensures forall i :: 0 <= i < |parts[0]| ==> !CutsAt(text, i, delim, respectAngles)
  {
    if |parts| > 1 {
      var rest := [delim] + Join(parts[1..], delim);
      assert text == parts[0] + rest;
      assert text[..|parts[0]|] == parts[0];
      assert text[|parts[0]| + 1..] == Join(parts[1..], delim);
      forall i | 0 <= i < |parts[0]|
        ensures !CutsAt(text, i, delim, respectAngles)
      {
        CutsPrefix(parts[0], rest, i, delim, respectAngles);
      }
    }
  }

  /** The first delimiter from `i` on that counts. */
  function FindCut(text: string, i: nat, delim: char, respectAngles: bool): (at: Option<nat>)
    requires i <= |text|
    ensures at.Some? ==> i <= at.value < |text| && CutsAt(text, at.value, delim, respectAngles)
    ensures forall k :: i <= k < (if at.Some? then at.value else |text|) ==> !CutsAt(text, k, delim, respectAngles)
    decreases |text| - i
  {
    if i == |text| then None
    else if CutsAt(text, i, delim, respectAngles) then Some(i)
    else FindCut(text, i + 1, delim, respectAngles)
  }

  /** `text` cut at the delimiters that count. */
  function Split(text: string, delim: char, respectAngles: bool): (parts: seq<string>)
    ensures parts != []
    decreases |text|
  {
    var cut := FindCut(text, 0, delim, respectAngles);
    if cut.None? then [text] else [text[..cut.value]] + Split(text[cut.value + 1..], delim, respectAngles)
  }

  lemma {:induction false} SplitIsSplit(text: string, delim: char, respectAngles: bool)
    ensures IsSplit(text, Split(text, delim, respectAngles), delim, respectAngles)
    decreases |text|
  {
    var cut := FindCut(text, 0, delim, respectAngles);
    if cut.Some? {
      var at := cut.value;
      var rest := Split(text[at + 1..], delim, respectAngles);
      SplitIsSplit(text[at + 1..], delim, respectAngles);
      assert ([text[..at]] + rest)[1..] == rest;
      assert text == text[..at] + [delim] + text[at + 1..];
      assert text == text[..at] + text[at..];
      forall i | 0 <= i < at
        ensures !CutsAt(text[..at], i, delim, respectAngles)
      {
        CutsPrefix(text[..at], text[at..], i, delim, respectAngles);
      }
    }
  }

  /** Splits `text` on `delim`, treating a delimiter inside a quoted string, or inside `<...>`, as literal. */
  method SplitOutside(text: string, delim: char, respectAngles: bool) returns (parts: seq<string>)
    requires IsDelimiter(delim)
    ensures parts == Split(text, delim, respectAngles)
  {
    parts := [];
    var start, i := 0, 0;
    var inAngle, inQuote := false, false;
    ghost var place := Outside;
    while i < |text|
      invariant start <= i
      invariant start <= |text|
      invariant inAngle ==> respectAngles && !inQuote
      invariant i <= |text| ==> place == PlaceAfter(Outside, text[start..i], respectAngles)
      invariant i <= |text| ==> place == if inAngle then InAngle else if inQuote then InQuote else Outside
      invariant i <= |text| + 1
      invariant i <= |text| ==> NoCut(text, start, i, delim, respectAngles)
      invariant i > |text| ==> NoCut(text, start, |text|, delim, respectAngles)
      invariant Cut(text, parts, start, delim, respectAngles)
    {
      StepAt(text, start, i, delim, respectAngles);
      place := Step(place, text[i], respectAngles);
      if text[i] == '\\' && inQuote {
        NotOutside(text, start, i, delim, respectAngles);
        i := i + 1;
        if i < |text| {
          StepAt(text, start, i, delim, respectAngles);
          place := Step(place, text[i], respectAngles);
          NotOutside(text, start, i, delim, respectAngles);
        }
      } else if text[i] == '<' && respectAngles && !inQuote {
        inAngle := true;
        NotOutside(text, start, i, delim, respectAngles);
      } else if text[i] == '>' && respectAngles && !inQuote {
        inAngle := false;
        NotOutside(text, start, i, delim, respectAngles);
      } else if text[i] == '"' && !inAngle {
        inQuote := !inQuote;
        NotOutside(text, start, i, delim, respectAngles);
      } else if text[i] == delim && !inAngle && !inQuote {
        CutMore(text, parts, start, i, delim, respectAngles);
        parts := parts + [text[start..i]];
        start := i + 1;
        place := Outside;
      } else {
        NotOutside(text, start, i, delim, respectAngles);
      }
      i := i + 1;
    }
    CutLast(text, parts, start, delim, respectAngles);
    parts := parts + [text[start..]];
    SplitIsSplit(text, delim, respectAngles);
    SplitIsUnique(text, parts, Split(text, delim, respectAngles), delim, respectAngles);
  }

  /** `parts` is what has been cut off `text` before `start`. */
  ghost predicate Cut(text: string, parts: seq<string>, start: nat, delim: char, respectAngles: bool) {
    && start <= |text|
    && (forall k :: 0 <= k < |parts| ==> Whole(parts[k], delim, respectAngles) && Closed(parts[k], respectAngles))
    && text[..start] == Terminated(parts, [delim])
  }

  /** No delimiter of `text[start..i]` counts, read from `start`. */
  predicate NoCut(text: string, start: nat, i: nat, delim: char, respectAngles: bool)
    requires start <= i <= |text|
  {
    forall k :: 0 <= k < i - start ==> !CutsAt(text[start..], k, delim, respectAngles)
  }

  lemma StepAt(text: string, start: nat, i: nat, delim: char, respectAngles: bool)
    requires start <= i < |text|
    ensures PlaceAfter(Outside, text[start..i + 1], respectAngles)
         == Step(PlaceAfter(Outside, text[start..i], respectAngles), text[i], respectAngles)
    ensures CutsAt(text[start..], i - start, delim, respectAngles)
       <==> text[i] == delim && PlaceAfter(Outside, text[start..i], respectAngles) == Outside
  {
    var grown := text[start..i + 1];
    assert grown[..|grown| - 1] == text[start..i];
    assert text[start..][..i - start] == text[start..i];
  }

  lemma NotOutside(text: string, start: nat, i: nat, delim: char, respectAngles: bool)
    requires start <= i < |text|
    requires text[i] != delim || PlaceAfter(Outside, text[start..i], respectAngles) != Outside
    ensures !CutsAt(text[start..], i - start, delim, respectAngles)
  {
    StepAt(text, start, i, delim, respectAngles);
  }

  lemma CutMore(text: string, parts: seq<string>, start: nat, i: nat, delim: char, respectAngles: bool)
    requires Cut(text, parts, start, delim, respectAngles) && start <= i < |text| && text[i] == delim
    requires PlaceAfter(Outside, text[start..i], respectAngles) == Outside
    requires NoCut(text, start, i, delim, respectAngles)
    ensures Cut(text, parts + [text[start..i]], i + 1, delim, respectAngles)
  {
    PartIsWhole(text, start, i, delim, respectAngles);
    TerminatedAppend(parts, text[start..i], [delim]);
    assert text[..i + 1] == text[..start] + (text[start..i] + [delim]);
  }

  lemma PartIsWhole(text: string, start: nat, i: nat, delim: char, respectAngles: bool)
    requires start <= i <= |text|
    requires NoCut(text, start, i, delim, respectAngles)
    ensures Whole(text[start..i], delim, respectAngles)
  {
    var part := text[start..i];
    forall k | 0 <= k < |part|
      ensures !CutsAt(part, k, delim, respectAngles)
    {
      assert text[start..] == part + text[i..];
      CutsPrefix(part, text[i..], k, delim, respectAngles);
      assert !CutsAt(text[start..], k, delim, respectAngles);
    }
  }

  lemma CutLast(text: string, parts: seq<string>, start: nat, delim: char, respectAngles: bool)
    requires Cut(text, parts, start, delim, respectAngles)
    requires NoCut(text, start, |text|, delim, respectAngles)
    ensures IsSplit(text, parts + [text[start..]], delim, respectAngles)
  {
    assert text[start..|text|] == text[start..];
    PartIsWhole(text, start, |text|, delim, respectAngles);
    TerminatedJoins(parts, text[start..], delim);
    assert text == text[..start] + text[start..];
  }

  lemma {:induction false} TerminatedJoins(parts: seq<string>, last: string, delim: char)
    ensures Terminated(parts, [delim]) + last == Join(parts + [last], delim)
  {
    if parts == [] {
      assert parts + [last] == [last];
    } else {
      var rest := Terminated(parts[1..], [delim]);
      TerminatedJoins(parts[1..], last, delim);
      assert (parts + [last])[1..] == parts[1..] + [last];
      assert parts[0] + [delim] + rest + last == parts[0] + [delim] + (rest + last);
    }
  }
}
