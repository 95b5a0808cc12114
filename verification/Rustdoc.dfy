/** The doc-comment normalizer of spargen/src/codegen/docs.rs. */
module Rustdoc {
  import opened Sequences

  datatype Continuation = Nothing | List(indent: nat) | Quote

  datatype State = State(continuation: Continuation, fence: Option<char>)

  const START := State(Nothing, None)

  function Expand(text: string): string {
    if text == [] then [] else (if text[0] == '\t' then "    " else [text[0]]) + Expand(text[1..])
  }

  function Trim(line: string): string {
    if line != [] && line[0] == ' ' then Trim(line[1..]) else line
  }

  function Leading(line: string): nat {
    if line != [] && line[0] == ' ' then 1 + Leading(line[1..]) else 0
  }

  function Digits(s: string): (n: nat)
    ensures n <= |s|
  {
    if s != [] && '0' <= s[0] <= '9' then 1 + Digits(s[1..]) else 0
  }

  function Spaces(n: nat): string {
    seq(n, _ => ' ')
  }

  // ----- The lines of a text -----

  function WithoutCr(line: string): string {
    if line != [] && line[|line| - 1] == '\r' then line[..|line| - 1] else line
  }

  /** What reading makes of parts joined by LF: CR LF ends a line too, and an empty last part is none. */
  function ReadBack(parts: seq<string>): seq<string> {
    if parts == [] || parts == [""] then []
    else if |parts| == 1 then parts
    else [WithoutCr(parts[0])] + ReadBack(parts[1..])
  }

  function TextLines(text: string): seq<string> {
    ReadBack(SplitOn(text, '\n'))
  }

  // ----- One line -----

  /** The width of a list marker at the start of `text` with the spaces after it. */
  function MarkerWidth(text: string): Option<nat> {
    if text != [] && text[0] in "-*+" then
      var spacing := Leading(text[1..]);
      if spacing > 0 then Some(1 + spacing) else None
    else
      var digits := Digits(text);
      if digits == |text| || digits == 0 || text[digits] !in ".)" then None
      else
        var spacing := Leading(text[digits + 1..]);
        if spacing > 0 then Some(digits + 1 + spacing) else None
  }

  /** The content column of the list item that `line` starts, if it starts one. */
  function ListIndent(line: string): Option<nat> {
    var width :- MarkerWidth(Trim(line));
    Some(Leading(line) + width)
  }

  predicate IsFence(line: string) {
    "```" <= Trim(line) || "~~~" <= Trim(line)
  }

  function AfterFence(fence: Option<char>, marker: char): Option<char> {
    if fence == None then Some(marker) else if fence == Some(marker) then None else fence
  }

  function Next(state: State, line: string): State {
    if IsFence(line) then State(Nothing, AfterFence(state.fence, Trim(line)[0]))
    else if state.fence.Some? then state
    else if Trim(line) == "" then state.(continuation := Nothing)
    else if Trim(line)[0] == '>' then state.(continuation := Quote)
    else if ListIndent(line).Some? then state.(continuation := List(ListIndent(line).value))
    else state
  }

  /** A line that takes its place in the text from the lines before it. */
  predicate Continues(state: State, line: string) {
    && !IsFence(line) && state.fence.None? && Trim(line) != "" && Trim(line)[0] != '>'
    && ListIndent(line).None? && !state.continuation.Nothing?
  }

  predicate Blanked(state: State, line: string) {
    !IsFence(line) && state.fence.None? && Trim(line) == ""
  }

  function Emitted(state: State, line: string): string {
    if Continues(state, line) then
      match state.continuation
      case Quote => "> " + line
      case List(indent) =>
        Spaces(if indent > Leading(line) then indent - Leading(line) else 0) + line
    else if Blanked(state, line) then "" else line
  }

  function After(state: State, lines: seq<string>): State
    decreases |lines|
  {
    if lines == [] then state else After(Next(state, lines[0]), lines[1..])
  }

  function Normalized(state: State, lines: seq<string>): seq<string>
    decreases |lines|
  {
    if lines == [] then [] else [Emitted(state, lines[0])] + Normalized(Next(state, lines[0]), lines[1..])
  }

  function NormalizedText(text: string): string {
    Join(Normalized(START, TextLines(Expand(text))), '\n')
  }

  // ----- The walk over the lines -----

  lemma {:induction false} NormalizedPush(state: State, lines: seq<string>, line: string)
    ensures Normalized(state, lines + [line]) == Normalized(state, lines) + [Emitted(After(state, lines), line)]
    ensures After(state, lines + [line]) == Next(After(state, lines), line)
    decreases |lines|
  {
    hide Emitted, Next;
    if lines != [] {
      assert (lines + [line])[0] == lines[0] && (lines + [line])[1..] == lines[1..] + [line];
      NormalizedPush(Next(state, lines[0]), lines[1..], line);
    } else {
      assert [line][1..] == [];
    }
  }

  /** The body of the loop: one line's rewrite, and what it means for the lines after it. */
  method NormalizeLine(continuation: Continuation, fence: Option<char>, line: string)
    returns (nextContinuation: Continuation, nextFence: Option<char>, emitted: string)
    ensures State(nextContinuation, nextFence) == Next(State(continuation, fence), line)
    ensures emitted == Emitted(State(continuation, fence), line)
  {
    nextContinuation, nextFence, emitted := continuation, fence, line;
    var trimmed := Trim(line);
    if "```" <= trimmed || "~~~" <= trimmed {
      var marker := trimmed[0];
      match fence {
        case Some(active) =>
          if active == marker {
            nextFence := None;
          }
        case None => nextFence := Some(marker);
      }
      nextContinuation := Nothing;
      return;
    }
    if fence.Some? {
      return;
    }
    var indent := ListIndent(line);
    if trimmed == "" {
      nextContinuation, emitted := Nothing, "";
    } else if trimmed[0] == '>' {
      nextContinuation := Quote;
    } else if indent.Some? {
      nextContinuation := List(indent.value);
    } else {
      match continuation {
        case Nothing =>
        case Quote => emitted := "> " + line;
        case List(column) =>
          var leading := Leading(line);
          emitted := Spaces(if column > leading then column - leading else 0) + line;
      }
    }
  }

  method NormalizeRustdoc(text: string) returns (normalized: string)
    ensures normalized == NormalizedText(text)
  {
    hide Emitted, Next;
    var lines := TextLines(Expand(text));
    var continuation, fence := Nothing, None;
    var output: seq<string> := [];
    for k := 0 to |lines|
      invariant output == Normalized(START, lines[..k])
      invariant State(continuation, fence) == After(START, lines[..k])
    {
      assert lines[..k + 1] == lines[..k] + [lines[k]];
      NormalizedPush(START, lines[..k], lines[k]);
      var emitted: string;
      continuation, fence, emitted := NormalizeLine(continuation, fence, lines[k]);
      output := output + [emitted];
    }
    assert lines[..|lines|] == lines;
    normalized := Join(output, '\n');
  }

  // ----- What one line becomes -----

  lemma {:induction false} Trims(line: string)
    ensures Leading(line) <= |line| && line == Spaces(Leading(line)) + Trim(line)
    ensures Trim(line) != "" ==> Trim(line)[0] != ' '
    ensures Leading(Trim(line)) == 0 && Trim(Trim(line)) == Trim(line)
  {
    if line != [] && line[0] == ' ' {
      var back := line[1..];
      Trims(back);
      OneMoreSpace(Leading(back), Trim(back));
      assert line == [' '] + back;
      assert Leading(line) == 1 + Leading(back) && Trim(line) == Trim(back);
    } else {
      assert Spaces(0) + line == line;
    }
    hide Trim, Leading, Spaces;
  }

  lemma OneMoreSpace(n: nat, s: string)
    ensures Spaces(1 + n) + s == [' '] + (Spaces(n) + s)
  {
    assert Spaces(1 + n) == [' '] + Spaces(n);
  }

  lemma {:induction false} Padded(n: nat, line: string)
    ensures Trim(Spaces(n) + line) == Trim(line) && Leading(Spaces(n) + line) == n + Leading(line)
  {
    if n == 0 {
      assert Spaces(n) + line == line;
    } else {
      Padded(n - 1, line);
      assert (Spaces(n) + line)[1..] == Spaces(n - 1) + line;
    }
  }

  lemma Quoted(line: string)
    ensures Trim("> " + line) == "> " + line && Leading("> " + line) == 0 && !IsFence("> " + line)
  {
    var quoted := "> " + line;
    assert quoted[0] == '>';
  }

  /** A line that says itself where it belongs: a continued one stands at the item's content column. */
  predicate Explicit(state: State, line: string) {
    line == "" || (!Blanked(state, line)
                   && (Continues(state, line) ==> state.continuation.List? && Leading(line) >= state.continuation.indent))
  }

  /** What normalization may do to a line. */
  predicate Rewritten(state: State, line: string, emitted: string) {
    if Explicit(state, line) then emitted == line
    else if Blanked(state, line) then emitted == ""
    else if state.continuation.Quote? then emitted == "> " + line
    else Trim(emitted) == Trim(line) && Leading(emitted) == state.continuation.indent
  }

  /**
   * A line is rewritten exactly when it is not explicit, into one that is; and the rewritten line
   * moves the walk to the state that the line as written does.
   */
  lemma EmittedIsExplicit(state: State, line: string)
    ensures !Explicit(state, line) && !Blanked(state, line) ==> Continues(state, line)
    ensures Rewritten(state, line, Emitted(state, line))
    ensures Explicit(state, Emitted(state, line))
    ensures Next(state, Emitted(state, line)) == Next(state, line)
    ensures Emitted(state, line) == line <==> Explicit(state, line)
  {
    if Continues(state, line) {
      Quoted(line);
      if state.continuation.List? {
        var pad: nat := if state.continuation.indent > Leading(line) then state.continuation.indent - Leading(line) else 0;
        Padded(pad, line);
        assert pad == 0 ==> Spaces(pad) + line == line;
      }
    }
  }

  // ----- What the lines become -----

  /** The state in which line `i` of `lines` is read. */
  function Before(state: State, lines: seq<string>, i: nat): State
    requires i <= |lines|
  {
    After(state, lines[..i])
  }

  predicate AllExplicit(state: State, lines: seq<string>) {
    forall i :: 0 <= i < |lines| ==> Explicit(Before(state, lines, i), lines[i])
  }

  lemma BeforeTail(state: State, lines: seq<string>, i: nat)
    requires 0 < i <= |lines|
    ensures Before(state, lines, i) == Before(Next(state, lines[0]), lines[1..], i - 1)
  {
    hide Next;
    assert lines[..i][1..] == lines[1..][..i - 1];
  }

  /**
   * No line is added or lost, each is read in the same fence and continuation in both passes, each
   * is changed as `Rewritten` allows, one inside a fence not at all, and every line of the result
   * says itself where it belongs.
   */
  lemma {:induction false} NormalizedLines(state: State, lines: seq<string>)
    ensures |Normalized(state, lines)| == |lines|
    ensures forall i :: 0 <= i < |lines| ==>
              && Before(state, Normalized(state, lines), i) == Before(state, lines, i)
              && Rewritten(Before(state, lines, i), lines[i], Normalized(state, lines)[i])
              && (Before(state, lines, i).fence.Some? ==> Normalized(state, lines)[i] == lines[i])
    ensures AllExplicit(state, Normalized(state, lines))
    decreases |lines|
  {
    if lines != [] {
      var next, out := Next(state, lines[0]), Normalized(state, lines);
      NormalizedLines(next, lines[1..]);
      EmittedIsExplicit(state, lines[0]);
      FencedIsExplicit(state, lines[0]);
      hide Emitted, Next, Explicit, Rewritten;
      forall i | 0 <= i < |lines|
        ensures Before(state, out, i) == Before(state, lines, i)
        ensures Rewritten(Before(state, lines, i), lines[i], out[i])
        ensures Before(state, lines, i).fence.Some? ==> out[i] == lines[i]
        ensures Explicit(Before(state, out, i), out[i])
      {
        if i > 0 {
          BeforeTail(state, lines, i);
          BeforeTail(state, out, i);
          assert out[1..] == Normalized(next, lines[1..]);
          assert out[i] == out[1..][i - 1] && lines[i] == lines[1..][i - 1];
        }
      }
    }
  }

  lemma FencedIsExplicit(state: State, line: string)
    ensures state.fence.Some? ==> Explicit(state, line)
  {
  }

  /** Normalization leaves exactly those lines alone that say themselves where they belong. */
  lemma {:induction false} FixedExactlyWhenExplicit(state: State, lines: seq<string>)
    ensures Normalized(state, lines) == lines <==> AllExplicit(state, lines)
    decreases |lines|
  {
    if lines != [] {
      var next, rest := Next(state, lines[0]), lines[1..];
      FixedExactlyWhenExplicit(next, rest);
      EmittedIsExplicit(state, lines[0]);
      hide Emitted, Next, Explicit;
      assert Before(state, lines, 0) == state;
      assert [lines[0]] + rest == lines;
      forall i | 0 <= i < |rest|
        ensures Before(state, lines, i + 1) == Before(next, rest, i) && lines[i + 1] == rest[i]
      {
        BeforeTail(state, lines, i + 1);
      }
      if AllExplicit(state, lines) {
        forall i | 0 <= i < |rest|
          ensures Explicit(Before(next, rest, i), rest[i])
        {
          assert Explicit(Before(state, lines, i + 1), lines[i + 1]);
        }
      }
      if AllExplicit(next, rest) && Explicit(state, lines[0]) {
        forall i | 0 <= i < |lines|
          ensures Explicit(Before(state, lines, i), lines[i])
        {
          assert i > 0 ==> Before(state, lines, i) == Before(next, rest, i - 1) && lines[i] == rest[i - 1];
        }
      }
      if Normalized(state, lines) == lines {
        assert Normalized(state, lines)[0] == lines[0] && Normalized(state, lines)[1..] == rest;
      }
    }
  }

  /** On lines, normalizing twice is normalizing once. */
  lemma NormalizedIsIdempotent(state: State, lines: seq<string>)
    ensures Normalized(state, Normalized(state, lines)) == Normalized(state, lines)
  {
    NormalizedLines(state, lines);
    FixedExactlyWhenExplicit(state, Normalized(state, lines));
  }

  // ----- Normalizing a text twice -----

  /** Lines that reading the joined text gives back: no CR that a following LF would take along, and no lost last line. */
  predicate ReadsBack(lines: seq<string>) {
    && (|lines| > 1 ==> lines[|lines| - 1] != "")
    && forall i :: 0 <= i < |lines| - 1 ==> WithoutCr(lines[i]) == lines[i]
  }

  lemma {:induction false} LeadingBeforeCr(s: string)
    ensures Leading(s + "\r") == Leading(s) && Trim(s + "\r") == Trim(s) + "\r" && Digits(s + "\r") == Digits(s)
  {
    assert s != [] ==> (s + "\r")[1..] == s[1..] + "\r";
    if s != [] {
      LeadingBeforeCr(s[1..]);
    } else {
      assert s + "\r" == "\r";
    }
  }

  lemma FenceBeforeCr(text: string, fence: string)
    requires |fence| == 3 && '\r' !in fence
    ensures fence <= text + "\r" <==> fence <= text
  {
    assert (text + "\r")[|text|] == '\r';
  }

  lemma MarkerBeforeCr(text: string)
    ensures MarkerWidth(text + "\r") == MarkerWidth(text)
  {
    var marked, digits := text + "\r", Digits(text);
    LeadingBeforeCr(text);
    if text != "" {
      assert marked[0] == text[0] && marked[1..] == text[1..] + "\r";
      LeadingBeforeCr(text[1..]);
    }
    if digits < |text| {
      assert marked[digits] == text[digits] && marked[digits + 1..] == text[digits + 1..] + "\r";
      LeadingBeforeCr(text[digits + 1..]);
    }
    hide Leading, Digits;
  }

  /** A CR at the end of a line decides nothing, unless it is all that the line holds. */
  lemma CrDecidesNothing(line: string)
    ensures IsFence(line + "\r") == IsFence(line) && ListIndent(line + "\r") == ListIndent(line)
  {
    LeadingBeforeCr(line);
    FenceBeforeCr(Trim(line), "```");
    FenceBeforeCr(Trim(line), "~~~");
    MarkerBeforeCr(Trim(line));
    hide Leading, Trim, MarkerWidth;
  }

  /** The same state, except that it may remember no item or quote to continue. */
  predicate Forgets(forgetful: State, state: State) {
    && forgetful.fence == state.fence
    && (forgetful.continuation.Nothing? || forgetful.continuation == state.continuation)
  }

  lemma ExplicitStaysShort(state: State, forgetful: State, line: string)
    requires Forgets(forgetful, state) && Explicit(state, line)
    ensures |Emitted(forgetful, line)| <= |line| && |Emitted(forgetful, WithoutCr(line))| <= |WithoutCr(line)|
    ensures Forgets(Next(forgetful, line), Next(state, line))
    ensures Forgets(Next(forgetful, WithoutCr(line)), Next(state, line))
  {
    NoPadding(state, forgetful, line);
    if WithoutCr(line) != line {
      var shorter := WithoutCr(line);
      assert line == shorter + "\r";
      CrDecidesNothing(shorter);
      LeadingBeforeCr(shorter);
      if Trim(shorter) != "" {
        assert Trim(line)[0] == Trim(shorter)[0];
        assert Explicit(state, shorter);
        NoPadding(state, forgetful, shorter);
        assert Next(state, shorter) == Next(state, line);
      } else {
        assert Trim(line) == "\r";
      }
    }
  }

  lemma NoPadding(state: State, forgetful: State, line: string)
    requires Forgets(forgetful, state) && Explicit(state, line)
    ensures |Emitted(forgetful, line)| <= |line|
    ensures Forgets(Next(forgetful, line), Next(state, line))
  {
    if Continues(forgetful, line) {
      assert Spaces(0) + line == line;
    }
  }

  function Size(lines: seq<string>): nat {
    if lines == [] then 0 else |lines[0]| + 1 + Size(lines[1..])
  }

  lemma {:induction false} JoinedSize(lines: seq<string>)
    ensures |Join(lines, '\n')| == if lines == [] then 0 else Size(lines) - 1
  {
    if |lines| > 1 {
      JoinedSize(lines[1..]);
    }
  }

  /** Where explicit lines do not read back, the second pass loses characters. */
  lemma {:induction false} SecondPassSize(state: State, forgetful: State, lines: seq<string>)
    requires Forgets(forgetful, state) && AllExplicit(state, lines)
    ensures Size(Normalized(forgetful, ReadBack(lines))) <= Size(lines)
    ensures !ReadsBack(lines) ==> Size(Normalized(forgetful, ReadBack(lines))) < Size(lines)
    ensures lines != [] && lines[|lines| - 1] == "" ==> Size(Normalized(forgetful, ReadBack(lines))) < Size(lines)
    decreases |lines|
  {
    if lines != [] {
      var line, rest := lines[0], lines[1..];
      assert Explicit(state, line) by { assert Before(state, lines, 0) == state; }
      ExplicitStaysShort(state, forgetful, line);
      hide Emitted, Next, Explicit, Forgets;
      if |lines| == 1 {
        OneLine(forgetful, line);
        assert lines == [line];
      } else {
        forall i | 0 <= i < |rest|
          ensures Explicit(Before(Next(state, line), rest, i), rest[i])
        {
          BeforeTail(state, lines, i + 1);
          assert Explicit(Before(state, lines, i + 1), lines[i + 1]);
        }
        var shorter := WithoutCr(line);
        SecondPassSize(Next(state, line), Next(forgetful, shorter), rest);
        SecondPassUnfolds(forgetful, lines);
        assert lines[|lines| - 1] == rest[|rest| - 1];
        if !ReadsBack(lines) && shorter == line && lines[|lines| - 1] != "" {
          var i :| 0 <= i < |lines| - 1 && WithoutCr(lines[i]) != lines[i];
          assert rest[i - 1] == lines[i];
        }
      }
    }
  }

  lemma SecondPassUnfolds(state: State, lines: seq<string>)
    requires |lines| > 1
    ensures var shorter := WithoutCr(lines[0]);
            Size(Normalized(state, ReadBack(lines)))
            == |Emitted(state, shorter)| + 1 + Size(Normalized(Next(state, shorter), ReadBack(lines[1..])))
  {
    hide Emitted, Next;
    var shorter, behind := WithoutCr(lines[0]), ReadBack(lines[1..]);
    assert ([shorter] + behind)[1..] == behind;
    var first, rest := Emitted(state, shorter), Normalized(Next(state, shorter), behind);
    assert ([first] + rest)[1..] == rest;
  }

  lemma OneLine(state: State, line: string)
    ensures Normalized(state, [line]) == [Emitted(state, line)] && Size([line]) == |line| + 1
    ensures Size(Normalized(state, [line])) == |Emitted(state, line)| + 1
    ensures Normalized(state, []) == []
  {
    hide Emitted, Next;
    assert [line][1..] == [];
    assert [Emitted(state, line)][1..] == [];
  }

  predicate Lacks(lines: seq<string>, c: char) {
    forall line :: line in lines ==> c !in line
  }

  lemma {:induction false} Expands(text: string)
    ensures '\t' !in Expand(text)
    ensures '\t' !in text ==> Expand(text) == text
  {
    if text != [] {
      Expands(text[1..]);
      assert [text[0]] + text[1..] == text;
    }
  }

  lemma {:induction false} ReadBackLacks(parts: seq<string>, c: char)
    requires Lacks(parts, c)
    ensures Lacks(ReadBack(parts), c)
  {
    if |parts| > 1 {
      ReadBackLacks(parts[1..], c);
      var first := WithoutCr(parts[0]);
      assert parts[0] in parts && c !in first;
    }
  }

  lemma {:induction false} SplitLacks(text: string, c: char)
    requires c !in text
    ensures Lacks(SplitOn(text, '\n'), c)
  {
    if text != [] {
      SplitLacks(text[1..], c);
    }
  }

  lemma {:induction false} NormalizedLacks(state: State, lines: seq<string>, c: char)
    requires Lacks(lines, c) && c !in "> "
    ensures Lacks(Normalized(state, lines), c)
    decreases |lines|
  {
    if lines != [] {
      assert c !in Emitted(state, lines[0]);
      NormalizedLacks(Next(state, lines[0]), lines[1..], c);
    }
  }

  lemma {:induction false} JoinLacks(lines: seq<string>, c: char)
    requires Lacks(lines, c) && c != '\n'
    ensures c !in Join(lines, '\n')
  {
    if |lines| > 1 {
      JoinLacks(lines[1..], c);
    }
  }

  /** The second pass reads the lines of the first's result as `ReadBack` says. */
  lemma SecondPass(text: string)
    ensures var emitted := Normalized(START, TextLines(Expand(text)));
            NormalizedText(NormalizedText(text)) == Join(Normalized(START, ReadBack(emitted)), '\n')
  {
    var parts, lines := SplitOn(Expand(text), '\n'), TextLines(Expand(text));
    var emitted := Normalized(START, lines);
    Expands(text);
    SplitLacks(Expand(text), '\t');
    JoinSplit(Expand(text), '\n');
    ReadBackLacks(parts, '\t');
    ReadBackLacks(parts, '\n');
    NormalizedLacks(START, lines, '\t');
    NormalizedLacks(START, lines, '\n');
    JoinLacks(emitted, '\t');
    Expands(Join(emitted, '\n'));
    if emitted == [] {
      assert ReadBack([""]) == ReadBack(emitted);
    } else {
      SplitJoin(emitted, '\n');
    }
  }

  lemma {:induction false} ReadBackFixes(lines: seq<string>)
    requires ReadsBack(lines) && lines != [""]
    ensures ReadBack(lines) == lines
  {
    if |lines| > 1 {
      assert lines[1..][|lines| - 2] == lines[|lines| - 1];
      assert forall i :: 0 <= i < |lines| - 1 ==> lines[1..][i] == lines[i + 1];
      ReadBackFixes(lines[1..]);
      assert [lines[0]] + lines[1..] == lines;
    }
  }

  lemma NothingNormalized()
    ensures Normalized(START, []) == []
  {
  }

  /** No line but the last ends in CR, and the last, unless it is the only one, is neither empty nor blanked. */
  predicate Stable(lines: seq<string>) {
    && (forall i :: 0 <= i < |lines| - 1 ==> WithoutCr(lines[i]) == lines[i])
    && (|lines| > 1 ==>
          var last := lines[|lines| - 1];
          last != "" && !Blanked(Before(START, lines, |lines| - 1), last))
  }

  lemma EmittedReadBackExactly(lines: seq<string>)
    ensures ReadsBack(Normalized(START, lines)) <==> Stable(lines)
  {
    var emitted := Normalized(START, lines);
    NormalizedLines(START, lines);
    forall i | 0 <= i < |lines|
      ensures WithoutCr(lines[i]) == lines[i] <==> WithoutCr(emitted[i]) == emitted[i]
      ensures emitted[i] == "" <==> lines[i] == "" || Blanked(Before(START, lines, i), lines[i])
    {
      SameEnd(Before(START, lines, i), lines[i], emitted[i]);
    }
  }

  lemma EndOf(front: string, back: string)
    requires back != ""
    ensures WithoutCr(front + back) == front + back <==> WithoutCr(back) == back
  {
    var whole := front + back;
    assert whole[|whole| - 1] == back[|back| - 1];
  }

  lemma SameEnd(state: State, line: string, emitted: string)
    requires Rewritten(state, line, emitted)
    ensures WithoutCr(line) == line <==> WithoutCr(emitted) == emitted
    ensures emitted == "" <==> line == "" || Blanked(state, line)
  {
    Trims(line);
    Trims(emitted);
    EmittedIsExplicit(state, line);
    if Trim(line) != "" {
      hide Trim, Leading, ListIndent, Emitted, Next, IsFence, Spaces, WithoutCr;
      EndOf("> ", line);
      EndOf(Spaces(Leading(line)), Trim(line));
      if Trim(emitted) == Trim(line) {
        EndOf(Spaces(Leading(emitted)), Trim(emitted));
      }
    } else {
      hide Trim, Leading, ListIndent, Emitted, Next, IsFence;
      assert forall i :: 0 <= i < |line| ==> line[i] == ' ';
    }
  }

  /**
   * On texts, normalizing twice is normalizing once exactly when the text's lines are stable: a
   * last line that the first pass leaves empty is no line to the second, and a CR that the first
   * pass leaves at the end of a line belongs to the line's end for the second.
   */
  lemma TwiceIsOnceExactly(text: string)
    ensures NormalizedText(NormalizedText(text)) == NormalizedText(text)
            <==> Stable(TextLines(Expand(text)))
  {
    var lines := TextLines(Expand(text));
    var emitted := Normalized(START, lines);
    SecondPass(text);
    NormalizedLines(START, lines);
    NormalizedIsIdempotent(START, lines);
    EmittedReadBackExactly(lines);
    hide Normalized, TextLines, Expand, Stable;
    var again := Normalized(START, ReadBack(emitted));
    JoinedSize(emitted);
    JoinedSize(again);
    if emitted == [""] {
      NothingNormalized();
    } else if ReadsBack(emitted) {
      ReadBackFixes(emitted);
    } else {
      SecondPassSize(START, START, emitted);
    }
  }

  /** Two blank lines: the first pass leaves one LF, and the second none. */
  lemma TwiceIsNotAlwaysOnce()
    ensures NormalizedText("\n\n") == "\n" && NormalizedText("\n") == ""
  {
    assert SplitOn("", '\n') == [""];
    assert "\n"[1..] == "" && "\n\n"[1..] == "\n";
    var one, two, three: seq<string> := [""], ["", ""], ["", "", ""];
    assert [[]] + one == two && [[]] + two == three;
    assert SplitOn("\n", '\n') == two;
    assert SplitOn("\n\n", '\n') == three;
    assert one[1..] == [] && two[1..] == one && three[1..] == two;
    assert Expand("\n") == "\n" && Expand("\n\n") == "\n\n";
    assert Normalized(START, one) == one;
    assert Normalized(START, two) == two;
  }
}
