/** What the doc-comment normalizer makes of each kind of line, told by the line's characters, and which lines a text has. */
module DocLines {
  import opened Sequences
  import opened Rustdoc

  // ----- Kinds of lines -----

  /** `n` spaces open the line, and no more. */
  predicate SpacesAhead(line: string, n: nat) {
    && n <= |line| && (forall k :: 0 <= k < n ==> line[k] == ' ')
    && (n < |line| ==> line[n] != ' ')
  }

  /** Three times `mark`, a backquote or a tilde, at `n`. */
  predicate FenceAt(line: string, n: nat, mark: char) {
    (mark == '`' || mark == '~') && n + 3 <= |line| && line[n] == line[n + 1] == line[n + 2] == mark
  }

  /** `-`, `*` or `+`, or digits with `.` or `)` behind them, from `n` to `m`. */
  predicate MarkerAt(line: string, n: nat, m: nat) {
    && n < m <= |line|
    && if m == n + 1 then line[n] == '-' || line[n] == '*' || line[n] == '+'
       else (forall k :: n <= k < m - 1 ==> '0' <= line[k] <= '9') && (line[m - 1] == '.' || line[m - 1] == ')')
  }

  /** A marker at `n` up to `m`, and spaces from there to the item's content at `column`. */
  predicate ItemBy(line: string, n: nat, m: nat, column: nat) {
    && MarkerAt(line, n, m) && m < column <= |line|
    && (forall k :: m <= k < column ==> line[k] == ' ') && (column < |line| ==> line[column] != ' ')
  }

  predicate ItemAt(line: string, n: nat, column: nat) {
    exists m :: 0 <= m <= |line| && ItemBy(line, n, m, column)
  }

  lemma {:induction false} LeadingIs(line: string, n: nat)
    requires SpacesAhead(line, n)
    ensures Leading(line) == n && Trim(line) == line[n..]
  {
    if n > 0 {
      assert forall k :: 0 <= k < n - 1 ==> line[1..][k] == line[k + 1];
      LeadingIs(line[1..], n - 1);
      assert line[1..][n - 1..] == line[n..];
    }
  }

  lemma {:induction false} DigitsAre(s: string)
    ensures forall k :: 0 <= k < Digits(s) ==> '0' <= s[k] <= '9'
    ensures Digits(s) < |s| ==> !('0' <= s[Digits(s)] <= '9')
  {
    if s != [] && '0' <= s[0] <= '9' {
      DigitsAre(s[1..]);
      assert forall k :: 1 <= k < |s| ==> s[k] == s[1..][k - 1];
    }
  }

  lemma {:induction false} SpacesFrom(s: string)
    ensures SpacesAhead(s, Leading(s))
  {
    if s != [] && s[0] == ' ' {
      SpacesFrom(s[1..]);
      assert forall k :: 1 <= k < |s| ==> s[k] == s[1..][k - 1];
    }
  }

  lemma SpacesAreUnique(s: string, a: nat, b: nat)
    requires SpacesAhead(s, a) && SpacesAhead(s, b)
    ensures a == b
  {
  }

  lemma FenceExactly(line: string, n: nat)
    requires SpacesAhead(line, n)
    ensures IsFence(line) <==> FenceAt(line, n, '`') || FenceAt(line, n, '~')
    ensures IsFence(line) ==> n < |line| && FenceAt(line, n, Trim(line)[0])
  {
    LeadingIs(line, n);
    var rest := line[n..];
    OpensThrice(rest, '`');
    OpensThrice(rest, '~');
    assert ['`', '`', '`'] == "```" && ['~', '~', '~'] == "~~~";
  }

  lemma OpensThrice(s: string, c: char)
    ensures [c, c, c] <= s <==> |s| >= 3 && s[0] == s[1] == s[2] == c
  {
    if |s| >= 3 {
      assert s[..3] == [s[0], s[1], s[2]];
    }
  }

  /** An item's content stands behind the spaces behind its marker. */
  lemma SpacesBehind(line: string, n: nat, m: nat, column: nat)
    requires MarkerAt(line, n, m)
    ensures ItemBy(line, n, m, column) <==> Leading(line[m..]) > 0 && column == m + Leading(line[m..])
  {
    var rest := line[m..];
    SpacesFrom(rest);
    if ItemBy(line, n, m, column) {
      SpacesAreUnique(rest, column - m, Leading(rest));
    }
  }

  /** The end of the marker at `n`, as the normalizer finds it. */
  function MarkerEnd(line: string, n: nat): nat
    requires n < |line|
  {
    if line[n] in "-*+" then n + 1 else n + Digits(line[n..]) + 1
  }

  lemma MarkerEnds(line: string, n: nat, m: nat)
    requires n < |line| && MarkerAt(line, n, m)
    ensures MarkerEnd(line, n) == m
  {
    DigitsAre(line[n..]);
  }

  lemma IndentBy(line: string, n: nat)
    requires SpacesAhead(line, n) && n < |line|
    ensures var m := MarkerEnd(line, n);
            ListIndent(line) == if m <= |line| && MarkerAt(line, n, m) && Leading(line[m..]) > 0 then Some(m + Leading(line[m..])) else None
  {
    LeadingIs(line, n);
    var text := line[n..];
    DigitsAre(text);
    var m := MarkerEnd(line, n);
    if m <= |line| {
      assert line[m..] == text[m - n..];
    }
  }

  /** A line starts an item whose content stands at `column` exactly when it is read so. */
  lemma ItemExactly(line: string, n: nat, column: nat)
    requires SpacesAhead(line, n)
    ensures ListIndent(line) == Some(column) <==> ItemAt(line, n, column)
  {
    if n == |line| {
      LeadingIs(line, n);
    } else {
      IndentBy(line, n);
      hide ListIndent;
      var m := MarkerEnd(line, n);
      if ItemAt(line, n, column) {
        var end :| 0 <= end <= |line| && ItemBy(line, n, end, column);
        MarkerEnds(line, n, end);
        SpacesBehind(line, n, end, column);
      }
      if ListIndent(line) == Some(column) {
        SpacesBehind(line, n, m, column);
      }
    }
  }

  // ----- What each kind of line becomes -----

  /** A line that is no fence, not blank, no quote and no item. */
  predicate IsPlain(line: string, n: nat) {
    && n < |line| && !FenceAt(line, n, '`') && !FenceAt(line, n, '~') && line[n] != '>'
    && forall column :: 0 <= column <= |line| ==> !ItemAt(line, n, column)
  }

  lemma PlainExactly(line: string, n: nat)
    requires SpacesAhead(line, n)
    ensures ListIndent(line) == None <==> forall column :: 0 <= column <= |line| ==> !ItemAt(line, n, column)
  {
    hide ListIndent, ItemAt;
    forall column | 0 <= column <= |line|
      ensures ListIndent(line) == Some(column) <==> ItemAt(line, n, column)
    {
      ItemExactly(line, n, column);
    }
    if ListIndent(line).Some? {
      ItemExactly(line, n, ListIndent(line).value);
      ItemInLine(line, n, ListIndent(line).value);
    }
  }

  lemma ItemInLine(line: string, n: nat, column: nat)
    requires ItemAt(line, n, column)
    ensures column <= |line|
  {
  }

  /** Outside a fence a line opens one, ends what is continued, starts a quote or an item, or continues what there is. */
  lemma LineOutsideFence(state: State, line: string, n: nat)
    requires SpacesAhead(line, n) && state.fence == None
    ensures forall mark :: FenceAt(line, n, mark) ==> Next(state, line) == State(Nothing, Some(mark)) && Emitted(state, line) == line
    ensures n == |line| ==> Next(state, line) == State(Nothing, None) && Emitted(state, line) == ""
    ensures n < |line| && line[n] == '>' ==> Next(state, line) == State(Quote, None) && Emitted(state, line) == line
    ensures forall column: nat :: ItemAt(line, n, column) && column <= |line| && line[n] != '>' ==>
              Next(state, line) == State(List(column), None) && Emitted(state, line) == line
    ensures IsPlain(line, n) ==>
              && Next(state, line) == state
              && match state.continuation
                 case Nothing => Emitted(state, line) == line
                 case Quote => Emitted(state, line) == "> " + line
                 case List(column) => IsIndented(line, n, column, Emitted(state, line))
  {
    LeadingIs(line, n);
    FenceExactly(line, n);
    PlainExactly(line, n);
    hide ListIndent, IsFence, Leading, Trim;
    forall column: nat | ItemAt(line, n, column)
      ensures ListIndent(line) == Some(column) && !IsFence(line) && n < |line|
    {
      ItemExactly(line, n, column);
    }
    hide ItemAt;
  }

  /** `line` moved right until what it says stands at `column`, or further right where it stood there. */
  predicate IsIndented(line: string, n: nat, column: nat, emitted: string) {
    var added := if n < column then column - n else 0;
    |emitted| == added + |line| && emitted[added..] == line && forall k :: 0 <= k < added ==> emitted[k] == ' '
  }

  /** Inside a fence every line is left as it is, and only one with the fence's own mark ends it. */
  lemma LineInsideFence(state: State, line: string, n: nat, open: char)
    requires SpacesAhead(line, n) && state.fence == Some(open)
    ensures Emitted(state, line) == line
    ensures FenceAt(line, n, open) ==> Next(state, line) == State(Nothing, None)
    ensures !FenceAt(line, n, open) ==> Next(state, line).fence == Some(open)
  {
    LeadingIs(line, n);
    FenceExactly(line, n);
    hide ListIndent, IsFence, Leading, Trim;
  }

  // ----- Texts -----

  /** A text without a tab, up to the first one, and what follows it. */
  lemma {:induction false} TabsExpand(before: string, behind: string)
    requires '\t' !in before
    ensures Expand(before) == before && Expand(before + "\t" + behind) == before + "    " + Expand(behind)
  {
    if before == "" {
      assert "" + "\t" + behind == "\t" + behind && ("\t" + behind)[1..] == behind;
      assert "" + "    " + Expand(behind) == "    " + Expand(behind);
    } else {
      TabsExpand(before[1..], behind);
      assert [before[0]] + before[1..] == before;
      assert (before + "\t" + behind)[1..] == before[1..] + "\t" + behind;
      assert [before[0]] + (before[1..] + "    " + Expand(behind)) == before + "    " + Expand(behind);
    }
  }

  /** LF ends a line, with one CR before it or none; the last line may go without, and then is not empty. */
  predicate EndingsFit(lines: seq<string>, endings: seq<string>) {
    && |endings| <= |lines| <= |endings| + 1
    && (forall i :: 0 <= i < |lines| ==> '\n' !in lines[i])
    && (forall i :: 0 <= i < |endings| ==> endings[i] == "\n" || endings[i] == "\r\n")
    && (forall i :: 0 <= i < |endings| && endings[i] == "\n" && lines[i] != "" ==> lines[i][|lines[i]| - 1] != '\r')
    && (|endings| < |lines| ==> lines[|endings|] != "")
  }

  function TextOf(lines: seq<string>, endings: seq<string>): string {
    if lines == [] then []
    else if endings == [] then lines[0] + TextOf(lines[1..], [])
    else lines[0] + endings[0] + TextOf(lines[1..], endings[1..])
  }

  /** A text has the lines it is made of. */
  lemma {:induction false} LinesRead(lines: seq<string>, endings: seq<string>)
    requires EndingsFit(lines, endings)
    ensures TextLines(TextOf(lines, endings)) == lines
  {
    if lines == [] {
      assert SplitOn("", '\n') == [""];
    } else if endings == [] {
      assert lines[1..] == [] && TextOf(lines[1..], []) == "" && lines[0] + "" == lines[0];
      SplitNone(lines[0], '\n');
      assert lines == [lines[0]];
    } else {
      var rest, more := lines[1..], endings[1..];
      assert forall i :: 0 <= i < |rest| ==> rest[i] == lines[i + 1];
      assert forall i :: 0 <= i < |more| ==> more[i] == endings[i + 1];
      LinesRead(rest, more);
      LineSplits(lines[0], endings[0], TextOf(rest, more));
      var parts := SplitOn(TextOf(rest, more), '\n');
      hide SplitOn, TextOf, EndingsFit, WithoutCr;
      var line := if endings[0] == "\n" then lines[0] else lines[0] + "\r";
      assert ([line] + parts)[1..] == parts;
      assert [lines[0]] + rest == lines;
    }
  }

  lemma LineSplits(text: string, ending: string, rest: string)
    requires '\n' !in text && (ending == "\r\n" || (ending == "\n" && (text != "" ==> text[|text| - 1] != '\r')))
    ensures var line := if ending == "\n" then text else text + "\r";
            SplitOn(text + ending + rest, '\n') == [line] + SplitOn(rest, '\n') && WithoutCr(line) == text
  {
    var line := if ending == "\n" then text else text + "\r";
    assert line[..|text|] == text;
    assert text + ending + rest == line + ['\n'] + rest;
    SplitFirst(line, '\n', rest);
  }

  /** The lines of a text without tabs, each as the walk over them leaves it, with LF between them. */
  lemma TextNormalizes(lines: seq<string>, endings: seq<string>)
    requires EndingsFit(lines, endings) && '\t' !in TextOf(lines, endings)
    ensures NormalizedText(TextOf(lines, endings)) == Join(Normalized(State(Nothing, None), lines), '\n')
  {
    TabsExpand(TextOf(lines, endings), "");
    LinesRead(lines, endings);
    hide TextLines, Expand, Normalized, Join, TextOf;
  }

  /** Each line is changed in the state that the lines before it lead to. */
  lemma {:induction false} LinesNormalize(state: State, lines: seq<string>, i: nat)
    requires i < |lines|
    ensures |Normalized(state, lines)| == |lines|
    ensures Normalized(state, lines)[i] == Emitted(After(state, lines[..i]), lines[i])
    ensures After(state, lines[..i + 1]) == Next(After(state, lines[..i]), lines[i]) && After(state, []) == state
    decreases |lines|
  {
    hide Emitted, Next;
    NormalizedLines(state, lines);
    assert lines[..i + 1] == lines[..i] + [lines[i]];
    NormalizedPush(state, lines[..i], lines[i]);
    NormalizedAppend(state, lines[..i + 1], lines[i + 1..]);
    assert lines[..i + 1] + lines[i + 1..] == lines;
    NormalizedLines(state, lines[..i]);
  }

  lemma {:induction false} NormalizedAppend(state: State, a: seq<string>, b: seq<string>)
    ensures Normalized(state, a + b) == Normalized(state, a) + Normalized(After(state, a), b)
    decreases |a|
  {
    hide Emitted, Next;
    if a == [] {
      assert a + b == b;
    } else {
      NormalizedAppend(Next(state, a[0]), a[1..], b);
      assert (a + b)[0] == a[0] && (a + b)[1..] == a[1..] + b;
    }
  }
}
