/** White space, words and relation types in a `Link` value, by their characters (section 3.3 of RFC 8288). */
module LinkRelations {
  import opened Sequences
  import opened Links

  /** White space as a field value holds it: a space or a tab. */
  predicate IsWhite(c: char) {
    c == ' ' || c == '\t'
  }

  predicate AllWhite(s: string) {
    forall i :: 0 <= i < |s| ==> IsWhite(s[i])
  }

  /** Neither starts nor ends in white space. */
  predicate IsTrimmed(s: string) {
    s != [] ==> !IsWhite(s[0]) && !IsWhite(s[|s| - 1])
  }

  /** `next`, each letter in either case. */
  predicate IsNextWord(s: string) {
    && |s| == 4
    && (s[0] == 'n' || s[0] == 'N') && (s[1] == 'e' || s[1] == 'E')
    && (s[2] == 'x' || s[2] == 'X') && (s[3] == 't' || s[3] == 'T')
  }

  /** `rel`, each letter in either case. */
  predicate IsRelName(s: string) {
    && |s| == 3
    && (s[0] == 'r' || s[0] == 'R') && (s[1] == 'e' || s[1] == 'E') && (s[2] == 'l' || s[2] == 'L')
  }

  /** The word at `i`: the letters of `next`, with white space or an end of `value` on both sides. */
  predicate NextAt(value: string, i: nat) {
    && i + 4 <= |value| && IsNextWord(value[i..i + 4])
    && (i == 0 || IsWhite(value[i - 1])) && (i + 4 == |value| || IsWhite(value[i + 4]))
  }

  predicate HoldsNext(value: string) {
    exists i :: 0 <= i < |value| && NextAt(value, i)
  }

  lemma RelNameExactly(s: string)
    ensures EqualIgnoringCase(s, "rel") <==> IsRelName(s)
  {
    if |s| == 3 {
      assert EqualIgnoringCase(s, "rel") ==> Lower(s[0]) == 'r' && Lower(s[1]) == 'e' && Lower(s[2]) == 'l';
      assert IsRelName(s) ==> forall i :: 0 <= i < 3 ==> Lower(s[i]) == Lower("rel"[i]);
    }
  }

  lemma NextWordExactly(s: string)
    ensures EqualIgnoringCase(s, "next") <==> IsNextWord(s)
  {
    if |s| == 4 {
      assert EqualIgnoringCase(s, "next") ==> Lower(s[0]) == 'n' && Lower(s[1]) == 'e' && Lower(s[2]) == 'x' && Lower(s[3]) == 't';
      assert IsNextWord(s) ==> forall i :: 0 <= i < 4 ==> Lower(s[i]) == Lower("next"[i]);
    }
  }

  // ----- Trimming -----

  lemma {:induction false} LeadTrims(lead: string, s: string)
    requires AllWhite(lead) && (s == [] || !IsWhite(s[0]))
    ensures TrimStart(lead + s) == s
  {
    if lead == [] {
      assert lead + s == s;
    } else {
      LeadTrims(lead[1..], s);
      assert (lead + s)[0] == lead[0] && (lead + s)[1..] == lead[1..] + s;
    }
  }

  lemma {:induction false} TrailTrims(s: string, trail: string)
    requires AllWhite(trail) && (s == [] || !IsWhite(s[|s| - 1]))
    ensures TrimEnd(s + trail) == s
  {
    if trail == [] {
      assert s + trail == s;
    } else {
      var whole, shorter := s + trail, trail[..|trail| - 1];
      assert AllWhite(shorter) && IsSpace(trail[|trail| - 1]);
      hide AllWhite, IsSpace, IsWhite;
      TrailTrims(s, shorter);
      assert whole[|whole| - 1] == trail[|trail| - 1] && whole[..|whole| - 1] == s + shorter;
    }
  }

  /** White space around a text is no part of it. */
  lemma WhiteTrims(lead: string, s: string, trail: string)
    requires AllWhite(lead) && AllWhite(trail) && IsTrimmed(s)
    ensures Trim(lead + s + trail) == s
  {
    if s == [] {
      assert lead + s + trail == lead + trail;
      LeadTrims(lead + trail, []);
      assert lead + trail + [] == lead + trail;
    } else {
      assert lead + s + trail == lead + (s + trail);
      LeadTrims(lead, s + trail);
      TrailTrims(s, trail);
    }
  }

  // ----- Words -----

  lemma {:induction false} SpacesOnlyAt(s: string)
    ensures |SpacesOnly(s)| == |s|
    ensures forall k :: 0 <= k < |s| ==> SpacesOnly(s)[k] == if s[k] == '\t' then ' ' else s[k]
  {
    if s != [] {
      SpacesOnlyAt(s[1..]);
    }
  }

  lemma {:induction false} InNonEmpty(parts: seq<string>, part: string)
    ensures part in NonEmpty(parts) <==> part in parts && part != []
  {
    if parts != [] {
      InNonEmpty(parts[1..], part);
    }
  }

  /** `part` stands at `i` of `s`, with a space or an end on both sides, and holds no space. */
  predicate StandsAt(s: string, part: string, i: nat) {
    && i + |part| <= |s| && s[i..i + |part|] == part && ' ' !in part
    && (i == 0 || s[i - 1] == ' ') && (i + |part| == |s| || s[i + |part|] == ' ')
  }

  predicate Stands(s: string, part: string) {
    exists i :: 0 <= i <= |s| && StandsAt(s, part, i)
  }

  lemma {:induction false} PartsStand(s: string, part: string)
    ensures part in SplitOn(s, ' ') <==> Stands(s, part)
    decreases |s|
  {
    hide StandsAt, Stands, SplitOn;
    var cut := Find(s, 0, ' ');
    if cut.None? {
      assert ' ' !in s;
      SplitNone(s, ' ');
      OnlyPart(s, part);
    } else {
      var c := cut.value;
      var first, rest := s[..c], s[c + 1..];
      assert s == first + [' '] + rest && ' ' !in first;
      SplitFirst(first, ' ', rest);
      PartsStand(rest, part);
      FirstOrBehind(s, part, c);
    }
  }

  lemma OnlyPart(s: string, part: string)
    requires ' ' !in s
    ensures Stands(s, part) <==> part == s
  {
    if part == s {
      assert StandsAt(s, part, 0);
    }
  }

  lemma FirstOrBehind(s: string, part: string, c: nat)
    requires c < |s| && s[c] == ' ' && ' ' !in s[..c]
    ensures Stands(s, part) <==> part == s[..c] || Stands(s[c + 1..], part)
  {
    var rest := s[c + 1..];
    if part == s[..c] {
      assert StandsAt(s, part, 0);
    }
    if Stands(rest, part) {
      var i :| 0 <= i <= |rest| && StandsAt(rest, part, i);
      assert s[i + c + 1..i + c + 1 + |part|] == rest[i..i + |part|];
      assert StandsAt(s, part, i + c + 1);
    }
    if Stands(s, part) {
      var i :| 0 <= i <= |s| && StandsAt(s, part, i);
      StandsFirstOrBehind(s, part, i, c);
      assert part != s[..c] ==> StandsAt(rest, part, i - c - 1);
    }
  }

  lemma StandsFirstOrBehind(s: string, part: string, i: nat, c: nat)
    requires c < |s| && s[c] == ' ' && ' ' !in s[..c] && i <= |s| && StandsAt(s, part, i)
    ensures part == s[..c] || (i > c && StandsAt(s[c + 1..], part, i - c - 1))
  {
    var rest := s[c + 1..];
    if i > c {
      assert rest[i - c - 1..i - c - 1 + |part|] == s[i..i + |part|];
    } else {
      assert s[..c] + s[c..] == s;
    }
  }

  /** The words of a value list `next` exactly when its letters stand in it as a word. */
  lemma WordsListNext(value: string)
    ensures ListsNext(Words(value)) <==> HoldsNext(value)
  {
    var s := SpacesOnly(value);
    SpacesOnlyAt(value);
    hide SpacesOnly, SplitOn, NonEmpty, EqualIgnoringCase;
    if ListsNext(Words(value)) {
      var k :| 0 <= k < |Words(value)| && EqualIgnoringCase(Words(value)[k], "next");
      var word := Words(value)[k];
      NextWordExactly(word);
      InNonEmpty(SplitOn(s, ' '), word);
      PartsStand(s, word);
      var i: nat :| 0 <= i <= |s| && StandsAt(s, word, i);
      NextStands(value, word, i);
    }
    if HoldsNext(value) {
      var i :| 0 <= i < |value| && NextAt(value, i);
      var word := value[i..i + 4];
      NextWordExactly(word);
      NextStands(value, word, i);
      PartsStand(s, word);
      InNonEmpty(SplitOn(s, ' '), word);
      var k :| 0 <= k < |Words(value)| && Words(value)[k] == word;
    }
  }

  lemma NextStands(value: string, word: string, i: nat)
    requires IsNextWord(word) && i <= |value|
    ensures var s := SpacesOnly(value);
            |s| == |value| && (StandsAt(s, word, i) <==> NextAt(value, i) && value[i..i + 4] == word)
  {
    var s := SpacesOnly(value);
    SpacesOnlyAt(value);
    hide SpacesOnly;
    assert ' ' !in word;
    if i + 4 <= |value| {
      if s[i..i + 4] == word {
        assert s[i] == word[0] && s[i + 1] == word[1] && s[i + 2] == word[2] && s[i + 3] == word[3];
        assert value[i..i + 4] == word;
      }
      if value[i..i + 4] == word {
        assert value[i] == word[0] && value[i + 1] == word[1] && value[i + 2] == word[2] && value[i + 3] == word[3];
        assert s[i..i + 4] == word;
      }
    }
  }
}
