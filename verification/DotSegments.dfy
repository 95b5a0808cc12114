/** The dot-segment guard of support-runtime/src/dispatch.rs against the path normalization of the URL Standard. */
module DotSegments {
  import opened Sequences
  import opened UrlPaths

  predicate IsStripped(c: char) {
    c == '\t' || c == '\n' || c == '\r'
  }

  predicate IsSeparator(c: char) {
    c == '/' || c == '\\'
  }

  /** `s` without tab, LF and CR. */
  function Strip(s: string): string {
    if s == [] then [] else (if IsStripped(s[0]) then [] else [s[0]]) + Strip(s[1..])
  }

  /** `s` without a leading `%2E` in either case, if it starts with one. */
  function StripEncodedDot(s: string): Option<string> {
    if |s| >= 3 && s[0] == '%' && s[1] == '2' && Lower(s[2]) == 'e' then Some(s[3..]) else None
  }

  function StripDot(s: string): Option<string> {
    if s != [] && s[0] == '.' then Some(s[1..]) else StripEncodedDot(s)
  }

  /** The guard's own test. */
  predicate IsDotSegment(segment: string) {
    var rest := StripDot(Strip(segment));
    rest.Some? && (rest.value == "" || rest.value == "." || StripEncodedDot(rest.value) == Some(""))
  }

  /** `s` split at `/` and `\`. */
  function Segments(s: string): (segments: seq<string>)
    ensures |segments| >= 1
  {
    if s == [] then [[]]
    else
      var rest := Segments(s[1..]);
      if IsSeparator(s[0]) then [[]] + rest else [[s[0]] + rest[0]] + rest[1..]
  }

  // ----- Building the path -----

  function TrimStartSlashes(s: string): string {
    if s != [] && s[0] == '/' then TrimStartSlashes(s[1..]) else s
  }

  function TrimEndSlashes(s: string): string {
    if s != [] && s[|s| - 1] == '/' then TrimEndSlashes(s[..|s| - 1]) else s
  }

  /** The base's path and the request's, with one slash between them. */
  function Joined(base: string, request: string): string {
    var basePath, requestPath := TrimEndSlashes(base), TrimStartSlashes(request);
    if basePath == "" then "/" + requestPath
    else if requestPath == "" then basePath
    else basePath + "/" + requestPath
  }

  /** The path set on the URL, or `None` when the guard refuses the request's path. */
  function BuildPath(base: string, request: string): Option<string> {
    var segments := Segments(TrimStartSlashes(request));
    if exists k :: 0 <= k < |segments| && IsDotSegment(segments[k]) then None else Some(Joined(base, request))
  }

  // ----- The guard is the Standard's test -----

  lemma {:induction false} StripsAsParsed(s: string)
    ensures Strip(s) == WithoutTabsAndNewlines(s)
  {
    if s != [] {
      StripsAsParsed(s[1..]);
    }
  }

  lemma {:induction false} SplitsAsParsed(s: string)
    ensures Segments(s) == PathSegments(s)
  {
    if s != [] {
      SplitsAsParsed(s[1..]);
    }
  }

  lemma {:induction false} LowerAllIs(s: string)
    ensures |LowerAll(s)| == |s| && forall i :: 0 <= i < |s| ==> LowerAll(s)[i] == AsciiLower(s[i])
  {
    if s != [] {
      LowerAllIs(s[1..]);
      assert forall i :: 1 <= i < |s| ==> s[i] == s[1..][i - 1];
    }
  }

  /** `%2e` in either case at `i`. */
  predicate EncodedDotAt(s: string, i: nat) {
    i + 3 <= |s| && s[i] == '%' && s[i + 1] == '2' && (s[i + 2] == 'e' || s[i + 2] == 'E')
  }

  lemma StripEncodedDotExactly(s: string)
    ensures StripEncodedDot(s) == if EncodedDotAt(s, 0) then Some(s[3..]) else None
  {
  }

  lemma DotsByPosition(s: string)
    ensures IsSingleDot(s) <==> (|s| == 1 && s[0] == '.') || (|s| == 3 && EncodedDotAt(s, 0))
    ensures IsDoubleDot(s) <==>
            || (|s| == 2 && s[0] == '.' && s[1] == '.')
            || (|s| == 4 && s[0] == '.' && EncodedDotAt(s, 1))
            || (|s| == 4 && EncodedDotAt(s, 0) && s[3] == '.')
            || (|s| == 6 && EncodedDotAt(s, 0) && EncodedDotAt(s, 3))
  {
    LowerAllIs(s);
    var lower := LowerAll(s);
    assert forall c :: (AsciiLower(c) == '%' <==> c == '%') && (AsciiLower(c) == '2' <==> c == '2') && (AsciiLower(c) == '.' <==> c == '.');
    assert forall c :: AsciiLower(c) == 'e' <==> c == 'e' || c == 'E';
    hide LowerAll, AsciiLower;
    assert lower == "." <==> |s| == 1 && lower[0] == '.';
    assert lower == "%2e" <==> |s| == 3 && lower[0] == '%' && lower[1] == '2' && lower[2] == 'e';
    assert lower == ".." <==> |s| == 2 && lower[0] == '.' && lower[1] == '.';
    assert lower == ".%2e" <==> |s| == 4 && lower[0] == '.' && lower[1] == '%' && lower[2] == '2' && lower[3] == 'e';
    assert lower == "%2e." <==> |s| == 4 && lower[0] == '%' && lower[1] == '2' && lower[2] == 'e' && lower[3] == '.';
    assert lower == "%2e%2e" <==>
           && |s| == 6 && lower[0] == '%' && lower[1] == '2' && lower[2] == 'e'
           && lower[3] == '%' && lower[4] == '2' && lower[5] == 'e';
  }

  /** The guard's test holds of exactly the spellings of `.` and `..` that a URL parser removes. */
  lemma DotSegmentExactly(segment: string)
    ensures IsDotSegment(segment)
       <==> IsSingleDot(WithoutTabsAndNewlines(segment)) || IsDoubleDot(WithoutTabsAndNewlines(segment))
    ensures Strip(segment) == WithoutTabsAndNewlines(segment)
  {
    StripsAsParsed(segment);
    var s := Strip(segment);
    DotsByPosition(s);
    hide IsSingleDot, IsDoubleDot, Strip, WithoutTabsAndNewlines;
    StripEncodedDotExactly(s);
    if StripDot(s).Some? {
      var rest := StripDot(s).value;
      StripEncodedDotExactly(rest);
      hide StripEncodedDot;
      var skipped := |s| - |rest|;
      assert forall i :: 0 <= i < |rest| ==> rest[i] == s[skipped + i];
      assert rest == "." <==> |rest| == 1 && rest[0] == '.';
    }
  }

  // ----- Segments of joined and stripped paths -----

  function StripAll(segments: seq<string>): seq<string> {
    if segments == [] then [] else [Strip(segments[0])] + StripAll(segments[1..])
  }

  lemma {:induction false} StripSegments(s: string)
    ensures Segments(Strip(s)) == StripAll(Segments(s))
  {
    if s != [] {
      StripSegments(s[1..]);
      var rest := Segments(s[1..]);
      if IsSeparator(s[0]) {
        assert Strip(s) == [s[0]] + Strip(s[1..]);
        assert ([[]] + rest)[1..] == rest;
      } else {
        var head := [s[0]] + rest[0];
        assert ([head] + rest[1..])[1..] == rest[1..];
        assert head[1..] == rest[0];
        assert Strip(head) == (if IsStripped(s[0]) then [] else [s[0]]) + Strip(rest[0]);
        assert StripAll(rest)[0] == Strip(rest[0]) && StripAll(rest)[1..] == StripAll(rest[1..]);
        if IsStripped(s[0]) {
          assert Strip(s) == Strip(s[1..]);
          assert [] + Strip(rest[0]) == Strip(rest[0]);
          assert StripAll([head] + rest[1..]) == [Strip(rest[0])] + StripAll(rest[1..]);
          assert StripAll(rest) == [Strip(rest[0])] + StripAll(rest[1..]);
        } else {
          assert Strip(s) == [s[0]] + Strip(s[1..]);
        }
      }
    } else {
      var one: seq<string> := [[]];
      assert one[1..] == [] && StripAll(one) == one;
    }
  }

  lemma {:induction false} StripAppend(a: string, b: string)
    ensures Strip(a + b) == Strip(a) + Strip(b)
  {
    if a == [] {
      assert a + b == b;
    } else {
      var rest := a[1..];
      StripAppend(rest, b);
      StripCons(a[0], rest);
      StripCons(a[0], rest + b);
      assert [a[0]] + rest == a && [a[0]] + (rest + b) == a + b;
      hide Strip;
    }
  }

  lemma StripCons(c: char, s: string)
    ensures Strip([c] + s) == (if IsStripped(c) then [] else [c]) + Strip(s)
  {
    assert ([c] + s)[1..] == s;
  }

  lemma SegmentsAppend(a: string, b: string)
    ensures Segments(a + "/" + b) == Segments(a) + Segments(b)
  {
    SegmentsOfCons('/', b);
    assert ['/'] + b == "/" + b && a + ("/" + b) == a + "/" + b;
    SegmentsContinue(a, "/" + b, Segments(b));
  }

  lemma NoSegments()
    ensures Segments("") == [""]
  {
  }

  lemma {:induction false} SegmentsContinue(a: string, tail: string, segments: seq<string>)
    requires Segments(tail) == [[]] + segments
    ensures Segments(a + tail) == Segments(a) + segments
  {
    hide Segments;
    if a == [] {
      assert a + tail == tail;
      NoSegments();
    } else {
      var rest := a[1..];
      SegmentsContinue(rest, tail, segments);
      SegmentsOfCons(a[0], rest);
      SegmentsOfCons(a[0], rest + tail);
      Shifted(a[0], Segments(rest), segments);
      assert [a[0]] + rest == a && [a[0]] + (rest + tail) == a + tail;
    }
  }

  /** What one more character in front does to a split does not reach the segments behind. */
  lemma Shifted(c: char, first: seq<string>, behind: seq<string>)
    requires |first| >= 1
    ensures [[]] + (first + behind) == ([[]] + first) + behind
    ensures var whole := first + behind;
            [[c] + whole[0]] + whole[1..] == ([[c] + first[0]] + first[1..]) + behind
  {
    assert (first + behind)[1..] == first[1..] + behind;
  }

  lemma SegmentsOfCons(c: char, s: string)
    ensures Segments([c] + s) ==
            if IsSeparator(c) then [[]] + Segments(s) else [[c] + Segments(s)[0]] + Segments(s)[1..]
  {
    assert ([c] + s)[1..] == s;
  }

  // ----- Normalization keeps what is no dot segment -----

  predicate IsDot(segment: string) {
    IsSingleDot(segment) || IsDoubleDot(segment)
  }

  predicate DotFree(segments: seq<string>) {
    forall k :: 0 <= k < |segments| ==> !IsDot(segments[k])
  }

  lemma {:induction false} NormalizeKeeps(path: seq<string>, segments: seq<string>)
    requires DotFree(segments)
    ensures Normalize(path, segments) == path + segments
    decreases |segments|
  {
    if segments != [] {
      assert !IsDot(segments[0]);
      assert forall k :: 0 <= k < |segments[1..]| ==> segments[1..][k] == segments[k + 1];
      NormalizeKeeps(path + [segments[0]], segments[1..]);
    }
  }

  lemma {:induction false} NormalizedIsDotFree(path: seq<string>, segments: seq<string>)
    requires DotFree(path)
    ensures DotFree(Normalize(path, segments))
    decreases |segments|
  {
    if segments != [] {
      EmptyIsNoDot();
      NormalizedIsDotFree(AddSegment(path, segments[0], |segments| == 1), segments[1..]);
    }
  }

  lemma EmptyIsNoDot()
    ensures !IsDot("")
  {
  }

  /** Normalization leaves segments as they are exactly when none of them is a dot segment. */
  lemma NormalizeFixesExactly(segments: seq<string>)
    ensures Normalize([], segments) == segments <==> DotFree(segments)
  {
    if DotFree(segments) {
      NormalizeKeeps([], segments);
    }
    NormalizedIsDotFree([], segments);
  }

  // ----- The guard -----

  /** The path as it is read, in the guard's own terms. */
  function Read(path: string): seq<string> {
    var stripped := Strip(path);
    Normalize([], Segments(if stripped != [] && IsSeparator(stripped[0]) then stripped[1..] else stripped))
  }

  lemma ReadsAsParsed(path: string)
    ensures ParsedPath(path) == Read(path)
  {
    StripsAsParsed(path);
    var stripped := Strip(path);
    SplitsAsParsed(if stripped != [] && IsSeparator(stripped[0]) then stripped[1..] else stripped);
    hide Strip, Segments, WithoutTabsAndNewlines, PathSegments, Normalize;
  }

  /** A base path as a URL parser leaves it: rooted, nothing to strip, no backslash, no dot segment. */
  predicate IsParsedBase(base: string) {
    && base != [] && base[0] == '/'
    && (forall i :: 0 <= i < |base| ==> !IsTabOrNewline(base[i]) && base[i] != '\\')
    && DotFree(PathSegments(base[1..]))
  }

  /** The segments a base contributes: those of its path without trailing slashes. */
  function BaseSegments(base: string): seq<string> {
    var basePath := TrimEndSlashes(base);
    if basePath == "" then [] else Segments(basePath[1..])
  }

  /** The segments a request contributes as a URL parser reads them: an empty path adds nothing to a base's. */
  function RequestSegments(base: string, request: string): seq<string> {
    var requestPath := TrimStartSlashes(request);
    if requestPath == "" && TrimEndSlashes(base) != "" then [] else StripAll(Segments(requestPath))
  }

  lemma {:induction false} StripNothing(s: string)
    requires forall i :: 0 <= i < |s| ==> !IsStripped(s[i])
    ensures Strip(s) == s
  {
    if s != [] {
      StripNothing(s[1..]);
      assert [s[0]] + s[1..] == s;
    }
  }

  lemma {:induction false} TrimEndIsPrefix(s: string)
    ensures TrimEndSlashes(s) <= s
    ensures TrimEndSlashes(s) != [] ==> TrimEndSlashes(s)[|TrimEndSlashes(s)| - 1] != '/'
  {
    if s != [] && s[|s| - 1] == '/' {
      TrimEndIsPrefix(s[..|s| - 1]);
    }
  }

  lemma {:induction false} TrimmedBaseIsDotFree(path: string, whole: string)
    requires path <= whole && DotFree(Segments(whole)) && forall i :: |path| <= i < |whole| ==> whole[i] == '/'
    ensures DotFree(Segments(path))
    decreases |whole| - |path|
  {
    if path != whole {
      var next := path + "/";
      assert next <= whole by { assert next == whole[..|path| + 1]; }
      TrimmedBaseIsDotFree(next, whole);
      SegmentsAppend(path, "");
      assert next + "" == next;
      forall k | 0 <= k < |Segments(path)|
        ensures !IsDot(Segments(path)[k])
      {
        assert (Segments(path) + Segments(""))[k] == Segments(path)[k];
      }
    } else {
      assert path == whole;
    }
  }

  lemma {:induction false} TrimEndOnlySlashes(s: string)
    ensures forall i :: |TrimEndSlashes(s)| <= i < |s| ==> s[i] == '/'
  {
    if s != [] && s[|s| - 1] == '/' {
      TrimEndOnlySlashes(s[..|s| - 1]);
    }
  }

  lemma BaseIsDotFree(base: string)
    requires IsParsedBase(base)
    ensures DotFree(BaseSegments(base))
  {
    var basePath := TrimEndSlashes(base);
    TrimEndIsPrefix(base);
    TrimEndOnlySlashes(base);
    if basePath != "" {
      assert basePath[1..] <= base[1..];
      assert forall i :: |basePath[1..]| <= i < |base[1..]| ==> base[1..][i] == base[i + 1];
      SplitsAsParsed(base[1..]);
      TrimmedBaseIsDotFree(basePath[1..], base[1..]);
    }
  }

  lemma {:induction false} StripAllAt(segments: seq<string>)
    ensures |StripAll(segments)| == |segments|
    ensures forall k :: 0 <= k < |segments| ==> StripAll(segments)[k] == Strip(segments[k])
  {
    if segments != [] {
      StripAllAt(segments[1..]);
      assert forall k :: 1 <= k < |segments| ==> segments[k] == segments[1..][k - 1];
    }
  }

  /** The path the URL ends up with. */
  lemma JoinedSegments(base: string, request: string)
    requires IsParsedBase(base)
    ensures Read(Joined(base, request)) == Normalize([], BaseSegments(base) + RequestSegments(base, request))
  {
    var basePath, requestPath := TrimEndSlashes(base), TrimStartSlashes(request);
    var joined := Joined(base, request);
    hide Segments, StripAll, Normalize;
    TrimEndIsPrefix(base);
    StripNothing(basePath);
    StripSegments(requestPath);
    var rest := Strip(requestPath);
    if basePath == "" {
      StripAppend("/", requestPath);
      StripNothing("/");
      assert Strip(joined) == "/" + rest && ("/" + rest)[1..] == rest;
      assert [] + RequestSegments(base, request) == RequestSegments(base, request);
    } else if requestPath == "" {
      assert BaseSegments(base) + [] == BaseSegments(base);
    } else {
      StripAppend(basePath + "/", requestPath);
      StripAppend(basePath, "/");
      StripNothing("/");
      var stripped := basePath + "/" + rest;
      assert Strip(joined) == stripped;
      assert stripped[1..] == basePath[1..] + "/" + rest;
      SegmentsAppend(basePath[1..], rest);
    }
  }

  /** The guard refuses a request's path exactly when a segment of it, as read, is a dot segment. */
  lemma RefusesExactly(base: string, request: string)
    ensures BuildPath(base, request).Some? <==> DotFree(RequestSegments(base, request))
  {
    var segments := Segments(TrimStartSlashes(request));
    StripAllAt(segments);
    forall k | 0 <= k < |segments|
      ensures IsDotSegment(segments[k]) <==> IsDot(StripAll(segments)[k])
    {
      DotSegmentExactly(segments[k]);
    }
    EmptyIsNoDot();
    if TrimStartSlashes(request) == "" {
      assert segments == [[]] && Strip([]) == [];
    }
  }

  /** The guard accepts a request's path exactly when normalization keeps the segments of the base and its own. */
  lemma AcceptsWhatIsKept(base: string, request: string)
    requires IsParsedBase(base)
    ensures BuildPath(base, request).Some? <==>
            Read(Joined(base, request)) == BaseSegments(base) + RequestSegments(base, request)
  {
    JoinedSegments(base, request);
    BaseIsDotFree(base);
    RefusesExactly(base, request);
    var kept, added := BaseSegments(base), RequestSegments(base, request);
    NormalizeFixesExactly(kept + added);
    hide BuildPath, RequestSegments, BaseSegments, Read, Normalize, IsDot;
    DotFreeAppend(kept, added);
  }

  predicate AllSlashes(s: string) {
    forall i :: 0 <= i < |s| ==> s[i] == '/'
  }

  lemma {:induction false} TrailingTrim(base: string, slashes: string)
    requires AllSlashes(slashes) && (base != "" ==> base[|base| - 1] != '/')
    ensures TrimEndSlashes(base + slashes) == base
  {
    var whole := base + slashes;
    if slashes == "" {
      assert whole == base;
    } else {
      var fewer := slashes[..|slashes| - 1];
      TrailingTrim(base, fewer);
      assert whole[|whole| - 1] == slashes[|slashes| - 1] && whole[..|whole| - 1] == base + fewer;
    }
  }

  lemma {:induction false} LeadingTrim(slashes: string, request: string)
    requires AllSlashes(slashes) && (request != "" ==> request[0] != '/')
    ensures TrimStartSlashes(slashes + request) == request
  {
    if slashes == "" {
      assert slashes + request == request;
    } else {
      LeadingTrim(slashes[1..], request);
      assert (slashes + request)[0] == slashes[0] && (slashes + request)[1..] == slashes[1..] + request;
    }
  }

  /** The segments that the URL Standard reads of a base's path and of a request's. */
  function AllSegments(base: string, request: string): seq<string> {
    (if base == "" then [] else PathSegments(base[1..]))
    + (if request == "" && base != "" then [] else PathSegments(WithoutTabsAndNewlines(request)))
  }

  lemma SegmentsAsParsed(base: string, trailing: string, leading: string, request: string)
    requires AllSlashes(trailing) && AllSlashes(leading)
    requires (base != "" ==> base[|base| - 1] != '/') && (request != "" ==> request[0] != '/')
    ensures BaseSegments(base + trailing) + RequestSegments(base + trailing, leading + request) == AllSegments(base, request)
  {
    TrailingTrim(base, trailing);
    LeadingTrim(leading, request);
    if base != "" {
      SplitsAsParsed(base[1..]);
    }
    StripSegments(request);
    StripsAsParsed(request);
    SplitsAsParsed(WithoutTabsAndNewlines(request));
    hide Segments, PathSegments, Strip, StripAll, WithoutTabsAndNewlines, TrimEndSlashes, TrimStartSlashes;
  }

  /**
   * The guard accepts a request's path exactly when URL normalization keeps its segments, all of
   * them and in order, behind the base's: a path that would re-target the request is refused, and
   * no other is. Slashes behind the base's path and ahead of the request's count as one.
   */
  lemma GuardIsExact(base: string, trailing: string, leading: string, request: string)
    requires AllSlashes(trailing) && AllSlashes(leading)
    requires (base != "" ==> base[|base| - 1] != '/') && (request != "" ==> request[0] != '/')
    requires IsParsedBase(base + trailing)
    ensures var sent := BuildPath(base + trailing, leading + request);
            && (sent.Some? <==> ParsedPath(Joined(base + trailing, leading + request)) == AllSegments(base, request))
            && (sent.Some? ==> ParsedPath(sent.value) == AllSegments(base, request))
  {
    var whole, path := base + trailing, leading + request;
    AcceptsWhatIsKept(whole, path);
    ReadsAsParsed(Joined(whole, path));
    SegmentsAsParsed(base, trailing, leading, request);
    assert BuildPath(whole, path).Some? ==> BuildPath(whole, path).value == Joined(whole, path);
    hide BuildPath, Read, ParsedPath, Joined, BaseSegments, RequestSegments, AllSegments;
  }

  lemma DotFreeAppend(first: seq<string>, second: seq<string>)
    ensures DotFree(first + second) <==> DotFree(first) && DotFree(second)
  {
    hide IsDot;
    forall k | 0 <= k < |second| && DotFree(first + second)
      ensures !IsDot(second[k])
    {
      assert !IsDot((first + second)[|first| + k]);
    }
    forall k | 0 <= k < |first| && DotFree(first + second)
      ensures !IsDot(first[k])
    {
      assert !IsDot((first + second)[k]);
    }
  }
}
