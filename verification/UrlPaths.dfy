/**
 * How a URL parser reads a path (sections 4.1 and 4.4 of the URL Standard), for the special schemes,
 * whose paths also split on `\`.
 */
module UrlPaths {

  /** U+0009, U+000A and U+000D, which the parser removes first. */
  predicate IsTabOrNewline(c: char) {
    c as int == 9 || c as int == 10 || c as int == 13
  }

  function WithoutTabsAndNewlines(s: string): string {
    if s == [] then []
    else if IsTabOrNewline(s[0]) then WithoutTabsAndNewlines(s[1..])
    else [s[0]] + WithoutTabsAndNewlines(s[1..])
  }

  /** U+002F and U+005C. */
  predicate EndsSegment(c: char) {
    c as int == 47 || c as int == 92
  }

  function PathSegments(s: string): (segments: seq<string>)
    ensures |segments| >= 1
  {
    if s == [] then [[]]
    else
      var rest := PathSegments(s[1..]);
      if EndsSegment(s[0]) then [[]] + rest else [[s[0]] + rest[0]] + rest[1..]
  }

  function AsciiLower(c: char): char {
    if 65 <= c as int <= 90 then ((c as int) + 32) as char else c
  }

  function LowerAll(s: string): string {
    if s == [] then [] else [AsciiLower(s[0])] + LowerAll(s[1..])
  }

  predicate IsSingleDot(segment: string) {
    LowerAll(segment) in {".", "%2e"}
  }

  predicate IsDoubleDot(segment: string) {
    LowerAll(segment) in {"..", ".%2e", "%2e.", "%2e%2e"}
  }

  /** One segment of the path state; `last` when the path ends with it. */
  function AddSegment(path: seq<string>, segment: string, last: bool): seq<string> {
    if IsDoubleDot(segment) then
      var shorter := if path == [] then [] else path[..|path| - 1];
      if last then shorter + [""] else shorter
    else if IsSingleDot(segment) then
      if last then path + [""] else path
    else path + [segment]
  }

  function Normalize(path: seq<string>, segments: seq<string>): seq<string>
    decreases |segments|
  {
    if segments == [] then path
    else Normalize(AddSegment(path, segments[0], |segments| == 1), segments[1..])
  }

  /** The segments of a path once a URL parser has read it. */
  function ParsedPath(path: string): seq<string> {
    var stripped := WithoutTabsAndNewlines(path);
    Normalize([], PathSegments(if stripped != [] && EndsSegment(stripped[0]) then stripped[1..] else stripped))
  }
}
