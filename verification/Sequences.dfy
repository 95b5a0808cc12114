/** Byte strings, optional values, ASCII case, and splitting a sequence at a delimiter. */
module Sequences {

  datatype Option<+T> = None | Some(value: T) {
    predicate IsFailure() {
      None?
    }

    function PropagateFailure<U>(): Option<U>
      requires None?
    {
      None
    }

    function Extract(): T
      requires Some?
    {
      value
    }
  }

  type Byte = b: int | 0 <= b < 256

  type Bytes = seq<Byte>

  const LF: Byte := 10

  /** The bytes of a text in ASCII. */
  function Ascii(text: string): Bytes {
    if text == "" then [] else [text[0] as int % 128] + Ascii(text[1..])
  }

  const U64_LIMIT: nat := 0x1_0000_0000_0000_0000

  /** The ASCII lower case of `c`. */
  function Lower(c: char): char {
    if 'A' <= c <= 'Z' then c + 32 as char else c
  }

  /** `s` cut at every occurrence of `d`; one more part than there are delimiters. */
  function SplitOn<T(==)>(s: seq<T>, d: T): (parts: seq<seq<T>>)
    ensures |parts| >= 1
  {
    if s == [] then [[]]
    else if s[0] == d then [[]] + SplitOn(s[1..], d)
    else
      var rest := SplitOn(s[1..], d);
      [[s[0]] + rest[0]] + rest[1..]
  }

  /** The parts with `d` between each two of them. */
  function Join<T>(parts: seq<seq<T>>, d: T): seq<T>
  {
    if parts == [] then []
    else if |parts| == 1 then parts[0]
    else parts[0] + [d] + Join(parts[1..], d)
  }

  lemma JoinMore<T>(parts: seq<seq<T>>, d: T)
    requires |parts| > 1
    ensures Join(parts, d) == parts[0] + [d] + Join(parts[1..], d)
  {
  }

  lemma JoinTwice<T>(a: seq<T>, b: seq<T>, rest: seq<T>, d: T)
    ensures a + [d] + (b + [d] + rest) == a + [d] + b + [d] + rest
  {
  }

  lemma {:induction false} SplitNone<T>(s: seq<T>, d: T)
    requires d !in s
    ensures SplitOn(s, d) == [s]
  {
    if s != [] {
      SplitNone(s[1..], d);
      assert [s[0]] + s[1..] == s;
    }
  }

  lemma {:induction false} SplitFirst<T>(a: seq<T>, d: T, b: seq<T>)
    requires d !in a
    ensures SplitOn(a + [d] + b, d) == [a] + SplitOn(b, d)
  {
    if a == [] {
      assert ([d] + b)[1..] == b;
      assert a + [d] + b == [d] + b;
    } else {
      SplitFirst(a[1..], d, b);
      assert (a + [d] + b)[1..] == a[1..] + [d] + b;
      assert [a[0]] + a[1..] == a;
    }
  }

  /** Joining undoes splitting, and no part holds the delimiter. */
  lemma {:induction false} JoinSplit<T>(s: seq<T>, d: T)
    ensures Join(SplitOn(s, d), d) == s
    ensures forall part :: part in SplitOn(s, d) ==> d !in part
  {
    if s != [] {
      JoinSplit(s[1..], d);
      var rest := SplitOn(s[1..], d);
      assert [s[0]] + s[1..] == s;
      if s[0] == d {
        assert ([[]] + rest)[1..] == rest;
      } else {
        var parts := [[s[0]] + rest[0]] + rest[1..];
        assert parts[1..] == rest[1..];
      }
    }
  }

  /** Splitting undoes joining delimiter-free parts. */
  lemma {:induction false} SplitJoin<T>(parts: seq<seq<T>>, d: T)
    requires parts != []
    requires forall part :: part in parts ==> d !in part
    ensures SplitOn(Join(parts, d), d) == parts
  {
    if |parts| == 1 {
      SplitNone(parts[0], d);
    } else {
      SplitJoin(parts[1..], d);
      SplitFirst(parts[0], d, Join(parts[1..], d));
    }
  }

  lemma {:induction false} JoinAppend<T>(a: seq<seq<T>>, b: seq<seq<T>>, d: T)
    requires a != [] && b != []
    ensures Join(a + b, d) == Join(a, d) + [d] + Join(b, d)
  {
    assert (a + b)[1..] == a[1..] + b;
    if |a| > 1 {
      JoinAppend(a[1..], b, d);
    }
  }

  /** Splitting around a delimiter is splitting both sides of it. */
  lemma SplitAppend<T>(a: seq<T>, b: seq<T>, d: T)
    ensures SplitOn(a + [d] + b, d) == SplitOn(a, d) + SplitOn(b, d)
  {
    JoinSplit(a, d);
    JoinSplit(b, d);
    JoinAppend(SplitOn(a, d), SplitOn(b, d), d);
    SplitJoin(SplitOn(a, d) + SplitOn(b, d), d);
  }

  /** A delimiter inside a part makes one more part of the joined text. */
  lemma {:induction false} SplitCounts<T>(parts: seq<seq<T>>, d: T)
    requires parts != []
    ensures |SplitOn(Join(parts, d), d)| >= |parts|
    ensures (exists part :: part in parts && d in part) ==> |SplitOn(Join(parts, d), d)| > |parts|
  {
    var first := parts[0];
    if d in first {
      JoinSplit(first, d);
      assert |SplitOn(first, d)| > 1;
    }
    if |parts| > 1 {
      SplitCounts(parts[1..], d);
      SplitAppend(first, Join(parts[1..], d), d);
    }
  }

  lemma JoinThree<T>(a: seq<T>, b: seq<T>, c: seq<T>, d: T)
    ensures Join([a, b, c], d) == a + [d] + b + [d] + c
  {
    assert [a, b, c][1..] == [b, c];
    assert [b, c][1..] == [c];
    assert Join([b, c], d) == b + [d] + c;
    assert a + [d] + (b + [d] + c) == a + [d] + b + [d] + c;
  }

  lemma JoinFive<T>(a: seq<T>, b: seq<T>, c: seq<T>, e: seq<T>, f: seq<T>, d: T)
    ensures Join([a, b, c, e, f], d) == a + [d] + b + [d] + c + [d] + e + [d] + f
  {
    assert [a, b, c, e, f][1..] == [b, c, e, f];
    assert [b, c, e, f][1..] == [c, e, f];
    JoinThree(c, e, f, d);
  }

  /** The parts with `ending` after each of them. */
  function Terminated<T>(parts: seq<seq<T>>, ending: seq<T>): seq<T> {
    if parts == [] then [] else parts[0] + ending + Terminated(parts[1..], ending)
  }

  function NonEmpty<T>(parts: seq<seq<T>>): seq<seq<T>> {
    if parts == [] then [] else (if parts[0] == [] then [] else [parts[0]]) + NonEmpty(parts[1..])
  }

  lemma {:induction false} TerminatedAppend<T>(parts: seq<seq<T>>, last: seq<T>, ending: seq<T>)
    ensures Terminated(parts + [last], ending) == Terminated(parts, ending) + (last + ending)
  {
    if parts == [] {
      assert parts + [last] == [last] && [last][1..] == [];
    } else {
      TerminatedAppend(parts[1..], last, ending);
      assert (parts + [last])[1..] == parts[1..] + [last];
    }
  }
}
