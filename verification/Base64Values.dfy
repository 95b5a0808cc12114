/** What base64 text stands for: the number that its letters spell is the number that the bytes spell (section 4 of RFC 4648). */
module Base64Values {
  import opened Sequences
  import opened Base64

  const ALPHABET := "ABCDEFGHIJKLMNOPQRSTUVWXYZ" + "abcdefghijklmnopqrstuvwxyz" + "0123456789+/"

  lemma AlphabetIsWhole()
    ensures |ALPHABET| == 64
  {
  }

  /** A letter's value is its place in the alphabet. */
  lemma LettersAreAlphabet(n: Sextet)
    ensures |ALPHABET| == 64 && Letter(n) == ALPHABET[n] as int
  {
    AlphabetIsWhole();
    if n < 26 {
      UpperCase(n);
    } else if n < 52 {
      LowerCase(n - 26);
    } else if n < 62 {
      Numerals(n - 52);
    }
  }

  lemma UpperCase(n: nat)
    requires n < 26
    ensures ALPHABET[n] as int == 65 + n
  {
  }

  lemma LowerCase(n: nat)
    requires n < 26
    ensures ALPHABET[26 + n] as int == 97 + n
  {
  }

  lemma Numerals(n: nat)
    requires n < 10
    ensures ALPHABET[52 + n] as int == 48 + n
  {
  }

  /** The number that digits of `base` spell, the most significant first. */
  function Number(digits: seq<nat>, base: nat): nat {
    if digits == [] then 0 else Number(digits[..|digits| - 1], base) * base + digits[|digits| - 1]
  }

  function Power(base: nat, n: nat): nat {
    if n == 0 then 1 else base * Power(base, n - 1)
  }

  lemma {:induction false} NumberAppend(a: seq<nat>, b: seq<nat>, base: nat)
    ensures Number(a + b, base) == Number(a, base) * Power(base, |b|) + Number(b, base)
  {
    if b == [] {
      assert a + b == a;
    } else {
      var front, last := b[..|b| - 1], b[|b| - 1];
      NumberAppend(a, front, base);
      assert (a + b)[..|a + b| - 1] == a + front;
      Distribute(Number(a, base), Power(base, |front|), Number(front, base), base);
    }
  }

  lemma Distribute(x: nat, p: nat, y: nat, base: nat)
    ensures (x * p + y) * base == x * (base * p) + y * base
  {
  }

  /** The zero bits that fill up the last letter of `n` bytes: a factor of 4 for each two of them. */
  function Filled(n: nat): nat {
    if n % 3 == 0 then 1 else if n % 3 == 1 then 16 else 4
  }

  lemma Regrouped(b0: nat, b1: nat, b2: nat)
    ensures (b0 / 4) * 64 + (b0 % 4) * 16 == b0 * 16
    ensures ((b0 / 4) * 64 + ((b0 % 4) * 16 + b1 / 16)) * 64 + (b1 % 16) * 4 == (b0 * 256 + b1) * 4
    ensures (((b0 / 4) * 64 + ((b0 % 4) * 16 + b1 / 16)) * 64 + ((b1 % 16) * 4 + b2 / 64)) * 64 + b2 % 64
         == (b0 * 256 + b1) * 256 + b2
  {
    assert b0 == 4 * (b0 / 4) + b0 % 4 && b1 == 16 * (b1 / 16) + b1 % 16 && b2 == 64 * (b2 / 64) + b2 % 64;
  }

  lemma SextetsOf(chunk: Bytes)
    requires 1 <= |chunk| <= 3
    ensures var n, b0 := Sextets(chunk), chunk[0];
            && n[0] == b0 / 4
            && (|chunk| == 1 ==> n[1] == (b0 % 4) * 16)
            && (|chunk| > 1 ==> n[1] == (b0 % 4) * 16 + chunk[1] / 16)
            && (|chunk| == 2 ==> n[2] == (chunk[1] % 16) * 4)
            && (|chunk| == 3 ==> n[2] == (chunk[1] % 16) * 4 + chunk[2] / 64 && n[3] == chunk[2] % 64)
  {
  }

  /** The letters of one to three bytes spell the bytes' number, times what fills up the last letter. */
  lemma ChunkSpells(chunk: Bytes)
    requires 1 <= |chunk| <= 3
    ensures Number(Sextets(chunk), 64) == Number(chunk, 256) * Filled(|chunk|)
  {
    hide Number, Sextets;
    SextetsOf(chunk);
    SpellsFew(chunk, 256);
    SpellsFew(Sextets(chunk), 64);
    var b0: nat, b1: nat, b2: nat := chunk[0], if |chunk| > 1 then chunk[1] else 0, if |chunk| > 2 then chunk[2] else 0;
    Regrouped(b0, b1, b2);
    if |chunk| == 1 {
      assert Number(Sextets(chunk), 64) == (b0 / 4) * 64 + (b0 % 4) * 16;
    } else if |chunk| == 2 {
      assert Number(Sextets(chunk), 64) == ((b0 / 4) * 64 + ((b0 % 4) * 16 + b1 / 16)) * 64 + (b1 % 16) * 4;
    } else {
      assert Number(Sextets(chunk), 64) == (((b0 / 4) * 64 + ((b0 % 4) * 16 + b1 / 16)) * 64 + ((b1 % 16) * 4 + b2 / 64)) * 64 + b2 % 64;
    }
  }

  lemma SpellsFew(d: seq<nat>, base: nat)
    requires 1 <= |d| <= 4
    ensures |d| == 1 ==> Number(d, base) == d[0]
    ensures |d| == 2 ==> Number(d, base) == d[0] * base + d[1]
    ensures |d| == 3 ==> Number(d, base) == (d[0] * base + d[1]) * base + d[2]
    ensures |d| == 4 ==> Number(d, base) == ((d[0] * base + d[1]) * base + d[2]) * base + d[3]
  {
    assert d[..1][..0] == [];
    assert |d| >= 1 ==> Number(d[..1], base) == d[0] by {
      assert d[..1][..0] == [] && d[..1][0] == d[0];
    }
    if |d| >= 2 {
      assert d[..2][..1] == d[..1];
      assert Number(d[..2], base) == d[0] * base + d[1];
    }
    if |d| >= 3 {
      assert d[..3][..2] == d[..2];
      assert Number(d[..3], base) == (d[0] * base + d[1]) * base + d[2];
    }
    if |d| == 4 {
      assert d[..4] == d && d[..4][..3] == d[..3];
    }
    assert d[..|d|] == d;
  }

  lemma {:induction false} PowersAgree(n: nat)
    ensures Power(64, LettersFor(n)) == Power(256, n) * Filled(n)
  {
    if n < 3 {
      assert Power(64, 1) == 64 && Power(64, 2) == 4096 && Power(64, 3) == 262_144;
      assert Power(256, 1) == 256 && Power(256, 2) == 65_536;
    } else {
      PowersAgree(n - 3);
      LettersForMore(n - 3);
      FourMore(LettersFor(n - 3));
      ThreeMore(n - 3);
      assert Filled(n) == Filled(n - 3);
      Reorder(Power(256, n - 3), Filled(n));
    }
  }

  lemma FourMore(n: nat)
    ensures Power(64, n + 4) == 16_777_216 * Power(64, n)
  {
    assert Power(64, n + 2) == 64 * Power(64, n + 1);
  }

  lemma ThreeMore(n: nat)
    ensures Power(256, n + 3) == 16_777_216 * Power(256, n)
  {
    assert Power(256, n + 2) == 256 * Power(256, n + 1);
  }

  lemma Reorder(p: nat, f: nat)
    ensures 16_777_216 * (p * f) == (16_777_216 * p) * f
  {
  }

  /** The sextets of all bytes, three bytes at a time. */
  function AllSextets(bytes: Bytes): seq<Sextet>
    decreases |bytes|
  {
    if bytes == [] then []
    else
      var size := Min(3, |bytes|);
      Sextets(bytes[..size]) + AllSextets(bytes[size..])
  }

  lemma {:induction false} LettersTogether(a: seq<Sextet>, b: seq<Sextet>)
    ensures Letters(a + b) == Letters(a) + Letters(b)
  {
    if a == [] {
      assert a + b == b;
    } else {
      LettersTogether(a[1..], b);
      assert (a + b)[1..] == a[1..] + b;
    }
  }

  lemma {:induction false} UnpaddedLetters(bytes: Bytes)
    ensures Unpadded(bytes) == Letters(AllSextets(bytes)) && |AllSextets(bytes)| == LettersFor(|bytes|)
    decreases |bytes|
  {
    if bytes != [] {
      hide Sextets, Letters;
      var size := Min(3, |bytes|);
      UnpaddedLetters(bytes[size..]);
      LettersTogether(Sextets(bytes[..size]), AllSextets(bytes[size..]));
      if size == 3 {
        LettersForMore(|bytes| - 3);
      }
    } else {
      assert Letters([]) == [];
    }
  }

  /** The letters of `bytes` spell the number that the bytes spell, times what fills up the last letter. */
  lemma {:induction false} LettersSpellBytes(bytes: Bytes)
    ensures Number(AllSextets(bytes), 64) == Number(bytes, 256) * Filled(|bytes|)
    decreases |bytes|
  {
    hide *;
    if bytes == [] {
      NothingSpelled();
    } else {
      FirstChunk(bytes);
      var size := Min(3, |bytes|);
      var chunk, rest := bytes[..size], bytes[size..];
      ChunkSpells(chunk);
      if size == 3 {
        LettersSpellBytes(rest);
        WholeChunkSpells(chunk, rest);
      }
    }
  }

  /** The bytes are their first three and the others. */
  lemma FirstChunk(bytes: Bytes)
    requires bytes != []
    ensures var size := Min(3, |bytes|);
            && 1 <= size <= 3 && size <= |bytes| && bytes == bytes[..size] + bytes[size..] && |bytes[size..]| < |bytes|
            && AllSextets(bytes) == Sextets(bytes[..size]) + AllSextets(bytes[size..])
            && (size < 3 ==> bytes[..size] == bytes && AllSextets(bytes) == Sextets(bytes))
  {
    hide Sextets;
    var size := Min(3, |bytes|);
    if size < 3 {
      assert bytes[size..] == [] && bytes[..size] == bytes;
      assert Sextets(bytes) + [] == Sextets(bytes);
    }
  }

  lemma WholeChunkSpells(chunk: Bytes, rest: Bytes)
    requires |chunk| == 3 && Number(Sextets(chunk), 64) == Number(chunk, 256) * Filled(3)
    requires Number(AllSextets(rest), 64) == Number(rest, 256) * Filled(|rest|)
    ensures Number(Sextets(chunk) + AllSextets(rest), 64) == Number(chunk + rest, 256) * Filled(3 + |rest|)
  {
    hide *;
    UnpaddedLetters(rest);
    NumberAppend(Sextets(chunk), AllSextets(rest), 64);
    NumberAppend(chunk, rest, 256);
    PowersAgree(|rest|);
    WholeChunk(|rest|);
    Combine(Number(chunk, 256), Power(256, |rest|), Number(rest, 256), Filled(|rest|));
  }

  lemma WholeChunk(n: nat)
    ensures Filled(3) == 1 && Filled(3 + n) == Filled(n)
  {
  }

  lemma NothingSpelled()
    ensures AllSextets([]) == [] && Number([], 64) == 0 && Number([], 256) == 0
  {
  }

  lemma Combine(x: nat, p: nat, y: nat, f: nat)
    ensures x * (p * f) + y * f == (x * p + y) * f
  {
  }

  /**
   * The text of `bytes`: as many letters as their bits take, six a letter, which spell the bytes' number,
   * zero bits filling up the last one; and `=` for each letter that the last four lack.
   */
  lemma TextSpellsBytes(bytes: Bytes)
    ensures var n := AllSextets(bytes);
            && |n| == (8 * |bytes| + 5) / 6 && Number(n, 64) == Number(bytes, 256) * Filled(|bytes|)
            && |Encoded(bytes)| % 4 == 0 && |n| <= |Encoded(bytes)| < |n| + 4
            && |ALPHABET| == 64 && (forall i :: 0 <= i < |n| ==> Encoded(bytes)[i] == ALPHABET[n[i]] as int)
            && (forall i :: |n| <= i < |Encoded(bytes)| ==> Encoded(bytes)[i] == '=' as int)
  {
    hide *;
    UnpaddedLetters(bytes);
    LettersSpellBytes(bytes);
    LettersAndPads(|bytes|);
    LetterCount(|bytes|);
    PaddedText(bytes);
    LettersAt(AllSextets(bytes));
    AlphabetIsWhole();
    forall i | 0 <= i < |AllSextets(bytes)|
      ensures Encoded(bytes)[i] == ALPHABET[AllSextets(bytes)[i]] as int
    {
      LettersAreAlphabet(AllSextets(bytes)[i]);
    }
  }

  lemma PaddedText(bytes: Bytes)
    ensures var text := Encoded(bytes);
            && |text| == |Unpadded(bytes)| + PadsFor(|bytes|) && Unpadded(bytes) <= text
            && forall i :: |Unpadded(bytes)| <= i < |text| ==> text[i] == '=' as int
  {
    hide Unpadded, PadsFor;
  }

  lemma LetterCount(n: nat)
    ensures LettersFor(n) == (8 * n + 5) / 6
  {
  }

  lemma {:induction false} LettersAt(n: seq<Sextet>)
    ensures forall i :: 0 <= i < |n| ==> Letters(n)[i] == Letter(n[i])
  {
    if n != [] {
      LettersAt(n[1..]);
    }
  }
}
