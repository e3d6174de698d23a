/** Byte strings, `std::string` as the source uses it, and `std::string::find`. */
module ByteStrings {
  type Byte = c: char | c as int < 256 witness 'a'
  type Bytes = seq<Byte>

  /** The first place of `c` at or after `from`; the length stands for npos. */
  function Find(s: Bytes, c: Byte, from: nat): (k: nat)
    requires from <= |s|
    ensures from <= k <= |s|
    ensures forall i | from <= i < k :: s[i] != c
    ensures k < |s| ==> s[k] == c
    decreases |s| - from
  {
    if from == |s| || s[from] == c then from else Find(s, c, from + 1)
  }

  function Lower(c: Byte): Byte {
    if 'A' <= c <= 'Z' then (c as int + 32) as char else c
  }

  function LowerAll(s: Bytes): (r: Bytes)
    ensures |r| == |s| && forall i | 0 <= i < |s| :: r[i] == Lower(s[i])
  {
    seq(|s|, i requires 0 <= i < |s| => Lower(s[i]))
  }

  // ---------------------------------------------------------------- letters up to case

  const UPPER: Bytes := "ABCDEFGHIJKLMNOPQRSTUVWXYZ"
  const LOWER: Bytes := "abcdefghijklmnopqrstuvwxyz"

  lemma Alphabet(k: nat)
    requires k < 26
    ensures UPPER[k] as int == 'A' as int + k && LOWER[k] as int == 'a' as int + k
  {
  }

  lemma LettersAreRanges(c: Byte)
    ensures c in UPPER <==> 'A' <= c <= 'Z'
    ensures c in LOWER <==> 'a' <= c <= 'z'
  {
    forall k: nat | k < 26 ensures UPPER[k] as int == 'A' as int + k && LOWER[k] as int == 'a' as int + k {
      Alphabet(k);
    }
    if 'A' <= c <= 'Z' {
      Alphabet(c as int - 'A' as int);
    }
    if 'a' <= c <= 'z' {
      Alphabet(c as int - 'a' as int);
    }
  }

  /** One character, or the two forms of one letter. */
  ghost predicate SameLetter(a: Byte, b: Byte) {
    a == b || exists k | 0 <= k < 26 :: (UPPER[k] == a && LOWER[k] == b) || (UPPER[k] == b && LOWER[k] == a)
  }

  ghost predicate SameUpToCase(a: Bytes, b: Bytes) {
    |a| == |b| && forall i | 0 <= i < |a| :: SameLetter(a[i], b[i])
  }

  lemma SameAsItself(s: Bytes)
    ensures SameUpToCase(s, s)
  {
  }

  /** `tolower` changes the capitals of ASCII to the small letters at the same place in the alphabet
      and nothing else. */
  lemma LowerOfLetters(c: Byte, k: nat)
    requires k < 26
    ensures Lower(UPPER[k]) == LOWER[k]
    ensures c !in UPPER ==> Lower(c) == c
  {
    Alphabet(k);
    if 'A' <= c <= 'Z' {
      Alphabet(c as int - 'A' as int);
    }
  }

  lemma LowerIsSameLetter(a: Byte, b: Byte)
    ensures Lower(a) == Lower(b) <==> SameLetter(a, b)
  {
    forall k: nat | k < 26 ensures UPPER[k] as int == 'A' as int + k && LOWER[k] as int == 'a' as int + k {
      Alphabet(k);
    }
    if Lower(a) == Lower(b) && a != b {
      var k: nat := Lower(a) as int - 'a' as int;
      assert (UPPER[k] == a && LOWER[k] == b) || (UPPER[k] == b && LOWER[k] == a);
    }
  }

  /** Two texts fold to one exactly when they differ at most in the case of letters. */
  lemma LowerAllIsSame(a: Bytes, b: Bytes)
    ensures LowerAll(a) == LowerAll(b) <==> SameUpToCase(a, b)
  {
    hide Lower, SameLetter;
    forall x, y ensures Lower(x) == Lower(y) <==> SameLetter(x, y) {
      LowerIsSameLetter(x, y);
    }
    if LowerAll(a) == LowerAll(b) {
      assert forall i | 0 <= i < |a| :: LowerAll(a)[i] == LowerAll(b)[i];
    }
  }
}
