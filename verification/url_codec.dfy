/** `UrlEncode` and `UrlDecode` of sylar/util.cpp: percent-encoding, section 2.1 of RFC 3986. */
module UrlCodec {
  import opened Wrappers
  import opened ByteStrings
  import opened Numerals

  /** The characters that `uri_chars` leaves as they are. The table also holds '='. */
  predicate Unreserved(c: Byte) {
    || '0' <= c <= '9' || 'A' <= c <= 'Z' || 'a' <= c <= 'z'
    || c == '-' || c == '.' || c == '_' || c == '~' || c == '='
  }

  function HexDigit(n: nat): Byte
    requires n < 16
  {
    if n < 10 then ('0' as int + n) as char else ('A' as int + n - 10) as char
  }

  function EncodedByte(c: Byte, spaceAsPlus: bool): Bytes {
    if Unreserved(c) then [c]
    else if c == ' ' && spaceAsPlus then ['+']
    else ['%', HexDigit(c as int / 16), HexDigit(c as int % 16)]
  }

  function Encoded(s: Bytes, spaceAsPlus: bool): Bytes {
    if s == [] then [] else EncodedByte(s[0], spaceAsPlus) + Encoded(s[1..], spaceAsPlus)
  }

  predicate StartsEscape(s: Bytes) {
    |s| > 2 && s[0] == '%' && IsDigit(s[1], 16) && IsDigit(s[2], 16)
  }

  function Unescaped(s: Bytes): Byte
    requires StartsEscape(s)
  {
    (DigitValue(s[1]) * 16 + DigitValue(s[2])) as char
  }

  /** A malformed escape is copied as it stands. */
  function Decoded(s: Bytes, spaceAsPlus: bool): Bytes {
    if s == [] then []
    else if s[0] == '+' && spaceAsPlus then [' '] + Decoded(s[1..], spaceAsPlus)
    else if StartsEscape(s) then [Unescaped(s)] + Decoded(s[3..], spaceAsPlus)
    else [s[0]] + Decoded(s[1..], spaceAsPlus)
  }

  // ---------------------------------------------------------------- byte by byte

  lemma {:induction false} EncodedJoin(a: Bytes, b: Bytes, spaceAsPlus: bool)
    ensures Encoded(a + b, spaceAsPlus) == Encoded(a, spaceAsPlus) + Encoded(b, spaceAsPlus)
  {
    hide EncodedByte;
    if a == [] {
      assert a + b == b;
    } else {
      EncodedJoin(a[1..], b, spaceAsPlus);
      assert (a + b)[1..] == a[1..] + b;
    }
  }

  /** The characters of `uri_chars`, which the encoder copies. */
  ghost predicate Copied(c: Byte) {
    c in "0123456789" || c in UPPER || c in LOWER || c in "-._~="
  }

  lemma UnreservedIsCopied(c: Byte)
    ensures Unreserved(c) <==> Copied(c)
  {
    assert c in "0123456789" <==> '0' <= c <= '9';
    LettersAreRanges(c);
  }

  lemma HexDigitIsUsual(k: nat)
    requires k < 16
    ensures HexDigit(k) == "0123456789ABCDEF"[k]
  {
  }

  /** What the encoder makes of one byte anywhere in a text: the copied characters stay, a space may
      become '+', and any other byte is '%' and its two hexadecimal digits, in capitals. */
  lemma EncodesEachByte(before: Bytes, c: Byte, after: Bytes, spaceAsPlus: bool)
    ensures Encoded(before + [c] + after, spaceAsPlus)
         == Encoded(before, spaceAsPlus)
            + (if Copied(c) then [c]
               else if c == ' ' && spaceAsPlus then ['+']
               else ['%', "0123456789ABCDEF"[c as int / 16], "0123456789ABCDEF"[c as int % 16]])
            + Encoded(after, spaceAsPlus)
  {
    hide Unreserved, HexDigit, Copied;
    UnreservedIsCopied(c);
    HexDigitIsUsual(c as int / 16);
    HexDigitIsUsual(c as int % 16);
    EncodedJoin(before + [c], after, spaceAsPlus);
    EncodedJoin(before, [c], spaceAsPlus);
    assert [c][1..] == [];
  }

  /** No escape can reach over the end of the text. */
  ghost predicate NoOpenEscape(s: Bytes) {
    forall i | 0 <= i < |s| && |s| - 2 <= i :: s[i] != '%'
  }

  lemma {:induction false} DecodedJoin(a: Bytes, b: Bytes, spaceAsPlus: bool)
    requires NoOpenEscape(a)
    ensures Decoded(a + b, spaceAsPlus) == Decoded(a, spaceAsPlus) + Decoded(b, spaceAsPlus)
    decreases |a|
  {
    hide IsDigit, DigitValue;
    if a == [] {
      assert a + b == b;
    } else {
      assert StartsEscape(a + b) <==> StartsEscape(a);
      assert (a + b)[1..] == a[1..] + b;
      if StartsEscape(a) {
        assert (a + b)[3..] == a[3..] + b;
        assert NoOpenEscape(a[3..]) by {
          assert forall i | 0 <= i < |a| - 3 :: a[3..][i] == a[i + 3];
        }
        DecodedJoin(a[3..], b, spaceAsPlus);
      }
      assert NoOpenEscape(a[1..]) by {
        assert forall i | 0 <= i < |a| - 1 :: a[1..][i] == a[i + 1];
      }
      DecodedJoin(a[1..], b, spaceAsPlus);
    }
  }

  /** An escape of two hexadecimal digits of either form anywhere in a text is read as its byte. */
  lemma DecodesEscapes(before: Bytes, high: nat, low: nat, capitals: bool, after: Bytes, spaceAsPlus: bool)
    requires NoOpenEscape(before) && high < 16 && low < 16
    ensures Decoded(before + ['%', DigitOf(high, capitals), DigitOf(low, capitals)] + after, spaceAsPlus)
         == Decoded(before, spaceAsPlus) + [(16 * high + low) as char] + Decoded(after, spaceAsPlus)
  {
    var escape := ['%', DigitOf(high, capitals), DigitOf(low, capitals)];
    DigitOfIsRead(high, capitals);
    DigitOfIsRead(low, capitals);
    hide IsDigit, DigitValue, DigitOf;
    assert before + escape + after == before + (escape + after);
    DecodedJoin(before, escape + after, spaceAsPlus);
    assert (escape + after)[3..] == after;
  }

  /** A hexadecimal digit in either form. */
  ghost function DigitOf(k: nat, capital: bool): Byte
    requires k < 16
  {
    if capital then "0123456789ABCDEF"[k] else "0123456789abcdef"[k]
  }

  lemma DigitOfIsRead(k: nat, capital: bool)
    requires k < 16
    ensures IsDigit(DigitOf(k, capital), 16) && DigitValue(DigitOf(k, capital)) == k
  {
  }

  /** Any other character is copied, a '%' without two such digits behind it too; a '+' may become a
      space. */
  lemma DecodesOthers(before: Bytes, c: Byte, after: Bytes, spaceAsPlus: bool)
    requires NoOpenEscape(before)
    requires c == '%' ==> |after| < 2 || after[0] !in "0123456789abcdefABCDEF" || after[1] !in "0123456789abcdefABCDEF"
    ensures Decoded(before + [c] + after, spaceAsPlus)
         == Decoded(before, spaceAsPlus) + [if c == '+' && spaceAsPlus then ' ' else c] + Decoded(after, spaceAsPlus)
  {
    assert before + [c] + after == before + ([c] + after);
    DecodedJoin(before, [c] + after, spaceAsPlus);
    assert ([c] + after)[1..] == after;
    if |after| >= 2 {
      DigitsAreUsual(0, after[0]);
      DigitsAreUsual(0, after[1]);
    }
    assert !StartsEscape([c] + after);
  }

  // ---------------------------------------------------------------- round trip

  /** What decoding under `plusIn` makes of a byte encoded under `plusOut`. */
  function ComesBackAs(c: Byte, plusOut: bool, plusIn: bool): Byte {
    if c == ' ' && plusOut && !plusIn then '+' else c
  }

  lemma DecodedByte(c: Byte, rest: Bytes, plusOut: bool, plusIn: bool)
    ensures Decoded(EncodedByte(c, plusOut) + rest, plusIn) == [ComesBackAs(c, plusOut, plusIn)] + Decoded(rest, plusIn)
  {
  }

  lemma {:induction false} DecodedAll(s: Bytes, plusOut: bool, plusIn: bool)
    ensures var r := Decoded(Encoded(s, plusOut), plusIn);
            |r| == |s| && forall i | 0 <= i < |s| :: r[i] == ComesBackAs(s[i], plusOut, plusIn)
  {
    if s != [] {
      DecodedByte(s[0], Encoded(s[1..], plusOut), plusOut, plusIn);
      DecodedAll(s[1..], plusOut, plusIn);
    }
  }

  /** Decoding undoes encoding for every byte string, unless spaces were written as '+' and
      the decoder does not read them back. */
  lemma {:induction false} DecodeUndoesEncode(s: Bytes, plusOut: bool, plusIn: bool)
    ensures Decoded(Encoded(s, plusOut), plusIn) == s <==> (plusOut ==> plusIn || ' ' !in s)
  {
    DecodedAll(s, plusOut, plusIn);
    var r := Decoded(Encoded(s, plusOut), plusIn);
    if plusOut && !plusIn && ' ' in s {
      var i :| 0 <= i < |s| && s[i] == ' ';
      assert r[i] == '+';
    }
  }

  lemma EncodedByteAlphabet(c: Byte, spaceAsPlus: bool)
    ensures forall x | x in EncodedByte(c, spaceAsPlus) :: Copied(x) || x == '%' || x == '+'
  {
    hide Copied;
    forall x ensures Unreserved(x) <==> Copied(x) {
      UnreservedIsCopied(x);
    }
  }

  lemma SeparatorsAreNot()
    ensures !Copied('&') && !Copied(';')
  {
    hide Copied;
    UnreservedIsCopied('&');
    UnreservedIsCopied(';');
  }

  /** Encoded text holds unreserved characters, '%' and '+' only; in particular none of the
      separators of queries, forms and cookies. */
  lemma {:induction false} EncodedAlphabet(s: Bytes, spaceAsPlus: bool)
    ensures forall c | c in Encoded(s, spaceAsPlus) :: Copied(c) || c == '%' || c == '+'
    ensures '&' !in Encoded(s, spaceAsPlus) && ';' !in Encoded(s, spaceAsPlus)
  {
    hide Copied, EncodedByte;
    SeparatorsAreNot();
    if s != [] {
      var e, more := EncodedByte(s[0], spaceAsPlus), Encoded(s[1..], spaceAsPlus);
      assert Encoded(s, spaceAsPlus) == e + more;
      EncodedAlphabet(s[1..], spaceAsPlus);
      EncodedByteAlphabet(s[0], spaceAsPlus);
      hide Encoded;
      assert forall c | c in e + more :: c in e || c in more;
    }
  }

  // ---------------------------------------------------------------- the loops

  /** What has been written after `i` bytes; no buffer means nothing has had to change yet. */
  ghost function Written(str: Bytes, i: nat, out: Option<Bytes>): Bytes
    requires i <= |str|
  {
    if out.None? then str[..i] else out.value
  }

  lemma EncodeRound(str: Bytes, i: nat, done: Bytes, spaceAsPlus: bool)
    requires i < |str|
    ensures done + Encoded(str[i..], spaceAsPlus)
            == done + EncodedByte(str[i], spaceAsPlus) + Encoded(str[i + 1..], spaceAsPlus)
    ensures str[..i + 1] == str[..i] + [str[i]]
  {
  }

  method UrlEncode(str: Bytes, spaceAsPlus: bool) returns (r: Bytes)
    ensures r == Encoded(str, spaceAsPlus)
  {
    var ss: Option<Bytes> := None;
    var i := 0;
    assert str[0..] == str;
    while i < |str|
      invariant 0 <= i <= |str|
      invariant Written(str, i, ss) + Encoded(str[i..], spaceAsPlus) == Encoded(str, spaceAsPlus)
    {
      EncodeRound(str, i, Written(str, i, ss), spaceAsPlus);
      var c := str[i];
      if !Unreserved(c) {
        if ss.None? {
          ss := Some(str[..i]);
        }
        if c == ' ' && spaceAsPlus {
          ss := Some(ss.value + ['+']);
        } else {
          ss := Some(ss.value + ['%', HexDigit(c as int / 16), HexDigit(c as int % 16)]);
        }
      } else if ss.Some? {
        ss := Some(ss.value + [c]);
      }
      i := i + 1;
    }
    assert str[i..] == [] && str[..i] == str;
    r := if ss.None? then str else ss.value;
  }

  lemma DecodeRound(str: Bytes, i: nat, done: Bytes, spaceAsPlus: bool)
    requires i < |str|
    ensures done + Decoded(str[i..], spaceAsPlus) ==
            if str[i] == '+' && spaceAsPlus then done + [' '] + Decoded(str[i + 1..], spaceAsPlus)
            else if str[i] == '%' && i + 2 < |str| && IsDigit(str[i + 1], 16) && IsDigit(str[i + 2], 16)
            then done + [(DigitValue(str[i + 1]) * 16 + DigitValue(str[i + 2])) as char] + Decoded(str[i + 3..], spaceAsPlus)
            else done + [str[i]] + Decoded(str[i + 1..], spaceAsPlus)
    ensures str[..i + 1] == str[..i] + [str[i]]
  {
    var s := str[i..];
    assert s[1..] == str[i + 1..];
    if i + 2 < |str| {
      assert s[1] == str[i + 1] && s[2] == str[i + 2] && s[3..] == str[i + 3..];
    }
  }

  method UrlDecode(str: Bytes, spaceAsPlus: bool) returns (r: Bytes)
    ensures r == Decoded(str, spaceAsPlus)
  {
    assert Decoded([], spaceAsPlus) == [];
    hide Decoded, IsDigit, DigitValue;
    var ss: Option<Bytes> := None;
    var i := 0;
    assert str[0..] == str;
    while i < |str|
      invariant 0 <= i <= |str|
      invariant Written(str, i, ss) + Decoded(str[i..], spaceAsPlus) == Decoded(str, spaceAsPlus)
    {
      DecodeRound(str, i, Written(str, i, ss), spaceAsPlus);
      var c := str[i];
      if c == '+' && spaceAsPlus {
        if ss.None? {
          ss := Some(str[..i]);
        }
        ss := Some(ss.value + [' ']);
      } else if c == '%' && i + 2 < |str| && IsDigit(str[i + 1], 16) && IsDigit(str[i + 2], 16) {
        if ss.None? {
          ss := Some(str[..i]);
        }
        ss := Some(ss.value + [(DigitValue(str[i + 1]) * 16 + DigitValue(str[i + 2])) as char]);
        i := i + 2;
      } else if ss.Some? {
        ss := Some(ss.value + [c]);
      }
      i := i + 1;
    }
    assert str[i..] == [] && str[..i] == str;
    r := if ss.None? then str else ss.value;
  }
}
