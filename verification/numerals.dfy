/** Numbers as text: what `operator<<` writes in decimal and, after `std::hex`, in lower-case
    hexadecimal, and how such text is read. */
module Numerals {
  import opened ByteStrings

  predicate Base(b: nat) { b == 10 || b == 16 }

  function Digit(d: nat): Byte
    requires d < 16
  {
    if d < 10 then ('0' as int + d) as char else ('a' as int + d - 10) as char
  }

  predicate IsDigit(c: Byte, base: nat) {
    '0' <= c <= '9' || (base == 16 && ('a' <= c <= 'f' || 'A' <= c <= 'F'))
  }

  function DigitValue(c: Byte): (d: nat)
    ensures d < 16
  {
    if '0' <= c <= '9' then c as int - '0' as int
    else if 'a' <= c <= 'f' then c as int - 'a' as int + 10
    else if 'A' <= c <= 'F' then c as int - 'A' as int + 10
    else 0
  }

  function Digits(n: nat, base: nat): (r: Bytes)
    requires Base(base)
    ensures |r| > 0
  {
    if n < base then [Digit(n)] else Digits(n / base, base) + [Digit(n % base)]
  }

  predicate AllDigits(s: Bytes, base: nat) {
    forall i | 0 <= i < |s| :: IsDigit(s[i], base)
  }

  function Value(s: Bytes, base: nat): nat {
    if s == [] then 0 else Value(s[..|s| - 1], base) * base + DigitValue(s[|s| - 1])
  }

  /** Written numbers read back. */
  lemma {:induction false} DigitsReadBack(n: nat, base: nat)
    requires Base(base)
    ensures AllDigits(Digits(n, base), base) && Value(Digits(n, base), base) == n
  {
    if n < base {
      assert Digits(n, base)[..0] == [];
    } else {
      DigitsReadBack(n / base, base);
      var r := Digits(n, base);
      assert r[..|r| - 1] == Digits(n / base, base);
    }
  }

  /** The digits are the usual ones, small letters written and both forms of them read, and no others. */
  lemma DigitsAreUsual(k: nat, c: Byte)
    requires k < 16
    ensures Digit(k) == "0123456789abcdef"[k]
    ensures DigitValue("0123456789abcdef"[k]) == k == DigitValue("0123456789ABCDEF"[k])
    ensures IsDigit(c, 10) <==> c in "0123456789"
    ensures IsDigit(c, 16) <==> c in "0123456789abcdefABCDEF"
  {
  }

  /** The leftmost digits count most. */
  lemma {:induction false} ValueIsPositional(a: Bytes, b: Bytes, base: nat)
    ensures Value(a + b, base) == Value(a, base) * Power(base, |b|) + Value(b, base)
  {
    if b == [] {
      assert a + b == a;
    } else {
      var rest, last := b[..|b| - 1], b[|b| - 1];
      ValueIsPositional(a, rest, base);
      assert (a + b)[..|a + b| - 1] == a + rest;
      Regroup(Value(a, base), Power(base, |rest|), Value(rest, base), base);
    }
  }

  lemma Regroup(a: nat, p: nat, b: nat, base: nat)
    ensures (a * p + b) * base == a * (base * p) + b * base
  {
  }

  /** A number has no zeros in front. */
  lemma {:induction false} NoLeadingZero(n: nat, base: nat)
    requires Base(base) && n > 0
    ensures Digits(n, base)[0] != '0'
  {
    if n >= base {
      NoLeadingZero(n / base, base);
    }
  }

  function Power(base: nat, k: nat): nat {
    if k == 0 then 1 else base * Power(base, k - 1)
  }

  /** A number below the k-th power of the base has at most k digits. */
  lemma {:induction false} DigitsAreFew(n: nat, base: nat, k: nat)
    requires Base(base) && 0 < k && n < Power(base, k)
    ensures |Digits(n, base)| <= k
  {
    assert Power(base, k) == base * Power(base, k - 1) && Power(base, 0) == 1;
    if n >= base && k > 1 {
      DigitsAreFew(n / base, base, k - 1);
    }
  }
}
