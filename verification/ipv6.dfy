/** `IPv6Address` of sylar/address.cpp: the text printer with its byte-order handling, and
    section 2.2 of RFC 4291 as the way such text is read. */
module Ipv6 {
  import opened Wrappers
  import opened ByteStrings
  import opened Numerals

  type u8 = x: nat | x < 0x100
  type u16 = x: nat | x < 0x1_0000

  /** `os << text` */
  function Put(os: Bytes, text: Bytes): Bytes {
    os + text
  }

  const COLON: Bytes := ":"
  const DOUBLE_COLON: Bytes := "::"

  /** `byteswap` on two bytes. */
  function Byteswap16(x: u16): u16 {
    (x % 0x100) * 0x100 + x / 0x100
  }

  /** It exchanges the two bytes, so twice it is the identity, and it keeps zero. */
  lemma ByteswapUndoesItself(x: u16)
    ensures Byteswap16(x) % 0x100 == x / 0x100 && Byteswap16(x) / 0x100 == x % 0x100
    ensures Byteswap16(Byteswap16(x)) == x
    ensures Byteswap16(x) == 0 <==> x == 0
  {
  }

  function OnLittleEndian(little: bool, x: u16): u16 {
    if little then Byteswap16(x) else x
  }

  function Pair(high: u8, low: u8): u16 {
    0x100 * (high as int) + low as int
  }

  /** The two bytes at `2 * i` as one machine word, the way the cast to `uint16_t*` reads them. */
  function Word(bytes: seq<u8>, little: bool, i: nat): u16
    requires 2 * i + 1 < |bytes|
  {
    if little then Pair(bytes[2 * i + 1], bytes[2 * i]) else Pair(bytes[2 * i], bytes[2 * i + 1])
  }

  /** The groups of an address in the order of section 2.2 of RFC 4291: high byte first. */
  function Groups(bytes: seq<u8>): (gs: seq<u16>)
    ensures |gs| == |bytes| / 2
  {
    seq(|bytes| / 2, i requires 0 <= i < |bytes| / 2 => Pair(bytes[2 * i], bytes[2 * i + 1]))
  }

  lemma PairSwapped(high: u8, low: u8)
    ensures Byteswap16(Pair(high, low)) == Pair(low, high)
    ensures Pair(high, low) == 0 <==> Pair(low, high) == 0
  {
    var x := Pair(high, low);
    assert x / 0x100 == high && x % 0x100 == low;
  }

  /** Swapping makes a word the group of the address on both kinds of machine. */
  lemma WordsAreGroups(bytes: seq<u8>, little: bool, i: nat)
    requires 2 * i + 1 < |bytes|
    ensures OnLittleEndian(little, Word(bytes, little, i)) == Groups(bytes)[i]
    ensures Word(bytes, little, i) == 0 <==> Groups(bytes)[i] == 0
  {
    hide Pair, Byteswap16;
    PairSwapped(bytes[2 * i + 1], bytes[2 * i]);
    assert Groups(bytes)[i] == Pair(bytes[2 * i], bytes[2 * i + 1]);
  }

  // ---------------------------------------------------------------- the text

  function Hex(g: u16): Bytes {
    Digits(g, 16)
  }

  function Joined(gs: seq<u16>): Bytes {
    if gs == [] then []
    else if |gs| == 1 then Hex(gs[0])
    else Hex(gs[0]) + COLON + Joined(gs[1..])
  }

  /** Where the first run of zero groups starts; the length if there is none. */
  function RunStart(gs: seq<u16>): (a: nat)
    ensures a <= |gs| && (forall i | 0 <= i < a :: gs[i] != 0) && (a < |gs| ==> gs[a] == 0)
  {
    if gs == [] || gs[0] == 0 then 0 else 1 + RunStart(gs[1..])
  }

  function ZerosAt(gs: seq<u16>): (n: nat)
    ensures n <= |gs| && (forall i | 0 <= i < n :: gs[i] == 0) && (n < |gs| ==> gs[n] != 0)
  {
    if gs == [] || gs[0] != 0 then 0 else 1 + ZerosAt(gs[1..])
  }

  /** Where that run ends: it is as long as it can be. */
  function RunEnd(gs: seq<u16>): (b: nat)
    ensures RunStart(gs) <= b <= |gs|
    ensures forall i | RunStart(gs) <= i < b :: gs[i] == 0
    ensures b < |gs| ==> gs[b] != 0
  {
    var a := RunStart(gs);
    a + ZerosAt(gs[a..])
  }

  /** The groups with exactly the first maximal run of zeros written as "::". */
  function Compressed(gs: seq<u16>): Bytes {
    var a, b := RunStart(gs), RunEnd(gs);
    if a == |gs| then Joined(gs) else Joined(gs[..a]) + DOUBLE_COLON + Joined(gs[b..])
  }

  lemma {:induction false} JoinedSnoc(gs: seq<u16>, g: u16)
    ensures Joined(gs + [g]) == if gs == [] then Hex(g) else Joined(gs) + COLON + Hex(g)
  {
    if gs == [] {
      assert [] + [g] == [g];
    } else {
      JoinedSnoc(gs[1..], g);
      assert (gs + [g])[1..] == gs[1..] + [g];
      if |gs| == 1 {
        assert gs[1..] == [];
      }
    }
  }

  /** Exactly the first run of zeros is left out, all of it; text without zeros is left as it is. */
  lemma FirstRunIsLeftOut(left: seq<u16>, n: nat, right: seq<u16>)
    requires 0 !in left && (right == [] || right[0] != 0) && (n == 0 ==> right == [])
    ensures Compressed(left + Zeros(n) + right)
         == if n == 0 then Joined(left) else Joined(left) + "::" + Joined(right)
  {
    hide Joined;
    var gs := left + Zeros(n) + right;
    forall i | 0 <= i < |left| ensures gs[i] != 0 {
      assert gs[i] == left[i] && left[i] in left;
    }
    assert forall i | |left| <= i < |left| + n :: gs[i] == 0;
    assert n > 0 ==> gs[|left|] == 0;
    assert RunStart(gs) == |left|;
    assert RunEnd(gs) == |left| + n by {
      if right != [] {
        assert gs[|left| + n] == right[0];
      }
    }
    assert gs[..|left|] == left && gs[|left| + n..] == right;
    assert n == 0 ==> gs == left;
  }

  // ---------------------------------------------------------------- the loop

  /** What the loop has written before it looks at group `i`. */
  ghost predicate Printed(gs: seq<u16>, i: nat, usedZeros: bool, os: Bytes) {
    && i <= |gs|
    && var a := RunStart(gs);
       if usedZeros then RunEnd(gs) < i && os == Joined(gs[..a]) + DOUBLE_COLON + Joined(gs[RunEnd(gs)..i])
       else i <= RunEnd(gs) && os == Joined(gs[..if i < a then i else a])
  }

  /** One round of the loop. */
  method InsertGroup(bytes: seq<u8>, little: bool, i: nat, used: bool, start: Bytes)
    returns (usedZeros: bool, os: Bytes)
    requires i < |Groups(bytes)| && Printed(Groups(bytes), i, used, start)
    ensures Printed(Groups(bytes), i + 1, usedZeros, os)
  {
    hide Printed, Put, Hex, Groups, Word, OnLittleEndian;
    ghost var gs := Groups(bytes);
    usedZeros, os := used, start;
    WordsAreGroups(bytes, little, i);
    if Word(bytes, little, i) == 0 && !usedZeros {
      RoundPasses(gs, i, os);
      return;
    }
    var closes := false;
    if i > 0 {
      WordsAreGroups(bytes, little, i - 1);
      closes := Word(bytes, little, i - 1) == 0 && !usedZeros;
    }
    if usedZeros {
      RoundBehind(gs, i, os);
    } else if closes {
      RoundCloses(gs, i, os);
    } else {
      RoundBefore(gs, i, os);
    }
    if closes {
      os := Put(os, COLON);
      usedZeros := true;
    }
    if i > 0 {
      os := Put(os, COLON);
    }
    os := Put(os, Hex(OnLittleEndian(little, Word(bytes, little, i))));
  }

  /** The loop of `insert` over the words of the address and the check behind it. The source
      has 8 of them. */
  method InsertGroups(bytes: seq<u8>, little: bool) returns (os: Bytes)
    requires |bytes| >= 2 && |bytes| % 2 == 0
    ensures os == Compressed(Groups(bytes))
  {
    hide Printed, Put, Compressed, Groups, Word, OnLittleEndian;
    ghost var gs := Groups(bytes);
    var n := |bytes| / 2;
    os := [];
    var usedZeros := false;
    RoundStarts(gs);
    for i := 0 to n
      invariant Printed(gs, i, usedZeros, os)
    {
      usedZeros, os := InsertGroup(bytes, little, i, usedZeros, os);
    }
    WordsAreGroups(bytes, little, n - 1);
    PrintEnd(gs, usedZeros, os);
    if !usedZeros && Word(bytes, little, n - 1) == 0 {
      os := Put(os, DOUBLE_COLON);
    }
  }

  lemma RoundStarts(gs: seq<u16>)
    ensures Printed(gs, 0, false, [])
  {
  }

  /** One round of the loop, by cases on the flag and the groups: a zero that is passed over, */
  lemma RoundPasses(gs: seq<u16>, i: nat, os: Bytes)
    requires Printed(gs, i, false, os) && i < |gs| && gs[i] == 0
    ensures Printed(gs, i + 1, false, os)
  {
  }

  /** a group behind the run, */
  lemma RoundBehind(gs: seq<u16>, i: nat, os: Bytes)
    requires Printed(gs, i, true, os) && i < |gs|
    ensures i > 0 && Printed(gs, i + 1, true, Put(Put(os, COLON), Hex(gs[i])))
  {
    hide Hex, Joined;
    var a, b := RunStart(gs), RunEnd(gs);
    JoinedSnoc(gs[b..i], gs[i]);
    assert gs[b..i + 1] == gs[b..i] + [gs[i]];
    assert os + COLON + Hex(gs[i]) == Joined(gs[..a]) + DOUBLE_COLON + (Joined(gs[b..i]) + COLON + Hex(gs[i]));
  }

  /** the first group behind the run, */
  lemma RoundCloses(gs: seq<u16>, i: nat, os: Bytes)
    requires Printed(gs, i, false, os) && 0 < i < |gs| && gs[i] != 0 && gs[i - 1] == 0
    ensures Printed(gs, i + 1, true, Put(Put(Put(os, COLON), COLON), Hex(gs[i])))
  {
  }

  /** and a group before it. */
  lemma RoundBefore(gs: seq<u16>, i: nat, os: Bytes)
    requires Printed(gs, i, false, os) && i < |gs| && gs[i] != 0 && (i > 0 ==> gs[i - 1] != 0)
    ensures Printed(gs, i + 1, false, if i > 0 then Put(Put(os, COLON), Hex(gs[i])) else Put(os, Hex(gs[i])))
  {
    assert Joined([]) == [];
    hide Hex, Joined;
    BeforeRun(gs, i);
    JoinedSnoc(gs[..i], gs[i]);
    assert gs[..i + 1] == gs[..i] + [gs[i]];
    assert i == 0 ==> gs[..i] == [];
  }

  lemma BeforeRun(gs: seq<u16>, i: nat)
    requires i < |gs| && i <= RunEnd(gs) && gs[i] != 0 && (i > 0 ==> gs[i - 1] != 0)
    ensures i < RunStart(gs)
  {
  }

  lemma PrintEnd(gs: seq<u16>, usedZeros: bool, os: Bytes)
    requires Printed(gs, |gs|, usedZeros, os) && |gs| > 0
    ensures Compressed(gs) == if !usedZeros && gs[|gs| - 1] == 0 then Put(os, DOUBLE_COLON) else os
  {
    var a, b := RunStart(gs), RunEnd(gs);
    assert gs[b..|gs|] == gs[b..] && gs[..|gs|] == gs;
    if !usedZeros && a < |gs| {
      assert gs[b..] == [];
    }
  }

  // ---------------------------------------------------------------- reading

  /** One group: one to four hexadecimal digits. */
  function ReadGroup(t: Bytes): Option<u16> {
    if 1 <= |t| <= 4 && AllDigits(t, 16) && Value(t, 16) < 0x1_0000 then Some(Value(t, 16)) else None
  }

  /** Groups with single colons between them; the empty text has none. */
  function ReadGroups(t: Bytes): Option<seq<u16>>
    decreases |t|
  {
    if t == [] then Some([]) else ReadSome(t)
  }

  function ReadSome(t: Bytes): Option<seq<u16>>
    decreases |t|
  {
    var k := Find(t, ':', 0);
    var g := ReadGroup(t[..k]);
    if g.None? then None
    else if k == |t| then Some([g.value])
    else
      var rest := ReadSome(t[k + 1..]);
      if rest.None? then None else Some([g.value] + rest.value)
  }

  /** The first place of "::"; the length if there is none. */
  function FindDouble(t: Bytes): (k: nat)
    ensures k <= |t|
    ensures forall i | 0 <= i < k && i + 1 < |t| :: !(t[i] == ':' && t[i + 1] == ':')
    ensures k < |t| ==> k + 1 < |t| && t[k] == ':' && t[k + 1] == ':'
  {
    if |t| < 2 then |t| else if t[0] == ':' && t[1] == ':' then 0 else 1 + FindDouble(t[1..])
  }

  function Zeros(n: nat): (z: seq<u16>)
    ensures |z| == n && forall i | 0 <= i < n :: z[i] == 0
  {
    seq(n, i => 0)
  }

  /** An address of `n` groups: all of them, or fewer around one "::" that stands for one or
      more groups of zeros. */
  function ReadAddress(t: Bytes, n: nat): Option<seq<u16>> {
    var k := FindDouble(t);
    if k == |t| then
      var gs := ReadGroups(t);
      if gs.Some? && |gs.value| == n then gs else None
    else
      var left, right := ReadGroups(t[..k]), ReadGroups(t[k + 2..]);
      if left.Some? && right.Some? && |left.value| + |right.value| < n
      then Some(left.value + Zeros(n - |left.value| - |right.value|) + right.value) else None
  }

  lemma HexReads(g: u16)
    ensures ReadGroup(Hex(g)) == Some(g) && ':' !in Hex(g) && Hex(g) != []
  {
    DigitsReadBack(g, 16);
    assert Power(16, 4) == 16 * Power(16, 3) && Power(16, 3) == 16 * Power(16, 2);
    DigitsAreFew(g, 16, 4);
  }

  lemma FindColon(a: Bytes, b: Bytes)
    requires ':' !in a && (b == [] || b[0] == ':')
    ensures Find(a + b, ':', 0) == |a|
  {
    var s := a + b;
    assert forall i | 0 <= i < |a| :: s[i] == a[i];
    assert b != [] ==> s[|a|] == ':';
  }

  lemma LastGroupReads(g: u16)
    ensures ReadSome(Hex(g)) == Some([g])
  {
    hide Hex, ReadGroup;
    HexReads(g);
    FindColon(Hex(g), []);
    assert Hex(g) + [] == Hex(g) && Hex(g)[..|Hex(g)|] == Hex(g);
  }

  lemma NextGroupReads(g: u16, rest: Bytes)
    ensures var r := ReadSome(rest);
            ReadSome(Hex(g) + COLON + rest) == if r.Some? then Some([g] + r.value) else None
  {
    hide Hex, ReadGroup;
    HexReads(g);
    FindColon(Hex(g), COLON + rest);
    var t := Hex(g) + COLON + rest;
    assert t == Hex(g) + (COLON + rest);
    assert t[..|Hex(g)|] == Hex(g) && t[|Hex(g)| + 1..] == rest;
  }

  lemma {:induction false} JoinedReads(gs: seq<u16>)
    ensures ReadGroups(Joined(gs)) == Some(gs) && (gs != [] ==> Joined(gs) != [] && ReadSome(Joined(gs)) == Some(gs))
  {
    hide Hex, ReadSome;
    if gs != [] {
      HexReads(gs[0]);
      JoinedReads(gs[1..]);
      LastGroupReads(gs[0]);
      NextGroupReads(gs[0], Joined(gs[1..]));
      assert gs == [gs[0]] + gs[1..];
      assert |gs| == 1 ==> gs == [gs[0]];
    }
  }

  /** No "::" inside and no colon at either end. */
  ghost predicate SingleColons(t: Bytes) {
    && (forall i | 0 <= i < |t| - 1 :: !(t[i] == ':' && t[i + 1] == ':'))
    && (t != [] ==> t[0] != ':' && t[|t| - 1] != ':')
  }

  lemma NextSingleColons(h: Bytes, rest: Bytes)
    requires h != [] && ':' !in h && rest != [] && SingleColons(rest)
    ensures SingleColons(h + COLON + rest)
  {
  }

  lemma {:induction false} JoinedColons(gs: seq<u16>)
    ensures SingleColons(Joined(gs))
  {
    if gs != [] {
      hide Hex;
      HexReads(gs[0]);
      if |gs| > 1 {
        JoinedColons(gs[1..]);
        JoinedReads(gs[1..]);
        NextSingleColons(Hex(gs[0]), Joined(gs[1..]));
      }
    }
  }

  lemma DoubleBetween(left: Bytes, right: Bytes)
    requires SingleColons(left)
    ensures FindDouble(left + DOUBLE_COLON + right) == |left|
  {
    var t := left + DOUBLE_COLON + right;
    assert t[|left|] == ':' && t[|left| + 1] == ':';
    assert forall i | 0 <= i < |left| :: t[i] == left[i];
  }

  lemma ZerosBetween(gs: seq<u16>, a: nat, b: nat)
    requires a <= b <= |gs| && forall i | a <= i < b :: gs[i] == 0
    ensures gs == gs[..a] + Zeros(b - a) + gs[b..]
  {
  }

  lemma WholeReads(gs: seq<u16>)
    ensures ReadAddress(Joined(gs), |gs|) == Some(gs)
  {
    hide Joined, ReadGroups;
    JoinedColons(gs);
    JoinedReads(gs);
  }

  lemma GapFound(left: seq<u16>, r: Bytes)
    ensures var l, t := Joined(left), Joined(left) + DOUBLE_COLON + r;
            FindDouble(t) == |l| < |t| && t[..|l|] == l && t[|l| + 2..] == r
  {
    hide Joined, FindDouble;
    JoinedColons(left);
    DoubleBetween(Joined(left), r);
  }

  lemma GapReads(left: seq<u16>, right: seq<u16>, n: nat)
    requires |left| + |right| < n
    ensures ReadAddress(Joined(left) + DOUBLE_COLON + Joined(right), n)
         == Some(left + Zeros(n - |left| - |right|) + right)
  {
    hide Joined, ReadGroups, Zeros;
    JoinedReads(left);
    JoinedReads(right);
    GapFound(left, Joined(right));
  }

  /** Printing is inverted by reading, for every sequence of groups. */
  lemma CompressedReads(gs: seq<u16>)
    ensures ReadAddress(Compressed(gs), |gs|) == Some(gs)
  {
    hide RunStart, RunEnd, Joined, ReadAddress;
    var a, b := RunStart(gs), RunEnd(gs);
    if a == |gs| {
      WholeReads(gs);
    } else {
      ZerosBetween(gs, a, b);
      GapReads(gs[..a], gs[b..], |gs|);
    }
  }

  ghost predicate DoubleAt(t: Bytes, i: int) {
    0 <= i < |t| - 1 && t[i] == ':' && t[i + 1] == ':'
  }

  lemma OnlyDouble(left: Bytes, right: Bytes)
    requires SingleColons(left) && SingleColons(right)
    ensures DoubleAt(left + DOUBLE_COLON + right, |left|)
    ensures forall i :: DoubleAt(left + DOUBLE_COLON + right, i) ==> i == |left|
  {
  }

  /** "::" appears once when some group is zero and not at all otherwise. */
  lemma DoubleOnce(gs: seq<u16>)
    ensures 0 in gs <==> exists i :: DoubleAt(Compressed(gs), i)
    ensures forall i, j :: DoubleAt(Compressed(gs), i) && DoubleAt(Compressed(gs), j) ==> i == j
  {
    hide Joined;
    var a, b := RunStart(gs), RunEnd(gs);
    if a == |gs| {
      JoinedColons(gs);
      assert forall i :: !DoubleAt(Compressed(gs), i);
    } else {
      JoinedColons(gs[..a]);
      JoinedColons(gs[b..]);
      OnlyDouble(Joined(gs[..a]), Joined(gs[b..]));
      assert gs[a] == 0 && DoubleAt(Compressed(gs), |Joined(gs[..a])|);
    }
  }

  // ---------------------------------------------------------------- the whole endpoint

  /** What `insert` writes for 16 bytes and a port. */
  function Text(bytes: seq<u8>, port: u16): Bytes {
    "[" + Compressed(Groups(bytes)) + "]:" + Digits(port, 10)
  }

  /** Bytes and port of such a text: groups up to the bracket, then a decimal port. */
  function ReadText(t: Bytes, n: nat): Option<(seq<u8>, u16)> {
    if t == [] || t[0] != '[' then None
    else
      var k := Find(t, ']', 1);
      if k + 1 >= |t| || t[k + 1] != ':' then None
      else
        var gs, p := ReadAddress(t[1..k], n), t[k + 2..];
        if gs.Some? && AllDigits(p, 10) && p != [] && Value(p, 10) < 0x1_0000
        then Some((BytesOf(gs.value), Value(p, 10))) else None
  }

  function BytesOf(gs: seq<u16>): (bytes: seq<u8>)
    ensures |bytes| == 2 * |gs|
  {
    seq(2 * |gs|, i requires 0 <= i < 2 * |gs| => if i % 2 == 0 then gs[i / 2] / 0x100 else gs[i / 2] % 0x100)
  }

  lemma BytesAndGroups(bytes: seq<u8>)
    requires |bytes| % 2 == 0
    ensures BytesOf(Groups(bytes)) == bytes
  {
  }

  ghost predicate AddressText(t: Bytes) {
    forall i | 0 <= i < |t| :: t[i] == ':' || IsDigit(t[i], 16)
  }

  lemma {:induction false} JoinedIsAddressText(gs: seq<u16>)
    ensures AddressText(Joined(gs))
  {
    if gs != [] {
      DigitsReadBack(gs[0], 16);
      JoinedIsAddressText(gs[1..]);
    }
  }

  lemma CompressedIsAddressText(gs: seq<u16>)
    ensures AddressText(Compressed(gs))
  {
    hide Joined;
    var a, b := RunStart(gs), RunEnd(gs);
    JoinedIsAddressText(gs);
    JoinedIsAddressText(gs[..a]);
    JoinedIsAddressText(gs[b..]);
  }

  /** The whole text gives back the very bytes and the port it was written from. */
  lemma TextReads(bytes: seq<u8>, port: u16)
    requires |bytes| % 2 == 0
    ensures ReadText(Text(bytes, port), |bytes| / 2) == Some((bytes, port))
  {
    hide Compressed, ReadAddress, Groups, BytesOf;
    var c, p := Compressed(Groups(bytes)), Digits(port, 10);
    CompressedIsAddressText(Groups(bytes));
    CompressedReads(Groups(bytes));
    BytesAndGroups(bytes);
    DigitsReadBack(port, 10);
    BracketFound(c, p);
  }

  lemma BracketFound(c: Bytes, p: Bytes)
    requires AddressText(c)
    ensures var t := "[" + c + "]:" + p;
            Find(t, ']', 1) == |c| + 1 && t[|c| + 2] == ':' && t[1..|c| + 1] == c && t[|c| + 3..] == p
  {
    var t := "[" + c + "]:" + p;
    assert t[|c| + 1] == ']' && t[|c| + 2] == ':';
    assert forall i | 1 <= i < |c| + 1 :: t[i] == c[i - 1];
  }

  /** An address object: `m_addr` with its 16 bytes as they came and its port in network order. */
  class IPv6Address {
    const little: bool
    var sin6Addr: seq<u8>
    var sin6Port: u16

    ghost predicate Valid()
      reads this
    {
      |sin6Addr| == 16
    }

    /** The port a user of the class sees. */
    ghost function Port(): u16
      reads this
    {
      OnLittleEndian(little, sin6Port)
    }

    constructor (little: bool, address: seq<u8>, port: u16)
      requires |address| == 16
      ensures Valid() && sin6Addr == address && Port() == port
    {
      this.little := little;
      sin6Addr := address;
      sin6Port := OnLittleEndian(little, port);
      ByteswapUndoesItself(port);
    }

    method SetPort(v: u16)
      modifies this`sin6Port
      ensures Port() == v
    {
      ByteswapUndoesItself(v);
      sin6Port := OnLittleEndian(little, v);
    }

    method GetPort() returns (port: u16)
      ensures port == Port()
    {
      port := OnLittleEndian(little, sin6Port);
    }

    /** The text read back is this address, whatever the byte order of the machine. */
    method Insert() returns (os: Bytes)
      requires Valid()
      ensures os == Text(sin6Addr, Port())
      ensures ReadText(os, 8) == Some((sin6Addr, Port()))
    {
      hide Compressed, ReadText;
      var groups := InsertGroups(sin6Addr, little);
      os := "[" + groups + "]:" + Digits(OnLittleEndian(little, sin6Port), 10);
      TextReads(sin6Addr, Port());
    }
  }
}
