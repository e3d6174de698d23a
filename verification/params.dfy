/** Parameter parsing of sylar/http/http.cpp: the case-insensitive map, and the `PARSE_PARAM`
    loop behind the query, form and cookie parsers. */
module ParamParsing {
  import opened Wrappers
  import opened ByteStrings
  import opened UrlCodec

  datatype Pair = Pair(key: Bytes, value: Bytes)

  // ---------------------------------------------------------------- keys up to case

  /** The part of a key that `strcasecmp` on `c_str()` sees. */
  function CStr(s: Bytes): Bytes {
    s[..Find(s, '\0', 0)]
  }

  function Fold(key: Bytes): Bytes {
    LowerAll(CStr(key))
  }

  /** `strcasecmp(a, b) < 0` on what is left of two folded keys. */
  predicate FoldedLess(a: Bytes, b: Bytes) {
    b != [] && (a == [] || a[0] < b[0] || (a[0] == b[0] && FoldedLess(a[1..], b[1..])))
  }

  predicate CaseInsensitiveLess(lhs: Bytes, rhs: Bytes) {
    FoldedLess(Fold(lhs), Fold(rhs))
  }

  lemma {:induction false} FoldedLessIsOrder(a: Bytes, b: Bytes, c: Bytes)
    ensures !(FoldedLess(a, b) && FoldedLess(b, a))
    ensures FoldedLess(a, b) || FoldedLess(b, a) || a == b
    ensures FoldedLess(a, b) && FoldedLess(b, c) ==> FoldedLess(a, c)
    decreases |a|
  {
    if a != [] && b != [] {
      FoldedLessIsOrder(a[1..], b[1..], if c == [] then [] else c[1..]);
      if a[0] == b[0] && a[1..] == b[1..] {
        assert a == [a[0]] + a[1..] && b == [b[0]] + b[1..];
      }
    }
  }

  /** What stands before the first NUL. */
  ghost function UpToNul(s: Bytes): Bytes {
    if s == [] || s[0] == '\0' then [] else [s[0]] + UpToNul(s[1..])
  }

  /** Two spellings of one key: as far as their first NUL they differ in the case of letters only. */
  ghost predicate SameKey(a: Bytes, b: Bytes) {
    SameUpToCase(UpToNul(a), UpToNul(b))
  }

  lemma {:induction false} UpToNulIsCStr(s: Bytes)
    ensures UpToNul(s) == CStr(s)
  {
    if s != [] && s[0] != '\0' {
      var k := Find(s[1..], '\0', 0);
      UpToNulIsCStr(s[1..]);
      assert forall i | 0 <= i < k :: s[i + 1] == s[1..][i];
      assert forall i | 0 < i < k + 1 :: s[i] == s[1..][i - 1];
      assert Find(s, '\0', 0) == k + 1;
      assert s[..k + 1] == [s[0]] + s[1..][..k];
    }
  }

  lemma FoldIsKey(a: Bytes, b: Bytes)
    ensures Fold(a) == Fold(b) <==> SameKey(a, b)
  {
    UpToNulIsCStr(a);
    UpToNulIsCStr(b);
    LowerAllIsSame(CStr(a), CStr(b));
  }

  /** Small letters, '-' and '/' fold to themselves. */
  lemma FoldKeeps(s: Bytes)
    requires forall i | 0 <= i < |s| :: 'a' <= s[i] <= 'z' || s[i] in "-/"
    ensures Fold(s) == s && LowerAll(s) == s
  {
  }

  /** The comparator is a strict weak order, and two keys are one key to the map exactly when
      they agree up to case as far as their first NUL. */
  lemma ComparatorIsOrder(a: Bytes, b: Bytes, c: Bytes)
    ensures !CaseInsensitiveLess(a, a)
    ensures CaseInsensitiveLess(a, b) && CaseInsensitiveLess(b, c) ==> CaseInsensitiveLess(a, c)
    ensures !CaseInsensitiveLess(a, b) && !CaseInsensitiveLess(b, a) <==> SameKey(a, b)
  {
    hide Fold, SameKey;
    FoldIsKey(a, b);
    FoldedLessIsOrder(Fold(a), Fold(b), Fold(c));
    FoldedLessIsOrder(Fold(a), Fold(a), Fold(a));
  }

  /** The order is that of the alphabet: at the first place where the keys differ by more than case
      the lower-case characters decide, and a key comes before its own extensions. */
  ghost predicate DiffersAt(a: Bytes, b: Bytes, k: nat) {
    k <= |a| && k < |b| && a[..k] == b[..k] && (k == |a| || a[k] < b[k])
  }

  lemma {:induction false} FoldedLessIsLexicographic(a: Bytes, b: Bytes)
    ensures FoldedLess(a, b) <==> exists k: nat :: DiffersAt(a, b, k)
    decreases |a|
  {
    if b != [] && (a == [] || a[0] < b[0]) {
      assert DiffersAt(a, b, 0);
    } else if b != [] && a[0] == b[0] {
      FoldedLessIsLexicographic(a[1..], b[1..]);
      assert a == [a[0]] + a[1..] && b == [b[0]] + b[1..];
      if k: nat :| DiffersAt(a[1..], b[1..], k) {
        assert DiffersAt(a, b, k + 1);
      }
      if k: nat :| DiffersAt(a, b, k) {
        assert a[..k][1..] == a[1..][..k - 1] && b[..k][1..] == b[1..][..k - 1];
        assert DiffersAt(a[1..], b[1..], k - 1);
      }
    } else {
      forall k: nat ensures !DiffersAt(a, b, k) {
        if k > 0 && k <= |a| && k < |b| {
          assert a[..k][0] != b[..k][0];
        }
      }
    }
  }

  lemma ComparatorIsLexicographic(a: Bytes, b: Bytes)
    ensures CaseInsensitiveLess(a, b) <==> exists k: nat :: DiffersAt(LowerAll(UpToNul(a)), LowerAll(UpToNul(b)), k)
  {
    UpToNulIsCStr(a);
    UpToNulIsCStr(b);
    FoldedLessIsLexicographic(Fold(a), Fold(b));
  }

  /** A `std::map` with that comparator: for each folded key the spelling first stored and
      the value. */
  type ParamMap = map<Bytes, Pair>

  function Insert(m: ParamMap, p: Pair): ParamMap {
    if Fold(p.key) in m then m else m[Fold(p.key) := p]
  }

  /** `m[key] = value` */
  function Assign(m: ParamMap, key: Bytes, value: Bytes): ParamMap {
    var f := Fold(key);
    m[f := Pair(if f in m then m[f].key else key, value)]
  }

  function Erase(m: ParamMap, key: Bytes): ParamMap {
    m - {Fold(key)}
  }

  // ---------------------------------------------------------------- Trim

  predicate Blank(c: Byte) {
    c == ' ' || c == '\t' || c == '\r' || c == '\n'
  }

  function FirstNotBlank(s: Bytes): (k: nat)
    ensures k <= |s| && (forall i | 0 <= i < k :: Blank(s[i])) && (k < |s| ==> !Blank(s[k]))
  {
    if s == [] || !Blank(s[0]) then 0 else 1 + FirstNotBlank(s[1..])
  }

  /** One more than the place of the last character that is not blank, or 0. */
  function AfterLastNotBlank(s: Bytes): (k: nat)
    ensures k <= |s| && (forall i | k <= i < |s| :: Blank(s[i])) && (k > 0 ==> !Blank(s[k - 1]))
  {
    if s == [] || !Blank(s[|s| - 1]) then |s| else AfterLastNotBlank(s[..|s| - 1])
  }

  function Trim(s: Bytes): Bytes {
    var begin, end := FirstNotBlank(s), AfterLastNotBlank(s);
    if begin < end then s[begin..end] else []
  }

  ghost predicate Trimmed(s: Bytes) {
    s == [] || (s[0] !in " \t\r\n" && s[|s| - 1] !in " \t\r\n")
  }

  ghost predicate AllBlank(s: Bytes) {
    forall i | 0 <= i < |s| :: s[i] in " \t\r\n"
  }

  /** Trimming takes off exactly the blanks around a text. */
  lemma TrimTakesOffBlanks(left: Bytes, s: Bytes, right: Bytes)
    requires AllBlank(left) && AllBlank(right) && Trimmed(s)
    ensures Trim(left + s + right) == s && Trimmed(Trim(s))
  {
    var t := left + s + right;
    if s != [] {
      assert t[|left|] == s[0] && t[|left| + |s| - 1] == s[|s| - 1];
      assert FirstNotBlank(t) == |left|;
      assert AfterLastNotBlank(t) == |left| + |s|;
      assert t[|left|..|left| + |s|] == s;
      assert FirstNotBlank(s) == 0 && AfterLastNotBlank(s) == |s|;
    } else {
      assert forall i | 0 <= i < |t| :: Blank(t[i]);
    }
  }

  // ---------------------------------------------------------------- the grammar

  /** A key runs to the next '=', taking in any segments before it that have none; a value
      runs to the next separator; a tail without '=' is dropped. */
  function Segments(str: Bytes, sep: Byte): seq<Pair>
    decreases |str|
  {
    var e := Find(str, '=', 0);
    if e == |str| then []
    else
      var rest := str[e + 1..];
      var f := Find(rest, sep, 0);
      if f == |rest| then [Pair(str[..e], rest)]
      else [Pair(str[..e], rest[..f])] + Segments(rest[f + 1..], sep)
  }

  function Rendered(ps: seq<Pair>, sep: Byte): Bytes {
    if ps == [] then []
    else ps[0].key + ['='] + ps[0].value + (if |ps| == 1 then [] else [sep] + Rendered(ps[1..], sep))
  }

  ghost predicate Clean(ps: seq<Pair>, sep: Byte) {
    forall i | 0 <= i < |ps| :: '=' !in ps[i].key && sep !in ps[i].value
  }

  /** `str` is the pairs joined by the separator, or that followed by a tail without '='. */
  ghost predicate ReadsAs(str: Bytes, ps: seq<Pair>, sep: Byte, tail: Option<Bytes>) {
    && (tail.Some? ==> '=' !in tail.value)
    && str == Rendered(ps, sep) + (if tail.None? then [] else (if ps == [] then [] else [sep]) + tail.value)
  }

  lemma FindAfter(a: Bytes, c: Byte, b: Bytes)
    requires c !in a
    ensures Find(a + [c] + b, c, 0) == |a|
  {
    var s := a + [c] + b;
    assert s[|a|] == c;
    assert forall i | 0 <= i < |a| :: s[i] == a[i];
  }

  lemma FindNone(a: Bytes, c: Byte)
    ensures Find(a, c, 0) == |a| <==> c !in a
  {
  }

  lemma NoSegments(str: Bytes, sep: Byte)
    requires '=' !in str
    ensures Segments(str, sep) == []
  {
  }

  /** One pair and what follows its separator, if there is one. */
  ghost function OnePair(p: Pair, sep: Byte, more: Option<Bytes>): Bytes {
    p.key + ['='] + (p.value + if more.None? then [] else [sep] + more.value)
  }

  lemma SegmentsOfOnePair(p: Pair, sep: Byte, more: Option<Bytes>)
    requires sep != '=' && '=' !in p.key && sep !in p.value
    ensures Segments(OnePair(p, sep, more), sep) == [p] + (if more.None? then [] else Segments(more.value, sep))
  {
    var str, rest := OnePair(p, sep, more), p.value + if more.None? then [] else [sep] + more.value;
    FindAfter(p.key, '=', rest);
    assert str[..|p.key|] == p.key && str[|p.key| + 1..] == rest;
    if more.None? {
      FindNone(p.value, sep);
      assert rest == p.value;
    } else {
      assert rest == p.value + [sep] + more.value;
      FindAfter(p.value, sep, more.value);
      assert rest[..|p.value|] == p.value && rest[|p.value| + 1..] == more.value;
    }
  }

  /** The text behind the first pair of a reading. */
  ghost function Behind(ps: seq<Pair>, sep: Byte, tail: Option<Bytes>): Option<Bytes>
    requires ps != []
  {
    if |ps| == 1 then tail
    else Some(Rendered(ps[1..], sep) + (if tail.None? then [] else [sep] + tail.value))
  }

  lemma SplitFirst(str: Bytes, ps: seq<Pair>, sep: Byte, tail: Option<Bytes>)
    requires ps != [] && ReadsAs(str, ps, sep, tail)
    ensures str == OnePair(ps[0], sep, Behind(ps, sep, tail))
  {
  }

  lemma {:induction false} SegmentsOfReading(str: Bytes, ps: seq<Pair>, sep: Byte, tail: Option<Bytes>)
    requires sep != '=' && Clean(ps, sep) && ReadsAs(str, ps, sep, tail)
    ensures Segments(str, sep) == ps
    decreases |ps|
  {
    if ps == [] {
      FindNone(str, '=');
    } else {
      var more := Behind(ps, sep, tail);
      SplitFirst(str, ps, sep, tail);
      SegmentsOfOnePair(ps[0], sep, more);
      assert ps == [ps[0]] + ps[1..];
      if more.Some? {
        assert Clean(ps[1..], sep);
        SegmentsOfReading(more.value, ps[1..], sep, tail);
      }
    }
  }

  /** Every text reads as its segments. */
  lemma {:induction false} SegmentsRead(str: Bytes, sep: Byte) returns (tail: Option<Bytes>)
    requires sep != '='
    ensures Clean(Segments(str, sep), sep) && ReadsAs(str, Segments(str, sep), sep, tail)
    decreases |str|
  {
    hide Segments;
    var e := Find(str, '=', 0);
    if e == |str| {
      NoSegments(str, sep);
      tail := Some(str);
    } else {
      var rest := str[e + 1..];
      var f := Find(rest, sep, 0);
      var p := Pair(str[..e], rest[..f]);
      var more := if f == |rest| then None else Some(rest[f + 1..]);
      assert OnePair(p, sep, more) == str;
      SegmentsOfOnePair(p, sep, more);
      if more.None? {
        tail := None;
        ReadingOfOne(p, sep);
      } else {
        tail := SegmentsRead(more.value, sep);
        tail := ReadingOfMore(p, more.value, Segments(more.value, sep), sep, tail);
      }
    }
  }

  lemma ReadingOfOne(p: Pair, sep: Byte)
    ensures ReadsAs(OnePair(p, sep, None), [p], sep, None)
  {
  }

  lemma ReadingOfMore(p: Pair, more: Bytes, ps: seq<Pair>, sep: Byte, tail: Option<Bytes>) returns (tail': Option<Bytes>)
    requires '=' !in p.key && sep !in p.value && Clean(ps, sep) && ReadsAs(more, ps, sep, tail)
    ensures Clean([p] + ps, sep) && ReadsAs(OnePair(p, sep, Some(more)), [p] + ps, sep, tail')
  {
    tail' := if ps == [] then Some(more) else tail;
    ReadingGrows(p, more, ps, sep, tail');
  }

  lemma ReadingGrows(p: Pair, more: Bytes, ps: seq<Pair>, sep: Byte, tail: Option<Bytes>)
    requires ps != [] ==> ReadsAs(more, ps, sep, tail)
    requires ps == [] ==> tail == Some(more) && '=' !in more
    ensures ReadsAs(OnePair(p, sep, Some(more)), [p] + ps, sep, tail)
  {
  }

  /** The segments of a text are the one clean list of pairs the text reads as. */
  lemma SegmentsAreTheReading(str: Bytes, ps: seq<Pair>, sep: Byte)
    requires sep != '='
    ensures Segments(str, sep) == ps <==> Clean(ps, sep) && exists tail :: ReadsAs(str, ps, sep, tail)
  {
    if Segments(str, sep) == ps {
      var tail := SegmentsRead(str, sep);
    }
    if Clean(ps, sep) {
      if tail :| ReadsAs(str, ps, sep, tail) {
        SegmentsOfReading(str, ps, sep, tail);
      }
    }
  }

  // ---------------------------------------------------------------- the loop

  function Stored(p: Pair, trim: bool): Pair {
    Pair(if trim then Trim(p.key) else p.key, Decoded(p.value, true))
  }

  /** Each pair in turn is trimmed, decoded and inserted; the first of a key stays. */
  function InsertAll(m: ParamMap, ps: seq<Pair>, trim: bool): ParamMap
    decreases |ps|
  {
    if ps == [] then m else InsertAll(Insert(m, Stored(ps[0], trim)), ps[1..], trim)
  }

  /** `PARSE_PARAM(str, m, flag, trim)` */
  method ParseParam(str: Bytes, m: ParamMap, flag: Byte, trim: bool) returns (r: ParamMap)
    requires flag != '='
    ensures r == InsertAll(m, Segments(str, flag), trim)
  {
    hide Segments;
    hide InsertAll;
    r := m;
    var pos := 0;
    assert str[0..] == str;
    while true
      invariant 0 <= pos <= |str|
      invariant InsertAll(r, Segments(str[pos..], flag), trim) == InsertAll(m, Segments(str, flag), trim)
      decreases |str| - pos
    {
      var last := pos;
      ParseRound(str, last, flag);
      pos := Find(str, '=', pos);
      if pos == |str| {
        InsertNone(r, trim);
        break;
      }
      var key := pos;
      pos := Find(str, flag, pos);
      var decoded := UrlDecode(str[key + 1..pos], true);
      InsertOne(r, Pair(str[last..key], str[key + 1..pos]), if pos == |str| then [] else Segments(str[pos + 1..], flag), trim);
      r := Insert(r, Pair(if trim then Trim(str[last..key]) else str[last..key], decoded));
      if pos == |str| {
        InsertNone(r, trim);
        break;
      }
      pos := pos + 1;
    }
  }

  lemma InsertOne(m: ParamMap, p: Pair, ps: seq<Pair>, trim: bool)
    ensures InsertAll(m, [p] + ps, trim) == InsertAll(Insert(m, Stored(p, trim)), ps, trim)
  {
  }

  lemma InsertNone(m: ParamMap, trim: bool)
    ensures InsertAll(m, [], trim) == m
  {
  }

  /** One round of the loop takes off one segment. */
  lemma ParseRound(str: Bytes, last: nat, flag: Byte)
    requires last <= |str| && flag != '='
    ensures var key := Find(str, '=', last);
            if key == |str| then Segments(str[last..], flag) == []
            else
              var pos := Find(str, flag, key);
              && key < pos
              && Segments(str[last..], flag) ==
                 [Pair(str[last..key], str[key + 1..pos])] + (if pos == |str| then [] else Segments(str[pos + 1..], flag))
  {
    hide Segments;
    var key := Find(str, '=', last);
    if key == |str| {
      NoSegments(str[last..], flag);
    } else {
      var pos := Find(str, flag, key);
      var p := Pair(str[last..key], str[key + 1..pos]);
      var more := if pos == |str| then None else Some(str[pos + 1..]);
      assert str[last..] == OnePair(p, flag, more);
      SegmentsOfOnePair(p, flag, more);
    }
  }

  // ---------------------------------------------------------------- round trip

  /** The pairs with their values percent-encoded, as a client writes them. */
  function Escaped(ps: seq<Pair>, spaceAsPlus: bool): (r: seq<Pair>)
    ensures |r| == |ps|
    ensures forall i | 0 <= i < |ps| :: r[i] == Pair(ps[i].key, Encoded(ps[i].value, spaceAsPlus))
  {
    seq(|ps|, i requires 0 <= i < |ps| => Pair(ps[i].key, Encoded(ps[i].value, spaceAsPlus)))
  }

  /** The place of the first pair with this key, up to case. */
  function FirstWith(ps: seq<Pair>, f: Bytes, trim: bool): (k: nat)
    ensures k <= |ps|
  {
    if ps == [] || Fold(if trim then Trim(ps[0].key) else ps[0].key) == f then 0 else 1 + FirstWith(ps[1..], f, trim)
  }

  /** A map that had the key keeps it; otherwise the first pair with the key decides. */
  lemma {:induction false} InsertAllIsFirstWins(m: ParamMap, ps: seq<Pair>, trim: bool, f: Bytes)
    ensures var r, k := InsertAll(m, ps, trim), FirstWith(ps, f, trim);
            && (f in r <==> f in m || k < |ps|)
            && (f in m ==> r[f] == m[f])
            && (f !in m && k < |ps| ==> r[f] == Stored(ps[k], trim))
    decreases |ps|
  {
    if ps != [] {
      InsertAllIsFirstWins(Insert(m, Stored(ps[0], trim)), ps[1..], trim, f);
    }
  }

  lemma {:induction false} FirstWithEscaped(ps: seq<Pair>, spaceAsPlus: bool, f: Bytes, trim: bool)
    ensures FirstWith(Escaped(ps, spaceAsPlus), f, trim) == FirstWith(ps, f, trim)
  {
    if ps != [] {
      assert Escaped(ps, spaceAsPlus)[1..] == Escaped(ps[1..], spaceAsPlus);
      FirstWithEscaped(ps[1..], spaceAsPlus, f, trim);
    }
  }

  lemma EscapedIsClean(ps: seq<Pair>, sep: Byte, spaceAsPlus: bool)
    requires sep in {'&', ';'} && forall i | 0 <= i < |ps| :: '=' !in ps[i].key
    ensures Clean(Escaped(ps, spaceAsPlus), sep)
  {
    forall i | 0 <= i < |ps| ensures sep !in Escaped(ps, spaceAsPlus)[i].value {
      EncodedAlphabet(ps[i].value, spaceAsPlus);
    }
  }

  /** Joining key, '=' and encoded value with the separator and parsing the text into an
      empty map gives exactly the first-wins, case-insensitive map of the list, with the
      values as they were, for every list whose keys have no '='. It holds for '&' without
      trimming, for ';' with it, and for both ways of writing spaces. */
  lemma ParameterRoundTrip(ps: seq<Pair>, sep: Byte, trim: bool, spaceAsPlus: bool, f: Bytes)
    requires sep in {'&', ';'} && forall i | 0 <= i < |ps| :: '=' !in ps[i].key
    ensures var r := InsertAll(map[], Segments(Rendered(Escaped(ps, spaceAsPlus), sep), sep), trim);
            var k := FirstWith(ps, f, trim);
            && (f in r <==> k < |ps|)
            && (k < |ps| ==> r[f] == Pair(if trim then Trim(ps[k].key) else ps[k].key, ps[k].value))
  {
    var es := Escaped(ps, spaceAsPlus);
    EscapedIsClean(ps, sep, spaceAsPlus);
    SegmentsOfReading(Rendered(es, sep), es, sep, None);
    InsertAllIsFirstWins(map[], es, trim, f);
    FirstWithEscaped(ps, spaceAsPlus, f, trim);
    var k := FirstWith(ps, f, trim);
    if k < |ps| {
      DecodeUndoesEncode(ps[k].value, spaceAsPlus, true);
    }
  }
}
