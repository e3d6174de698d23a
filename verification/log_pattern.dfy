/** The log pattern compiler of sylar/logger.cpp: `Formatter::parsePattern` and `Formatter::log`. */
module LogPattern {
  import opened Wrappers
  import opened ByteStrings

  const DEFAULT_FORMAT: Bytes := "%F %T"

  /** The letters `getItemfunction` knows. */
  predicate IsItem(c: Byte) {
    c in "dprtlcMFLmnfT"
  }

  /** An entry of `logmsg`: the text of the pattern and the item it stands for, if any. */
  datatype Token = Token(text: Bytes, item: Option<Byte>)

  // ---------------------------------------------------------------- the scan

  predicate DateAt(p: Bytes, i: nat) {
    i + 2 < |p| && p[i] == '%' && p[i + 1] == 'd' && p[i + 2] == '{'
  }

  /** The guard under which the jump of a "%d{" at `i` goes forward: the first '}' of the whole
      pattern is there and behind `i`. */
  predicate BraceBehind(p: Bytes, i: nat) {
    i < Find(p, '}', 0) < |p|
  }

  /** Where the loop goes from `i`. Without any '}' the place found is npos, and one more is 0. */
  function Next(p: Bytes, i: nat): (j: nat)
    requires i < |p|
    ensures j <= |p|
  {
    if p[i] != '%' || i + 1 == |p| then i + 1
    else if DateAt(p, i) then (if Find(p, '}', 0) == |p| then 0 else Find(p, '}', 0) + 1)
    else i + 2
  }

  /** Where the loop is after `n` rounds. */
  function At(p: Bytes, n: nat): nat {
    if n == 0 then 0
    else
      var i := At(p, n - 1);
      if i < |p| then Next(p, i) else i
  }

  ghost predicate Halts(p: Bytes) {
    exists n :: At(p, n) >= |p|
  }

  /** From `i` on, every "%d{" the scan reaches has the pattern's first '}' behind it. */
  predicate DatesClosed(p: Bytes, i: nat)
    decreases |p| - i
  {
    i >= |p| || ((DateAt(p, i) ==> BraceBehind(p, i)) && DatesClosed(p, Next(p, i)))
  }

  lemma {:induction false} ClosedHalts(p: Bytes, n: nat)
    requires DatesClosed(p, At(p, n))
    ensures Halts(p)
    decreases |p| - At(p, n)
  {
    if At(p, n) < |p| {
      assert At(p, n + 1) == Next(p, At(p, n));
      ClosedHalts(p, n + 1);
    }
  }

  /** The rounds before the `n`-th met no unclosed date and did not reach the end. */
  ghost predicate Forward(p: Bytes, n: nat) {
    forall m | 0 <= m < n :: At(p, m) < |p| && (DateAt(p, At(p, m)) ==> BraceBehind(p, At(p, m)))
  }

  /** Moving forward, the scan cannot pass the place behind the first '}' without stopping there:
      a two-character step ends there, a jump lands there. */
  lemma {:induction false} StopsBehindBrace(p: Bytes, n: nat) returns (m: nat)
    requires Forward(p, n) && Find(p, '}', 0) < |p| && At(p, n) > Find(p, '}', 0)
    ensures m <= n && At(p, m) == Find(p, '}', 0) + 1
  {
    var k := Find(p, '}', 0);
    if At(p, n - 1) > k {
      m := StopsBehindBrace(p, n - 1);
    } else {
      m := n;
      assert At(p, n) == Next(p, At(p, n - 1));
    }
  }

  /** Two rounds at the same place: the scan goes round for ever. */
  lemma {:induction false} SameAgain(p: Bytes, m: nat, n: nat, s: nat)
    requires At(p, n) == At(p, m)
    ensures At(p, n + s) == At(p, m + s)
  {
    if s > 0 {
      SameAgain(p, m, n, s - 1);
    }
  }

  lemma {:induction false} GoesRound(p: Bytes, m: nat, n: nat, t: nat)
    requires m < n && At(p, n) == At(p, m) && forall j | 0 <= j < n :: At(p, j) < |p|
    ensures At(p, t) < |p|
  {
    if t >= n {
      SameAgain(p, m, n, t - n);
      GoesRound(p, m, n, m + (t - n));
    }
  }

  /** An unclosed date sends the scan back to a place it has been at. */
  lemma UnclosedGoesBack(p: Bytes, n: nat) returns (m: nat)
    requires Forward(p, n) && At(p, n) < |p| && DateAt(p, At(p, n)) && !BraceBehind(p, At(p, n))
    ensures m <= n && At(p, n + 1) == At(p, m)
  {
    var i, k := At(p, n), Find(p, '}', 0);
    assert At(p, n + 1) == Next(p, i);
    if k == |p| {
      m := 0;
    } else {
      assert k != i;
      m := StopsBehindBrace(p, n);
    }
  }

  lemma {:induction false} UnclosedRuns(p: Bytes, n: nat, t: nat)
    requires Forward(p, n) && !DatesClosed(p, At(p, n))
    ensures At(p, t) < |p|
    decreases |p| - At(p, n)
  {
    var i := At(p, n);
    if DateAt(p, i) && !BraceBehind(p, i) {
      var m := UnclosedGoesBack(p, n);
      assert forall j | 0 <= j < n + 1 :: At(p, j) < |p|;
      GoesRound(p, m, n + 1, t);
    } else {
      assert At(p, n + 1) == Next(p, i);
      UnclosedRuns(p, n + 1, t);
    }
  }

  /** The loop ends exactly when every "%d{" it reaches has the pattern's first '}' behind it. */
  lemma HaltsIffClosed(p: Bytes)
    ensures Halts(p) <==> DatesClosed(p, 0)
  {
    assert At(p, 0) == 0;
    if DatesClosed(p, 0) {
      ClosedHalts(p, 0);
    } else {
      forall t ensures At(p, t) < |p| {
        UnclosedRuns(p, 0, t);
      }
    }
  }

  /** Two date formats in one pattern are one too many. */
  lemma TwoDatesRun()
    ensures !Halts("%d{%F}%d{%T}")
  {
    var p: Bytes := "%d{%F}%d{%T}";
    HaltsIffClosed(p);
    assert Find(p, '}', 0) == 5;
    assert Next(p, 0) == 6 && DateAt(p, 6) && !BraceBehind(p, 6);
  }

  // ---------------------------------------------------------------- what is compiled

  function TokenAt(p: Bytes, i: nat): Token
    requires i < |p|
  {
    if p[i] != '%' || i + 1 == |p| then Token([p[i]], None)
    else Token([p[i], p[i + 1]], if IsItem(p[i + 1]) then Some(p[i + 1]) else None)
  }

  /** `substr(i + 3, pos - i - 3)`, whose count wraps round when the brace is not behind. */
  function FormatAt(p: Bytes, i: nat): Bytes
    requires DateAt(p, i)
  {
    var k := Find(p, '}', 0);
    if i + 3 <= k < |p| then p[i + 3..k] else p[i + 3..]
  }

  function Tokens(p: Bytes, i: nat): seq<Token>
    requires DatesClosed(p, i)
    decreases |p| - i
  {
    if i >= |p| then [] else [TokenAt(p, i)] + Tokens(p, Next(p, i))
  }

  /** The date format after the scan, `format` being the one before it. */
  function Format(p: Bytes, i: nat, format: Bytes): Bytes
    requires DatesClosed(p, i)
    decreases |p| - i
  {
    if i >= |p| then format else Format(p, Next(p, i), if DateAt(p, i) then FormatAt(p, i) else format)
  }

  /** Which token stood before a date format; -1 if none did. */
  function Place(p: Bytes, i: nat): int
    requires DatesClosed(p, i)
    decreases |p| - i
  {
    if i >= |p| then -1
    else if DateAt(p, i) then 0
    else
      var k := Place(p, Next(p, i));
      if k < 0 then -1 else k + 1
  }

  /** How many dates with a format the scan meets. */
  function Dates(p: Bytes, i: nat): nat
    requires DatesClosed(p, i)
    decreases |p| - i
  {
    if i >= |p| then 0 else (if DateAt(p, i) then 1 else 0) + Dates(p, Next(p, i))
  }

  lemma {:induction false} NoDateBehindBrace(p: Bytes, i: nat, format: Bytes)
    requires DatesClosed(p, i) && i > Find(p, '}', 0)
    ensures Dates(p, i) == 0 && Place(p, i) == -1 && Format(p, i, format) == format
    decreases |p| - i
  {
    if i < |p| {
      NoDateBehindBrace(p, Next(p, i), format);
    }
  }

  /** A pattern that compiles has at most one. */
  lemma {:induction false} OneDateFormat(p: Bytes, i: nat)
    requires DatesClosed(p, i)
    ensures Dates(p, i) <= 1 && (Dates(p, i) == 1 <==> Place(p, i) >= 0)
    decreases |p| - i
  {
    if i < |p| {
      if DateAt(p, i) {
        NoDateBehindBrace(p, Next(p, i), []);
      } else {
        OneDateFormat(p, Next(p, i));
      }
    }
  }

  /** The tokens with the format put back behind one of them. */
  function Rebuilt(ts: seq<Token>, place: int, format: Bytes): Bytes {
    if ts == [] then []
    else ts[0].text + (if place == 0 then "{" + format + "}" else []) + Rebuilt(ts[1..], place - 1, format)
  }

  lemma {:induction false} NothingPutBack(ts: seq<Token>, place: int, format: Bytes, other: int)
    requires place < 0 && other < 0
    ensures Rebuilt(ts, place, format) == Rebuilt(ts, other, format)
  {
    if ts != [] {
      NothingPutBack(ts[1..], place - 1, format, other - 1);
    }
  }

  /** Where a closed date ends, and its format. */
  lemma DateSpan(p: Bytes, i: nat)
    requires DateAt(p, i) && BraceBehind(p, i)
    ensures var k := Find(p, '}', 0);
            i + 3 <= k && p[k] == '}' && Next(p, i) == k + 1 && FormatAt(p, i) == p[i + 3..k]
    ensures TokenAt(p, i) == Token([p[i], p[i + 1]], Some('d'))
  {
  }

  lemma Cut(p: Bytes, i: nat, k: nat)
    requires i + 3 <= k < |p|
    ensures p[i..] == [p[i], p[i + 1]] + ([p[i + 2]] + p[i + 3..k] + [p[k]]) + p[k + 1..]
  {
  }

  lemma DateText(p: Bytes, i: nat)
    requires DateAt(p, i) && BraceBehind(p, i)
    ensures p[i..] == TokenAt(p, i).text + ("{" + FormatAt(p, i) + "}") + p[Next(p, i)..]
  {
    hide FormatAt, TokenAt, Next;
    DateSpan(p, i);
    Cut(p, i, Find(p, '}', 0));
  }

  lemma PlainText(p: Bytes, i: nat)
    requires i < |p| && !DateAt(p, i)
    ensures p[i..] == TokenAt(p, i).text + p[Next(p, i)..]
  {
  }

  /** Nothing of the pattern is lost: tokens and date format make it up again. */
  lemma {:induction false} TokensRebuild(p: Bytes, i: nat, format: Bytes)
    requires DatesClosed(p, i) && i <= |p|
    ensures Rebuilt(Tokens(p, i), Place(p, i), Format(p, i, format)) == p[i..]
    decreases |p| - i
  {
    hide TokenAt, FormatAt, BraceBehind;
    if i < |p| {
      var j := Next(p, i);
      assert Tokens(p, i)[1..] == Tokens(p, j);
      if DateAt(p, i) {
        DateText(p, i);
        var f := FormatAt(p, i);
        NoDateBehindBrace(p, j, f);
        TokensRebuild(p, j, f);
      } else {
        PlainText(p, i);
        TokensRebuild(p, j, format);
        if Place(p, j) < 0 {
          NothingPutBack(Tokens(p, j), -1, Format(p, i, format), -2);
        }
      }
    }
  }

  // ---------------------------------------------------------------- what it means

  /** What the items read; numbers as the text `operator<<` makes of them. */
  datatype Event = Event(
    content: Bytes,
    file: Bytes,
    line: Bytes,
    func: Bytes,
    threadId: Bytes,
    threadName: Bytes,
    fiberId: Bytes,
    elapsed: Bytes,
    loggerName: Bytes,
    levelName: Bytes,
    levelNumber: Bytes,
    time: Bytes -> Bytes
  )

  /** What the item of a letter writes. */
  function Shown(c: Byte, e: Event, format: Bytes): Bytes {
    match c
    case 'd' => e.time(format)
    case 'p' => e.levelName
    case 'r' => e.elapsed + "s"
    case 't' => e.threadId
    case 'l' => "[" + e.file + ":" + e.line + " (" + e.func + ")][" + e.levelNumber + "] - " + e.content
    case 'c' => e.loggerName
    case 'M' => e.func
    case 'F' => e.file
    case 'L' => e.line
    case 'm' => e.content
    case 'n' => "\n"
    case 'f' => e.fiberId
    case 'T' => e.threadName
    case _ => []
  }

  function RenderedToken(t: Token, e: Event, format: Bytes): Bytes {
    if t.item.Some? then Shown(t.item.value, e, format) else t.text
  }

  function Rendered(ts: seq<Token>, e: Event, format: Bytes): Bytes {
    if ts == [] then [] else RenderedToken(ts[0], e, format) + Rendered(ts[1..], e, format)
  }

  /** The pattern read from left to right on its own text: a "%d{" takes in all up to the next '}'
      behind it, other letters behind '%' are items or stand for themselves. */
  function Meaning(s: Bytes, e: Event, format: Bytes): Bytes
    decreases |s|
  {
    if s == [] then []
    else if s[0] != '%' || |s| == 1 then [s[0]] + Meaning(s[1..], e, format)
    else if DateAt(s, 0) && '}' in s then Shown('d', e, format) + Meaning(s[Find(s, '}', 0) + 1..], e, format)
    else if IsItem(s[1]) then Shown(s[1], e, format) + Meaning(s[2..], e, format)
    else s[..2] + Meaning(s[2..], e, format)
  }

  /** The last date format in that reading. */
  function MeantFormat(s: Bytes, format: Bytes): Bytes
    decreases |s|
  {
    if s == [] then format
    else if s[0] != '%' || |s| == 1 then MeantFormat(s[1..], format)
    else if DateAt(s, 0) && '}' in s then MeantFormat(s[Find(s, '}', 0) + 1..], s[3..Find(s, '}', 0)])
    else MeantFormat(s[2..], format)
  }

  lemma DateInSuffix(p: Bytes, i: nat)
    requires DateAt(p, i) && BraceBehind(p, i)
    ensures var s := p[i..]; var k := Find(s, '}', 0);
            DateAt(s, 0) && '}' in s && k < |s| && s[k + 1..] == p[Next(p, i)..] && s[3..k] == FormatAt(p, i)
  {
  }

  lemma DateMeans(p: Bytes, i: nat, e: Event, format: Bytes, before: Bytes)
    requires DateAt(p, i) && BraceBehind(p, i)
    ensures Meaning(p[i..], e, format) == RenderedToken(TokenAt(p, i), e, format) + Meaning(p[Next(p, i)..], e, format)
    ensures MeantFormat(p[i..], before) == MeantFormat(p[Next(p, i)..], FormatAt(p, i))
  {
    hide Shown, FormatAt, TokenAt, Next, BraceBehind;
    DateSpan(p, i);
    DateInSuffix(p, i);
  }

  lemma PlainMeans(p: Bytes, i: nat, e: Event, format: Bytes, before: Bytes)
    requires i < |p| && !DateAt(p, i)
    ensures Meaning(p[i..], e, format) == RenderedToken(TokenAt(p, i), e, format) + Meaning(p[Next(p, i)..], e, format)
    ensures MeantFormat(p[i..], before) == MeantFormat(p[Next(p, i)..], before)
  {
  }

  /** Compiling keeps the meaning, and the format found is the one meant. */
  lemma {:induction false} CompiledMeans(p: Bytes, i: nat, e: Event, format: Bytes, before: Bytes)
    requires DatesClosed(p, i) && i <= |p|
    ensures Rendered(Tokens(p, i), e, format) == Meaning(p[i..], e, format)
    ensures Format(p, i, before) == MeantFormat(p[i..], before)
    decreases |p| - i
  {
    hide RenderedToken, TokenAt, FormatAt;
    if i < |p| {
      var j := Next(p, i);
      assert Tokens(p, i)[1..] == Tokens(p, j);
      if DateAt(p, i) {
        DateMeans(p, i, e, format, before);
        CompiledMeans(p, j, e, format, FormatAt(p, i));
      } else {
        PlainMeans(p, i, e, format, before);
        CompiledMeans(p, j, e, format, before);
      }
    }
  }

  // ---------------------------------------------------------------- letter by letter

  /** Reading comes to the end of the text: no "%d{" is left open and no '%' stands alone there. */
  ghost predicate Whole(s: Bytes)
    decreases |s|
  {
    if s == [] then true
    else if s[0] != '%' then Whole(s[1..])
    else if |s| == 1 then false
    else if DateAt(s, 0) then '}' in s && Whole(s[Find(s, '}', 0) + 1..])
    else Whole(s[2..])
  }

  lemma FindInFirst(a: Bytes, b: Bytes)
    requires '}' in a
    ensures Find(a + b, '}', 0) == Find(a, '}', 0) < |a| && (a + b)[Find(a, '}', 0) + 1..] == a[Find(a, '}', 0) + 1..] + b
    ensures '}' in a + b && a[..Find(a, '}', 0)] == (a + b)[..Find(a, '}', 0)]
  {
    var k := Find(a, '}', 0);
    assert forall i | 0 <= i < |a| :: (a + b)[i] == a[i];
  }

  lemma DateInFirst(a: Bytes, b: Bytes)
    requires a != [] && a[0] == '%' && |a| > 1 && (b == [] || b[0] != '{')
    ensures DateAt(a + b, 0) <==> DateAt(a, 0)
  {
    if |a| == 2 && b != [] {
      assert (a + b)[2] == b[0];
    }
  }

  /** Before `b` as alone, reading takes `piece` from the front of `a` and goes on with `rest`. */
  ghost predicate TakesOff(a: Bytes, b: Bytes, piece: Bytes, rest: Bytes, e: Event, format: Bytes) {
    && Meaning(a, e, format) == piece + Meaning(rest, e, format)
    && Meaning(a + b, e, format) == piece + Meaning(rest + b, e, format)
  }

  ghost predicate FormatsTaken(a: Bytes, b: Bytes, rest: Bytes, before: Bytes, next: Bytes) {
    MeantFormat(a, before) == MeantFormat(rest, next) && MeantFormat(a + b, before) == MeantFormat(rest + b, next)
  }

  lemma TakesCharacter(a: Bytes, b: Bytes, e: Event, format: Bytes, before: Bytes)
    requires a != [] && a[0] != '%'
    ensures TakesOff(a, b, [a[0]], a[1..], e, format) && FormatsTaken(a, b, a[1..], before, before)
  {
    hide Shown, IsItem;
    assert (a + b)[1..] == a[1..] + b;
  }

  lemma TakesPair(a: Bytes, b: Bytes, e: Event, format: Bytes, before: Bytes)
    requires |a| > 1 && a[0] == '%' && !DateAt(a, 0) && (b == [] || b[0] != '{')
    ensures TakesOff(a, b, if IsItem(a[1]) then Shown(a[1], e, format) else a[..2], a[2..], e, format)
    ensures FormatsTaken(a, b, a[2..], before, before)
  {
    hide Shown, IsItem;
    DateInFirst(a, b);
    assert (a + b)[2..] == a[2..] + b && (a + b)[..2] == a[..2] && (a + b)[1] == a[1];
  }

  lemma TakesDate(a: Bytes, b: Bytes, k: nat, e: Event, format: Bytes, before: Bytes)
    requires DateAt(a, 0) && '}' in a && 3 <= k < |a| && Find(a, '}', 0) == k
    ensures TakesOff(a, b, Shown('d', e, format), a[k + 1..], e, format)
    ensures FormatsTaken(a, b, a[k + 1..], before, a[3..k])
  {
    FindInFirst(a, b);
    DateStays(a, b, k);
    hide Shown, IsItem, Find, Meaning, MeantFormat, DateAt;
    DateTakenOff(a, k, e, format, before);
    DateTakenOff(a + b, k, e, format, before);
  }

  lemma DateStays(a: Bytes, b: Bytes, k: nat)
    requires DateAt(a, 0) && 3 <= k <= |a|
    ensures DateAt(a + b, 0) && (a + b)[3..k] == a[3..k]
  {
  }

  lemma DateTakenOff(s: Bytes, k: nat, e: Event, format: Bytes, before: Bytes)
    requires DateAt(s, 0) && '}' in s && 3 <= k < |s| && Find(s, '}', 0) == k
    ensures Meaning(s, e, format) == Shown('d', e, format) + Meaning(s[k + 1..], e, format)
    ensures MeantFormat(s, before) == MeantFormat(s[k + 1..], s[3..k])
  {
    hide Shown, IsItem;
  }

  /** A text that reading comes to the end of means the same before any other. */
  lemma {:induction false} MeaningSplits(a: Bytes, b: Bytes, e: Event, format: Bytes, before: Bytes)
    requires Whole(a) && (b == [] || b[0] != '{')
    ensures Meaning(a + b, e, format) == Meaning(a, e, format) + Meaning(b, e, format)
    ensures MeantFormat(a + b, before) == MeantFormat(b, MeantFormat(a, before))
    decreases |a|
  {
    if a == [] {
      assert a + b == b;
      return;
    }
    WholeFurther(a);
    hide Meaning, MeantFormat, TakesOff, FormatsTaken, Shown, IsItem, Whole;
    if a[0] != '%' {
      TakesCharacter(a, b, e, format, before);
      MeaningSplits(a[1..], b, e, format, before);
      SplitsFurther(a, b, [a[0]], a[1..], e, format, before, before);
    } else if DateAt(a, 0) {
      var k := Find(a, '}', 0);
      BraceIsBehind(a);
      TakesDate(a, b, k, e, format, before);
      MeaningSplits(a[k + 1..], b, e, format, a[3..k]);
      SplitsFurther(a, b, Shown('d', e, format), a[k + 1..], e, format, before, a[3..k]);
    } else {
      TakesPair(a, b, e, format, before);
      MeaningSplits(a[2..], b, e, format, before);
      SplitsFurther(a, b, if IsItem(a[1]) then Shown(a[1], e, format) else a[..2], a[2..], e, format, before, before);
    }
  }

  lemma BraceIsBehind(s: Bytes)
    requires DateAt(s, 0) && '}' in s
    ensures 3 <= Find(s, '}', 0) < |s|
  {
  }

  lemma WholeFurther(a: Bytes)
    requires Whole(a) && a != []
    ensures a[0] != '%' ==> Whole(a[1..])
    ensures a[0] == '%' ==> |a| > 1 && (if DateAt(a, 0) then '}' in a && Whole(a[Find(a, '}', 0) + 1..]) else Whole(a[2..]))
  {
  }

  lemma SplitsFurther(a: Bytes, b: Bytes, piece: Bytes, rest: Bytes, e: Event, format: Bytes, before: Bytes, next: Bytes)
    requires TakesOff(a, b, piece, rest, e, format) && FormatsTaken(a, b, rest, before, next)
    requires Meaning(rest + b, e, format) == Meaning(rest, e, format) + Meaning(b, e, format)
    requires MeantFormat(rest + b, next) == MeantFormat(b, MeantFormat(rest, next))
    ensures Meaning(a + b, e, format) == Meaning(a, e, format) + Meaning(b, e, format)
    ensures MeantFormat(a + b, before) == MeantFormat(b, MeantFormat(a, before))
  {
    hide Meaning, MeantFormat;
  }

  /** Between any two texts, '%' and the letter `c` write `text`. */
  ghost predicate Writes(c: Byte, text: Bytes, left: Bytes, right: Bytes, e: Event, format: Bytes) {
    Meaning(left + ['%', c] + right, e, format) == Meaning(left, e, format) + text + Meaning(right, e, format)
  }

  ghost function Combined(e: Event): Bytes {
    "[" + e.file + ":" + e.line + " (" + e.func + ")][" + e.levelNumber + "] - " + e.content
  }

  lemma ItemWrites(c: Byte, text: Bytes, left: Bytes, right: Bytes, e: Event, format: Bytes)
    requires Whole(left) && (c == 'd' ==> right == [] || right[0] != '{')
    requires text == if IsItem(c) then Shown(c, e, format) else ['%', c]
    ensures Writes(c, text, left, right, e, format)
  {
    hide Shown, IsItem, Whole, Meaning;
    var item := ['%', c] + right;
    assert left + ['%', c] + right == left + item && item[2..] == right && item[..2] == ['%', c];
    assert !DateAt(item, 0) by {
      if |item| > 2 {
        assert item[2] == right[0];
      }
    }
    MeaningSplits(left, item, e, format, []);
    TakesPair(item, [], e, format, []);
  }

  lemma AreItems()
    ensures IsItem('d') && IsItem('p') && IsItem('r') && IsItem('t') && IsItem('l') && IsItem('c') && IsItem('M')
    ensures IsItem('F') && IsItem('L') && IsItem('m') && IsItem('n') && IsItem('f') && IsItem('T')
  {
  }

  lemma ItemsShow(e: Event, format: Bytes)
    ensures Shown('p', e, format) == e.levelName && Shown('r', e, format) == e.elapsed + "s"
    ensures Shown('t', e, format) == e.threadId && Shown('l', e, format) == Combined(e)
    ensures Shown('c', e, format) == e.loggerName && Shown('M', e, format) == e.func
    ensures Shown('F', e, format) == e.file && Shown('L', e, format) == e.line
    ensures Shown('m', e, format) == e.content && Shown('n', e, format) == "\n"
    ensures Shown('f', e, format) == e.fiberId && Shown('T', e, format) == e.threadName
    ensures Shown('d', e, format) == e.time(format)
  {
  }

  /** What each letter writes, wherever it stands: its own field of the event. */
  lemma LettersWriteTheirFields(left: Bytes, right: Bytes, e: Event, format: Bytes)
    requires Whole(left)
    ensures Writes('p', e.levelName, left, right, e, format)
    ensures Writes('r', e.elapsed + "s", left, right, e, format)
    ensures Writes('t', e.threadId, left, right, e, format)
    ensures Writes('l', Combined(e), left, right, e, format)
    ensures Writes('c', e.loggerName, left, right, e, format)
    ensures Writes('M', e.func, left, right, e, format)
    ensures Writes('F', e.file, left, right, e, format)
    ensures Writes('L', e.line, left, right, e, format)
    ensures Writes('m', e.content, left, right, e, format)
    ensures Writes('n', "\n", left, right, e, format)
    ensures Writes('f', e.fiberId, left, right, e, format)
    ensures Writes('T', e.threadName, left, right, e, format)
    ensures right == [] || right[0] != '{' ==> Writes('d', e.time(format), left, right, e, format)
  {
    ItemsShow(e, format);
    AreItems();
    hide Writes, Whole, Combined, Shown, IsItem;
    ItemWrites('p', e.levelName, left, right, e, format);
    ItemWrites('r', e.elapsed + "s", left, right, e, format);
    ItemWrites('t', e.threadId, left, right, e, format);
    ItemWrites('l', Combined(e), left, right, e, format);
    ItemWrites('c', e.loggerName, left, right, e, format);
    ItemWrites('M', e.func, left, right, e, format);
    ItemWrites('F', e.file, left, right, e, format);
    ItemWrites('L', e.line, left, right, e, format);
    ItemWrites('m', e.content, left, right, e, format);
    ItemWrites('n', "\n", left, right, e, format);
    ItemWrites('f', e.fiberId, left, right, e, format);
    ItemWrites('T', e.threadName, left, right, e, format);
    if right == [] || right[0] != '{' {
      ItemWrites('d', e.time(format), left, right, e, format);
    }
  }

  /** Everything else stands for itself: other letters behind '%', characters without one, and a '%' at
      the end. */
  lemma OthersWriteThemselves(c: Byte, left: Bytes, right: Bytes, e: Event, format: Bytes)
    requires Whole(left)
    ensures c !in "dprtlcMFLmnfT" ==> Writes(c, ['%', c], left, right, e, format)
    ensures c !in "%{" ==> Meaning(left + [c] + right, e, format) == Meaning(left, e, format) + [c] + Meaning(right, e, format)
    ensures Meaning(left + "%", e, format) == Meaning(left, e, format) + "%"
  {
    if c !in "dprtlcMFLmnfT" {
      ItemWrites(c, ['%', c], left, right, e, format);
    }
    if c !in "%{" {
      CharacterWrites(c, left, right, e, format);
    }
    MeaningSplits(left, "%", e, format, []);
    hide Whole, Shown;
  }

  lemma CharacterWrites(c: Byte, left: Bytes, right: Bytes, e: Event, format: Bytes)
    requires Whole(left) && c != '%' && c != '{'
    ensures Meaning(left + [c] + right, e, format) == Meaning(left, e, format) + [c] + Meaning(right, e, format)
  {
    var more := [c] + right;
    assert left + [c] + right == left + more && more[1..] == right;
    MeaningSplits(left, more, e, format, []);
    TakesCharacter(more, [], e, format, []);
    hide Meaning, Whole;
  }

  /** A date with a format of its own is written like any other date; its format is the one meant from
      there on. */
  lemma DatesSetTheFormat(left: Bytes, own: Bytes, right: Bytes, e: Event, format: Bytes, before: Bytes)
    requires Whole(left) && '}' !in own
    ensures Meaning(left + "%d{" + own + "}" + right, e, format)
         == Meaning(left, e, format) + e.time(format) + Meaning(right, e, format)
    ensures MeantFormat(left + "%d{" + own + "}" + right, before) == MeantFormat(right, own)
  {
    var date := "%d{" + own + "}" + right;
    var k := |own| + 3;
    assert date[k] == '}' && (forall i | 3 <= i < k :: date[i] == own[i - 3]);
    assert date[0] == '%' && date[1] == 'd' && date[2] == '{';
    assert Find(date, '}', 0) == k && date[k + 1..] == right && date[3..k] == own;
    assert left + "%d{" + own + "}" + right == left + date;
    MeaningSplits(left, date, e, format, before);
  }

  // ---------------------------------------------------------------- the class

  /** One round of the scan. */
  lemma ScanRound(p: Bytes, i: nat, format: Bytes)
    requires i < |p| && DatesClosed(p, i)
    ensures i < Next(p, i) && DatesClosed(p, Next(p, i))
    ensures Tokens(p, i) == [TokenAt(p, i)] + Tokens(p, Next(p, i))
    ensures Format(p, i, format) == Format(p, Next(p, i), if DateAt(p, i) then FormatAt(p, i) else format)
    ensures DateAt(p, i) ==> BraceBehind(p, i)
  {
  }

  lemma ScanEnds(p: Bytes, i: nat, format: Bytes)
    requires i == |p|
    ensures DatesClosed(p, i) && Tokens(p, i) == [] && Format(p, i, format) == format
  {
  }

  class Formatter {
    var pattern: Bytes
    var logmsg: seq<Token>
    var timeFormat: Bytes

    /** Without the condition the constructor does not come back. */
    constructor (pattern: Bytes)
      requires DatesClosed(pattern, 0)
      ensures this.pattern == pattern
      ensures logmsg == Tokens(pattern, 0) && timeFormat == Format(pattern, 0, DEFAULT_FORMAT)
    {
      this.pattern := pattern;
      logmsg := [];
      timeFormat := DEFAULT_FORMAT;
      new;
      ParsePattern();
    }

    /** Called a second time it appends the tokens again. */
    method ParsePattern()
      requires DatesClosed(pattern, 0)
      modifies this`logmsg, this`timeFormat
      ensures logmsg == old(logmsg) + Tokens(pattern, 0)
      ensures timeFormat == Format(pattern, 0, old(timeFormat))
    {
      hide IsItem, DatesClosed, Tokens, Format, BraceBehind, FormatAt;
      var i := 0;
      ghost var rest := Tokens(pattern, 0);
      while i < |pattern|
        invariant i <= |pattern| && DatesClosed(pattern, i)
        invariant rest == Tokens(pattern, i) && logmsg + rest == old(logmsg) + Tokens(pattern, 0)
        invariant Format(pattern, i, timeFormat) == Format(pattern, 0, old(timeFormat))
        decreases |pattern| - i
      {
        ScanRound(pattern, i, timeFormat);
        if DateAt(pattern, i) {
          DateSpan(pattern, i);
        }
        rest := Tokens(pattern, Next(pattern, i));
        var c := pattern[i];
        if c != '%' {
          logmsg := logmsg + [Token([c], None)];
          i := i + 1;
        } else if i + 1 >= |pattern| {
          logmsg := logmsg + [Token("%", None)];
          i := i + 1;
        } else {
          var letter := pattern[i + 1];
          logmsg := logmsg + [Token([c, letter], if IsItem(letter) then Some(letter) else None)];
          if letter == 'd' && i + 2 < |pattern| && pattern[i + 2] == '{' {
            var pos := Find(pattern, '}', 0);
            timeFormat := pattern[i + 3..pos];
            i := pos + 1;
          } else {
            i := i + 2;
          }
        }
      }
      ScanEnds(pattern, i, timeFormat);
    }

    /** Dates are written in `loggerFormat`, the format of the logger's own formatter, which need
        not be this one. */
    method Log(e: Event, loggerFormat: Bytes) returns (ans: Bytes)
      ensures ans == Rendered(logmsg, e, loggerFormat)
    {
      hide Shown;
      ans := [];
      for k := 0 to |logmsg|
        invariant ans + Rendered(logmsg[k..], e, loggerFormat) == Rendered(logmsg, e, loggerFormat)
      {
        var t := logmsg[k];
        assert logmsg[k..][1..] == logmsg[k + 1..];
        var text;
        if t.item.Some? {
          text := Shown(t.item.value, e, loggerFormat);
        } else {
          text := t.text;
        }
        ans := ans + text;
      }
    }
  }

  /** A formatter that is its logger's own writes what its pattern means. */
  method LogPatternOnce(pattern: Bytes, e: Event) returns (ans: Bytes)
    requires Halts(pattern)
    ensures ans == Meaning(pattern, e, MeantFormat(pattern, "%F %T"))
  {
    HaltsIffClosed(pattern);
    var f := new Formatter(pattern);
    ans := f.Log(e, f.timeFormat);
    CompiledMeans(pattern, 0, e, f.timeFormat, DEFAULT_FORMAT);
    assert pattern[0..] == pattern;
  }
}
