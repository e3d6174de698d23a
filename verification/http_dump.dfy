/** `HttpRequest::dump` of sylar/http/http.cpp, and a reader of such text after sections 3.1.1,
    3.2 and 3.3 of RFC 7230. */
module HttpDump {
  import opened Wrappers
  import opened ByteStrings
  import opened Numerals
  import opened ParamParsing

  /** A request. `headers` lists its header map in the order of the map; `version` is one byte
      with the major number in its high half. */
  datatype Request = Request(
    httpMethod: nat,
    path: Bytes,
    query: Bytes,
    fragment: Bytes,
    version: nat,
    close: bool,
    websocket: bool,
    headers: seq<Pair>,
    body: Bytes
  )

  const CRLF: Bytes := "\r\n"
  const CONNECTION: Bytes := "connection"
  const CONTENT_LENGTH: Bytes := "content-length"

  // ---------------------------------------------------------------- method names

  const METHODS: seq<string> := [
    "DELETE", "GET", "HEAD", "POST", "PUT", "CONNECT", "OPTIONS", "TRACE", "COPY", "LOCK", "MKCOL",
    "MOVE", "PROPFIND", "PROPPATCH", "SEARCH", "UNLOCK", "BIND", "REBIND", "UNBIND", "ACL", "REPORT",
    "MKACTIVITY", "CHECKOUT", "MERGE", "M-SEARCH", "NOTIFY", "SUBSCRIBE", "UNSUBSCRIBE", "PATCH",
    "PURGE", "MKCALENDAR", "LINK", "UNLINK", "SOURCE"
  ]

  /** A character of a token, section 3.2.6 of RFC 7230. */
  predicate IsTchar(c: char) {
    'a' <= c <= 'z' || 'A' <= c <= 'Z' || '0' <= c <= '9' || c in "!#$%&'*+-.^_`|~"
  }

  predicate Token(s: string) {
    s != [] && forall i | 0 <= i < |s| :: IsTchar(s[i])
  }

  lemma NamesAreTokens(m: nat)
    requires m < |METHODS|
    ensures Token(METHODS[m])
  {
    if m < 12 {
      FirstNamesAreTokens(m);
    } else if m < 23 {
      MiddleNamesAreTokens(m);
    } else {
      LastNamesAreTokens(m);
    }
  }

  lemma FirstNamesAreTokens(m: nat)
    requires m < 12
    ensures Token(METHODS[m])
  {
  }

  lemma MiddleNamesAreTokens(m: nat)
    requires 12 <= m < 23
    ensures Token(METHODS[m])
  {
  }

  lemma LastNamesAreTokens(m: nat)
    requires 23 <= m < |METHODS|
    ensures Token(METHODS[m])
  {
  }

  function HttpMethodToString(m: nat): Bytes {
    if m >= |METHODS| then "<unknown>" else (NamesAreTokens(m); METHODS[m])
  }

  /** `StringToHttpMethod`: the first method of that name; the number of names if none has it. */
  function StringToHttpMethod(name: string, from: nat := 0): (m: nat)
    requires from <= |METHODS|
    ensures from <= m <= |METHODS|
    ensures m < |METHODS| ==> METHODS[m] == name
    ensures forall i | from <= i < m :: METHODS[i] != name
    decreases |METHODS| - from
  {
    if from == |METHODS| || METHODS[from] == name then from else StringToHttpMethod(name, from + 1)
  }

  lemma NamesDiffer(i: nat, j: nat)
    requires i < j < |METHODS|
    ensures METHODS[i] != METHODS[j]
  {
  }

  /** The methods by their numbers: those of HTTP/1.1, those of WebDAV and the rest. */
  lemma HttpMethods()
    ensures METHODS[0] == "DELETE" && METHODS[1] == "GET" && METHODS[2] == "HEAD" && METHODS[3] == "POST"
    ensures METHODS[4] == "PUT" && METHODS[5] == "CONNECT" && METHODS[6] == "OPTIONS" && METHODS[7] == "TRACE"
  {
  }

  lemma WebDavMethods()
    ensures METHODS[8] == "COPY" && METHODS[9] == "LOCK" && METHODS[10] == "MKCOL" && METHODS[11] == "MOVE"
    ensures METHODS[12] == "PROPFIND" && METHODS[13] == "PROPPATCH" && METHODS[14] == "SEARCH" && METHODS[15] == "UNLOCK"
    ensures METHODS[16] == "BIND" && METHODS[17] == "REBIND" && METHODS[18] == "UNBIND" && METHODS[19] == "ACL"
  {
  }

  lemma OtherMethods()
    ensures METHODS[20] == "REPORT" && METHODS[21] == "MKACTIVITY" && METHODS[22] == "CHECKOUT" && METHODS[23] == "MERGE"
    ensures METHODS[24] == "M-SEARCH" && METHODS[25] == "NOTIFY" && METHODS[26] == "SUBSCRIBE" && METHODS[27] == "UNSUBSCRIBE"
    ensures METHODS[28] == "PATCH" && METHODS[29] == "PURGE" && METHODS[30] == "MKCALENDAR" && METHODS[31] == "LINK"
    ensures METHODS[32] == "UNLINK" && METHODS[33] == "SOURCE"
    ensures |METHODS| == 34
  {
  }

  /** A method is known by its name, and what is written for no method is no token. */
  lemma MethodReadsBack(m: nat)
    ensures Token(HttpMethodToString(m)) <==> m < |METHODS|
    ensures m < |METHODS| ==> StringToHttpMethod(HttpMethodToString(m)) == m
  {
    if m < |METHODS| {
      NamesAreTokens(m);
      var k := StringToHttpMethod(METHODS[m]);
      if k < m {
        NamesDiffer(k, m);
      }
    } else {
      assert "<unknown>"[0] == '<';
    }
  }

  // ---------------------------------------------------------------- writing

  function Target(r: Request): Bytes {
    r.path + (if r.query == [] then [] else "?" + r.query) + (if r.fragment == [] then [] else "#" + r.fragment)
  }

  function HttpVersion(version: nat): Bytes {
    "HTTP/" + Digits(version / 16, 10) + "." + Digits(version % 16, 10)
  }

  function StartLine(r: Request): Bytes {
    HttpMethodToString(r.httpMethod) + " " + Target(r) + " " + HttpVersion(r.version)
  }

  predicate Named(p: Pair, name: Bytes) {
    Fold(p.key) == name
  }

  /** The fields named `name`, or all the others. */
  function Picked(ps: seq<Pair>, name: Bytes, others: bool): seq<Pair> {
    if ps == [] then []
    else (if Named(ps[0], name) != others then [ps[0]] else []) + Picked(ps[1..], name, others)
  }

  function ConnectionField(r: Request): Pair {
    Pair(CONNECTION, if r.close then "close" else "keep-alive")
  }

  function LengthField(r: Request): Pair {
    Pair(CONTENT_LENGTH, Digits(|r.body|, 10))
  }

  function OwnFields(r: Request): seq<Pair> {
    if r.websocket then r.headers else [ConnectionField(r)] + Picked(r.headers, CONNECTION, true)
  }

  /** The fields of the message. */
  function Fields(r: Request): seq<Pair> {
    OwnFields(r) + (if r.body == [] then [] else [LengthField(r)])
  }

  function Line(p: Pair): Bytes {
    p.key + ": " + p.value
  }

  function Lines(ps: seq<Pair>): Bytes {
    if ps == [] then [] else Line(ps[0]) + CRLF + Lines(ps[1..])
  }

  function Serialized(r: Request): Bytes {
    StartLine(r) + CRLF + (Lines(Fields(r)) + CRLF + r.body)
  }

  lemma {:induction false} LinesSnoc(ps: seq<Pair>, p: Pair)
    ensures Lines(ps + [p]) == Lines(ps) + Line(p) + CRLF
  {
    if ps == [] {
      assert [] + [p] == [p] && [p][1..] == [];
    } else {
      LinesSnoc(ps[1..], p);
      assert (ps + [p])[1..] == ps[1..] + [p];
    }
  }

  lemma NothingPicked(name: Bytes, others: bool)
    ensures Picked([], name, others) == []
  {
  }

  lemma PickedCons(ps: seq<Pair>, name: Bytes, others: bool)
    requires ps != []
    ensures Picked(ps, name, others)
         == (if Named(ps[0], name) != others then [ps[0]] else []) + Picked(ps[1..], name, others)
  {
  }

  lemma {:induction false} PickedSnoc(ps: seq<Pair>, p: Pair, name: Bytes, others: bool)
    ensures Picked(ps + [p], name, others)
         == Picked(ps, name, others) + (if Named(p, name) != others then [p] else [])
  {
    hide Picked, Named;
    PickedCons(ps + [p], name, others);
    if ps == [] {
      NothingPicked(name, others);
      assert [] + [p] == [p] && [p][1..] == [];
    } else {
      PickedCons(ps, name, others);
      PickedSnoc(ps[1..], p, name, others);
      assert (ps + [p])[1..] == ps[1..] + [p];
    }
  }

  lemma DumpEnd(r: Request)
    ensures Lines(Fields(r)) == if r.body == [] then Lines(OwnFields(r))
                                else Lines(OwnFields(r)) + "content-length: " + Digits(|r.body|, 10) + CRLF
  {
    hide Digits, OwnFields;
    LinesSnoc(OwnFields(r), LengthField(r));
    assert OwnFields(r) + [] == OwnFields(r);
    assert Line(LengthField(r)) == "content-length: " + Digits(|r.body|, 10);
  }

  lemma StartWritten(name: Bytes, r: Request, version: Bytes)
    ensures var q: Bytes, f: Bytes := if r.query == [] then "" else "?", if r.fragment == [] then "" else "#";
            name + " " + r.path + q + r.query + f + r.fragment + " " + version == name + " " + Target(r) + " " + version
  {
  }

  /** The request line. */
  method DumpStart(r: Request) returns (os: Bytes)
    ensures os == StartLine(r)
  {
    hide HttpMethodToString, HttpVersion, Target;
    var q: Bytes, f: Bytes := if r.query == [] then "" else "?", if r.fragment == [] then "" else "#";
    StartWritten(HttpMethodToString(r.httpMethod), r, HttpVersion(r.version));
    os := HttpMethodToString(r.httpMethod) + " " + r.path + q + r.query + f + r.fragment + " " + HttpVersion(r.version);
  }

  /** The connection line and the loop over the header map. */
  method DumpFields(r: Request) returns (os: Bytes)
    ensures os == Lines(OwnFields(r))
  {
    assert Lines([]) == [];
    hide Named, Line, Lines, Picked, ConnectionField;
    os := [];
    ghost var ps: seq<Pair> := [];
    if !r.websocket {
      os := Line(ConnectionField(r)) + CRLF;
      ps := [ConnectionField(r)];
      LinesSnoc([], ConnectionField(r));
      assert [] + ps == ps;
    }
    ghost var start := ps;
    OwnEnds(r);
    for i := 0 to |r.headers|
      invariant os == Lines(ps) && ps == start + Own(r, i)
    {
      var p := r.headers[i];
      OwnSnoc(r, i);
      LinesSnoc(ps, p);
      if !r.websocket && Named(p, CONNECTION) {
        continue;
      }
      os := os + Line(p) + CRLF;
      ps := ps + [p];
    }
  }

  lemma OwnEnds(r: Request)
    ensures Own(r, 0) == []
    ensures OwnFields(r) == (if r.websocket then [] else [ConnectionField(r)]) + Own(r, |r.headers|)
  {
    assert r.headers[..|r.headers|] == r.headers;
  }

  /** What is kept of the first `i` headers. */
  ghost function Own(r: Request, i: nat): seq<Pair>
    requires i <= |r.headers|
  {
    if r.websocket then r.headers[..i] else Picked(r.headers[..i], CONNECTION, true)
  }

  lemma OwnSnoc(r: Request, i: nat)
    requires i < |r.headers|
    ensures var p := r.headers[i];
            Own(r, i + 1) == if !r.websocket && Named(p, CONNECTION) then Own(r, i) else Own(r, i) + [p]
  {
    assert r.headers[..i + 1] == r.headers[..i] + [r.headers[i]];
    PickedSnoc(r.headers[..i], r.headers[i], CONNECTION, true);
  }

  /** `dump`, in the order of its output. */
  method Dump(r: Request) returns (os: Bytes)
    ensures os == Serialized(r)
  {
    hide StartLine, Digits, OwnFields, Lines;
    var start := DumpStart(r);
    var fields := DumpFields(r);
    DumpEnd(r);
    if r.body != [] {
      os := start + CRLF + (fields + "content-length: " + Digits(|r.body|, 10) + CRLF + CRLF + r.body);
    } else {
      os := start + CRLF + (fields + CRLF);
    }
  }

  // ---------------------------------------------------------------- reading

  datatype Start = Start(httpMethod: nat, path: Bytes, query: Bytes, fragment: Bytes, version: nat)
  datatype Message = Message(start: Start, fields: seq<Pair>, body: Bytes)
  datatype Split = Split(head: Bytes, rest: Bytes)
  datatype FieldList = FieldList(fields: seq<Pair>, rest: Bytes)

  function ReadLine(t: Bytes): Option<Split> {
    var k := Find(t, '\r', 0);
    if k + 1 < |t| && t[k + 1] == '\n' && '\n' !in t[..k] then Some(Split(t[..k], t[k + 2..])) else None
  }

  function BeforeMark(t: Bytes, c: Byte): Bytes {
    t[..Find(t, c, 0)]
  }

  function AfterMark(t: Bytes, c: Byte): Bytes {
    var k := Find(t, c, 0);
    if k == |t| then [] else t[k + 1..]
  }

  /** A field of section 3.2 of RFC 7230: a token, a colon, a value with blanks around it. */
  function ReadField(line: Bytes): Option<Pair> {
    var name := BeforeMark(line, ':');
    if name != line && Token(name) then Some(Pair(name, Trim(AfterMark(line, ':')))) else None
  }

  /** Fields up to the empty line. */
  function ReadFields(t: Bytes): Option<FieldList>
    decreases |t|
  {
    var l := ReadLine(t);
    if l.None? then None
    else if l.value.head == [] then Some(FieldList([], l.value.rest))
    else
      var p, more := ReadField(l.value.head), ReadFields(l.value.rest);
      if p.None? || more.None? then None else Some(FieldList([p.value] + more.value.fields, more.value.rest))
  }

  /** "HTTP/" and two single digits, section 2.6 of RFC 7230. */
  function ReadVersion(t: Bytes): Option<nat> {
    if |t| == 8 && t[..5] == "HTTP/" && IsDigit(t[5], 10) && t[6] == '.' && IsDigit(t[7], 10)
    then Some(16 * DigitValue(t[5]) + DigitValue(t[7])) else None
  }

  /** Method, target and version with single blanks between them, section 3.1.1 of RFC 7230. The
      target is not empty and splits, as section 3 of RFC 3986 has it, into a path, a query behind
      '?' and a fragment behind '#'; the forms that section 5.3 of RFC 7230 allows a target are not
      checked. */
  function ReadStart(line: Bytes): Option<Start> {
    var name, more := BeforeMark(line, ' '), AfterMark(line, ' ');
    var target, version := BeforeMark(more, ' '), ReadVersion(AfterMark(more, ' '));
    if !Token(name) || target == [] || version.None? then None
    else
      var hier := BeforeMark(target, '#');
      Some(Start(StringToHttpMethod(name), BeforeMark(hier, '?'), AfterMark(hier, '?'), AfterMark(target, '#'),
                 version.value))
  }

  predicate IsNumber(s: Bytes, n: nat) {
    s != [] && AllDigits(s, 10) && Value(s, 10) == n
  }

  /** Section 3.3.3 of RFC 7230 for a text that is one whole message: every content-length states
      the size of the body, and without one there is no body. */
  predicate BodyFits(ps: seq<Pair>, body: Bytes) {
    && (forall i | 0 <= i < |ps| :: Named(ps[i], "content-length") ==> IsNumber(ps[i].value, |body|))
    && (body != [] ==> exists i | 0 <= i < |ps| :: Named(ps[i], "content-length"))
  }

  function ReadMessage(t: Bytes): Option<Message> {
    var l := ReadLine(t);
    if l.None? then None
    else
      var start, fs := ReadStart(l.value.head), ReadFields(l.value.rest);
      if start.None? || fs.None? || !BodyFits(fs.value.fields, fs.value.rest) then None
      else Some(Message(start.value, fs.value.fields, fs.value.rest))
  }

  // ---------------------------------------------------------------- what is written reads back

  ghost predicate Free(s: Bytes, marks: Bytes) {
    forall i | 0 <= i < |s| :: s[i] !in marks
  }

  ghost predicate FieldWellFormed(p: Pair) {
    Token(p.key) && Free(p.value, "\r\n") && Trimmed(p.value)
  }

  /** Every part is free of what delimits it. */
  ghost predicate WellFormed(r: Request) {
    && Free(r.path, " ?#\r\n") && Free(r.query, " #\r\n") && Free(r.fragment, " \r\n")
    && forall i | 0 <= i < |r.headers| :: FieldWellFormed(r.headers[i])
  }

  lemma MarkSplits(a: Bytes, c: Byte, b: Bytes)
    requires c !in a
    ensures BeforeMark(a + [c] + b, c) == a && AfterMark(a + [c] + b, c) == b
  {
    var t := a + [c] + b;
    assert forall i | 0 <= i < |a| :: t[i] == a[i];
    assert t[|a|] == c;
    assert t[..|a|] == a && t[|a| + 1..] == b;
  }

  lemma NoMark(a: Bytes, c: Byte)
    requires c !in a
    ensures BeforeMark(a, c) == a && AfterMark(a, c) == []
  {
  }

  lemma LineReads(line: Bytes, rest: Bytes)
    requires Free(line, "\r\n")
    ensures ReadLine(line + CRLF + rest) == Some(Split(line, rest))
  {
    var t := line + CRLF + rest;
    assert forall i | 0 <= i < |line| :: t[i] == line[i];
    assert t[|line|] == '\r' && t[|line| + 1] == '\n';
    assert t[..|line|] == line && t[|line| + 2..] == rest;
  }

  lemma LineIsFree(p: Pair)
    requires Token(p.key) && Free(p.value, "\r\n")
    ensures Free(Line(p), "\r\n") && Line(p) != []
  {
    var t := Line(p);
    forall i | 0 <= i < |t| ensures t[i] !in "\r\n" {
      if i < |p.key| {
        assert IsTchar(p.key[i]);
      }
    }
  }

  lemma ValueTrims(value: Bytes)
    requires Trimmed(value)
    ensures Trim([' '] + value) == value
  {
  }

  lemma FieldReads(p: Pair)
    requires Token(p.key) && Trimmed(p.value)
    ensures ReadField(Line(p)) == Some(p)
  {
    hide Trim, Trimmed, BeforeMark, AfterMark;
    ValueTrims(p.value);
    assert ':' !in p.key;
    MarkSplits(p.key, ':', [' '] + p.value);
    assert Line(p) == p.key + [':'] + ([' '] + p.value);
    assert |Line(p)| > |p.key|;
  }

  lemma FieldAndMoreRead(p: Pair, t: Bytes)
    requires FieldWellFormed(p)
    ensures ReadFields(Line(p) + CRLF + t)
         == var more := ReadFields(t);
            if more.None? then None else Some(FieldList([p] + more.value.fields, more.value.rest))
  {
    hide Line, ReadField, ReadLine;
    FieldReads(p);
    LineIsFree(p);
    LineReads(Line(p), t);
  }

  lemma {:induction false} FieldsRead(ps: seq<Pair>, body: Bytes)
    requires forall i | 0 <= i < |ps| :: FieldWellFormed(ps[i])
    ensures ReadFields(Lines(ps) + CRLF + body) == Some(FieldList(ps, body))
  {
    hide Line, FieldWellFormed, ReadFields;
    if ps == [] {
      NoMoreRead(body);
      assert Lines(ps) + CRLF + body == CRLF + body;
    } else {
      FieldsRead(ps[1..], body);
      var more := Lines(ps[1..]) + CRLF + body;
      FieldAndMoreRead(ps[0], more);
      assert Lines(ps) + CRLF + body == Line(ps[0]) + CRLF + more;
      assert ps == [ps[0]] + ps[1..];
    }
  }

  lemma NoMoreRead(body: Bytes)
    ensures ReadFields(CRLF + body) == Some(FieldList([], body))
  {
  }

  predicate VersionFits(version: nat) {
    version / 16 < 10 && version % 16 < 10
  }

  lemma ShortDigits(n: nat)
    requires n < 16
    ensures |Digits(n, 10)| == if n < 10 then 1 else 2
    ensures n < 10 ==> IsDigit(Digits(n, 10)[0], 10) && DigitValue(Digits(n, 10)[0]) == n
  {
  }

  lemma VersionReads(version: nat)
    requires version < 256
    ensures ReadVersion(HttpVersion(version)) == if VersionFits(version) then Some(version) else None
    ensures Free(HttpVersion(version), " \r\n")
  {
    var major, minor := Digits(version / 16, 10), Digits(version % 16, 10);
    ShortDigits(version / 16);
    ShortDigits(version % 16);
    DigitsReadBack(version / 16, 10);
    DigitsReadBack(version % 16, 10);
    var t := HttpVersion(version);
    assert t == "HTTP/" + major + "." + minor;
    assert t[..5] == "HTTP/";
  }

  lemma TargetReads(r: Request)
    requires Free(r.path, " ?#\r\n") && Free(r.query, " #\r\n")
    ensures var t := Target(r); var hier := BeforeMark(t, '#');
            BeforeMark(hier, '?') == r.path && AfterMark(hier, '?') == r.query && AfterMark(t, '#') == r.fragment
  {
    hide BeforeMark, AfterMark;
    var hier: Bytes := r.path + (if r.query == [] then [] else ['?'] + r.query);
    assert '#' !in hier && '?' !in r.path;
    if r.fragment == [] {
      NoMark(hier, '#');
      assert Target(r) == hier;
    } else {
      MarkSplits(hier, '#', r.fragment);
      assert Target(r) == hier + ['#'] + r.fragment;
    }
    if r.query == [] {
      NoMark(r.path, '?');
      assert hier == r.path;
    } else {
      MarkSplits(r.path, '?', r.query);
      assert hier == r.path + ['?'] + r.query;
    }
  }

  lemma TargetIsFree(r: Request)
    requires WellFormed(r)
    ensures Free(Target(r), " \r\n")
  {
  }

  lemma NameIsFree(m: nat)
    ensures Free(HttpMethodToString(m), " \r\n")
  {
    if m < |METHODS| {
      NamesAreTokens(m);
      TokenIsFree(HttpMethodToString(m));
    }
  }

  lemma TokenIsFree(s: Bytes)
    requires Token(s)
    ensures Free(s, " \r\n")
  {
  }

  /** There is something to ask for. */
  predicate HasTarget(r: Request) {
    r.path != [] || r.query != [] || r.fragment != []
  }

  lemma TargetIsThere(r: Request)
    ensures HasTarget(r) <==> Target(r) != []
  {
  }

  lemma StartReads(r: Request)
    requires WellFormed(r) && r.version < 256
    ensures Free(StartLine(r), "\r\n")
    ensures ReadStart(StartLine(r))
         == if r.httpMethod < |METHODS| && VersionFits(r.version) && HasTarget(r)
            then Some(Start(r.httpMethod, r.path, r.query, r.fragment, r.version)) else None
  {
    hide METHODS, Token, BeforeMark, AfterMark, HttpMethodToString, Target, HttpVersion, ReadVersion, VersionFits, HasTarget;
    var name, target, version := HttpMethodToString(r.httpMethod), Target(r), HttpVersion(r.version);
    NameIsFree(r.httpMethod);
    MethodReadsBack(r.httpMethod);
    TargetIsFree(r);
    TargetIsThere(r);
    TargetReads(r);
    VersionReads(r.version);
    MarkSplits(name, ' ', target + [' '] + version);
    MarkSplits(target, ' ', version);
    assert StartLine(r) == name + [' '] + (target + [' '] + version);
  }

  // ---------------------------------------------------------------- the whole message

  /** A content-length the user has set states the size of the body. */
  ghost predicate LengthsAgree(r: Request) {
    forall i | 0 <= i < |r.headers| :: Named(r.headers[i], CONTENT_LENGTH) ==> IsNumber(r.headers[i].value, |r.body|)
  }

  lemma {:induction false} PickedIsIn(ps: seq<Pair>, name: Bytes, others: bool)
    ensures forall p :: p in Picked(ps, name, others) <==> p in ps && Named(p, name) != others
  {
    hide Named;
    if ps != [] {
      PickedIsIn(ps[1..], name, others);
    }
  }

  lemma OwnFieldsAreIn(r: Request)
    ensures forall p :: p in OwnFields(r) <==>
      (!r.websocket && p == ConnectionField(r)) || (p in r.headers && (r.websocket || !Named(p, CONNECTION)))
  {
    hide Named, ConnectionField;
    PickedIsIn(r.headers, CONNECTION, true);
  }

  lemma FieldsAreIn(r: Request)
    ensures forall p :: p in Fields(r) <==> p in OwnFields(r) || (r.body != [] && p == LengthField(r))
  {
  }

  lemma OwnNames(r: Request)
    ensures Named(LengthField(r), CONTENT_LENGTH) && !Named(LengthField(r), CONNECTION)
    ensures Named(ConnectionField(r), CONNECTION) && !Named(ConnectionField(r), CONTENT_LENGTH)
  {
    hide Digits, Fold;
    FoldKeeps(CONTENT_LENGTH);
    FoldKeeps(CONNECTION);
  }

  lemma BodyFitsIff(r: Request)
    ensures BodyFits(Fields(r), r.body) <==> LengthsAgree(r)
  {
    hide Named, IsNumber, Fields, OwnFields, ConnectionField, LengthField;
    FieldsAreIn(r);
    OwnFieldsAreIn(r);
    OwnNames(r);
    LengthIsNumber(r);
    OneName(r);
    if BodyFits(Fields(r), r.body) {
      forall i | 0 <= i < |r.headers| && Named(r.headers[i], CONTENT_LENGTH) ensures IsNumber(r.headers[i].value, |r.body|) {
        assert r.headers[i] in Fields(r);
      }
    }
    if r.body != [] {
      assert LengthField(r) in Fields(r);
    }
  }

  lemma LengthIsNumber(r: Request)
    ensures IsNumber(LengthField(r).value, |r.body|)
  {
    DigitsReadBack(|r.body|, 10);
  }

  lemma OneName(r: Request)
    ensures forall p :: !(Named(p, CONNECTION) && Named(p, CONTENT_LENGTH))
  {
  }

  lemma FieldsWellFormed(r: Request)
    requires WellFormed(r)
    ensures forall i | 0 <= i < |Fields(r)| :: FieldWellFormed(Fields(r)[i])
  {
    hide FieldWellFormed, Fields, OwnFields, ConnectionField, LengthField;
    FieldsAreIn(r);
    OwnFieldsAreIn(r);
    ConnectionWellFormed(r);
    LengthWellFormed(r);
    forall p | p in Fields(r) ensures FieldWellFormed(p) {
      if p in r.headers {
        var i :| 0 <= i < |r.headers| && r.headers[i] == p;
      }
    }
    assert forall i | 0 <= i < |Fields(r)| :: Fields(r)[i] in Fields(r);
  }

  lemma ConnectionWellFormed(r: Request)
    ensures FieldWellFormed(ConnectionField(r))
  {
  }

  lemma LengthWellFormed(r: Request)
    ensures FieldWellFormed(LengthField(r))
  {
    DigitsReadBack(|r.body|, 10);
  }

  /** The reader gets every part back from what `dump` writes exactly when the method is one of the
      table, there is something to ask for, both version numbers are single digits and no
      content-length of the user's own contradicts the body; otherwise it refuses. */
  lemma DumpReadsBack(r: Request)
    requires WellFormed(r) && r.version < 256
    ensures ReadMessage(Serialized(r))
         == if r.httpMethod < |METHODS| && VersionFits(r.version) && HasTarget(r) && LengthsAgree(r)
            then Some(Message(Start(r.httpMethod, r.path, r.query, r.fragment, r.version), Fields(r), r.body))
            else None
  {
    hide StartLine, Fields, Lines, ReadLine, ReadStart, ReadFields, BodyFits, LengthsAgree, VersionFits, HasTarget,
         WellFormed;
    StartReads(r);
    FieldsWellFormed(r);
    FieldsRead(Fields(r), r.body);
    BodyFitsIff(r);
    var more := Lines(Fields(r)) + CRLF + r.body;
    LineReads(StartLine(r), more);
  }

  /** A request whose user has set a content-length of 1 before a body of two bytes. */
  function Contradiction(): Request {
    Request(3, "/", [], [], 17, true, false, [Pair(CONTENT_LENGTH, "1")], "ab")
  }

  lemma ContradictionIsWellFormed()
    ensures WellFormed(Contradiction())
  {
  }

  lemma ContradictionDisagrees()
    ensures !LengthsAgree(Contradiction())
  {
    hide IsNumber, Fold;
    var r := Contradiction();
    OneDigit();
    OwnNames(r);
    assert Named(r.headers[0], CONTENT_LENGTH);
  }

  /** It is written, and cannot be read. */
  lemma ContradictingLength()
    ensures ReadMessage(Serialized(Contradiction())) == None
  {
    hide WellFormed, LengthsAgree, Serialized, ReadMessage;
    ContradictionIsWellFormed();
    ContradictionDisagrees();
    DumpReadsBack(Contradiction());
  }

  lemma OneDigit()
    ensures !IsNumber("1", 2)
  {
    var one: Bytes := "1";
    assert one[..0] == [];
  }

  // ---------------------------------------------------------------- what the fields say

  lemma {:induction false} PickedJoin(a: seq<Pair>, b: seq<Pair>, name: Bytes, others: bool)
    ensures Picked(a + b, name, others) == Picked(a, name, others) + Picked(b, name, others)
  {
    hide Picked;
    if a == [] {
      NothingPicked(name, others);
      assert [] + b == b;
    } else {
      PickedJoin(a[1..], b, name, others);
      PickedCons(a, name, others);
      PickedCons(a + b, name, others);
      assert (a + b)[1..] == a[1..] + b;
    }
  }

  lemma {:induction false} PickedNone(ps: seq<Pair>, name: Bytes, others: bool)
    requires forall p :: p in ps ==> Named(p, name) == others
    ensures Picked(ps, name, others) == []
  {
    hide Named;
    if ps != [] {
      assert ps[0] in ps;
      PickedNone(ps[1..], name, others);
    }
  }

  lemma PickedOne(p: Pair, name: Bytes, others: bool)
    ensures Picked([p], name, others) == if Named(p, name) != others then [p] else []
  {
  }

  /** Picking goes through a list one by one: it keeps a field exactly when its name is, or is not, the
      one asked for, and keeps the order. */
  lemma PickedIsTheFilter(a: seq<Pair>, p: Pair, b: seq<Pair>, name: Bytes, others: bool)
    ensures Picked([], name, others) == []
    ensures Picked(a + [p] + b, name, others)
         == Picked(a, name, others) + (if (Fold(p.key) == name) != others then [p] else []) + Picked(b, name, others)
  {
    hide Picked, Fold;
    NothingPicked(name, others);
    PickedJoin(a + [p], b, name, others);
    PickedJoin(a, [p], name, others);
    PickedOne(p, name, others);
  }

  /** Outside a websocket upgrade there is exactly one connection field, the first, and it says what
      the close flag is; inside one the user's own are all there are. */
  lemma OneConnection(r: Request)
    ensures Picked(Fields(r), "connection", false)
         == if r.websocket then Picked(r.headers, "connection", false)
            else [Pair("connection", if r.close then "close" else "keep-alive")]
  {
    ConnectionSays(r);
    hide Named, ConnectionField, LengthField;
    OwnNames(r);
    OwnConnection(r);
    var last := if r.body == [] then [] else [LengthField(r)];
    PickedOne(LengthField(r), CONNECTION, false);
    PickedJoin(OwnFields(r), last, CONNECTION, false);
  }

  lemma ConnectionSays(r: Request)
    ensures ConnectionField(r) == Pair("connection", if r.close then "close" else "keep-alive")
  {
  }

  lemma OwnConnection(r: Request)
    ensures Picked(OwnFields(r), CONNECTION, false)
         == if r.websocket then Picked(r.headers, CONNECTION, false) else [ConnectionField(r)]
  {
    hide Named, ConnectionField;
    if !r.websocket {
      OwnNames(r);
      var kept := Picked(r.headers, CONNECTION, true);
      PickedIsIn(r.headers, CONNECTION, true);
      PickedNone(kept, CONNECTION, false);
      PickedOne(ConnectionField(r), CONNECTION, false);
      PickedJoin([ConnectionField(r)], kept, CONNECTION, false);
    }
  }

  /** There are two content-length fields exactly when the user has set one and there is a body. */
  lemma LengthFields(r: Request)
    ensures Picked(Fields(r), "content-length", false)
         == Picked(r.headers, "content-length", false)
            + (if r.body == [] then [] else [Pair("content-length", Digits(|r.body|, 10))])
  {
    assert LengthField(r) == Pair("content-length", Digits(|r.body|, 10));
    hide Named, ConnectionField, LengthField;
    OwnNames(r);
    OwnLengths(r);
    var last := if r.body == [] then [] else [LengthField(r)];
    PickedOne(LengthField(r), CONTENT_LENGTH, false);
    PickedJoin(OwnFields(r), last, CONTENT_LENGTH, false);
  }

  lemma {:induction false} PickedTwice(ps: seq<Pair>, name: Bytes, other: Bytes)
    requires forall p :: !(Named(p, name) && Named(p, other))
    ensures Picked(Picked(ps, other, true), name, false) == Picked(ps, name, false)
  {
    hide Named;
    if ps != [] {
      PickedTwice(ps[1..], name, other);
      var p := if Named(ps[0], other) then [] else [ps[0]];
      PickedOne(ps[0], name, false);
      PickedJoin(p, Picked(ps[1..], other, true), name, false);
    }
  }

  lemma OwnLengths(r: Request)
    ensures Picked(OwnFields(r), CONTENT_LENGTH, false) == Picked(r.headers, CONTENT_LENGTH, false)
  {
    hide Named, ConnectionField;
    if !r.websocket {
      OwnNames(r);
      OneName(r);
      PickedTwice(r.headers, CONTENT_LENGTH, CONNECTION);
      PickedOne(ConnectionField(r), CONTENT_LENGTH, false);
      PickedJoin([ConnectionField(r)], Picked(r.headers, CONNECTION, true), CONTENT_LENGTH, false);
    }
  }

  /** All other headers are there, in their order. */
  lemma OtherHeadersKept(r: Request)
    ensures Picked(Picked(Fields(r), "connection", true), "content-length", true)
         == Picked(Picked(r.headers, "connection", true), "content-length", true)
  {
    hide Named, Picked, ConnectionField, LengthField, OwnFields;
    OwnNames(r);
    OwnOthers(r);
    var kept, last := Picked(r.headers, CONNECTION, true), if r.body == [] then [] else [LengthField(r)];
    PickedJoin(OwnFields(r), last, CONNECTION, true);
    PickedOne(LengthField(r), CONNECTION, true);
    PickedOne(LengthField(r), CONTENT_LENGTH, true);
    PickedJoin(kept, last, CONTENT_LENGTH, true);
    NothingPicked(CONNECTION, true);
    NothingPicked(CONTENT_LENGTH, true);
    assert Picked(kept, CONTENT_LENGTH, true) + [] == Picked(kept, CONTENT_LENGTH, true);
  }

  lemma {:induction false} PickedAgain(ps: seq<Pair>, name: Bytes)
    ensures Picked(Picked(ps, name, true), name, true) == Picked(ps, name, true)
  {
    hide Named;
    if ps != [] {
      PickedAgain(ps[1..], name);
      PickedOne(ps[0], name, true);
      PickedJoin(if Named(ps[0], name) then [] else [ps[0]], Picked(ps[1..], name, true), name, true);
    }
  }

  lemma OwnOthers(r: Request)
    ensures Picked(OwnFields(r), CONNECTION, true) == Picked(r.headers, CONNECTION, true)
  {
    hide Named, Picked, ConnectionField;
    if !r.websocket {
      OwnNames(r);
      PickedAgain(r.headers, CONNECTION);
      PickedOne(ConnectionField(r), CONNECTION, true);
      PickedJoin([ConnectionField(r)], Picked(r.headers, CONNECTION, true), CONNECTION, true);
    }
  }

  // ---------------------------------------------------------------- whether the connection stays

  /** The elements of a comma-separated list, section 7 of RFC 7230, without the blanks around them. */
  function Elements(v: Bytes): (es: seq<Bytes>)
    ensures |es| > 0
    decreases |v|
  {
    var k := Find(v, ',', 0);
    if k == |v| then [Trim(v)] else [Trim(v[..k])] + Elements(v[k + 1..])
  }

  ghost predicate Lists(v: Bytes, option: Bytes) {
    exists i | 0 <= i < |Elements(v)| :: SameUpToCase(Elements(v)[i], option)
  }

  ghost predicate Gives(p: Pair, option: Bytes) {
    SameKey(p.key, "connection") && Lists(p.value, option)
  }

  /** Section 6.1 of RFC 7230: the options of a message are the elements of its connection fields, in
      any case of letters. */
  ghost predicate HasOption(m: Message, option: Bytes) {
    exists p | p in m.fields :: Gives(p, option)
  }

  /** Section 6.3 of RFC 7230: whether the connection stays open after the message. */
  ghost predicate Persists(m: Message) {
    !HasOption(m, "close")
    && (m.start.version >= 0x11 || (m.start.version == 0x10 && HasOption(m, "keep-alive")))
  }

  lemma WordLists(word: Bytes, option: Bytes)
    requires word == "close" || word == "keep-alive"
    ensures Lists(word, option) <==> SameUpToCase(word, option)
  {
    assert ',' !in word && Trimmed(word);
    assert Find(word, ',', 0) == |word|;
    assert [] + word + [] == word;
    TrimTakesOffBlanks([], word, []);
    var es := Elements(word);
    assert es == [word];
    hide Elements, SameUpToCase;
    assert SameUpToCase(es[0], option) ==> Lists(word, option);
  }

  lemma WordsDiffer()
    ensures !SameUpToCase("close", "keep-alive") && !SameUpToCase("keep-alive", "close")
    ensures SameUpToCase("close", "close") && SameUpToCase("keep-alive", "keep-alive")
  {
    hide SameLetter;
    var short: Bytes, long: Bytes := "close", "keep-alive";
    assert |short| != |long|;
    SameAsItself(short);
    SameAsItself(long);
  }

  /** Which fields of the message can give options. */
  lemma ConnectionFields(r: Request, p: Pair)
    ensures p in Fields(r) && SameKey(p.key, "connection")
       <==> if r.websocket then p in r.headers && SameKey(p.key, "connection")
            else p == Pair("connection", if r.close then "close" else "keep-alive")
  {
    ConnectionSays(r);
    NamedIsSameKey(p);
    OwnNames(r);
    hide Named, SameKey, ConnectionField, LengthField, Fold, Fields, OwnFields;
    FieldsAreIn(r);
    OwnFieldsAreIn(r);
  }

  lemma NamedIsSameKey(p: Pair)
    ensures Named(p, CONNECTION) <==> SameKey(p.key, "connection")
  {
    FoldKeeps(CONNECTION);
    hide Fold, SameKey;
    FoldIsKey(p.key, CONNECTION);
  }

  /** What a reader learns about the connection: outside a websocket upgrade the one option is the one
      the close flag stands for, so the connection stays open exactly when the flag is off and the
      version is at least 1.0; inside one the options are those of the user's own fields. */
  lemma OptionsReadBack(r: Request, m: Message, option: Bytes)
    requires WellFormed(r) && r.version < 256 && ReadMessage(Serialized(r)) == Some(m)
    ensures r.websocket ==> (HasOption(m, option) <==> exists p | p in r.headers :: Gives(p, option))
    ensures !r.websocket ==>
              (HasOption(m, option) <==> if r.close then SameUpToCase("close", option) else SameUpToCase("keep-alive", option))
    ensures !r.websocket ==> (Persists(m) <==> !r.close && r.version >= 0x10)
  {
    hide WellFormed, Serialized, ReadMessage, HasOption, Fields, SameUpToCase, Gives;
    MessageRead(r, m);
    OptionsOfFields(r, m, option);
    OptionsOfFields(r, m, "close");
    OptionsOfFields(r, m, "keep-alive");
    WordsDiffer();
  }

  lemma MessageRead(r: Request, m: Message)
    requires WellFormed(r) && r.version < 256 && ReadMessage(Serialized(r)) == Some(m)
    ensures m.fields == Fields(r) && m.start.version == r.version
  {
    hide WellFormed, Serialized, ReadMessage, Fields, LengthsAgree, VersionFits, HasTarget;
    DumpReadsBack(r);
  }

  lemma OptionsOfFields(r: Request, m: Message, option: Bytes)
    requires m.fields == Fields(r)
    ensures r.websocket ==> (HasOption(m, option) <==> exists p | p in r.headers :: Gives(p, option))
    ensures !r.websocket ==>
              (HasOption(m, option) <==> if r.close then SameUpToCase("close", option) else SameUpToCase("keep-alive", option))
  {
    hide Fields, SameUpToCase, SameKey, Lists;
    WordLists("close", option);
    WordLists("keep-alive", option);
    forall p ensures p in Fields(r) && SameKey(p.key, "connection")
                <==> if r.websocket then p in r.headers && SameKey(p.key, "connection")
                     else p == Pair("connection", if r.close then "close" else "keep-alive") {
      ConnectionFields(r, p);
    }
    var own := Pair("connection", if r.close then "close" else "keep-alive");
    if !r.websocket {
      assert own in Fields(r) && SameKey(own.key, "connection");
      assert Gives(own, option) <==> Lists(own.value, option);
    }
  }
}
