/** The lazily parsed parameters and cookies of `HttpRequest` in sylar/http/http.cpp. */
module HttpRequests {
  import opened Wrappers
  import opened ByteStrings
  import opened UrlCodec
  import opened ParamParsing

  const FORM_TYPE: Bytes := "application/x-www-form-urlencoded"

  // ---------------------------------------------------------------- values

  /** The fields that parsing reads and writes. The three flags are the bits of
      `m_parserParamFlag`. */
  datatype View = View(
    query: Bytes,
    body: Bytes,
    headers: ParamMap,
    params: ParamMap,
    cookies: ParamMap,
    queryParsed: bool,
    bodyParsed: bool,
    cookiesParsed: bool
  )

  function Lookup(m: ParamMap, key: Bytes, def: Bytes): Bytes {
    if Fold(key) in m then m[Fold(key)].value else def
  }

  /** `strcasestr(hay, needle) != nullptr` on strings already folded. */
  predicate Contains(hay: Bytes, needle: Bytes) {
    needle <= hay || (hay != [] && Contains(hay[1..], needle))
  }

  predicate IsForm(headers: ParamMap) {
    Contains(Fold(Lookup(headers, "content-type", "")), FORM_TYPE)
  }

  function QueryInit(v: View): View {
    if v.queryParsed then v
    else v.(params := InsertAll(v.params, Segments(v.query, '&'), false), queryParsed := true)
  }

  function BodyInit(v: View): View {
    if v.bodyParsed then v
    else if IsForm(v.headers) then
      v.(params := InsertAll(v.params, Segments(v.body, '&'), false), bodyParsed := true)
    else v.(bodyParsed := true)
  }

  function CookieInit(v: View): View {
    if v.cookiesParsed then v
    else
      var cookie := Lookup(v.headers, "cookie", "");
      if cookie == [] then v.(cookiesParsed := true)
      else v.(cookies := InsertAll(v.cookies, Segments(cookie, ';'), true), cookiesParsed := true)
  }

  /** What `getParam` and `hasParam` do before they look the key up. */
  function Read(v: View): View {
    BodyInit(QueryInit(v))
  }

  datatype Op =
    | ReadParam(key: Bytes)                  // getParam, hasParam, getParamAs, checkGetParamAs
    | ReadCookie(key: Bytes)
    | InitParam
    | InitQuery
    | InitBody
    | SetParam(key: Bytes, value: Bytes)
    | DelParam(key: Bytes)
    | SetCookie(key: Bytes, value: Bytes)
    | DelCookie(key: Bytes)
    | SetHeader(key: Bytes, value: Bytes)
    | DelHeader(key: Bytes)
    | SetParams(all: ParamMap)
    | SetCookies(all: ParamMap)
    | SetHeaders(all: ParamMap)
    | SetQuery(text: Bytes)
    | SetBody(text: Bytes)

  function Do(v: View, op: Op): View {
    match op
    case ReadParam(_) => Read(v)
    case ReadCookie(_) => CookieInit(v)
    case InitParam => CookieInit(Read(v))
    case InitQuery => QueryInit(v)
    case InitBody => BodyInit(v)
    case SetParam(key, value) => v.(params := Assign(v.params, key, value))
    case DelParam(key) => v.(params := Erase(v.params, key))
    case SetCookie(key, value) => v.(cookies := Assign(v.cookies, key, value))
    case DelCookie(key) => v.(cookies := Erase(v.cookies, key))
    case SetHeader(key, value) => v.(headers := Assign(v.headers, key, value))
    case DelHeader(key) => v.(headers := Erase(v.headers, key))
    case SetParams(all) => v.(params := all)
    case SetCookies(all) => v.(cookies := all)
    case SetHeaders(all) => v.(headers := all)
    case SetQuery(text) => v.(query := text)
    case SetBody(text) => v.(body := text)
  }

  function DoAll(v: View, ops: seq<Op>): View
    decreases |ops|
  {
    if ops == [] then v else DoAll(Do(v, ops[0]), ops[1..])
  }

  /** The calls that see to it that query and body are parsed, and those that parse anything. */
  predicate Reads(op: Op) {
    op.ReadParam? || op.InitParam?
  }

  predicate Parses(op: Op) {
    Reads(op) || op.InitQuery? || op.InitBody?
  }

  // ---------------------------------------------------------------- every sequence of calls

  /** The explicit change that a call makes to the parameters, and the one it makes to the cookies. */
  function ParamEdit(m: ParamMap, op: Op): ParamMap {
    match op
    case SetParam(key, value) => Assign(m, key, value)
    case DelParam(key) => Erase(m, key)
    case SetParams(all) => all
    case _ => m
  }

  function CookieEdit(m: ParamMap, op: Op): ParamMap {
    match op
    case SetCookie(key, value) => Assign(m, key, value)
    case DelCookie(key) => Erase(m, key)
    case SetCookies(all) => all
    case _ => m
  }

  /** The explicit changes of a sequence of calls to the parameters, and nothing else. */
  function Edits(m: ParamMap, ops: seq<Op>): ParamMap
    decreases |ops|
  {
    if ops == [] then m else Edits(ParamEdit(m, ops[0]), ops[1..])
  }

  function CookieEdits(m: ParamMap, ops: seq<Op>): ParamMap
    decreases |ops|
  {
    if ops == [] then m else CookieEdits(CookieEdit(m, ops[0]), ops[1..])
  }

  /** Neither the query nor the body has been parsed, or both have. */
  ghost predicate Unread(v: View) { !v.queryParsed && !v.bodyParsed }
  ghost predicate AlreadyRead(v: View) { v.queryParsed && v.bodyParsed }

  lemma ReadOnce(v: View, op: Op)
    requires AlreadyRead(v)
    ensures AlreadyRead(Do(v, op)) && Do(v, op).params == ParamEdit(v.params, op)
  {
    hide InsertAll, Segments, IsForm, Fold, Assign, Erase;
  }

  lemma NotYetRead(v: View, op: Op)
    requires Unread(v) && !Parses(op)
    ensures Unread(Do(v, op)) && Do(v, op).params == ParamEdit(v.params, op)
  {
    hide InsertAll, Segments, IsForm, Fold, Assign, Erase;
  }

  /** After the first read nothing but explicit changes ever alters the parameters: later
      reads, and later changes of query, body or headers, do not. */
  lemma {:induction false} AfterReadOnlyEdits(v: View, ops: seq<Op>)
    requires AlreadyRead(v)
    ensures AlreadyRead(DoAll(v, ops)) && DoAll(v, ops).params == Edits(v.params, ops)
    decreases |ops|
  {
    hide AlreadyRead, Do, ParamEdit;
    if ops != [] {
      ReadOnce(v, ops[0]);
      AfterReadOnlyEdits(Do(v, ops[0]), ops[1..]);
    }
  }

  /** Before the first read nothing is parsed. */
  lemma {:induction false} BeforeReadOnlyEdits(v: View, ops: seq<Op>)
    requires Unread(v) && forall i | 0 <= i < |ops| :: !Parses(ops[i])
    ensures Unread(DoAll(v, ops)) && DoAll(v, ops).params == Edits(v.params, ops)
    decreases |ops|
  {
    hide Unread, Parses, Do, ParamEdit;
    if ops != [] {
      NotYetRead(v, ops[0]);
      BeforeReadOnlyEdits(Do(v, ops[0]), ops[1..]);
    }
  }

  /** The same parameters, with the same sources parsed; the sources still to be parsed are the same
      too. Parsed sources and cookies may differ. */
  ghost predicate Alike(a: View, b: View) {
    && a.params == b.params && a.queryParsed == b.queryParsed && a.bodyParsed == b.bodyParsed
    && (!a.queryParsed ==> a.query == b.query)
    && (!a.bodyParsed ==> a.body == b.body && a.headers == b.headers)
  }

  lemma QueryStaysAlike(a: View, b: View)
    requires Alike(a, b)
    ensures Alike(QueryInit(a), QueryInit(b))
  {
    hide InsertAll, Segments;
  }

  lemma BodyStaysAlike(a: View, b: View)
    requires Alike(a, b)
    ensures Alike(BodyInit(a), BodyInit(b))
  {
    hide BodyInit, WithBody;
    BodyInitIs(a);
    BodyInitIs(b);
  }

  function WithBody(m: ParamMap, body: Bytes, headers: ParamMap): ParamMap {
    if IsForm(headers) then InsertAll(m, Segments(body, '&'), false) else m
  }

  lemma BodyInitIs(v: View)
    ensures BodyInit(v) == if v.bodyParsed then v
                           else v.(params := WithBody(v.params, v.body, v.headers), bodyParsed := true)
  {
    hide InsertAll, Segments, IsForm;
  }

  lemma CookiesStayApart(a: View, b: View)
    requires Alike(a, b)
    ensures Alike(CookieInit(a), CookieInit(b))
  {
    hide InsertAll, Segments, Lookup;
  }

  lemma InitsStayAlike(a: View, b: View)
    requires Alike(a, b)
    ensures Alike(QueryInit(a), QueryInit(b)) && Alike(BodyInit(a), BodyInit(b)) && Alike(CookieInit(a), CookieInit(b))
  {
    hide Alike, QueryInit, BodyInit, CookieInit;
    QueryStaysAlike(a, b);
    BodyStaysAlike(a, b);
    CookiesStayApart(a, b);
  }

  lemma EditsStayAlike(a: View, b: View, op: Op)
    requires Alike(a, b) && !Parses(op) && !op.ReadCookie?
    ensures Alike(Do(a, op), Do(b, op))
  {
    hide Assign, Erase;
  }

  lemma StayAlike(a: View, b: View, op: Op)
    requires Alike(a, b)
    ensures Alike(Do(a, op), Do(b, op))
  {
    hide Alike, QueryInit, BodyInit, CookieInit;
    if Parses(op) || op.ReadCookie? {
      InitsStayAlike(a, b);
      InitsStayAlike(QueryInit(a), QueryInit(b));
      InitsStayAlike(Read(a), Read(b));
    } else {
      EditsStayAlike(a, b, op);
    }
  }

  /** A source that has been parsed is never looked at again, in any sequence of calls: whatever it
      says, the parameters come out the same. */
  lemma {:induction false} ParsedSourcesAreIgnored(a: View, b: View, ops: seq<Op>)
    requires Alike(a, b)
    ensures DoAll(a, ops).params == DoAll(b, ops).params
    decreases |ops|
  {
    hide Do;
    if ops != [] {
      StayAlike(a, b, ops[0]);
      ParsedSourcesAreIgnored(Do(a, ops[0]), Do(b, ops[0]), ops[1..]);
    }
  }

  lemma {:induction false} DoAllConcat(v: View, a: seq<Op>, b: seq<Op>)
    ensures DoAll(v, a + b) == DoAll(DoAll(v, a), b)
    decreases |a|
  {
    hide Do;
    if a == [] {
      assert a + b == b;
    } else {
      DoAllConcat(Do(v, a[0]), a[1..], b);
      assert (a + b)[1..] == a[1..] + b;
    }
  }

  /** The parameters that a first read leaves. */
  function Merged(v: View): ParamMap {
    WithBody(InsertAll(v.params, Segments(v.query, '&'), false), v.body, v.headers)
  }

  /** Any sequence of calls that contains a read: query and body are parsed once, as they are
      at the first read, on top of the explicit changes made before it, and everything after
      it is explicit changes. */
  lemma OneParsePerSource(v: View, before: seq<Op>, read: Op, after: seq<Op>)
    requires Unread(v) && Reads(read) && forall i | 0 <= i < |before| :: !Parses(before[i])
    ensures var atRead := DoAll(v, before);
            && atRead.params == Edits(v.params, before)
            && DoAll(v, before + [read] + after).params == Edits(Merged(atRead), after)
  {
    hide Merged, Reads, Parses, Do, Unread, Edits;
    BeforeReadOnlyEdits(v, before);
    FromFirstRead(DoAll(v, before), read, after);
    DoAllConcat(v, before, [read] + after);
    assert before + [read] + after == before + ([read] + after);
  }

  lemma FromFirstRead(v: View, read: Op, after: seq<Op>)
    requires Unread(v) && Reads(read)
    ensures DoAll(v, [read] + after).params == Edits(Merged(v), after)
  {
    FirstRead(v, read);
    AfterReadOnlyEdits(Do(v, read), after);
    assert ([read] + after)[1..] == after;
  }

  lemma FirstRead(v: View, read: Op)
    requires Unread(v) && Reads(read)
    ensures AlreadyRead(Do(v, read)) && Do(v, read).params == Merged(v)
  {
    hide InsertAll, Segments, IsForm;
  }

  /** Which value a first read gives a key: an explicit one if there is one, otherwise the
      first in the query, otherwise, for a form, the first in the body. */
  lemma MergedPriority(v: View, key: Bytes, def: Bytes)
    ensures var qs, bs := Segments(v.query, '&'), Segments(v.body, '&');
            var q, b := FirstWith(qs, Fold(key), false), FirstWith(bs, Fold(key), false);
            Lookup(Merged(v), key, def) ==
            if Fold(key) in v.params then v.params[Fold(key)].value
            else if q < |qs| then Decoded(qs[q].value, true)
            else if IsForm(v.headers) && b < |bs| then Decoded(bs[b].value, true)
            else def
  {
    var qs, bs := Segments(v.query, '&'), Segments(v.body, '&');
    InsertAllIsFirstWins(v.params, qs, false, Fold(key));
    InsertAllIsFirstWins(InsertAll(v.params, qs, false), bs, false, Fold(key));
  }

  lemma ReadPriority(v: View, key: Bytes, def: Bytes)
    requires Unread(v)
    ensures var qs, bs := Segments(v.query, '&'), Segments(v.body, '&');
            var q, b := FirstWith(qs, Fold(key), false), FirstWith(bs, Fold(key), false);
            Lookup(Read(v).params, key, def) ==
            if Fold(key) in v.params then v.params[Fold(key)].value
            else if q < |qs| then Decoded(qs[q].value, true)
            else if IsForm(v.headers) && b < |bs| then Decoded(bs[b].value, true)
            else def
  {
    MergedPriority(v, key, def);
    FirstRead(v, ReadParam(key));
    hide Merged, Read, Segments, FirstWith, Fold, Lookup, Decoded, IsForm;
    assert Do(v, ReadParam(key)) == Read(v);
  }

  /** The segments of a text written from a list of pairs. */
  lemma WrittenSegments(ps: seq<Pair>, spaceAsPlus: bool, f: Bytes)
    requires forall i | 0 <= i < |ps| :: '=' !in ps[i].key
    ensures var es := Segments(Rendered(Escaped(ps, spaceAsPlus), '&'), '&');
            var k := FirstWith(ps, f, false);
            && |es| == |ps| && FirstWith(es, f, false) == k
            && (k < |ps| ==> Decoded(es[k].value, true) == ps[k].value)
  {
    hide Segments, Rendered, FirstWith, Decoded;
    var es := Escaped(ps, spaceAsPlus);
    EscapedIsClean(ps, '&', spaceAsPlus);
    SegmentsOfReading(Rendered(es, '&'), es, '&', None);
    FirstWithEscaped(ps, spaceAsPlus, f, false);
    var k := FirstWith(ps, f, false);
    if k < |ps| {
      DecodeUndoesEncode(ps[k].value, spaceAsPlus, true);
    }
  }

  /** A query built from a list of pairs reads back: a key that is not set explicitly has the first
      value in the list, whatever is asked first, and only a key that is not in it falls through to
      the body of a form. */
  lemma QueryReadsBack(v: View, ps: seq<Pair>, spaceAsPlus: bool, key: Bytes, def: Bytes)
    requires Unread(v) && forall i | 0 <= i < |ps| :: '=' !in ps[i].key
    requires v.query == Rendered(Escaped(ps, spaceAsPlus), '&')
    ensures var k := FirstWith(ps, Fold(key), false);
            var bs := Segments(v.body, '&');
            var b := FirstWith(bs, Fold(key), false);
            Lookup(Read(v).params, key, def) ==
            if Fold(key) in v.params then v.params[Fold(key)].value
            else if k < |ps| then ps[k].value
            else if IsForm(v.headers) && b < |bs| then Decoded(bs[b].value, true)
            else def
  {
    hide Segments, Rendered, FirstWith, Escaped, IsForm, Fold, Lookup, Decoded, Read;
    ReadPriority(v, key, def);
    WrittenSegments(ps, spaceAsPlus, Fold(key));
  }

  // ---------------------------------------------------------------- what counts as a form

  lemma {:induction false} ContainsIff(hay: Bytes, needle: Bytes)
    ensures Contains(hay, needle) <==> exists i | 0 <= i <= |hay| :: needle <= hay[i..]
  {
    if needle <= hay {
      assert hay[0..] == hay;
    } else if hay != [] {
      ContainsIff(hay[1..], needle);
      assert forall i | 0 <= i <= |hay| - 1 :: hay[1..][i..] == hay[i + 1..];
      if i :| 0 <= i <= |hay| && needle <= hay[i..] {
        assert hay[0..] == hay;
        assert hay[1..][i - 1..] == hay[i..];
      }
    } else {
      assert forall i | 0 <= i <= |hay| :: hay[i..] == hay;
    }
  }

  /** The media type of a form, in any case of letters, stands at `i`. */
  ghost predicate FormTypeAt(v: Bytes, i: nat) {
    i + 33 <= |v| && var form: Bytes := "application/x-www-form-urlencoded"; SameUpToCase(v[i..i + 33], form)
  }

  lemma FormTypeIsFolded()
    ensures |FORM_TYPE| == 33 && LowerAll(FORM_TYPE) == FORM_TYPE && Fold("content-type") == "content-type"
  {
    FormTypeIsSmall();
    hide FORM_TYPE;
    FoldKeeps(FORM_TYPE);
    FoldKeeps("content-type");
  }

  lemma FormTypeIsSmall()
    ensures |FORM_TYPE| == 33
    ensures forall i | 0 <= i < |FORM_TYPE| :: 'a' <= FORM_TYPE[i] <= 'z' || FORM_TYPE[i] in "-/"
  {
  }

  lemma FormTypeAtIff(v: Bytes, i: nat)
    requires i <= |v|
    ensures FORM_TYPE <= LowerAll(v)[i..] <==> FormTypeAt(v, i)
  {
    FormTypeIsFolded();
    hide SameUpToCase, Lower;
    if i + 33 <= |v| {
      LowerAllIsSame(v[i..i + 33], FORM_TYPE);
      assert LowerAll(v[i..i + 33]) == LowerAll(v)[i..i + 33];
      assert LowerAll(v)[i..][..33] == LowerAll(v)[i..i + 33];
    }
  }

  lemma FormTypeIsInside(v: Bytes)
    ensures forall i: nat :: FormTypeAt(v, i) ==> i <= |v|
  {
  }

  /** The body counts as a form exactly when a content-type header is there and, before any NUL in its
      value, somewhere in it the media type stands in whatever case. */
  lemma FormsAreFound(headers: ParamMap)
    ensures IsForm(headers)
       <==> "content-type" in headers && exists i: nat :: FormTypeAt(UpToNul(headers["content-type"].value), i)
  {
    var value := Lookup(headers, "content-type", "");
    var v := UpToNul(value);
    FormTypeIsFolded();
    UpToNulIsCStr(value);
    ContainsIff(Fold(value), FORM_TYPE);
    hide FORM_TYPE, FormTypeAt, Contains;
    forall i: nat | i <= |v| ensures FORM_TYPE <= LowerAll(v)[i..] <==> FormTypeAt(v, i) {
      FormTypeAtIff(v, i);
    }
    FormTypeIsInside(v);
  }

  lemma UpToNulOfThree(left: Bytes, form: Bytes, right: Bytes)
    requires '\0' !in left && '\0' !in form
    ensures left + form <= UpToNul(left + form + right)
  {
    var v := left + form + right;
    UpToNulIsCStr(v);
    assert forall i | 0 <= i < |left + form| :: v[i] == (left + form)[i] && (left + form)[i] in left + form;
  }

  lemma FormHasNoNul(form: Bytes)
    requires SameUpToCase(form, FORM_TYPE)
    ensures '\0' !in form && |form| == 33
  {
    FormTypeIsSmall();
    hide FORM_TYPE;
    assert forall i | 0 <= i < |form| :: form[i] != '\0';
  }

  lemma FormHeaderCounts(headers: ParamMap, name: Bytes, left: Bytes, form: Bytes, right: Bytes)
    requires SameKey(name, "content-type") && '\0' !in left && SameUpToCase(form, FORM_TYPE)
    ensures IsForm(Assign(headers, name, left + form + right))
  {
    FormTypeIsFolded();
    hide SameUpToCase, SameKey, Fold, UpToNul, IsForm;
    var all := Assign(headers, name, left + form + right);
    var v := UpToNul(left + form + right);
    FormHasNoNul(form);
    FoldIsKey(name, "content-type");
    UpToNulOfThree(left, form, right);
    FormsAreFound(all);
    assert v[|left|..|left| + 33] == (left + form)[|left|..|left| + 33] == form;
    assert FormTypeAt(v, |left|);
  }

  /** A header stored under any spelling of content-type, with any text around the media type of a form
      in any case, makes the first read parse the body: the pairs it was written from come out, behind
      explicit values and the query. */
  lemma FormBodyReadsBack(v: View, name: Bytes, left: Bytes, form: Bytes, right: Bytes,
                          ps: seq<Pair>, spaceAsPlus: bool, key: Bytes, def: Bytes)
    requires Unread(v) && SameKey(name, "content-type") && '\0' !in left
    requires var media: Bytes := "application/x-www-form-urlencoded"; SameUpToCase(form, media)
    requires forall i | 0 <= i < |ps| :: '=' !in ps[i].key
    ensures var calls := [SetHeader(name, left + form + right), SetBody(Rendered(Escaped(ps, spaceAsPlus), '&')), ReadParam(key)];
            var qs := Segments(v.query, '&');
            var q, k := FirstWith(qs, Fold(key), false), FirstWith(ps, Fold(key), false);
            Lookup(DoAll(v, calls).params, key, def) ==
            if Fold(key) in v.params then v.params[Fold(key)].value
            else if q < |qs| then Decoded(qs[q].value, true)
            else if k < |ps| then ps[k].value
            else def
  {
    FormHeaderCounts(v.headers, name, left, form, right);
    hide IsForm, Fold, SameKey, SameUpToCase, Assign, Rendered, Escaped, DoAll, Read, Segments, FirstWith, Lookup, Decoded;
    var value, text := left + form + right, Rendered(Escaped(ps, spaceAsPlus), '&');
    FormCalls(v, name, value, text, key);
    FormReadsBack(v.(headers := Assign(v.headers, name, value), body := text), ps, spaceAsPlus, key, def);
  }

  lemma FormCalls(v: View, name: Bytes, value: Bytes, text: Bytes, key: Bytes)
    ensures DoAll(v, [SetHeader(name, value), SetBody(text), ReadParam(key)])
         == Read(v.(headers := Assign(v.headers, name, value), body := text))
  {
    hide Assign, Read;
    ThreeCalls(v, SetHeader(name, value), SetBody(text), ReadParam(key));
  }

  lemma FormReadsBack(w: View, ps: seq<Pair>, spaceAsPlus: bool, key: Bytes, def: Bytes)
    requires Unread(w) && IsForm(w.headers) && w.body == Rendered(Escaped(ps, spaceAsPlus), '&')
    requires forall i | 0 <= i < |ps| :: '=' !in ps[i].key
    ensures var qs := Segments(w.query, '&');
            var q, k := FirstWith(qs, Fold(key), false), FirstWith(ps, Fold(key), false);
            Lookup(Read(w).params, key, def) ==
            if Fold(key) in w.params then w.params[Fold(key)].value
            else if q < |qs| then Decoded(qs[q].value, true)
            else if k < |ps| then ps[k].value
            else def
  {
    hide Segments, Rendered, FirstWith, Escaped, IsForm, Fold, Lookup, Decoded, Read;
    ReadPriority(w, key, def);
    WrittenSegments(ps, spaceAsPlus, Fold(key));
  }

  lemma ThreeCalls(v: View, a: Op, b: Op, c: Op)
    ensures DoAll(v, [a, b, c]) == Do(Do(Do(v, a), b), c)
  {
    hide Do;
    var ops := [a, b, c];
    assert ops[1..] == [b, c] && ops[1..][1..] == [c] && ops[1..][1..][1..] == [];
    assert DoAll(v, ops) == DoAll(Do(v, a), ops[1..]);
    assert DoAll(Do(v, a), ops[1..]) == DoAll(Do(Do(v, a), b), ops[1..][1..]);
  }

  // ---------------------------------------------------------------- the sources themselves

  datatype Sources = Sources(query: Bytes, body: Bytes, headers: ParamMap)

  function SourcesOf(v: View): Sources {
    Sources(v.query, v.body, v.headers)
  }

  function SourceEdit(src: Sources, op: Op): Sources {
    match op
    case SetQuery(text) => src.(query := text)
    case SetBody(text) => src.(body := text)
    case SetHeader(key, value) => src.(headers := Assign(src.headers, key, value))
    case DelHeader(key) => src.(headers := Erase(src.headers, key))
    case SetHeaders(all) => src.(headers := all)
    case _ => src
  }

  /** The sources after a sequence of calls: what was last set, the headers edited in order. */
  function SourceEdits(src: Sources, ops: seq<Op>): Sources
    decreases |ops|
  {
    if ops == [] then src else SourceEdits(SourceEdit(src, ops[0]), ops[1..])
  }

  lemma SourceFollowsEdit(v: View, op: Op)
    ensures SourcesOf(Do(v, op)) == SourceEdit(SourcesOf(v), op)
  {
    hide QueryInit, BodyInit, CookieInit, Assign, Erase;
    InitsKeepSources(v);
    InitsKeepSources(QueryInit(v));
    InitsKeepSources(Read(v));
  }

  lemma InitsKeepSources(v: View)
    ensures SourcesOf(QueryInit(v)) == SourcesOf(BodyInit(v)) == SourcesOf(CookieInit(v)) == SourcesOf(v)
  {
    hide InsertAll, Segments, IsForm, Lookup;
  }

  /** No read changes a source, nor does any edit of parameters or cookies. */
  lemma {:induction false} SourcesFollowEdits(v: View, ops: seq<Op>)
    ensures SourcesOf(DoAll(v, ops)) == SourceEdits(SourcesOf(v), ops)
    decreases |ops|
  {
    hide Do, SourceEdit, SourcesOf;
    if ops != [] {
      SourceFollowsEdit(v, ops[0]);
      SourcesFollowEdits(Do(v, ops[0]), ops[1..]);
    }
  }

  // ---------------------------------------------------------------- cookies

  predicate Looks(op: Op) {
    op.ReadCookie? || op.InitParam?
  }

  /** The cookies that a first look leaves. */
  function WithHeader(v: View): ParamMap {
    InsertAll(v.cookies, Segments(Lookup(v.headers, "cookie", ""), ';'), true)
  }

  lemma FirstLook(v: View, look: Op)
    requires !v.cookiesParsed && Looks(look)
    ensures Do(v, look).cookiesParsed && Do(v, look).cookies == WithHeader(v)
  {
    NoSegments([], ';');
    InsertNone(v.cookies, true);
    hide InsertAll, Segments, Lookup, Read;
    ReadKeepsCookies(v);
  }

  lemma ReadKeepsCookies(v: View)
    ensures Read(v).cookies == v.cookies && Read(v).headers == v.headers && Read(v).cookiesParsed == v.cookiesParsed
  {
    hide InsertAll, Segments, IsForm;
  }

  lemma NotYetLooked(v: View, op: Op)
    requires !v.cookiesParsed && !Looks(op)
    ensures !Do(v, op).cookiesParsed && Do(v, op).cookies == CookieEdit(v.cookies, op)
  {
    hide InsertAll, Segments, IsForm, Lookup, Assign, Erase;
  }

  lemma {:induction false} BeforeLookOnlyEdits(v: View, ops: seq<Op>)
    requires !v.cookiesParsed && forall i | 0 <= i < |ops| :: !Looks(ops[i])
    ensures !DoAll(v, ops).cookiesParsed && DoAll(v, ops).cookies == CookieEdits(v.cookies, ops)
    decreases |ops|
  {
    hide Do, CookieEdit, Looks;
    if ops != [] {
      NotYetLooked(v, ops[0]);
      BeforeLookOnlyEdits(Do(v, ops[0]), ops[1..]);
    }
  }

  /** Any sequence of calls that contains a look at the cookies: the header is parsed once, as it is at
      the first look, on top of the explicit changes before it, and all after it is explicit changes. */
  lemma OneParseOfCookies(v: View, before: seq<Op>, look: Op, after: seq<Op>)
    requires !v.cookiesParsed && Looks(look) && forall i | 0 <= i < |before| :: !Looks(before[i])
    ensures var atLook := DoAll(v, before);
            && atLook.cookies == CookieEdits(v.cookies, before)
            && DoAll(v, before + [look] + after).cookies == CookieEdits(WithHeader(atLook), after)
  {
    hide WithHeader, Looks, Do;
    BeforeLookOnlyEdits(v, before);
    var atLook := DoAll(v, before);
    FirstLook(atLook, look);
    AfterLookOnlyEdits(Do(atLook, look), after);
    DoAllConcat(v, before, [look] + after);
    assert before + [look] + after == before + ([look] + after);
    assert ([look] + after)[1..] == after;
  }

  /** Cookies are parsed once too: after a first look no header change is seen, and nothing but
      explicit changes alters them. */
  lemma {:induction false} AfterLookOnlyEdits(v: View, ops: seq<Op>)
    requires v.cookiesParsed
    ensures DoAll(v, ops).cookies == CookieEdits(v.cookies, ops) && DoAll(v, ops).cookiesParsed
    decreases |ops|
  {
    if ops != [] {
      LookedOnce(v, ops[0]);
      AfterLookOnlyEdits(Do(v, ops[0]), ops[1..]);
    }
  }

  lemma LookedOnce(v: View, op: Op)
    requires v.cookiesParsed
    ensures Do(v, op).cookies == CookieEdit(v.cookies, op) && Do(v, op).cookiesParsed
  {
    hide InsertAll, Segments, IsForm, Fold, Assign, Erase;
  }

  ghost predicate EditsCookies(op: Op) {
    op.SetCookie? || op.DelCookie? || op.SetCookies?
  }

  lemma {:induction false} CookiesStay(v: View, ops: seq<Op>)
    requires v.cookiesParsed && forall i | 0 <= i < |ops| :: !EditsCookies(ops[i])
    ensures DoAll(v, ops).cookies == v.cookies
    decreases |ops|
  {
    if ops != [] {
      LookedOnce(v, ops[0]);
      assert !EditsCookies(ops[0]);
      CookiesStay(Do(v, ops[0]), ops[1..]);
    }
  }

  /** An edit is seen under every spelling of its key and under no other key. */
  lemma EditsAreSeen(m: ParamMap, key: Bytes, value: Bytes, other: Bytes, def: Bytes)
    ensures Lookup(Assign(m, key, value), other, def) == if SameKey(other, key) then value else Lookup(m, other, def)
    ensures Lookup(Erase(m, key), other, def) == if SameKey(other, key) then def else Lookup(m, other, def)
  {
    hide Fold, SameKey;
    FoldIsKey(other, key);
  }

  /** The spelling first stored stays with its key, and no other key is touched. */
  lemma FirstSpellingStays(m: ParamMap, key: Bytes, value: Bytes, again: Bytes, value': Bytes)
    requires Fold(key) !in m && SameKey(again, key)
    ensures Assign(Assign(m, key, value), again, value') == m[Fold(key) := Pair(key, value')]
    ensures Assign(Erase(Assign(m, key, value), again), again, value') == m[Fold(key) := Pair(again, value')]
  {
    hide Fold, SameKey;
    FoldIsKey(again, key);
    assert m - {Fold(key)} == m;
  }

  /** The cookie a first look finds: an explicitly set one, otherwise the first with this
      trimmed name in the cookie header. */
  lemma CookiePriority(v: View, look: Op, key: Bytes, def: Bytes)
    requires !v.cookiesParsed && Looks(look)
    ensures var cs := Segments(Lookup(v.headers, "cookie", ""), ';');
            var k := FirstWith(cs, Fold(key), true);
            Lookup(Do(v, look).cookies, key, def) ==
            if Fold(key) in v.cookies then v.cookies[Fold(key)].value
            else if k < |cs| then Decoded(cs[k].value, true) else def
  {
    hide Do, Looks;
    FirstLook(v, look);
    InsertAllIsFirstWins(v.cookies, Segments(Lookup(v.headers, "cookie", ""), ';'), true, Fold(key));
  }

  // ---------------------------------------------------------------- the object

  class HttpRequest {
    var query: Bytes
    var body: Bytes
    var headers: ParamMap
    var params: ParamMap
    var cookies: ParamMap
    var parserParamFlag: bv8

    constructor ()
      ensures Abs() == View([], [], map[], map[], map[], false, false, false)
    {
      query, body, headers, params, cookies, parserParamFlag := [], [], map[], map[], map[], 0;
    }

    function Abs(): View
      reads this
    {
      View(query, body, headers, params, cookies,
           parserParamFlag & 1 != 0, parserParamFlag & 2 != 0, parserParamFlag & 4 != 0)
    }

    method InitQueryParam()
      modifies this
      ensures Abs() == QueryInit(old(Abs()))
    {
      if parserParamFlag & 1 != 0 {
        return;
      }
      params := ParseParam(query, params, '&', false);
      parserParamFlag := parserParamFlag | 1;
    }

    method InitBodyParam()
      modifies this
      ensures Abs() == BodyInit(old(Abs()))
    {
      if parserParamFlag & 2 != 0 {
        return;
      }
      var contentType := Lookup(headers, "content-type", "");
      if !Contains(Fold(contentType), FORM_TYPE) {
        parserParamFlag := parserParamFlag | 2;
        return;
      }
      params := ParseParam(body, params, '&', false);
      parserParamFlag := parserParamFlag | 2;
    }

    method InitCookies()
      modifies this
      ensures Abs() == CookieInit(old(Abs()))
    {
      if parserParamFlag & 4 != 0 {
        return;
      }
      var cookie := Lookup(headers, "cookie", "");
      if cookie == [] {
        parserParamFlag := parserParamFlag | 4;
        return;
      }
      cookies := ParseParam(cookie, cookies, ';', true);
      parserParamFlag := parserParamFlag | 4;
    }

    method InitParam()
      modifies this
      ensures Abs() == Do(old(Abs()), Op.InitParam)
    {
      InitQueryParam();
      InitBodyParam();
      InitCookies();
    }

    method GetParam(key: Bytes, def: Bytes) returns (r: Bytes)
      modifies this
      ensures Abs() == Do(old(Abs()), ReadParam(key)) && r == Lookup(Abs().params, key, def)
    {
      InitQueryParam();
      InitBodyParam();
      r := Lookup(params, key, def);
    }

    /** `val` is the out-parameter, which is left alone when the key is missing. */
    method HasParam(key: Bytes, val: Bytes) returns (found: bool, val': Bytes)
      modifies this
      ensures Abs() == Do(old(Abs()), ReadParam(key))
      ensures found <==> Fold(key) in Abs().params
      ensures val' == Lookup(Abs().params, key, val)
    {
      InitQueryParam();
      InitBodyParam();
      found, val' := Fold(key) in params, Lookup(params, key, val);
    }

    method GetCookie(key: Bytes, def: Bytes) returns (r: Bytes)
      modifies this
      ensures Abs() == Do(old(Abs()), ReadCookie(key)) && r == Lookup(Abs().cookies, key, def)
    {
      InitCookies();
      r := Lookup(cookies, key, def);
    }

    method HasCookie(key: Bytes, val: Bytes) returns (found: bool, val': Bytes)
      modifies this
      ensures Abs() == Do(old(Abs()), ReadCookie(key))
      ensures found <==> Fold(key) in Abs().cookies
      ensures val' == Lookup(Abs().cookies, key, val)
    {
      InitCookies();
      found, val' := Fold(key) in cookies, Lookup(cookies, key, val);
    }

    method SetParam(key: Bytes, value: Bytes)
      modifies this`params
      ensures Abs() == Do(old(Abs()), Op.SetParam(key, value))
    {
      params := Assign(params, key, value);
    }

    method DelParam(key: Bytes)
      modifies this`params
      ensures Abs() == Do(old(Abs()), Op.DelParam(key))
    {
      params := Erase(params, key);
    }

    method SetCookie(key: Bytes, value: Bytes)
      modifies this`cookies
      ensures Abs() == Do(old(Abs()), Op.SetCookie(key, value))
    {
      cookies := Assign(cookies, key, value);
    }

    method DelCookie(key: Bytes)
      modifies this`cookies
      ensures Abs() == Do(old(Abs()), Op.DelCookie(key))
    {
      cookies := Erase(cookies, key);
    }

    method DelHeader(key: Bytes)
      modifies this`headers
      ensures Abs() == Do(old(Abs()), Op.DelHeader(key))
    {
      headers := Erase(headers, key);
    }

    method SetParams(all: ParamMap)
      modifies this`params
      ensures Abs() == Do(old(Abs()), Op.SetParams(all))
    {
      params := all;
    }

    method SetCookies(all: ParamMap)
      modifies this`cookies
      ensures Abs() == Do(old(Abs()), Op.SetCookies(all))
    {
      cookies := all;
    }

    method SetHeaders(all: ParamMap)
      modifies this`headers
      ensures Abs() == Do(old(Abs()), Op.SetHeaders(all))
    {
      headers := all;
    }

    method SetHeader(key: Bytes, value: Bytes)
      modifies this`headers
      ensures Abs() == Do(old(Abs()), Op.SetHeader(key, value))
    {
      headers := Assign(headers, key, value);
    }

    method SetQuery(text: Bytes)
      modifies this`query
      ensures Abs() == Do(old(Abs()), Op.SetQuery(text))
    {
      query := text;
    }

    method SetBody(text: Bytes)
      modifies this`body
      ensures Abs() == Do(old(Abs()), Op.SetBody(text))
    {
      body := text;
    }
  }
}
