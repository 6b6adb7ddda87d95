/** JSON texts as values of the grammar, and the feed scanner's agreement with it. */
module FeedGrammar {
  // Whatever the nesting, white space or string content.  A value is rendered in front of the
  // text `k` that follows it.

  import opened Wrappers
  import opened Text
  import opened FeedScanner

  datatype Value =
    | Str(body: string)
    | Scalar(text: string)
    | EmptyArr(ws: string)
    | Arr(elems: Elems)
    | EmptyObj(ws: string)
    | Obj(members: Members)

  datatype Elems =
    | OneElem(pre: string, v: Value, post: string)
    | MoreElems(pre: string, v: Value, post: string, rest: Elems)

  datatype Members =
    | OneMember(pre: string, name: string, mid: string, lead: string, v: Value, post: string)
    | MoreMembers(pre: string, name: string, mid: string, lead: string, v: Value, post: string, rest: Members)

  /* ---------------------------------------------------------------- well-formed texts */

  /** The four white-space characters of the grammar. */
  predicate IsWs(s: string) {
    forall i :: 0 <= i < |s| ==> s[i] == ' ' || s[i] == '\t' || s[i] == '\n' || s[i] == '\r'
  }

  /** Inside the quotes: a backslash always takes the next character with it, a bare quote never occurs. */
  predicate StrOk(s: string) {
    s == "" || (if s[0] == '\\' then |s| >= 2 && StrOk(s[2..]) else s[0] != '"' && StrOk(s[1..]))
  }

  /** Numbers, true, false, null: no structural character, quote or white space. */
  predicate ScalarOk(s: string) {
    s != "" && forall i :: 0 <= i < |s| ==> s[i] !in "\"{}[]:," && !IsWhitespace(s[i])
  }

  predicate Ok(v: Value) {
    match v
    case Str(body) => StrOk(body)
    case Scalar(text) => ScalarOk(text)
    case EmptyArr(ws) => IsWs(ws)
    case Arr(elems) => ElemsOk(elems)
    case EmptyObj(ws) => IsWs(ws)
    case Obj(members) => MembersOk(members)
  }

  predicate ElemsOk(es: Elems) {
    IsWs(es.pre) && Ok(es.v) && IsWs(es.post) && (es.MoreElems? ==> ElemsOk(es.rest))
  }

  predicate MembersOk(ms: Members) {
    IsWs(ms.pre) && StrOk(ms.name) && IsWs(ms.mid) && IsWs(ms.lead) && Ok(ms.v) && IsWs(ms.post)
    && (ms.MoreMembers? ==> MembersOk(ms.rest))
  }

  function Quoted(body: string, k: string): string {
    ['"'] + (body + (['"'] + k))
  }

  /** A member up to its value. */
  function Head(pre: string, name: string, mid: string, lead: string, value: string): string {
    pre + Quoted(name, mid + ([':'] + (lead + value)))
  }

  function Render(v: Value, k: string): (r: string)
    ensures |r| >= |k|
  {
    match v
    case Str(body) => Quoted(body, k)
    case Scalar(text) => text + k
    case EmptyArr(ws) => ['['] + (ws + ([']'] + k))
    case Arr(elems) => ['['] + RenderElems(elems, [']'] + k)
    case EmptyObj(ws) => ['{'] + (ws + (['}'] + k))
    case Obj(members) => ['{'] + RenderMembers(members, ['}'] + k)
  }

  function RenderElems(es: Elems, k: string): (r: string)
    ensures |r| >= |k|
  {
    es.pre + Render(es.v, es.post + (if es.MoreElems? then [','] + RenderElems(es.rest, k) else k))
  }

  /** A member's text from its value on. */
  function FromValue(ms: Members, k: string): (r: string)
    ensures |r| >= |k|
    decreases ms, 0
  {
    Render(ms.v, ms.post + (if ms.MoreMembers? then [','] + RenderMembers(ms.rest, k) else k))
  }

  function RenderMembers(ms: Members, k: string): (r: string)
    ensures |r| >= |k|
    decreases ms, 1
  {
    Head(ms.pre, ms.name, ms.mid, ms.lead, FromValue(ms, k))
  }

  predicate IsObject(v: Value) {
    v.Obj? || v.EmptyObj?
  }

  /** The texts of the array's own object elements, in order. */
  function ObjectTexts(es: Elems): seq<string> {
    (if IsObject(es.v) then [Render(es.v, "")] else []) + (if es.MoreElems? then ObjectTexts(es.rest) else [])
  }

  /** The text from the value of the first member named `key` on; `k` follows the members. */
  function FirstMember(ms: Members, key: string, k: string): Option<string> {
    if ms.name == key then Some(FromValue(ms, k))
    else if ms.MoreMembers? then FirstMember(ms.rest, key, k)
    else None
  }

  /* ---------------------------------------------------------------- rendering */

  /** Rendering in front of `k` is the rendering followed by `k`. */
  lemma {:induction false} RenderAppends(v: Value, k: string, m: string)
    ensures Render(v, k + m) == Render(v, k) + m
  {
    match v
    case Str(body) => assert Quoted(body, k + m) == Quoted(body, k) + m;
    case Scalar(text) => assert text + (k + m) == (text + k) + m;
    case EmptyArr(ws) =>
      assert ['['] + (ws + ([']'] + (k + m))) == (['['] + (ws + ([']'] + k))) + m;
    case Arr(elems) =>
      assert [']'] + (k + m) == ([']'] + k) + m;
      RenderElemsAppends(elems, [']'] + k, m);
      assert ['['] + (RenderElems(elems, [']'] + k) + m) == (['['] + RenderElems(elems, [']'] + k)) + m;
    case EmptyObj(ws) =>
      assert ['{'] + (ws + (['}'] + (k + m))) == (['{'] + (ws + (['}'] + k))) + m;
    case Obj(members) =>
      assert ['}'] + (k + m) == (['}'] + k) + m;
      RenderMembersAppends(members, ['}'] + k, m);
      assert ['{'] + (RenderMembers(members, ['}'] + k) + m) == (['{'] + RenderMembers(members, ['}'] + k)) + m;
  }

  lemma {:induction false} RenderElemsAppends(es: Elems, k: string, m: string)
    ensures RenderElems(es, k + m) == RenderElems(es, k) + m
  {
    var tail := if es.MoreElems? then [','] + RenderElems(es.rest, k) else k;
    if es.MoreElems? {
      RenderElemsAppends(es.rest, k, m);
      assert [','] + (RenderElems(es.rest, k) + m) == tail + m;
    }
    assert es.post + (tail + m) == (es.post + tail) + m;
    RenderAppends(es.v, es.post + tail, m);
    assert es.pre + (Render(es.v, es.post + tail) + m) == (es.pre + Render(es.v, es.post + tail)) + m;
  }

  lemma {:induction false} FromValueAppends(ms: Members, k: string, m: string)
    ensures FromValue(ms, k + m) == FromValue(ms, k) + m
    decreases ms, 0
  {
    var tail := if ms.MoreMembers? then [','] + RenderMembers(ms.rest, k) else k;
    if ms.MoreMembers? {
      RenderMembersAppends(ms.rest, k, m);
      assert [','] + (RenderMembers(ms.rest, k) + m) == tail + m;
    }
    assert ms.post + (tail + m) == (ms.post + tail) + m;
    RenderAppends(ms.v, ms.post + tail, m);
  }

  lemma {:induction false} RenderMembersAppends(ms: Members, k: string, m: string)
    ensures RenderMembers(ms, k + m) == RenderMembers(ms, k) + m
    decreases ms, 1
  {
    FromValueAppends(ms, k, m);
    HeadAppends(ms.pre, ms.name, ms.mid, ms.lead, FromValue(ms, k), m);
  }

  lemma {:induction false} HeadAppends(pre: string, name: string, mid: string, lead: string, value: string, m: string)
    ensures Head(pre, name, mid, lead, value + m) == Head(pre, name, mid, lead, value) + m
  {
    assert lead + (value + m) == (lead + value) + m;
    assert [':'] + ((lead + value) + m) == ([':'] + (lead + value)) + m;
    var k := [':'] + (lead + value);
    assert mid + (k + m) == (mid + k) + m;
    assert Quoted(name, (mid + k) + m) == Quoted(name, mid + k) + m;
    assert pre + (Quoted(name, mid + k) + m) == (pre + Quoted(name, mid + k)) + m;
  }

  /* ---------------------------------------------------------------- plain text and strings */

  /** No quote, brace or bracket. */
  predicate Plain(s: string) {
    forall i :: 0 <= i < |s| ==> s[i] !in "\"{}[]"
  }

  lemma {:induction false} ObjectsSkipsPlain(p: string, k: string, depth: int, from: string)
    requires Plain(p) && |p + k| <= |from|
    ensures Objects(p + k, depth, from) == Objects(k, depth, from)
  {
    if p == "" {
      assert p + k == k;
    } else {
      assert (p + k)[1..] == p[1..] + k;
      ObjectsSkipsPlain(p[1..], k, depth, from);
    }
  }

  lemma {:induction false} TopLevelSkipsPlain(p: string, k: string, depth: int, key: string)
    requires Plain(p)
    ensures TopLevel(p + k, depth, key) == TopLevel(k, depth, key)
  {
    if p == "" {
      assert p + k == k;
    } else {
      assert (p + k)[1..] == p[1..] + k;
      TopLevelSkipsPlain(p[1..], k, depth, key);
    }
  }

  lemma {:induction false} SkipsBody(body: string, k: string)
    requires StrOk(body)
    ensures SkipFrom(body + (['"'] + k)) == |body| + 1
  {
    var t := body + (['"'] + k);
    if body == "" {
      assert t == ['"'] + k;
    } else if body[0] == '\\' {
      assert t[2..] == body[2..] + (['"'] + k);
      SkipsBody(body[2..], k);
    } else {
      assert t[1..] == body[1..] + (['"'] + k);
      SkipsBody(body[1..], k);
    }
  }

  /** A string literal is read whole: its length, its content, and what follows. */
  lemma {:induction false} LiteralRead(body: string, k: string)
    requires StrOk(body)
    ensures var t := Render(Str(body), k);
            && t != "" && t[0] == '"' && LiteralLength(t) == |body| + 2 <= |t|
            && t[|body| + 2..] == k && t[1..|body| + 1] == body
  {
    var t := Render(Str(body), k);
    assert t[1..] == body + (['"'] + k);
    SkipsBody(body, k);
  }

  lemma {:induction false} ObjectsSkipsString(body: string, k: string, depth: int, from: string)
    requires StrOk(body) && |Render(Str(body), k)| <= |from|
    ensures Objects(Render(Str(body), k), depth, from) == Objects(k, depth, from)
  {
    LiteralRead(body, k);
  }

  /* ---------------------------------------------------------------- objects_in_array */

  /** Below the array's own level a whole value is passed over. */
  lemma {:induction false} ObjectsSkipsValue(v: Value, k: string, depth: int, from: string)
    requires Ok(v) && depth >= 2 && |Render(v, k)| <= |from|
    ensures Objects(Render(v, k), depth, from) == Objects(k, depth, from)
    decreases v
  {
    var t := Render(v, k);
    match v
    case Str(body) => ObjectsSkipsString(body, k, depth, from);
    case Scalar(text) => ObjectsSkipsPlain(text, k, depth, from);
    case EmptyArr(ws) =>
      assert t[1..] == ws + ([']'] + k);
      ObjectsSkipsPlain(ws, [']'] + k, depth + 1, from);
      assert ([']'] + k)[1..] == k;
    case Arr(elems) =>
      assert t[1..] == RenderElems(elems, [']'] + k);
      ObjectsSkipsElems(elems, [']'] + k, depth + 1, from);
      assert ([']'] + k)[1..] == k;
    case EmptyObj(ws) =>
      assert t[1..] == ws + (['}'] + k);
      ObjectsSkipsPlain(ws, ['}'] + k, depth + 1, from);
      assert (['}'] + k)[1..] == k;
    case Obj(members) =>
      assert t[1..] == RenderMembers(members, ['}'] + k);
      ObjectsSkipsMembers(members, ['}'] + k, depth + 1, from);
      assert (['}'] + k)[1..] == k;
  }

  lemma {:induction false} ObjectsSkipsElems(es: Elems, k: string, depth: int, from: string)
    requires ElemsOk(es) && depth >= 2 && |RenderElems(es, k)| <= |from|
    ensures Objects(RenderElems(es, k), depth, from) == Objects(k, depth, from)
    decreases es
  {
    var tail := if es.MoreElems? then [','] + RenderElems(es.rest, k) else k;
    ObjectsSkipsPlain(es.pre, Render(es.v, es.post + tail), depth, from);
    ObjectsSkipsValue(es.v, es.post + tail, depth, from);
    ObjectsSkipsPlain(es.post, tail, depth, from);
    if es.MoreElems? {
      ObjectsSkipsPlain([','], RenderElems(es.rest, k), depth, from);
      ObjectsSkipsElems(es.rest, k, depth, from);
    }
  }

  lemma {:induction false} ObjectsSkipsHead(ms: Members, value: string, depth: int, from: string)
    requires MembersOk(ms) && |Head(ms.pre, ms.name, ms.mid, ms.lead, value)| <= |from|
    ensures Objects(Head(ms.pre, ms.name, ms.mid, ms.lead, value), depth, from) == Objects(value, depth, from)
  {
    var afterName := ms.mid + ([':'] + (ms.lead + value));
    ObjectsSkipsPlain(ms.pre, Quoted(ms.name, afterName), depth, from);
    ObjectsSkipsString(ms.name, afterName, depth, from);
    ObjectsSkipsPlain(ms.mid, [':'] + (ms.lead + value), depth, from);
    ObjectsSkipsPlain([':'], ms.lead + value, depth, from);
    ObjectsSkipsPlain(ms.lead, value, depth, from);
  }

  lemma {:induction false} ObjectsSkipsMembers(ms: Members, k: string, depth: int, from: string)
    requires MembersOk(ms) && depth >= 2 && |RenderMembers(ms, k)| <= |from|
    ensures Objects(RenderMembers(ms, k), depth, from) == Objects(k, depth, from)
    decreases ms
  {
    var tail := if ms.MoreMembers? then [','] + RenderMembers(ms.rest, k) else k;
    ObjectsSkipsHead(ms, FromValue(ms, k), depth, from);
    ObjectsSkipsValue(ms.v, ms.post + tail, depth, from);
    ObjectsSkipsPlain(ms.post, tail, depth, from);
    if ms.MoreMembers? {
      ObjectsSkipsPlain([','], RenderMembers(ms.rest, k), depth, from);
      ObjectsSkipsMembers(ms.rest, k, depth, from);
    }
  }

  /** At the array's own level an object is returned, from its brace to its brace; anything else is passed over. */
  lemma {:induction false} ObjectsTakesElement(v: Value, k: string, from: string) returns (from': string)
    requires Ok(v) && |Render(v, k)| <= |from|
    ensures |k| <= |from'|
    ensures Objects(Render(v, k), 1, from) ==
            (if IsObject(v) then [Render(v, "")] else []) + Objects(k, 1, from')
  {
    var t := Render(v, k);
    from' := if IsObject(v) then t else from;
    RenderAppends(v, "", k);
    assert "" + k == k;
    match v
    case Str(body) => ObjectsSkipsString(body, k, 1, from);
    case Scalar(text) => ObjectsSkipsPlain(text, k, 1, from);
    case EmptyArr(ws) =>
      assert t[1..] == ws + ([']'] + k);
      ObjectsSkipsPlain(ws, [']'] + k, 2, from);
      assert ([']'] + k)[1..] == k;
    case Arr(elems) =>
      assert t[1..] == RenderElems(elems, [']'] + k);
      ObjectsSkipsElems(elems, [']'] + k, 2, from);
      assert ([']'] + k)[1..] == k;
    case EmptyObj(ws) =>
      assert t[1..] == ws + (['}'] + k);
      ObjectsSkipsPlain(ws, ['}'] + k, 2, t);
      ClosesObject(v, k);
    case Obj(members) =>
      assert t[1..] == RenderMembers(members, ['}'] + k);
      ObjectsSkipsMembers(members, ['}'] + k, 2, t);
      ClosesObject(v, k);
  }

  lemma {:induction false} ClosesObject(v: Value, k: string)
    ensures |['}'] + k| <= |Render(v, k)| ==>
              Objects(['}'] + k, 2, Render(v, k)) == [Render(v, "")] + Objects(k, 1, Render(v, k))
  {
    var t := Render(v, k);
    RenderAppends(v, "", k);
    assert "" + k == k;
    assert t[..|t| - |k|] == Render(v, "");
    if |['}'] + k| <= |t| { CloseTakes(k, t); }
  }

  lemma {:induction false} CloseTakes(k: string, from: string)
    requires |k| < |from|
    ensures Objects(['}'] + k, 2, from) == [from[..|from| - |k|]] + Objects(k, 1, from)
  {
    assert (['}'] + k)[1..] == k;
  }

  lemma {:induction false} ObjectsTakesElems(es: Elems, rest: string, from: string)
    requires ElemsOk(es) && |RenderElems(es, [']'] + rest)| <= |from|
    ensures Objects(RenderElems(es, [']'] + rest), 1, from) == ObjectTexts(es)
    decreases es
  {
    var k := [']'] + rest;
    var tail := if es.MoreElems? then [','] + RenderElems(es.rest, k) else k;
    ObjectsSkipsPlain(es.pre, Render(es.v, es.post + tail), 1, from);
    var from' := ObjectsTakesElement(es.v, es.post + tail, from);
    ObjectsSkipsPlain(es.post, tail, 1, from');
    if es.MoreElems? {
      ObjectsSkipsPlain([','], RenderElems(es.rest, k), 1, from');
      ObjectsTakesElems(es.rest, rest, from');
    }
  }

  /**
   For every well-formed array, whatever text follows it, `objects_in_array` returns exactly
   the array's own object elements, in order.
   */
  lemma {:induction false} ObjectsInArrayAgreesWithGrammar(whole: Value, rest: string)
    requires Ok(whole) && (whole.Arr? || whole.EmptyArr?)
    ensures var s := Render(whole, rest);
            Objects(s, 0, s) == if whole.Arr? then ObjectTexts(whole.elems) else []
  {
    var s := Render(whole, rest);
    if whole.Arr? {
      assert s[1..] == RenderElems(whole.elems, [']'] + rest);
      ObjectsTakesElems(whole.elems, rest, s);
    } else {
      assert s[1..] == whole.ws + ([']'] + rest);
      ObjectsSkipsPlain(whole.ws, [']'] + rest, 1, s);
    }
  }

  /* ---------------------------------------------------------------- top_level_value */

  /** After white space, `k` does not go on with a colon. */
  predicate NoColon(k: string) {
    TrimStart(k) == "" || TrimStart(k)[0] != ':'
  }

  lemma {:induction false} TrimsWs(ws: string, k: string)
    requires IsWs(ws)
    ensures TrimStart(ws + k) == TrimStart(k)
  {
    if ws == "" {
      assert ws + k == k;
    } else {
      assert (ws + k)[1..] == ws[1..] + k;
      TrimsWs(ws[1..], k);
    }
  }

  lemma {:induction false} TopLevelSkipsString(body: string, k: string, depth: int, key: string)
    requires StrOk(body) && (depth != 1 || NoColon(k) || body != key)
    ensures TopLevel(Render(Str(body), k), depth, key) == TopLevel(k, depth, key)
  {
    LiteralRead(body, k);
  }

  /** At or below the object's own level a value in value position is passed over, even one spelled like the key. */
  lemma {:induction false} TopLevelSkipsValue(v: Value, k: string, depth: int, key: string)
    requires Ok(v) && depth >= 1 && NoColon(k)
    ensures TopLevel(Render(v, k), depth, key) == TopLevel(k, depth, key)
    decreases v
  {
    match v
    case Str(body) => TopLevelSkipsString(body, k, depth, key);
    case Scalar(text) => TopLevelSkipsPlain(text, k, depth, key);
    case EmptyArr(ws) =>
      TopLevelSkipsPlain(ws, [']'] + k, depth + 1, key);
      TopLevelLeaves('[', ']', ws + ([']'] + k), k, depth, key);
    case Arr(elems) =>
      TopLevelSkipsElems(elems, [']'] + k, depth + 1, key);
      TopLevelLeaves('[', ']', RenderElems(elems, [']'] + k), k, depth, key);
    case EmptyObj(ws) =>
      TopLevelSkipsPlain(ws, ['}'] + k, depth + 1, key);
      TopLevelLeaves('{', '}', ws + (['}'] + k), k, depth, key);
    case Obj(members) =>
      TopLevelSkipsMembers(members, ['}'] + k, depth + 1, key);
      TopLevelLeaves('{', '}', RenderMembers(members, ['}'] + k), k, depth, key);
  }

  /** What is passed over inside brackets is passed over with them. */
  lemma {:induction false} TopLevelLeaves(open: char, close: char, inner: string, k: string, depth: int, key: string)
    requires (open == '[' && close == ']') || (open == '{' && close == '}')
    requires TopLevel(inner, depth + 1, key) == TopLevel([close] + k, depth + 1, key)
    ensures TopLevel([open] + inner, depth, key) == TopLevel(k, depth, key)
  {
    assert ([open] + inner)[1..] == inner && ([close] + k)[1..] == k;
  }

  lemma {:induction false} TopLevelSkipsElems(es: Elems, k: string, depth: int, key: string)
    requires ElemsOk(es) && depth >= 2 && NoColon(k)
    ensures TopLevel(RenderElems(es, k), depth, key) == TopLevel(k, depth, key)
    decreases es
  {
    var tail := if es.MoreElems? then [','] + RenderElems(es.rest, k) else k;
    TopLevelSkipsPlain(es.pre, Render(es.v, es.post + tail), depth, key);
    TrimsWs(es.post, tail);
    TopLevelSkipsValue(es.v, es.post + tail, depth, key);
    TopLevelSkipsPlain(es.post, tail, depth, key);
    if es.MoreElems? {
      TopLevelSkipsPlain([','], RenderElems(es.rest, k), depth, key);
      TopLevelSkipsElems(es.rest, k, depth, key);
    }
  }

  lemma {:induction false} TopLevelSkipsHead(ms: Members, value: string, depth: int, key: string)
    requires MembersOk(ms) && (depth == 1 ==> ms.name != key)
    ensures TopLevel(Head(ms.pre, ms.name, ms.mid, ms.lead, value), depth, key) == TopLevel(value, depth, key)
  {
    var afterName := ms.mid + ([':'] + (ms.lead + value));
    TopLevelSkipsPlain(ms.pre, Quoted(ms.name, afterName), depth, key);
    TopLevelSkipsString(ms.name, afterName, depth, key);
    TopLevelSkipsPlain(ms.mid, [':'] + (ms.lead + value), depth, key);
    TopLevelSkipsPlain([':'], ms.lead + value, depth, key);
    TopLevelSkipsPlain(ms.lead, value, depth, key);
  }

  /** A member that is nested, or has another name, is passed over. */
  lemma {:induction false} TopLevelSkipsMember(ms: Members, k: string, depth: int, key: string)
    requires MembersOk(ms) && depth >= 1 && NoColon(k) && (depth == 1 ==> ms.name != key)
    ensures TopLevel(RenderMembers(ms, k), depth, key) ==
            TopLevel(if ms.MoreMembers? then RenderMembers(ms.rest, k) else k, depth, key)
    decreases ms, 0
  {
    var tail := if ms.MoreMembers? then [','] + RenderMembers(ms.rest, k) else k;
    TopLevelSkipsHead(ms, FromValue(ms, k), depth, key);
    TrimsWs(ms.post, tail);
    TopLevelSkipsValue(ms.v, ms.post + tail, depth, key);
    TopLevelSkipsPlain(ms.post, tail, depth, key);
    if ms.MoreMembers? { TopLevelSkipsPlain([','], RenderMembers(ms.rest, k), depth, key); }
  }

  lemma {:induction false} TopLevelSkipsMembers(ms: Members, k: string, depth: int, key: string)
    requires MembersOk(ms) && depth >= 2 && NoColon(k)
    ensures TopLevel(RenderMembers(ms, k), depth, key) == TopLevel(k, depth, key)
    decreases ms, 1
  {
    TopLevelSkipsMember(ms, k, depth, key);
    if ms.MoreMembers? { TopLevelSkipsMembers(ms.rest, k, depth, key); }
  }

  /** A value starts with its own first character, never white space. */
  lemma {:induction false} StartsAtOnce(v: Value, k: string)
    requires Ok(v)
    ensures TrimStart(Render(v, k)) == Render(v, k)
  {
  }

  /** At the object's own level the name asked for is found, and the value after its colon returned. */
  lemma {:induction false} TopLevelFindsHead(pre: string, name: string, mid: string, lead: string, value: string)
    requires IsWs(pre) && StrOk(name) && IsWs(mid) && IsWs(lead) && TrimStart(value) == value
    ensures TopLevel(Head(pre, name, mid, lead, value), 1, name) == Found(value)
  {
    var afterName := mid + ([':'] + (lead + value));
    TopLevelSkipsPlain(pre, Quoted(name, afterName), 1, name);
    LiteralRead(name, afterName);
    TrimsWs(mid, [':'] + (lead + value));
    assert ([':'] + (lead + value))[1..] == lead + value;
    TrimsWs(lead, value);
  }

  lemma {:induction false} TopLevelFindsMember(ms: Members, k: string, key: string)
    requires MembersOk(ms) && NoColon(k)
    ensures TopLevel(RenderMembers(ms, k), 1, key) ==
            match FirstMember(ms, key, k) case Some(text) => Found(text) case None => TopLevel(k, 1, key)
    decreases ms
  {
    if ms.name == key {
      ValueStartsAtOnce(ms, k);
      TopLevelFindsHead(ms.pre, ms.name, ms.mid, ms.lead, FromValue(ms, k));
    } else {
      TopLevelSkipsMember(ms, k, 1, key);
      if ms.MoreMembers? { TopLevelFindsMember(ms.rest, k, key); }
    }
  }

  lemma {:induction false} ValueStartsAtOnce(ms: Members, k: string)
    requires MembersOk(ms)
    ensures TrimStart(FromValue(ms, k)) == FromValue(ms, k)
  {
    StartsAtOnce(ms.v, ms.post + (if ms.MoreMembers? then [','] + RenderMembers(ms.rest, k) else k));
  }

  /**
   For every well-formed object, `top_level_value` returns the text from the value of the
   object's own first member spelled `key`, and nothing when it has none: never a nested
   member, never a string value.
   */
  lemma {:induction false} TopLevelValueAgreesWithGrammar(before: string, obj: Value, after: string, key: string)
    requires Ok(obj) && IsObject(obj) && IsWs(before) && IsWs(after)
    ensures TopLevel(before + Render(obj, after), 0, key) ==
            if obj.EmptyObj? then Absent
            else match FirstMember(obj.members, key, ['}'] + after) case Some(text) => Found(text) case None => Absent
  {
    TopLevelSkipsPlain(before, Render(obj, after), 0, key);
    var t := Render(obj, after);
    TopLevelSkipsPlain(after, "", 0, key);
    assert after + "" == after;
    assert (['}'] + after)[1..] == after;
    if obj.Obj? {
      assert t[1..] == RenderMembers(obj.members, ['}'] + after);
      TopLevelFindsMember(obj.members, ['}'] + after, key);
    } else {
      assert t[1..] == obj.ws + (['}'] + after);
      TopLevelSkipsPlain(obj.ws, ['}'] + after, 1, key);
    }
  }

  /** A closing bracket with nothing open is counted, not taken for the end of the array. */
  lemma {:induction false} StrayCloserIsCounted()
    ensures Objects("}[[{}]]", 0, "}[[{}]]") == ["{}"]
  {
    var s := "}[[{}]]";
    assert s[1..] == "[[{}]]" && s[1..][1..] == "[{}]]" && s[1..][1..][1..] == "{}]]";
    assert "{}]]"[1..] == "}]]" && "}]]"[1..] == "]]";
    assert Objects("]]", 1, "{}]]") == [];
    assert Objects("}]]", 2, "{}]]") == ["{}]]"[..2]] + Objects("]]", 1, "{}]]");
    assert "{}]]"[..2] == "{}";
  }
}
