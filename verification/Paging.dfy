/** OData collections of internal/graph/odata.go and internal/graph/graph.go:
    $filter, $count, $top, $skiptoken and $select over one fully listed
    collection, and the chain of pages a client walks through nextLink. */
module Paging {
  import opened Strings
  import opened QueryText
  import QueryFold
  import Escaping

  // ---- strconv.Itoa and strconv.Atoi ----

  const MAX_INT := 0x7fff_ffff_ffff_ffff

  predicate IsDigit(c: char) { '0' <= c <= '9' }

  function Digit(d: nat): (c: char)
    requires d < 10
    ensures IsDigit(c) && c as int - '0' as int == d
  {
    ('0' as int + d) as char
  }

  function Itoa(n: nat): (s: string)
    ensures s != "" && forall i :: 0 <= i < |s| ==> IsDigit(s[i])
  {
    if n < 10 then [Digit(n)] else Itoa(n / 10) + [Digit(n % 10)]
  }

  function Digits(s: string): Option<int> {
    if s == "" then Some(0)
    else
      var r, c := Digits(s[..|s| - 1]), s[|s| - 1];
      if r.None? || !IsDigit(c) then None else Some(r.value * 10 + (c as int - '0' as int))
  }

  function Atoi(s: string): Option<int> {
    var signed := s != "" && (s[0] == '-' || s[0] == '+');
    var body := if signed then s[1..] else s;
    var r := Digits(body);
    if body == "" || r.None? then None
    else
      var n := if signed && s[0] == '-' then -r.value else r.value;
      if -MAX_INT - 1 <= n <= MAX_INT then Some(n) else None
  }

  lemma {:induction false} DigitsItoa(n: nat)
    ensures Digits(Itoa(n)) == Some(n)
  {
    var s := Itoa(n);
    if n < 10 {
      assert s[..|s| - 1] == "";
    } else {
      DigitsItoa(n / 10);
      assert s[..|s| - 1] == Itoa(n / 10);
    }
  }

  lemma AtoiItoa(n: nat)
    requires n <= MAX_INT
    ensures Atoi(Itoa(n)) == Some(n)
  {
    DigitsItoa(n);
    assert IsDigit(Itoa(n)[0]);
  }

  // ---- The query ----

  function Top(v: Values): (top: nat)
    ensures 1 <= top <= 999
  {
    var n := Atoi(Get(v, "$top"));
    if n.Some? && n.value > 0 then if n.value > 999 then 999 else n.value else 100
  }

  function Skip(v: Values): (skip: nat) {
    var n := Atoi(Get(v, "$skiptoken"));
    if n.Some? && n.value > 0 then n.value else 0
  }

  function Fields(parts: seq<string>): seq<string> {
    if parts == [] then []
    else
      var f := TrimSpace(parts[|parts| - 1]);
      Fields(parts[..|parts| - 1]) + if f == "" then [] else [f]
  }

  type Shape<V> = map<string, V>
  datatype Query<!V> = Query(select: seq<string>, filter: Option<Shape<V> -> bool>, top: nat, skip: nat, count: bool)

  // The filter grammar is left to `grammar`; None is its parse error.
  function ParseOData<V>(v: Values, grammar: string -> Option<Shape<V> -> bool>): (r: Option<Query<V>>)
    ensures r.Some? ==> 1 <= r.value.top <= 999
  {
    var sel, text := Get(v, "$select"), TrimSpace(Get(v, "$filter"));
    var select := if sel == "" then [] else Fields(Split(sel, ','));
    var count := EqualFold(Get(v, "$count"), "true");
    var filter := if text == "" then None else grammar(text);
    if text != "" && filter.None? then None
    else Some(Query(select, filter, Top(v), Skip(v), count))
  }

  // ---- Projection ----

  // Property names are unique ignoring case, as in every shape the service
  // builds; otherwise the choice below would hang on map order.
  ghost predicate UniqueNames<V>(shape: Shape<V>) {
    forall k, l :: k in shape && l in shape && ToLower(k) == ToLower(l) ==> k == l
  }

  predicate Named(fields: seq<string>, k: string) {
    exists i :: 0 <= i < |fields| && ToLower(fields[i]) == ToLower(k)
  }

  function Chosen<V>(shape: Shape<V>, fields: seq<string>): Shape<V> {
    map k | k in shape && Named(fields, k) :: shape[k]
  }

  function Selected<V>(shape: Shape<V>, fields: seq<string>): Shape<V> {
    if fields == [] then shape else Chosen(shape, fields)
  }

  method ApplySelect<V>(shape: Shape<V>, fields: seq<string>) returns (out: Shape<V>)
    requires UniqueNames(shape)
    ensures out == Selected(shape, fields)
  {
    if fields == [] {
      return shape;
    }
    var canonical := Canonical(shape);
    hide Chosen, ToLower, UniqueNames;
    out := map[];
    ChosenNone(shape);
    for i := 0 to |fields|
      invariant out == Chosen(shape, fields[..i])
    {
      var f := fields[i];
      assert fields[..i + 1] == fields[..i] + [f];
      if f in shape {
        ChosenHit(shape, fields[..i], f, f);
        out := out[f := shape[f]];
      } else if ToLower(f) in canonical {
        var k := canonical[ToLower(f)];
        ChosenHit(shape, fields[..i], f, k);
        out := out[k := shape[k]];
      } else {
        ChosenMiss(shape, fields[..i], f);
      }
    }
    assert fields[..|fields|] == fields;
  }

  // The property's own spelling, by its lower-case name.
  method Canonical<V>(shape: Shape<V>) returns (canonical: map<string, string>)
    ensures forall k :: k in shape ==> ToLower(k) in canonical
    ensures forall f :: f in canonical ==> canonical[f] in shape && ToLower(canonical[f]) == f
  {
    canonical := map[];
    var keys := shape.Keys;
    while keys != {}
      invariant keys <= shape.Keys
      invariant forall k :: k in shape && k !in keys ==> ToLower(k) in canonical
      invariant forall f :: f in canonical ==> canonical[f] in shape && ToLower(canonical[f]) == f
      decreases keys
    {
      var k :| k in keys;
      canonical := canonical[ToLower(k) := k];
      keys := keys - {k};
    }
  }

  lemma ChosenNone<V>(shape: Shape<V>)
    ensures Chosen(shape, []) == map[]
  {
  }

  lemma NamedNext(fields: seq<string>, f: string, k: string)
    ensures Named(fields + [f], k) <==> Named(fields, k) || ToLower(f) == ToLower(k)
  {
    hide ToLower;
    if Named(fields, k) {
      var i :| 0 <= i < |fields| && ToLower(fields[i]) == ToLower(k);
      assert (fields + [f])[i] == fields[i];
    }
    if ToLower(f) == ToLower(k) {
      assert (fields + [f])[|fields|] == f;
    }
  }

  lemma ChosenHit<V>(shape: Shape<V>, fields: seq<string>, f: string, k: string)
    requires UniqueNames(shape) && k in shape && ToLower(k) == ToLower(f)
    ensures Chosen(shape, fields + [f]) == Chosen(shape, fields)[k := shape[k]]
  {
    hide Named, ToLower;
    forall l | l in shape
      ensures Named(fields + [f], l) <==> Named(fields, l) || l == k
    {
      NamedNext(fields, f, l);
    }
  }

  lemma ChosenMiss<V>(shape: Shape<V>, fields: seq<string>, f: string)
    requires forall k :: k in shape ==> ToLower(k) != ToLower(f)
    ensures Chosen(shape, fields + [f]) == Chosen(shape, fields)
  {
    hide Named, ToLower;
    forall l | l in shape
      ensures Named(fields + [f], l) <==> Named(fields, l)
    {
      NamedNext(fields, f, l);
    }
  }

  const USER_DEFAULTS := [
    "businessPhones", "displayName", "givenName", "id", "jobTitle", "mail", "mobilePhone",
    "officeLocation", "preferredLanguage", "surname", "userPrincipalName"]

  function DefaultProjection<V>(v: Values, shape: Shape<V>): Shape<V> {
    if TrimSpace(Get(v, "$select")) != "" then shape
    else map k | k in shape && (k in USER_DEFAULTS || HasPrefix(k, "@odata.")) :: shape[k]
  }

  // One row of the answer.
  function Shaped<V>(v: Values, users: bool, q: Query<V>, shape: Shape<V>): Shape<V> {
    Selected(if users then DefaultProjection(v, shape) else shape, q.select)
  }

  function ShapedAll<V>(v: Values, users: bool, q: Query<V>, shapes: seq<Shape<V>>): (r: seq<Shape<V>>)
    ensures |r| == |shapes| && forall i :: 0 <= i < |shapes| ==> r[i] == Shaped(v, users, q, shapes[i])
  {
    seq(|shapes|, i requires 0 <= i < |shapes| => Shaped(v, users, q, shapes[i]))
  }

  method ProjectDefault<V>(v: Values, shape: Shape<V>) returns (out: Shape<V>)
    requires UniqueNames(shape)
    ensures out == DefaultProjection(v, shape) && UniqueNames(out)
  {
    hide ToLower;
    if TrimSpace(Get(v, "$select")) != "" {
      return shape;
    }
    out := map[];
    var keys := shape.Keys;
    while keys != {}
      invariant keys <= shape.Keys
      invariant out == map k | k in shape.Keys - keys && (k in USER_DEFAULTS || HasPrefix(k, "@odata.")) :: shape[k]
      decreases keys
    {
      var k :| k in keys;
      if k in USER_DEFAULTS || HasPrefix(k, "@odata.") {
        out := out[k := shape[k]];
      }
      keys := keys - {k};
    }
  }

  // ---- One page ----

  function Kept<V>(shapes: seq<Shape<V>>, filter: Option<Shape<V> -> bool>): (r: seq<Shape<V>>)
    ensures |r| <= |shapes|
    ensures forall i :: 0 <= i < |r| ==> r[i] in shapes && (filter.None? || filter.value(r[i]))
  {
    if filter.None? then shapes
    else if shapes == [] then []
    else
      var last := shapes[|shapes| - 1];
      Kept(shapes[..|shapes| - 1], filter) + if filter.value(last) then [last] else []
  }

  // Filtering keeps every copy of a matching row and no other row.
  lemma {:induction false} KeptCount<V>(shapes: seq<Shape<V>>, matches: Shape<V> -> bool, s: Shape<V>)
    ensures multiset(Kept(shapes, Some(matches)))[s] == if matches(s) then multiset(shapes)[s] else 0
  {
    if shapes != [] {
      var init, last := shapes[..|shapes| - 1], shapes[|shapes| - 1];
      assert shapes == init + [last];
      KeptCount(init, matches, s);
    }
  }

  function Min(a: nat, b: nat): nat { if a <= b then a else b }

  // The next link is told by its query.
  datatype Response<V> = Response(value: seq<Shape<V>>, count: Option<nat>, next: Option<string>)

  function NextLink(v: Values, skip: nat): string { Encode(v["$skiptoken" := [Itoa(skip)]]) }

  function Answer<V>(shapes: seq<Shape<V>>, users: bool, v: Values, q: Query<V>): Response<V> {
    var kept := Kept(shapes, q.filter);
    var start := Min(q.skip, |kept|);
    var end := Min(start + q.top, |kept|);
    Response(ShapedAll(v, users, q, kept[start..end]), if q.count then Some(|kept|) else None,
             if end < |kept| then Some(NextLink(v, end)) else None)
  }

  method WriteCollection<V>(shapes: seq<Shape<V>>, users: bool, v: Values, q: Query<V>) returns (r: Response<V>)
    requires forall i :: 0 <= i < |shapes| ==> UniqueNames(shapes[i])
    ensures r == Answer(shapes, users, v, q)
  {
    hide UniqueNames, Selected, DefaultProjection, NextLink;
    var rows := shapes;
    if q.filter.Some? {
      rows := Keep(shapes, q.filter.value);
    }
    var count := |rows|;
    var start := q.skip;
    if start > count {
      start := count;
    }
    var end := start + q.top;
    if end > count {
      end := count;
    }
    var page := rows[start..end];
    var value: seq<Shape<V>> := [];
    for i := 0 to |page|
      invariant value == ShapedAll(v, users, q, page)[..i]
    {
      var s := page[i];
      assert s == rows[start + i];
      if users {
        s := ProjectDefault(v, s);
      }
      s := ApplySelect(s, q.select);
      value := value + [s];
    }
    assert value == ShapedAll(v, users, q, page);
    r := Response(value, if q.count then Some(count) else None,
                  if end < count then Some(NextLink(v, end)) else None);
  }

  method Keep<V>(shapes: seq<Shape<V>>, matches: Shape<V> -> bool) returns (kept: seq<Shape<V>>)
    ensures kept == Kept(shapes, Some(matches))
  {
    kept := [];
    for i := 0 to |shapes|
      invariant kept == Kept(shapes[..i], Some(matches))
    {
      assert shapes[..i + 1][..i] == shapes[..i];
      if matches(shapes[i]) {
        kept := kept + [shapes[i]];
      }
    }
    assert shapes[..|shapes|] == shapes;
  }

  // ---- The walk ----

  lemma OthersKept(v: Values, text: string, key: string)
    requires key != "$skiptoken"
    ensures Get(v["$skiptoken" := [text]], key) == Get(v, key)
  {
  }

  lemma SkipReplaced<V>(v: Values, grammar: string -> Option<Shape<V> -> bool>, end: nat)
    requires ParseOData(v, grammar).Some? && 0 < end <= MAX_INT
    ensures var w := v["$skiptoken" := [Itoa(end)]];
            ParseOData(w, grammar) == Some(ParseOData(v, grammar).value.(skip := end))
  {
    AtoiItoa(end);
    OthersKept(v, Itoa(end), "$select");
    OthersKept(v, Itoa(end), "$filter");
    OthersKept(v, Itoa(end), "$count");
    OthersKept(v, Itoa(end), "$top");
    var w := v["$skiptoken" := [Itoa(end)]];
    assert Get(w, "$skiptoken") == Itoa(end);
    hide Fields, Split, Atoi, Itoa, TrimSpace, EqualFold, Get;
  }

  // Read back, the link changes the skip token and nothing else.
  lemma NextQuery<V>(v: Values, grammar: string -> Option<Shape<V> -> bool>, end: nat)
    requires ParseOData(v, grammar).Some? && 0 < end <= MAX_INT && forall k :: k in v ==> v[k] != []
    ensures var w := ParseQuery(NextLink(v, end));
            && w == v["$skiptoken" := [Itoa(end)]]
            && ParseOData(w, grammar) == Some(ParseOData(v, grammar).value.(skip := end))
            && Get(w, "$select") == Get(v, "$select")
  {
    hide ParseOData, ParseQuery, Encode, Itoa, Get;
    EncodedIsRead(v["$skiptoken" := [Itoa(end)]]);
    SkipReplaced(v, grammar, end);
    OthersKept(v, Itoa(end), "$select");
  }

  // A link made from a folded request is folded already: the case folder in
  // front of the router hands it on as it stands.
  lemma LinkIsFolded(v: Values, end: nat)
    requires forall k :: k in v && HasPrefix(k, "$") ==> ToLower(k) == k
    ensures QueryFold.Folded(NextLink(v, end)) == NextLink(v, end)
  {
    var w := v["$skiptoken" := [Itoa(end)]];
    assert ToLower("$skiptoken") == "$skiptoken";
    QueryFold.FoldedMeaning(Encode(w));
    WrittenNeedsNoFolding(w);
  }

  lemma WrittenNeedsNoFolding(v: Values)
    requires forall k :: k in v && HasPrefix(k, "$") ==> ToLower(k) == k
    ensures var parts := Split(Encode(v), '&');
            forall i :: 0 <= i < |parts| ==> !QueryFold.NeedsFolding(QueryFold.Cut(parts[i]).key)
  {
    var keys := SortedKeys(v.Keys);
    var written := WriteKeys(v, keys);
    NoAmpersand(v, keys);
    if written == [] {
      assert Split(Encode(v), '&') == [""];
    } else {
      SplitJoin(written, '&');
      forall i | 0 <= i < |written|
        ensures !QueryFold.NeedsFolding(QueryFold.Cut(written[i]).key)
      {
        var k, x := WrittenFrom(v, keys, i);
        QueryEscapeDecodes(k);
        QueryFold.CutUncut(QueryFold.QueryEscape(k), QueryFold.QueryEscape(x), true);
      }
    }
  }

  lemma {:induction false} WrittenFrom(v: Values, keys: seq<string>, i: nat) returns (k: string, x: string)
    requires (forall l :: l in keys ==> l in v) && i < |WriteKeys(v, keys)|
    ensures k in v && WriteKeys(v, keys)[i] == WritePart(k, x)
  {
    var init, last := keys[..|keys| - 1], keys[|keys| - 1];
    var before := WriteKeys(v, init);
    if i < |before| {
      k, x := WrittenFrom(v, init, i);
    } else {
      k := last;
      x := WrittenValue(last, v[last], i - |before|);
    }
  }

  lemma {:induction false} WrittenValue(key: string, values: seq<string>, i: nat) returns (x: string)
    requires i < |values|
    ensures WriteValues(key, values)[i] == WritePart(key, x)
  {
    if i == |values| - 1 {
      x := values[i];
    } else {
      x := WrittenValue(key, values[..|values| - 1], i);
    }
  }

  // ---- The path a link leads to ----

  function UpTo(s: string, c: char): (r: string)
    ensures r <= s && c !in r && (|r| < |s| ==> s[|r|] == c)
  {
    if s == "" || s[0] == c then "" else [s[0]] + UpTo(s[1..], c)
  }

  predicate IsControl(c: char) { c < ' ' || c as int == 0x7f }

  // How a client reads a link after its origin: path and query, or nothing when
  // the link holds a control octet or a bad escape.
  function ReadLink(link: string): Option<(string, string)> {
    if exists i :: 0 <= i < |link| && IsControl(link[i]) then None
    else
      var target := UpTo(link, '#');
      var raw := UpTo(target, '?');
      var path := Escaping.PathUnescape(raw);
      if path.None? then None
      else Some((path.value, if |raw| < |target| then target[|raw| + 1..] else ""))
  }

  predicate PlainPath(path: string) {
    forall i :: 0 <= i < |path| ==> path[i] !in "?#%" && !IsControl(path[i])
  }

  lemma {:induction false} UnescapeShortens(s: string)
    requires Escaping.PathUnescape(s).Some?
    ensures |Escaping.PathUnescape(s).value| <= |s|
    ensures '%' in s ==> |Escaping.PathUnescape(s).value| < |s|
  {
    if s != "" {
      if s[0] == '%' {
        UnescapeShortens(s[3..]);
      } else {
        UnescapeShortens(s[1..]);
        assert s == [s[0]] + s[1..];
      }
    }
  }

  lemma {:induction false} EscapedIsPlain(s: string)
    ensures forall i :: 0 <= i < |QueryFold.QueryEscape(s)| ==>
              QueryFold.QueryEscape(s)[i] !in "?#" && !IsControl(QueryFold.QueryEscape(s)[i])
  {
    if s != "" {
      EscapedIsPlain(s[1..]);
      var e := QueryFold.EscapeChar(s[0]);
      assert forall i :: 0 <= i < |e| ==> e[i] !in "?#" && !IsControl(e[i]);
      hide QueryFold.EscapeChar;
    }
  }

  lemma {:induction false} JoinIsPlain(parts: seq<string>)
    requires forall i, k :: 0 <= i < |parts| && 0 <= k < |parts[i]| ==> parts[i][k] !in "?#" && !IsControl(parts[i][k])
    ensures forall k :: 0 <= k < |Join(parts, '&')| ==>
              Join(parts, '&')[k] !in "?#" && !IsControl(Join(parts, '&')[k])
  {
    if |parts| > 1 {
      JoinIsPlain(parts[1..]);
    }
  }

  lemma WrittenIsPlain(key: string, value: string)
    ensures forall k :: 0 <= k < |WritePart(key, value)| ==>
              WritePart(key, value)[k] !in "?#" && !IsControl(WritePart(key, value)[k])
  {
    EscapedIsPlain(key);
    EscapedIsPlain(value);
    hide QueryFold.QueryEscape;
  }

  lemma EncodedIsPlain(v: Values)
    ensures forall k :: 0 <= k < |Encode(v)| ==> Encode(v)[k] !in "?#" && !IsControl(Encode(v)[k])
  {
    var keys := SortedKeys(v.Keys);
    var parts := WriteKeys(v, keys);
    forall i, k | 0 <= i < |parts| && 0 <= k < |parts[i]|
      ensures parts[i][k] !in "?#" && !IsControl(parts[i][k])
    {
      var key, x := WrittenFrom(v, keys, i);
      WrittenIsPlain(key, x);
    }
    hide WriteKeys, SortedKeys, Join, IsControl;
    JoinIsPlain(parts);
  }

  // The link repeats the decoded path as it stands, so it leads back to the
  // same path and its own query exactly when the path holds no octet that means
  // something else in a URL.
  lemma LinkLeadsBackIff(path: string, v: Values, end: nat)
    ensures ReadLink(path + "?" + NextLink(v, end)) == Some((path, NextLink(v, end))) <==> PlainPath(path)
  {
    var query := NextLink(v, end);
    var link := path + "?" + query;
    EncodedIsPlain(v["$skiptoken" := [Itoa(end)]]);
    assert query == Encode(v["$skiptoken" := [Itoa(end)]]);
    hide Encode, NextLink, Itoa, Escaping.PathUnescape;
    if PlainPath(path) {
      PlainLinkIsRead(path, query);
    } else {
      OddLinkIsMisread(path, query);
    }
  }

  // A wildcard that held an escaped question mark sends the client elsewhere.
  lemma LinkLeadsElsewhere(v: Values, end: nat)
    ensures var path := "/v1.0/users/a?b/memberOf";
            ReadLink(path + "?" + NextLink(v, end)) != Some((path, NextLink(v, end)))
  {
    var path := "/v1.0/users/a?b/memberOf";
    LinkLeadsBackIff(path, v, end);
    assert path[13] == '?';
  }

  lemma {:induction false} UpToFirst(a: string, t: string, c: char)
    requires c !in a
    ensures UpTo(a, c) == a && UpTo(a + [c] + t, c) == a
  {
    if a != "" {
      UpToFirst(a[1..], t, c);
      assert (a + [c] + t)[1..] == a[1..] + [c] + t;
    }
  }

  lemma {:induction false} UpToBound(s: string, c: char, k: nat)
    requires k < |s| && s[k] == c
    ensures |UpTo(s, c)| <= k
  {
    if s[0] != c {
      UpToBound(s[1..], c, k - 1);
    }
  }

  lemma PlainLinkIsRead(path: string, query: string)
    requires PlainPath(path) && forall k :: 0 <= k < |query| ==> query[k] !in "?#" && !IsControl(query[k])
    ensures ReadLink(path + "?" + query) == Some((path, query))
  {
    var link := path + "?" + query;
    UpToFirst(link, "", '#');
    UpToFirst(path, query, '?');
    Escaping.PlainUnescape(path);
    assert link[|path| + 1..] == query;
  }

  lemma OddLinkIsMisread(path: string, query: string)
    requires !PlainPath(path)
    ensures var r := ReadLink(path + "?" + query); r.Some? ==> r.value.0 != path
  {
    var link := path + "?" + query;
    var target := UpTo(link, '#');
    var raw := UpTo(target, '?');
    var i :| 0 <= i < |path| && (path[i] in "?#%" || IsControl(path[i]));
    assert link[i] == path[i];
    if ReadLink(link).Some? {
      UnescapeShortens(raw);
      if |target| > |path| {
        UpToBound(target, '?', |path|);
      }
      if path[i] == '#' {
        UpToBound(link, '#', i);
      } else if path[i] == '?' && i < |target| {
        UpToBound(target, '?', i);
      } else if i < |raw| {
        assert raw[i] == path[i];
      }
    }
  }

  // Every page from the request with this query on.
  function Walk<V>(shapes: seq<Shape<V>>, users: bool, query: string, grammar: string -> Option<Shape<V> -> bool>)
    : (pages: seq<Response<V>>)
    requires ParseOData(ParseQuery(query), grammar).Some? && |shapes| <= MAX_INT
    ensures pages != []
    decreases |shapes| - Min(ParseOData(ParseQuery(query), grammar).value.skip, |shapes|)
  {
    var v := ParseQuery(query);
    var q := ParseOData(v, grammar).value;
    var r := Answer(shapes, users, v, q);
    if r.next.None? then [r]
    else
      var end := Min(q.skip, |Kept(shapes, q.filter)|) + q.top;
      NextQuery(v, grammar, end);
      [r] + Walk(shapes, users, r.next.value, grammar)
  }

  function Rows<V>(pages: seq<Response<V>>): seq<Shape<V>> {
    if pages == [] then [] else pages[0].value + Rows(pages[1..])
  }

  lemma SameShaping<V>(v: Values, w: Values, users: bool, q: Query<V>, p: Query<V>, shapes: seq<Shape<V>>)
    requires Get(v, "$select") == Get(w, "$select") && q.select == p.select
    ensures ShapedAll(v, users, q, shapes) == ShapedAll(w, users, p, shapes)
  {
  }

  // From any skip token the pages are the rest of the filtered collection in
  // order, each row once.
  lemma {:induction false} PagesCoverTheRest<V>(
      shapes: seq<Shape<V>>, users: bool, query: string, grammar: string -> Option<Shape<V> -> bool>)
    requires ParseOData(ParseQuery(query), grammar).Some? && |shapes| <= MAX_INT
    ensures var v := ParseQuery(query);
            var q := ParseOData(v, grammar).value;
            var kept := Kept(shapes, q.filter);
            Rows(Walk(shapes, users, query, grammar)) == ShapedAll(v, users, q, kept[Min(q.skip, |kept|)..])
    decreases |shapes| - Min(ParseOData(ParseQuery(query), grammar).value.skip, |shapes|)
  {
    hide ParseOData, ParseQuery, Kept, Shaped, NextLink;
    var v := ParseQuery(query);
    var q := ParseOData(v, grammar).value;
    var kept := Kept(shapes, q.filter);
    var start := Min(q.skip, |kept|);
    var r := Answer(shapes, users, v, q);
    if r.next.None? {
      assert Rows([r]) == r.value + Rows([]);
      assert kept[start..] == kept[start..Min(start + q.top, |kept|)];
    } else {
      var end := start + q.top;
      var link := r.next.value;
      NextQuery(v, grammar, end);
      PagesCoverTheRest(shapes, users, link, grammar);
      var rest := Walk(shapes, users, link, grammar);
      assert Rows([r] + rest) == r.value + Rows(rest) by {
        assert ([r] + rest)[1..] == rest;
      }
      SameShaping(ParseQuery(link), v, users, q.(skip := end), q, kept[end..]);
      Glue(v, users, q, kept, start, end);
    }
  }

  lemma Glue<V>(v: Values, users: bool, q: Query<V>, kept: seq<Shape<V>>, start: nat, end: nat)
    requires start <= end <= |kept|
    ensures ShapedAll(v, users, q, kept[start..])
            == ShapedAll(v, users, q, kept[start..end]) + ShapedAll(v, users, q, kept[end..])
  {
    hide Shaped;
  }

  // What each page promises on its own: every page but the last is full and
  // links onward, and every page that is asked reports the same count.
  ghost predicate PageShape<V>(pages: seq<Response<V>>, top: nat, count: Option<nat>) {
    forall i :: 0 <= i < |pages| ==>
      && pages[i].count == count
      && (pages[i].next.Some? <==> i < |pages| - 1)
      && (i < |pages| - 1 ==> |pages[i].value| == top)
  }

  lemma {:induction false} PagesAreUniform<V>(
      shapes: seq<Shape<V>>, users: bool, query: string, grammar: string -> Option<Shape<V> -> bool>)
    requires ParseOData(ParseQuery(query), grammar).Some? && |shapes| <= MAX_INT
    ensures var q := ParseOData(ParseQuery(query), grammar).value;
            PageShape(Walk(shapes, users, query, grammar), q.top,
                      if q.count then Some(|Kept(shapes, q.filter)|) else None)
    decreases |shapes| - Min(ParseOData(ParseQuery(query), grammar).value.skip, |shapes|)
  {
    hide ParseOData, ParseQuery, Kept, Shaped, NextLink;
    var v := ParseQuery(query);
    var q := ParseOData(v, grammar).value;
    var kept := Kept(shapes, q.filter);
    var r := Answer(shapes, users, v, q);
    if r.next.Some? {
      var end := Min(q.skip, |kept|) + q.top;
      NextQuery(v, grammar, end);
      PagesAreUniform(shapes, users, r.next.value, grammar);
      assert |Walk(shapes, users, r.next.value, grammar)| > 0;
    }
  }
}
