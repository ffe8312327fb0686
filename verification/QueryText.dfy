/** Query strings as net/url writes and reads them: url.Values.Encode and
    url.URL.Query are inverse to each other. */
module QueryText {
  import opened Strings
  import opened Escaping
  import opened QueryFold
  import opened Relational

  // url.Values.
  type Values = map<string, seq<string>>

  function Get(v: Values, key: string): string {
    if key in v && v[key] != [] then v[key][0] else ""
  }

  // ---- Reading ----

  // A part that cannot be read is passed over.
  function ReadPart(part: string): Option<(string, string)> {
    if part == "" || ';' in part then None
    else
      var p := Cut(part);
      var key, value := Unescape(p.key, true), Unescape(p.value, true);
      if key.None? || value.None? then None else Some((key.value, value.value))
  }

  function Put(v: Values, key: string, value: string): Values {
    v[key := (if key in v then v[key] else []) + [value]]
  }

  function Collect(parts: seq<string>): (v: Values)
    ensures forall k :: k in v ==> v[k] != []
  {
    if parts == [] then map[]
    else
      var v, p := Collect(parts[..|parts| - 1]), ReadPart(parts[|parts| - 1]);
      if p.None? then v else Put(v, p.value.0, p.value.1)
  }

  function ParseQuery(text: string): (v: Values)
    ensures forall k :: k in v ==> v[k] != []
  {
    Collect(Split(text, '&'))
  }

  // ---- Writing ----

  lemma {:induction false} StringLeBothWays(a: string, b: string)
    requires StringLe(a, b) && StringLe(b, a)
    ensures a == b
  {
    if a != "" && b != "" {
      StringLeBothWays(a[1..], b[1..]);
      assert a == [a[0]] + a[1..] && b == [b[0]] + b[1..];
    }
  }

  predicate IsLeastKey(keys: set<string>, k: string) {
    k in keys && forall l :: l in keys ==> StringLe(k, l)
  }

  lemma {:induction false} LeastKey(keys: set<string>)
    requires keys != {}
    ensures exists k :: IsLeastKey(keys, k)
    ensures forall k, l :: IsLeastKey(keys, k) && IsLeastKey(keys, l) ==> k == l
  {
    var x :| x in keys;
    var rest := keys - {x};
    if rest == {} {
      StringLeOrders(x, x, x);
      assert keys == {x};
      assert IsLeastKey(keys, x);
    } else {
      LeastKey(rest);
      var y :| IsLeastKey(rest, y);
      StringLeOrders(x, y, y);
      StringLeOrders(x, x, x);
      var least := if StringLe(x, y) then x else y;
      forall l | l in keys
        ensures StringLe(least, l)
      {
        StringLeOrders(least, y, l);
      }
      assert IsLeastKey(keys, least);
    }
    forall k, l | IsLeastKey(keys, k) && IsLeastKey(keys, l)
      ensures k == l
    {
      StringLeBothWays(k, l);
    }
  }

  function SortedKeys(keys: set<string>): (r: seq<string>)
    ensures forall k :: k in r <==> k in keys
    ensures forall i, j :: 0 <= i < j < |r| ==> r[i] != r[j]
  {
    if keys == {} then []
    else
      LeastKey(keys);
      var k :| IsLeastKey(keys, k);
      [k] + SortedKeys(keys - {k})
  }

  function WritePart(key: string, value: string): string { QueryEscape(key) + "=" + QueryEscape(value) }

  function WriteValues(key: string, values: seq<string>): (r: seq<string>)
    ensures |r| == |values|
  {
    if values == [] then [] else WriteValues(key, values[..|values| - 1]) + [WritePart(key, values[|values| - 1])]
  }

  function WriteKeys(v: Values, keys: seq<string>): seq<string>
    requires forall k :: k in keys ==> k in v
  {
    if keys == [] then []
    else WriteKeys(v, keys[..|keys| - 1]) + WriteValues(keys[|keys| - 1], v[keys[|keys| - 1]])
  }

  function Encode(v: Values): string {
    Join(WriteKeys(v, SortedKeys(v.Keys)), '&')
  }

  // ---- Reading what was written ----

  lemma EscapedCharDecodes(c: char, t: string)
    requires Unescape(t, true).Some?
    ensures Unescape(EscapeChar(c) + t, true) == Some([c] + Unescape(t, true).value)
    ensures ';' !in EscapeChar(c)
  {
    var e := EscapeChar(c);
    var s := e + t;
    if |e| == 1 {
      assert s[1..] == t;
    } else {
      assert s[3..] == t && s[0] == e[0] && s[1] == e[1] && s[2] == e[2];
    }
  }

  lemma {:induction false} QueryEscapeDecodes(s: string)
    ensures Unescape(QueryEscape(s), true) == Some(s)
    ensures ';' !in QueryEscape(s)
  {
    hide EscapeChar;
    if s != "" {
      QueryEscapeDecodes(s[1..]);
      EscapedCharDecodes(s[0], QueryEscape(s[1..]));
      assert s == [s[0]] + s[1..];
    }
  }

  lemma PartIsRead(key: string, value: string)
    ensures ReadPart(WritePart(key, value)) == Some((key, value))
    ensures '&' !in WritePart(key, value)
  {
    QueryEscapeDecodes(key);
    QueryEscapeDecodes(value);
    CutUncut(QueryEscape(key), QueryEscape(value), true);
    assert Uncut(Part(QueryEscape(key), QueryEscape(value), true)) == WritePart(key, value);
  }

  lemma OneMorePart(parts: seq<string>, key: string, value: string)
    ensures Collect(parts + [WritePart(key, value)]) == Put(Collect(parts), key, value)
  {
    var more := parts + [WritePart(key, value)];
    PartIsRead(key, value);
    hide ReadPart, WritePart;
    assert more[..|more| - 1] == parts;
  }

  lemma {:induction false} ValuesAreRead(before: seq<string>, key: string, values: seq<string>)
    requires values != [] && key !in Collect(before)
    ensures Collect(before + WriteValues(key, values)) == Collect(before)[key := values]
  {
    hide Collect, WritePart;
    var init, last := values[..|values| - 1], values[|values| - 1];
    var parts := before + WriteValues(key, init);
    assert before + WriteValues(key, values) == parts + [WritePart(key, last)];
    OneMorePart(parts, key, last);
    assert values == init + [last];
    if init == [] {
      assert parts == before;
    } else {
      ValuesAreRead(before, key, init);
    }
  }

  lemma {:induction false} KeysAreRead(v: Values, keys: seq<string>)
    requires forall k :: k in keys ==> k in v && v[k] != []
    requires forall i, j :: 0 <= i < j < |keys| ==> keys[i] != keys[j]
    ensures Collect(WriteKeys(v, keys)) == map k | k in keys :: v[k]
  {
    hide WriteValues, ReadPart;
    if keys != [] {
      var init, last := keys[..|keys| - 1], keys[|keys| - 1];
      KeysAreRead(v, init);
      hide Collect;
      assert last !in init;
      ValuesAreRead(WriteKeys(v, init), last, v[last]);
      assert keys == init + [last];
    }
  }

  lemma {:induction false} NoAmpersand(v: Values, keys: seq<string>)
    requires forall k :: k in keys ==> k in v
    ensures forall i :: 0 <= i < |WriteKeys(v, keys)| ==> '&' !in WriteKeys(v, keys)[i]
  {
    if keys != [] {
      NoAmpersand(v, keys[..|keys| - 1]);
      NoAmpersandInValues(keys[|keys| - 1], v[keys[|keys| - 1]]);
    }
  }

  lemma {:induction false} NoAmpersandInValues(key: string, values: seq<string>)
    ensures forall i :: 0 <= i < |values| ==> '&' !in WriteValues(key, values)[i]
  {
    if values != [] {
      NoAmpersandInValues(key, values[..|values| - 1]);
      PartIsRead(key, values[|values| - 1]);
    }
  }

  lemma JoinedIsRead(parts: seq<string>)
    requires parts != [] && forall i :: 0 <= i < |parts| ==> '&' !in parts[i]
    ensures ParseQuery(Join(parts, '&')) == Collect(parts)
  {
    SplitJoin(parts, '&');
  }

  lemma EmptyIsRead()
    ensures ParseQuery("") == map[]
  {
    assert Collect([""]) == Collect([""][..0]);
  }

  // Whatever the values hold, an encoded query is read back as it was.
  lemma EncodedIsRead(v: Values)
    requires forall k :: k in v ==> v[k] != []
    ensures ParseQuery(Encode(v)) == v
  {
    var keys := SortedKeys(v.Keys);
    var parts := WriteKeys(v, keys);
    KeysAreRead(v, keys);
    NoAmpersand(v, keys);
    hide WriteKeys, SortedKeys, Collect, ParseQuery, Split;
    if parts == [] {
      EmptyIsRead();
      NothingCollected();
    } else {
      JoinedIsRead(parts);
    }
  }

  lemma NothingCollected()
    ensures Collect([]) == map[] && Join([], '&') == ""
  {
  }
}
