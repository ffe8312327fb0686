/** Case folding of query option names: any name that starts with a dollar sign is
    put in lower case, and nothing else in the query changes. */
module QueryFold {
  import opened Strings
  import opened Escaping

  function EscapeChar(c: char): (r: string)
    ensures '&' !in r && '=' !in r && |r| > 0
  {
    if 'a' <= c <= 'z' || 'A' <= c <= 'Z' || '0' <= c <= '9' || c in "-_.~" then [c]
    else if c == ' ' then "+"
    else if c as int < 256 then ['%', HexDigit(c as int / 16), HexDigit(c as int % 16)]
    else [c]
  }

  // url.QueryEscape.
  function QueryEscape(s: string): (r: string)
    ensures '&' !in r && '=' !in r
  {
    if s == "" then "" else EscapeChar(s[0]) + QueryEscape(s[1..])
  }

  // strings.ReplaceAll.
  function ReplaceAll(s: string, before: string, after: string): string
    requires before != ""
  {
    if s == "" then ""
    else if HasPrefix(s, before) then after + ReplaceAll(s[|before|..], before, after)
    else [s[0]] + ReplaceAll(s[1..], before, after)
  }

  // The spelling of a rewritten option name.
  function EscapeName(name: string): string {
    ReplaceAll(QueryEscape(name), "%24", "$")
  }

  lemma EscapedCharPassesReplace(c: char, t: string)
    ensures ReplaceAll(EscapeChar(c) + t, "%24", "$")
            == (if c == '$' then "$" else EscapeChar(c)) + ReplaceAll(t, "%24", "$")
  {
    var e := EscapeChar(c);
    if c == '$' {
      assert e == "%24";
      assert (e + t)[..3] == e && (e + t)[3..] == t;
    } else if |e| == 1 {
      assert (e + t)[0] == e[0] && (e + t)[1..] == t;
      SkipChar(e + t);
    } else {
      EscapedTriple(c, t);
    }
  }

  lemma EscapedTriple(c: char, t: string)
    requires c != '$' && |EscapeChar(c)| == 3
    ensures ReplaceAll(EscapeChar(c) + t, "%24", "$") == EscapeChar(c) + ReplaceAll(t, "%24", "$")
  {
    var e := EscapeChar(c);
    assert e[1] != '2' || e[2] != '4' by {
      assert c as int == 16 * HexValue(e[1]) + HexValue(e[2]);
      assert HexValue('2') == 2 && HexValue('4') == 4 && '$' as int == 0x24;
    }
    var s := e + t;
    assert s[0] == '%' && s[1] == e[1] && s[2] == e[2];
    SkipChar(s);
    SkipChar(s[1..]);
    SkipChar(s[1..][1..]);
    assert s[1..][1..][1..] == t;
    assert e == [s[0], s[1], s[2]];
  }

  lemma SkipChar(s: string)
    requires s != "" && !HasPrefix(s, "%24")
    ensures ReplaceAll(s, "%24", "$") == [s[0]] + ReplaceAll(s[1..], "%24", "$")
  {}

  // Decoding undoes the rewritten spelling, and that spelling cannot break a
  // query apart.
  lemma {:induction false} EscapeNameDecodes(name: string)
    ensures Unescape(EscapeName(name), true) == Some(name)
    ensures '&' !in EscapeName(name) && '=' !in EscapeName(name)
  {
    if name != "" {
      var c, rest := name[0], name[1..];
      EscapeNameDecodes(rest);
      EscapedCharPassesReplace(c, QueryEscape(rest));
      var e := if c == '$' then "$" else EscapeChar(c);
      assert EscapeName(name) == e + EscapeName(rest);
      assert name == [c] + rest;
      assert (e + EscapeName(rest))[|e|..] == EscapeName(rest);
    }
  }

  datatype Part = Part(key: string, value: string, hasValue: bool)

  // strings.Cut at the first equals sign.
  function Cut(part: string): (r: Part)
    ensures '=' !in r.key
  {
    if part == "" then Part("", "", false)
    else if part[0] == '=' then Part("", part[1..], true)
    else
      var rest := Cut(part[1..]);
      rest.(key := [part[0]] + rest.key)
  }

  function Uncut(p: Part): string {
    if p.hasValue then p.key + "=" + p.value else p.key
  }

  lemma {:induction false} CutUncut(key: string, value: string, hasValue: bool)
    requires '=' !in key
    ensures Cut(Uncut(Part(key, value, hasValue))) == Part(key, if hasValue then value else "", hasValue)
  {
    var s := Uncut(Part(key, value, hasValue));
    if key != "" {
      var rest := Part(key[1..], value, hasValue);
      CutUncut(key[1..], value, hasValue);
      assert s[0] == key[0] && s[1..] == Uncut(rest);
      assert key == [key[0]] + key[1..];
    } else if hasValue {
      assert s == "=" + value;
      assert s[1..] == value;
    }
  }

  predicate NeedsFolding(key: string) {
    var name := Unescape(key, true);
    name.Some? && HasPrefix(name.value, "$") && ToLower(name.value) != name.value
  }

  function FoldPart(part: string): string {
    var p := Cut(part);
    if NeedsFolding(p.key) then Uncut(p.(key := EscapeName(ToLower(Unescape(p.key, true).value)))) else part
  }

  function FoldParts(parts: seq<string>): (r: seq<string>)
    ensures |r| == |parts|
    ensures forall i :: 0 <= i < |parts| ==> r[i] == FoldPart(parts[i])
  {
    seq(|parts|, i requires 0 <= i < |parts| => FoldPart(parts[i]))
  }

  function Folded(rawQuery: string): string {
    Join(FoldParts(Split(rawQuery, '&')), '&')
  }

  lemma LowerTwice(s: string)
    ensures ToLower(ToLower(s)) == ToLower(s)
  {}

  lemma {:induction false} CutParts(part: string)
    ensures '&' !in part ==> '&' !in Cut(part).value
    ensures Uncut(Cut(part)) == part
  {
    if part != "" {
      if part[0] == '=' {
        assert "" + "=" + part[1..] == part;
      } else {
        CutParts(part[1..]);
        var rest := Cut(part[1..]);
        assert Uncut(Cut(part)) == [part[0]] + Uncut(rest);
        assert part == [part[0]] + part[1..];
      }
    }
  }

  // One part: the value and its presence survive byte for byte; a name that
  // starts with a dollar sign decodes to its lower case; any other key is
  // untouched; and folding again changes nothing.
  lemma FoldPartMeaning(part: string)
    ensures var p, q := Cut(part), Cut(FoldPart(part));
            var before, after := Unescape(p.key, true), Unescape(q.key, true);
            && q.value == p.value && q.hasValue == p.hasValue
            && (before.Some? && HasPrefix(before.value, "$") ==> after == Some(ToLower(before.value)))
            && (!(before.Some? && HasPrefix(before.value, "$")) ==> FoldPart(part) == part)
    ensures FoldPart(FoldPart(part)) == FoldPart(part)
    ensures '&' !in part ==> '&' !in FoldPart(part)
  {
    var p := Cut(part);
    CutParts(part);
    if NeedsFolding(p.key) {
      var lower := ToLower(Unescape(p.key, true).value);
      EscapeNameDecodes(lower);
      LowerTwice(Unescape(p.key, true).value);
      CutUncut(EscapeName(lower), p.value, p.hasValue);
      NoValueWithoutEquals(part);
    }
  }

  lemma {:induction false} NoValueWithoutEquals(part: string)
    ensures !Cut(part).hasValue ==> Cut(part).value == ""
  {
    if part != "" && part[0] != '=' {
      NoValueWithoutEquals(part[1..]);
    }
  }

  // The whole query: as many parts as before, in the same order, each folded on
  // its own; folding twice is folding once.
  lemma FoldedMeaning(rawQuery: string)
    ensures Split(Folded(rawQuery), '&') == FoldParts(Split(rawQuery, '&'))
    ensures Folded(Folded(rawQuery)) == Folded(rawQuery)
    ensures (forall i :: 0 <= i < |Split(rawQuery, '&')| ==> !NeedsFolding(Cut(Split(rawQuery, '&')[i]).key))
            ==> Folded(rawQuery) == rawQuery
  {
    var parts := Split(rawQuery, '&');
    var folded := FoldParts(parts);
    forall i | 0 <= i < |parts|
      ensures '&' !in folded[i] && FoldPart(folded[i]) == folded[i]
    {
      FoldPartMeaning(parts[i]);
    }
    SplitJoin(folded, '&');
    assert FoldParts(folded) == folded;
    JoinSplit(rawQuery, '&');
    if forall i :: 0 <= i < |parts| ==> !NeedsFolding(Cut(parts[i]).key) {
      assert folded == parts;
    }
  }

  // The loop body: the part as it stands, or its rewriting.
  method RewritePart(part: string) returns (r: string, changed: bool)
    ensures r == FoldPart(part) && (!changed ==> r == part)
  {
    var p := Cut(part);
    var name := Unescape(p.key, true);
    if name.None? || !HasPrefix(name.value, "$") {
      return part, false;
    }
    var lower := ToLower(name.value);
    if lower == name.value {
      return part, false;
    }
    r := ReplaceAll(QueryEscape(lower), "%24", "$");
    if p.hasValue {
      r := r + "=" + p.value;
    }
    changed := true;
  }

  method FoldQuery(rawQuery: string) returns (r: string)
    ensures r == Folded(rawQuery)
  {
    var original := Split(rawQuery, '&');
    if rawQuery == "" {
      assert FoldParts([""]) == [""];
      return rawQuery;
    }
    var parts := original;
    var changed := false;
    for i := 0 to |original|
      invariant |parts| == |original|
      invariant forall j :: 0 <= j < |parts| ==> parts[j] == if j < i then FoldPart(original[j]) else original[j]
      invariant !changed ==> parts == original
    {
      var part, folded := RewritePart(parts[i]);
      if folded {
        parts := parts[i := part];
        changed := true;
      }
    }
    assert parts == FoldParts(original);
    if changed {
      r := Join(parts, '&');
    } else {
      r := rawQuery;
      JoinSplit(rawQuery, '&');
    }
  }
}
