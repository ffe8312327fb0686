/** Percent escaping as net/url does it, over octets. */
module Escaping {
  import opened Strings

  predicate IsHex(c: char) {
    '0' <= c <= '9' || 'a' <= c <= 'f' || 'A' <= c <= 'F'
  }

  function HexValue(c: char): (v: nat)
    requires IsHex(c)
    ensures v < 16
  {
    if c <= '9' then c as int - '0' as int
    else if c <= 'F' then c as int - 'A' as int + 10
    else c as int - 'a' as int + 10
  }

  function HexDigit(v: nat): (c: char)
    requires v < 16
    ensures IsHex(c) && HexValue(c) == v && c != '%' && c != '&' && c != '='
  {
    if v < 10 then ('0' as int + v) as char else ('A' as int + v - 10) as char
  }

  // url.PathUnescape and, with plusIsSpace, url.QueryUnescape.
  function Unescape(s: string, plusIsSpace: bool): Option<string> {
    if s == "" then Some("")
    else if s[0] == '%' then
      if |s| >= 3 && IsHex(s[1]) && IsHex(s[2]) then
        var rest := Unescape(s[3..], plusIsSpace);
        if rest.None? then None
        else Some([(16 * HexValue(s[1]) + HexValue(s[2])) as char] + rest.value)
      else None
    else
      var rest := Unescape(s[1..], plusIsSpace);
      if rest.None? then None
      else Some([if s[0] == '+' && plusIsSpace then ' ' else s[0]] + rest.value)
  }

  function PathUnescape(s: string): Option<string> {
    Unescape(s, false)
  }

  // How ServeMux decodes one path segment: a bad escape leaves it as it is.
  function DecodeSegment(s: string): string {
    var d := PathUnescape(s);
    if d.Some? then d.value else s
  }

  lemma {:induction false} PlainUnescape(s: string)
    requires '%' !in s
    ensures PathUnescape(s) == Some(s)
  {
    if s != "" {
      PlainUnescape(s[1..]);
      assert s == [s[0]] + s[1..];
    }
  }

  // A separator never takes part in an escape, so decoding goes part by part.
  lemma {:induction false} UnescapeAcross(a: string, b: string, sep: char)
    requires !IsHex(sep) && sep != '%'
    ensures var x, y := PathUnescape(a), PathUnescape(b);
            PathUnescape(a + [sep] + b) == if x.Some? && y.Some? then Some(x.value + [sep] + y.value) else None
  {
    var s := a + [sep] + b;
    if a == "" {
      assert s == [sep] + b && s[1..] == b;
      var y := PathUnescape(b);
      if y.Some? {
        assert "" + [sep] + y.value == [sep] + y.value;
      }
    } else if a[0] == '%' {
      if |a| >= 3 && IsHex(a[1]) && IsHex(a[2]) {
        UnescapeAcross(a[3..], b, sep);
        assert s[3..] == a[3..] + [sep] + b;
        var x, y, c := PathUnescape(a[3..]), PathUnescape(b), (16 * HexValue(a[1]) + HexValue(a[2])) as char;
        if x.Some? && y.Some? {
          assert [c] + (x.value + [sep] + y.value) == [c] + x.value + [sep] + y.value;
        }
      } else if |a| == 2 {
        assert s[2] == sep;
      } else if |a| == 1 {
        assert s[1] == sep;
      }
    } else {
      UnescapeAcross(a[1..], b, sep);
      assert s[1..] == a[1..] + [sep] + b && s[0] == a[0];
      var x, y := PathUnescape(a[1..]), PathUnescape(b);
      if x.Some? && y.Some? {
        assert [a[0]] + (x.value + [sep] + y.value) == [a[0]] + x.value + [sep] + y.value;
      }
    }
  }

  lemma {:induction false} JoinDecodes(parts: seq<string>)
    requires parts != []
    ensures PathUnescape(Join(parts, '/')).Some? <==> forall i :: 0 <= i < |parts| ==> PathUnescape(parts[i]).Some?
  {
    if |parts| > 1 {
      JoinDecodes(parts[1..]);
      UnescapeAcross(parts[0], Join(parts[1..], '/'), '/');
      assert forall i :: 0 <= i < |parts| ==> parts[i] == if i == 0 then parts[0] else parts[1..][i - 1];
    }
  }
}
