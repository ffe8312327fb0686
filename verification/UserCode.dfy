/** The user code of the device grant: eight letters of a reduced alphabet in two
    groups, and what the approval page accepts for one. */
module UserCode {
  import opened Strings

  const ALPHABET := "BCDFGHJKLMNPQRSTVWXZ"

  const LENGTH := 8

  // The consonants without Y.
  predicate InAlphabet(c: char) {
    'B' <= c <= 'Z' && c != 'E' && c != 'I' && c != 'O' && c != 'U' && c != 'Y'
  }

  lemma AlphabetSpelledOut(c: char)
    ensures InAlphabet(c) <==> c in "BCDFGHJKLMNPQRSTVWXZ"
  {}

  function UpperChar(c: char): char {
    if 'a' <= c <= 'z' then (c as int - 32) as char else c
  }

  // What a person typed, in upper case and stripped of everything outside the
  // alphabet.
  function Letters(raw: string): (r: string)
    ensures |r| <= |raw|
    ensures forall i :: 0 <= i < |r| ==> InAlphabet(r[i])
  {
    if raw == "" then ""
    else
      var c := UpperChar(raw[|raw| - 1]);
      Letters(raw[..|raw| - 1]) + if InAlphabet(c) then [c] else ""
  }

  predicate IsUserCode(code: string) {
    && |code| == LENGTH + 1 && code[4] == '-'
    && forall i :: 0 <= i <= LENGTH && i != 4 ==> InAlphabet(code[i])
  }

  function Grouped(letters: string): string
    requires |letters| == LENGTH
  {
    letters[..4] + "-" + letters[4..]
  }

  // The code that was meant, or nothing.
  function Normalized(raw: string): string {
    if |Letters(raw)| == LENGTH then Grouped(Letters(raw)) else ""
  }

  method Normalize(raw: string) returns (code: string)
    ensures code == Normalized(raw)
    ensures code != "" ==> IsUserCode(code) && Letters(code) == Letters(raw)
  {
    var letters := "";
    for i := 0 to |raw|
      invariant letters == Letters(raw[..i])
    {
      assert raw[..i + 1][..i] == raw[..i];
      var c := UpperChar(raw[i]);
      if InAlphabet(c) {
        letters := letters + [c];
      }
    }
    assert raw[..|raw|] == raw;
    if |letters| != LENGTH {
      return "";
    }
    code := letters[..4] + "-" + letters[4..];
    LettersOfCode(code);
    assert code[..4] + code[5..] == letters;
  }

  // The draws stand for the random source.
  method NewUserCode(draws: seq<nat>) returns (code: string)
    requires |draws| == LENGTH && forall i :: 0 <= i < LENGTH ==> draws[i] < |ALPHABET|
    ensures IsUserCode(code)
    ensures forall i :: 0 <= i < LENGTH ==> code[if i < 4 then i else i + 1] == ALPHABET[draws[i]]
  {
    code := "";
    for i := 0 to LENGTH
      invariant |code| == if i <= 4 then i else i + 1
      invariant i > 4 ==> code[4] == '-'
      invariant forall j :: 0 <= j < i ==> code[if j < 4 then j else j + 1] == ALPHABET[draws[j]]
    {
      if i == 4 {
        code := code + "-";
      }
      code := code + [ALPHABET[draws[i]]];
    }
    forall i | 0 <= i <= LENGTH && i != 4
      ensures InAlphabet(code[i])
    {
      var j := if i < 4 then i else i - 1;
      assert code[i] == ALPHABET[draws[j]];
      AlphabetSpelledOut(code[i]);
    }
  }

  lemma {:induction false} LettersConcat(a: string, b: string)
    ensures Letters(a + b) == Letters(a) + Letters(b)
  {
    if b == "" {
      assert a + b == a;
    } else {
      LettersConcat(a, b[..|b| - 1]);
      assert (a + b)[..|a + b| - 1] == a + b[..|b| - 1];
    }
  }

  lemma {:induction false} LettersKept(letters: string)
    requires forall i :: 0 <= i < |letters| ==> InAlphabet(letters[i])
    ensures Letters(letters) == letters
  {
    if letters != "" {
      LettersKept(letters[..|letters| - 1]);
      assert letters == letters[..|letters| - 1] + [letters[|letters| - 1]];
    }
  }

  lemma LettersOfCode(code: string)
    requires IsUserCode(code)
    ensures Letters(code) == code[..4] + code[5..]
  {
    assert code == code[..4] + ("-" + code[5..]);
    LettersConcat(code[..4], "-" + code[5..]);
    LettersConcat("-", code[5..]);
    LettersKept(code[..4]);
    LettersKept(code[5..]);
    assert Letters("-") == "";
  }

  lemma {:induction false} CaseIsIgnored(raw: string)
    ensures Letters(ToLower(raw)) == Letters(raw)
  {
    if raw != "" {
      CaseIsIgnored(raw[..|raw| - 1]);
      assert ToLower(raw)[..|raw| - 1] == ToLower(raw[..|raw| - 1]);
    }
  }

  predicate Gap(s: string) {
    Letters(s) == ""
  }

  // What is typed counts by its letters alone: neither case nor anything put
  // between them, at any place, makes a difference.
  lemma CaseAndGapsAreIgnored(typed: string, a: string, gap: string, b: string)
    requires Gap(gap) && ToLower(typed) == ToLower(a + gap + b)
    ensures Letters(typed) == Letters(a + b) && Normalized(typed) == Normalized(a + b)
  {
    hide Letters, Grouped, ToLower;
    CaseIsIgnored(typed);
    CaseIsIgnored(a + gap + b);
    LettersConcat(a + gap, b);
    LettersConcat(a, gap);
    assert Letters(a) + "" == Letters(a);
    LettersConcat(a, b);
  }

  // What was typed is taken for a code exactly when its letters, in upper case,
  // are the code's.
  lemma TypedCodeIsRecognised(code: string, typed: string)
    requires IsUserCode(code)
    ensures Normalized(typed) == code <==> Letters(typed) == Letters(code)
  {
    LettersOfCode(code);
    var a, b := code[..4], code[5..];
    if Letters(typed) == Letters(code) {
      assert (a + b)[..4] == a && (a + b)[4..] == b;
      assert code == a + "-" + b;
    }
    if Normalized(typed) == code {
      var letters := Letters(typed);
      assert letters[..4] == a && letters[4..] == b;
      assert letters == letters[..4] + letters[4..];
    }
  }

  // Two codes that are read alike are one code.
  lemma CodesAreDistinguished(a: string, b: string)
    requires IsUserCode(a) && IsUserCode(b) && Letters(a) == Letters(b)
    ensures a == b
  {
    LettersOfCode(a);
    LettersOfCode(b);
    assert a[..4] == (a[..4] + a[5..])[..4] && b[..4] == (b[..4] + b[5..])[..4];
    assert a[5..] == (a[..4] + a[5..])[4..] && b[5..] == (b[..4] + b[5..])[4..];
    assert a == a[..4] + "-" + a[5..] && b == b[..4] + "-" + b[5..];
  }
}
