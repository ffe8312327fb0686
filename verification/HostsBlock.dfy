/** The managed hosts-file block of cmd/entra-emulator/cli.go: the block between
    two marker lines is cut out at the markers' first occurrences and appended
    again. */
module HostsBlock {
  import opened Strings

  const BEGIN := "# entra-emulator BEGIN"
  const END := "# entra-emulator END"

  // strings.TrimRight(s, "\n").
  function TrimRight(s: string): (r: string)
    ensures r <= s && (r == "" || r[|r| - 1] != '\n')
    ensures forall i :: |r| <= i < |s| ==> s[i] == '\n'
  {
    if s != "" && s[|s| - 1] == '\n' then TrimRight(s[..|s| - 1]) else s
  }

  // Everything before the first begin marker and after the first end marker.
  function Cut(content: string): string {
    var start, end := Index(content, BEGIN), Index(content, END);
    if start.Some? && end.Some? then content[..start.value] + content[end.value + |END|..] else content
  }

  predicate Managed(content: string) {
    Index(content, BEGIN).Some? && Index(content, END).Some?
  }

  function Merge(content: string, block: string, remove: bool): string {
    var left := if Managed(content) then TrimRight(Cut(content)) + "\n" else content;
    if remove then left else TrimRight(left) + "\n\n" + block + "\n"
  }

  method MergeHostsBlock(content: string, block: string, remove: bool) returns (r: string)
    ensures r == Merge(content, block, remove)
  {
    hide Index, TrimRight;
    r := content;
    var start := Index(r, BEGIN);
    if start.Some? {
      var end := Index(r, END);
      if end.Some? {
        r := r[..start.value] + r[end.value + |END|..];
        assert Managed(content) && r == Cut(content);
        r := TrimRight(r) + "\n";
      }
    }
    ghost var left := r;
    assert left == if Managed(content) then TrimRight(Cut(content)) + "\n" else content;
    hide Managed, Cut;
    if !remove {
      r := TrimRight(r) + "\n\n" + block + "\n";
    }
  }

  function BlockOf(body: string): string { BEGIN + "\n" + body + "\n" + END }

  ghost predicate Unmarked(s: string) { !Contains(s, BEGIN) && !Contains(s, END) }

  // ---- Search across a line break ----

  lemma OccursChar(s: string, pat: string, j: nat, i: nat)
    requires OccursAt(s, pat, j) && i < |pat|
    ensures s[j + i] == pat[i] && pat[i] in pat
  {
    assert s[j..j + |pat|][i] == s[j + i];
  }

  lemma NotBefore(a: string, b: string, pat: string, j: nat)
    requires '\n' !in pat && pat != "" && !Contains(a, pat) && j <= |a|
    ensures !OccursAt(a + "\n" + b, pat, j)
  {
    var s := a + "\n" + b;
    if OccursAt(s, pat, j) {
      if j + |pat| <= |a| {
        assert s[j..j + |pat|] == a[j..j + |pat|];
        assert OccursAt(a, pat, j);
      } else {
        OccursChar(s, pat, j, |a| - j);
      }
    }
  }

  lemma NotAcross(a: string, b: string, pat: string)
    requires '\n' !in pat && pat != "" && !Contains(a, pat) && !Contains(b, pat)
    ensures !Contains(a + "\n" + b, pat)
  {
    var s := a + "\n" + b;
    forall j: nat
      ensures !OccursAt(s, pat, j)
    {
      if j <= |a| {
        NotBefore(a, b, pat, j);
      } else if OccursAt(s, pat, j) {
        var k := j - |a| - 1;
        assert s[j..j + |pat|] == b[k..k + |pat|];
        assert OccursAt(b, pat, k);
      }
    }
  }

  // The first line that starts with pat, when nothing above it holds pat.
  lemma FoundAtLine(a: string, t: string, pat: string)
    requires '\n' !in pat && pat != "" && !Contains(a, pat)
    ensures Index(a + "\n" + (pat + t), pat) == Some(|a| + 1)
  {
    var s := a + "\n" + (pat + t);
    assert s[|a| + 1..|a| + 1 + |pat|] == pat;
    forall j: nat | j < |a| + 1
      ensures !OccursAt(s, pat, j)
    {
      NotBefore(a, pat + t, pat, j);
    }
    FirstIndex(s, pat, |a| + 1);
  }

  lemma EmptyHolds(pat: string)
    requires pat != ""
    ensures !Contains("", pat)
  {
  }

  lemma PrefixUnmarked(p: string, s: string)
    requires p <= s && Unmarked(s)
    ensures Unmarked(p)
  {
    forall j: nat, pat | OccursAt(p, pat, j)
      ensures OccursAt(s, pat, j)
    {
      assert s[j..j + |pat|] == p[j..j + |pat|];
    }
  }

  lemma MarkersDiffer()
    ensures !Contains(BEGIN, END)
  {
    forall j: nat
      ensures !OccursAt(BEGIN, END, j)
    {
      if j == 0 {
        assert BEGIN[0..20][17] == 'B' && END[17] == 'E';
      } else if j + |END| <= |BEGIN| {
        assert BEGIN[j..j + |END|][0] != '#';
      }
    }
  }

  // ---- The laws ----

  lemma {:induction false} TrimAppended(s: string, n: string)
    requires forall i :: 0 <= i < |n| ==> n[i] == '\n'
    ensures TrimRight(s + n) == TrimRight(s)
  {
    if n == "" {
      assert s + n == s;
    } else {
      var init := n[..|n| - 1];
      TrimAppended(s, init);
      assert (s + n)[..|s + n| - 1] == s + init;
    }
  }

  lemma TrimTwice(s: string)
    ensures TrimRight(TrimRight(s)) == TrimRight(s)
  {
  }

  // A file whose one block was put there by an add.
  function WithBlock(kept: string, body: string): string { kept + "\n\n" + BlockOf(body) + "\n" }

  ghost predicate InLine(pat: string) { '\n' !in pat && pat != "" }

  lemma FirstMarker(kept: string, t: string, b: string)
    requires InLine(b) && !Contains(kept, b)
    ensures Index(kept + "\n\n" + (b + t), b) == Some(|kept| + 2)
  {
    EmptyHolds(b);
    NotAcross(kept, "", b);
    var above := kept + "\n" + "";
    FoundAtLine(above, t, b);
    assert kept + "\n\n" + (b + t) == above + "\n" + (b + t);
  }

  lemma SecondMarker(kept: string, b: string, body: string, t: string, e: string)
    requires InLine(e) && !Contains(kept, e) && !Contains(b, e) && !Contains(body, e)
    ensures Index(kept + "\n\n" + (b + ("\n" + body + "\n" + (e + t))), e)
            == Some(|kept| + |b| + |body| + 4)
  {
    EmptyHolds(e);
    var above := kept + "\n" + "";
    var line := above + "\n" + b;
    var upTo := line + "\n" + body;
    NotAcross(kept, "", e);
    NotAcross(above, b, e);
    NotAcross(line, body, e);
    FoundAtLine(upTo, t, e);
    assert kept + "\n\n" + (b + ("\n" + body + "\n" + (e + t))) == upTo + "\n" + (e + t);
  }

  lemma BlockFound(kept: string, body: string)
    requires Unmarked(kept) && Unmarked(body)
    ensures Managed(WithBlock(kept, body)) && Cut(WithBlock(kept, body)) == kept + "\n\n" + "\n"
  {
    var s, b, e := WithBlock(kept, body), BEGIN, END;
    var tail := "\n" + body + "\n" + (e + "\n");
    assert s == kept + "\n\n" + (b + tail);
    MarkersDiffer();
    hide Index;
    FirstMarker(kept, tail, b);
    SecondMarker(kept, b, body, "\n", e);
    assert s[..|kept| + 2] == kept + "\n\n";
    assert s[|kept| + |b| + |body| + 4 + |e|..] == "\n";
  }

  // What is left of a file once its block is cut out, if it has one.
  function Stripped(content: string): string { if Managed(content) then Cut(content) else content }

  lemma TrimAgain(s: string)
    ensures TrimRight(TrimRight(s) + "\n") == TrimRight(s)
  {
    TrimAppended(TrimRight(s), "\n");
    TrimTwice(s);
  }

  lemma AddedForm(content: string, body: string)
    ensures Merge(content, BlockOf(body), false) == WithBlock(TrimRight(Stripped(content)), body)
  {
    TrimAgain(Cut(content));
    hide Managed, Cut, BlockOf, TrimRight;
  }

  lemma Uncovered(kept: string, body: string)
    requires Unmarked(kept) && Unmarked(body) && TrimRight(kept) == kept
    ensures Managed(WithBlock(kept, body)) && TrimRight(Stripped(WithBlock(kept, body))) == kept
  {
    hide Managed, Cut, Unmarked;
    BlockFound(kept, body);
    var breaks := "\n\n" + "\n";
    TrimAppended(kept, breaks);
    assert kept + breaks == kept + "\n\n" + "\n";
  }

  // For any file whose lines outside the block hold no marker, wherever the
  // block stands and whatever follows it: adding replaces the block, and taking
  // the added one out leaves the rest up to its trailing newlines.
  lemma Replaces(content: string, body: string, other: string)
    requires Unmarked(Stripped(content)) && Unmarked(body)
    ensures var added := Merge(content, BlockOf(body), false);
            && Merge(added, BlockOf(other), false) == Merge(content, BlockOf(other), false)
            && Merge(added, BlockOf(other), true) == TrimRight(Stripped(content)) + "\n"
  {
    var kept := TrimRight(Stripped(content));
    PrefixUnmarked(kept, Stripped(content));
    TrimTwice(Stripped(content));
    AddedForm(content, body);
    AddedForm(content, other);
    var added := WithBlock(kept, body);
    Uncovered(kept, body);
    AddedForm(added, other);
    hide Cut, Unmarked, BlockOf, TrimRight, WithBlock;
  }

  lemma AddTwice(content: string, body: string)
    requires Unmarked(Stripped(content)) && Unmarked(body)
    ensures var added := Merge(content, BlockOf(body), false); Merge(added, BlockOf(body), false) == added
  {
    Replaces(content, body, body);
  }

  lemma RemoveFromUnmarked(content: string, block: string)
    requires Unmarked(content)
    ensures Merge(content, block, true) == content
  {
  }

  // Both markers are searched from the top, so an end marker above the begin
  // marker makes the cut keep the text in between twice.
  lemma CutDuplicatesIff(content: string)
    requires Managed(content)
    ensures |Cut(content)| > |content| <==> Index(content, END).value + |END| < Index(content, BEGIN).value
    ensures Index(content, END).value + |END| <= Index(content, BEGIN).value ==>
              Cut(content) == content[..Index(content, END).value + |END|]
                              + content[Index(content, END).value + |END|..Index(content, BEGIN).value]
                              + content[Index(content, END).value + |END|..Index(content, BEGIN).value]
                              + content[Index(content, BEGIN).value..]
  {
    var start, end := Index(content, BEGIN).value, Index(content, END).value + |END|;
    if end <= start {
      assert content[..start] == content[..end] + content[end..start];
      assert content[end..] == content[end..start] + content[start..];
    }
  }

  // Such a file.
  lemma EndAboveBegin()
    ensures var content := END + "\n" + BEGIN;
            Managed(content) && Cut(content) == content[..|END|] + "\n" + "\n" + BEGIN
  {
    var content := END + "\n" + BEGIN;
    EmptyHolds(END);
    EndHoldsNoBegin();
    FoundAtLine(END, "", BEGIN);
    assert BEGIN + "" == BEGIN;
    assert content[0..|END|] == END;
    FirstIndex(content, END, 0);
    hide Index;
    assert content[..|END| + 1] == END + "\n" && content[|END|..] == "\n" + BEGIN;
  }

  lemma EndHoldsNoBegin()
    ensures !Contains(END, BEGIN)
  {
  }

  // ---- What the command puts between the markers ----

  const SUBDOMAINS := ["login", "portal", "graph"]

  function Entry(sub: string, domain: string): string { "127.0.0.1  " + sub + "." + domain }

  function Entries(domains: seq<string>): seq<string> {
    if domains == [] then []
    else
      var d := domains[|domains| - 1];
      Entries(domains[..|domains| - 1]) + [Entry("login", d), Entry("portal", d), Entry("graph", d)]
  }

  method HostsEntries(base: string, local: seq<string>) returns (lines: seq<string>)
    ensures lines == Entries([base] + local)
  {
    var domains := [base] + local;
    lines := [];
    for d := 0 to |domains|
      invariant lines == Entries(domains[..d])
    {
      assert domains[..d + 1][..d] == domains[..d];
      ghost var before := lines;
      ghost var added := [Entry("login", domains[d]), Entry("portal", domains[d]), Entry("graph", domains[d])];
      for s := 0 to |SUBDOMAINS|
        invariant lines == before + added[..s]
      {
        lines := lines + [Entry(SUBDOMAINS[s], domains[d])];
      }
      assert added[..3] == added;
    }
    assert domains[..|domains|] == domains;
  }

  // Three lines for each domain, one name each, all for this machine.
  lemma {:induction false} EntriesMeaning(domains: seq<string>, i: nat)
    requires i < |domains|
    ensures |Entries(domains)| == 3 * |domains|
    ensures Entries(domains)[3 * i] == "127.0.0.1  login." + domains[i]
    ensures Entries(domains)[3 * i + 1] == "127.0.0.1  portal." + domains[i]
    ensures Entries(domains)[3 * i + 2] == "127.0.0.1  graph." + domains[i]
  {
    var n := |domains| - 1;
    var d := domains[n];
    assert "127.0.0.1  " + "login" + "." + d == "127.0.0.1  login." + d;
    assert "127.0.0.1  " + "portal" + "." + d == "127.0.0.1  portal." + d;
    assert "127.0.0.1  " + "graph" + "." + d == "127.0.0.1  graph." + d;
    if n > 0 {
      EntriesMeaning(domains[..n], if i < n then i else 0);
    }
  }

  lemma {:induction false} JoinAvoids(parts: seq<string>, c: char)
    requires c != '\n' && forall i :: 0 <= i < |parts| ==> c !in parts[i]
    ensures c !in Join(parts, '\n')
  {
    if |parts| > 1 {
      JoinAvoids(parts[1..], c);
    }
  }

  lemma {:induction false} EntriesAvoid(domains: seq<string>)
    requires forall i :: 0 <= i < |domains| ==> '#' !in domains[i]
    ensures forall i :: 0 <= i < |Entries(domains)| ==> '#' !in Entries(domains)[i]
  {
    if domains != [] {
      EntriesAvoid(domains[..|domains| - 1]);
    }
  }

  // Domains without '#' make a body the laws above apply to.
  lemma CommandBodyIsUnmarked(domains: seq<string>)
    requires forall i :: 0 <= i < |domains| ==> '#' !in domains[i]
    ensures Unmarked(Join(Entries(domains), '\n'))
  {
    var body := Join(Entries(domains), '\n');
    EntriesAvoid(domains);
    JoinAvoids(Entries(domains), '#');
    hide Entries, Join;
    StartsElsewhere(body, BEGIN);
    StartsElsewhere(body, END);
  }

  lemma StartsElsewhere(s: string, pat: string)
    requires pat != "" && pat[0] !in s
    ensures !Contains(s, pat)
  {
    if j: nat :| OccursAt(s, pat, j) {
      OccursChar(s, pat, j, 0);
    }
  }
}
