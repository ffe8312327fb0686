/** The case folder in front of ServeMux: it rewrites a request path so that exact
    dispatch answers it as case-insensitive dispatch would. */
module CaseFold {
  import opened Strings
  import opened Escaping
  import opened RouteOrder
  import QueryFold

  const VERSION := "v1.0"

  // What learn has put in the table, and what the emulator's registrations
  // promise: literals are plain, and one spelling stands for all its casings.
  ghost predicate WellFormed(pats: seq<Pattern>) {
    && (forall i :: 0 <= i < |pats| ==> |pats[i].segs| >= 2 && pats[i].segs[0] == Lit(VERSION))
    && (forall i, j :: 0 <= i < |pats| && 0 <= j < |pats[i].segs| ==> PlainLiteral(pats[i].segs[j]))
    && (forall i, j, k, l :: 0 <= i < |pats| && 0 <= j < |pats[i].segs| && 0 <= k < |pats| && 0 <= l < |pats[k].segs|
          ==> OneSpelling(pats[i].segs[j], pats[k].segs[l]))
  }

  predicate PlainLiteral(s: Seg) {
    s.Lit? ==> s.text != "" && '%' !in s.text && '/' !in s.text
  }

  predicate OneSpelling(s: Seg, t: Seg) {
    s.Lit? && t.Lit? && EqualFold(s.text, t.text) ==> s.text == t.text
  }

  // ---- Matching ----

  predicate FoldsTo(raw: string, text: string) {
    var got := PathUnescape(raw);
    got.Some? && EqualFold(got.value, text)
  }

  predicate MatchesFolded(segs: seq<Seg>, path: seq<string>) {
    |segs| == |path| && forall i :: 0 <= i < |segs| && segs[i].Lit? ==> FoldsTo(path[i], segs[i].text)
  }

  function Decoded(path: seq<string>): (r: seq<string>)
    ensures |r| == |path|
  {
    seq(|path|, i requires 0 <= i < |path| => DecodeSegment(path[i]))
  }

  // An empty verb asks for any method.
  function FoldCandidates(pats: seq<Pattern>, verb: string, path: seq<string>): (r: seq<Pattern>)
    ensures forall p :: p in r <==> p in pats && (verb == "" || Allows(p.verb, verb)) && MatchesFolded(p.segs, path)
  {
    if pats == [] then []
    else
      var init, p := pats[..|pats| - 1], pats[|pats| - 1];
      assert pats == init + [p];
      var rest := FoldCandidates(init, verb, path);
      if (verb == "" || Allows(p.verb, verb)) && MatchesFolded(p.segs, path) then rest + [p] else rest
  }

  function Best(pats: seq<Pattern>, verb: string, path: seq<string>): (r: Option<Pattern>)
    ensures r.Some? ==> r.value in pats && MatchesFolded(r.value.segs, path)
  {
    var own := Leftmost(FoldCandidates(pats, verb, path));
    if own.Some? then own else Leftmost(FoldCandidates(pats, "", path))
  }

  function Rewrite(segs: seq<Seg>, path: seq<string>): (r: seq<string>)
    requires |segs| == |path|
    ensures |r| == |path|
    ensures forall i :: 0 <= i < |path| ==> r[i] == if segs[i].Lit? then segs[i].text else path[i]
  {
    seq(|path|, i requires 0 <= i < |path| => if segs[i].Lit? then segs[i].text else path[i])
  }

  // ---- Two spellings of one request ----

  // The paths agree on the pattern's wildcards and differ at most in case on
  // its literals.
  predicate CaseVariant(segs: seq<Seg>, a: seq<string>, b: seq<string>) {
    && |segs| == |a| == |b|
    && forall i :: 0 <= i < |segs| ==>
         if segs[i].Wild? then a[i] == b[i]
         else PathUnescape(a[i]).Some? && PathUnescape(b[i]).Some?
              && EqualFold(PathUnescape(a[i]).value, PathUnescape(b[i]).value)
  }

  lemma VariantsMatchAlike(segs: seq<Seg>, a: seq<string>, b: seq<string>, q: seq<Seg>)
    requires CaseVariant(segs, a, b)
    ensures MatchesFolded(q, a) <==> MatchesFolded(q, b)
  {}

  lemma {:induction false} VariantsShareCandidates(
      pats: seq<Pattern>, verb: string, segs: seq<Seg>, a: seq<string>, b: seq<string>)
    requires CaseVariant(segs, a, b)
    ensures FoldCandidates(pats, verb, a) == FoldCandidates(pats, verb, b)
  {
    if pats != [] {
      VariantsShareCandidates(pats[..|pats| - 1], verb, segs, a, b);
      VariantsMatchAlike(segs, a, b, pats[|pats| - 1].segs);
    }
  }

  lemma RewriteIsVariant(pats: seq<Pattern>, p: Pattern, path: seq<string>)
    requires WellFormed(pats) && p in pats && MatchesFolded(p.segs, path)
    ensures CaseVariant(p.segs, path, Rewrite(p.segs, path))
  {
    forall i | 0 <= i < |path| && p.segs[i].Lit?
      ensures PathUnescape(p.segs[i].text) == Some(p.segs[i].text)
    {
      PlainUnescape(p.segs[i].text);
    }
  }

  // Spellings that differ only in the case of the chosen pattern's literals are
  // rewritten to the same path, and rewriting the result changes nothing.
  lemma VariantsFoldAlike(pats: seq<Pattern>, verb: string, a: seq<string>, b: seq<string>)
    requires WellFormed(pats)
    requires var p := Best(pats, verb, a); p.Some? && CaseVariant(p.value.segs, a, b)
    ensures Best(pats, verb, b) == Best(pats, verb, a)
    ensures var p := Best(pats, verb, a).value;
            && MatchesFolded(p.segs, b)
            && Rewrite(p.segs, b) == Rewrite(p.segs, a)
            && Best(pats, verb, Rewrite(p.segs, a)) == Some(p)
            && Rewrite(p.segs, Rewrite(p.segs, a)) == Rewrite(p.segs, a)
  {
    var p := Best(pats, verb, a).value;
    VariantsShareCandidates(pats, verb, p.segs, a, b);
    VariantsShareCandidates(pats, "", p.segs, a, b);
    RewriteIsVariant(pats, p, a);
    var c := Rewrite(p.segs, a);
    VariantsShareCandidates(pats, verb, p.segs, a, c);
    VariantsShareCandidates(pats, "", p.segs, a, c);
  }

  // ---- Exact dispatch after folding is case-insensitive dispatch ----

  datatype Verdict = Served(pattern: Pattern) | MethodNotAllowed | NotFound

  // ServeMux's answer, given the patterns that take the request's method and
  // match its path, and whether any pattern at all matches.
  ghost predicate Answers(own: seq<Pattern>, any: bool, v: Verdict) {
    match v
    case Served(p) => p in own && IsLeast(p, own)
    case MethodNotAllowed => own == [] && any
    case NotFound => own == [] && !any
  }

  ghost predicate AnyMatches(pats: seq<Pattern>, path: seq<string>) {
    exists q :: q in pats && Matches(q.segs, Decoded(path))
  }

  ghost predicate AnyMatchesFolded(pats: seq<Pattern>, path: seq<string>) {
    exists q :: q in pats && MatchesFolded(q.segs, path)
  }

  ghost predicate ExactVerdict(pats: seq<Pattern>, verb: string, path: seq<string>, v: Verdict) {
    if Routable(path) then Answers(Candidates(pats, verb, Decoded(path)), AnyMatches(pats, path), v)
    else v == NotFound
  }

  ghost predicate FoldedVerdict(pats: seq<Pattern>, verb: string, path: seq<string>, v: Verdict) {
    if Routable(path) then Answers(FoldCandidates(pats, verb, path), AnyMatchesFolded(pats, path), v)
    else v == NotFound
  }

  lemma ExactIsFolded(pats: seq<Pattern>, p: Pattern, q: Pattern, path: seq<string>)
    requires WellFormed(pats) && p in pats && q in pats && MatchesFolded(p.segs, path)
    requires Matches(q.segs, Decoded(Rewrite(p.segs, path)))
    ensures MatchesFolded(q.segs, path)
  {
    forall i | 0 <= i < |path| && q.segs[i].Lit?
      ensures FoldsTo(path[i], q.segs[i].text)
    {
      if p.segs[i].Lit? {
        PlainUnescape(p.segs[i].text);
      } else {
        WildcardDecoded(path[i], q.segs[i].text);
      }
    }
  }

  lemma WildcardDecoded(raw: string, text: string)
    requires '%' !in text && DecodeSegment(raw) == text
    ensures FoldsTo(raw, text)
  {
    if PathUnescape(raw).None? {
      PlainUnescape(raw);
    }
  }

  lemma UnfoldedExactIsFolded(pats: seq<Pattern>, q: Pattern, path: seq<string>)
    requires WellFormed(pats) && q in pats && Matches(q.segs, Decoded(path))
    ensures MatchesFolded(q.segs, path)
  {
    forall i | 0 <= i < |path| && q.segs[i].Lit?
      ensures FoldsTo(path[i], q.segs[i].text)
    {
      WildcardDecoded(path[i], q.segs[i].text);
    }
  }

  // A pattern the chosen one refines also matches the rewritten path exactly.
  lemma FoldedIsExact(pats: seq<Pattern>, p: Pattern, q: Pattern, path: seq<string>)
    requires WellFormed(pats) && p in pats && q in pats && MatchesFolded(p.segs, path)
    requires Refines(p.segs, q.segs)
    ensures Matches(q.segs, Decoded(Rewrite(p.segs, path)))
  {
    forall i | 0 <= i < |path| && q.segs[i].Lit?
      ensures Decoded(Rewrite(p.segs, path))[i] == q.segs[i].text
    {
      PlainUnescape(p.segs[i].text);
    }
  }

  lemma FoldCandidatesChain(pats: seq<Pattern>, verb: string, path: seq<string>)
    requires WellFormed(pats) && Registrable(pats) && verb != ""
    ensures Chain(FoldCandidates(pats, verb, path))
  {
    var cands := FoldCandidates(pats, verb, path);
    forall p, q | p in cands && q in cands && p != q
      ensures Within(p, q) != Within(q, p)
    {
      var i :| 0 <= i < |pats| && pats[i] == p;
      var j :| 0 <= j < |pats| && pats[j] == q;
      assert Agree(p.segs, q.segs) by {
        forall k | 0 <= k < |path| && p.segs[k].Lit? && q.segs[k].Lit?
          ensures p.segs[k] == q.segs[k]
        {
          assert OneSpelling(pats[i].segs[k], pats[j].segs[k]);
        }
      }
      MeetIffAgree(p.segs, q.segs);
      MeetIffAgree(q.segs, p.segs);
      assert MethodsMeet(p.verb, q.verb) && MethodsMeet(q.verb, p.verb);
    }
  }

  lemma RewriteStaysRoutable(pats: seq<Pattern>, p: Pattern, path: seq<string>)
    requires WellFormed(pats) && p in pats && MatchesFolded(p.segs, path)
    ensures Routable(Rewrite(p.segs, path)) <==> Routable(path)
  {
    var i :| 0 <= i < |pats| && pats[i] == p;
    forall j | 0 <= j < |path|
      ensures p.segs[j].Lit? ==> path[j] != "" && p.segs[j].text != ""
    {
      assert PlainLiteral(pats[i].segs[j]);
      assert path[j] == "" ==> PathUnescape(path[j]) == Some("");
    }
  }

  // What fold does to the segments of a versioned path.
  function FoldSegments(pats: seq<Pattern>, verb: string, path: seq<string>): (r: seq<string>)
    ensures |r| == |path|
  {
    var p := Best(pats, verb, path);
    if p.Some? then Rewrite(p.value.segs, path) else path
  }

  lemma SameOwnCandidates(pats: seq<Pattern>, verb: string, path: seq<string>)
    requires WellFormed(pats) && Registrable(pats) && verb != ""
    ensures var folded := FoldSegments(pats, verb, path);
            forall q :: q in Candidates(pats, verb, Decoded(folded)) <==> q in FoldCandidates(pats, verb, path)
    ensures AnyMatches(pats, FoldSegments(pats, verb, path)) <==> AnyMatchesFolded(pats, path)
  {
    var best := Best(pats, verb, path);
    var folded := FoldSegments(pats, verb, path);
    var own := FoldCandidates(pats, verb, path);
    FoldCandidatesChain(pats, verb, path);
    forall q | q in pats && Matches(q.segs, Decoded(folded))
      ensures MatchesFolded(q.segs, path)
    {
      if best.Some? {
        ExactIsFolded(pats, best.value, q, path);
      } else {
        UnfoldedExactIsFolded(pats, q, path);
      }
    }
    if own != [] {
      LeftmostIsLeastPath(own, best.value);
    }
    forall q | q in own
      ensures Matches(q.segs, Decoded(folded))
    {
      FoldedIsExact(pats, best.value, q, path);
    }
    if AnyMatchesFolded(pats, path) {
      assert best.Some? by {
        var q :| q in pats && MatchesFolded(q.segs, path);
        assert q in FoldCandidates(pats, "", path);
      }
      FoldedIsExact(pats, best.value, best.value, path);
    }
  }

  lemma AnswersByElements(a: seq<Pattern>, b: seq<Pattern>, any: bool, v: Verdict)
    requires forall q :: q in a <==> q in b
    ensures Answers(a, any, v) <==> Answers(b, any, v)
  {
    assert a == [] <==> b == [] by {
      if a != [] { assert a[0] in b; }
      if b != [] { assert b[0] in a; }
    }
  }

  // The folder's theorem: for every method and every path, ServeMux answers the
  // rewritten path as a case-insensitive router would answer the original.
  lemma FoldRefinesFoldedDispatch(pats: seq<Pattern>, verb: string, path: seq<string>, v: Verdict)
    requires WellFormed(pats) && Registrable(pats) && verb != ""
    ensures ExactVerdict(pats, verb, FoldSegments(pats, verb, path), v) <==> FoldedVerdict(pats, verb, path, v)
  {
    var best := Best(pats, verb, path);
    var folded := FoldSegments(pats, verb, path);
    if best.Some? {
      RewriteStaysRoutable(pats, best.value, path);
    }
    SameOwnCandidates(pats, verb, path);
    AnswersByElements(Candidates(pats, verb, Decoded(folded)), FoldCandidates(pats, verb, path),
                      AnyMatchesFolded(pats, path), v);
  }

  // Every request gets exactly one answer.
  lemma OneAnswer(pats: seq<Pattern>, verb: string, path: seq<string>) returns (v: Verdict)
    requires WellFormed(pats) && Registrable(pats) && verb != ""
    ensures FoldedVerdict(pats, verb, path, v)
    ensures forall w :: FoldedVerdict(pats, verb, path, w) ==> w == v
  {
    var own := FoldCandidates(pats, verb, path);
    FoldCandidatesChain(pats, verb, path);
    if !Routable(path) {
      v := NotFound;
    } else if own != [] {
      var p := ChainHasLeast(own);
      v := Served(p);
    } else {
      v := if AnyMatchesFolded(pats, path) then MethodNotAllowed else NotFound;
    }
  }

  // ---- The request path as one string ----

  const ROOT := "v1.0/"

  // The paths fold looks at: mounted under the prefix, with the version written
  // out, in any case.
  predicate Versioned(prefix: string, escaped: string) {
    HasPrefix(escaped, prefix + "/")
    && var rest := escaped[|prefix| + 1..];
    |rest| >= |ROOT| && EqualFold(rest[..|ROOT|], ROOT)
  }

  // The version stands first under the mount, in any case.
  lemma VersionedIff(prefix: string, escaped: string)
    ensures Versioned(prefix, escaped) <==>
              exists version, rest :: escaped == prefix + "/" + version + "/" + rest && ToLower(version) == "v1.0"
  {
    assert ToLower(ROOT) == "v1.0/";
    if Versioned(prefix, escaped) {
      var tail := escaped[|prefix| + 1..];
      var head := tail[..|ROOT|];
      assert ToLower(head)[4] == LowerChar(head[4]) == '/';
      assert head == head[..4] + "/" && tail == head + tail[|ROOT|..];
      assert ToLower(head[..4]) == ToLower(head)[..4] == "v1.0";
      assert escaped == prefix + "/" + head[..4] + "/" + tail[|ROOT|..];
    }
    if version, rest :| escaped == prefix + "/" + version + "/" + rest && ToLower(version) == "v1.0" {
      assert escaped == prefix + "/" + (version + "/" + rest);
      assert (version + "/" + rest)[..5] == version + "/";
      assert ToLower(version + "/") == "v1.0/";
    }
  }

  function Segments(prefix: string, escaped: string): (r: seq<string>)
    requires HasPrefix(escaped, prefix + "/")
    ensures |r| >= 1
  {
    Split(escaped[|prefix| + 1..], '/')
  }

  function Mount(prefix: string, path: seq<string>): (r: string)
    ensures HasPrefix(r, prefix + "/")
  {
    prefix + "/" + Join(path, '/')
  }

  function FoldPath(prefix: string, pats: seq<Pattern>, verb: string, escaped: string): string {
    if !Versioned(prefix, escaped) then escaped
    else
      var path := Segments(prefix, escaped);
      var best := Best(pats, verb, path);
      if best.None? then escaped
      else
        var canon := Mount(prefix, Rewrite(best.value.segs, path));
        if canon == escaped || PathUnescape(canon).None? then escaped else canon
  }

  // A path is replaced by one that decodes, or not at all.
  lemma RewrittenDecodes(prefix: string, pats: seq<Pattern>, verb: string, escaped: string)
    ensures var folded := FoldPath(prefix, pats, verb, escaped);
            folded == escaped || PathUnescape(folded).Some?
  {
    hide Versioned, Segments, Best, Rewrite, Mount, PathUnescape;
  }

  lemma MountSegments(prefix: string, path: seq<string>)
    requires path != [] && forall i :: 0 <= i < |path| ==> '/' !in path[i]
    ensures Segments(prefix, Mount(prefix, path)) == path
  {
    SplitJoin(path, '/');
    assert Mount(prefix, path)[|prefix| + 1..] == Join(path, '/');
  }

  lemma SegmentsMount(prefix: string, escaped: string)
    requires HasPrefix(escaped, prefix + "/")
    ensures Mount(prefix, Segments(prefix, escaped)) == escaped
  {
    JoinSplit(escaped[|prefix| + 1..], '/');
    assert escaped == escaped[..|prefix| + 1] + escaped[|prefix| + 1..];
  }

  lemma RewriteHasNoSlash(pats: seq<Pattern>, p: Pattern, path: seq<string>)
    requires WellFormed(pats) && p in pats && |p.segs| == |path|
    requires forall i :: 0 <= i < |path| ==> '/' !in path[i]
    ensures forall i :: 0 <= i < |path| ==> '/' !in Rewrite(p.segs, path)[i]
  {
    var k :| 0 <= k < |pats| && pats[k] == p;
    forall i | 0 <= i < |path|
      ensures '/' !in Rewrite(p.segs, path)[i]
    {
      assert PlainLiteral(pats[k].segs[i]);
    }
  }

  lemma RewriteDecodes(prefix: string, pats: seq<Pattern>, p: Pattern, escaped: string)
    requires WellFormed(pats) && p in pats && HasPrefix(escaped, prefix + "/") && PathUnescape(escaped).Some?
    requires |p.segs| == |Segments(prefix, escaped)|
    ensures PathUnescape(Mount(prefix, Rewrite(p.segs, Segments(prefix, escaped)))).Some?
  {
    var path := Segments(prefix, escaped);
    var canon := Rewrite(p.segs, path);
    SegmentsMount(prefix, escaped);
    UnescapeAcross(prefix, Join(path, '/'), '/');
    JoinDecodes(path);
    var k :| 0 <= k < |pats| && pats[k] == p;
    forall i | 0 <= i < |path|
      ensures PathUnescape(canon[i]).Some?
    {
      if p.segs[i].Lit? {
        assert PlainLiteral(pats[k].segs[i]);
        PlainUnescape(p.segs[i].text);
      }
    }
    JoinDecodes(canon);
    UnescapeAcross(prefix, Join(canon, '/'), '/');
  }

  // On a validly escaped versioned path, fold is FoldSegments: as many segments
  // as before, with every wildcard segment kept byte for byte.
  lemma FoldPathSegments(prefix: string, pats: seq<Pattern>, verb: string, escaped: string)
    requires WellFormed(pats) && Versioned(prefix, escaped) && PathUnescape(escaped).Some?
    ensures var r := FoldPath(prefix, pats, verb, escaped);
            && HasPrefix(r, prefix + "/")
            && Segments(prefix, r) == FoldSegments(pats, verb, Segments(prefix, escaped))
            && (Best(pats, verb, Segments(prefix, escaped)).Some? ==>
                  Mount(prefix, FoldSegments(pats, verb, Segments(prefix, escaped))) == r)
  {
    var path := Segments(prefix, escaped);
    var best := Best(pats, verb, path);
    if best.Some? {
      RewriteHasNoSlash(pats, best.value, path);
      RewriteDecodes(prefix, pats, best.value, escaped);
      MountSegments(prefix, Rewrite(best.value.segs, path));
    }
  }

  lemma CanonicalIsVersioned(prefix: string, pats: seq<Pattern>, p: Pattern, path: seq<string>)
    requires WellFormed(pats) && p in pats && |p.segs| == |path|
    ensures Versioned(prefix, Mount(prefix, Rewrite(p.segs, path)))
  {
    var canon := Rewrite(p.segs, path);
    var rest := Mount(prefix, canon)[|prefix| + 1..];
    assert rest == VERSION + "/" + Join(canon[1..], '/');
    assert rest[..|ROOT|] == ROOT;
  }

  // fold is idempotent on every path a request can carry.
  lemma FoldPathTwice(prefix: string, pats: seq<Pattern>, verb: string, escaped: string)
    requires WellFormed(pats) && PathUnescape(escaped).Some?
    ensures FoldPath(prefix, pats, verb, FoldPath(prefix, pats, verb, escaped)) == FoldPath(prefix, pats, verb, escaped)
  {
    if Versioned(prefix, escaped) {
      var path := Segments(prefix, escaped);
      var best := Best(pats, verb, path);
      if best.Some? {
        FoldPathSegments(prefix, pats, verb, escaped);
        RewriteIsVariant(pats, best.value, path);
        VariantsFoldAlike(pats, verb, path, Rewrite(best.value.segs, path));
        RewriteDecodes(prefix, pats, best.value, escaped);
        CanonicalIsVersioned(prefix, pats, best.value, path);
      }
    }
  }

  // The dispatch theorem for whole request paths.
  lemma FoldedPathDispatch(prefix: string, pats: seq<Pattern>, verb: string, escaped: string, v: Verdict)
    requires WellFormed(pats) && Registrable(pats) && verb != ""
    requires Versioned(prefix, escaped) && PathUnescape(escaped).Some?
    ensures var r := FoldPath(prefix, pats, verb, escaped);
            && HasPrefix(r, prefix + "/")
            && (ExactVerdict(pats, verb, Segments(prefix, r), v)
                <==> FoldedVerdict(pats, verb, Segments(prefix, escaped), v))
  {
    FoldPathSegments(prefix, pats, verb, escaped);
    FoldRefinesFoldedDispatch(pats, verb, Segments(prefix, escaped), v);
  }

  // Spellings that differ only in the case of the chosen pattern's literals
  // reach the handlers, the recorder and the permission gate as one path.
  lemma SpellingsFoldToOnePath(prefix: string, pats: seq<Pattern>, verb: string, a: string, b: string)
    requires WellFormed(pats)
    requires Versioned(prefix, a) && PathUnescape(a).Some? && Versioned(prefix, b) && PathUnescape(b).Some?
    requires var p := Best(pats, verb, Segments(prefix, a));
             p.Some? && CaseVariant(p.value.segs, Segments(prefix, a), Segments(prefix, b))
    ensures FoldPath(prefix, pats, verb, a) == FoldPath(prefix, pats, verb, b)
  {
    FoldPathSegments(prefix, pats, verb, a);
    FoldPathSegments(prefix, pats, verb, b);
    VariantsFoldAlike(pats, verb, Segments(prefix, a), Segments(prefix, b));
  }

  // ---- What happens to a path folding leaves alone ----

  // Exact dispatch finds as the path stands what folding would have found: the
  // chosen pattern, or, with none for the method, some pattern if there is one
  // at all.
  ghost predicate SpelledAsRegistered(pats: seq<Pattern>, verb: string, path: seq<string>) {
    var own := FoldCandidates(pats, verb, path);
    if own != [] then Matches(Leftmost(own).value.segs, Decoded(path))
    else AnyMatches(pats, path) || !AnyMatchesFolded(pats, path)
  }

  ghost predicate SameVerdicts(pats: seq<Pattern>, verb: string, path: seq<string>) {
    forall v :: ExactVerdict(pats, verb, path, v) <==> FoldedVerdict(pats, verb, path, v)
  }

  lemma SpelledGivesOwn(pats: seq<Pattern>, verb: string, path: seq<string>)
    requires WellFormed(pats) && Registrable(pats) && verb != ""
    requires FoldCandidates(pats, verb, path) != [] && SpelledAsRegistered(pats, verb, path)
    ensures forall q :: q in Candidates(pats, verb, Decoded(path)) <==> q in FoldCandidates(pats, verb, path)
    ensures AnyMatches(pats, path) && AnyMatchesFolded(pats, path)
  {
    var own := FoldCandidates(pats, verb, path);
    FoldCandidatesChain(pats, verb, path);
    var p := Leftmost(own).value;
    LeftmostIsLeastPath(own, p);
    forall q | q in own
      ensures Matches(q.segs, Decoded(path))
    {
      assert Refines(p.segs, q.segs);
    }
    forall q | q in pats && Matches(q.segs, Decoded(path))
      ensures MatchesFolded(q.segs, path)
    {
      UnfoldedExactIsFolded(pats, q, path);
    }
  }

  lemma OwnGivesSpelled(pats: seq<Pattern>, verb: string, path: seq<string>)
    requires WellFormed(pats) && Registrable(pats) && verb != "" && Routable(path)
    requires FoldCandidates(pats, verb, path) != [] && SameVerdicts(pats, verb, path)
    ensures SpelledAsRegistered(pats, verb, path)
  {
    var own := FoldCandidates(pats, verb, path);
    FoldCandidatesChain(pats, verb, path);
    var p := Leftmost(own).value;
    var least := ChainHasLeast(own);
    assert FoldedVerdict(pats, verb, path, Served(least));
    assert ExactVerdict(pats, verb, path, Served(least));
    assert Within(least, p);
    WithinIffRefines(least.segs, p.segs);
  }

  lemma CandidateFolds(pats: seq<Pattern>, verb: string, path: seq<string>, q: Pattern)
    requires WellFormed(pats) && q in Candidates(pats, verb, Decoded(path))
    ensures q in FoldCandidates(pats, verb, path)
  {
    UnfoldedExactIsFolded(pats, q, path);
  }

  lemma NoneOwn(pats: seq<Pattern>, verb: string, path: seq<string>)
    requires WellFormed(pats) && FoldCandidates(pats, verb, path) == []
    ensures Candidates(pats, verb, Decoded(path)) == []
    ensures AnyMatches(pats, path) ==> AnyMatchesFolded(pats, path)
  {
    var c := Candidates(pats, verb, Decoded(path));
    if c != [] {
      CandidateFolds(pats, verb, path, c[0]);
    }
    if AnyMatches(pats, path) {
      var q :| q in pats && Matches(q.segs, Decoded(path));
      UnfoldedExactIsFolded(pats, q, path);
    }
  }

  // Without folding, a path gets its case-insensitive verdict exactly when it
  // is spelled as registered.
  lemma UnfoldedDispatchIff(pats: seq<Pattern>, verb: string, path: seq<string>)
    requires WellFormed(pats) && Registrable(pats) && verb != "" && Routable(path)
    ensures SameVerdicts(pats, verb, path) <==> SpelledAsRegistered(pats, verb, path)
  {
    var own := FoldCandidates(pats, verb, path);
    if own == [] {
      NoneOwn(pats, verb, path);
      if SameVerdicts(pats, verb, path) {
        assert ExactVerdict(pats, verb, path, NotFound) <==> FoldedVerdict(pats, verb, path, NotFound);
      }
    } else if SpelledAsRegistered(pats, verb, path) {
      SpelledGivesOwn(pats, verb, path);
      forall v
        ensures ExactVerdict(pats, verb, path, v) <==> FoldedVerdict(pats, verb, path, v)
      {
        AnswersByElements(Candidates(pats, verb, Decoded(path)), own, true, v);
      }
    } else if SameVerdicts(pats, verb, path) {
      OwnGivesSpelled(pats, verb, path);
    }
  }

  // Whole request paths: folding and exact dispatch answer as case-insensitive
  // dispatch would exactly when the version is written out, in any case, or the
  // path is not one ServeMux routes, or it is spelled as registered already.
  lemma FoldedPathDispatchIff(prefix: string, pats: seq<Pattern>, verb: string, escaped: string)
    requires WellFormed(pats) && Registrable(pats) && verb != ""
    requires HasPrefix(escaped, prefix + "/") && PathUnescape(escaped).Some?
    ensures var r, path := FoldPath(prefix, pats, verb, escaped), Segments(prefix, escaped);
            && HasPrefix(r, prefix + "/")
            && ((forall v :: ExactVerdict(pats, verb, Segments(prefix, r), v) <==> FoldedVerdict(pats, verb, path, v))
                <==> Versioned(prefix, escaped) || !Routable(path) || SpelledAsRegistered(pats, verb, path))
  {
    var path := Segments(prefix, escaped);
    if Versioned(prefix, escaped) {
      forall v
        ensures var r := FoldPath(prefix, pats, verb, escaped);
                HasPrefix(r, prefix + "/")
                && (ExactVerdict(pats, verb, Segments(prefix, r), v) <==> FoldedVerdict(pats, verb, path, v))
      {
        FoldedPathDispatch(prefix, pats, verb, escaped, v);
      }
    } else if Routable(path) {
      UnfoldedDispatchIff(pats, verb, path);
    }
  }

  // The condition fails: the guard reads the version as it was sent, so every
  // pattern has a percent-encoded spelling that a case-insensitive router would
  // serve and this one does not find.
  lemma EncodedVersionIsNotFolded(prefix: string, pats: seq<Pattern>, verb: string, p: Pattern, path: seq<string>)
    requires WellFormed(pats) && p in pats && verb != ""
    requires Routable(path) && MatchesFolded(p.segs, path)
    requires path[0] == "V1%2E0" && forall i :: 0 <= i < |path| ==> '/' !in path[i]
    ensures !Versioned(prefix, Mount(prefix, path))
    ensures FoldPath(prefix, pats, verb, Mount(prefix, path)) == Mount(prefix, path)
    ensures ExactVerdict(pats, verb, path, NotFound)
    ensures !FoldedVerdict(pats, verb, path, NotFound)
  {
    var rest := Mount(prefix, path)[|prefix| + 1..];
    assert |path| >= 2;
    assert rest == path[0] + ['/'] + Join(path[1..], '/');
    assert rest[2] == '%' && ROOT[2] == '.';
    assert ToLower(rest[..|ROOT|])[2] == '%' && ToLower(ROOT)[2] == '.';
    DecodeEncodedVersion();
    assert Decoded(path)[0] == "V1.0" && "V1.0"[0] != VERSION[0];
    NoCandidates(pats, verb, Decoded(path));
    assert AnyMatchesFolded(pats, path);
  }

  lemma {:induction false} NoCandidates(pats: seq<Pattern>, verb: string, path: seq<string>)
    requires forall q :: q in pats ==> !Matches(q.segs, path)
    ensures Candidates(pats, verb, path) == []
  {
    if pats != [] {
      NoCandidates(pats[..|pats| - 1], verb, path);
    }
  }

  lemma DecodeEncodedVersion()
    ensures PathUnescape("V1%2E0") == Some("V1.0")
  {
    var s: string := ['V', '1', '%', '2', 'E', '0'];
    var zero := s[5..];
    PlainUnescape(zero);
    assert zero == "0" && s[2..][3..] == zero && s[1..][1..] == s[2..];
    assert (16 * HexValue('2') + HexValue('E')) as char == '.';
    assert PathUnescape(s[2..]) == Some(['.'] + zero);
    assert PathUnescape(s[1..]) == Some(['1'] + (['.'] + zero));
    assert PathUnescape(s) == Some(['V'] + (['1'] + (['.'] + zero)));
    assert s == "V1%2E0" && ['V'] + (['1'] + (['.'] + zero)) == "V1.0";
  }

  // ---- Learning a registered pattern ----

  datatype Learned = Ignored | Unsupported | Known(pattern: Pattern)

  function LearnSegment(s: string): Option<Seg> {
    if HasPrefix(s, "{") then
      if s[|s| - 1] != '}' || Index(s, "...").Some? || '$' in s then None else Some(Wild)
    else Some(Lit(s))
  }

  function LearnSegments(parts: seq<string>): (r: Option<seq<Seg>>)
    ensures r.Some? ==> |r.value| == |parts|
                        && forall i :: 0 <= i < |parts| ==> LearnSegment(parts[i]) == Some(r.value[i])
    ensures r.None? ==> exists i :: 0 <= i < |parts| && LearnSegment(parts[i]).None?
  {
    if parts == [] then Some([])
    else
      var init := LearnSegments(parts[..|parts| - 1]);
      var last := LearnSegment(parts[|parts| - 1]);
      if init.None? || last.None? then None else Some(init.value + [last.value])
  }

  function Parse(prefix: string, pattern: string): Learned {
    var space := Index(pattern, " ");
    var verb := if space.Some? then pattern[..space.value] else "";
    var path := if space.Some? then TrimSpace(pattern[space.value + 1..]) else pattern;
    if !HasPrefix(path, prefix + "/" + ROOT) then Ignored
    else
      var segs := LearnSegments(Split(path[|prefix| + 1..], '/'));
      if segs.None? then Unsupported else Known(Pattern(verb, segs.value))
  }

  // How ServeMux writes the pattern down.
  function Show(prefix: string, p: Pattern): string {
    p.verb + " " + Mount(prefix, Texts(p))
  }

  predicate Registered(prefix: string, p: Pattern) {
    && ' ' !in p.verb && ' ' !in prefix
    && |p.segs| >= 2 && p.segs[0] == Lit(VERSION)
    && (forall i :: 0 <= i < |p.segs| ==> PlainLiteral(p.segs[i]))
    && (forall i :: 0 <= i < |p.segs| && p.segs[i].Lit? ==>
          !HasPrefix(p.segs[i].text, "{") && !IsSpace(p.segs[i].text[|p.segs[i].text| - 1]))
    && (prefix == "" || !IsSpace(prefix[0]))
  }

  lemma {:induction false} JoinLast(parts: seq<string>)
    requires parts != []
    ensures var last := parts[|parts| - 1];
            last != "" ==> Join(parts, '/') != "" && Join(parts, '/')[|Join(parts, '/')| - 1] == last[|last| - 1]
  {
    if |parts| > 1 {
      JoinLast(parts[1..]);
    }
  }

  lemma FirstSpace(verb: string, path: string)
    requires ' ' !in verb
    ensures var s := verb + " " + path;
            Index(s, " ") == Some(|verb|) && s[..|verb|] == verb && s[|verb| + 1..] == path
  {
    var s := verb + " " + path;
    assert s[|verb|..|verb| + 1] == " ";
    forall j: nat | j < |verb|
      ensures !OccursAt(s, " ", j)
    {
      assert s[j..j + 1] == [verb[j]];
    }
    FirstIndex(s, " ", |verb|);
  }

  // The shapes folding does not understand: a wildcard that is not a whole
  // segment, takes several segments, or ends a path.
  ghost predicate OddWildcard(s: string) {
    s != "" && s[0] == '{' && (s[|s| - 1] != '}' || '$' in s || Contains(s, "..."))
  }

  lemma OddIsUnsupported(s: string)
    ensures LearnSegment(s).None? <==> OddWildcard(s)
    ensures LearnSegment(s).Some? ==> (LearnSegment(s) == Some(Wild) <==> s != "" && s[0] == '{')
  {
    assert HasPrefix(s, "{") <==> s != "" && s[0] == '{';
  }

  // Registration of a pattern under the mount fails exactly on such a segment;
  // a pattern elsewhere is none of the folder's business.
  lemma ParseMeaning(prefix: string, verb: string, path: string)
    requires ' ' !in verb && TrimSpace(path) == path
    ensures var parsed := Parse(prefix, verb + " " + path);
            if !HasPrefix(path, prefix + "/v1.0/") then parsed.Ignored?
            else
              var parts := Split(path[|prefix| + 1..], '/');
              && (parsed.Unsupported? <==> exists i :: 0 <= i < |parts| && OddWildcard(parts[i]))
              && (parsed.Known? ==> parsed.pattern.verb == verb && |parsed.pattern.segs| == |parts|)
  {
    FirstSpace(verb, path);
    var pattern := verb + " " + path;
    assert pattern[..|verb|] == verb && pattern[|verb| + 1..] == path;
    if HasPrefix(path, prefix + "/" + ROOT) {
      var parts := Split(path[|prefix| + 1..], '/');
      forall i | 0 <= i < |parts|
        ensures LearnSegment(parts[i]).None? <==> OddWildcard(parts[i])
      {
        OddIsUnsupported(parts[i]);
      }
    }
    hide LearnSegment, OddWildcard, Split, TrimSpace;
  }

  function Texts(p: Pattern): (r: seq<string>)
    ensures |r| == |p.segs|
    ensures forall i :: 0 <= i < |r| ==> r[i] == if p.segs[i].Lit? then p.segs[i].text else "{id}"
  {
    seq(|p.segs|, i requires 0 <= i < |p.segs| => if p.segs[i].Lit? then p.segs[i].text else "{id}")
  }

  lemma WildcardLearns()
    ensures LearnSegment("{id}") == Some(Wild)
  {
    var wild := "{id}";
    assert wild[0] == '{' && wild[3] == '}' && '$' !in wild && wild[..1] == "{";
    forall i: nat
      ensures !OccursAt(wild, "...", i)
    {
      if i + 3 <= |wild| {
        assert wild[i..i + 3][0] == wild[i];
      }
    }
  }

  lemma TextLearns(prefix: string, p: Pattern, i: nat)
    requires Registered(prefix, p) && i < |p.segs|
    ensures LearnSegment(Texts(p)[i]) == Some(p.segs[i]) && '/' !in Texts(p)[i]
  {
    if p.segs[i].Lit? {
      assert PlainLiteral(p.segs[i]);
    } else {
      WildcardLearns();
    }
  }

  lemma TextsLearn(prefix: string, p: Pattern)
    requires Registered(prefix, p)
    ensures LearnSegments(Texts(p)) == Some(p.segs)
    ensures forall i :: 0 <= i < |p.segs| ==> '/' !in Texts(p)[i]
  {
    var texts := Texts(p);
    forall i | 0 <= i < |texts|
      ensures LearnSegment(texts[i]) == Some(p.segs[i]) && '/' !in texts[i]
    {
      TextLearns(prefix, p, i);
    }
    var learned := LearnSegments(texts);
    assert learned.Some?;
    assert forall i :: 0 <= i < |texts| ==> LearnSegment(texts[i]) == Some(learned.value[i]);
    assert learned.value == p.segs;
  }

  lemma NothingToTrim(prefix: string, p: Pattern)
    requires Registered(prefix, p)
    ensures TrimSpace(Mount(prefix, Texts(p))) == Mount(prefix, Texts(p))
  {
    var texts := Texts(p);
    var last := texts[|texts| - 1];
    assert last != "" && !IsSpace(last[|last| - 1]) by {
      assert PlainLiteral(p.segs[|texts| - 1]);
      assert !IsSpace("{id}"[3]);
    }
    MountEnds(prefix, texts);
  }

  lemma MountEnds(prefix: string, path: seq<string>)
    requires path != [] && path[|path| - 1] != ""
    ensures var s, last := Mount(prefix, path), path[|path| - 1];
            s[0] == (if prefix == "" then '/' else prefix[0]) && s[|s| - 1] == last[|last| - 1]
  {
    JoinLast(path);
  }

  // Learning reads back every pattern the emulator can register.
  lemma LearnRoundTrip(prefix: string, p: Pattern)
    requires Registered(prefix, p)
    ensures Parse(prefix, Show(prefix, p)) == Known(p)
  {
    var texts := Texts(p);
    var path := Mount(prefix, texts);
    FirstSpace(p.verb, path);
    NothingToTrim(prefix, p);
    TextsLearn(prefix, p);
    MountSegments(prefix, texts);
    MountUnderRoot(prefix, texts);
  }

  lemma MountUnderRoot(prefix: string, path: seq<string>)
    requires |path| >= 2 && path[0] == VERSION
    ensures HasPrefix(Mount(prefix, path), prefix + "/" + ROOT)
  {
    assert Mount(prefix, path) == prefix + "/" + ROOT + Join(path[1..], '/');
  }

  // ---- The folder itself ----

  // What match has found after looking at the first n patterns.
  function BestAmong(pats: seq<Pattern>, n: nat, verb: string, path: seq<string>): (r: Option<Pattern>)
    requires n <= |pats|
    ensures r.Some? ==> |r.value.segs| == |path|
  {
    Leftmost(FoldCandidates(pats[..n], verb, path))
  }

  lemma BestStep(pats: seq<Pattern>, i: nat, verb: string, path: seq<string>)
    requires i < |pats|
    ensures var p, best := pats[i], BestAmong(pats, i, verb, path);
            BestAmong(pats, i + 1, verb, path)
            == if (verb == "" || Allows(p.verb, verb)) && MatchesFolded(p.segs, path)
                  && (best.None? || MoreSpecific(p.segs, best.value.segs)) then Some(p) else best
  {
    var p, before := pats[i], FoldCandidates(pats[..i], verb, path);
    assert pats[..i + 1][..i] == pats[..i];
    assert (before + [p])[..|before|] == before;
  }

  lemma {:induction false} LearnStops(parts: seq<string>, n: nat)
    requires n <= |parts| && LearnSegments(parts[..n]).None?
    ensures LearnSegments(parts).None?
    decreases |parts| - n
  {
    if n < |parts| {
      assert parts[..n + 1][..n] == parts[..n];
      LearnStops(parts, n + 1);
    } else {
      assert parts[..n] == parts;
    }
  }

  class Url {
    var escaped: string
    var rawQuery: string

    constructor (escaped: string, rawQuery: string)
      ensures this.escaped == escaped && this.rawQuery == rawQuery
    {
      this.escaped := escaped;
      this.rawQuery := rawQuery;
    }
  }

  class CaseFolder {
    const prefix: string
    var pats: seq<Pattern>

    constructor (prefix: string)
      ensures this.prefix == prefix && pats == []
    {
      this.prefix := prefix;
      pats := [];
    }

    // Registration stops on a pattern folding does not understand.
    method Learn(pattern: string) returns (panicked: bool)
      modifies this
      ensures panicked <==> Parse(prefix, pattern).Unsupported?
      ensures pats == old(pats) + (if Parse(prefix, pattern).Known? then [Parse(prefix, pattern).pattern] else [])
    {
      var verb, path := "", pattern;
      var space := Index(pattern, " ");
      if space.Some? {
        verb, path := pattern[..space.value], TrimSpace(pattern[space.value + 1..]);
      }
      if !HasPrefix(path, prefix + "/" + ROOT) {
        return false;
      }
      var parts := Split(path[|prefix| + 1..], '/');
      var segs: seq<Seg> := [];
      for i := 0 to |parts|
        invariant LearnSegments(parts[..i]) == Some(segs)
      {
        assert parts[..i + 1][..i] == parts[..i];
        var seg := LearnSegment(parts[i]);
        if seg.None? {
          LearnStops(parts, i + 1);
          return true;
        }
        segs := segs + [seg.value];
      }
      assert parts[..|parts|] == parts;
      pats := pats + [Pattern(verb, segs)];
      panicked := false;
    }

    method Match(verb: string, path: seq<string>) returns (best: Option<Pattern>)
      ensures best == Leftmost(FoldCandidates(pats, verb, path))
    {
      best := None;
      var table := pats;
      for i := 0 to |table|
        invariant best == BestAmong(table, i, verb, path)
      {
        BestStep(table, i, verb, path);
        var p := table[i];
        if |p.segs| != |path| || (verb != "" && !Allows(p.verb, verb)) {
          continue;
        }
        var ok := LiteralsMatch(p.segs, path);
        if ok && (best.None? || MoreSpecific(p.segs, best.value.segs)) {
          best := Some(p);
        }
      }
      assert table[..|table|] == table;
    }

    // The inner loop of match.
    static method LiteralsMatch(segs: seq<Seg>, path: seq<string>) returns (ok: bool)
      requires |segs| == |path|
      ensures ok <==> MatchesFolded(segs, path)
    {
      for j := 0 to |path|
        invariant forall k :: 0 <= k < j && segs[k].Lit? ==> FoldsTo(path[k], segs[k].text)
      {
        if segs[j].Lit? {
          var got := PathUnescape(path[j]);
          if got.None? || !EqualFold(got.value, segs[j].text) {
            return false;
          }
        }
      }
      ok := true;
    }

    // The path with every literal in its registered spelling.
    method Canonical(segs: seq<Seg>, path: seq<string>) returns (canon: string)
      requires |segs| == |path|
      ensures canon == Mount(prefix, Rewrite(segs, path))
    {
      var out := [];
      for i := 0 to |path|
        invariant out == Rewrite(segs, path)[..i]
      {
        out := out + [if segs[i].Wild? then path[i] else segs[i].text];
      }
      assert out == Rewrite(segs, path);
      canon := prefix + "/" + Join(out, '/');
    }

    method Fold(verb: string, url: Url)
      modifies url
      ensures url.escaped == FoldPath(prefix, pats, verb, old(url.escaped))
      ensures url.rawQuery == if Versioned(prefix, old(url.escaped)) then QueryFold.Folded(old(url.rawQuery))
                              else old(url.rawQuery)
    {
      var escaped := url.escaped;
      if !HasPrefix(escaped, prefix + "/") {
        return;
      }
      var rest := escaped[|prefix| + 1..];
      if |rest| < |ROOT| || !EqualFold(rest[..|ROOT|], ROOT) {
        return;
      }
      url.rawQuery := QueryFold.FoldQuery(url.rawQuery);
      var path := Split(rest, '/');
      var best := Match(verb, path);
      if best.None? {
        best := Match("", path);
      }
      if best.None? {
        return;
      }
      var canon := Canonical(best.value.segs, path);
      if canon == escaped {
        return;
      }
      var decoded := PathUnescape(canon);
      if decoded.Some? {
        url.escaped := canon;
      }
    }
  }
}
