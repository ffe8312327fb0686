/** Route patterns and their precedence. Three selectors live in the repository's
    world: the case folder takes the pattern with the leftmost literal, the route
    coverage script takes the one with the most literals, and Go's ServeMux takes
    the one that matches the fewest requests. This module shows that ServeMux's
    registration rule makes the three agree. */
module RouteOrder {
  import opened Strings

  datatype Seg = Lit(text: string) | Wild

  datatype Pattern = Pattern(verb: string, segs: seq<Seg>)

  // A pattern without a method serves them all, and GET also serves HEAD.
  predicate Allows(patternVerb: string, verb: string) {
    patternVerb == "" || patternVerb == verb || (patternVerb == "GET" && verb == "HEAD")
  }

  predicate Matches(segs: seq<Seg>, path: seq<string>) {
    |segs| == |path| && forall i :: 0 <= i < |segs| && segs[i].Lit? ==> segs[i].text == path[i]
  }

  // ServeMux lets a wildcard match any segment but the empty one.
  predicate Routable(path: seq<string>) {
    forall i :: 0 <= i < |path| ==> path[i] != ""
  }

  predicate LiteralsNamed(segs: seq<Seg>) {
    forall i :: 0 <= i < |segs| && segs[i].Lit? ==> segs[i].text != ""
  }

  // ---- ServeMux's registration rule, by the requests a pattern serves ----

  ghost predicate PathsMeet(a: seq<Seg>, b: seq<Seg>) {
    exists path :: Routable(path) && Matches(a, path) && Matches(b, path)
  }

  ghost predicate PathsWithin(a: seq<Seg>, b: seq<Seg>) {
    forall path :: Routable(path) && Matches(a, path) ==> Matches(b, path)
  }

  ghost predicate MethodsMeet(a: string, b: string) {
    exists m :: m != "" && Allows(a, m) && Allows(b, m)
  }

  ghost predicate MethodsWithin(a: string, b: string) {
    forall m :: m != "" && Allows(a, m) ==> Allows(b, m)
  }

  // Every request p serves is one q serves.
  ghost predicate Within(p: Pattern, q: Pattern) {
    MethodsWithin(p.verb, q.verb) && PathsWithin(p.segs, q.segs)
  }

  // ServeMux refuses two patterns that share a request unless exactly one of
  // them is the more specific.
  ghost predicate Registrable(pats: seq<Pattern>) {
    && (forall i :: 0 <= i < |pats| ==> LiteralsNamed(pats[i].segs))
    && (forall i, j :: 0 <= i < j < |pats|
          && MethodsMeet(pats[i].verb, pats[j].verb) && PathsMeet(pats[i].segs, pats[j].segs)
          ==> Within(pats[i], pats[j]) != Within(pats[j], pats[i]))
  }

  // ---- The same relations, segment by segment ----

  predicate Agree(a: seq<Seg>, b: seq<Seg>) {
    |a| == |b| && forall i :: 0 <= i < |a| && a[i].Lit? && b[i].Lit? ==> a[i] == b[i]
  }

  // a is b with some wildcards replaced by literals.
  predicate Refines(a: seq<Seg>, b: seq<Seg>) {
    |a| == |b| && forall i :: 0 <= i < |a| && b[i].Lit? ==> a[i] == b[i]
  }

  function Fill(a: seq<Seg>, b: seq<Seg>): (path: seq<string>)
    requires |a| == |b|
    ensures |path| == |a|
  {
    seq(|a|, i requires 0 <= i < |a| =>
      if a[i].Lit? then a[i].text else if b[i].Lit? then b[i].text else "x")
  }

  lemma MeetIffAgree(a: seq<Seg>, b: seq<Seg>)
    requires LiteralsNamed(a) && LiteralsNamed(b)
    ensures PathsMeet(a, b) <==> Agree(a, b)
  {
    if Agree(a, b) {
      var path := Fill(a, b);
      assert Routable(path) && Matches(a, path) && Matches(b, path);
    }
  }

  lemma WithinIffRefines(a: seq<Seg>, b: seq<Seg>)
    requires LiteralsNamed(a) && LiteralsNamed(b)
    ensures PathsWithin(a, b) <==> Refines(a, b)
  {
    if !Refines(a, b) {
      var plain := Fill(a, a);
      assert Routable(plain) && Matches(a, plain);
      if Matches(b, plain) {
        var i :| 0 <= i < |a| && b[i].Lit? && a[i] != b[i];
        assert a[i].Wild?;
        var path := plain[i := b[i].text + "x"];
        assert Routable(path) && Matches(a, path) && !Matches(b, path);
      }
    }
  }

  // ---- The three selectors ----

  // The folder's comparison: at the first segment where one is a literal and
  // the other a wildcard, the literal wins.
  predicate MoreSpecific(a: seq<Seg>, b: seq<Seg>)
    requires |a| == |b|
  {
    if |a| == 0 then false
    else if a[0].Wild? != b[0].Wild? then a[0].Lit?
    else MoreSpecific(a[1..], b[1..])
  }

  function LiteralCount(a: seq<Seg>): nat {
    if |a| == 0 then 0 else (if a[0].Lit? then 1 else 0) + LiteralCount(a[1..])
  }

  ghost predicate SameLength(cands: seq<Pattern>) {
    forall p, q :: p in cands && q in cands ==> |p.segs| == |q.segs|
  }

  ghost predicate IsLeftmost(p: Pattern, cands: seq<Pattern>)
    requires p in cands && SameLength(cands)
  {
    forall q :: q in cands ==> !MoreSpecific(q.segs, p.segs)
  }

  ghost predicate HasMostLiterals(p: Pattern, cands: seq<Pattern>) {
    forall q :: q in cands ==> LiteralCount(q.segs) <= LiteralCount(p.segs)
  }

  ghost predicate IsLeast(p: Pattern, cands: seq<Pattern>) {
    forall q :: q in cands ==> Within(p, q)
  }

  lemma {:induction false} RefinementWins(a: seq<Seg>, b: seq<Seg>)
    requires Refines(a, b)
    ensures a == b || MoreSpecific(a, b)
    ensures !MoreSpecific(b, a)
    ensures LiteralCount(b) <= LiteralCount(a)
    ensures a != b ==> LiteralCount(b) < LiteralCount(a)
  {
    if |a| > 0 {
      assert a == [a[0]] + a[1..] && b == [b[0]] + b[1..];
      assert forall i :: 0 <= i < |a| - 1 && b[1..][i].Lit? ==> a[1..][i] == a[i + 1] && b[1..][i] == b[i + 1];
      RefinementWins(a[1..], b[1..]);
    }
  }

  lemma {:induction false} MoreSpecificTransitive(a: seq<Seg>, b: seq<Seg>, c: seq<Seg>)
    requires |a| == |b| == |c|
    ensures MoreSpecific(a, b) && MoreSpecific(b, c) ==> MoreSpecific(a, c)
    ensures !MoreSpecific(a, a)
  {
    if |a| > 0 {
      MoreSpecificTransitive(a[1..], b[1..], c[1..]);
    }
  }

  // The patterns that one request can reach form a chain.
  ghost predicate Chain(cands: seq<Pattern>) {
    && SameLength(cands)
    && (forall p :: p in cands ==> LiteralsNamed(p.segs))
    && (forall p, q :: p in cands && q in cands && p != q ==> Within(p, q) != Within(q, p))
  }

  function Candidates(pats: seq<Pattern>, verb: string, path: seq<string>): (r: seq<Pattern>)
    ensures forall p :: p in r <==> p in pats && Allows(p.verb, verb) && Matches(p.segs, path)
  {
    if pats == [] then []
    else
      var init, p := pats[..|pats| - 1], pats[|pats| - 1];
      assert pats == init + [p];
      var rest := Candidates(init, verb, path);
      if Allows(p.verb, verb) && Matches(p.segs, path) then rest + [p] else rest
  }

  lemma CandidatesChain(pats: seq<Pattern>, verb: string, path: seq<string>)
    requires Registrable(pats) && verb != ""
    ensures Chain(Candidates(pats, verb, path))
  {
    var cands := Candidates(pats, verb, path);
    forall p, q | p in cands && q in cands && p != q
      ensures Within(p, q) != Within(q, p)
    {
      var i :| 0 <= i < |pats| && pats[i] == p;
      var j :| 0 <= j < |pats| && pats[j] == q;
      assert Agree(p.segs, q.segs);
      MeetIffAgree(p.segs, q.segs);
      MeetIffAgree(q.segs, p.segs);
      assert MethodsMeet(p.verb, q.verb) && MethodsMeet(q.verb, p.verb);
    }
  }

  // In a chain whose members share a method, the three selectors agree, and
  // whatever they select is unique.
  lemma SelectorsAgree(cands: seq<Pattern>, p: Pattern)
    requires Chain(cands) && p in cands
    requires forall q :: q in cands ==> q.verb == p.verb
    ensures IsLeftmost(p, cands) <==> IsLeast(p, cands)
    ensures HasMostLiterals(p, cands) <==> IsLeast(p, cands)
    ensures IsLeast(p, cands) ==> forall q :: q in cands && IsLeast(q, cands) ==> q == p
  {
    forall q | q in cands
      ensures Within(p, q) ==> !MoreSpecific(q.segs, p.segs) && LiteralCount(q.segs) <= LiteralCount(p.segs)
      ensures !Within(p, q) ==> MoreSpecific(q.segs, p.segs) && LiteralCount(q.segs) > LiteralCount(p.segs)
    {
      WithinIffRefines(p.segs, q.segs);
      WithinIffRefines(q.segs, p.segs);
      if Within(p, q) {
        RefinementWins(p.segs, q.segs);
      } else {
        RefinementWins(q.segs, p.segs);
      }
    }
  }

  // Across methods the leftmost literal still names the least inclusive path,
  // so ServeMux's own choice has those very segments.
  lemma LeftmostIsLeastPath(cands: seq<Pattern>, p: Pattern)
    requires Chain(cands) && p in cands && IsLeftmost(p, cands)
    ensures forall q :: q in cands ==> Refines(p.segs, q.segs)
  {
    forall q | q in cands
      ensures Refines(p.segs, q.segs)
    {
      WithinIffRefines(p.segs, q.segs);
      WithinIffRefines(q.segs, p.segs);
      if p != q && !Within(p, q) {
        RefinementWins(q.segs, p.segs);
      }
    }
  }

  lemma {:induction false} ChainHasLeast(cands: seq<Pattern>) returns (p: Pattern)
    requires Chain(cands) && cands != []
    ensures p in cands && IsLeast(p, cands)
  {
    var init, last := cands[..|cands| - 1], cands[|cands| - 1];
    assert cands == init + [last];
    if init == [] {
      p := last;
    } else {
      var b := ChainHasLeast(init);
      p := if Within(b, last) then b else last;
    }
  }

  // ---- The selectors as the code runs them ----

  function Leftmost(cands: seq<Pattern>): (r: Option<Pattern>)
    requires SameLength(cands)
    ensures r.None? <==> cands == []
    ensures r.Some? ==> r.value in cands && IsLeftmost(r.value, cands)
  {
    if cands == [] then None
    else
      var init, p := cands[..|cands| - 1], cands[|cands| - 1];
      assert cands == init + [p];
      var best := Leftmost(init);
      if best.None? || MoreSpecific(p.segs, best.value.segs) then
        assert forall q :: q in init ==> !MoreSpecific(q.segs, p.segs) by {
          forall q | q in init
            ensures !MoreSpecific(q.segs, p.segs)
          {
            if best.Some? { MoreSpecificTransitive(q.segs, p.segs, best.value.segs); }
          }
        }
        assert !MoreSpecific(p.segs, p.segs) by { MoreSpecificTransitive(p.segs, p.segs, p.segs); }
        Some(p)
      else best
  }

  // A route of that very method with the most literals, if there is one.
  ghost predicate Credited(routes: seq<Pattern>, verb: string, path: seq<string>, best: Option<Pattern>) {
    && (best.None? <==> forall p :: p in routes && p.verb == verb ==> !Matches(p.segs, path))
    && (best.Some? ==> best.value in routes && best.value.verb == verb && Matches(best.value.segs, path)
                       && forall p :: p in routes && p.verb == verb && Matches(p.segs, path)
                                      ==> LiteralCount(p.segs) <= LiteralCount(best.value.segs))
  }

  // The route coverage script's resolve.
  method Resolve(routes: seq<Pattern>, verb: string, path: seq<string>) returns (best: Option<Pattern>)
    ensures Credited(routes, verb, path, best)
  {
    best := None;
    var bestLiterals := -1;
    for k := 0 to |routes|
      invariant best.None? ==> bestLiterals == -1
      invariant best.None? <==> forall p :: p in routes[..k] && p.verb == verb ==> !Matches(p.segs, path)
      invariant best.Some? ==> best.value in routes[..k] && best.value.verb == verb
                               && Matches(best.value.segs, path) && bestLiterals == LiteralCount(best.value.segs)
      invariant forall p :: p in routes[..k] && p.verb == verb && Matches(p.segs, path)
                            ==> LiteralCount(p.segs) <= bestLiterals
    {
      var route := routes[k];
      assert routes[..k + 1] == routes[..k] + [route];
      if route.verb != verb || |route.segs| != |path| {
        continue;
      }
      var literals, i := 0, 0;
      while i < |path| && (route.segs[i].Wild? || route.segs[i].text == path[i])
        invariant 0 <= i <= |path|
        invariant forall j :: 0 <= j < i && route.segs[j].Lit? ==> route.segs[j].text == path[j]
        invariant literals + LiteralCount(route.segs[i..]) == LiteralCount(route.segs)
      {
        if route.segs[i].Lit? {
          literals := literals + 1;
        }
        i := i + 1;
      }
      if i == |path| && literals > bestLiterals {
        best, bestLiterals := Some(route), literals;
      }
    }
  }

  // ServeMux serves a request from the least of its candidates.  Whatever the
  // registration order, the folder selects that route's path, and the script
  // credits that route exactly when it carries the request's method itself.
  lemma ResolveMirrorsServeMux(
      routes: seq<Pattern>, reordered: seq<Pattern>, verb: string, path: seq<string>, best: Option<Pattern>,
      served: Pattern)
    requires Registrable(routes) && verb != "" && forall p :: p in routes <==> p in reordered
    requires Credited(reordered, verb, path, best)
    requires var cands := Candidates(routes, verb, path); served in cands && IsLeast(served, cands)
    ensures best == Some(served) <==> served.verb == verb
    ensures var cands := Candidates(reordered, verb, path);
            SameLength(cands) && Leftmost(cands).Some? && Leftmost(cands).value.segs == served.segs
  {
    var cands, cands' := Candidates(routes, verb, path), Candidates(reordered, verb, path);
    CandidatesChain(routes, verb, path);
    assert forall p :: p in cands <==> p in cands';
    var l := Leftmost(cands').value;
    LeftmostIsLeastPath(cands', l);
    WithinIffRefines(served.segs, l.segs);
    RefinementWins(served.segs, l.segs);
    RefinementWins(l.segs, served.segs);
    if served.verb == verb {
      var b := best.value;
      WithinIffRefines(served.segs, b.segs);
      RefinementWins(served.segs, b.segs);
    }
  }

  // A HEAD request on a GET route is served and credits nothing.
  lemma HeadIsNotCredited()
    ensures var routes := [Pattern("GET", [Lit("users")])];
            && Registrable(routes) && Candidates(routes, "HEAD", ["users"]) == routes
            && Credited(routes, "HEAD", ["users"], None)
  {
    assert [Pattern("GET", [Lit("users")])][..0] == [];
  }
}
