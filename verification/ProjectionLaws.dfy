/** What a projection keeps, said without order: the answer is decided by the
    set of requested paths. */
module ProjectionLaws {
  import opened Strings
  import opened Projection

  predicate NamesWhole(p: string, k: string) {
    CutPath(p).sub.None? && EqualFold(CutPath(p).top, k)
  }

  predicate NamesField(p: string, k: string, f: string) {
    CutPath(p).sub.Some? && EqualFold(CutPath(p).top, k) && EqualFold(CutPath(p).sub.value, f)
  }

  predicate Whole(paths: set<string>, k: string) {
    exists p :: p in paths && NamesWhole(p, k)
  }

  predicate Field(paths: set<string>, k: string, f: string) {
    exists p :: p in paths && NamesField(p, k, f)
  }

  function FieldsNamed<C>(v: Val<C>, paths: set<string>, k: string): map<string, C> {
    if v.Atom? then map[] else map f | f in v.fields && Field(paths, k, f) :: v.fields[f]
  }

  function FieldsLeft<C>(v: Val<C>, paths: set<string>, k: string): (r: Val<C>)
    ensures r.Obj? <==> v.Obj?
  {
    if v.Atom? then v else Obj(map f | f in v.fields && !Field(paths, k, f) :: v.fields[f])
  }

  // ?attributes=
  function Shown<C>(res: Res<C>, paths: set<string>): Res<C> {
    map k | k in res && (Always(k) || Whole(paths, k) || FieldsNamed(res[k], paths, k) != map[]) ::
      if Always(k) || Whole(paths, k) then res[k] else Obj(FieldsNamed(res[k], paths, k))
  }

  // ?excludedAttributes=
  function Hidden<C>(res: Res<C>, paths: set<string>): Res<C> {
    map k | k in res && (Always(k) || !Whole(paths, k)) ::
      if Always(k) then res[k] else FieldsLeft(res[k], paths, k)
  }

  function Paths(s: seq<string>): set<string> { set p | p in s }

  lemma WholeNext(paths: set<string>, p: string, k: string)
    ensures Whole(paths + {p}, k) <==> Whole(paths, k) || NamesWhole(p, k)
  {
    hide NamesWhole;
    if NamesWhole(p, k) {
      assert p in paths + {p};
    }
    if Whole(paths, k) {
      var q :| q in paths && NamesWhole(q, k);
      assert q in paths + {p};
    }
  }

  lemma FieldNext(paths: set<string>, p: string, k: string, f: string)
    ensures Field(paths + {p}, k, f) <==> Field(paths, k, f) || NamesField(p, k, f)
  {
    hide NamesField;
    if NamesField(p, k, f) {
      assert p in paths + {p};
    }
    if Field(paths, k, f) {
      var q :| q in paths && NamesField(q, k, f);
      assert q in paths + {p};
    }
  }

  // A path names at most one attribute of a resource, and at most one field.
  lemma NamedAttribute<C>(res: Res<C>, p: string, k: string)
    requires WellKeyed(res) && k in res
    ensures var path := CutPath(p);
            && (NamesWhole(p, k) <==> path.sub.None? && Find(res, path.top) == Some(k))
            && forall f :: NamesField(p, k, f) && res[k].Obj? && f in res[k].fields <==>
                 path.sub.Some? && Find(res, path.top) == Some(k) && res[k].Obj?
                 && Find(res[k].fields, path.sub.value) == Some(f)
  {
    hide CutPath, ToLower;
    var path := CutPath(p);
    if EqualFold(path.top, k) {
      FindIs(res, path.top, k);
    }
    if path.sub.Some? && res[k].Obj? {
      forall f | f in res[k].fields && EqualFold(path.sub.value, f)
        ensures Find(res[k].fields, path.sub.value) == Some(f)
      {
        FindIs(res[k].fields, path.sub.value, f);
      }
    }
  }

  lemma FieldsHit<C>(v: Val<C>, paths: set<string>, p: string, k: string, f: string)
    requires v.Obj? && f in v.fields && forall g :: g in v.fields ==> (NamesField(p, k, g) <==> g == f)
    ensures FieldsNamed(v, paths + {p}, k) == FieldsNamed(v, paths, k)[f := v.fields[f]]
    ensures FieldsLeft(v, paths + {p}, k) == Obj(FieldsLeft(v, paths, k).fields - {f})
  {
    hide Field, NamesField;
    forall g | g in v.fields
      ensures Field(paths + {p}, k, g) <==> Field(paths, k, g) || g == f
    {
      FieldNext(paths, p, k, g);
    }
  }

  lemma FieldsMiss<C>(v: Val<C>, paths: set<string>, p: string, k: string)
    requires v.Obj? ==> forall g :: g in v.fields ==> !NamesField(p, k, g)
    ensures FieldsNamed(v, paths + {p}, k) == FieldsNamed(v, paths, k)
    ensures FieldsLeft(v, paths + {p}, k) == FieldsLeft(v, paths, k)
  {
    hide Field, NamesField;
    if v.Obj? {
      forall g | g in v.fields
        ensures Field(paths + {p}, k, g) <==> Field(paths, k, g)
      {
        FieldNext(paths, p, k, g);
      }
    }
  }

  // The field a path names, if it names one.
  ghost function Target<C>(res: Res<C>, p: string, k: string): Option<string>
    requires k in res
  {
    var path := CutPath(p);
    if path.sub.Some? && res[k].Obj? && Find(res, path.top) == Some(k) then Find(res[k].fields, path.sub.value)
    else None
  }

  ghost predicate Takes<C>(res: Res<C>, p: string, k: string) {
    CutPath(p).sub.None? && Find(res, CutPath(p).top) == Some(k)
  }

  // What one more path adds to an attribute.
  lemma OneMorePath<C>(res: Res<C>, paths: set<string>, p: string, k: string)
    requires WellKeyed(res) && k in res
    ensures Whole(paths + {p}, k) <==> Whole(paths, k) || Takes(res, p, k)
    ensures match Target(res, p, k)
            case None =>
              FieldsNamed(res[k], paths + {p}, k) == FieldsNamed(res[k], paths, k)
              && FieldsLeft(res[k], paths + {p}, k) == FieldsLeft(res[k], paths, k)
            case Some(f) =>
              res[k].Obj? && f in res[k].fields
              && FieldsNamed(res[k], paths + {p}, k) == FieldsNamed(res[k], paths, k)[f := res[k].fields[f]]
              && FieldsLeft(res[k], paths + {p}, k) == Obj(FieldsLeft(res[k], paths, k).fields - {f})
  {
    WholeNext(paths, p, k);
    NamedAttribute(res, p, k);
    hide CutPath, NamesWhole, NamesField, Whole, Field, FieldsNamed, FieldsLeft, WellKeyed;
    var f := Target(res, p, k);
    if f.Some? {
      FieldsHit(res[k], paths, p, k, f.value);
    } else {
      FieldsMiss(res[k], paths, p, k);
    }
  }

  lemma ShownNext<C>(res: Res<C>, paths: set<string>, p: string)
    requires WellKeyed(res)
    ensures Shown(res, paths + {p}) == IncludeStep(res, Shown(res, paths), p)
  {
    var a, b := Shown(res, paths + {p}), IncludeStep(res, Shown(res, paths), p);
    hide CutPath, Whole, Field, FieldsNamed, FieldsLeft, WellKeyed, Always, NamesWhole, NamesField;
    forall k | k in res
      ensures k in a <==> k in b
      ensures k in a ==> a[k] == b[k]
    {
      OneMorePath(res, paths, p, k);
      var f := Target(res, p, k);
      if f.Some? {
        assert f.value in FieldsNamed(res[k], paths + {p}, k);
      }
    }
    assert forall k :: k in a || k in b ==> k in res;
  }

  lemma HiddenNext<C>(res: Res<C>, paths: set<string>, p: string)
    requires WellKeyed(res)
    ensures Hidden(res, paths + {p}) == ExcludeStep(Hidden(res, paths), p)
  {
    var a, b := Hidden(res, paths + {p}), ExcludeStep(Hidden(res, paths), p);
    assert forall k :: k in a || k in b ==> k in res;
    forall k | k in res
      ensures k in a <==> k in b
      ensures k in a ==> a[k] == b[k]
    {
      HiddenStepAt(res, paths, p, k);
    }
  }

  lemma HiddenStepAt<C>(res: Res<C>, paths: set<string>, p: string, k: string)
    requires WellKeyed(res) && k in res
    ensures var a, b := Hidden(res, paths + {p}), ExcludeStep(Hidden(res, paths), p);
            (k in a <==> k in b) && (k in a ==> a[k] == b[k])
  {
    hide CutPath, Whole, Field, FieldsNamed, FieldsLeft, WellKeyed, Always, Find, UniqueKeys;
    var before, path := Hidden(res, paths), CutPath(p);
    OneMorePath(res, paths, p, k);
    HiddenFind(res, paths, path.top);
    if Find(before, path.top) == Some(k) {
      if path.sub.Some? && before[k].Obj? && !Always(k) {
        FieldFind(res, paths, k, path.sub.value);
      }
    } else {
      assert k in before ==> k in ExcludeStep(before, p) && ExcludeStep(before, p)[k] == before[k];
    }
  }

  // What a lookup finds once some fields have been left out.
  lemma FieldFind<C>(res: Res<C>, paths: set<string>, k: string, name: string)
    requires WellKeyed(res) && k in res && res[k].Obj?
    ensures var left := FieldsLeft(res[k], paths, k).fields;
            Find(left, name) == match Find(res[k].fields, name)
                                case None => None
                                case Some(f) => if f in left then Some(f) else None
  {
    hide Field, ToLower;
  }

  // Lookups in the partial answer find what they would find in the resource.
  lemma HiddenFind<C>(res: Res<C>, paths: set<string>, name: string)
    requires WellKeyed(res)
    ensures var k, before := Find(res, name), Hidden(res, paths);
            Find(before, name) == if k.Some? && k.value in before then k else None
  {
    hide Always, Whole, FieldsLeft;
  }

  lemma {:induction false} IncludeMeaning<C>(res: Res<C>, included: seq<string>)
    requires WellKeyed(res)
    ensures IncludeFold(res, included) == Shown(res, Paths(included))
  {
    hide IncludeStep, Always;
    if included == [] {
      assert Paths([]) == {};
    } else {
      var init, last := included[..|included| - 1], included[|included| - 1];
      IncludeMeaning(res, init);
      ShownNext(res, Paths(init), last);
      assert Paths(included) == Paths(init) + {last} by {
        assert included == init + [last];
      }
    }
  }

  lemma {:induction false} ExcludeMeaning<C>(res: Res<C>, excluded: seq<string>)
    requires WellKeyed(res)
    ensures ExcludeFold(res, excluded) == Hidden(res, Paths(excluded))
  {
    hide ExcludeStep, Always;
    if excluded == [] {
      assert Paths([]) == {};
      forall k | k in res
        ensures FieldsLeft(res[k], {}, k) == res[k]
      {
      }
      assert Hidden(res, {}) == res;
    } else {
      var init, last := excluded[..|excluded| - 1], excluded[|excluded| - 1];
      ExcludeMeaning(res, init);
      HiddenNext(res, Paths(init), last);
      assert Paths(excluded) == Paths(init) + {last} by {
        assert excluded == init + [last];
      }
    }
  }

  // ---- The laws ----

  // The answer hangs on the set of paths alone, not on order or repeats.
  lemma SetDecides<C>(res: Res<C>, included: seq<string>, excluded: seq<string>)
    requires WellKeyed(res)
    ensures Projected(res, included, excluded)
            == if Paths(included) != {} then Shown(res, Paths(included))
               else if Paths(excluded) != {} then Hidden(res, Paths(excluded)) else res
  {
    hide Shown, Hidden;
    IncludeMeaning(res, included);
    ExcludeMeaning(res, excluded);
    if included != [] {
      assert included[0] in Paths(included);
    }
    if excluded != [] {
      assert excluded[0] in Paths(excluded);
    }
  }

  lemma AlwaysSurvives<C>(res: Res<C>, included: seq<string>, excluded: seq<string>, k: string)
    requires WellKeyed(res) && k in res && ToLower(k) in {"id", "schemas", "meta"}
    ensures var r := Projected(res, included, excluded); k in r && r[k] == res[k]
  {
    SetDecides(res, included, excluded);
  }

  lemma ShownTwice<C>(res: Res<C>, paths: set<string>)
    ensures Shown(Shown(res, paths), paths) == Shown(res, paths)
  {
    hide Always, Whole, Field;
    var once := Shown(res, paths);
    forall k | k in once
      ensures Always(k) || Whole(paths, k) || FieldsNamed(once[k], paths, k) == FieldsNamed(res[k], paths, k)
    {
    }
  }

  lemma HiddenTwice<C>(res: Res<C>, paths: set<string>)
    ensures Hidden(Hidden(res, paths), paths) == Hidden(res, paths)
  {
    hide Always, Whole, Field;
    var once := Hidden(res, paths);
    forall k | k in once
      ensures Always(k) || FieldsLeft(once[k], paths, k) == once[k]
    {
    }
  }

  // Projecting an answer again changes nothing.
  lemma Idempotent<C>(res: Res<C>, included: seq<string>, excluded: seq<string>)
    requires WellKeyed(res)
    ensures var once := Projected(res, included, excluded);
            WellKeyed(once) && Projected(once, included, excluded) == once
  {
    var once := Projected(res, included, excluded);
    SetDecides(res, included, excluded);
    ShownKeys(res, Paths(included));
    HiddenKeys(res, Paths(excluded));
    hide Shown, Hidden, WellKeyed, Projected;
    SetDecides(once, included, excluded);
    ShownTwice(res, Paths(included));
    HiddenTwice(res, Paths(excluded));
  }

  lemma ShownKeys<C>(res: Res<C>, paths: set<string>)
    requires WellKeyed(res)
    ensures WellKeyed(Shown(res, paths))
  {
    hide Always, Whole, Field, ToLower;
  }

  lemma HiddenKeys<C>(res: Res<C>, paths: set<string>)
    requires WellKeyed(res)
    ensures WellKeyed(Hidden(res, paths))
  {
    hide Always, Whole, Field, ToLower;
  }

  // Putting two partial answers together, field by field.
  function JoinVal<C>(a: Val<C>, b: Val<C>): Val<C> {
    if a.Obj? && b.Obj? then Obj(a.fields + b.fields) else a
  }

  function Rejoined<C>(a: Res<C>, b: Res<C>): Res<C> {
    map k | k in a.Keys + b.Keys :: if k !in b then a[k] else if k !in a then b[k] else JoinVal(a[k], b[k])
  }

  // Asking for a set of paths and asking for everything but them loses nothing
  // between the two.
  lemma AskingBothWaysLosesNothing<C>(res: Res<C>, paths: set<string>)
    ensures Rejoined(Shown(res, paths), Hidden(res, paths)) == res
  {
    hide Always, Whole, Field;
    var a, b := Shown(res, paths), Hidden(res, paths);
    forall k | k in res
      ensures k in a || k in b
      ensures Rejoined(a, b)[k] == res[k]
    {
      if res[k].Obj? && !Always(k) && !Whole(paths, k) {
        var named, left := FieldsNamed(res[k], paths, k), FieldsLeft(res[k], paths, k).fields;
        assert named + left == res[k].fields;
        if k !in a {
          assert left == res[k].fields;
        }
      }
    }
  }

  // For whole attributes the two answers share the always-returned ones and
  // nothing else.
  lemma WholeAnswersArePartition<C>(res: Res<C>, paths: set<string>)
    requires forall p :: p in paths ==> CutPath(p).sub.None?
    ensures forall k :: k in res ==> k in Shown(res, paths) || k in Hidden(res, paths)
    ensures forall k :: k in Shown(res, paths) && k in Hidden(res, paths) ==> Always(k)
    ensures forall k :: k in Shown(res, paths) ==> Shown(res, paths)[k] == res[k]
    ensures forall k :: k in Hidden(res, paths) ==> Hidden(res, paths)[k] == res[k]
  {
    hide Always, CutPath;
    forall k | k in res
      ensures FieldsNamed(res[k], paths, k) == map[] && FieldsLeft(res[k], paths, k) == res[k]
    {
      assert forall f :: !Field(paths, k, f);
    }
    hide Whole, Field, FieldsNamed, FieldsLeft;
  }

  // A path is cut at its first dot, so an attribute whose own name holds a dot,
  // such as an extension schema's URN, can be neither asked for nor left out.
  lemma DottedNameIsOutOfReach<C>(res: Res<C>, paths: set<string>, k: string)
    requires k in res && '.' in k && !Always(k)
    ensures k !in Shown(res, paths)
    ensures k in Hidden(res, paths) && Hidden(res, paths)[k] == res[k]
  {
    forall p
      ensures !EqualFold(CutPath(p).top, k)
    {
      DotKept(CutPath(p).top, k);
    }
    assert !Whole(paths, k);
    assert forall f :: !Field(paths, k, f);
    hide Whole, Field, Always;
  }

  lemma PlainPath(k: string)
    requires '.' !in k
    ensures CutPath(k) == Path(k, None)
  {
    if k != "" {
      PlainPath(k[1..]);
      assert k == [k[0]] + k[1..];
    }
  }

  lemma ReachedByItsName<C>(res: Res<C>, k: string)
    requires k in res && !Always(k) && '.' !in k
    ensures k in Shown(res, {k}) && Shown(res, {k})[k] == res[k] && k !in Hidden(res, {k})
  {
    PlainPath(k);
    assert NamesWhole(k, k);
    hide FieldsNamed, FieldsLeft, NamesWhole, Always;
    assert k in {k} && Whole({k}, k);
  }

  // An attribute that is not always returned can be asked for, and can be left
  // out, exactly when its name holds no dot; then its own name does both.
  lemma ReachableIffUndotted<C>(res: Res<C>, k: string)
    requires k in res && ToLower(k) !in {"id", "schemas", "meta"}
    ensures (exists paths :: k in Shown(res, paths)) <==> '.' !in k
    ensures (exists paths :: k !in Hidden(res, paths)) <==> '.' !in k
    ensures '.' !in k ==> k in Shown(res, {k}) && Shown(res, {k})[k] == res[k] && k !in Hidden(res, {k})
  {
    assert !Always(k);
    hide Shown, Hidden, Always;
    if '.' in k {
      forall paths
        ensures k !in Shown(res, paths) && k in Hidden(res, paths)
      {
        DottedNameIsOutOfReach(res, paths, k);
      }
    } else {
      ReachedByItsName(res, k);
    }
  }

  const ENTERPRISE := "urn:ietf:params:scim:schemas:extension:enterprise:2.0:User"

  // An extension attribute under its schema's URN (section 3.3 of RFC 7643) is
  // such an attribute.
  lemma ExtensionIsOutOfReach()
    ensures var res: Res<string> := map[ENTERPRISE := Atom("x")];
            WellKeyed(res) && forall paths :: ENTERPRISE !in Shown(res, paths) && ENTERPRISE in Hidden(res, paths)
  {
    var res: Res<string> := map[ENTERPRISE := Atom("x")];
    assert ENTERPRISE[51] == '.';
    assert |ToLower(ENTERPRISE)| > 7;
    assert !Always(ENTERPRISE);
    forall paths
      ensures ENTERPRISE !in Shown(res, paths) && ENTERPRISE in Hidden(res, paths)
    {
      DottedNameIsOutOfReach(res, paths, ENTERPRISE);
    }
  }

  lemma DotKept(a: string, k: string)
    requires '.' !in a && '.' in k
    ensures !EqualFold(a, k)
  {
    var i :| 0 <= i < |k| && k[i] == '.';
    assert i < |a| ==> a[i] in a;
    assert |a| == |k| ==> ToLower(a)[i] != ToLower(k)[i];
  }
}
