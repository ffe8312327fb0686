/** Attribute projection of internal/scim/projection.go: ?attributes= and
    ?excludedAttributes= over a resource held in shared, updatable maps. */
module Projection {
  import opened Strings

  // ---- Paths and names ----

  datatype Path = Path(top: string, sub: Option<string>)

  // strings.Cut(path, ".").
  function CutPath(p: string): (r: Path)
    ensures '.' !in r.top
    ensures p == match r.sub case None => r.top case Some(s) => r.top + "." + s
  {
    if p == "" then Path("", None)
    else if p[0] == '.' then Path("", Some(p[1..]))
    else
      var r := CutPath(p[1..]);
      Path([p[0]] + r.top, r.sub)
  }

  predicate Always(k: string) {
    ToLower(k) == "id" || ToLower(k) == "schemas" || ToLower(k) == "meta"
  }

  ghost predicate UniqueKeys<V>(m: map<string, V>) {
    forall k, l :: k in m && l in m && EqualFold(k, l) ==> k == l
  }

  // lookup: with unique keys the map order does not matter.
  ghost function Find<V>(m: map<string, V>, name: string): (r: Option<string>)
    ensures r.Some? ==> r.value in m && EqualFold(r.value, name)
    ensures r.None? ==> forall k :: k in m ==> !EqualFold(k, name)
  {
    if k :| k in m && EqualFold(k, name) then Some(k) else None
  }

  lemma FindIs<V>(m: map<string, V>, name: string, k: string)
    requires UniqueKeys(m) && k in m && EqualFold(k, name)
    ensures Find(m, name) == Some(k)
  {
  }

  // ---- What a resource says ----

  // A value is a JSON object or anything else.
  datatype Val<C> = Atom(text: string) | Obj(fields: map<string, C>)
  type Res<C> = map<string, Val<C>>

  ghost predicate WellKeyed<C>(res: Res<C>) {
    UniqueKeys(res) && forall k :: k in res && res[k].Obj? ==> UniqueKeys(res[k].fields)
  }

  // One ?attributes= path.
  ghost function IncludeStep<C>(res: Res<C>, out: Res<C>, path: string): Res<C> {
    var p := CutPath(path);
    match Find(res, p.top)
    case None => out
    case Some(key) =>
      if p.sub.None? then out[key := res[key]]
      else if res[key].Atom? then out
      else IncludeField(res[key].fields, out, key, p.sub.value)
  }

  ghost function IncludeField<C>(fields: map<string, C>, out: Res<C>, key: string, sub: string): Res<C> {
    match Find(fields, sub)
    case None => out
    case Some(k) => PutField(out, key, k, fields[k])
  }

  function PutField<C>(out: Res<C>, key: string, k: string, v: C): Res<C> {
    var existing := if key in out && out[key].Obj? then out[key].fields else map[];
    out[key := Obj(existing[k := v])]
  }

  ghost function IncludeFold<C>(res: Res<C>, paths: seq<string>): Res<C> {
    if paths == [] then map k | k in res && Always(k) :: res[k]
    else IncludeStep(res, IncludeFold(res, paths[..|paths| - 1]), paths[|paths| - 1])
  }

  // One ?excludedAttributes= path.
  ghost function ExcludeStep<C>(out: Res<C>, path: string): Res<C> {
    var p := CutPath(path);
    match Find(out, p.top)
    case None => out
    case Some(key) =>
      if Always(key) then out
      else if p.sub.None? then out - {key}
      else if out[key].Atom? then out
      else
        match Find(out[key].fields, p.sub.value)
        case None => out
        case Some(k) => out[key := Obj(out[key].fields - {k})]
  }

  ghost function ExcludeFold<C>(res: Res<C>, paths: seq<string>): Res<C> {
    if paths == [] then res else ExcludeStep(ExcludeFold(res, paths[..|paths| - 1]), paths[|paths| - 1])
  }

  ghost function Projected<C>(res: Res<C>, included: seq<string>, excluded: seq<string>): Res<C> {
    if included != [] then IncludeFold(res, included)
    else if excluded != [] then ExcludeFold(res, excluded)
    else res
  }

  // ---- The maps in memory ----

  datatype Cell = Leaf(text: string) | Node(m: MapObj)

  class MapObj {
    var entries: map<string, Cell>

    constructor ()
      ensures entries == map[]
    {
      entries := map[];
    }
  }

  function Kids(o: MapObj): set<MapObj>
    reads o
  {
    set k | k in o.entries && o.entries[k].Node? :: o.entries[k].m
  }

  ghost function ValOf(c: Cell): Val<Cell>
    reads if c.Node? then {c.m} else {}
  {
    match c case Leaf(t) => Atom(t) case Node(m) => Obj(m.entries)
  }

  // The map says r.
  ghost predicate Shows(o: MapObj, r: Res<Cell>)
    reads o, Kids(o)
  {
    o.entries.Keys == r.Keys && forall k :: k in r ==> ValOf(o.entries[k]) == r[k]
  }

  method Lookup(m: map<string, Cell>, name: string) returns (r: Option<string>)
    requires UniqueKeys(m)
    ensures r == Find(m, name)
  {
    var keys := m.Keys;
    while keys != {}
      invariant keys <= m.Keys
      invariant forall k :: k in m && k !in keys ==> !EqualFold(k, name)
      decreases keys
    {
      var k :| k in keys;
      if EqualFold(k, name) {
        FindIs(m, name, k);
        return Some(k);
      }
      keys := keys - {k};
    }
    r := None;
  }

  // A nested map of the answer is the resource's own, or belongs to the answer
  // alone.
  ghost predicate Sharing(res: MapObj, out: MapObj)
    reads res, out
  {
    && out != res && out !in Kids(res) && out !in Kids(out)
    && forall k :: k in out.entries && out.entries[k].Node? ==>
         || (k in res.entries && out.entries[k] == res.entries[k])
         || (&& out.entries[k].m !in Kids(res) && out.entries[k].m != res
             && forall l :: l in out.entries && l != k ==> out.entries[l] != out.entries[k])
  }

  // Adds one field to the answer's nested map at `key`, which may be the
  // resource's own map; then the field is there already.
  method SetSub(res: MapObj, out: MapObj, key: string, k: string, v: Cell, ghost before: Res<Cell>)
    requires Sharing(res, out) && Shows(out, before)
    requires key in res.entries && res.entries[key].Node?
    requires k in res.entries[key].m.entries && res.entries[key].m.entries[k] == v
    modifies out, Kids(out)
    ensures res.entries == old(res.entries)
    ensures forall c :: c in old(Kids(res)) ==> c.entries == old(c.entries)
    ensures Sharing(res, out) && fresh(Kids(out) - old(Kids(out)))
    ensures Shows(out, PutField(before, key, k, v))
  {
    if key in out.entries && out.entries[key].Node? {
      SetExisting(res, out, key, k, v, before);
    } else {
      SetNew(res, out, key, k, v, before);
    }
  }

  method SetExisting(res: MapObj, out: MapObj, key: string, k: string, v: Cell, ghost before: Res<Cell>)
    requires Sharing(res, out) && Shows(out, before)
    requires key in res.entries && res.entries[key].Node?
    requires k in res.entries[key].m.entries && res.entries[key].m.entries[k] == v
    requires key in out.entries && out.entries[key].Node?
    modifies Kids(out)
    ensures res.entries == old(res.entries) && out.entries == old(out.entries)
    ensures forall c :: c in old(Kids(res)) ==> c.entries == old(c.entries)
    ensures Shows(out, PutField(before, key, k, v))
  {
    var existing := out.entries[key].m;
    assert ValOf(out.entries[key]) == before[key];
    existing.entries := existing.entries[k := v];
    if out.entries[key] == res.entries[key] {
      assert existing.entries == old(existing.entries);
    } else {
      assert forall l :: l in out.entries && l != key ==> ValOf(out.entries[l]) == old(ValOf(out.entries[l]));
    }
  }

  method SetNew(res: MapObj, out: MapObj, key: string, k: string, v: Cell, ghost before: Res<Cell>)
    requires Sharing(res, out) && Shows(out, before)
    requires key in out.entries ==> !out.entries[key].Node?
    modifies out
    ensures Sharing(res, out) && fresh(Kids(out) - old(Kids(out)))
    ensures Shows(out, PutField(before, key, k, v))
  {
    var existing := new MapObj();
    existing.entries := existing.entries[k := v];
    assert key in before ==> ValOf(out.entries[key]) == before[key];
    out.entries := out.entries[key := Node(existing)];
    assert forall l :: l in old(out.entries) && l != key ==> ValOf(out.entries[l]) == old(ValOf(out.entries[l]));
  }

  // Puts the resource's own value into the answer, nested map and all.
  method SetWhole(res: MapObj, out: MapObj, key: string, ghost before: Res<Cell>)
    requires Sharing(res, out) && key in res.entries && Shows(out, before)
    modifies out
    ensures Sharing(res, out) && Kids(out) <= old(Kids(out)) + Kids(res)
    ensures Shows(out, before[key := ValOf(res.entries[key])])
  {
    out.entries := out.entries[key := res.entries[key]];
  }

  method IncludeSub(res: MapObj, out: MapObj, key: string, sub: string, ghost before: Res<Cell>)
    requires Sharing(res, out) && Shows(out, before)
    requires key in res.entries && res.entries[key].Node? && UniqueKeys(res.entries[key].m.entries)
    modifies out, Kids(out)
    ensures res.entries == old(res.entries)
    ensures forall c :: c in old(Kids(res)) ==> c.entries == old(c.entries)
    ensures Sharing(res, out) && fresh(Kids(out) - old(Kids(out)))
    ensures Shows(out, IncludeField(old(res.entries[key].m.entries), before, key, sub))
  {
    var child := res.entries[key].m;
    var inner := Lookup(child.entries, sub);
    hide UniqueKeys, Find, Sharing, PutField, Shows;
    if inner.Some? {
      SetSub(res, out, key, inner.value, child.entries[inner.value], before);
    }
  }

  // lookup at the top level of a map that says r.
  method LookupTop(o: MapObj, name: string, ghost r: Res<Cell>) returns (found: Option<string>)
    requires WellKeyed(r) && Shows(o, r)
    ensures found == Find(r, name)
    ensures found.Some? ==> found.value in o.entries && ValOf(o.entries[found.value]) == r[found.value]
    ensures found.Some? && r[found.value].Obj? ==> UniqueKeys(r[found.value].fields)
  {
    found := Lookup(o.entries, name);
    SameFind(o.entries, r, name);
  }

  method IncludePath(res: MapObj, out: MapObj, path: string, ghost said: Res<Cell>, ghost before: Res<Cell>)
    requires WellKeyed(said) && Shows(res, said)
    requires Sharing(res, out) && Shows(out, before)
    modifies out, Kids(out)
    ensures res.entries == old(res.entries)
    ensures forall c :: c in old(Kids(res)) ==> c.entries == old(c.entries)
    ensures Sharing(res, out) && fresh(Kids(out) - old(Kids(out)) - old(Kids(res)))
    ensures Shows(out, IncludeStep(said, before, path))
  {
    hide UniqueKeys, Find, Sharing, CutPath, IncludeField, Shows, WellKeyed;
    var p := CutPath(path);
    var found := LookupTop(res, p.top, said);
    if found.Some? {
      var key := found.value;
      if p.sub.None? {
        SetWhole(res, out, key, before);
      } else if res.entries[key].Node? {
        IncludeSub(res, out, key, p.sub.value, before);
      }
    }
  }

  method ExcludePath(out: MapObj, path: string, ghost before: Res<Cell>)
    requires WellKeyed(before) && Shows(out, before) && out !in Kids(out)
    modifies out
    ensures out !in Kids(out) && fresh(Kids(out) - old(Kids(out)))
    ensures Shows(out, ExcludeStep(before, path))
  {
    hide UniqueKeys, Find, CutPath, Always, WellKeyed;
    var p := CutPath(path);
    var found := LookupTop(out, p.top, before);
    if found.None? || Always(found.value) {
      return;
    }
    var key, val := found.value, out.entries[found.value];
    if p.sub.None? {
      out.entries := out.entries - {key};
    } else if val.Node? {
      var inner := Lookup(val.m.entries, p.sub.value);
      if inner.Some? {
        ReplaceWithout(out, key, inner.value, before);
      }
    }
  }

  // The nested map is cloned before a field is left out of it.
  method ReplaceWithout(out: MapObj, key: string, k: string, ghost before: Res<Cell>)
    requires Shows(out, before) && out !in Kids(out) && key in out.entries && out.entries[key].Node?
    modifies out
    ensures out !in Kids(out) && fresh(Kids(out) - old(Kids(out)))
    ensures before[key].Obj? && Shows(out, before[key := Obj(before[key].fields - {k})])
  {
    assert ValOf(out.entries[key]) == before[key];
    var clone := CloneWithout(out.entries[key].m, k);
    out.entries := out.entries[key := Node(clone)];
    assert forall l :: l in old(out.entries) && l != key ==> ValOf(out.entries[l]) == old(ValOf(out.entries[l]));
  }

  method CloneWithout(child: MapObj, k: string) returns (clone: MapObj)
    ensures fresh(clone) && clone.entries == child.entries - {k}
  {
    clone := new MapObj();
    var keys := child.entries.Keys;
    while keys != {}
      invariant keys <= child.entries.Keys && fresh(clone)
      invariant clone.entries == map l | l in child.entries && l !in keys && l != k :: child.entries[l]
      decreases keys
    {
      var l :| l in keys;
      if l != k {
        clone.entries := clone.entries[l := child.entries[l]];
      }
      keys := keys - {l};
    }
  }

  // ---- The operation ----

  // Whatever the answer shares, no map the resource is made of changes.
  method Project(res: MapObj, included: seq<string>, excluded: seq<string>, ghost said: Res<Cell>)
    returns (out: MapObj)
    requires WellKeyed(said) && Shows(res, said)
    modifies Kids(res)
    ensures res.entries == old(res.entries)
    ensures forall c :: c in old(Kids(res)) ==> c.entries == old(c.entries)
    ensures if included == [] && excluded == [] then out == res else fresh(out)
    ensures Shows(res, said) && Shows(out, Projected(said, included, excluded))
  {
    if included != [] {
      out := ProjectIncluded(res, included, said);
    } else if excluded != [] {
      out := ProjectExcluded(res, excluded, said);
    } else {
      out := res;
    }
  }

  method ProjectIncluded(res: MapObj, included: seq<string>, ghost said: Res<Cell>) returns (out: MapObj)
    requires WellKeyed(said) && Shows(res, said)
    modifies Kids(res)
    ensures res.entries == old(res.entries)
    ensures forall c :: c in old(Kids(res)) ==> c.entries == old(c.entries)
    ensures fresh(out) && Shows(out, IncludeFold(said, included))
  {
    out := CopyWhere(res, true);
    assert Shows(out, IncludeFold(said, [])) by {
      assert forall k :: k in said && Always(k) ==> ValOf(out.entries[k]) == said[k];
    }
    hide WellKeyed, IncludeStep, Sharing, Shows;
    for i := 0 to |included|
      invariant res.entries == old(res.entries)
      invariant forall c :: c in old(Kids(res)) ==> c.entries == old(c.entries)
      invariant fresh(out) && Sharing(res, out) && fresh(Kids(out) - old(Kids(res)))
      invariant Shows(res, said) && Shows(out, IncludeFold(said, included[..i]))
    {
      assert included[..i + 1][..i] == included[..i];
      IncludeNext(res, out, included[i], said, IncludeFold(said, included[..i]));
    }
    assert included[..|included|] == included;
  }

  // One path more, with the resource still saying what it said.
  method IncludeNext(res: MapObj, out: MapObj, path: string, ghost said: Res<Cell>, ghost before: Res<Cell>)
    requires WellKeyed(said) && Shows(res, said)
    requires Sharing(res, out) && Shows(out, before)
    modifies out, Kids(out)
    ensures res.entries == old(res.entries)
    ensures forall c :: c in old(Kids(res)) ==> c.entries == old(c.entries)
    ensures Sharing(res, out) && fresh(Kids(out) - old(Kids(out)) - old(Kids(res)))
    ensures Shows(res, said) && Shows(out, IncludeStep(said, before, path))
  {
    hide Sharing, IncludeStep, WellKeyed;
    assert forall k :: k in said && res.entries[k].Node? ==> res.entries[k].m in Kids(res);
    IncludePath(res, out, path, said, before);
  }

  method ProjectExcluded(res: MapObj, excluded: seq<string>, ghost said: Res<Cell>) returns (out: MapObj)
    requires WellKeyed(said) && Shows(res, said)
    ensures fresh(out) && Shows(out, ExcludeFold(said, excluded))
  {
    out := CopyWhere(res, false);
    for i := 0 to |excluded|
      invariant fresh(out) && out !in Kids(out)
      invariant WellKeyed(ExcludeFold(said, excluded[..i]))
      invariant Shows(out, ExcludeFold(said, excluded[..i]))
      modifies out
    {
      assert excluded[..i + 1][..i] == excluded[..i];
      ExcludePath(out, excluded[i], ExcludeFold(said, excluded[..i]));
      ExcludeKeepsKeys(ExcludeFold(said, excluded[..i]), excluded[i]);
    }
    assert excluded[..|excluded|] == excluded;
  }

  // A shallow copy: of everything, or of what is always returned.
  method CopyWhere(res: MapObj, alwaysOnly: bool) returns (out: MapObj)
    ensures fresh(out) && Sharing(res, out) && Kids(out) <= Kids(res)
    ensures out.entries == map k | k in res.entries && (Always(k) || !alwaysOnly) :: res.entries[k]
  {
    out := new MapObj();
    var keys := res.entries.Keys;
    while keys != {}
      invariant keys <= res.entries.Keys && fresh(out)
      invariant out.entries == map k | k in res.entries && k !in keys && (Always(k) || !alwaysOnly) :: res.entries[k]
      decreases keys
      modifies out
    {
      var k :| k in keys;
      if !alwaysOnly || Always(k) {
        out.entries := out.entries[k := res.entries[k]];
      }
      keys := keys - {k};
    }
  }

  lemma ExcludeKeepsKeys<C>(res: Res<C>, path: string)
    requires WellKeyed(res)
    ensures WellKeyed(ExcludeStep(res, path))
  {
  }

  lemma SameFind<A, B>(a: map<string, A>, b: map<string, B>, name: string)
    requires UniqueKeys(a) && a.Keys == b.Keys
    ensures Find(a, name) == Find(b, name)
  {
    var f, g := Find(a, name), Find(b, name);
    assert f.Some? ==> f.value in b;
    assert g.Some? ==> g.value in a;
  }
}
