/** Delegated scope resolution and the narrowing of a grant at code exchange. */
module Scopes {
  import opened Strings

  datatype ScopeDef = ScopeDef(value: string, enabled: bool)

  // An empty idUri stands for none.
  datatype App = App(id: string, idUri: string, scopes: seq<ScopeDef>)

  datatype Directory = Directory(apps: seq<App>, graphId: string)

  const OIDC_SCOPES := {"openid", "profile", "email", "offline_access"}

  const GRAPH_SCOPES := {"User.Read", "User.ReadBasic.All", "User.Read.All", "Group.Read.All"}

  const FABRIC_SCOPES := {"Fabric.Embed", "Item.Read.All"}

  const FABRIC := "https://api.fabric.microsoft.com"

  const AZURE_RESOURCES := map[
    "https://vault.azure.net" := "https://vault.azure.net",
    "https://storage.azure.com" := "https://storage.azure.com",
    "https://management.azure.com" := "https://management.azure.com",
    "https://management.core.windows.net" := "https://management.azure.com",
    "https://cognitiveservices.azure.com" := "https://cognitiveservices.azure.com"
  ]

  function TrimPrefix(s: string, p: string): string {
    if HasPrefix(s, p) then s[|p|..] else s
  }

  predicate HasSuffix(s: string, t: string) {
    |t| <= |s| && s[|s| - |t|..] == t
  }

  // strings.LastIndex of a slash.
  function LastSlash(s: string): (r: Option<nat>)
    ensures r.Some? ==> r.value < |s| && s[r.value] == '/' && '/' !in s[r.value + 1..]
    ensures r.None? ==> '/' !in s
  {
    if s == "" then None
    else if s[|s| - 1] == '/' then Some(|s| - 1)
    else
      var init := s[..|s| - 1];
      assert s == init + [s[|s| - 1]];
      var r := LastSlash(init);
      assert r.Some? ==> s[r.value + 1..] == init[r.value + 1..] + [s[|s| - 1]];
      r
  }

  function AzureAud(resource: string): string {
    if resource in AZURE_RESOURCES then AZURE_RESOURCES[resource]
    else if HasSuffix(resource, "/") && resource[..|resource| - 1] in AZURE_RESOURCES then
      AZURE_RESOURCES[resource[..|resource| - 1]] + "/"
    else ""
  }

  function AzureDelegatedResource(scope: string): string {
    var slash := LastSlash(scope);
    if slash.None? || slash.value == 0 then ""
    else if AzureAud(scope[..slash.value]) != "" then scope[..slash.value]
    else ""
  }

  function FindByUri(apps: seq<App>, uri: string): (r: Option<App>)
    ensures r.Some? ==> r.value in apps && r.value.idUri == uri && uri != ""
  {
    if apps == [] then None
    else if apps[0].idUri != "" && apps[0].idUri == uri then Some(apps[0])
    else FindByUri(apps[1..], uri)
  }

  function FindById(apps: seq<App>, id: string): (r: Option<App>)
    ensures r.Some? ==> r.value in apps && r.value.id == id
    ensures r.None? ==> forall a :: a in apps ==> a.id != id
  {
    if apps == [] then None
    else if apps[0].id == id then Some(apps[0])
    else FindById(apps[1..], id)
  }

  function FindResourceApp(dir: Directory, resource: string): Option<App> {
    var byUri := FindByUri(dir.apps, resource);
    if byUri.Some? then byUri else FindById(dir.apps, resource)
  }

  predicate Exposes(app: App, name: string) {
    ScopeDef(name, true) in app.scopes
  }

  // What one requested scope stands for, whatever else is requested.
  datatype Meaning = Plain(name: string) | Target(resource: string, name: string) | Unknown

  function MeaningOf(dir: Directory, sc: string): Meaning {
    if sc in OIDC_SCOPES then Plain(sc)
    else if HasPrefix(sc, dir.graphId + "/") then Plain(TrimPrefix(sc, dir.graphId + "/"))
    else if sc in GRAPH_SCOPES then Plain(sc)
    else if HasPrefix(sc, FABRIC + "/") then Target(FABRIC, TrimPrefix(sc, FABRIC + "/"))
    else if sc in FABRIC_SCOPES then Target(FABRIC, sc)
    else
      var azure := AzureDelegatedResource(sc);
      var slash := LastSlash(sc);
      if azure != "" then Target(AzureAud(azure), if slash.Some? then sc[slash.value + 1..] else sc)
      else if slash.None? then Plain(sc)
      else
        var resource, name := sc[..slash.value], sc[slash.value + 1..];
        var app := FindResourceApp(dir, resource);
        if app.None? || !Exposes(app.value, name) then Unknown else Target(resource, name)
  }

  function ShortName(dir: Directory, sc: string): string {
    match MeaningOf(dir, sc)
    case Plain(name) => name
    case Target(_, name) => name
    case Unknown => ""
  }

  datatype Resolved = Resolved(granted: seq<string>, resource: string, requested: seq<string>)

  function SetResource(current: string, resource: string): Option<string> {
    if current != "" && current != resource then None else Some(resource)
  }

  // The loop, one scope at a time, from the resource it has settled on so far.
  function Settle(dir: Directory, current: string, scopes: seq<string>): Option<string>
    decreases |scopes|
  {
    if scopes == [] then Some(current)
    else
      match MeaningOf(dir, scopes[0])
      case Plain(_) => Settle(dir, current, scopes[1..])
      case Unknown => None
      case Target(resource, _) =>
        var next := SetResource(current, resource);
        if next.None? then None else Settle(dir, next.value, scopes[1..])
  }

  function ShortNames(dir: Directory, scopes: seq<string>): (r: seq<string>)
    ensures |r| == |scopes|
    ensures forall i :: 0 <= i < |r| ==> r[i] == ShortName(dir, scopes[i])
  {
    seq(|scopes|, i requires 0 <= i < |scopes| => ShortName(dir, scopes[i]))
  }

  function Resolution(dir: Directory, scopes: seq<string>): Option<Resolved> {
    var resource := Settle(dir, "", scopes);
    if resource.None? then None else Some(Resolved(ShortNames(dir, scopes), resource.value, scopes))
  }

  method ResolveDelegatedScopes(dir: Directory, scopes: seq<string>) returns (out: Option<Resolved>)
    ensures out == Resolution(dir, scopes)
  {
    hide MeaningOf;
    var granted: seq<string> := [];
    var resource := "";
    for i := 0 to |scopes|
      invariant granted == ShortNames(dir, scopes)[..i]
      invariant Settle(dir, "", scopes) == Settle(dir, resource, scopes[i..])
    {
      var sc := scopes[i];
      assert scopes[i..][0] == sc && scopes[i..][1..] == scopes[i + 1..];
      match MeaningOf(dir, sc) {
        case Plain(name) =>
          granted := granted + [name];
        case Unknown =>
          return None;
        case Target(target, name) =>
          var next := SetResource(resource, target);
          if next.None? {
            return None;
          }
          resource := next.value;
          granted := granted + [name];
      }
    }
    assert granted == ShortNames(dir, scopes);
    out := Some(Resolved(granted, resource, scopes));
  }

  // ---- Order does not matter ----

  // No application can be named by the empty string.
  ghost predicate AppsNamed(dir: Directory) {
    forall a :: a in dir.apps && a.id == "" ==> forall s :: s in a.scopes && s.enabled ==> '/' in s.value
  }

  lemma TargetsAreNamed(dir: Directory, sc: string)
    requires AppsNamed(dir) && MeaningOf(dir, sc).Target?
    ensures MeaningOf(dir, sc).resource != ""
  {
    var slash := LastSlash(sc);
    if slash.Some? && slash.value == 0 {
      assert sc[..0] == "";
    }
  }

  ghost predicate AllResolve(dir: Directory, scopes: seq<string>) {
    forall sc :: sc in scopes ==> !MeaningOf(dir, sc).Unknown?
  }

  ghost predicate OneTarget(dir: Directory, scopes: seq<string>, target: string) {
    forall sc :: sc in scopes && MeaningOf(dir, sc).Target? ==> MeaningOf(dir, sc).resource == target
  }

  lemma {:induction false} SettleMeaning(dir: Directory, current: string, scopes: seq<string>)
    requires AppsNamed(dir)
    ensures Settle(dir, current, scopes).Some? <==>
              AllResolve(dir, scopes) &&
              (if current != "" then OneTarget(dir, scopes, current) else exists t :: OneTarget(dir, scopes, t))
    ensures var r := Settle(dir, current, scopes);
            r.Some? ==>
              OneTarget(dir, scopes, r.value)
              && (current != "" || (forall sc :: sc in scopes ==> !MeaningOf(dir, sc).Target?) ==> r.value == current)
    decreases |scopes|
  {
    hide MeaningOf;
    if scopes == [] {
      assert OneTarget(dir, scopes, current);
    } else {
      var sc, rest := scopes[0], scopes[1..];
      assert scopes == [sc] + rest;
      match MeaningOf(dir, sc)
      case Plain(_) =>
        SettleMeaning(dir, current, rest);
        assert forall t :: OneTarget(dir, scopes, t) <==> OneTarget(dir, rest, t);
      case Unknown =>
        assert sc in scopes;
      case Target(resource, _) =>
        TargetsAreNamed(dir, sc);
        SettleMeaning(dir, resource, rest);
        assert forall t :: OneTarget(dir, scopes, t) <==> t == resource && OneTarget(dir, rest, t) by {
          assert sc in scopes;
        }
    }
  }

  // Resolution succeeds exactly when every scope resolves and all targets are
  // one string; that string is the audience; and each grant is read off its own
  // scope.
  lemma ResolutionMeaning(dir: Directory, scopes: seq<string>)
    requires AppsNamed(dir)
    ensures Resolution(dir, scopes).Some? <==> AllResolve(dir, scopes) && exists t :: OneTarget(dir, scopes, t)
    ensures Resolution(dir, scopes).Some? ==>
              var r := Resolution(dir, scopes).value;
              && OneTarget(dir, scopes, r.resource)
              && ((forall sc :: sc in scopes ==> !MeaningOf(dir, sc).Target?) ==> r.resource == "")
              && |r.granted| == |scopes|
              && forall i :: 0 <= i < |scopes| ==> HasSuffix(scopes[i], r.granted[i])
  {
    hide MeaningOf;
    SettleMeaning(dir, "", scopes);
    if Resolution(dir, scopes).Some? {
      forall i | 0 <= i < |scopes|
        ensures HasSuffix(scopes[i], ShortName(dir, scopes[i]))
      {
        assert scopes[i] in scopes;
        ShortIsSuffix(dir, scopes[i]);
      }
    }
  }

  lemma TrimmedIsSuffix(s: string, p: string)
    ensures HasSuffix(s, TrimPrefix(s, p)) && HasSuffix(s, s)
  {
    if HasPrefix(s, p) {
      assert |s| - |s[|p|..]| == |p|;
    }
  }

  lemma RestIsSuffix(s: string, n: nat)
    requires n <= |s|
    ensures HasSuffix(s, s[n..])
  {
    assert |s| - |s[n..]| == n;
  }

  // Whatever a scope means, its short name is the whole of it, the rest after a
  // prefix, or the rest after its last slash.
  lemma ShortIsSuffix(dir: Directory, sc: string)
    ensures !MeaningOf(dir, sc).Unknown? ==> HasSuffix(sc, ShortName(dir, sc))
  {
    hide HasSuffix, TrimPrefix, AzureAud, AzureDelegatedResource, FindResourceApp, Exposes, LastSlash;
    TrimmedIsSuffix(sc, dir.graphId + "/");
    TrimmedIsSuffix(sc, FABRIC + "/");
    var slash := LastSlash(sc);
    if slash.Some? {
      RestIsSuffix(sc, slash.value + 1);
    }
  }

  predicate SameScopes(a: seq<string>, b: seq<string>) {
    (forall sc :: sc in a ==> sc in b) && (forall sc :: sc in b ==> sc in a)
  }

  // Requests made of the same scopes, in any order and with any repeats, resolve
  // alike and to the same audience.
  lemma OrderDoesNotMatter(dir: Directory, a: seq<string>, b: seq<string>)
    requires AppsNamed(dir) && SameScopes(a, b)
    ensures Resolution(dir, a).Some? <==> Resolution(dir, b).Some?
    ensures Resolution(dir, a).Some? ==> Resolution(dir, a).value.resource == Resolution(dir, b).value.resource
  {
    hide MeaningOf;
    ResolutionMeaning(dir, a);
    ResolutionMeaning(dir, b);
    assert forall t :: OneTarget(dir, a, t) <==> OneTarget(dir, b, t);
    if Resolution(dir, a).Some? {
      if sc :| sc in a && MeaningOf(dir, sc).Target? {
        assert sc in b;
      }
    }
  }

  // The condition is needed: an application with an empty id makes one order
  // succeed and the other fail.
  lemma NamelessAppMakesOrderMatter(dir: Directory, name: string)
    requires dir.graphId != "" && '/' !in name
    requires var app := FindById(dir.apps, ""); app.Some? && Exposes(app.value, name)
    requires dir.graphId[0] != '/'
    ensures !AppsNamed(dir)
    ensures Resolution(dir, ["/" + name, "Item.Read.All"]).Some?
    ensures Resolution(dir, ["Item.Read.All", "/" + name]).None?
  {
    hide MeaningOf;
    var app := FindById(dir.apps, "").value;
    var sc, item := "/" + name, "Item.Read.All";
    assert app in dir.apps && ScopeDef(name, true) in app.scopes;
    NamelessMeaning(dir, name);
    ItemMeaning(dir);
    var a, b := [sc, item], [item, sc];
    assert a[1..] == [item] && b[1..] == [sc] && [item][1..] == [] && [sc][1..] == [];
    assert Settle(dir, "", [item]).Some?;
    assert Settle(dir, FABRIC, [sc]).None?;
  }

  // App ids are a primary key.
  ghost predicate UniqueIds(dir: Directory) {
    forall a, b :: a in dir.apps && b in dir.apps && a.id == b.id ==> a == b
  }

  ghost predicate OrderIrrelevant(dir: Directory) {
    forall a, b :: SameScopes(a, b) ==> SameOutcome(Resolution(dir, a), Resolution(dir, b))
  }

  predicate SameOutcome(a: Option<Resolved>, b: Option<Resolved>) {
    a.Some? == b.Some? && (a.Some? ==> a.value.resource == b.value.resource)
  }

  // Order and repeats are irrelevant to every request exactly when no
  // application with an empty id exposes a scope a request can name.
  lemma OrderIrrelevantIff(dir: Directory)
    requires UniqueIds(dir) && dir.graphId != "" && dir.graphId[0] != '/'
    ensures OrderIrrelevant(dir) <==> AppsNamed(dir)
  {
    hide Resolution, Exposes;
    if AppsNamed(dir) {
      forall a, b | SameScopes(a, b)
        ensures SameOutcome(Resolution(dir, a), Resolution(dir, b))
      {
        OrderDoesNotMatter(dir, a, b);
      }
    } else {
      var name := NamelessScope(dir);
      NamelessAppMakesOrderMatter(dir, name);
      var sc, item := "/" + name, "Item.Read.All";
      assert SameScopes([sc, item], [item, sc]);
    }
  }

  lemma NamelessScope(dir: Directory) returns (name: string)
    requires UniqueIds(dir) && !AppsNamed(dir)
    ensures '/' !in name && FindById(dir.apps, "").Some? && Exposes(FindById(dir.apps, "").value, name)
  {
    var app :| app in dir.apps && app.id == "" && exists s :: s in app.scopes && s.enabled && '/' !in s.value;
    var s :| s in app.scopes && s.enabled && '/' !in s.value;
    assert s == ScopeDef(s.value, true);
    name := s.value;
  }

  lemma NamelessMeaning(dir: Directory, name: string)
    requires dir.graphId != "" && dir.graphId[0] != '/' && '/' !in name
    requires var app := FindById(dir.apps, ""); app.Some? && Exposes(app.value, name)
    ensures MeaningOf(dir, "/" + name) == Target("", name)
  {
    var sc := "/" + name;
    RootedIsNotListed(sc);
    assert forall i :: 0 < i < |sc| ==> sc[i] == name[i - 1];
    var slash := LastSlash(sc).value;
    assert slash == 0 && sc[..0] == "" && sc[1..] == name;
    hide AzureAud, IsListed;
    assert FindByUri(dir.apps, "").None?;
    hide FindByUri, FindById;
    assert AzureDelegatedResource(sc) == "";
  }

  predicate IsListed(dir: Directory, sc: string) {
    || sc in OIDC_SCOPES || HasPrefix(sc, dir.graphId + "/") || sc in GRAPH_SCOPES
    || HasPrefix(sc, FABRIC + "/") || sc in FABRIC_SCOPES
  }

  lemma RootedIsNotListed(sc: string)
    requires sc != "" && sc[0] == '/'
    ensures forall dir: Directory :: dir.graphId != "" && dir.graphId[0] != '/' ==> !IsListed(dir, sc)
  {
    assert forall t :: t in OIDC_SCOPES || t in GRAPH_SCOPES || t in FABRIC_SCOPES ==> t[0] != '/';
    assert FABRIC[0] == 'h';
  }

  lemma NoSlashNoPrefix(s: string, p: string)
    requires '/' !in s
    ensures !HasPrefix(s, p + "/")
  {
    if |p| < |s| {
      assert s[..|p| + 1][|p|] == s[|p|];
    }
  }

  lemma ItemMeaning(dir: Directory)
    requires dir.graphId != ""
    ensures MeaningOf(dir, "Item.Read.All") == Target(FABRIC, "Item.Read.All")
  {
    hide HasPrefix, TrimPrefix, AzureAud, AzureDelegatedResource, FindResourceApp, Exposes, LastSlash;
    var item := "Item.Read.All";
    assert '/' !in item;
    NoSlashNoPrefix(item, dir.graphId);
    NoSlashNoPrefix(item, FABRIC);
  }

  // ---- Narrowing at code exchange ----

  ghost predicate WithinGrant(stored: seq<string>, granted: seq<string>) {
    forall sc :: sc in granted && sc !in {"openid", "profile", "email", "offline_access"} ==> sc in stored
  }

  datatype Exchange = Exchange(scopes: seq<string>, echo: seq<string>)

  // The scopes a code exchange puts in the token: the stored grant, or the
  // client's narrowing of it.
  method NarrowGrant(dir: Directory, stored: seq<string>, raw: seq<string>) returns (r: Option<Exchange>)
    ensures r.Some? <==>
              raw == [] || (Resolution(dir, raw).Some? && WithinGrant(stored, Resolution(dir, raw).value.granted))
    ensures r.Some? ==> r.value == if raw == [] then Exchange(stored, stored)
                                   else Exchange(Resolution(dir, raw).value.granted, raw)
    ensures r.Some? ==> WithinGrant(stored, r.value.scopes)
  {
    hide Settle;
    var grantScopes, echo := stored, stored;
    if |raw| > 0 {
      var resolved := ResolveDelegatedScopes(dir, raw);
      if resolved.None? {
        return None;
      }
      var granted := resolved.value.granted;
      for i := 0 to |granted|
        invariant forall j :: 0 <= j < i && granted[j] !in OIDC_SCOPES ==> granted[j] in stored
      {
        if granted[i] in OIDC_SCOPES {
          continue;
        }
        if granted[i] !in stored {
          return None;
        }
      }
      grantScopes, echo := granted, raw;
    }
    r := Some(Exchange(grantScopes, echo));
  }

  // A client that repeats any of the scopes it was authorized for, written as it
  // wrote them then, is never refused.
  lemma RepeatedScopesPass(dir: Directory, original: seq<string>, raw: seq<string>)
    requires AppsNamed(dir) && Resolution(dir, original).Some?
    requires forall sc :: sc in raw ==> sc in original
    ensures Resolution(dir, raw).Some?
    ensures WithinGrant(Resolution(dir, original).value.granted, Resolution(dir, raw).value.granted)
  {
    hide MeaningOf;
    ResolutionMeaning(dir, original);
    ResolutionMeaning(dir, raw);
    var target := Resolution(dir, original).value.resource;
    assert OneTarget(dir, raw, target);
    var stored, granted := Resolution(dir, original).value.granted, Resolution(dir, raw).value.granted;
    forall sc | sc in granted
      ensures sc in stored
    {
      var i :| 0 <= i < |granted| && granted[i] == sc;
      assert raw[i] in original;
      var j :| 0 <= j < |original| && original[j] == raw[i];
      assert stored[j] == sc;
    }
  }
}
