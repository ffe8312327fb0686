/** What each way of writing a scope asks for: protocol scopes, Graph and Fabric
    permissions with and without their resource, Azure resources, and the scopes
    an application exposes. */
module ScopeForms {
  import opened Strings
  import opened Scopes

  predicate Bare(sc: string) { '/' !in sc }

  lemma {:induction false} LastSlashIs(resource: string, name: string)
    requires Bare(name)
    ensures LastSlash(resource + "/" + name) == Some(|resource|)
  {
    var sc := resource + "/" + name;
    if name == "" {
      assert sc[|sc| - 1] == '/';
    } else {
      LastSlashIs(resource, name[..|name| - 1]);
      assert sc[|sc| - 1] == name[|name| - 1];
      assert sc[..|sc| - 1] == resource + "/" + name[..|name| - 1];
    }
  }

  lemma SlashedIsNotBare(a: string, b: string)
    ensures !Bare(a + "/" + b)
  {
    assert (a + "/" + b)[|a|] == '/';
  }

  lemma PrefixIsRead(p: string, name: string)
    ensures HasPrefix(p + "/" + name, p + "/") && TrimPrefix(p + "/" + name, p + "/") == name
  {
    assert p + "/" + name == (p + "/") + name;
  }

  // Without a slash: the protocol's and Graph's scopes are plain, Fabric's are
  // for Fabric, and any other word is plain.
  lemma BareMeaning(dir: Directory, sc: string)
    requires Bare(sc)
    ensures MeaningOf(dir, sc)
            == if sc in {"Fabric.Embed", "Item.Read.All"} then Target("https://api.fabric.microsoft.com", sc)
               else Plain(sc)
  {
    NoSlashNoPrefix(sc, dir.graphId);
    NoSlashNoPrefix(sc, FABRIC);
    assert LastSlash(sc).None?;
    hide HasPrefix, FindResourceApp, Exposes, AzureAud;
  }

  // Under Graph's own id a scope is plain and loses the prefix, and under
  // Fabric's address it is for Fabric.
  lemma PrefixedMeaning(dir: Directory, name: string)
    ensures MeaningOf(dir, dir.graphId + "/" + name) == Plain(name)
    ensures var sc := "https://api.fabric.microsoft.com/" + name;
            !HasPrefix(sc, dir.graphId + "/")
            ==> MeaningOf(dir, sc) == Target("https://api.fabric.microsoft.com", name)
  {
    SlashedIsNotBare(dir.graphId, name);
    PrefixIsRead(dir.graphId, name);
    SlashedIsNotBare(FABRIC, name);
    PrefixIsRead(FABRIC, name);
    var sc := "https://api.fabric.microsoft.com/" + name;
    assert sc == FABRIC + "/" + name;
    ListedAreBare();
    hide HasPrefix, TrimPrefix, FindResourceApp, Exposes, AzureAud, AzureDelegatedResource, LastSlash;
  }

  lemma ListedAreBare()
    ensures forall sc :: sc in OIDC_SCOPES || sc in GRAPH_SCOPES || sc in FABRIC_SCOPES ==> Bare(sc)
  {}

  // The audience of an Azure resource; the old management address is the new
  // one's, and a trailing slash is kept.
  function Azure(resource: string): string {
    if resource == "https://vault.azure.net" then "https://vault.azure.net"
    else if resource == "https://storage.azure.com" then "https://storage.azure.com"
    else if resource == "https://management.azure.com" then "https://management.azure.com"
    else if resource == "https://management.core.windows.net" then "https://management.azure.com"
    else if resource == "https://cognitiveservices.azure.com" then "https://cognitiveservices.azure.com"
    else ""
  }

  lemma InAzure(resource: string)
    ensures resource in AZURE_RESOURCES <==> Azure(resource) != ""
    ensures resource in AZURE_RESOURCES ==> AZURE_RESOURCES[resource] == Azure(resource)
  {}

  lemma AzureAudIs(resource: string)
    ensures AzureAud(resource) == if Azure(resource) != "" then Azure(resource)
                                  else if HasSuffix(resource, "/") && Azure(resource[..|resource| - 1]) != ""
                                  then Azure(resource[..|resource| - 1]) + "/" else ""
  {
    hide Azure;
    InAzure(resource);
    if HasSuffix(resource, "/") {
      InAzure(resource[..|resource| - 1]);
    }
  }

  // Neither listed above nor an Azure resource's.
  predicate Elsewhere(dir: Directory, resource: string) {
    !HasPrefix(resource + "/", dir.graphId + "/") && !HasPrefix(resource + "/", FABRIC + "/")
    && AzureAud(resource) == ""
  }

  lemma ElsewhereIsUnlisted(dir: Directory, resource: string, name: string)
    requires Bare(name) && Elsewhere(dir, resource) && resource != ""
    ensures !HasPrefix(resource + "/" + name, dir.graphId + "/") && !HasPrefix(resource + "/" + name, FABRIC + "/")
    ensures AzureDelegatedResource(resource + "/" + name) == ""
  {
    PrefixStops(resource, name, dir.graphId);
    PrefixStops(resource, name, FABRIC);
    LastSlashIs(resource, name);
    assert (resource + "/" + name)[..|resource|] == resource;
  }

  lemma PrefixStops(resource: string, name: string, p: string)
    requires Bare(name) && !HasPrefix(resource + "/", p + "/")
    ensures !HasPrefix(resource + "/" + name, p + "/")
  {
    var sc := resource + "/" + name;
    if |p| > |resource| && |p| < |sc| {
      assert name[|p| - |resource| - 1] == sc[|p|];
    } else if |p| <= |resource| {
      assert (resource + "/")[..|p| + 1] == sc[..|p| + 1];
    }
  }

  lemma FabricIsNotAzure(resource: string, name: string)
    requires Bare(name) && AzureAud(resource) != ""
    ensures !HasPrefix(resource + "/" + name, FABRIC + "/")
  {
    AzureHosts(resource);
    assert (FABRIC + "/")[8] == 'a';
    assert (resource + "/" + name)[8] == resource[8];
  }

  lemma AzureHosts(resource: string)
    requires AzureAud(resource) != ""
    ensures |resource| >= 23 && resource[8] != 'a'
  {
    AzureAudIs(resource);
    hide AzureAud, Azure;
    if Azure(resource) != "" {
      AzureHost(resource);
    } else {
      AzureHost(resource[..|resource| - 1]);
    }
  }

  lemma AzureHost(resource: string)
    requires Azure(resource) != ""
    ensures |resource| >= 23 && resource[8] != 'a'
  {}

  lemma AzureDelegatedIs(resource: string, name: string)
    requires Bare(name) && AzureAud(resource) != "" && resource != ""
    ensures AzureDelegatedResource(resource + "/" + name) == resource
  {
    LastSlashIs(resource, name);
    assert (resource + "/" + name)[..|resource|] == resource;
    hide AzureAud, LastSlash;
  }

  // Azure: the target is the resource's audience and the name follows the last
  // slash.
  lemma AzureMeaning(dir: Directory, resource: string, name: string)
    requires Bare(name) && AzureAud(resource) != "" && resource != ""
    requires !HasPrefix(resource + "/" + name, dir.graphId + "/")
    ensures MeaningOf(dir, resource + "/" + name) == Target(AzureAud(resource), name)
  {
    hide HasPrefix, TrimPrefix, AzureAud, AzureDelegatedResource, FindResourceApp, Exposes, LastSlash, Bare;
    var sc := resource + "/" + name;
    LastSlashIs(resource, name);
    SlashedIsNotBare(resource, name);
    ListedAreBare();
    FabricIsNotAzure(resource, name);
    AzureDelegatedIs(resource, name);
    assert sc[|resource| + 1..] == name;
  }

  // ---- Applications ----

  // The application a resource names: by its URI, or by its id if no URI is the
  // resource.
  ghost predicate Names(dir: Directory, resource: string, app: App) {
    && app in dir.apps
    && (|| (app.idUri == resource && forall b :: b in dir.apps && b.idUri == resource ==> b == app)
        || ((forall b :: b in dir.apps ==> b.idUri != resource)
            && app.id == resource && forall b :: b in dir.apps && b.id == resource ==> b == app))
  }

  lemma {:induction false} FindByUriIs(apps: seq<App>, uri: string)
    requires uri != ""
    ensures FindByUri(apps, uri).None? ==> forall a :: a in apps ==> a.idUri != uri
  {
    if apps != [] && apps[0].idUri != uri {
      FindByUriIs(apps[1..], uri);
      assert apps == [apps[0]] + apps[1..];
    }
  }

  // A scope of an application is granted exactly when the application exposes it
  // and it is enabled.
  lemma AppMeaning(dir: Directory, app: App, resource: string, name: string)
    requires Bare(name) && resource != "" && Elsewhere(dir, resource) && Names(dir, resource, app)
    ensures MeaningOf(dir, resource + "/" + name)
            == if ScopeDef(name, true) in app.scopes then Target(resource, name) else Unknown
  {
    FindByUriIs(dir.apps, resource);
    assert FindResourceApp(dir, resource) == Some(app);
    UnlistedMeaning(dir, resource, name);
    hide MeaningOf, FindResourceApp;
  }

  // A resource nobody registered has no scopes.
  lemma NobodyMeaning(dir: Directory, resource: string, name: string)
    requires Bare(name) && resource != "" && Elsewhere(dir, resource)
    requires forall b :: b in dir.apps ==> b.idUri != resource && b.id != resource
    ensures MeaningOf(dir, resource + "/" + name) == Unknown
  {
    assert FindByUri(dir.apps, resource).None? && FindById(dir.apps, resource).None?;
    UnlistedMeaning(dir, resource, name);
    hide MeaningOf;
  }

  lemma UnlistedMeaning(dir: Directory, resource: string, name: string)
    requires Bare(name) && resource != "" && Elsewhere(dir, resource)
    ensures var app := FindResourceApp(dir, resource);
            MeaningOf(dir, resource + "/" + name)
            == if app.Some? && ScopeDef(name, true) in app.value.scopes then Target(resource, name) else Unknown
  {
    var sc := resource + "/" + name;
    ElsewhereIsUnlisted(dir, resource, name);
    LastSlashIs(resource, name);
    SlashedIsNotBare(resource, name);
    ListedAreBare();
    assert sc[..|resource|] == resource && sc[|resource| + 1..] == name;
    hide HasPrefix, AzureAud, AzureDelegatedResource, FindResourceApp, LastSlash, Elsewhere;
  }

  // ---- A whole request ----

  // Every grant is the name its scope asks for, in the order asked, and the
  // request is echoed as it was.
  lemma GrantsAreNames(dir: Directory, scopes: seq<string>)
    ensures var r := Resolution(dir, scopes);
            r.Some? ==>
              && r.value.requested == scopes && |r.value.granted| == |scopes|
              && forall i :: 0 <= i < |scopes| ==>
                   match MeaningOf(dir, scopes[i])
                   case Plain(name) => r.value.granted[i] == name
                   case Target(_, name) => r.value.granted[i] == name
                   case Unknown => true
  {
    hide MeaningOf, Settle;
  }
}
