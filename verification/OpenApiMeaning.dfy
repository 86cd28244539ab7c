/** What the references of a merged OpenAPI document mean (OpenAPI Specification 3.1.0,
    section 4.8.23: a reference is a URI that must resolve). */
module OpenApiMeaning {
  import opened Wrappers
  import opened Json
  import opened OpenApi
  import opened OpenApiMerge
  import opened PluginPaths

  // ---------------------------------------------------------------- what is in the merged document

  /** A reference of one service's document. */
  ghost predicate RefOf(doc: Document, ref: string) {
    || (exists i :: 0 <= i < |doc.paths| && ref in Refs(Obj(doc.paths[i].1)))
    || (exists name :: name in doc.schemas && ref in Refs(doc.schemas[name]))
  }

  /** A reference of the merged document. */
  ghost predicate RefOfMerged(doc: MergedDocument, ref: string) {
    || (exists p :: p in doc.paths && ref in Refs(doc.paths[p]))
    || (exists name :: name in doc.schemas && ref in Refs(doc.schemas[name]))
  }

  lemma OperationIdsAddNoRefs(path: string, item: Json, ref: string)
    requires ref in Refs(WithOperationIds(path, item))
    ensures ref in Refs(item)
  {
    if item.Obj? {
      var after := WithOperationIds(path, item).fields;
      if !("$ref" in after && after["$ref"].Str? && ref == after["$ref"].s) {
        var m :| m in after && ref in Refs(after[m]);
        if m in METHODS && item.fields[m].Obj? {
          var operation := item.fields[m].fields;
          var named := after[m].fields;
          if !("$ref" in named && named["$ref"].Str? && ref == named["$ref"].s) {
            var k :| k in named && ref in Refs(named[k]);
            assert k in operation && named[k] == operation[k];
          }
          assert ref in Refs(item.fields[m]);
        }
      }
    }
  }

  lemma PathRefOrigin(s: Service, path: string, ref: string) returns (original: string)
    requires path in PublicItems(s) && ref in Refs(PublicItems(s)[path])
    ensures RefOf(s.1, original) && ref == RewriteRef(original, s.0)
  {
    var items := RewrittenItems(s.1.paths, s.0);
    OperationIdsAddNoRefs(path, Rewritten(items, s.0)[path], ref);
    var i := LastItemWins(items, s.0, path);
    original := RefsAreRewritten(Obj(s.1.paths[i].1), s.0, ref);
  }

  /** A reference of the merged document is a rewritten reference of one of the services. */
  lemma {:induction false} MergedRefOrigin(services: seq<Service>, ref: string) returns (k: nat, original: string)
    requires RefOfMerged(Merge(services), ref)
    ensures k < |services| && RefOf(services[k].1, original) && ref == RewriteRef(original, services[k].0)
  {
    var n := |services| - 1;
    var before := Merge(services[..n]);
    var last := services[n];
    if RefOfMerged(before, ref) {
      k, original := MergedRefOrigin(services[..n], ref);
    } else {
      k := n;
      if p :| p in Merge(services).paths && ref in Refs(Merge(services).paths[p]) {
        original := PathRefOrigin(last, p, ref);
      } else {
        var name :| name in Merge(services).schemas && ref in Refs(Merge(services).schemas[name]);
        var copies := Copies(last.1.schemas, last.0);
        CopiesMember(last.1.schemas, last.0, name);
        var own := NameOf(last.0, name);
        original := RefsAreRewritten(last.1.schemas[own], last.0, ref);
      }
    }
  }

  lemma {:induction false} KeysAreKept(services: seq<Service>, k: nat, name: string)
    requires k < |services| && name in services[k].1.schemas
    ensures SchemaKey(services[k].0, name) in Merge(services).schemas
  {
    var n := |services| - 1;
    if k == n {
      CopiesHold(services[n].1.schemas, services[n].0);
    } else {
      KeysAreKept(services[..n], k, name);
    }
  }

  // ---------------------------------------------------------------- every reference resolves

  /** Every whole-schema reference of the document resolves in it. */
  ghost predicate SelfContained(doc: Document) {
    forall ref :: RefOf(doc, ref) && Whole(ref) ==> Resolve(ref, doc.schemas).Some?
  }

  lemma WholeBeforeRewriting(ref: string, service: string)
    requires Plain(service) && Whole(RewriteRef(ref, service))
    ensures Whole(ref) && Literal(ref)
  {
    if Literal(ref) { RewrittenPath(ref, service); }
  }

  /** When every service's whole-schema references resolve in its own document, every
      whole-schema reference of the merged document resolves, clashes or not. */
  lemma MergedRefsResolve(services: seq<Service>, ref: string)
    requires forall k :: 0 <= k < |services| ==> Plain(services[k].0) && SelfContained(services[k].1)
    requires RefOfMerged(Merge(services), ref) && Whole(ref)
    ensures Resolve(ref, Merge(services).schemas).Some?
  {
    hide Merge;
    var k, original := MergedRefOrigin(services, ref);
    WholeBeforeRewriting(original, services[k].0);
    RewrittenPath(original, services[k].0);
    KeysAreKept(services, k, NamedSchema(original).value);
  }

  // ---------------------------------------------------------------- and keeps its meaning

  /** The new keys of two services can clash. */
  predicate Confusable(s: string, t: string) { s + "_" <= t || t + "_" <= s }

  /** Two services have schema names that are given the same key exactly when one service
      name, followed by an underscore, begins the other. */
  lemma KeysClashIff(s: string, t: string)
    requires s != t
    ensures (exists n, m :: SchemaKey(s, n) == SchemaKey(t, m)) <==> Confusable(s, t)
  {
    if s + "_" <= t {
      ClashingNames(s, t, "");
    } else if t + "_" <= s {
      ClashingNames(t, s, "");
    } else {
      forall n, m ensures SchemaKey(s, n) != SchemaKey(t, m) {
        if SchemaKey(s, n) == SchemaKey(t, m) {
          if |s| <= |t| { SameKeyNests(s, t, n, m); } else { SameKeyNests(t, s, m, n); }
        }
      }
    }
  }

  lemma SameKeyNests(s: string, t: string, n: string, m: string)
    requires |s| <= |t| && SchemaKey(s, n) == SchemaKey(t, m)
    ensures s == t || s + "_" <= t
  {
    var key := SchemaKey(s, n);
    assert key[..|s|] == s && key[..|t|] == t;
    if |s| < |t| {
      assert t[..|s|] == s && t[|s|] == key[|s|] == '_';
      assert t[..|s| + 1] == s + "_";
    }
  }

  lemma ClashingNames(s: string, t: string, m: string)
    requires s + "_" <= t
    ensures SchemaKey(s, t[|s| + 1..] + "_" + m) == SchemaKey(t, m)
  {
  }

  /** No two services' schemas are given the same key. */
  ghost predicate NoSharedKey(services: seq<Service>) {
    forall j, k, n, m ::
      0 <= j < k < |services| && n in services[j].1.schemas && m in services[k].1.schemas ==>
      SchemaKey(services[j].0, n) != SchemaKey(services[k].0, m)
  }

  /** A key given to several schemas is given to equal copies. */
  ghost predicate SharedKeysAgree(services: seq<Service>) {
    forall j, k, n, m ::
      0 <= j < |services| && 0 <= k < |services| && n in services[j].1.schemas && m in services[k].1.schemas &&
      SchemaKey(services[j].0, n) == SchemaKey(services[k].0, m) ==>
      RewriteRefs(services[j].1.schemas[n], services[j].0) == RewriteRefs(services[k].1.schemas[m], services[k].0)
  }

  ghost predicate AllCopiesHeld(services: seq<Service>) {
    forall k :: 0 <= k < |services| ==> HoldsCopies(Merge(services).schemas, services[k].1.schemas, services[k].0)
  }

  /** A schema of the merged document is the copy of some service's. */
  lemma {:induction false} MergedSchemaOrigin(services: seq<Service>, key: string) returns (k: nat, name: string)
    requires key in Merge(services).schemas
    ensures k < |services| && name in services[k].1.schemas && SchemaKey(services[k].0, name) == key
    ensures Merge(services).schemas[key] == RewriteRefs(services[k].1.schemas[name], services[k].0)
  {
    hide RewriteRefs, PublicItems, AddTags;
    var n := |services| - 1;
    var last := services[n];
    CopiesMember(last.1.schemas, last.0, key);
    if key in Copies(last.1.schemas, last.0) {
      k, name := n, NameOf(last.0, key);
    } else {
      k, name := MergedSchemaOrigin(services[..n], key);
    }
  }

  /** The merged document holds the copy of every schema of every service exactly when no key is
      shared by different copies. */
  lemma AllCopiesHeldIff(services: seq<Service>)
    ensures AllCopiesHeld(services) <==> SharedKeysAgree(services)
  {
    hide Merge, RewriteRefs, SchemaKey;
    if SharedKeysAgree(services) {
      forall k, name | 0 <= k < |services| && name in services[k].1.schemas
        ensures var key := SchemaKey(services[k].0, name);
                key in Merge(services).schemas &&
                Merge(services).schemas[key] == RewriteRefs(services[k].1.schemas[name], services[k].0)
      {
        KeysAreKept(services, k, name);
        var j, n := MergedSchemaOrigin(services, SchemaKey(services[k].0, name));
      }
    }
  }

  lemma DisjointKeysAgree(services: seq<Service>)
    requires NoSharedKey(services)
    ensures SharedKeysAgree(services)
  {
    hide RewriteRefs;
    forall j, k, n, m |
      0 <= j < |services| && 0 <= k < |services| && n in services[j].1.schemas && m in services[k].1.schemas &&
      SchemaKey(services[j].0, n) == SchemaKey(services[k].0, m)
      ensures j == k && n == m
    {
      if j == k {
        KeyNamesBack(services[k].0, n);
        KeyNamesBack(services[k].0, m);
      }
    }
  }

  ghost predicate Separate(services: seq<Service>) {
    forall j, k :: 0 <= j < k < |services| ==>
      services[j].0 != services[k].0 && !Confusable(services[j].0, services[k].0)
  }

  /** The names alone can rule clashes out, whatever schemas the documents hold. */
  lemma SeparateNamesShareNoKey(services: seq<Service>)
    requires Separate(services)
    ensures NoSharedKey(services)
  {
    forall j, k, n, m |
      0 <= j < k < |services| && n in services[j].1.schemas && m in services[k].1.schemas
      ensures SchemaKey(services[j].0, n) != SchemaKey(services[k].0, m)
    {
      KeysClashIff(services[j].0, services[k].0);
    }
  }

  /** When joined names do not clash, or only equal copies share one, every reference of every
      service that resolves in its own document, to a schema or into one, resolves in the merged
      document to the rewritten copy of what it named. */
  lemma MergedRefsKeepMeaning(services: seq<Service>, k: nat, ref: string)
    requires NoSharedKey(services) || SharedKeysAgree(services)
    requires k < |services| && Plain(services[k].0) && Literal(ref)
    requires Resolve(ref, services[k].1.schemas).Some?
    ensures KeepsMeaning(services, k, ref)
    ensures Whole(ref) ==>
              Resolve(RewriteRef(ref, services[k].0), Merge(services).schemas) ==
              Some(RewriteRefs(Resolve(ref, services[k].1.schemas).value, services[k].0))
  {
    if NoSharedKey(services) { DisjointKeysAgree(services); }
    AllCopiesHeldIff(services);
    RewrittenRefKeepsMeaning(ref, services[k].0, services[k].1.schemas, Merge(services).schemas);
  }

  /** A resolving reference leads, once merged, to the copy of what it named. */
  ghost predicate KeepsMeaning(services: seq<Service>, k: nat, ref: string)
    requires k < |services| && Resolve(ref, services[k].1.schemas).Some?
  {
    var v := Resolve(RewriteRef(ref, services[k].0), Merge(services).schemas);
    v.Some? && IsCopy(Resolve(ref, services[k].1.schemas).value, v.value, services[k].0)
  }

  lemma PublicItemsApart(s: Service, t: Service, path: string)
    requires '/' !in s.0 && '/' !in t.0 && s.0 != t.0 && path in PublicItems(s)
    ensures path !in PublicItems(t)
  {
    hide Public;
    if path in PublicItems(t) {
      var i := LastItemWins(RewrittenItems(s.1.paths, s.0), s.0, path);
      var j := LastItemWins(RewrittenItems(t.1.paths, t.0), t.0, path);
      SlashFreeNamesNeverOverlap(s.0, t.0, s.1.paths[i].0, t.1.paths[j].0);
      assert false;
    }
  }

  lemma LastPathsWin(services: seq<Service>)
    requires services != []
    ensures Merge(services).paths == Merge(services[..|services| - 1]).paths + PublicItems(services[|services| - 1])
  {
  }

  /** Slash-free names also keep every path item of every service. */
  lemma {:induction false} PathsSurvive(services: seq<Service>, k: nat, path: string)
    requires forall i :: 0 <= i < |services| ==> '/' !in services[i].0
    requires forall i, j :: 0 <= i < j < |services| ==> services[i].0 != services[j].0
    requires k < |services| && path in PublicItems(services[k])
    ensures path in Merge(services).paths && Merge(services).paths[path] == PublicItems(services[k])[path]
  {
    hide Merge, PublicItems;
    var n := |services| - 1;
    LastPathsWin(services);
    if k < n {
      PathsSurvive(services[..n], k, path);
      PublicItemsApart(services[k], services[n], path);
    }
  }

  // ---------------------------------------------------------------- what is published

  lemma LastTagsJoin(services: seq<Service>)
    requires services != []
    ensures var n := |services| - 1;
            Merge(services).tags == AddTags(Merge(services[..n]).tags, services[n].1.tags)
  {
    hide PublicItems, Copies, AddTags;
  }

  /** Every tag of the merged document has a name, and no two the same. */
  lemma {:induction false} MergedTagsAreNamedOnce(services: seq<Service>)
    ensures NamedOnce(Merge(services).tags)
  {
    hide AddTags, NamedOnce, Names;
    if services == [] {
      NoTags();
    } else {
      hide Merge;
      MergedTagsAreNamedOnce(services[..|services| - 1]);
      LastTagsJoin(services);
      TagsAreListedOnce(Merge(services[..|services| - 1]).tags, services[|services| - 1].1.tags);
    }
  }

  lemma NoTags()
    ensures Merge([]).tags == [] && NamedOnce([]) && Names([]) == {}
  {
  }

  lemma {:induction false} TagIsKept(services: seq<Service>, k: nat, name: string)
    requires k < |services| && name in Names(services[k].1.tags)
    ensures name in Names(Merge(services).tags)
  {
    hide Merge, AddTags, NamedOnce, Names;
    var n := |services| - 1;
    MergedTagsAreNamedOnce(services[..n]);
    LastTagsJoin(services);
    TagsAreListedOnce(Merge(services[..n]).tags, services[n].1.tags);
    if k < n { TagIsKept(services[..n], k, name); }
  }

  lemma {:induction false} TagOrigin(services: seq<Service>, name: string) returns (k: nat)
    requires name in Names(Merge(services).tags)
    ensures k < |services| && name in Names(services[k].1.tags)
  {
    hide AddTags, NamedOnce, Names;
    NoTags();
    hide Merge;
    var n := |services| - 1;
    MergedTagsAreNamedOnce(services[..n]);
    LastTagsJoin(services);
    TagsAreListedOnce(Merge(services[..n]).tags, services[n].1.tags);
    if name in Names(services[n].1.tags) { k := n; } else { k := TagOrigin(services[..n], name); }
  }

  /** Components are published exactly when some service has a schema. */
  lemma ComponentsArePublishedIff(services: seq<Service>)
    ensures "components" in Publish(Merge(services)).fields <==>
              exists k, name :: 0 <= k < |services| && name in services[k].1.schemas
  {
    hide Merge;
    if k, name :| 0 <= k < |services| && name in services[k].1.schemas {
      KeysAreKept(services, k, name);
    } else if Merge(services).schemas != map[] {
      var key :| key in Merge(services).schemas;
      var k, name := MergedSchemaOrigin(services, key);
    }
  }

  /** Tags are published exactly when some service has a tag with a name. */
  lemma TagsArePublishedIff(services: seq<Service>)
    ensures "tags" in Publish(Merge(services)).fields <==>
              exists k, name :: 0 <= k < |services| && name in Names(services[k].1.tags)
  {
    hide Merge;
    var tags: seq<Fields> := Merge(services).tags;
    MergedTagsAreNamedOnce(services);
    if k, name :| 0 <= k < |services| && name in Names(services[k].1.tags) {
      TagIsKept(services, k, name);
    } else if tags != [] {
      assert tags[0]["name"].s in Names(tags);
      var k := TagOrigin(services, tags[0]["name"].s);
    }
  }

  // ---------------------------------------------------------------- the conditions are needed

  /** Confusable services do lose a schema when their documents hold the clashing names. */
  lemma ClashLosesASchema(s: Service, t: Service, m: string)
    requires s.0 + "_" <= t.0
    requires m in t.1.schemas && t.0[|s.0| + 1..] + "_" + m in s.1.schemas
    requires RewriteRefs(s.1.schemas[t.0[|s.0| + 1..] + "_" + m], s.0) != RewriteRefs(t.1.schemas[m], t.0)
    ensures !AllCopiesHeld([s, t])
  {
    hide RewriteRefs, Merge, SchemaKey;
    var services := [s, t];
    ClashingNames(s.0, t.0, m);
    AllCopiesHeldIff(services);
    assert services[0] == s && services[1] == t;
  }

  /** A merge without a clash in which the service takes part, and the reference resolves in its document. */
  ghost predicate TakesPart(services: seq<Service>, k: nat, service: string, ref: string) {
    && k < |services| && services[k].0 == service && SharedKeysAgree(services)
    && Resolve(ref, services[k].1.schemas).Some?
  }

  ghost predicate AlwaysKept(service: string, ref: string) {
    forall services, k :: TakesPart(services, k, service, ref) ==> KeepsMeaning(services, k, ref)
  }

  lemma MergeOfOne(service: string, own: Schemas)
    ensures var services: seq<Service> := [(service, Document([], own, []))];
            Merge(services).schemas == Copies(own, service) && SharedKeysAgree(services)
  {
    var services: seq<Service> := [(service, Document([], own, []))];
    assert services[..0] == [];
    assert Merge([]).schemas + Copies(own, service) == Copies(own, service);
    assert NoSharedKey(services);
    DisjointKeysAgree(services);
  }

  /** Alone with the schema it names, a reference that is not spelled literally, or whose service
      has an odd name, is lost. */
  lemma LoneRefIsLost(service: string, ref: string, own: Schemas)
    requires Resolve(ref, own).Some? && !(Plain(service) && Literal(ref))
    ensures var name := NamedSchema(ref).value;
            name in own && Resolve(RewriteRef(ref, service), Copies(map[name := own[name]], service)) == None
  {
    hide RewriteRefs;
    var name := NamedSchema(ref).value;
    var lone := map[name := own[name]];
    var key := SchemaKey(service, name);
    forall k | k in Copies(lone, service) ensures k == key { CopiesMember(lone, service, k); }
    if Literal(ref) { OddNameShortens(ref, service); }
  }

  lemma LoneSchemaResolves(ref: string, own: Schemas) returns (name: string)
    requires Resolve(ref, own).Some?
    ensures NamedSchema(ref) == Some(name) && name in own && Resolve(ref, map[name := own[name]]).Some?
  {
    name := NamedSchema(ref).value;
  }

  lemma LoneRefIsNotKept(service: string, ref: string, own: Schemas) returns (services: seq<Service>)
    requires Resolve(ref, own).Some? && !(Plain(service) && Literal(ref))
    ensures TakesPart(services, 0, service, ref) && !KeepsMeaning(services, 0, ref)
  {
    hide SharedKeysAgree, Merge, Resolve, RewriteRef, Copies, SchemaPath;
    var name := LoneSchemaResolves(ref, own);
    var lone := map[name := own[name]];
    services := [(service, Document([], lone, []))];
    MergeOfOne(service, lone);
    LoneRefIsLost(service, ref, own);
  }

  /** A reference that resolves in some document keeps its meaning in all merges without a clash
      exactly when its service's name has no slash, tilde or percent sign and the reference
      spells out `#/components/schemas/`. */
  lemma AlwaysKeptIff(service: string, ref: string, own: Schemas)
    requires Resolve(ref, own).Some?
    ensures AlwaysKept(service, ref) <==> Plain(service) && Literal(ref)
  {
    hide KeepsMeaning, SharedKeysAgree, Resolve;
    if Plain(service) && Literal(ref) {
      forall services, k | TakesPart(services, k, service, ref) ensures KeepsMeaning(services, k, ref) {
        MergedRefsKeepMeaning(services, k, ref);
      }
    } else {
      var services := LoneRefIsNotKept(service, ref, own);
    }
  }
}
