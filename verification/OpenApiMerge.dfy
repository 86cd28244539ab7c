/** `merge_openapi_documents`: paths made public, schemas renamed apart, tags listed once. */
module OpenApiMerge {
  import opened Json
  import opened OpenApi
  import opened Ordering
  import opened PluginPaths

  type Fields = map<string, Json>

  /** A service's document: its path items in order, its schemas, its tags. */
  datatype Document = Document(paths: seq<(string, Fields)>, schemas: Schemas, tags: seq<Fields>)

  datatype MergedDocument = MergedDocument(paths: map<string, Json>, schemas: Schemas, tags: seq<Fields>)

  type Service = (string, Document)

  const METHODS := {"get", "post", "put", "patch", "delete", "head", "options"}

  // ---------------------------------------------------------------- paths

  function StripLeft(s: string): string { if s != "" && s[0] == '/' then StripLeft(s[1..]) else s }

  function StripRight(s: string): string {
    if s != "" && s[|s| - 1] == '/' then StripRight(s[..|s| - 1]) else s
  }

  function Slug(path: string): string {
    var stripped := StripRight(StripLeft(path));
    if stripped == "" then "path"
    else seq(|stripped|, i requires 0 <= i < |stripped| => if stripped[i] in {'/', '-'} then '_' else stripped[i])
  }

  function WithOperationIds(path: string, item: Json): Json {
    if item.Obj? then
      Obj(map m | m in item.fields ::
        if m in METHODS && item.fields[m].Obj?
        then Obj(item.fields[m].fields["operationId" := Str(Slug(path) + "_" + m)])
        else item.fields[m])
    else item
  }

  /** The path items with their references rewritten. */
  function RewrittenItems(paths: seq<(string, Fields)>, service: string): seq<(string, Json)> {
    seq(|paths|, i requires 0 <= i < |paths| => (paths[i].0, RewriteRefs(Obj(paths[i].1), service)))
  }

  function PublicItems(s: Service): map<string, Json> {
    var items := Rewritten(RewrittenItems(s.1.paths, s.0), s.0);
    map p | p in items :: WithOperationIds(p, items[p])
  }

  // ---------------------------------------------------------------- schemas

  function NameOf(service: string, key: string): string
    requires |key| > |service|
  {
    key[|service| + 1..]
  }

  function Copies(own: Schemas, service: string): Schemas {
    var keys := set name | name in own :: SchemaKey(service, name);
    assert forall key :: key in keys ==> |key| > |service| && NameOf(service, key) in own by {
      forall key | key in keys ensures |key| > |service| && NameOf(service, key) in own {
        var name :| name in own && SchemaKey(service, name) == key;
        assert NameOf(service, key) == name;
      }
    }
    map key | key in keys :: RewriteRefs(own[NameOf(service, key)], service)
  }

  predicate IsKeyOf(key: string, service: string) {
    |key| > |service| && key == SchemaKey(service, NameOf(service, key))
  }

  lemma CopiesMember(own: Schemas, service: string, key: string)
    ensures key in Copies(own, service) <==> IsKeyOf(key, service) && NameOf(service, key) in own
    ensures key in Copies(own, service) ==>
              Copies(own, service)[key] == RewriteRefs(own[NameOf(service, key)], service)
  {
  }

  lemma KeyNamesBack(service: string, name: string)
    ensures IsKeyOf(SchemaKey(service, name), service) && NameOf(service, SchemaKey(service, name)) == name
  {
  }

  lemma CopiesHold(own: Schemas, service: string)
    ensures HoldsCopies(Copies(own, service), own, service)
  {
  }

  // ---------------------------------------------------------------- tags

  function Names(tags: seq<Fields>): set<string> {
    set i | 0 <= i < |tags| && "name" in tags[i] && tags[i]["name"].Str? :: tags[i]["name"].s
  }

  predicate IsNewTag(tag: Fields, seen: seq<Fields>) {
    "name" in tag && tag["name"].Str? && tag["name"].s !in Names(seen)
  }

  function AddTags(seen: seq<Fields>, tags: seq<Fields>): seq<Fields> {
    if tags == [] then seen
    else
      var before := AddTags(seen, tags[..|tags| - 1]);
      if IsNewTag(tags[|tags| - 1], before) then before + [tags[|tags| - 1]] else before
  }

  predicate NamedOnce(tags: seq<Fields>) {
    && (forall i :: 0 <= i < |tags| ==> "name" in tags[i] && tags[i]["name"].Str?)
    && (forall i, j :: 0 <= i < j < |tags| ==> tags[i]["name"] != tags[j]["name"])
  }

  lemma NamesGrow(tags: seq<Fields>, tag: Fields)
    requires "name" in tag && tag["name"].Str?
    ensures Names(tags + [tag]) == Names(tags) + {tag["name"].s}
  {
    var all := tags + [tag];
    forall n | n in Names(tags) ensures n in Names(all) {
      var i :| 0 <= i < |tags| && "name" in tags[i] && tags[i]["name"].Str? && tags[i]["name"].s == n;
      assert all[i] == tags[i];
    }
    assert all[|tags|] == tag;
  }

  lemma NamesIgnore(tags: seq<Fields>, tag: Fields)
    requires !("name" in tag && tag["name"].Str?)
    ensures Names(tags + [tag]) == Names(tags)
  {
    var all := tags + [tag];
    forall n | n in Names(tags) ensures n in Names(all) {
      var i :| 0 <= i < |tags| && "name" in tags[i] && tags[i]["name"].Str? && tags[i]["name"].s == n;
      assert all[i] == tags[i];
    }
  }

  /** Every tag name is listed, and none twice; the tags listed before stay first. */
  lemma {:induction false} TagsAreListedOnce(seen: seq<Fields>, tags: seq<Fields>)
    requires NamedOnce(seen)
    ensures NamedOnce(AddTags(seen, tags)) && seen <= AddTags(seen, tags)
    ensures Names(AddTags(seen, tags)) == Names(seen) + Names(tags)
  {
    if tags != [] {
      var rest, last := tags[..|tags| - 1], tags[|tags| - 1];
      assert tags == rest + [last];
      TagsAreListedOnce(seen, rest);
      var before := AddTags(seen, rest);
      if "name" in last && last["name"].Str? {
        NamesGrow(rest, last);
        NamesGrow(before, last);
        forall i | 0 <= i < |before| ensures before[i]["name"].s in Names(before) {}
      } else {
        NamesIgnore(rest, last);
      }
    }
  }

  // ---------------------------------------------------------------- the merge

  function Merge(services: seq<Service>): MergedDocument {
    if services == [] then MergedDocument(map[], map[], [])
    else
      var last := services[|services| - 1];
      var before := Merge(services[..|services| - 1]);
      MergedDocument(before.paths + PublicItems(last), before.schemas + Copies(last.1.schemas, last.0),
                     AddTags(before.tags, last.1.tags))
  }

  method MergePaths(merged: map<string, Json>, s: Service) returns (paths: map<string, Json>)
    ensures paths == merged + PublicItems(s)
  {
    hide WithOperationIds, RewrittenItems, Rewritten;
    var items := ToPublicOpenApiPaths(RewrittenItems(s.1.paths, s.0), s.0);
    paths := merged;
    var todo := items.Keys;
    while todo != {}
      invariant todo <= items.Keys
      invariant paths == merged + (map p | p in items && p !in todo :: WithOperationIds(p, items[p]))
    {
      var path :| path in todo;
      paths := paths[path := WithOperationIds(path, items[path])];
      todo := todo - {path};
    }
    assert PublicItems(s) == map p | p in items && p !in todo :: WithOperationIds(p, items[p]);
  }

  method MergeSchemas(merged: Schemas, s: Service) returns (schemas: Schemas)
    ensures schemas == merged + Copies(s.1.schemas, s.0)
  {
    hide Copies, RewriteRefs, SchemaKey;
    schemas := merged;
    var own := s.1.schemas;
    var todo := own.Keys;
    ghost var done: Schemas := map[];
    CopiesOfNone(s.0);
    while todo != {}
      invariant todo <= own.Keys
      invariant done == map n | n in own && n !in todo :: own[n]
      invariant schemas == merged + Copies(done, s.0)
    {
      var name :| name in todo;
      CopiesGrow(done, name, own[name], s.0);
      done := done[name := own[name]];
      schemas := schemas[SchemaKey(s.0, name) := RewriteRefs(own[name], s.0)];
      todo := todo - {name};
    }
    assert done == own;
  }

  lemma CopiesOfNone(service: string)
    ensures Copies(map[], service) == map[]
  {
  }

  lemma CopiesGrow(own: Schemas, name: string, schema: Json, service: string)
    ensures Copies(own[name := schema], service) ==
            Copies(own, service)[SchemaKey(service, name) := RewriteRefs(schema, service)]
  {
    hide Copies, RewriteRefs, SchemaKey;
    KeyNamesBack(service, name);
    var after := Copies(own[name := schema], service);
    var grown := Copies(own, service)[SchemaKey(service, name) := RewriteRefs(schema, service)];
    forall key ensures (key in after <==> key in grown) && (key in after ==> after[key] == grown[key]) {
      CopiesMember(own, service, key);
      CopiesMember(own[name := schema], service, key);
    }
  }

  method MergeTags(merged: seq<Fields>, tags: seq<Fields>) returns (all: seq<Fields>)
    ensures all == AddTags(merged, tags)
  {
    all := merged;
    var seen := Names(merged);
    for i := 0 to |tags|
      invariant all == AddTags(merged, tags[..i])
      invariant seen == Names(all)
    {
      var tag := tags[i];
      assert tags[..i + 1][..i] == tags[..i];
      if "name" in tag && tag["name"].Str? && tag["name"].s !in seen {
        NamesGrow(all, tag);
        all := all + [tag];
        seen := seen + {tag["name"].s};
      }
    }
    assert tags[..|tags|] == tags;
  }

  /** `sorted` over the names */
  function NameList(documents: map<string, Document>): (names: seq<string>)
    ensures Increasing(names, StringLe)
    ensures forall name :: name in names <==> name in documents
  {
    StringOrder();
    Sorted(documents.Keys, StringLe)
  }

  /** The services in name order. */
  function InOrder(documents: map<string, Document>): seq<Service> {
    var names := NameList(documents);
    seq(|names|, i requires 0 <= i < |names| => assert names[i] in names; (names[i], documents[names[i]]))
  }

  /** Every document is merged, and once, in the order of the names. */
  lemma InOrderListsAll(documents: map<string, Document>)
    ensures var services := InOrder(documents);
            && (forall k :: 0 <= k < |services| ==>
                  services[k].0 in documents && services[k].1 == documents[services[k].0])
            && (forall name :: name in documents ==> exists k :: 0 <= k < |services| && services[k].0 == name)
            && (forall j, k :: 0 <= j < k < |services| ==>
                  services[j].0 != services[k].0 && StringLe(services[j].0, services[k].0))
  {
    hide NameList, StringLe;
    var names := NameList(documents);
    var services := InOrder(documents);
    assert forall k :: 0 <= k < |services| ==> services[k].0 == names[k];
    forall k | 0 <= k < |names| ensures names[k] in documents { assert names[k] in names; }
    forall name | name in documents ensures exists k :: 0 <= k < |services| && services[k].0 == name {
      var k :| 0 <= k < |names| && names[k] == name;
      assert services[k].0 == name;
    }
  }

  /** The document that is returned: empty components and tags are left out. */
  function Publish(m: MergedDocument): Json {
    var always := map[
      "openapi" := Str("3.1.0"),
      "info" := Obj(map["title" := Str("Process Manager Gateway"), "version" := Str("1.0.0")]),
      "paths" := Obj(m.paths)];
    var withSchemas := if m.schemas == map[] then always
                       else always["components" := Obj(map["schemas" := Obj(m.schemas)])];
    Obj(if m.tags == [] then withSchemas
        else withSchemas["tags" := Arr(seq(|m.tags|, i requires 0 <= i < |m.tags| => Obj(m.tags[i])))])
  }

  method MergeOpenApiDocuments(documents: map<string, Document>) returns (merged: Json)
    ensures merged == Publish(Merge(InOrder(documents)))
  {
    hide InOrder, PublicItems, Copies, AddTags, Publish;
    var services := InOrder(documents);
    var paths, schemas, tags := map[], map[], [];
    for i := 0 to |services|
      invariant MergedDocument(paths, schemas, tags) == Merge(services[..i])
    {
      assert services[..i + 1][..i] == services[..i];
      paths := MergePaths(paths, services[i]);
      schemas := MergeSchemas(schemas, services[i]);
      tags := MergeTags(tags, services[i].1.tags);
    }
    assert services[..|services|] == services;
    return Publish(MergedDocument(paths, schemas, tags));
  }
}
