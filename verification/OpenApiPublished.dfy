/** The document the gateway returns, said of the services' own documents: its paths and what
    stands under each, its schemas, its tags. */
module OpenApiPublished {
  import opened Wrappers
  import opened Json
  import opened OpenApi
  import opened OpenApiMerge
  import opened OpenApiMeaning
  import opened PluginPaths

  // ---------------------------------------------------------------- copies

  /** A reference to a schema of the service gets the service's name in front of the schema's. */
  predicate RefMoved(before: string, after: string, service: string) {
    if "#/components/schemas/" <= before
    then after == "#/components/schemas/" + service + "_" + before[|"#/components/schemas/"|..]
    else after == before
  }

  /** `after` is `before` with its references moved, and everything else as it was. */
  ghost predicate Moved(before: Json, after: Json, service: string)
    decreases before, 0
  {
    match before
    case Obj(fields) =>
      && after.Obj? && after.fields.Keys == fields.Keys
      && forall k :: k in fields ==> MemberMoved(k, fields[k], after.fields[k], service)
    case Arr(items) =>
      && after.Arr? && |after.items| == |items|
      && forall i :: 0 <= i < |items| ==> Moved(items[i], after.items[i], service)
    case _ => after == before
  }

  ghost predicate MemberMoved(key: string, before: Json, after: Json, service: string)
    decreases before, 1
  {
    if key == "$ref" && before.Str? then after.Str? && RefMoved(before.s, after.s, service)
    else Moved(before, after, service)
  }

  lemma RefIsMoved(ref: string, service: string)
    ensures RefMoved(ref, RewriteRef(ref, service), service)
  {
    if SCHEMA_PREFIX <= ref {
      var name := ref[|SCHEMA_PREFIX|..];
      assert SCHEMA_PREFIX + (service + "_" + name) == SCHEMA_PREFIX + service + "_" + name;
    }
  }

  lemma {:induction false} RewrittenIsMoved(j: Json, service: string)
    ensures Moved(j, RewriteRefs(j, service), service)
  {
    match j
    case Obj(fields) =>
      var after := RewriteRefs(j, service);
      forall k | k in fields ensures MemberMoved(k, fields[k], after.fields[k], service) {
        if k == "$ref" && fields[k].Str? {
          RefIsMoved(fields[k].s, service);
        } else {
          RewrittenIsMoved(fields[k], service);
        }
      }
    case Arr(items) =>
      forall i | 0 <= i < |items| { RewrittenIsMoved(items[i], service); }
    case _ =>
  }

  // ---------------------------------------------------------------- path items

  predicate IsOperation(m: string, value: Json) {
    m in {"get", "post", "put", "patch", "delete", "head", "options"} && value.Obj?
  }

  /** The path without the slashes at its ends, its other slashes and its dashes made underscores;
      or "path", if it has nothing but slashes. */
  ghost predicate IsSlug(path: string, slug: string) {
    exists i, j :: 0 <= i <= j <= |path| && IsMiddle(path, i, j) &&
      if i == j then slug == "path"
      else |slug| == j - i && forall k :: 0 <= k < j - i ==>
             slug[k] == if path[i + k] == '/' || path[i + k] == '-' then '_' else path[i + k]
  }

  /** Between `i` and `j` stands what stripping slashes leaves. */
  ghost predicate IsMiddle(path: string, i: nat, j: nat)
    requires i <= j <= |path|
  {
    && (forall k :: (0 <= k < i || j <= k < |path|) ==> path[k] == '/')
    && (i < j ==> path[i] != '/' && path[j - 1] != '/')
  }

  lemma {:induction false} LeftCut(s: string) returns (i: nat)
    ensures i <= |s| && StripLeft(s) == s[i..] && (i < |s| ==> s[i] != '/')
    ensures forall k :: 0 <= k < i ==> s[k] == '/'
  {
    i := 0;
    if s != "" && s[0] == '/' {
      var rest := LeftCut(s[1..]);
      i := rest + 1;
    }
  }

  lemma {:induction false} RightCut(s: string) returns (n: nat)
    ensures n <= |s| && StripRight(s) == s[..n] && (n > 0 ==> s[n - 1] != '/')
    ensures forall k :: n <= k < |s| ==> s[k] == '/'
  {
    n := |s|;
    if s != "" && s[|s| - 1] == '/' {
      n := RightCut(s[..|s| - 1]);
      assert s[..|s| - 1][..n] == s[..n];
    }
  }

  lemma SlugIsSlug(path: string)
    ensures IsSlug(path, Slug(path))
  {
    var i := LeftCut(path);
    var n := RightCut(path[i..]);
    var j := i + n;
    assert path[i..][..n] == path[i..j];
    forall k | j <= k < |path| ensures path[k] == '/' { assert path[k] == path[i..][k - i]; }
    if n > 0 { assert path[i..][n - 1] == path[j - 1]; }
    assert IsMiddle(path, i, j);
  }

  /** An operation keeps all its members but for its id, which is made of the path and the method. */
  ghost predicate OperationPublished(path: string, m: string, before: Fields, after: Json, service: string) {
    && after.Obj? && after.fields.Keys == before.Keys + {"operationId"}
    && (exists slug :: IsSlug(path, slug) && after.fields["operationId"] == Str(slug + "_" + m))
    && forall k :: k in before && k != "operationId" ==> MemberMoved(k, before[k], after.fields[k], service)
  }

  ghost predicate ItemPublished(path: string, before: Fields, after: Json, service: string) {
    && after.Obj? && after.fields.Keys == before.Keys
    && forall m :: m in before ==>
         if IsOperation(m, before[m]) then OperationPublished(path, m, before[m].fields, after.fields[m], service)
         else MemberMoved(m, before[m], after.fields[m], service)
  }

  lemma OperationIsPublished(path: string, m: string, before: Fields, moved: Json, service: string)
    requires Moved(Obj(before), moved, service)
    ensures moved.Obj?
    ensures OperationPublished(path, m, before, Obj(moved.fields["operationId" := Str(Slug(path) + "_" + m)]), service)
  {
    SlugIsSlug(path);
    hide Slug, IsSlug;
    assert moved.fields.Keys == before.Keys;
  }

  lemma MemberIsPublished(path: string, m: string, before: Json, moved: Json, service: string)
    requires MemberMoved(m, before, moved, service)
    ensures IsOperation(m, before) ==>
              && moved.Obj?
              && OperationPublished(path, m, before.fields,
                                    Obj(moved.fields["operationId" := Str(Slug(path) + "_" + m)]), service)
    ensures IsOperation(m, before) <==> m in METHODS && moved.Obj?
  {
    hide Slug, OperationPublished;
    if IsOperation(m, before) { OperationIsPublished(path, m, before.fields, moved, service); }
  }

  lemma MovedMember(fields: Fields, after: Json, service: string, m: string)
    requires Moved(Obj(fields), after, service) && m in fields
    ensures after.Obj? && after.fields.Keys == fields.Keys && MemberMoved(m, fields[m], after.fields[m], service)
  {
  }

  lemma MovedObject(fields: Fields, after: Json, service: string)
    requires Moved(Obj(fields), after, service)
    ensures after.Obj? && after.fields.Keys == fields.Keys
  {
  }

  lemma ItemIsPublished(path: string, item: Fields, service: string)
    ensures ItemPublished(path, item, WithOperationIds(path, RewriteRefs(Obj(item), service)), service)
  {
    var moved := RewriteRefs(Obj(item), service);
    RewrittenIsMoved(Obj(item), service);
    MovedObject(item, moved, service);
    hide RewriteRefs, Moved, MemberMoved, Slug, OperationPublished, IsOperation;
    var after := WithOperationIds(path, moved);
    assert after.fields.Keys == item.Keys;
    forall m | m in item
      ensures if IsOperation(m, item[m]) then OperationPublished(path, m, item[m].fields, after.fields[m], service)
              else MemberMoved(m, item[m], after.fields[m], service)
    {
      MovedMember(item, moved, service, m);
      MemberIsPublished(path, m, item[m], moved.fields[m], service);
    }
  }

  /** The `i`-th path of the `k`-th service is given this public path, and no later one is. */
  ghost predicate Wins(services: seq<Service>, k: nat, i: nat, path: string) {
    && k < |services| && i < |services[k].1.paths| && PublicPath(services, k, i) == path
    && (forall j :: i < j < |services[k].1.paths| ==> PublicPath(services, k, j) != path)
    && (forall l, j :: k < l < |services| && 0 <= j < |services[l].1.paths| ==> PublicPath(services, l, j) != path)
  }

  function PublicPath(services: seq<Service>, k: nat, i: nat): string
    requires k < |services| && i < |services[k].1.paths|
  {
    Public(services[k].1.paths[i].0, services[k].0)
  }

  lemma ServiceItem(s: Service, path: string) returns (i: nat)
    requires path in PublicItems(s)
    ensures i < |s.1.paths| && Public(s.1.paths[i].0, s.0) == path
    ensures forall j :: i < j < |s.1.paths| ==> Public(s.1.paths[j].0, s.0) != path
    ensures ItemPublished(path, s.1.paths[i].1, PublicItems(s)[path], s.0)
  {
    hide Public, RewriteRefs, ItemPublished, WithOperationIds;
    var items := RewrittenItems(s.1.paths, s.0);
    i := LastItemWins(items, s.0, path);
    ItemIsPublished(path, s.1.paths[i].1, s.0);
    forall j | i < j < |s.1.paths| ensures Public(s.1.paths[j].0, s.0) != path {
      assert items[j].0 == s.1.paths[j].0;
    }
  }

  lemma ServicePath(s: Service, i: nat)
    requires i < |s.1.paths|
    ensures Public(s.1.paths[i].0, s.0) in PublicItems(s)
  {
    hide Public, WithOperationIds, RewriteRefs;
    RewrittenCovers(RewrittenItems(s.1.paths, s.0), s.0, i);
  }

  /** What stands under a public path is the last item given it, published. */
  lemma {:induction false} PathOrigin(services: seq<Service>, path: string) returns (k: nat, i: nat)
    requires path in Merge(services).paths
    ensures Wins(services, k, i, path)
    ensures ItemPublished(path, services[k].1.paths[i].1, Merge(services).paths[path], services[k].0)
  {
    hide Public, ItemPublished, PublicItems, Copies, AddTags;
    var n := |services| - 1;
    var last := services[n];
    if path in PublicItems(last) {
      k := n;
      i := ServiceItem(last, path);
    } else {
      k, i := PathOrigin(services[..n], path);
      forall l, j | k < l < |services| && 0 <= j < |services[l].1.paths| ensures PublicPath(services, l, j) != path {
        if l == n {
          ServicePath(last, j);
        } else {
          assert PublicPath(services, l, j) == PublicPath(services[..n], l, j);
        }
      }
      assert forall j :: i < j < |services[k].1.paths| ==>
               PublicPath(services, k, j) == PublicPath(services[..n], k, j);
    }
  }

  lemma {:induction false} PathIsPublished(services: seq<Service>, k: nat, i: nat)
    requires k < |services| && i < |services[k].1.paths|
    ensures PublicPath(services, k, i) in Merge(services).paths
  {
    hide Public, PublicItems, Copies, AddTags;
    var n := |services| - 1;
    if k == n { ServicePath(services[n], i); } else { PathIsPublished(services[..n], k, i); }
  }

  // ---------------------------------------------------------------- the references of an item

  /** The item without the ids its operations come with, which are replaced. */
  function Unnamed(item: Fields): Fields {
    map m | m in item :: if IsOperation(m, item[m]) then Obj(item[m].fields - {"operationId"}) else item[m]
  }

  lemma {:induction false} MovedHasRef(before: Json, after: Json, service: string, ref: string) returns (moved: string)
    requires Moved(before, after, service) && ref in Refs(before)
    ensures moved in Refs(after) && RefMoved(ref, moved, service)
    decreases before
  {
    match before
    case Obj(fields) =>
      if "$ref" in fields && fields["$ref"].Str? && ref == fields["$ref"].s {
        assert MemberMoved("$ref", fields["$ref"], after.fields["$ref"], service);
        return after.fields["$ref"].s;
      }
      var k :| k in fields && ref in Refs(fields[k]);
      assert MemberMoved(k, fields[k], after.fields[k], service);
      moved := MovedHasRef(fields[k], after.fields[k], service, ref);
    case Arr(items) =>
      var i :| 0 <= i < |items| && ref in Refs(items[i]);
      moved := MovedHasRef(items[i], after.items[i], service, ref);
      assert moved in Refs(after.items[i]);
  }

  lemma MemberHasRef(m: string, before: Json, after: Json, service: string, ref: string) returns (moved: string)
    requires MemberMoved(m, before, after, service) && ref in Refs(Obj(map[m := before]))
    ensures moved in Refs(Obj(map[m := after])) && RefMoved(ref, moved, service)
  {
    var b, a := Obj(map[m := before]), Obj(map[m := after]);
    assert Moved(b, a, service);
    moved := MovedHasRef(b, a, service, ref);
  }

  lemma RefsOfMember(fields: Fields, k: string, ref: string)
    requires k in fields && ref in Refs(Obj(map[k := fields[k]]))
    ensures ref in Refs(Obj(fields))
  {
    var one := map[k := fields[k]];
    assert Obj(one).fields == one;
    if !("$ref" in one && one["$ref"].Str? && one["$ref"].s == ref) {
      var m :| m in one && ref in Refs(one[m]);
      assert m == k;
    }
  }

  lemma RefIsInMember(fields: Fields, ref: string) returns (k: string)
    requires ref in Refs(Obj(fields))
    ensures k in fields && ref in Refs(Obj(map[k := fields[k]]))
  {
    if "$ref" in fields && fields["$ref"].Str? && fields["$ref"].s == ref {
      k := "$ref";
    } else {
      k :| k in fields && ref in Refs(fields[k]);
      var one := map[k := fields[k]];
      assert k in one && one[k] == fields[k];
    }
  }

  lemma OperationHasRef(path: string, m: string, before: Fields, after: Json, service: string, ref: string)
    returns (moved: string)
    requires OperationPublished(path, m, before, after, service) && ref in Refs(Obj(before - {"operationId"}))
    ensures moved in Refs(after) && RefMoved(ref, moved, service)
  {
    var rest := before - {"operationId"};
    var k := RefIsInMember(rest, ref);
    hide Refs, MemberMoved;
    moved := MemberHasRef(k, before[k], after.fields[k], service, ref);
    RefsOfMember(after.fields, k, moved);
  }

  /** Every reference of an item appears, moved, in what is published of it. */
  lemma ItemHasRef(path: string, item: Fields, after: Json, service: string, ref: string) returns (moved: string)
    requires ItemPublished(path, item, after, service) && ref in Refs(Obj(Unnamed(item)))
    ensures moved in Refs(after) && RefMoved(ref, moved, service)
  {
    var m := RefIsInMember(Unnamed(item), ref);
    hide MemberMoved, OperationPublished;
    if IsOperation(m, item[m]) {
      var rest := Obj(item[m].fields - {"operationId"});
      assert Unnamed(item)[m] == rest && m != "$ref";
      OnlyMember(m, rest, ref);
      moved := OperationHasRef(path, m, item[m].fields, after.fields[m], service, ref);
      InMember(m, after.fields[m], moved);
    } else {
      moved := MemberHasRef(m, item[m], after.fields[m], service, ref);
    }
    RefsOfMember(after.fields, m, moved);
  }

  lemma OnlyMember(m: string, value: Json, ref: string)
    requires m != "$ref" && ref in Refs(Obj(map[m := value]))
    ensures ref in Refs(value)
  {
    var one := map[m := value];
    var k :| k in one && ref in Refs(one[k]);
  }

  lemma InMember(m: string, value: Json, ref: string)
    requires ref in Refs(value)
    ensures ref in Refs(Obj(map[m := value]))
  {
    var one := map[m := value];
    assert m in one && ref in Refs(one[m]);
  }

  // ---------------------------------------------------------------- schemas

  /** The schema `name` of the `k`-th service is given this key. */
  predicate GivenKey(services: seq<Service>, k: nat, name: string, key: string) {
    k < |services| && name in services[k].1.schemas && services[k].0 + "_" + name == key
  }

  /** And no schema of a later service is. */
  ghost predicate SchemaWins(services: seq<Service>, k: nat, name: string, key: string) {
    GivenKey(services, k, name, key) && forall l, n :: k < l ==> !GivenKey(services, l, n, key)
  }

  lemma {:induction false} SchemaOrigin(services: seq<Service>, key: string) returns (k: nat, name: string)
    requires key in Merge(services).schemas
    ensures SchemaWins(services, k, name, key)
    ensures Moved(services[k].1.schemas[name], Merge(services).schemas[key], services[k].0)
  {
    hide RewriteRefs, PublicItems, AddTags, Moved;
    var n := |services| - 1;
    var last := services[n];
    CopiesMember(last.1.schemas, last.0, key);
    if key in Copies(last.1.schemas, last.0) {
      k, name := n, NameOf(last.0, key);
      RewrittenIsMoved(last.1.schemas[name], last.0);
    } else {
      k, name := SchemaOrigin(services[..n], key);
      forall l, m | k < l ensures !GivenKey(services, l, m, key) {
        if l == n {
          KeyNamesBack(last.0, m);
        } else {
          assert GivenKey(services, l, m, key) ==> GivenKey(services[..n], l, m, key);
        }
      }
    }
  }

  // ---------------------------------------------------------------- tags

  function AllTags(services: seq<Service>): seq<Fields> {
    if services == [] then []
    else AllTags(services[..|services| - 1]) + services[|services| - 1].1.tags
  }

  predicate Named(tag: Fields) { "name" in tag && tag["name"].Str? }

  /** The first tag of its name. */
  predicate FirstNamed(tags: seq<Fields>, q: nat) {
    q < |tags| && Named(tags[q]) && forall r :: 0 <= r < q && Named(tags[r]) ==> tags[r]["name"] != tags[q]["name"]
  }

  /** The positions of the first tags of each name, in order. */
  ghost predicate FirstPositions(tags: seq<Fields>, positions: seq<nat>) {
    && (forall q :: q in positions <==> FirstNamed(tags, q))
    && forall i, j :: 0 <= i < j < |positions| ==> positions[i] < positions[j]
  }

  lemma {:induction false} AddTagsJoin(seen: seq<Fields>, first: seq<Fields>, second: seq<Fields>)
    ensures AddTags(seen, first + second) == AddTags(AddTags(seen, first), second)
  {
    hide IsNewTag;
    if second == [] {
      assert first + second == first;
    } else {
      var n := |second| - 1;
      AddTagsJoin(seen, first, second[..n]);
      assert (first + second)[..|first + second| - 1] == first + second[..n];
    }
  }

  lemma {:induction false} TagsAreAdded(services: seq<Service>)
    ensures Merge(services).tags == AddTags([], AllTags(services))
  {
    if services != [] {
      hide Merge, AddTags;
      TagsAreAdded(services[..|services| - 1]);
      LastTagsJoin(services);
      AddTagsJoin([], AllTags(services[..|services| - 1]), services[|services| - 1].1.tags);
    }
  }

  lemma NewIsFirstNamed(tags: seq<Fields>)
    requires tags != []
    ensures var n := |tags| - 1; IsNewTag(tags[n], AddTags([], tags[..n])) <==> FirstNamed(tags, n)
  {
    var n := |tags| - 1;
    var rest := tags[..n];
    TagsAreListedOnce([], rest);
    hide AddTags;
    assert Names([]) == {};
    if Named(tags[n]) && tags[n]["name"].s in Names(rest) {
      var r :| 0 <= r < |rest| && "name" in rest[r] && rest[r]["name"].Str? && rest[r]["name"].s == tags[n]["name"].s;
      assert tags[r] == rest[r];
    } else if Named(tags[n]) {
      forall r | 0 <= r < n && Named(tags[r]) ensures tags[r]["name"] != tags[n]["name"] {
        assert tags[r] == rest[r];
        assert rest[r]["name"].s in Names(rest);
      }
    }
  }

  lemma AddedLast(tags: seq<Fields>)
    requires tags != []
    ensures var n := |tags| - 1;
            AddTags([], tags) == AddTags([], tags[..n]) + if FirstNamed(tags, n) then [tags[n]] else []
  {
    NewIsFirstNamed(tags);
    hide IsNewTag, FirstNamed;
  }

  lemma PositionsGrow(tags: seq<Fields>, positions: seq<nat>) returns (all: seq<nat>)
    requires tags != [] && FirstPositions(tags[..|tags| - 1], positions)
    ensures var n := |tags| - 1; all == positions + (if FirstNamed(tags, n) then [n] else [])
    ensures FirstPositions(tags, all)
  {
    var n := |tags| - 1;
    all := positions + (if FirstNamed(tags, n) then [n] else []);
    forall q: nat ensures q in all <==> FirstNamed(tags, q) {
      assert q < n ==> (FirstNamed(tags, q) <==> FirstNamed(tags[..n], q));
    }
    forall i | 0 <= i < |positions| ensures positions[i] < n {
      assert positions[i] in positions;
      assert FirstNamed(tags[..n], positions[i]);
    }
  }

  lemma {:induction false} FirstTagsListed(tags: seq<Fields>) returns (positions: seq<nat>)
    ensures FirstPositions(tags, positions) && |AddTags([], tags)| == |positions|
    ensures forall i :: 0 <= i < |positions| ==> positions[i] < |tags| && AddTags([], tags)[i] == tags[positions[i]]
  {
    if tags == [] {
      positions := [];
    } else {
      hide AddTags, FirstPositions, FirstNamed;
      var rest := FirstTagsListed(tags[..|tags| - 1]);
      positions := PositionsGrow(tags, rest);
      AddedLast(tags);
    }
  }

  // ---------------------------------------------------------------- the returned document

  ghost predicate PathsPublished(services: seq<Service>, j: Json) {
    && j.Obj?
    && (forall p :: p in j.fields <==>
          exists k, i :: 0 <= k < |services| && 0 <= i < |services[k].1.paths| && PublicPath(services, k, i) == p)
    && (forall p :: p in j.fields ==> exists k: nat, i: nat :: StandsUnder(services, k, i, p, j.fields[p]))
  }

  /** The published form of the item that wins the path. */
  ghost predicate StandsUnder(services: seq<Service>, k: nat, i: nat, path: string, j: Json) {
    Wins(services, k, i, path) && ItemPublished(path, services[k].1.paths[i].1, j, services[k].0)
  }

  ghost predicate SchemasPublished(services: seq<Service>, j: Json) {
    && j.Obj?
    && (forall key :: key in j.fields <==> exists k: nat, name :: GivenKey(services, k, name, key))
    && (forall key :: key in j.fields ==>
          exists k: nat, name :: SchemaWins(services, k, name, key) &&
                                 Moved(services[k].1.schemas[name], j.fields[key], services[k].0))
  }

  ghost predicate TagsPublished(services: seq<Service>, j: Json) {
    && j.Arr?
    && exists positions: seq<nat> ::
         && FirstPositions(AllTags(services), positions) && |j.items| == |positions|
         && forall i :: 0 <= i < |positions| ==>
              positions[i] < |AllTags(services)| && j.items[i] == Obj(AllTags(services)[positions[i]])
  }

  ghost predicate HasSchemas(services: seq<Service>) {
    exists k, name :: 0 <= k < |services| && name in services[k].1.schemas
  }

  ghost predicate HasTags(services: seq<Service>) {
    exists k, name :: 0 <= k < |services| && name in Names(services[k].1.tags)
  }

  /** The document that merging the services' documents is to give. */
  ghost predicate IsMergeOf(services: seq<Service>, j: Json) {
    && j.Obj?
    && j.fields.Keys == {"openapi", "info", "paths"} + (if HasSchemas(services) then {"components"} else {})
                        + (if HasTags(services) then {"tags"} else {})
    && j.fields["openapi"] == Str("3.1.0")
    && j.fields["info"] == Obj(map["title" := Str("Process Manager Gateway"), "version" := Str("1.0.0")])
    && PathsPublished(services, j.fields["paths"])
    && (HasSchemas(services) ==>
          && j.fields["components"].Obj? && j.fields["components"].fields.Keys == {"schemas"}
          && SchemasPublished(services, j.fields["components"].fields["schemas"]))
    && (HasTags(services) ==> TagsPublished(services, j.fields["tags"]))
  }

  lemma PathsAre(services: seq<Service>)
    ensures PathsPublished(services, Obj(Merge(services).paths))
  {
    hide Merge, PublicPath, StandsUnder;
    var paths := Merge(services).paths;
    forall k, i | 0 <= k < |services| && 0 <= i < |services[k].1.paths| ensures PublicPath(services, k, i) in paths {
      PathIsPublished(services, k, i);
    }
    forall p | p in paths
      ensures exists k, i :: 0 <= k < |services| && 0 <= i < |services[k].1.paths| && PublicPath(services, k, i) == p
      ensures exists k: nat, i: nat :: StandsUnder(services, k, i, p, paths[p])
    {
      var k, i := PathStands(services, p);
    }
  }

  lemma PathStands(services: seq<Service>, path: string) returns (k: nat, i: nat)
    requires path in Merge(services).paths
    ensures StandsUnder(services, k, i, path, Merge(services).paths[path])
    ensures k < |services| && i < |services[k].1.paths| && PublicPath(services, k, i) == path
  {
    hide Merge, PublicPath, ItemPublished;
    k, i := PathOrigin(services, path);
  }

  lemma SchemasAre(services: seq<Service>)
    ensures SchemasPublished(services, Obj(Merge(services).schemas))
  {
    hide Merge, Moved;
    var schemas := Merge(services).schemas;
    forall k: nat, name, key | GivenKey(services, k, name, key) ensures key in schemas {
      KeysAreKept(services, k, name);
    }
    forall key | key in schemas
      ensures exists k: nat, name :: SchemaWins(services, k, name, key) &&
                                     Moved(services[k].1.schemas[name], schemas[key], services[k].0)
    {
      var k, name := SchemaOrigin(services, key);
    }
  }

  lemma TagsAre(services: seq<Service>, j: Json)
    requires j.Arr? && |j.items| == |Merge(services).tags|
    requires forall i :: 0 <= i < |j.items| ==> j.items[i] == Obj(Merge(services).tags[i])
    ensures TagsPublished(services, j)
  {
    hide Merge, AddTags, FirstPositions;
    TagsAreAdded(services);
    var positions := FirstTagsListed(AllTags(services));
  }

  /** The document returned for any services, in any order: its paths are exactly the services'
      public paths; under each stands the last item given it, its references moved to the renamed
      schemas, every member of every operation kept but for the operation id; its schemas are the
      moved copies under their new keys; its tags are the first of each name, in order. */
  lemma MergedDocumentIs(services: seq<Service>)
    ensures IsMergeOf(services, Publish(Merge(services)))
  {
    hide PathsPublished, SchemasPublished, TagsPublished;
    PathsAre(services);
    SchemasAre(services);
    ComponentsArePublishedIff(services);
    TagsArePublishedIff(services);
    hide Merge;
    var j := Publish(Merge(services));
    if HasTags(services) { TagsAre(services, j.fields["tags"]); }
  }
}
