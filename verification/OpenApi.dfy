/** Merging the OpenAPI documents of several services into one, with their schemas renamed apart. */
module OpenApi {
  import opened Wrappers
  import opened CacheKeys
  import opened Json
  import opened JsonPointers

  const SCHEMA_POINTER := "/components/schemas/"
  const SCHEMA_PREFIX := "#" + SCHEMA_POINTER

  type Schemas = map<string, Json>

  // ---------------------------------------------------------------- references

  /** Every string found under a `$ref` key, at any depth. */
  function Refs(j: Json): set<string> {
    match j
    case Obj(fields) =>
      (if "$ref" in fields && fields["$ref"].Str? then {fields["$ref"].s} else {}) +
      set k, r | k in fields && r in Refs(fields[k]) :: r
    case Arr(items) => set i, r | 0 <= i < |items| && r in Refs(items[i]) :: r
    case _ => {}
  }

  /** The tokens a reference into the schemas has below them. The reference is a URI whose
      fragment, percent sequences undone, is a JSON pointer. */
  function SchemaPath(ref: string): (tokens: Option<seq<string>>)
    ensures tokens.Some? ==> tokens.value != []
  {
    if ref == "" || ref[0] != '#' then None
    else
      match PercentDecode(ref[1..])
      case None => None
      case Some(pointer) =>
        if SCHEMA_POINTER <= pointer then Some(Tokens(pointer[|SCHEMA_POINTER|..])) else None
  }

  /** The schema a reference names. */
  function NamedSchema(ref: string): Option<string> {
    match SchemaPath(ref) case None => None case Some(tokens) => Unescape(tokens[0])
  }

  /** What a reference into the schemas leads to. */
  ghost function Resolve(ref: string, schemas: Schemas): Option<Json> {
    match NamedSchema(ref)
    case None => None
    case Some(name) =>
      if name in schemas then Descend(schemas[name], SchemaPath(ref).value[1..]) else None
  }

  /** A reference spelled as the services' generators spell it. */
  predicate Literal(ref: string) { SCHEMA_PREFIX <= ref }

  /** A reference to a schema as a whole, not to something inside it. */
  predicate Whole(ref: string) {
    Literal(ref) && SchemaPath(ref).Some? && |SchemaPath(ref).value| == 1
  }

  // ---------------------------------------------------------------- rewriting

  function SchemaKey(service: string, name: string): string { service + "_" + name }

  function RewriteRef(ref: string, service: string): string {
    if SCHEMA_PREFIX <= ref then SCHEMA_PREFIX + SchemaKey(service, ref[|SCHEMA_PREFIX|..]) else ref
  }

  /** `rewrite_schema_refs` */
  function RewriteRefs(j: Json, service: string): Json {
    match j
    case Obj(fields) =>
      Obj(map k | k in fields ::
        if k == "$ref" && fields[k].Str? then Str(RewriteRef(fields[k].s, service))
        else RewriteRefs(fields[k], service))
    case Arr(items) => Arr(seq(|items|, i requires 0 <= i < |items| => RewriteRefs(items[i], service)))
    case _ => j
  }

  /** The references of a rewritten value are rewritten references of the value. */
  lemma {:induction false} RefsAreRewritten(j: Json, service: string, ref: string) returns (original: string)
    requires ref in Refs(RewriteRefs(j, service))
    ensures original in Refs(j) && ref == RewriteRef(original, service)
  {
    match j
    case Obj(fields) =>
      var after := RewriteRefs(j, service).fields;
      if "$ref" in fields && fields["$ref"].Str? && ref == after["$ref"].s {
        return fields["$ref"].s;
      }
      var k :| k in after && ref in Refs(after[k]);
      original := RefsAreRewritten(fields[k], service, ref);
    case Arr(items) =>
      var i :| 0 <= i < |items| && ref in Refs(RewriteRefs(items[i], service));
      original := RefsAreRewritten(items[i], service, ref);
  }

  /** And each reference of the value is there, rewritten. */
  lemma {:induction false} RefsAreKept(j: Json, service: string, ref: string)
    requires ref in Refs(j)
    ensures RewriteRef(ref, service) in Refs(RewriteRefs(j, service))
  {
    match j
    case Obj(fields) =>
      var after := RewriteRefs(j, service).fields;
      if "$ref" in fields && fields["$ref"].Str? && ref == fields["$ref"].s {
        assert after["$ref"] == Str(RewriteRef(ref, service));
      } else {
        var k :| k in fields && ref in Refs(fields[k]);
        RefsAreKept(fields[k], service, ref);
        assert k in after && RewriteRef(ref, service) in Refs(after[k]);
      }
    case Arr(items) =>
      var i :| 0 <= i < |items| && ref in Refs(items[i]);
      RefsAreKept(items[i], service, ref);
      assert RewriteRef(ref, service) in Refs(RewriteRefs(j, service).items[i]);
  }

  /** `after` is the copy of `before` in the rewritten document. */
  predicate IsCopy(before: Json, after: Json, service: string) {
    after == RewriteRefs(before, service) || (before.Str? && after == Str(RewriteRef(before.s, service)))
  }

  lemma ChildOfRewritten(j: Json, key: string, service: string)
    ensures match Child(j, key)
            case None => Child(RewriteRefs(j, service), key) == None
            case Some(child) =>
              var child' := Child(RewriteRefs(j, service), key);
              child'.Some? && IsCopy(child, child'.value, service)
  {
    if j.Arr? {
      if i :| 0 <= i < |j.items| && Decimal(i) == key {
        ChildOfArray(j.items, i);
        ChildOfArray(RewriteRefs(j, service).items, i);
      }
    }
  }

  /** Walking a pointer commutes with rewriting. */
  lemma {:induction false} DescendCommutes(before: Json, after: Json, tokens: seq<string>, service: string)
    requires IsCopy(before, after, service)
    ensures match Descend(before, tokens)
            case None => Descend(after, tokens) == None
            case Some(v) =>
              var v' := Descend(after, tokens);
              v'.Some? && IsCopy(v, v'.value, service)
    decreases |tokens|
  {
    if tokens != [] && Unescape(tokens[0]).Some? {
      var key := Unescape(tokens[0]).value;
      if !before.Str? {
        ChildOfRewritten(before, key, service);
        if Child(before, key).Some? {
          DescendCommutes(Child(before, key).value, Child(after, key).value, tokens[1..], service);
        }
      }
    }
  }

  // ---------------------------------------------------------------- where a rewritten reference leads

  /** No slash, tilde or percent sign: a name that is its own spelling in a reference. */
  predicate Plain(service: string) { '/' !in service && '~' !in service && '%' !in service }

  lemma LiteralPath(rest: string)
    ensures SchemaPath(SCHEMA_PREFIX + rest) ==
            match PercentDecode(rest) case None => None case Some(d) => Some(Tokens(d))
  {
    var ref := SCHEMA_PREFIX + rest;
    assert ref[1..] == SCHEMA_POINTER + rest;
    DecodeAfter(SCHEMA_POINTER, rest);
    if PercentDecode(rest).Some? {
      assert (SCHEMA_POINTER + PercentDecode(rest).value)[|SCHEMA_POINTER|..] == PercentDecode(rest).value;
    }
  }

  /** A rewritten reference names the schema's new key, and then the same place inside it. */
  lemma RewrittenPath(ref: string, service: string)
    requires Literal(ref) && Plain(service)
    ensures var path, path' := SchemaPath(ref), SchemaPath(RewriteRef(ref, service));
            && path.Some? == path'.Some?
            && (path.Some? ==> path'.value[1..] == path.value[1..])
    ensures NamedSchema(RewriteRef(ref, service)) ==
            match NamedSchema(ref) case None => None case Some(name) => Some(SchemaKey(service, name))
  {
    var rest := ref[|SCHEMA_PREFIX|..];
    assert ref == SCHEMA_PREFIX + rest;
    LiteralPath(rest);
    LiteralPath(SchemaKey(service, rest));
    DecodeAfter(service + "_", rest);
    if PercentDecode(rest).Some? {
      var d := PercentDecode(rest).value;
      TokensAfter(service + "_", d);
      UnescapeAfter(service + "_", Tokens(d)[0]);
    }
  }

  /** `schemas` holds the rewritten copy of every schema of `own` under its new key. */
  predicate HoldsCopies(schemas: Schemas, own: Schemas, service: string) {
    forall name :: name in own ==>
      SchemaKey(service, name) in schemas && schemas[SchemaKey(service, name)] == RewriteRefs(own[name], service)
  }

  /** Among copies, a rewritten reference leads to the copy of what it led to. */
  lemma RewrittenRefKeepsMeaning(ref: string, service: string, own: Schemas, schemas: Schemas)
    requires Literal(ref) && Plain(service) && HoldsCopies(schemas, own, service) && Resolve(ref, own).Some?
    ensures var v := Resolve(RewriteRef(ref, service), schemas);
            v.Some? && IsCopy(Resolve(ref, own).value, v.value, service)
    ensures Whole(ref) ==>
              Resolve(RewriteRef(ref, service), schemas) == Some(RewriteRefs(Resolve(ref, own).value, service))
  {
    RewrittenPath(ref, service);
    var name := NamedSchema(ref).value;
    DescendCommutes(own[name], schemas[SchemaKey(service, name)], SchemaPath(ref).value[1..], service);
  }

  // ---------------------------------------------------------------- when a reference is lost

  /** With an odd name a rewritten reference names something shorter than any of the service's keys. */
  lemma OddNameShortens(ref: string, service: string)
    requires Literal(ref) && !Plain(service) && NamedSchema(ref).Some?
    ensures match NamedSchema(RewriteRef(ref, service))
            case None => true
            case Some(other) => |other| < |SchemaKey(service, NamedSchema(ref).value)|
  {
    var rest := ref[|SCHEMA_PREFIX|..];
    assert ref == SCHEMA_PREFIX + rest;
    LiteralPath(rest);
    LiteralPath(SchemaKey(service, rest));
    DecodeJoined(service, rest);
    if PercentDecode(service).Some? {
      var s, d := PercentDecode(service).value, PercentDecode(rest).value;
      DecodeShrinks(service);
      assert SchemaPath(RewriteRef(ref, service)).value == Tokens(s + "_" + d);
      OddTokenShortens(s, d, service);
    }
  }

  lemma SlashedToken(s: string, d: string)
    requires '/' in s
    ensures |Tokens(s + "_" + d)[0]| < |s|
  {
    assert s + "_" + d == s + ("_" + d);
    FirstTokenEnds(s, "_" + d);
  }

  lemma UnslashedToken(s: string, d: string)
    requires '/' !in s
    ensures Unescape(Tokens(s + "_" + d)[0]) == Joined(Unescape(s), Unescape(Tokens(d)[0]))
  {
    hide Unescape;
    TokensAfter(s + "_", d);
    UnescapeJoined(s, Tokens(d)[0]);
  }

  lemma UnescapedIsNoLonger(s: string)
    ensures Unescape(s).Some? ==> |Unescape(s).value| <= |s| - (if '~' in s then 1 else 0)
  {
    if Unescape(s).Some? { UnescapeShrinks(s); }
  }

  lemma OddTokenShortens(s: string, d: string, service: string)
    requires Unescape(Tokens(d)[0]).Some?
    requires |s| < |service| || (s == service && ('/' in s || '~' in s))
    ensures match Unescape(Tokens(s + "_" + d)[0])
            case None => true
            case Some(other) => |other| < |service| + 1 + |Unescape(Tokens(d)[0]).value|
  {
    hide Tokens, Unescape;
    if '/' in s {
      SlashedToken(s, d);
      UnescapedIsNoLonger(Tokens(s + "_" + d)[0]);
    } else {
      UnslashedToken(s, d);
      UnescapedIsNoLonger(s);
    }
  }
}
