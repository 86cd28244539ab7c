/** Paths of a plugin's own API, and the public paths the gateway serves them under. */
module PluginPaths {

  const PUBLIC_PLUGIN_PREFIX := "/plg"

  function Prefix(service: string): string { PUBLIC_PLUGIN_PREFIX + "/" + service }

  function Normalized(path: string): string { if path != "" && path[0] == '/' then path else "/" + path }

  /** `path` is the prefix itself or lies below it. */
  predicate Under(path: string, service: string) {
    path == Prefix(service) || Prefix(service) + "/" <= path
  }

  /** `to_internal_plugin_path` */
  function Internal(path: string, service: string): string {
    var normalized := Normalized(path);
    if normalized == Prefix(service) then "/"
    else if Prefix(service) + "/" <= normalized then normalized[|Prefix(service)|..]
    else normalized
  }

  /** One key of `to_public_openapi_paths` */
  function Public(path: string, service: string): string {
    var normalized := Normalized(path);
    if Under(normalized, service) then normalized
    else if normalized == "/" then Prefix(service)
    else Prefix(service) + normalized
  }

  // ---------------------------------------------------------------- one service

  lemma PublicIsUnder(path: string, service: string)
    ensures Under(Public(path, service), service)
    ensures Normalized(Public(path, service)) == Public(path, service)
  {
  }

  lemma InternalOfPublic(path: string, service: string)
    requires !Under(Normalized(path), service)
    ensures Internal(Public(path, service), service) == Normalized(path)
  {
  }

  /** The translation is undone on exactly the paths that are not already below the prefix,
      whatever characters the service name contains. */
  lemma RoundTripIffNotUnderPrefix(path: string, service: string)
    ensures Internal(Public(path, service), service) == Normalized(path) <==> !Under(Normalized(path), service)
  {
  }

  /** The other way round: a public path comes back unless what it names internally is the
      root written with a slash, or itself looks public. */
  lemma PublicOfInternalIff(path: string, service: string)
    requires Under(path, service)
    ensures Public(Internal(path, service), service) == path <==>
              path != Prefix(service) + "/" && !Under(Internal(path, service), service)
  {
  }

  /** Two paths share a public path only if they are the same path, or one is written publicly already. */
  lemma PublicCollidesIff(p: string, q: string, service: string)
    ensures Public(p, service) == Public(q, service) <==>
              || Normalized(p) == Normalized(q)
              || Normalized(q) == Public(p, service)
              || Normalized(p) == Public(q, service)
  {
    PublicIsUnder(p, service);
    PublicIsUnder(q, service);
    if Public(p, service) == Public(q, service) && !Under(Normalized(p), service) && !Under(Normalized(q), service) {
      InternalOfPublic(p, service);
      InternalOfPublic(q, service);
    }
  }

  // ---------------------------------------------------------------- two services

  predicate Extends(t: string, s: string) { s + "/" <= t }

  lemma UnderBothIsNested(path: string, s: string, t: string)
    requires Under(path, s) && Under(path, t) && |s| <= |t|
    ensures s == t || Extends(t, s)
  {
    var n := |PUBLIC_PLUGIN_PREFIX + "/"|;
    assert path[n..n + |s|] == Prefix(s)[n..] == s;
    assert path[n..n + |t|] == Prefix(t)[n..] == t;
    assert t[..|s|] == s;
    if |s| < |t| {
      assert path[n + |s|] == (Prefix(s) + "/")[n + |s|] == '/';
      assert t[|s|] == '/';
      assert t[..|s| + 1] == s + "/";
    }
  }

  lemma NestedShares(s: string, t: string)
    requires s == t || Extends(t, s)
    ensures Public(Prefix(t), s) == Public(Prefix(t), t)
  {
  }

  /** Some public path belongs to two services exactly when their names are equal or one
      continues the other after a slash. */
  lemma PublicPathsOverlapIff(s: string, t: string)
    ensures (exists p, q :: Public(p, s) == Public(q, t)) <==> s == t || Extends(s, t) || Extends(t, s)
  {
    if s == t || Extends(t, s) {
      NestedShares(s, t);
    } else if Extends(s, t) {
      NestedShares(t, s);
    } else {
      forall p, q ensures Public(p, s) != Public(q, t) {
        PublicIsUnder(p, s);
        PublicIsUnder(q, t);
        if Public(p, s) == Public(q, t) {
          if |s| <= |t| { UnderBothIsNested(Public(p, s), s, t); } else { UnderBothIsNested(Public(p, s), t, s); }
        }
      }
    }
  }

  lemma ExtensionHasSlash(t: string, s: string)
    requires Extends(t, s)
    ensures '/' in t
  {
    assert t[|s|] == (s + "/")[|s|];
  }

  lemma SlashFreeNamesNeverOverlap(s: string, t: string, p: string, q: string)
    requires s != t && '/' !in s && '/' !in t
    ensures Public(p, s) != Public(q, t)
  {
    if Extends(t, s) { ExtensionHasSlash(t, s); }
    if Extends(s, t) { ExtensionHasSlash(s, t); }
    PublicPathsOverlapIff(s, t);
  }

  // ---------------------------------------------------------------- a whole document

  /** The dictionary the items build, in which a later item replaces an earlier one of the same public path. */
  function Rewritten<T>(items: seq<(string, T)>, service: string): map<string, T> {
    if items == [] then map[]
    else
      var last := items[|items| - 1];
      Rewritten(items[..|items| - 1], service)[Public(last.0, service) := last.1]
  }

  method ToPublicOpenApiPaths<T>(items: seq<(string, T)>, service: string) returns (rewritten: map<string, T>)
    ensures rewritten == Rewritten(items, service)
  {
    rewritten := map[];
    var prefix := Prefix(service);
    for i := 0 to |items|
      invariant rewritten == Rewritten(items[..i], service)
    {
      var normalized := Normalized(items[i].0);
      var publicPath;
      if normalized == prefix || prefix + "/" <= normalized {
        publicPath := normalized;
      } else if normalized == "/" {
        publicPath := prefix;
      } else {
        publicPath := prefix + normalized;
      }
      rewritten := rewritten[publicPath := items[i].1];
      assert items[..i + 1][..i] == items[..i];
    }
    assert items[..|items|] == items;
  }

  lemma {:induction false} RewrittenCovers<T>(items: seq<(string, T)>, service: string, i: nat)
    requires i < |items|
    ensures Public(items[i].0, service) in Rewritten(items, service)
  {
    var rest := items[..|items| - 1];
    if i < |rest| { RewrittenCovers(rest, service, i); }
  }

  /** What ends up under a public path is the last item translated to it. */
  lemma {:induction false} LastItemWins<T>(items: seq<(string, T)>, service: string, key: string) returns (i: nat)
    requires key in Rewritten(items, service)
    ensures i < |items| && Public(items[i].0, service) == key && Rewritten(items, service)[key] == items[i].1
    ensures forall j :: i < j < |items| ==> Public(items[j].0, service) != key
  {
    hide Public;
    var rest := items[..|items| - 1];
    if Public(items[|rest|].0, service) == key {
      i := |rest|;
    } else {
      i := LastItemWins(rest, service, key);
      forall j | i < j < |items| ensures Public(items[j].0, service) != key {
        if j < |rest| { assert rest[j] == items[j]; }
      }
    }
  }

  /** No path item is lost exactly when no two paths of the document share a public path. */
  lemma {:induction false} NothingLostIff<T>(items: seq<(string, T)>, service: string)
    ensures |Rewritten(items, service)| <= |items|
    ensures |Rewritten(items, service)| == |items| <==>
              forall i, j :: 0 <= i < j < |items| ==> Public(items[i].0, service) != Public(items[j].0, service)
  {
    hide Public;
    if items != [] {
      var rest := items[..|items| - 1];
      var key := Public(items[|rest|].0, service);
      NothingLostIff(rest, service);
      assert forall i :: 0 <= i < |rest| ==> rest[i] == items[i];
      if key in Rewritten(rest, service) {
        var i := LastItemWins(rest, service, key);
        assert Public(items[i].0, service) == Public(items[|rest|].0, service);
      } else {
        forall i | 0 <= i < |rest| ensures Public(items[i].0, service) != key { RewrittenCovers(rest, service, i); }
      }
    }
  }
}
