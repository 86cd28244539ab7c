/** Which requests the in-process HTTP client may serve locally, and the cache of the answers. */
module RouteLru {
  import opened OrderedDicts
  import opened Wrappers

  /** An upper-cased method and a path. */
  type Key = (string, string)

  /** The API routes: those without parameters by name, the others by the paths their pattern matches. */
  datatype Routes = Routes(literal: set<Key>, patterns: seq<(set<string>, string -> bool)>)

  /** The answer without the cache. */
  predicate IsLocal(routes: Routes, key: Key) {
    "/api" <= key.1 &&
    (key in routes.literal ||
     exists i :: 0 <= i < |routes.patterns| && key.0 in routes.patterns[i].0 && routes.patterns[i].1(key.1))
  }

  // ---------------------------------------------------------------- recency

  /** All keys looked up so far with their answers, least recently used first. */
  function Recency(routes: Routes, lookups: seq<Key>): Dict<Key, bool> {
    if lookups == [] then []
    else
      var key := lookups[|lookups| - 1];
      PutLast(Recency(routes, lookups[..|lookups| - 1]), key, IsLocal(routes, key))
  }

  /** `key` was looked up at `at` and not since. */
  predicate LastLookup(lookups: seq<Key>, key: Key, at: nat) {
    at < |lookups| && lookups[at] == key && forall i :: at < i < |lookups| ==> lookups[i] != key
  }

  predicate LookedUpAfter(lookups: seq<Key>, key: Key, a: nat) {
    exists b :: a < b < |lookups| && LastLookup(lookups, key, b)
  }

  lemma {:induction false} RecencyDistinct(routes: Routes, lookups: seq<Key>)
    ensures Distinct(Recency(routes, lookups))
  {
    if lookups != [] {
      var before := lookups[..|lookups| - 1];
      var key := lookups[|lookups| - 1];
      RecencyDistinct(routes, before);
      PutLastDistinct(Recency(routes, before), key, IsLocal(routes, key));
    }
  }

  /** An item of the recency list is an answered lookup. */
  lemma {:induction false} RecencyItem(routes: Routes, lookups: seq<Key>, e: (Key, bool))
    ensures e in Recency(routes, lookups) <==> e.0 in lookups && e.1 == IsLocal(routes, e.0)
  {
    if lookups != [] {
      var before := lookups[..|lookups| - 1];
      var key := lookups[|lookups| - 1];
      assert lookups == before + [key];
      RecencyItem(routes, before, e);
      WithoutMember(Recency(routes, before), key, e);
    }
  }

  lemma {:induction false} WithoutKeepsOrder<K, V>(d: Dict<K, V>, k: K, i: nat, j: nat) returns (i': nat, j': nat)
    requires i < j < |Without(d, k)|
    ensures i' < j' < |d| && d[i'] == Without(d, k)[i] && d[j'] == Without(d, k)[j]
  {
    if d[0].0 == k {
      i', j' := WithoutKeepsOrder(d[1..], k, i, j);
      i', j' := i' + 1, j' + 1;
    } else if i == 0 {
      j' := WithoutIndex(d[1..], k, j - 1);
      i', j' := 0, j' + 1;
    } else {
      i', j' := WithoutKeepsOrder(d[1..], k, i - 1, j - 1);
      i', j' := i' + 1, j' + 1;
    }
  }

  lemma {:induction false} WithoutIndex<K, V>(d: Dict<K, V>, k: K, i: nat) returns (i': nat)
    requires i < |Without(d, k)|
    ensures i' < |d| && d[i'] == Without(d, k)[i]
  {
    if d[0].0 == k {
      i' := WithoutIndex(d[1..], k, i);
      i' := i' + 1;
    } else if i == 0 {
      i' := 0;
    } else {
      i' := WithoutIndex(d[1..], k, i - 1);
      i' := i' + 1;
    }
  }

  /** The list is ordered by last lookup. */
  lemma {:induction false} RecencyOrder(routes: Routes, lookups: seq<Key>, i: nat, j: nat) returns (a: nat, b: nat)
    requires i < j < |Recency(routes, lookups)|
    ensures a < b && LastLookup(lookups, Recency(routes, lookups)[i].0, a)
    ensures LastLookup(lookups, Recency(routes, lookups)[j].0, b)
  {
    hide IsLocal;
    var n := |lookups| - 1;
    var before := Recency(routes, lookups[..n]);
    var key := lookups[n];
    var rest := Without(before, key);
    WithoutMember(before, key, rest[i]);
    if j == |rest| {
      var i' := WithoutIndex(before, key, i);
      a := LastLookupOf(routes, lookups[..n], i');
      b := n;
      StillLast(lookups, rest[i].0, a);
    } else {
      WithoutMember(before, key, rest[j]);
      var i', j' := WithoutKeepsOrder(before, key, i, j);
      a, b := RecencyOrder(routes, lookups[..n], i', j');
      StillLast(lookups, rest[i].0, a);
      StillLast(lookups, rest[j].0, b);
    }
  }

  /** A lookup of another key changes nothing. */
  lemma StillLast(lookups: seq<Key>, key: Key, at: nat)
    requires lookups != [] && lookups[|lookups| - 1] != key
    requires LastLookup(lookups[..|lookups| - 1], key, at)
    ensures LastLookup(lookups, key, at)
  {
  }

  lemma {:induction false} LastLookupOf(routes: Routes, lookups: seq<Key>, i: nat) returns (a: nat)
    requires i < |Recency(routes, lookups)|
    ensures LastLookup(lookups, Recency(routes, lookups)[i].0, a)
  {
    var n := |lookups| - 1;
    var before := Recency(routes, lookups[..n]);
    var rest := Without(before, lookups[n]);
    if i == |rest| {
      a := n;
    } else {
      WithoutMember(before, lookups[n], rest[i]);
      var i' := WithoutIndex(before, lookups[n], i);
      a := LastLookupOf(routes, lookups[..n], i');
      StillLast(lookups, rest[i].0, a);
    }
  }

  // ---------------------------------------------------------------- the newest items

  lemma {:induction false} WithoutSuffix<K, V>(front: Dict<K, V>, back: Dict<K, V>, k: K)
    requires Distinct(front + back)
    ensures Find(back, k).Some? ==>
              Without(front + back, k) == front + Without(back, k) && |Without(back, k)| == |back| - 1
    ensures Find(back, k).None? ==> Without(front + back, k) == Without(front, k) + back
  {
    WithoutAppend(front, back, k);
    if Find(back, k).Some? {
      var v := Find(back, k).value;
      var j :| 0 <= j < |back| && back[j] == (k, v);
      forall i | 0 <= i < |front| ensures front[i].0 != k {
        assert (front + back)[i] == front[i] && (front + back)[|front| + j] == back[j];
      }
      WithoutAbsent(front, k);
      forall i, l | 0 <= i < l < |back| ensures back[i].0 != back[l].0 {
        assert (front + back)[|front| + i] == back[i] && (front + back)[|front| + l] == back[l];
      }
      WithoutOne(back, k);
    } else {
      WithoutAbsent(back, k);
    }
  }

  lemma {:induction false} WithoutOne<K, V>(d: Dict<K, V>, k: K)
    requires Distinct(d) && Find(d, k).Some?
    ensures |Without(d, k)| == |d| - 1
  {
    if d[0].0 == k {
      WithoutAbsent(d[1..], k);
    } else {
      WithoutOne(d[1..], k);
    }
  }

  /** Cutting a list to its newest items and using a key commute. */
  lemma NewestOfPutLast<K, V>(d: Dict<K, V>, k: K, v: V, n: nat)
    requires Distinct(d) && n > 0
    ensures Newest(PutLast(d, k, v), n) == Newest(PutLast(Newest(d, n), k, v), n)
  {
    if |d| > n {
      var front, back := d[..|d| - n], d[|d| - n..];
      assert d == front + back;
      WithoutSuffix(front, back, k);
      if Find(back, k).Some? {
        NewestOfAppend(front, Without(back, k) + [(k, v)], n);
        assert PutLast(d, k, v) == front + (Without(back, k) + [(k, v)]);
      } else {
        WithoutAbsent(back, k);
        NewestOfAppend(Without(front, k), back + [(k, v)], n);
        assert PutLast(d, k, v) == Without(front, k) + (back + [(k, v)]);
      }
    }
  }

  lemma NewestHas<K, V>(d: Dict<K, V>, n: nat, k: nat)
    requires |d| - n <= k < |d|
    ensures Find(Newest(d, n), d[k].0).Some?
  {
  }

  lemma NewestOfAppend<K, V>(front: Dict<K, V>, back: Dict<K, V>, n: nat)
    requires |back| >= n
    ensures Newest(front + back, n) == Newest(back, n)
  {
  }

  // ---------------------------------------------------------------- the resolver

  class RouteResolver {
    const routes: Routes
    const upper: string -> string
    const maxSize: nat
    var matches: Dict<Key, bool>
    ghost var lookups: seq<Key>

    /** The cache holds exactly the last lookups, at most `maxSize`, with their true answers. */
    ghost predicate Valid()
      reads this
    {
      maxSize > 0 && matches == Newest(Recency(routes, lookups), maxSize)
    }

    constructor (routes: Routes, upper: string -> string, routeCacheMaxSize: int)
      ensures Valid() && lookups == [] && this.routes == routes && this.upper == upper
      ensures maxSize == if routeCacheMaxSize > 1 then routeCacheMaxSize else 1
    {
      this.routes := routes;
      this.upper := upper;
      maxSize := if routeCacheMaxSize > 1 then routeCacheMaxSize else 1;
      matches := [];
      lookups := [];
    }

    /** The lookup among the routes. */
    method Match(key: Key) returns (local: bool)
      ensures local == IsLocal(routes, key)
    {
      if !("/api" <= key.1) { return false; }
      if key in routes.literal { return true; }
      for i := 0 to |routes.patterns|
        invariant forall j :: 0 <= j < i ==> !(key.0 in routes.patterns[j].0 && routes.patterns[j].1(key.1))
      {
        if key.0 !in routes.patterns[i].0 { continue; }
        if routes.patterns[i].1(key.1) { return true; }
      }
      return false;
    }

    /** `_is_local_api_path` */
    method IsLocalApiPath(verb: string, path: string) returns (local: bool)
      requires Valid()
      modifies this
      ensures Valid() && lookups == old(lookups) + [(upper(verb), path)]
      ensures local == IsLocal(routes, (upper(verb), path))
      ensures local <==>
                && "/api" <= path
                && (|| (upper(verb), path) in routes.literal
                    || exists p :: p in routes.patterns && upper(verb) in p.0 && p.1(path))
    {
      var key := (upper(verb), path);
      ghost var all := Recency(routes, lookups);
      RecencyDistinct(routes, lookups);
      NewestOfPutLast(all, key, IsLocal(routes, key), maxSize);
      var cached := Find(matches, key);
      lookups := lookups + [key];
      assert lookups[..|lookups| - 1] == old(lookups);
      if cached.Some? {
        CachedAnswer(routes, old(lookups), maxSize, key);
        matches := PutLast(matches, key, cached.value);
        WithoutShrinks(old(matches), key);
        return cached.value;
      }
      local := Match(key);
      matches := PutLast(matches, key, local);
      ghost var before := matches;
      while |matches| > maxSize
        invariant |matches| <= |before| && matches == before[|before| - |matches|..]
        invariant if |before| > maxSize then |matches| >= maxSize else matches == before
        invariant lookups == old(lookups) + [key]
      {
        matches := matches[1..];
      }
    }
  }

  lemma CachedAnswer(routes: Routes, lookups: seq<Key>, n: nat, key: Key)
    requires Find(Newest(Recency(routes, lookups), n), key).Some?
    ensures Find(Newest(Recency(routes, lookups), n), key).value == IsLocal(routes, key)
  {
    var v := Find(Newest(Recency(routes, lookups), n), key).value;
    assert (key, v) in Recency(routes, lookups);
    RecencyItem(routes, lookups, (key, v));
  }

  /** After any calls the stored keys are the last at most `n` distinct ones by last lookup:
      a key looked up is missing only if `n` others were all looked up after it last was. */
  lemma CacheIsExactLru(routes: Routes, lookups: seq<Key>, n: nat, key: Key)
    requires n > 0 && key in lookups
    ensures var stored := Newest(Recency(routes, lookups), n);
            Find(stored, key).None? ==>
              |stored| == n && Distinct(stored) &&
              exists a :: LastLookup(lookups, key, a) &&
                          forall i :: 0 <= i < n ==> LookedUpAfter(lookups, stored[i].0, a)
  {
    var all := Recency(routes, lookups);
    var stored := Newest(all, n);
    RecencyDistinct(routes, lookups);
    RecencyItem(routes, lookups, (key, IsLocal(routes, key)));
    if Find(stored, key).None? {
      var k :| 0 <= k < |all| && all[k] == (key, IsLocal(routes, key));
      if k >= |all| - n {
        NewestHas(all, n, k);
        assert false;
      }
      var a := LastLookupOf(routes, lookups, k);
      forall i | 0 <= i < n ensures LookedUpAfter(lookups, stored[i].0, a) {
        var a', b := RecencyOrder(routes, lookups, k, |all| - n + i);
        LastLookupUnique(lookups, key, a, a');
        assert stored[i] == all[|all| - n + i];
      }
    }
  }

  lemma LastLookupUnique(lookups: seq<Key>, key: Key, a: nat, b: nat)
    requires LastLookup(lookups, key, a) && LastLookup(lookups, key, b)
    ensures a == b
  {
  }
}
