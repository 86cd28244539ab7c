/** The bounded in-process cache of revocation statuses (`_token_revocation_cache`). */
module RevocationCache {
  import opened OrderedDicts
  import opened RevocationTime
  import opened Wrappers

  type Key = string

  datatype Status = Status(revoked: bool, until: Time)

  type Cache = Dict<Key, Status>

  /** `_cache_revocation_status`: store as newest; when over capacity drop what has expired,
      then the oldest. */
  function Store(d: Cache, key: Key, status: Status, now: Time, capacity: nat): Cache {
    var stored := PutLast(d, key, status);
    if |stored| <= capacity then stored
    else Newest(Keep(stored, (e: (Key, Status)) => e.1.until > now), capacity)
  }

  /** What one call does to the cache: a write, a served hit, or the removal of an expired entry. */
  datatype Use =
    | Wrote(key: Key, status: Status, now: Time)
    | Hit(key: Key)
    | Expired(key: Key)

  function Apply(d: Cache, use: Use, capacity: nat): Cache {
    match use
    case Wrote(key, status, now) => Store(d, key, status, now, capacity)
    case Hit(key) => if Find(d, key).Some? then PutLast(d, key, Find(d, key).value) else d
    case Expired(key) => Without(d, key)
  }

  function Run(uses: seq<Use>, capacity: nat): Cache {
    if uses == [] then [] else Apply(Run(uses[..|uses| - 1], capacity), uses[|uses| - 1], capacity)
  }

  /** The position of the last write or hit of `key`. */
  function LastUse(uses: seq<Use>, key: Key): int {
    if uses == [] then -1
    else
      var last := |uses| - 1;
      if uses[last].key == key && !uses[last].Expired? then last else LastUse(uses[..last], key)
  }

  // ---------------------------------------------------------------- one insertion

  /** Over capacity, an insertion removes only expired entries and then a prefix, in order of
      last use, of those that are left; the entry just written survives if its deadline lies ahead. */
  lemma EvictionTakesExpiredThenOldest(d: Cache, key: Key, status: Status, now: Time, capacity: nat)
    returns (evicted: Cache)
    requires capacity > 0 && Distinct(d)
    ensures var r := Store(d, key, status, now, capacity);
            && |r| <= capacity
            && (|PutLast(d, key, status)| <= capacity ==> r == PutLast(d, key, status) && evicted == [])
            && (|PutLast(d, key, status)| > capacity ==>
                  evicted + r == Keep(PutLast(d, key, status), (e: (Key, Status)) => e.1.until > now))
            && (status.until > now || |PutLast(d, key, status)| <= capacity ==>
                  |r| > 0 && r[|r| - 1] == (key, status))
            && (evicted != [] ==> |r| == capacity)
  {
    hide PutLast;
    var stored := PutLast(d, key, status);
    evicted := [];
    PutLastIsLast(d, key, status);
    if |stored| > capacity {
      var p := (e: (Key, Status)) => e.1.until > now;
      if status.until > now { KeepLast(stored, p); }
      evicted := NewestIsSuffix(Keep(stored, p), capacity);
    }
  }

  lemma PutLastIsLast(d: Cache, key: Key, status: Status)
    ensures PutLast(d, key, status) != [] && PutLast(d, key, status)[|PutLast(d, key, status)| - 1] == (key, status)
  {
  }

  lemma {:induction false} KeepLast(d: Cache, p: ((Key, Status)) -> bool)
    requires d != [] && p(d[|d| - 1])
    ensures Keep(d, p) != [] && Keep(d, p)[|Keep(d, p)| - 1] == d[|d| - 1]
  {
    if |d| > 1 {
      KeepLast(d[1..], p);
    }
  }

  // ---------------------------------------------------------------- every history

  ghost predicate Ordered(d: Cache, rank: Key -> int) {
    forall i, j :: 0 <= i < j < |d| ==> rank(d[i].0) < rank(d[j].0)
  }

  lemma {:induction false} KeepOrdered(d: Cache, p: ((Key, Status)) -> bool, rank: Key -> int)
    requires Ordered(d, rank)
    ensures Ordered(Keep(d, p), rank)
  {
    if d != [] {
      KeepOrdered(d[1..], p, rank);
      var rest := Keep(d[1..], p);
      forall j | 0 <= j < |rest| ensures rank(d[0].0) < rank(rest[j].0) {
        KeepMember(d[1..], p, rest[j]);
      }
    }
  }

  lemma {:induction false} WithoutOrdered(d: Cache, key: Key, rank: Key -> int)
    requires Ordered(d, rank)
    ensures Ordered(Without(d, key), rank)
  {
    if d != [] {
      WithoutOrdered(d[1..], key, rank);
      var rest := Without(d[1..], key);
      forall j | 0 <= j < |rest| ensures rank(d[0].0) < rank(rest[j].0) {
        WithoutMember(d[1..], key, rest[j]);
      }
    }
  }

  lemma {:induction false} LastUseBelow(uses: seq<Use>, key: Key)
    ensures LastUse(uses, key) < |uses|
  {
    if uses != [] { LastUseBelow(uses[..|uses| - 1], key); }
  }

  /** Every item other than `key` keeps its last use; a used `key` becomes the newest. */
  lemma PutLastOrdered(uses: seq<Use>, d: Cache, key: Key, status: Status)
    requires uses != [] && uses[|uses| - 1].key == key && !uses[|uses| - 1].Expired?
    requires Ordered(d, (k: Key) => LastUse(uses[..|uses| - 1], k))
    ensures Ordered(PutLast(d, key, status), (k: Key) => LastUse(uses, k))
  {
  }

  /** After any sequence of writes, hits and removals the cache is within its capacity, holds
      each key once, and lists its keys by their last use, oldest first. */
  lemma {:induction false} CacheIsBoundedAndOrderedByUse(uses: seq<Use>, capacity: nat)
    ensures |Run(uses, capacity)| <= capacity
    ensures Ordered(Run(uses, capacity), (k: Key) => LastUse(uses, k))
    ensures Distinct(Run(uses, capacity))
    decreases |uses|
  {
    if uses != [] {
      var last := |uses| - 1;
      var before := uses[..last];
      var d := Run(before, capacity);
      CacheIsBoundedAndOrderedByUse(before, capacity);
      var rank := (k: Key) => LastUse(uses, k);
      match uses[last]
      case Wrote(key, status, now) =>
        PutLastOrdered(uses, d, key, status);
        KeepOrdered(PutLast(d, key, status), (e: (Key, Status)) => e.1.until > now, rank);
      case Hit(key) =>
        if Find(d, key).Some? {
          PutLastOrdered(uses, d, key, Find(d, key).value);
          WithoutShrinks(d, key);
        } else {
          assert Ordered(d, rank);
        }
      case Expired(key) =>
        WithoutOrdered(d, key, rank);
    }
  }
}
