/** `is_token_revoked` and `revoke_token` of one worker whose calls do not overlap, over a
    Redis that is either absent or never fails. */
module RevocationService {
  import opened OrderedDicts
  import opened RevocationCache
  import opened RevocationTime
  import opened Wrappers

  type Token = string
  type Jti = string

  datatype Remote = Remote(revoked: bool, expiresAt: Time, diesAt: Time)
  datatype Identity = Identity(jti: Jti, expiry: Time)

  const CLEANUP_INTERVAL: int := 60 * SECOND

  class TokenRevocation {
    const negativeTtl: nat
    const capacity: nat
    const identityCapacity: nat
    const redisPresent: bool

    /** What verifying a token's signature yields: its identity, or nothing if it is not a decodable JWT. */
    const decoded: map<Token, Identity>
    const digest: Token -> string

    var clock: Time
    var rows: map<Jti, Time>
    var redis: map<Jti, Remote>
    var cache: Cache
    var identities: Dict<Token, Identity>
    var cleanupDue: Option<Time>

    /** The abstract state: every identity for which a revocation has been committed. */
    ghost var revoked: set<Jti>
    ghost var uses: seq<Use>

    /** Decodable tokens have one expiry per jti, and no jti looks like a raw digest. */
    ghost predicate WellIssued() {
      && (forall t, u :: t in decoded && u in decoded && decoded[t].jti == decoded[u].jti ==>
            decoded[t].expiry == decoded[u].expiry)
      && (forall t, u :: t in decoded ==> decoded[t].jti != "raw:" + digest(u))
    }

    /** What a served "not revoked" and "revoked" may mean for an identity. */
    ghost predicate Faithful(j: Jti, says: bool)
      reads this`rows, this`clock, this`revoked
    {
      && (!says ==> j in rows ==> rows[j] <= clock)
      && (says ==> j in revoked)
    }

    ghost predicate Core()
      reads this
    {
      && WellIssued()
      && (forall j :: j in rows ==> j in revoked)
      && (forall t :: t in decoded && decoded[t].jti in rows ==> rows[decoded[t].jti] == decoded[t].expiry)
      && (forall t :: t in decoded && decoded[t].jti in revoked && clock < decoded[t].expiry ==>
            decoded[t].jti in rows)
      && cache == Run(uses, capacity)
      && (!redisPresent ==> redis == map[])
      && Distinct(identities) && |identities| <= identityCapacity
      && (forall e :: e in identities ==> e.0 in decoded && e.1 == decoded[e.0])
    }

    ghost predicate LocalOk(apart: set<Jti>)
      reads this`rows, this`clock, this`revoked, this`cache
    {
      forall e :: e in cache && e.0 !in apart && e.1.until > clock ==> Faithful(e.0, e.1.revoked)
    }

    ghost predicate RedisOk(apart: set<Jti>)
      reads this`rows, this`clock, this`revoked, this`redis
    {
      forall j :: j in redis && j !in apart && redis[j].diesAt > clock ==> Faithful(j, redis[j].revoked)
    }

    ghost predicate Valid()
      reads this
    {
      Core() && LocalOk({}) && RedisOk({})
    }

    constructor (negativeTtl: nat, capacity: nat, identityCapacity: nat, redisPresent: bool,
                 decoded: map<Token, Identity>, digest: Token -> string, start: Time)
      requires forall t, u :: t in decoded && u in decoded && decoded[t].jti == decoded[u].jti ==>
                 decoded[t].expiry == decoded[u].expiry
      requires forall t, u :: t in decoded ==> decoded[t].jti != "raw:" + digest(u)
      ensures Valid() && revoked == {} && clock == start
      ensures this.decoded == decoded && this.digest == digest
    {
      this.negativeTtl := negativeTtl;
      this.capacity := capacity;
      this.identityCapacity := identityCapacity;
      this.redisPresent := redisPresent;
      this.decoded := decoded;
      this.digest := digest;
      clock := start;
      rows := map[];
      redis := map[];
      cache := [];
      identities := [];
      cleanupDue := None;
      revoked := {};
      uses := [];
    }

    method Tick(elapsed: nat)
      requires Valid()
      modifies this`clock
      ensures Valid() && clock == old(clock) + elapsed
    {
      clock := clock + elapsed;
    }

    /** Redis may drop a key before its time. */
    method EvictRedis(j: Jti)
      requires Valid()
      modifies this`redis
      ensures Valid() && redis == old(redis) - {j}
    {
      redis := redis - {j};
    }

    /** `_resolve_revocation_identity`: an expired token no longer verifies, and falls back to its digest. */
    function Resolve(t: Token): (i: Identity)
      reads this`clock
      ensures t in decoded && decoded[t].expiry > clock ==> i == decoded[t]
    {
      if t in decoded && decoded[t].expiry > clock then decoded[t]
      else Identity("raw:" + digest(t), clock + RAW_TOKEN_TTL)
    }

    /** `_extract_jti_and_exp` with its identity cache, which never changes what a token resolves to. */
    method ResolveIdentity(t: Token) returns (i: Identity)
      requires Core()
      modifies this`identities
      ensures Core()
      ensures i == Resolve(t)
    {
      var cached := Find(identities, t);
      if cached.Some? {
        FindIsMember(identities, t, cached.value);
        if cached.value.expiry > clock {
          PutLastDistinct(identities, t, cached.value);
          WithoutShrinks(identities, t);
          forall e { WithoutMember(identities, t, e); }
          identities := PutLast(identities, t, cached.value);
          return cached.value;
        }
        WithoutDistinct(identities, t);
        forall e { WithoutMember(identities, t, e); }
        identities := Without(identities, t);
      }
      if t in decoded && decoded[t].expiry > clock {
        PutLastDistinct(identities, t, decoded[t]);
        forall e { WithoutMember(identities, t, e); }
        identities := PutLast(identities, t, decoded[t]);
        while |identities| > identityCapacity
          invariant Distinct(identities)
          invariant forall e :: e in identities ==> e.0 in decoded && e.1 == decoded[e.0]
        {
          identities := identities[1..];
        }
        return decoded[t];
      }
      return Identity("raw:" + digest(t), clock + RAW_TOKEN_TTL);
    }

    /** The sweep: every expired item is popped while the list of items is walked. */
    method Sweep()
      requires Distinct(cache)
      modifies this`cache
      ensures var now := clock; cache == Keep(old(cache), (e: (Key, Status)) => e.1.until > now)
    {
      var items := cache;
      var now := clock;
      for i := 0 to |items|
        invariant cache == Keep(items[..i], (e: (Key, Status)) => e.1.until > now) + items[i..]
      {
        SweepOne(items, i, now);
        if items[i].1.until <= now {
          cache := Without(cache, items[i].0);
        }
      }
      assert items[..|items|] == items;
    }

    method EvictOldest()
      modifies this`cache
      ensures cache == Newest(old(cache), capacity)
    {
      while |cache| > capacity
        invariant |cache| <= |old(cache)| && cache == old(cache)[|old(cache)| - |cache|..]
        invariant if |old(cache)| > capacity then |cache| >= capacity else cache == old(cache)
      {
        cache := cache[1..];
      }
    }

    /** `_cache_revocation_status` */
    method CacheStatus(j: Jti, status: bool, expiresAt: Time)
      requires Distinct(cache)
      modifies this`cache, this`uses
      ensures uses == old(uses) + [Wrote(j, Status(status, CacheUntil(status, clock, expiresAt, negativeTtl)), clock)]
      ensures cache == Store(old(cache), j, Status(status, CacheUntil(status, clock, expiresAt, negativeTtl)),
                             clock, capacity)
    {
      var entry := Status(status, CacheUntil(status, clock, expiresAt, negativeTtl));
      PutLastDistinct(cache, j, entry);
      cache := PutLast(cache, j, entry);
      if |cache| > capacity {
        Sweep();
        EvictOldest();
      }
      uses := uses + [Wrote(j, entry, clock)];
    }

    /** `_set_cached_revocation_status` */
    method SetRedis(j: Jti, status: bool, expiresAt: Time)
      requires Core() && RedisOk({j}) && Faithful(j, status)
      modifies this`redis
      ensures Core() && RedisOk({})
      ensures redis == if !redisPresent then old(redis) else
                old(redis)[j := Remote(status, expiresAt, clock + RedisLifetime(status, clock, expiresAt, negativeTtl))]
    {
      if redisPresent {
        redis := redis[j := Remote(status, expiresAt, clock + RedisLifetime(status, clock, expiresAt, negativeTtl))];
      }
    }

    /** `_get_cached_revocation_status` */
    method GetRedis(j: Jti) returns (reply: Option<bool>)
      requires Core() && RedisOk({})
      modifies this`redis
      ensures Core() && RedisOk({})
      ensures reply.Some? ==> Faithful(j, reply.value)
    {
      if !redisPresent || j !in redis || redis[j].diesAt <= clock { return None; }
      if redis[j].expiresAt <= clock {
        redis := redis - {j};
        return None;
      }
      return Some(redis[j].revoked);
    }

    /** Caching a faithful answer in the process leaves nothing unfaithful there. */
    method RememberLocally(j: Jti, status: bool, expiresAt: Time)
      requires Core() && LocalOk({j}) && Faithful(j, status)
      modifies this`cache, this`uses
      ensures Core() && LocalOk({})
    {
      CacheIsBoundedAndOrderedByUse(uses, capacity);
      StoredItems(cache, j, Status(status, CacheUntil(status, clock, expiresAt, negativeTtl)), clock, capacity);
      CacheStatus(j, status, expiresAt);
      assert uses[..|uses| - 1] == old(uses);
    }

    /** The in-process lookup at the head of `is_token_revoked`. */
    method LookLocally(j: Jti) returns (answer: Option<bool>)
      requires Core() && LocalOk({})
      modifies this`cache, this`uses
      ensures Core() && LocalOk({})
      ensures answer.Some? ==> Faithful(j, answer.value)
    {
      var cached := Find(cache, j);
      if cached.None? { return None; }
      if cached.value.until > clock {
        HitUse(uses, capacity, j);
        uses := uses + [Hit(j)];
        cache := PutLast(cache, j, cached.value);
        return Some(cached.value.revoked);
      }
      ExpiredUse(uses, capacity, j);
      uses := uses + [Expired(j)];
      cache := Without(cache, j);
      return None;
    }

    /** The row lookup, with the delete of an expired row. */
    method LookInTable(j: Jti) returns (row: Option<Time>)
      requires Valid()
      modifies this`rows
      ensures Valid()
      ensures row.None? ==> j !in rows && (j in old(rows) ==> old(rows)[j] <= clock)
      ensures row.Some? ==> rows == old(rows) && j in rows && rows[j] == row.value > clock
      ensures forall i :: i in old(rows) && old(rows)[i] > clock ==> i in rows && rows[i] == old(rows)[i]
    {
      if j !in rows { return None; }
      var expiresAt := rows[j];
      if expiresAt <= clock {
        rows := rows - {j};
        return None;
      }
      return Some(expiresAt);
    }

    /** Past the in-process layer: ask Redis, then the table, caching what is learnt. */
    method AskSharedLayers(identity: Identity) returns (answer: bool)
      requires Valid()
      modifies this`rows, this`redis, this`cache, this`uses
      ensures Valid()
      ensures answer ==> identity.jti in revoked
      ensures !answer ==> identity.jti in old(rows) ==> old(rows)[identity.jti] <= clock
      ensures forall j :: j in old(rows) && old(rows)[j] > clock ==> j in rows && rows[j] == old(rows)[j]
    {
      var j := identity.jti;
      var remote := GetRedis(j);
      if remote.Some? {
        RememberLocally(j, remote.value, identity.expiry);
        return remote.value;
      }
      var row := LookInTable(j);
      var expiresAt := if row.Some? then row.value else identity.expiry;
      RememberLocally(j, row.Some?, expiresAt);
      SetRedis(j, row.Some?, expiresAt);
      return row.Some?;
    }

    /** On a decodable, unexpired token the answer is membership in the abstract set, whatever
        the caches have served, expired or evicted so far; and no identity with an unexpired
        row, raw ones included, is ever answered "not revoked". */
    method IsTokenRevoked(t: Token) returns (answer: bool)
      requires Valid()
      modifies this`rows, this`redis, this`cache, this`uses, this`identities
      ensures Valid()
      ensures t in decoded && clock < decoded[t].expiry ==> answer == (decoded[t].jti in revoked)
      ensures Resolve(t).jti in old(rows) && old(rows)[Resolve(t).jti] > clock ==> answer
      ensures answer ==> Resolve(t).jti in revoked
      ensures forall j :: j in old(rows) && old(rows)[j] > clock ==> j in rows && rows[j] == old(rows)[j]
    {
      var identity := ResolveIdentity(t);
      var local := LookLocally(identity.jti);
      if local.Some? { return local.value; }
      answer := AskSharedLayers(identity);
    }

    /** `_should_cleanup_expired_revocations` */
    method ShouldCleanup() returns (due: bool)
      modifies this`cleanupDue
      ensures due == Grants(old(cleanupDue), clock)
      ensures cleanupDue == NextDue(old(cleanupDue), clock)
    {
      if cleanupDue.Some? && cleanupDue.value > clock { return false; }
      cleanupDue := Some(clock + CLEANUP_INTERVAL);
      return true;
    }

    /** `_store_revoked_jti` */
    method StoreRevoked(j: Jti, expiry: Time)
      requires Valid() && expiry > clock
      requires forall t :: t in decoded && decoded[t].jti == j ==> decoded[t].expiry == expiry
      modifies this`rows, this`cleanupDue, this`revoked
      ensures Core() && LocalOk({j}) && RedisOk({j})
      ensures revoked == old(revoked) + {j}
      ensures j in rows && rows[j] == expiry
      ensures forall i :: i != j && i in old(rows) && old(rows)[i] > clock ==> i in rows && rows[i] == old(rows)[i]
      ensures forall i :: i != j && i in rows ==> i in old(rows) && rows[i] == old(rows)[i]
    {
      var due := ShouldCleanup();
      if due {
        rows := map k | k in rows && rows[k] > clock :: rows[k];
      }
      rows := rows[j := expiry];
      revoked := revoked + {j};
    }

    method RevokeToken(t: Token)
      requires Valid()
      modifies this`rows, this`redis, this`cache, this`uses, this`identities, this`cleanupDue, this`revoked
      ensures Valid()
      ensures revoked == old(revoked) + {Resolve(t).jti}
      ensures Resolve(t).jti in rows && rows[Resolve(t).jti] == Resolve(t).expiry > clock
      ensures forall j :: j != Resolve(t).jti && j in old(rows) && old(rows)[j] > clock ==>
                j in rows && rows[j] == old(rows)[j]
      ensures forall j :: j != Resolve(t).jti && j in rows ==> j in old(rows) && rows[j] == old(rows)[j]
    {
      var identity := ResolveIdentity(t);
      StoreRevoked(identity.jti, identity.expiry);
      RememberLocally(identity.jti, true, identity.expiry);
      SetRedis(identity.jti, true, identity.expiry);
    }
  }

  // ---------------------------------------------------------------- the throttle over many calls

  predicate Grants(due: Option<Time>, now: Time) { due.None? || due.value <= now }

  function NextDue(due: Option<Time>, now: Time): Option<Time> {
    if Grants(due, now) then Some(now + CLEANUP_INTERVAL) else due
  }

  /** The due time after calls at the given moments. */
  function DueAfter(calls: seq<Time>): Option<Time> {
    if calls == [] then None else NextDue(DueAfter(calls[..|calls| - 1]), calls[|calls| - 1])
  }

  predicate Granted(calls: seq<Time>, i: nat)
    requires i < |calls|
  {
    Grants(DueAfter(calls[..i]), calls[i])
  }

  ghost predicate InOrder(calls: seq<Time>) {
    forall i, j :: 0 <= i <= j < |calls| ==> calls[i] <= calls[j]
  }

  lemma GrantedBefore(calls: seq<Time>, n: nat, i: nat)
    requires i < n <= |calls|
    ensures Granted(calls[..n], i) == Granted(calls, i)
  {
    assert calls[..n][..i] == calls[..i];
  }

  /** The due time is one interval after the last sweep. */
  lemma {:induction false} LastSweep(calls: seq<Time>) returns (last: nat)
    requires calls != []
    ensures last < |calls| && Granted(calls, last) && DueAfter(calls) == Some(calls[last] + CLEANUP_INTERVAL)
    ensures forall j :: last < j < |calls| ==> !Granted(calls, j)
  {
    var n := |calls| - 1;
    if Granted(calls, n) { return n; }
    last := LastSweep(calls[..n]);
    GrantedBefore(calls, n, last);
    forall j | last < j < n ensures !Granted(calls, j) { GrantedBefore(calls, n, j); }
  }

  /** Over any calls a sweep is granted exactly when none was within the interval before: so any
      two granted calls are an interval apart, and no call that may sweep is refused. */
  lemma SweepsAreSpaced(calls: seq<Time>, k: nat)
    requires InOrder(calls) && k < |calls|
    ensures Granted(calls, k) <==>
              forall i :: 0 <= i < k && Granted(calls, i) ==> calls[i] + CLEANUP_INTERVAL <= calls[k]
  {
    hide DueAfter;
    if k == 0 {
      NoSweepYet();
    } else {
      var last := LastSweep(calls[..k]);
      GrantedBefore(calls, k, last);
      forall i | 0 <= i < k && Granted(calls, i) ensures calls[i] <= calls[last] {
        if i > last { GrantedBefore(calls, k, i); }
      }
    }
  }

  lemma NoSweepYet()
    ensures DueAfter([]) == None
  {
  }

  // ---------------------------------------------------------------- the cache as a run of uses

  /** Serving a hit is the use it is recorded as, and leaves the items there were. */
  lemma HitUse(uses: seq<Use>, capacity: nat, j: Key)
    requires Find(Run(uses, capacity), j).Some?
    ensures var d := Run(uses, capacity);
            && Run(uses + [Hit(j)], capacity) == PutLast(d, j, Find(d, j).value)
            && (j, Find(d, j).value) in d
            && forall e :: e in PutLast(d, j, Find(d, j).value) ==> e in d
  {
    assert (uses + [Hit(j)])[..|uses|] == uses;
    HitItems(Run(uses, capacity), j);
  }

  lemma ExpiredUse(uses: seq<Use>, capacity: nat, j: Key)
    ensures Run(uses + [Expired(j)], capacity) == Without(Run(uses, capacity), j)
    ensures forall e :: e in Without(Run(uses, capacity), j) ==> e in Run(uses, capacity)
  {
    assert (uses + [Expired(j)])[..|uses|] == uses;
    WithoutItems(Run(uses, capacity), j);
  }

  /** Storing leaves the new item and items that were there, none of them under the same key. */
  lemma StoredItems(d: Cache, j: Key, status: Status, now: Time, capacity: nat)
    requires Distinct(d)
    ensures forall e :: e in Store(d, j, status, now, capacity) ==> e == (j, status) || (e in d && e.0 != j)
  {
    var stored := PutLast(d, j, status);
    forall e | e in Store(d, j, status, now, capacity)
      ensures e == (j, status) || (e in d && e.0 != j)
    {
      KeepMember(stored, (e: (Key, Status)) => e.1.until > now, e);
      WithoutMember(d, j, e);
    }
  }

  lemma WithoutItems(d: Cache, j: Key)
    ensures forall e :: e in Without(d, j) ==> e in d
  {
  }

  lemma HitItems(d: Cache, j: Key)
    requires Find(d, j).Some?
    ensures forall e :: e in PutLast(d, j, Find(d, j).value) ==> e in d
  {
    forall e { WithoutMember(d, j, e); }
  }

  lemma {:induction false} KeepSnoc(d: Cache, e: (Key, Status), p: ((Key, Status)) -> bool)
    ensures Keep(d + [e], p) == Keep(d, p) + (if p(e) then [e] else [])
  {
    if d != [] {
      KeepSnoc(d[1..], e, p);
      assert (d + [e])[1..] == d[1..] + [e];
    }
  }

  lemma PopFirst(kept: Cache, item: (Key, Status), rest: Cache)
    requires forall k :: 0 <= k < |kept| ==> kept[k].0 != item.0
    requires forall k :: 0 <= k < |rest| ==> rest[k].0 != item.0
    ensures Without(kept + ([item] + rest), item.0) == kept + rest
  {
    var tail := [item] + rest;
    assert tail[0] == item && tail[1..] == rest;
    WithoutAbsent(rest, item.0);
    assert Without(tail, item.0) == rest;
    WithoutAbsent(kept, item.0);
    WithoutAppend(kept, tail, item.0);
  }

  /** One turn of the sweep: popping an expired item is skipping it. */
  lemma SweepOne(items: Cache, i: nat, now: Time)
    requires Distinct(items) && i < |items|
    ensures var p := (e: (Key, Status)) => e.1.until > now;
            Keep(items[..i + 1], p) + items[i + 1..] ==
            if p(items[i]) then Keep(items[..i], p) + items[i..]
            else Without(Keep(items[..i], p) + items[i..], items[i].0)
  {
    var p := (e: (Key, Status)) => e.1.until > now;
    var kept := Keep(items[..i], p);
    assert items[..i + 1] == items[..i] + [items[i]];
    assert items[i..] == [items[i]] + items[i + 1..];
    KeepSnoc(items[..i], items[i], p);
    if !p(items[i]) {
      forall k | 0 <= k < |kept| ensures kept[k].0 != items[i].0 {
        KeepMember(items[..i], p, kept[k]);
      }
      PopFirst(kept, items[i], items[i + 1..]);
    }
  }
}
