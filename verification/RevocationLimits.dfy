/** How exact the revocation guarantee is: the staleness bound is the least there is, and it
    holds for exactly the identities whose expiry is fixed. */
module RevocationLimits {
  import opened RevocationTime
  import opened RevocationProtocol
  import opened Wrappers

  lemma Do(c: Config, s: System, step: Step) returns (s': System)
    requires Reachable(c, s) && Enabled(c, s, step)
    ensures Reachable(c, s') && s' == Apply(c, s, step)
  {
    Extend(c, s, step);
    s' := Apply(c, s, step);
  }

  // ---------------------------------------------------------------- stretches of a run

  lemma MissLocally(c: Config, s0: System, id: TaskId, w: Worker, t: Jti, expiry: Time) returns (s: System)
    requires Reachable(c, s0) && id !in s0.tasks && Resolved(c, s0.clock, t, expiry)
    requires Slot(w, t) !in s0.local
    ensures Reachable(c, s)
    ensures s == s0.(tasks := s0.tasks[id := Task(Check, w, t, expiry, s0.clock, AwaitRedisGet, |s0.writes|)])
  {
    hide Reachable, MayTick;
    s := Do(c, s0, BeginCheck(id, w, t, expiry));
    assert s0.local - {Slot(w, t)} == s0.local;
  }

  /** A check that misses the in-process layer and finds nothing in Redis gets to its row lookup. */
  lemma MissBothCaches(c: Config, s0: System, id: TaskId, w: Worker, t: Jti, expiry: Time) returns (s: System)
    requires Reachable(c, s0) && id !in s0.tasks && Resolved(c, s0.clock, t, expiry)
    requires Slot(w, t) !in s0.local
    ensures Reachable(c, s)
    ensures s == s0.(tasks := s0.tasks[id := Task(Check, w, t, expiry, s0.clock,
                                                  GotRow(if t in s0.rows then Some(s0.rows[t]) else None),
                                                  |s0.writes|)])
  {
    hide Reachable, MayTick, Resolved;
    s := MissLocally(c, s0, id, w, t, expiry);
    s := Do(c, s, RedisGet(id, false));
    s := Do(c, s, AfterGet(id));
    s := Do(c, s, SelectRow(id));
  }

  /** A check whose row delete is behind it answers, its Redis write failing. */
  lemma FinishCheck(c: Config, s0: System, id: TaskId) returns (s: System)
    requires Reachable(c, s0) && At(s0, id, RowDeleted) && s0.tasks[id].kind == Check
    ensures Reachable(c, s)
    ensures s == s0.(local := s.local, tasks := s0.tasks - {id}, answers := s.answers)
    ensures s.local.Keys == s0.local.Keys + {Slot(s0.tasks[id].worker, s0.tasks[id].jti)}
  {
    hide Reachable, MayTick;
    s := Do(c, s0, AfterDelete(id));
    s := Do(c, s, RedisSet(id, false));
    s := Do(c, s, Reply(id));
  }

  lemma CommitNow(c: Config, s0: System, id: TaskId) returns (s: System)
    requires Reachable(c, s0) && At(s0, id, AwaitCommit)
    requires forall j :: j in s0.rows ==> j == s0.tasks[id].jti
    ensures var t := s0.tasks[id];
            && Reachable(c, s)
            && s == s0.(rows := map[t.jti := t.expiry], cleanupDue := s.cleanupDue, firstCommit := s.firstCommit,
                        lastCommit := s0.lastCommit[t.jti := Commit(s0.clock, t.expiry)],
                        tasks := s0.tasks[id := t.(pc := Committed)])
            && s.firstCommit == if t.jti in s0.firstCommit then s0.firstCommit else s0.firstCommit[t.jti := s0.clock]
  {
    hide Reachable, MayTick, Resolved, CleanupDue;
    s := Do(c, s0, CommitRevoke(id));
    var t := s0.tasks[id];
    assert s0.rows[t.jti := t.expiry] == map[t.jti := t.expiry];
    assert Unexpired(s0.rows, t.now)[t.jti := t.expiry] == map[t.jti := t.expiry];
  }

  /** The rest of a revocation call after its commit, its Redis write failing. */
  lemma FinishRevoke(c: Config, s0: System, id: TaskId) returns (s: System)
    requires Reachable(c, s0) && At(s0, id, Committed) && s0.tasks[id].kind == Revoke
    ensures var t := s0.tasks[id];
            && Reachable(c, s)
            && s == s0.(local := s0.local[Slot(t.worker, t.jti) := Local(true, t.expiry)], tasks := s0.tasks - {id})
  {
    hide Reachable, MayTick, Resolved;
    s := Do(c, s0, AfterCommit(id));
    s := Do(c, s, RedisSet(id, false));
    s := Do(c, s, Reply(id));
  }

  lemma BeginRevokeNow(c: Config, s0: System, id: TaskId, w: Worker, t: Jti, expiry: Time) returns (s: System)
    requires Reachable(c, s0) && id !in s0.tasks && Resolved(c, s0.clock, t, expiry)
    ensures Reachable(c, s)
    ensures s == s0.(tasks := s0.tasks[id := Task(Revoke, w, t, expiry, s0.clock, AwaitCommit, |s0.writes|)])
  {
    hide Reachable, MayTick;
    s := Do(c, s0, BeginRevoke(id, w, t, expiry));
  }

  /** A whole revocation call. */
  lemma RevokeNow(c: Config, s0: System, id: TaskId, w: Worker, t: Jti, expiry: Time) returns (s: System)
    requires Reachable(c, s0) && id !in s0.tasks && Resolved(c, s0.clock, t, expiry)
    requires forall j :: j in s0.rows ==> j == t
    ensures Reachable(c, s)
    ensures s == s0.(rows := map[t := expiry], cleanupDue := s.cleanupDue, firstCommit := s.firstCommit,
                     lastCommit := s0.lastCommit[t := Commit(s0.clock, expiry)],
                     local := s0.local[Slot(w, t) := Local(true, expiry)])
    ensures s.firstCommit == if t in s0.firstCommit then s0.firstCommit else s0.firstCommit[t := s0.clock]
  {
    hide Reachable, MayTick, Resolved, Apply, Enabled;
    s := BeginRevokeNow(c, s0, id, w, t, expiry);
    s := CommitNow(c, s, id);
    s := FinishRevoke(c, s, id);
    assert s.tasks == s0.tasks;
  }

  // ---------------------------------------------------------------- the bound is the least

  /** A check selects before the revocation commits. */
  lemma EarlySelect(c: Config, t: Jti, start: Time) returns (s: System)
    requires t in c.expiry
    ensures Reachable(c, s) && s.clock == start && t in s.firstCommit && s.firstCommit[t] == start
    ensures s.redis == map[] && s.local.Keys == {Slot(1, t)}
    ensures s.tasks == map[1 := Task(Check, 0, t, c.expiry[t], start, GotRow(None), 0)]
  {
    hide Reachable;
    Initially(c, start);
    s := MissBothCaches(c, Init(start), 1, 0, t, c.expiry[t]);
    s := RevokeNow(c, s, 2, 1, t, c.expiry[t]);
  }

  /** It stores its answer in Redis as late as it may, and answers. */
  lemma SlowCheck(c: Config, t: Jti, start: Time) returns (s: System)
    requires t in c.expiry && c.expiry[t] > start + StaleBound(c) + 1
    ensures Reachable(c, s) && s.clock == start + c.maxDuration && t in s.firstCommit && s.firstCommit[t] == start
    ensures s.redis == map[t := Remote(false, c.expiry[t], s.clock + NegativeRedisLifetime(c.negativeTtl))]
    ensures s.local.Keys == {Slot(0, t), Slot(1, t)} && s.tasks == map[]
  {
    hide Reachable;
    s := EarlySelect(c, t, start);
    s := Do(c, s, AfterSelect(1));
    s := Do(c, s, Tick(c.maxDuration));
    NegativeLifetimeBound(start, c.expiry[t], c.negativeTtl);
    s := Do(c, s, RedisSet(1, true));
    s := Do(c, s, Reply(1));
  }

  /** The entry is hit in Redis at its last instant, and its copy in process at the copy's last. */
  lemma BoundIsAttained(c: Config, t: Jti) returns (s: System, a: Answer)
    requires t in c.expiry
    ensures Reachable(c, s) && a in s.answers && !a.revoked
    ensures a.jti == t && t in s.firstCommit && a.at < c.expiry[t]
    ensures a.now == s.firstCommit[t] + StaleBound(c) - 1
  {
    hide Reachable;
    var e := c.expiry[t];
    s := SlowCheck(c, t, e - StaleBound(c) - 2);
    s := Do(c, s, Tick(NegativeRedisLifetime(c.negativeTtl) - 1));
    s := Do(c, s, BeginCheck(3, 2, t, e));
    s := Do(c, s, RedisGet(3, true));
    s := Do(c, s, AfterGet(3));
    if c.negativeTtl > 0 {
      s := Do(c, s, Tick(c.negativeTtl - 1));
      s := Do(c, s, BeginCheck(4, 2, t, e));
    }
    a := s.answers[|s.answers| - 1];
  }

  /** An answer about a token before it expires, by a check that read the clock at least `b` after the first commit. */
  predicate Late(c: Config, s: System, a: Answer, t: Jti, b: int)
    requires t in c.expiry
  {
    a.jti == t && t in s.firstCommit && a.at < c.expiry[t] && a.now >= s.firstCommit[t] + b
  }

  /** From `b` after the first commit on, no run answers "not revoked" before the expiry. */
  ghost predicate NoLaterStaleAnswer(c: Config, t: Jti, b: int)
    requires t in c.expiry
  {
    forall s, a :: Reachable(c, s) && a in s.answers && Late(c, s, a, t, b) ==> a.revoked
  }

  /** For every decodable token, duration bound and TTL, zero included, the bound of
      `BoundedStaleness` is the least that holds over all runs. */
  lemma StaleBoundIsLeast(c: Config, t: Jti, b: int)
    requires t in c.expiry
    ensures NoLaterStaleAnswer(c, t, b) <==> b >= StaleBound(c)
  {
    hide Reachable;
    if b >= StaleBound(c) {
      forall s, a | Reachable(c, s) && a in s.answers && Late(c, s, a, t, b) ensures a.revoked {
        BoundedStaleness(c, s, a);
      }
    } else {
      var s, a := BoundIsAttained(c, t);
    }
  }

  // ---------------------------------------------------------------- which identities it covers

  /** A raw-token row expires, and a check that has read it is about to delete it. */
  lemma ExpiredRowSeen(c: Config, raw: Jti) returns (s: System)
    requires raw !in c.expiry
    ensures Reachable(c, s) && s.clock == RAW_TOKEN_TTL
    ensures s.rows == map[raw := RAW_TOKEN_TTL] && s.local.Keys == {Slot(1, raw)}
    ensures s.tasks == map[2 := Task(Check, 0, raw, 2 * RAW_TOKEN_TTL, RAW_TOKEN_TTL, AwaitRowDelete, 0)]
  {
    hide Reachable;
    Initially(c, 0);
    s := RevokeNow(c, Init(0), 1, 1, raw, RAW_TOKEN_TTL);
    s := Do(c, s, Tick(RAW_TOKEN_TTL));
    s := MissBothCaches(c, s, 2, 0, raw, 2 * RAW_TOKEN_TTL);
    s := Do(c, s, AfterSelect(2));
  }

  /** A second revocation renews the row and returns; then the delete takes the renewed row away. */
  lemma RenewedRowDeleted(c: Config, raw: Jti) returns (s: System)
    requires raw !in c.expiry
    ensures Reachable(c, s) && s.clock == RAW_TOKEN_TTL && s.tasks == map[]
    ensures raw in s.lastCommit && s.lastCommit[raw] == Commit(RAW_TOKEN_TTL, 2 * RAW_TOKEN_TTL)
    ensures s.rows == map[] && s.local.Keys == {Slot(0, raw), Slot(1, raw)}
  {
    hide Reachable;
    s := ExpiredRowSeen(c, raw);
    s := RevokeNow(c, s, 3, 1, raw, 2 * RAW_TOKEN_TTL);
    s := Do(c, s, DeleteRow(2));
    s := FinishCheck(c, s, 2);
  }

  /** A raw-token identity is revoked, and revoked again just as a check deletes its expired row:
      the renewed row, with 30 days to live, is gone, and at any moment `later` of those 30 days a
      check by another worker answers "not revoked". */
  lemma RenewedRowCanVanish(c: Config, raw: Jti, later: nat) returns (s: System, a: Answer)
    requires raw !in c.expiry && later < RAW_TOKEN_TTL
    ensures Reachable(c, s) && a in s.answers && !a.revoked && a.jti == raw
    ensures raw in s.lastCommit && s.lastCommit[raw] == Commit(RAW_TOKEN_TTL, 2 * RAW_TOKEN_TTL)
    ensures raw !in s.rows && a.now == a.at == s.lastCommit[raw].at + later < s.lastCommit[raw].expiry
  {
    hide Reachable;
    s := RenewedRowDeleted(c, raw);
    s := Do(c, s, Tick(later));
    s := MissBothCaches(c, s, 4, 5, raw, s.clock + RAW_TOKEN_TTL);
    s := Do(c, s, AfterSelect(4));
    s := Do(c, s, RedisSet(4, false));
    s := Do(c, s, Reply(4));
    a := s.answers[|s.answers| - 1];
  }

  /** An answer that the latest commit should decide: late enough after it, and before the expiry it gave. */
  predicate Covered(c: Config, s: System, a: Answer, j: Jti) {
    a.jti == j && j in s.lastCommit && a.now >= s.lastCommit[j].at + StaleBound(c) && a.at < s.lastCommit[j].expiry
  }

  /** The guarantee for an identity, counted from its latest commit to the expiry that gave it. */
  ghost predicate Guaranteed(c: Config, j: Jti) {
    forall s, a :: Reachable(c, s) && a in s.answers && Covered(c, s, a, j) ==> a.revoked
  }

  /** The bound holds over all runs for exactly the identities of decodable tokens; for a raw one
      it fails, unless it is longer than such a revocation lasts and so says nothing. */
  lemma GuaranteedIff(c: Config, j: Jti)
    ensures Guaranteed(c, j) <==> j in c.expiry || StaleBound(c) >= RAW_TOKEN_TTL
  {
    hide Reachable;
    if j in c.expiry || StaleBound(c) >= RAW_TOKEN_TTL {
      forall s, a | Reachable(c, s) && a in s.answers && Covered(c, s, a, j) ensures a.revoked {
        ReachableInv(c, s);
        assert Dated(c, s, j);
        if j in c.expiry { BoundedStaleness(c, s, a); }
      }
    } else {
      var s, a := RenewedRowCanVanish(c, j, StaleBound(c));
    }
  }
}
