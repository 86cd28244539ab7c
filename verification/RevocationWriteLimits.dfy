/** How exact the guarantee after a stored revocation is: the write prevails exactly when it is not
    overtaken, and the time an older copy can be served is the least bound. */
module RevocationWriteLimits {
  import opened RevocationTime
  import opened RevocationProtocol
  import opened RevocationLimits
  import opened RevocationWrites
  import opened Wrappers

  // ---------------------------------------------------------------- continuations

  /** `s` can become `s'`. */
  ghost predicate Leads(c: Config, s: System, s': System) {
    exists steps :: IsRun(c, s, steps) && s' == After(c, s, steps)
  }

  lemma Go(c: Config, s0: System, s: System, step: Step) returns (s': System)
    requires Leads(c, s0, s) && Enabled(c, s, step)
    ensures Leads(c, s0, s') && s' == Apply(c, s, step)
  {
    var steps :| IsRun(c, s0, steps) && s == After(c, s0, steps);
    assert (steps + [step])[..|steps|] == steps;
    s' := Apply(c, s, step);
    assert IsRun(c, s0, steps + [step]) && s' == After(c, s0, steps + [step]);
  }

  lemma Stay(c: Config, s: System)
    ensures Leads(c, s, s)
  {
    assert IsRun(c, s, []) && s == After(c, s, []);
  }

  // ---------------------------------------------------------------- overtaken writes

  /** Every check that begins after write `i` and is not answered by its worker's own copy
      answers "revoked" before the expiry, in every continuation. */
  ghost predicate Prevails(c: Config, s: System, i: nat)
    requires i < |s.writes|
  {
    forall s', a ::
      && Leads(c, s, s') && a in s'.answers && a.jti == s.writes[i].jti && a.seen > i && !a.local
      && a.jti in c.expiry && a.at < c.expiry[a.jti]
      ==> a.revoked
  }

  lemma FreshNumber(used: set<nat>) returns (n: nat)
    ensures n !in used
  {
    n := 0;
    var rest := used;
    while n in used
      invariant rest <= used && forall k: nat :: k in used && k !in rest ==> k < n
      invariant forall k :: k in rest ==> k >= n
      decreases |rest|
    {
      rest := rest - {n};
      n := n + 1;
    }
  }

  lemma BlindCheckStores(c: Config, s: System, id: TaskId, k: TaskId) returns (s': System)
    requires Reachable(c, s) && Enabled(c, s, RedisSet(id, true)) && s.tasks[id].kind == Revoke
    requires k in s.tasks && s.tasks[k].jti == s.tasks[id].jti && Blind(s.tasks[k])
    requires s.tasks[id].jti in c.expiry && s.clock < c.expiry[s.tasks[id].jti]
    ensures var j := s.tasks[id].jti;
            && Leads(c, Apply(c, s, RedisSet(id, true)), s') && s'.clock == s.clock && |s'.writes| == |s.writes| + 1
            && j in s'.redis && !s'.redis[j].revoked && s'.redis[j].diesAt > s.clock
            && s'.redis[j].expiresAt == c.expiry[j]
  {
    hide Reachable, Leads, MayTick;
    var s0 := Apply(c, s, RedisSet(id, true));
    ReachableSettled(c, s);
    TaskFacts(c, s, id);
    TaskFacts(c, s, k);
    NotedWrite(c, s, RedisSet(id, true));
    hide Settled, Inv, Overtaken;
    Stay(c, s0);
    s' := s0;
    if s.tasks[k].pc.GotRow? { s' := Go(c, s0, s', AfterSelect(k)); }
    s' := Go(c, s0, s', RedisSet(k, true));
  }

  /** The blind check stores its answer over the written one, and the next check believes it. */
  lemma OvertakenWriteIsDenied(c: Config, s: System, id: TaskId) returns (s': System, a: Answer)
    requires Reachable(c, s) && Enabled(c, s, RedisSet(id, true)) && s.tasks[id].kind == Revoke
    requires s.tasks[id].jti in c.expiry && s.clock < c.expiry[s.tasks[id].jti] && Overtaken(s, s.tasks[id].jti)
    ensures Leads(c, Apply(c, s, RedisSet(id, true)), s') && a in s'.answers && !a.revoked && !a.local
    ensures a.jti == s.tasks[id].jti && a.at < c.expiry[a.jti] && a.seen > |s.writes|
  {
    hide Reachable, Leads, MayTick;
    var j, s0 := s.tasks[id].jti, Apply(c, s, RedisSet(id, true));
    var k :| k in s.tasks && s.tasks[k].jti == j && Blind(s.tasks[k]);
    s' := BlindCheckStores(c, s, id, k);
    var n := FreshNumber(s'.tasks.Keys);
    var w := FreshNumber(set slot | slot in s'.local :: slot.worker);
    a := Answer(j, s.clock, s.clock, false, |s'.writes|, false);
    s' := Go(c, s0, s', BeginCheck(n, w, j, c.expiry[j]));
    s' := Go(c, s0, s', RedisGet(n, true));
    s' := Go(c, s0, s', AfterGet(n));
  }

  /** The write prevails exactly when it is not overtaken. */
  lemma WritePrevailsIff(c: Config, s: System, id: TaskId)
    requires Reachable(c, s) && Enabled(c, s, RedisSet(id, true)) && s.tasks[id].kind == Revoke
    requires s.tasks[id].jti in c.expiry && s.clock < c.expiry[s.tasks[id].jti]
    ensures var s' := Apply(c, s, RedisSet(id, true));
            && s'.writes[..|s.writes|] == s.writes && |s'.writes| == |s.writes| + 1
            && s'.writes[|s.writes|].jti == s.tasks[id].jti
            && (Prevails(c, s', |s.writes|) <==> !Overtaken(s, s.tasks[id].jti))
  {
    hide Reachable;
    var s0 := Apply(c, s, RedisSet(id, true));
    NotedWrite(c, s, RedisSet(id, true));
    Extend(c, s, RedisSet(id, true));
    if Overtaken(s, s.tasks[id].jti) {
      var s', a := OvertakenWriteIsDenied(c, s, id);
    } else {
      forall s', a | Leads(c, s0, s') && a in s'.answers && a.jti == s0.writes[|s.writes|].jti &&
                     a.seen > |s.writes| && !a.local && a.jti in c.expiry && a.at < c.expiry[a.jti]
        ensures a.revoked
      {
        var steps :| IsRun(c, s0, steps) && s' == After(c, s0, steps);
        RunStaysReachable(c, s0, steps);
        WrittenRevocationHolds(c, s', |s.writes|, a);
      }
    }
  }

  // ---------------------------------------------------------------- the bound is the least

  /** From `b` after any write of `t` that was not overtaken, no run answers "not revoked" before the expiry. */
  ghost predicate NoLaterDenial(c: Config, t: Jti, b: int)
    requires t in c.expiry
  {
    forall s, i: nat, a ::
      Reachable(c, s) && i < |s.writes| && Denies(c, s, i, a, t, b) ==> a.revoked
  }

  predicate Denies(c: Config, s: System, i: nat, a: Answer, t: Jti, b: int)
    requires t in c.expiry && i < |s.writes|
  {
    && s.writes[i].jti == t && !s.writes[i].overtaken && a in s.answers && a.jti == t
    && a.at < c.expiry[t] && a.now >= s.writes[i].at + b
  }

  /** A check stores "not revoked" in Redis. */
  lemma StaleEntryLeft(c: Config, t: Jti, start: Time) returns (s: System)
    requires t in c.expiry && start < c.expiry[t]
    ensures Reachable(c, s) && s == Init(start).(redis := s.redis, local := s.local, answers := s.answers)
    ensures t in s.redis && !s.redis[t].revoked && s.redis[t].expiresAt == c.expiry[t] && s.redis[t].diesAt > start
    ensures s.local.Keys == {Slot(0, t)}
  {
    hide Reachable;
    Initially(c, start);
    s := MissBothCaches(c, Init(start), 1, 0, t, c.expiry[t]);
    s := Do(c, s, AfterSelect(1));
    s := Do(c, s, RedisSet(1, true));
    s := Do(c, s, Reply(1));
  }

  /** The token is revoked, not yet in Redis. */
  lemma RevokedNotWritten(c: Config, t: Jti, start: Time) returns (s: System)
    requires t in c.expiry && start < c.expiry[t]
    ensures Reachable(c, s) && s.clock == start && s.writes == []
    ensures t in s.redis && !s.redis[t].revoked && s.redis[t].expiresAt == c.expiry[t] && s.redis[t].diesAt > start
    ensures s.local.Keys == {Slot(0, t), Slot(1, t)}
    ensures s.tasks == map[2 := Task(Revoke, 1, t, c.expiry[t], start, AwaitRedisSet(true, c.expiry[t]), 0)]
  {
    hide Reachable, MayTick, Resolved;
    s := StaleEntryLeft(c, t, start);
    ResolvedAs(c, s.clock, t);
    s := BeginRevokeNow(c, s, 2, 1, t, c.expiry[t]);
    s := CommitNow(c, s, 2);
    s := Do(c, s, AfterCommit(2));
  }

  lemma ResolvedAs(c: Config, now: Time, t: Jti)
    requires t in c.expiry
    ensures Resolved(c, now, t, c.expiry[t])
  {
  }

  /** Another worker reads the old entry just before it is overwritten. */
  lemma OldEntryRead(c: Config, t: Jti, start: Time) returns (s: System)
    requires t in c.expiry && start < c.expiry[t]
    ensures Reachable(c, s) && s.clock == start
    ensures Slot(2, t) !in s.local && s.writes == [Write(t, start, false)]
    ensures s.tasks.Keys == {2, 3} && s.tasks[2].kind == Revoke
    ensures var r := s.tasks[3]; r.pc.GotRedis? && r.pc.reply.Some? && !r.pc.reply.value.revoked &&
                                 r.pc.reply.value.expiresAt == c.expiry[t] &&
                                 r == Task(Check, 2, t, c.expiry[t], start, r.pc, 0)
  {
    hide Reachable, MayTick, Resolved, PendingEntry;
    s := RevokedNotWritten(c, t, start);
    ResolvedAs(c, s.clock, t);
    s := MissLocally(c, s, 3, 2, t, c.expiry[t]);
    s := Do(c, s, RedisGet(3, true));
    s := Do(c, s, RedisSet(2, true));
  }

  /** It serves its copy of it to the last instant. */
  lemma CopyOutlivesWrite(c: Config, t: Jti) returns (s: System, a: Answer)
    requires t in c.expiry
    ensures Reachable(c, s) && |s.writes| == 1 && s.writes[0].jti == t && !s.writes[0].overtaken
    ensures a in s.answers && a.jti == t && a.at < c.expiry[t] && !a.revoked
    ensures a.now == s.writes[0].at + CopyBound(c) - 1
  {
    hide Reachable;
    var e := c.expiry[t];
    s := OldEntryRead(c, t, e - CopyBound(c) - 1);
    s := Do(c, s, AfterGet(3));
    if c.negativeTtl > 0 {
      s := Do(c, s, Tick(c.negativeTtl - 1));
      s := Do(c, s, BeginCheck(4, 2, t, e));
    }
    a := s.answers[|s.answers| - 1];
  }

  lemma CopyBoundIsLeast(c: Config, t: Jti, b: int)
    requires t in c.expiry
    ensures NoLaterDenial(c, t, b) <==> b >= CopyBound(c)
  {
    hide Reachable;
    if b >= CopyBound(c) {
      forall s, i: nat, a | Reachable(c, s) && i < |s.writes| && Denies(c, s, i, a, t, b) ensures a.revoked {
        WrittenRevocationHolds(c, s, i, a);
      }
    } else {
      var s, a := CopyOutlivesWrite(c, t);
      assert Denies(c, s, 0, a, t, b);
    }
  }
}
