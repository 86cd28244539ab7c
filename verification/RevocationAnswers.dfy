/** Two things a caller of the revocation service can count on at once: an expired token is never
    called revoked, and a worker answers "revoked" for a token it has itself revoked. */
module RevocationAnswers {
  import opened RevocationTime
  import opened RevocationProtocol
  import opened RevocationWrites
  import opened Wrappers

  // ---------------------------------------------------------------- expired tokens

  predicate TaskAged(c: Config, t: Task) {
    t.jti in c.expiry ==>
      && (t.pc.GotRedis? && t.pc.reply.Some? ==> t.pc.reply.value.expiresAt == c.expiry[t.jti])
      && (t.kind == Check && (t.pc.AwaitRedisSet? || t.pc.Replying?) && t.pc.revoked ==> t.now < c.expiry[t.jti])
  }

  /** Nothing says "revoked" of a token beyond its expiry. */
  ghost predicate Aged(c: Config, s: System) {
    && (forall slot :: slot in s.local && s.local[slot].revoked && slot.jti in c.expiry ==>
          s.local[slot].until <= c.expiry[slot.jti])
    && (forall j :: j in s.redis && j in c.expiry ==> s.redis[j].expiresAt == c.expiry[j])
    && (forall id :: id in s.tasks ==> TaskAged(c, s.tasks[id]))
    && (forall a :: a in s.answers && a.revoked && a.jti in c.expiry ==> a.now < c.expiry[a.jti])
  }

  lemma AgedTask(c: Config, s: System, id: TaskId)
    requires Inv(c, s) && Aged(c, s) && id in s.tasks
    ensures TaskAged(c, s.tasks[id]) && TaskTimed(c, s.clock, s.tasks[id])
  {
    TaskFacts(c, s, id);
  }

  lemma GotoStaysAged(c: Config, s: System, id: TaskId, pc: Pc)
    requires Aged(c, s) && id in s.tasks && TaskAged(c, s.tasks[id].(pc := pc))
    ensures Aged(c, Goto(s, id, pc))
  {
  }

  lemma LocalStaysAged(c: Config, s: System, slot: Slot, revoked: bool, now: Time, expiresAt: Time)
    requires Aged(c, s) && (revoked ==> Identity(c, slot.jti, expiresAt))
    ensures Aged(c, WriteLocal(c, s, slot, revoked, now, expiresAt))
  {
  }

  lemma ReturnStaysAged(c: Config, s: System, id: TaskId, revoked: bool)
    requires Aged(c, s) && id in s.tasks
    requires revoked && s.tasks[id].jti in c.expiry ==> s.tasks[id].now < c.expiry[s.tasks[id].jti]
    ensures Aged(c, Return(s, id, revoked))
  {
  }

  lemma LossStaysAged(c: Config, s: System, s': System)
    requires Aged(c, s) && s'.answers == s.answers
    requires forall slot :: slot in s'.local ==> slot in s.local && s'.local[slot] == s.local[slot]
    requires forall j :: j in s'.redis ==> j in s.redis && s'.redis[j] == s.redis[j]
    requires forall id :: id in s'.tasks ==> TaskAged(c, s'.tasks[id])
    ensures Aged(c, s')
  {
  }

  lemma BeginCheckStaysAged(c: Config, s: System, id: TaskId, w: Worker, j: Jti, expiry: Time)
    requires Aged(c, s)
    ensures Aged(c, DoBeginCheck(s, id, w, j, expiry))
  {
    var slot := Slot(w, j);
    if !(slot in s.local && s.local[slot].until > s.clock) {
      LossStaysAged(c, s, DoBeginCheck(s, id, w, j, expiry));
    }
  }

  lemma AfterGetStaysAged(c: Config, s: System, id: TaskId)
    requires Inv(c, s) && Aged(c, s) && id in s.tasks && s.tasks[id].pc.GotRedis?
    ensures Aged(c, DoAfterGet(c, s, id))
  {
    AgedTask(c, s, id);
    hide Inv, Aged;
    var t := s.tasks[id];
    if t.pc.reply.None? {
      GotoStaysAged(c, s, id, AwaitSelect);
    } else if t.pc.reply.value.expiresAt <= t.now {
      GotoStaysAged(c, s, id, AwaitRedisDelete);
    } else {
      var revoked := t.pc.reply.value.revoked;
      LocalStaysAged(c, s, Slot(t.worker, t.jti), revoked, t.now, t.expiry);
      ReturnStaysAged(c, WriteLocal(c, s, Slot(t.worker, t.jti), revoked, t.now, t.expiry), id, revoked);
    }
  }

  /** An answer is cached in process and about to be stored in Redis. */
  lemma StoreStaysAged(c: Config, s: System, id: TaskId, revoked: bool, expiresAt: Time)
    requires Aged(c, s) && id in s.tasks && (revoked ==> Identity(c, s.tasks[id].jti, expiresAt))
    requires TaskAged(c, s.tasks[id].(pc := AwaitRedisSet(revoked, expiresAt)))
    ensures var t := s.tasks[id];
            Aged(c, Goto(WriteLocal(c, s, Slot(t.worker, t.jti), revoked, t.now, expiresAt), id,
                         AwaitRedisSet(revoked, expiresAt)))
  {
    hide Aged;
    var t := s.tasks[id];
    LocalStaysAged(c, s, Slot(t.worker, t.jti), revoked, t.now, expiresAt);
    GotoStaysAged(c, WriteLocal(c, s, Slot(t.worker, t.jti), revoked, t.now, expiresAt), id,
                  AwaitRedisSet(revoked, expiresAt));
  }

  lemma AfterSelectStaysAged(c: Config, s: System, id: TaskId)
    requires Inv(c, s) && Aged(c, s) && id in s.tasks && s.tasks[id].pc.GotRow?
    ensures Aged(c, DoAfterSelect(c, s, id))
  {
    AgedTask(c, s, id);
    hide Inv, Aged;
    var t := s.tasks[id];
    if t.pc.row.None? {
      StoreStaysAged(c, s, id, false, t.expiry);
    } else if t.pc.row.value <= t.now {
      GotoStaysAged(c, s, id, AwaitRowDelete);
    } else {
      StoreStaysAged(c, s, id, true, t.pc.row.value);
    }
  }

  lemma RevokeStaysAged(c: Config, s: System, id: TaskId)
    requires Inv(c, s) && Aged(c, s) && id in s.tasks && s.tasks[id].kind == Revoke
    ensures Aged(c, DoCommit(s, id)) && Aged(c, DoAbort(s, id)) && Aged(c, DoAfterCommit(c, s, id))
  {
    AgedTask(c, s, id);
    hide Inv, CleanupDue, Unexpired;
    LossStaysAged(c, s, DoCommit(s, id));
    LossStaysAged(c, s, DoAbort(s, id));
    var t := s.tasks[id].(now := s.clock, pc := AwaitRedisSet(true, s.tasks[id].expiry));
    LossStaysAged(c, s, s.(tasks := s.tasks[id := t]));
    LocalStaysAged(c, s.(tasks := s.tasks[id := t]), Slot(t.worker, t.jti), true, t.now, t.expiry);
  }

  lemma RedisWriteStaysAged(c: Config, s: System, j: Jti, entry: Remote)
    requires Aged(c, s) && Identity(c, j, entry.expiresAt)
    ensures Aged(c, s.(redis := s.redis[j := entry]))
  {
  }

  lemma NoteStaysAged(c: Config, s: System, s': System, id: TaskId)
    requires Aged(c, s') && id in s.tasks
    ensures Aged(c, NoteWrite(s, s', id))
  {
  }

  lemma RedisSetStaysAged(c: Config, s: System, id: TaskId, ok: bool)
    requires Inv(c, s) && Aged(c, s) && Enabled(c, s, RedisSet(id, ok))
    ensures Aged(c, Apply(c, s, RedisSet(id, ok)))
  {
    AgedTask(c, s, id);
    hide Inv, Aged, Overtaken, NoteWrite;
    var t := s.tasks[id];
    var s1 := if ok then s.(redis := s.redis[t.jti := PendingEntry(c, s, t)]) else s;
    if ok { RedisWriteStaysAged(c, s, t.jti, PendingEntry(c, s, t)); }
    GotoStaysAged(c, s1, id, Replying(t.pc.revoked));
    NoteStaysAged(c, s, DoRedisSet(c, s, id, ok), id);
  }

  lemma LookupStaysAged(c: Config, s: System, step: Step)
    requires Inv(c, s) && Aged(c, s) && Enabled(c, s, step)
    requires step.RedisGet? || step.RedisDelete? || step.SelectRow? || step.DeleteRow?
    ensures Aged(c, Apply(c, s, step))
  {
    AgedTask(c, s, step.id);
    hide Inv;
    var t := s.tasks[step.id];
    match step
    case RedisGet(id, ok) => GotoStaysAged(c, s, id, GotRedis(if ok then Visible(s, t.jti) else None));
    case SelectRow(id) => GotoStaysAged(c, s, id, GotRow(if t.jti in s.rows then Some(s.rows[t.jti]) else None));
    case DeleteRow(id) => GotoStaysAged(c, s.(rows := s.rows - {t.jti}), id, RowDeleted);
    case RedisDelete(id, ok) =>
      GotoStaysAged(c, if ok then s.(redis := s.redis - {t.jti}) else s, id, AwaitSelect);
  }

  lemma ReplyStaysAged(c: Config, s: System, id: TaskId)
    requires Inv(c, s) && Aged(c, s) && id in s.tasks && s.tasks[id].pc.Replying?
    ensures Aged(c, DoReply(s, id))
  {
    AgedTask(c, s, id);
    if s.tasks[id].kind == Check {
      ReturnStaysAged(c, s, id, s.tasks[id].pc.revoked);
    } else {
      LossStaysAged(c, s, DoReply(s, id));
    }
  }

  lemma QuietStaysAged(c: Config, s: System, step: Step)
    requires Aged(c, s) && Enabled(c, s, step)
    requires step.Tick? || step.EvictLocal? || step.EvictRedis? || step.BeginRevoke?
    ensures Aged(c, Apply(c, s, step))
  {
    hide MayTick, Resolved;
    LossStaysAged(c, s, Apply(c, s, step));
  }

  lemma StepStaysAged(c: Config, s: System, step: Step)
    requires Inv(c, s) && Aged(c, s) && Enabled(c, s, step)
    ensures Aged(c, Apply(c, s, step))
  {
    if step.AfterDelete? || step.CommitRevoke? || step.AbortRevoke? || step.AfterCommit? { AgedTask(c, s, step.id); }
    hide Inv, Aged;
    match step
    case BeginCheck(id, w, j, expiry) => BeginCheckStaysAged(c, s, id, w, j, expiry);
    case AfterGet(id) => AfterGetStaysAged(c, s, id);
    case AfterSelect(id) => AfterSelectStaysAged(c, s, id);
    case AfterDelete(id) => StoreStaysAged(c, s, id, false, s.tasks[id].expiry);
    case CommitRevoke(id) => RevokeStaysAged(c, s, id);
    case AbortRevoke(id) => RevokeStaysAged(c, s, id);
    case AfterCommit(id) => RevokeStaysAged(c, s, id);
    case RedisSet(id, ok) => RedisSetStaysAged(c, s, id, ok);
    case Reply(id) => ReplyStaysAged(c, s, id);
    case Tick(_) => QuietStaysAged(c, s, step);
    case EvictLocal(_) => QuietStaysAged(c, s, step);
    case EvictRedis(_) => QuietStaysAged(c, s, step);
    case BeginRevoke(_, _, _, _) => QuietStaysAged(c, s, step);
    case _ => LookupStaysAged(c, s, step);
  }

  lemma {:induction false} RunStaysAged(c: Config, start: Time, steps: seq<Step>)
    requires IsRun(c, Init(start), steps)
    ensures Aged(c, After(c, Init(start), steps))
    decreases |steps|
  {
    if steps != [] {
      var last := |steps| - 1;
      RunStaysAged(c, start, steps[..last]);
      RunKeepsInv(c, start, steps[..last]);
      StepStaysAged(c, After(c, Init(start), steps[..last]), steps[last]);
    }
  }

  /** In every interleaving: a check that reads the clock at or after the expiry of a decodable
      token never answers "revoked". */
  lemma ExpiredIsNotRevoked(c: Config, s: System, a: Answer)
    requires Reachable(c, s) && a in s.answers && a.jti in c.expiry && a.now >= c.expiry[a.jti]
    ensures !a.revoked
  {
    var start, steps :| IsRun(c, Init(start), steps) && s == After(c, Init(start), steps);
    RunStaysAged(c, start, steps);
  }

  // ---------------------------------------------------------------- a worker's own revocations

  /** No check of the token runs on the worker. */
  ghost predicate NoneChecks(s: System, w: Worker, j: Jti) {
    forall id :: id in s.tasks && s.tasks[id].worker == w && s.tasks[id].jti == j ==> s.tasks[id].kind == Revoke
  }

  /** The worker's copy says "revoked" until the expiry, and no check of its own can overwrite it. */
  ghost predicate Owned(c: Config, s: System, w: Worker, j: Jti)
    requires j in c.expiry
  {
    Slot(w, j) in s.local && s.local[Slot(w, j)] == Local(true, c.expiry[j]) && NoneChecks(s, w, j)
  }

  /** A task on the owned copy only writes that copy again. */
  lemma OwnedTask(c: Config, s: System, w: Worker, j: Jti, id: TaskId)
    requires j in c.expiry && Inv(c, s) && Owned(c, s, w, j) && id in s.tasks
    ensures var t := s.tasks[id];
            t.worker == w && t.jti == j ==>
              && t.expiry == c.expiry[j]
              && (t.pc.AwaitCommit? || t.pc.Committed? || t.pc.AwaitRedisSet? || t.pc.Replying?)
  {
    TaskFacts(c, s, id);
  }

  /** The copy is left alone, and at most one task moves on or leaves. */
  lemma StaysOwned(c: Config, s: System, s': System, w: Worker, j: Jti, id: TaskId)
    requires j in c.expiry && Owned(c, s, w, j)
    requires Slot(w, j) in s'.local && s'.local[Slot(w, j)] == s.local[Slot(w, j)]
    requires forall k :: k in s'.tasks && k != id ==> k in s.tasks && s'.tasks[k] == s.tasks[k]
    requires id in s'.tasks ==>
               var t := s'.tasks[id];
               t.kind == Revoke || (id in s.tasks && t.worker == s.tasks[id].worker && t.jti == s.tasks[id].jti &&
                                    t.kind == s.tasks[id].kind) || t.worker != w || t.jti != j
    ensures Owned(c, s', w, j)
  {
  }

  lemma WriteStaysOwned(c: Config, s: System, slot: Slot, revoked: bool, now: Time, expiresAt: Time, w: Worker, j: Jti)
    requires j in c.expiry && Owned(c, s, w, j)
    requires slot == Slot(w, j) ==> revoked && expiresAt == c.expiry[j]
    ensures Owned(c, WriteLocal(c, s, slot, revoked, now, expiresAt), w, j)
  {
  }

  lemma GotoStaysOwned(c: Config, s: System, id: TaskId, pc: Pc, w: Worker, j: Jti)
    requires j in c.expiry && Owned(c, s, w, j) && id in s.tasks
    ensures Owned(c, Goto(s, id, pc), w, j)
  {
  }

  lemma ReturnStaysOwned(c: Config, s: System, id: TaskId, revoked: bool, w: Worker, j: Jti)
    requires j in c.expiry && Owned(c, s, w, j) && id in s.tasks
    ensures Owned(c, Return(s, id, revoked), w, j)
  {
  }

  /** A check that is to cache an answer runs on another worker, or on another token. */
  predicate Elsewhere(t: Task, w: Worker, j: Jti) { t.worker != w || t.jti != j }

  lemma AfterGetStaysOwned(c: Config, s: System, id: TaskId, w: Worker, j: Jti)
    requires j in c.expiry && Owned(c, s, w, j) && id in s.tasks && s.tasks[id].pc.GotRedis?
    requires Elsewhere(s.tasks[id], w, j)
    ensures Owned(c, DoAfterGet(c, s, id), w, j)
  {
    hide Owned;
    var t := s.tasks[id];
    if t.pc.reply.None? {
      GotoStaysOwned(c, s, id, AwaitSelect, w, j);
    } else if t.pc.reply.value.expiresAt <= t.now {
      GotoStaysOwned(c, s, id, AwaitRedisDelete, w, j);
    } else {
      var slot, revoked := Slot(t.worker, t.jti), t.pc.reply.value.revoked;
      WriteStaysOwned(c, s, slot, revoked, t.now, t.expiry, w, j);
      ReturnStaysOwned(c, WriteLocal(c, s, slot, revoked, t.now, t.expiry), id, revoked, w, j);
    }
  }

  lemma StoreStaysOwned(c: Config, s: System, id: TaskId, revoked: bool, expiresAt: Time, w: Worker, j: Jti)
    requires j in c.expiry && Owned(c, s, w, j) && id in s.tasks && Elsewhere(s.tasks[id], w, j)
    ensures var t := s.tasks[id];
            Owned(c, Goto(WriteLocal(c, s, Slot(t.worker, t.jti), revoked, t.now, expiresAt), id,
                          AwaitRedisSet(revoked, expiresAt)), w, j)
  {
    hide Owned;
    var t := s.tasks[id];
    var slot := Slot(t.worker, t.jti);
    WriteStaysOwned(c, s, slot, revoked, t.now, expiresAt, w, j);
    GotoStaysOwned(c, WriteLocal(c, s, slot, revoked, t.now, expiresAt), id, AwaitRedisSet(revoked, expiresAt), w, j);
  }

  lemma AfterSelectStaysOwned(c: Config, s: System, id: TaskId, w: Worker, j: Jti)
    requires j in c.expiry && Owned(c, s, w, j) && id in s.tasks && s.tasks[id].pc.GotRow?
    requires Elsewhere(s.tasks[id], w, j)
    ensures Owned(c, DoAfterSelect(c, s, id), w, j)
  {
    hide Owned;
    var t := s.tasks[id];
    if t.pc.row.None? {
      StoreStaysOwned(c, s, id, false, t.expiry, w, j);
    } else if t.pc.row.value <= t.now {
      GotoStaysOwned(c, s, id, AwaitRowDelete, w, j);
    } else {
      StoreStaysOwned(c, s, id, true, t.pc.row.value, w, j);
    }
  }

  lemma RevokeStaysOwned(c: Config, s: System, id: TaskId, w: Worker, j: Jti)
    requires j in c.expiry && Inv(c, s) && Owned(c, s, w, j) && id in s.tasks && s.tasks[id].kind == Revoke
    ensures Owned(c, DoCommit(s, id), w, j) && Owned(c, DoAbort(s, id), w, j)
    ensures Owned(c, DoAfterCommit(c, s, id), w, j)
  {
    OwnedTask(c, s, w, j, id);
    hide Inv, CleanupDue, Unexpired, CacheUntil;
    StaysOwned(c, s, DoCommit(s, id), w, j, id);
    StaysOwned(c, s, DoAbort(s, id), w, j, id);
    var t := s.tasks[id].(now := s.clock, pc := AwaitRedisSet(true, s.tasks[id].expiry));
    var s1 := s.(tasks := s.tasks[id := t]);
    StaysOwned(c, s, s1, w, j, id);
    WriteStaysOwned(c, s1, Slot(t.worker, t.jti), true, t.now, t.expiry, w, j);
  }

  lemma BeginCheckStaysOwned(c: Config, s: System, id: TaskId, v: Worker, k: Jti, expiry: Time, w: Worker, j: Jti)
    requires j in c.expiry && Owned(c, s, w, j) && s.clock < c.expiry[j]
    ensures Owned(c, DoBeginCheck(s, id, v, k, expiry), w, j)
    ensures v == w && k == j ==> DoBeginCheck(s, id, v, k, expiry) ==
                                 s.(answers := s.answers + [Answer(j, s.clock, s.clock, true, |s.writes|, true)])
  {
  }

  lemma ReplyStaysOwned(c: Config, s: System, id: TaskId, w: Worker, j: Jti)
    requires j in c.expiry && Owned(c, s, w, j) && id in s.tasks && s.tasks[id].pc.Replying?
    ensures Owned(c, DoReply(s, id), w, j)
  {
  }

  lemma TablesStayOwned(c: Config, s: System, s': System, w: Worker, j: Jti)
    requires j in c.expiry && Owned(c, s, w, j)
    requires s' == s.(rows := s'.rows, redis := s'.redis, writes := s'.writes)
    ensures Owned(c, s', w, j)
  {
  }

  lemma RedisSetStaysOwned(c: Config, s: System, id: TaskId, ok: bool, w: Worker, j: Jti)
    requires j in c.expiry && Owned(c, s, w, j) && Enabled(c, s, RedisSet(id, ok))
    ensures Owned(c, Apply(c, s, RedisSet(id, ok)), w, j)
  {
    hide Owned, Overtaken, PendingEntry;
    var s1 := Goto(s, id, Replying(s.tasks[id].pc.revoked));
    GotoStaysOwned(c, s, id, Replying(s.tasks[id].pc.revoked), w, j);
    TablesStayOwned(c, s1, Apply(c, s, RedisSet(id, ok)), w, j);
  }

  lemma LookupStaysOwned(c: Config, s: System, step: Step, w: Worker, j: Jti)
    requires j in c.expiry && Owned(c, s, w, j) && Enabled(c, s, step)
    requires step.RedisGet? || step.RedisDelete? || step.SelectRow? || step.DeleteRow?
    ensures Owned(c, Apply(c, s, step), w, j)
  {
    hide Owned, Visible;
    var s1 := Goto(s, step.id, Apply(c, s, step).tasks[step.id].pc);
    GotoStaysOwned(c, s, step.id, Apply(c, s, step).tasks[step.id].pc, w, j);
    TablesStayOwned(c, s1, Apply(c, s, step), w, j);
  }

  lemma QuietStaysOwned(c: Config, s: System, step: Step, w: Worker, j: Jti)
    requires j in c.expiry && Owned(c, s, w, j) && Enabled(c, s, step)
    requires step.Tick? || (step.EvictLocal? && step.slot != Slot(w, j)) || step.EvictRedis? || step.BeginRevoke?
    ensures Owned(c, Apply(c, s, step), w, j)
  {
    hide MayTick, Resolved;
    StaysOwned(c, s, Apply(c, s, step), w, j, if step.BeginRevoke? then step.id else 0);
  }

  lemma OnlyRevocationsCommit(c: Config, s: System, id: TaskId)
    requires Inv(c, s) && id in s.tasks && (s.tasks[id].pc.AwaitCommit? || s.tasks[id].pc.Committed?)
    ensures s.tasks[id].kind == Revoke
  {
    TaskFacts(c, s, id);
  }

  lemma StepStaysOwned(c: Config, s: System, step: Step, w: Worker, j: Jti)
    requires j in c.expiry && Inv(c, s) && Owned(c, s, w, j) && s.clock < c.expiry[j]
    requires Enabled(c, s, step) && step != EvictLocal(Slot(w, j))
    ensures Owned(c, Apply(c, s, step), w, j)
  {
    if step.CommitRevoke? || step.AbortRevoke? || step.AfterCommit? { OnlyRevocationsCommit(c, s, step.id); }
    if step.AfterGet? || step.AfterSelect? || step.AfterDelete? { OwnedTask(c, s, w, j, step.id); }
    hide Inv, Owned;
    match step
    case BeginCheck(id, v, k, expiry) => BeginCheckStaysOwned(c, s, id, v, k, expiry, w, j);
    case AfterGet(id) => AfterGetStaysOwned(c, s, id, w, j);
    case AfterSelect(id) => AfterSelectStaysOwned(c, s, id, w, j);
    case AfterDelete(id) => StoreStaysOwned(c, s, id, false, s.tasks[id].expiry, w, j);
    case CommitRevoke(id) => RevokeStaysOwned(c, s, id, w, j);
    case AbortRevoke(id) => RevokeStaysOwned(c, s, id, w, j);
    case AfterCommit(id) => RevokeStaysOwned(c, s, id, w, j);
    case Tick(_) => QuietStaysOwned(c, s, step, w, j);
    case EvictLocal(_) => QuietStaysOwned(c, s, step, w, j);
    case EvictRedis(_) => QuietStaysOwned(c, s, step, w, j);
    case BeginRevoke(_, _, _, _) => QuietStaysOwned(c, s, step, w, j);
    case Reply(id) => ReplyStaysOwned(c, s, id, w, j);
    case RedisSet(id, ok) => RedisSetStaysOwned(c, s, id, ok, w, j);
    case _ => LookupStaysOwned(c, s, step, w, j);
  }

  lemma {:induction false} RunStaysOwned(c: Config, s: System, steps: seq<Step>, w: Worker, j: Jti)
    requires j in c.expiry && Reachable(c, s) && Owned(c, s, w, j) && IsRun(c, s, steps)
    requires EvictLocal(Slot(w, j)) !in steps && After(c, s, steps).clock < c.expiry[j]
    ensures Owned(c, After(c, s, steps), w, j)
    decreases |steps|
  {
    if steps != [] {
      var last := |steps| - 1;
      var before := After(c, s, steps[..last]);
      RunStaysReachable(c, s, steps[..last]);
      ReachableSettled(c, before);
      StepProceeds(c, before, steps[last]);
      RunStaysOwned(c, s, steps[..last], w, j);
      StepStaysOwned(c, before, steps[last], w, j);
    }
  }

  lemma CachedIsOwned(c: Config, s: System, id: TaskId)
    requires Inv(c, s) && At(s, id, Committed) && s.tasks[id].jti in c.expiry
    requires NoneChecks(s, s.tasks[id].worker, s.tasks[id].jti)
    ensures Owned(c, DoAfterCommit(c, s, id), s.tasks[id].worker, s.tasks[id].jti)
  {
    TaskFacts(c, s, id);
    hide Inv;
  }

  /** Once `revoke_token` has cached its answer, with no check of that token running on that
      worker, and as long as the copy is not evicted, every check on the worker answers "revoked"
      at once until the expiry. */
  lemma OwnRevocationHolds(c: Config, s: System, id: TaskId, steps: seq<Step>, next: TaskId)
    requires Reachable(c, s) && At(s, id, Committed) && s.tasks[id].jti in c.expiry
    requires NoneChecks(s, s.tasks[id].worker, s.tasks[id].jti)
    requires IsRun(c, Apply(c, s, AfterCommit(id)), steps)
    requires EvictLocal(Slot(s.tasks[id].worker, s.tasks[id].jti)) !in steps
    requires var s' := After(c, Apply(c, s, AfterCommit(id)), steps);
             s'.clock < c.expiry[s.tasks[id].jti] && next !in s'.tasks
    ensures var j := s.tasks[id].jti;
            var s' := After(c, Apply(c, s, AfterCommit(id)), steps);
            Apply(c, s', BeginCheck(next, s.tasks[id].worker, j, c.expiry[j])) ==
            s'.(answers := s'.answers + [Answer(j, s'.clock, s'.clock, true, |s'.writes|, true)])
  {
    hide Reachable;
    var t := s.tasks[id];
    var s1 := Apply(c, s, AfterCommit(id));
    ReachableInv(c, s);
    hide Inv, Owned;
    CachedIsOwned(c, s, id);
    Extend(c, s, AfterCommit(id));
    RunStaysOwned(c, s1, steps, t.worker, t.jti);
    BeginCheckStaysOwned(c, After(c, s1, steps), next, t.worker, t.jti, c.expiry[t.jti], t.worker, t.jti);
  }
}
