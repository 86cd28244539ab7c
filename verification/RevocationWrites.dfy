/** What `revoke_token` gains by storing its answer in Redis: once it has, denials end within the
    in-process lifetime, not only within the bound of `RevocationProtocol.BoundedStaleness`. */
module RevocationWrites {
  import opened RevocationTime
  import opened RevocationProtocol
  import opened Wrappers

  /** How long after the write an in-process copy of an older "not revoked" can be served. */
  function CopyBound(c: Config): int { Max(c.negativeTtl, 1) }

  /** Carries a "not revoked" that is not going to be stored in Redis. */
  predicate SaysNo(pc: Pc) {
    (pc.GotRedis? && pc.reply.Some? && !pc.reply.value.revoked) || (pc.Replying? && !pc.revoked)
  }

  // ---------------------------------------------------------------- the invariant

  predicate TaskQuelled(t: Task, u: Time, i: nat) {
    !Blind(t) && (SaysNo(t.pc) ==> t.now <= u && t.seen <= i)
  }

  /** The negative knowledge left about `j` after the write `i`, made at `u`. */
  ghost predicate Quelled(c: Config, s: System, j: Jti, u: Time, i: nat) {
    && (j in s.redis ==> s.redis[j].revoked)
    && (forall w :: Slot(w, j) in s.local && !s.local[Slot(w, j)].revoked ==>
          s.local[Slot(w, j)].until <= u + c.negativeTtl)
    && (forall id :: id in s.tasks && s.tasks[id].jti == j ==> TaskQuelled(s.tasks[id], u, i))
  }

  predicate AnswerQuelled(c: Config, a: Answer, w: Write, i: nat) {
    a.jti == w.jti && a.jti in c.expiry && a.at < c.expiry[a.jti] && !a.revoked ==>
      a.now < w.at + CopyBound(c) && (a.local || a.seen <= i)
  }

  ghost predicate WriteHolds(c: Config, s: System, i: nat)
    requires i < |s.writes|
  {
    var w := s.writes[i];
    && w.at <= s.clock && w.jti in s.firstCommit
    && (!w.overtaken && Live(c, s, w.jti) ==> Quelled(c, s, w.jti, w.at, i))
    && (!w.overtaken ==> forall a :: a in s.answers ==> AnswerQuelled(c, a, w, i))
  }

  ghost predicate Counted(s: System) {
    && (forall id :: id in s.tasks ==> s.tasks[id].seen <= |s.writes|)
    && (forall a :: a in s.answers ==> a.seen <= |s.writes|)
  }

  ghost predicate Settled(c: Config, s: System) {
    Inv(c, s) && Earned(s) && Counted(s) && forall i :: 0 <= i < |s.writes| ==> WriteHolds(c, s, i)
  }

  // ---------------------------------------------------------------- every step keeps it

  lemma QuelledTask(c: Config, s: System, j: Jti, u: Time, i: nat, id: TaskId)
    requires Quelled(c, s, j, u, i) && id in s.tasks && s.tasks[id].jti == j
    ensures TaskQuelled(s.tasks[id], u, i)
  {
  }

  /** Entries may go and one task may move. */
  lemma TaskMoves(c: Config, s: System, s': System, id: TaskId, j: Jti, u: Time, i: nat)
    requires Quelled(c, s, j, u, i)
    requires forall k :: k in s'.redis ==> k in s.redis && s'.redis[k] == s.redis[k]
    requires forall slot :: slot in s'.local ==> slot in s.local && s'.local[slot] == s.local[slot]
    requires forall k :: k in s'.tasks && k != id ==> k in s.tasks && s'.tasks[k] == s.tasks[k]
    requires id in s'.tasks && s'.tasks[id].jti == j && !(id in s.tasks && s'.tasks[id] == s.tasks[id]) ==>
               TaskQuelled(s'.tasks[id], u, i)
    ensures Quelled(c, s', j, u, i)
  {
  }

  lemma GotoQuelled(c: Config, s: System, id: TaskId, pc: Pc, j: Jti, u: Time, i: nat)
    requires Quelled(c, s, j, u, i) && id in s.tasks
    requires s.tasks[id].jti == j ==> TaskQuelled(s.tasks[id].(pc := pc), u, i)
    ensures Quelled(c, Goto(s, id, pc), j, u, i)
  {
  }

  lemma ReturnQuelled(c: Config, s: System, id: TaskId, revoked: bool, j: Jti, u: Time, i: nat)
    requires Quelled(c, s, j, u, i) && id in s.tasks
    ensures Quelled(c, Return(s, id, revoked), j, u, i)
  {
  }

  lemma LocalWritten(c: Config, s: System, slot: Slot, revoked: bool, now: Time, expiresAt: Time,
                     j: Jti, u: Time, i: nat)
    requires Quelled(c, s, j, u, i) && (slot.jti == j && !revoked ==> now <= u)
    ensures Quelled(c, WriteLocal(c, s, slot, revoked, now, expiresAt), j, u, i)
  {
  }

  lemma RedisWritten(c: Config, s: System, id: TaskId, ok: bool, j: Jti, u: Time, i: nat)
    requires Quelled(c, s, j, u, i) && id in s.tasks && s.tasks[id].pc.AwaitRedisSet?
    ensures Quelled(c, DoRedisSet(c, s, id, ok), j, u, i)
  {
    var t := s.tasks[id];
    if t.jti == j { QuelledTask(c, s, j, u, i, id); }
    var s1 := if ok then s.(redis := s.redis[t.jti := PendingEntry(c, s, t)]) else s;
    assert Quelled(c, s1, j, u, i);
    hide Quelled;
    GotoQuelled(c, s1, id, Replying(t.pc.revoked), j, u, i);
  }

  lemma AfterGetQuelled(c: Config, s: System, id: TaskId, j: Jti, u: Time, i: nat)
    requires Quelled(c, s, j, u, i) && id in s.tasks && s.tasks[id].pc.GotRedis?
    ensures Quelled(c, DoAfterGet(c, s, id), j, u, i)
  {
    hide Quelled;
    var t := s.tasks[id];
    if t.jti == j { QuelledTask(c, s, j, u, i, id); }
    if t.pc.reply.None? {
      GotoQuelled(c, s, id, AwaitSelect, j, u, i);
    } else if t.pc.reply.value.expiresAt <= t.now {
      GotoQuelled(c, s, id, AwaitRedisDelete, j, u, i);
    } else {
      var revoked := t.pc.reply.value.revoked;
      LocalWritten(c, s, Slot(t.worker, t.jti), revoked, t.now, t.expiry, j, u, i);
      ReturnQuelled(c, WriteLocal(c, s, Slot(t.worker, t.jti), revoked, t.now, t.expiry), id, revoked, j, u, i);
    }
  }

  /** An answer is cached in process and about to be stored in Redis. */
  lemma StoreQuelled(c: Config, s: System, id: TaskId, revoked: bool, expiresAt: Time, j: Jti, u: Time, i: nat)
    requires Quelled(c, s, j, u, i) && id in s.tasks && (s.tasks[id].jti == j ==> revoked)
    ensures var t := s.tasks[id];
            Quelled(c, Goto(WriteLocal(c, s, Slot(t.worker, t.jti), revoked, t.now, expiresAt), id,
                            AwaitRedisSet(revoked, expiresAt)), j, u, i)
  {
    hide Quelled;
    var t := s.tasks[id];
    var s1 := WriteLocal(c, s, Slot(t.worker, t.jti), revoked, t.now, expiresAt);
    LocalWritten(c, s, Slot(t.worker, t.jti), revoked, t.now, expiresAt, j, u, i);
    GotoQuelled(c, s1, id, AwaitRedisSet(revoked, expiresAt), j, u, i);
  }

  lemma AfterSelectQuelled(c: Config, s: System, id: TaskId, j: Jti, u: Time, i: nat)
    requires Quelled(c, s, j, u, i) && id in s.tasks && s.tasks[id].pc.GotRow?
    ensures Quelled(c, DoAfterSelect(c, s, id), j, u, i)
  {
    hide Quelled;
    var t := s.tasks[id];
    if t.jti == j { QuelledTask(c, s, j, u, i, id); }
    if t.pc.row.None? {
      StoreQuelled(c, s, id, false, t.expiry, j, u, i);
    } else if t.pc.row.value <= t.now {
      GotoQuelled(c, s, id, AwaitRowDelete, j, u, i);
    } else {
      StoreQuelled(c, s, id, true, t.pc.row.value, j, u, i);
    }
  }

  lemma AfterCommitQuelled(c: Config, s: System, id: TaskId, j: Jti, u: Time, i: nat)
    requires Quelled(c, s, j, u, i) && At(s, id, Committed)
    ensures Quelled(c, DoAfterCommit(c, s, id), j, u, i)
  {
    hide Quelled;
    var t := s.tasks[id].(now := s.clock, pc := AwaitRedisSet(true, s.tasks[id].expiry));
    var s1 := s.(tasks := s.tasks[id := t]);
    TaskMoves(c, s, s1, id, j, u, i);
    LocalWritten(c, s1, Slot(t.worker, t.jti), true, t.now, t.expiry, j, u, i);
  }

  /** Unexpired and committed, `j` has its row: no check finds none, or deletes it. */
  lemma LiveTask(c: Config, s: System, id: TaskId, j: Jti)
    requires Inv(c, s) && Live(c, s, j) && id in s.tasks && s.tasks[id].jti == j
    ensures j in s.rows && s.tasks[id].pc != RowDeleted && s.tasks[id].now <= s.clock
  {
    TaskFacts(c, s, id);
  }

  lemma RedisGetQuelled(c: Config, s: System, id: TaskId, ok: bool, j: Jti, u: Time, i: nat)
    requires Quelled(c, s, j, u, i) && At(s, id, AwaitRedisGet)
    ensures Quelled(c, Apply(c, s, RedisGet(id, ok)), j, u, i)
  {
    GotoQuelled(c, s, id, GotRedis(if ok then Visible(s, s.tasks[id].jti) else None), j, u, i);
  }

  lemma RedisDeleteQuelled(c: Config, s: System, id: TaskId, ok: bool, j: Jti, u: Time, i: nat)
    requires Quelled(c, s, j, u, i) && At(s, id, AwaitRedisDelete)
    ensures Quelled(c, Apply(c, s, RedisDelete(id, ok)), j, u, i)
  {
    hide Quelled;
    var s1 := if ok then s.(redis := s.redis - {s.tasks[id].jti}) else s;
    TaskMoves(c, s, s1, id, j, u, i);
    GotoQuelled(c, s1, id, AwaitSelect, j, u, i);
  }

  lemma SelectRowQuelled(c: Config, s: System, id: TaskId, j: Jti, u: Time, i: nat)
    requires At(s, id, AwaitSelect) && Inv(c, s) && Live(c, s, j) && Quelled(c, s, j, u, i)
    ensures Quelled(c, Apply(c, s, SelectRow(id)), j, u, i)
  {
    var t := s.tasks[id];
    if t.jti == j { LiveTask(c, s, id, j); }
    hide Inv, Live, Quelled;
    GotoQuelled(c, s, id, GotRow(if t.jti in s.rows then Some(s.rows[t.jti]) else None), j, u, i);
  }

  lemma DeleteRowQuelled(c: Config, s: System, id: TaskId, j: Jti, u: Time, i: nat)
    requires At(s, id, AwaitRowDelete) && Quelled(c, s, j, u, i)
    ensures Quelled(c, Apply(c, s, DeleteRow(id)), j, u, i)
  {
    hide Quelled;
    var s1 := s.(rows := s.rows - {s.tasks[id].jti});
    TaskMoves(c, s, s1, id, j, u, i);
    GotoQuelled(c, s1, id, RowDeleted, j, u, i);
  }

  lemma NewTaskQuelled(c: Config, s: System, id: TaskId, t: Task, j: Jti, u: Time, i: nat)
    requires Quelled(c, s, j, u, i) && (t.pc == AwaitCommit || t.pc == AwaitRedisGet)
    ensures Quelled(c, s.(tasks := s.tasks[id := t]), j, u, i)
  {
  }

  lemma LocalDropped(c: Config, s: System, slot: Slot, j: Jti, u: Time, i: nat)
    requires Quelled(c, s, j, u, i)
    ensures Quelled(c, s.(local := s.local - {slot}), j, u, i)
  {
  }

  lemma OnlyAnswered(c: Config, s: System, a: Answer, j: Jti, u: Time, i: nat)
    requires Quelled(c, s, j, u, i)
    ensures Quelled(c, s.(answers := s.answers + [a]), j, u, i)
  {
  }

  lemma BeginCheckQuelled(c: Config, s: System, id: TaskId, w: Worker, t: Jti, expiry: Time, j: Jti, u: Time, i: nat)
    requires Quelled(c, s, j, u, i)
    ensures Quelled(c, DoBeginCheck(s, id, w, t, expiry), j, u, i)
  {
    hide Quelled;
    var slot := Slot(w, t);
    if slot in s.local && s.local[slot].until > s.clock {
      OnlyAnswered(c, s, Answer(t, s.clock, s.clock, s.local[slot].revoked, |s.writes|, true), j, u, i);
    } else {
      LocalDropped(c, s, slot, j, u, i);
      NewTaskQuelled(c, s.(local := s.local - {slot}), id,
                     Task(Check, w, t, expiry, s.clock, AwaitRedisGet, |s.writes|), j, u, i);
    }
  }

  lemma CommitQuelled(c: Config, s: System, id: TaskId, j: Jti, u: Time, i: nat)
    requires Quelled(c, s, j, u, i) && At(s, id, AwaitCommit)
    ensures Quelled(c, DoCommit(s, id), j, u, i) && Quelled(c, DoAbort(s, id), j, u, i)
  {
    hide CleanupDue, Unexpired;
  }

  lemma ReplyQuelled(c: Config, s: System, id: TaskId, j: Jti, u: Time, i: nat)
    requires Quelled(c, s, j, u, i) && id in s.tasks && s.tasks[id].pc.Replying?
    ensures Quelled(c, DoReply(s, id), j, u, i)
  {
  }

  lemma QuietQuelled(c: Config, s: System, step: Step, j: Jti, u: Time, i: nat)
    requires Enabled(c, s, step) && Quelled(c, s, j, u, i)
    requires step.Tick? || step.EvictLocal? || step.EvictRedis?
    ensures Quelled(c, Apply(c, s, step), j, u, i)
  {
    hide MayTick;
  }

  lemma RedisSetQuelled(c: Config, s: System, id: TaskId, ok: bool, j: Jti, u: Time, i: nat)
    requires Enabled(c, s, RedisSet(id, ok)) && Quelled(c, s, j, u, i)
    ensures Quelled(c, Apply(c, s, RedisSet(id, ok)), j, u, i)
  {
    RedisWritten(c, s, id, ok, j, u, i);
    hide DoRedisSet;
  }

  lemma StepStaysQuelled(c: Config, s: System, step: Step, j: Jti, u: Time, i: nat)
    requires Enabled(c, s, step) && Inv(c, s) && Live(c, s, j) && Quelled(c, s, j, u, i)
    ensures Quelled(c, Apply(c, s, step), j, u, i)
  {
    hide Inv, Live, Quelled;
    match step
    case Tick(_) => QuietQuelled(c, s, step, j, u, i);
    case EvictLocal(_) => QuietQuelled(c, s, step, j, u, i);
    case EvictRedis(_) => QuietQuelled(c, s, step, j, u, i);
    case BeginCheck(id, w, t, expiry) => BeginCheckQuelled(c, s, id, w, t, expiry, j, u, i);
    case RedisGet(id, ok) => RedisGetQuelled(c, s, id, ok, j, u, i);
    case RedisDelete(id, ok) => RedisDeleteQuelled(c, s, id, ok, j, u, i);
    case SelectRow(id) => SelectRowQuelled(c, s, id, j, u, i);
    case DeleteRow(id) => DeleteRowQuelled(c, s, id, j, u, i);
    case AfterGet(id) => AfterGetQuelled(c, s, id, j, u, i);
    case AfterSelect(id) => AfterSelectQuelled(c, s, id, j, u, i);
    case AfterDelete(id) =>
      if s.tasks[id].jti == j { LiveTask(c, s, id, j); }
      StoreQuelled(c, s, id, false, s.tasks[id].expiry, j, u, i);
    case AfterCommit(id) => AfterCommitQuelled(c, s, id, j, u, i);
    case RedisSet(id, ok) => RedisSetQuelled(c, s, id, ok, j, u, i);
    case BeginRevoke(id, w, t, expiry) =>
      NewTaskQuelled(c, s, id, Task(Revoke, w, t, expiry, s.clock, AwaitCommit, |s.writes|), j, u, i);
    case CommitRevoke(id) => CommitQuelled(c, s, id, j, u, i);
    case AbortRevoke(id) => CommitQuelled(c, s, id, j, u, i);
    case Reply(id) => ReplyQuelled(c, s, id, j, u, i);
  }

  // ---------------------------------------------------------------- what a step does to the history

  /** An answer given from `s`: by a copy in process, or by a running check from Redis or the table. */
  ghost predicate Given(s: System, a: Answer) {
    && a.at == s.clock
    && if a.local then
         && a.seen == |s.writes| && a.now == s.clock
         && exists w :: Slot(w, a.jti) in s.local && s.local[Slot(w, a.jti)].until > s.clock &&
                        s.local[Slot(w, a.jti)].revoked == a.revoked
       else
         exists id :: id in s.tasks && s.tasks[id].jti == a.jti && s.tasks[id].now == a.now &&
                      s.tasks[id].seen == a.seen && (a.revoked || SaysNo(s.tasks[id].pc))
  }

  /** About to find no row. */
  predicate FindsNoRow(s: System, t: Task) { (t.pc == AwaitSelect && t.jti !in s.rows) || t.pc == RowDeleted }

  /** A call keeps its identity, and becomes blind only by finding no row. */
  predicate TaskProceeds(s: System, id: TaskId, t: Task) {
    if id in s.tasks then
      && t.seen == s.tasks[id].seen && t.jti == s.tasks[id].jti
      && (Blind(t) ==> Blind(s.tasks[id]) || FindsNoRow(s, s.tasks[id]))
    else t.seen == |s.writes| && !Blind(t)
  }

  /** `revoke_token` stores its answer. */
  predicate Notes(s: System, step: Step) {
    step.RedisSet? && step.ok && step.id in s.tasks && s.tasks[step.id].kind == Revoke
  }

  ghost predicate Proceeds(s: System, s': System, noted: bool) {
    && s.clock <= s'.clock && s.writes <= s'.writes && (s'.writes == s.writes || noted)
    && s.firstCommit.Keys <= s'.firstCommit.Keys
    && (forall id :: id in s'.tasks ==> TaskProceeds(s, id, s'.tasks[id]))
    && (forall a :: a in s'.answers ==> a in s.answers || Given(s, a))
  }

  /** The store changes, and a task moves on. */
  lemma GotoProceeds(s: System, s1: System, id: TaskId, pc: Pc)
    requires id in s.tasks && s1 == s.(rows := s1.rows, redis := s1.redis, local := s1.local)
    requires TaskProceeds(s, id, s.tasks[id].(pc := pc))
    ensures Proceeds(s, Goto(s1, id, pc), false)
  {
  }

  lemma ReturnProceeds(s: System, s1: System, id: TaskId, revoked: bool)
    requires id in s.tasks && s1 == s.(local := s1.local) && (revoked || SaysNo(s.tasks[id].pc))
    ensures Proceeds(s, Return(s1, id, revoked), false)
  {
    var t := s.tasks[id];
    assert Given(s, Answer(t.jti, t.now, s.clock, revoked, t.seen, false));
  }

  lemma BeginCheckProceeds(s: System, id: TaskId, w: Worker, j: Jti, expiry: Time)
    requires id !in s.tasks
    ensures Proceeds(s, DoBeginCheck(s, id, w, j, expiry), false)
  {
    var slot := Slot(w, j);
    if slot in s.local && s.local[slot].until > s.clock {
      assert Given(s, Answer(j, s.clock, s.clock, s.local[slot].revoked, |s.writes|, true));
    }
  }

  lemma AfterGetProceeds(c: Config, s: System, id: TaskId)
    requires id in s.tasks && s.tasks[id].pc.GotRedis?
    ensures Proceeds(s, DoAfterGet(c, s, id), false)
  {
    hide Proceeds;
    var t := s.tasks[id];
    if t.pc.reply.None? {
      GotoProceeds(s, s, id, AwaitSelect);
    } else if t.pc.reply.value.expiresAt <= t.now {
      GotoProceeds(s, s, id, AwaitRedisDelete);
    } else {
      var revoked := t.pc.reply.value.revoked;
      ReturnProceeds(s, WriteLocal(c, s, Slot(t.worker, t.jti), revoked, t.now, t.expiry), id, revoked);
    }
  }

  lemma StoreProceeds(c: Config, s: System, id: TaskId, revoked: bool, expiresAt: Time)
    requires id in s.tasks && (revoked || Blind(s.tasks[id]) || FindsNoRow(s, s.tasks[id]))
    ensures var t := s.tasks[id];
            Proceeds(s, Goto(WriteLocal(c, s, Slot(t.worker, t.jti), revoked, t.now, expiresAt), id,
                             AwaitRedisSet(revoked, expiresAt)), false)
  {
    var t := s.tasks[id];
    GotoProceeds(s, WriteLocal(c, s, Slot(t.worker, t.jti), revoked, t.now, expiresAt), id,
                 AwaitRedisSet(revoked, expiresAt));
  }

  lemma AfterSelectProceeds(c: Config, s: System, id: TaskId)
    requires id in s.tasks && s.tasks[id].pc.GotRow?
    ensures Proceeds(s, DoAfterSelect(c, s, id), false)
  {
    hide Proceeds;
    var t := s.tasks[id];
    if t.pc.row.None? {
      StoreProceeds(c, s, id, false, t.expiry);
    } else if t.pc.row.value <= t.now {
      GotoProceeds(s, s, id, AwaitRowDelete);
    } else {
      StoreProceeds(c, s, id, true, t.pc.row.value);
    }
  }

  lemma RevokeProceeds(c: Config, s: System, id: TaskId)
    requires id in s.tasks
    ensures Proceeds(s, DoCommit(s, id), false) && Proceeds(s, DoAbort(s, id), false)
    ensures Proceeds(s, DoAfterCommit(c, s, id), false)
  {
    hide CleanupDue, Unexpired, CacheUntil;
  }

  lemma ReplyProceeds(s: System, id: TaskId)
    requires id in s.tasks && s.tasks[id].pc.Replying?
    ensures Proceeds(s, DoReply(s, id), false)
  {
    if s.tasks[id].kind == Check { ReturnProceeds(s, s, id, s.tasks[id].pc.revoked); }
  }

  lemma RedisSetProceeds(c: Config, s: System, id: TaskId, ok: bool)
    requires Enabled(c, s, RedisSet(id, ok))
    ensures Proceeds(s, Apply(c, s, RedisSet(id, ok)), Notes(s, RedisSet(id, ok)))
  {
    hide Overtaken, PendingEntry;
    var t := s.tasks[id];
    var s1 := if ok then s.(redis := s.redis[t.jti := PendingEntry(c, s, t)]) else s;
    GotoProceeds(s, s1, id, Replying(t.pc.revoked));
  }

  lemma LookupProceeds(c: Config, s: System, step: Step)
    requires Enabled(c, s, step) && (step.RedisGet? || step.RedisDelete? || step.SelectRow? || step.DeleteRow?)
    ensures Proceeds(s, Apply(c, s, step), false)
  {
    hide Proceeds, Visible;
    var t := s.tasks[step.id];
    match step
    case RedisGet(id, ok) => GotoProceeds(s, s, id, GotRedis(if ok then Visible(s, t.jti) else None));
    case SelectRow(id) => GotoProceeds(s, s, id, GotRow(if t.jti in s.rows then Some(s.rows[t.jti]) else None));
    case DeleteRow(id) => GotoProceeds(s, s.(rows := s.rows - {t.jti}), id, RowDeleted);
    case RedisDelete(id, ok) =>
      GotoProceeds(s, if ok then s.(redis := s.redis - {t.jti}) else s, id, AwaitSelect);
  }

  lemma QuietProceeds(c: Config, s: System, step: Step)
    requires Enabled(c, s, step)
    requires step.Tick? || step.EvictLocal? || step.EvictRedis? || step.BeginRevoke?
    ensures Proceeds(s, Apply(c, s, step), false)
  {
    hide MayTick, Resolved;
  }

  lemma StepProceeds(c: Config, s: System, step: Step)
    requires Enabled(c, s, step)
    ensures Proceeds(s, Apply(c, s, step), Notes(s, step))
  {
    hide Proceeds;
    match step
    case BeginCheck(id, w, j, expiry) => BeginCheckProceeds(s, id, w, j, expiry);
    case AfterGet(id) => AfterGetProceeds(c, s, id);
    case AfterSelect(id) => AfterSelectProceeds(c, s, id);
    case AfterDelete(id) => StoreProceeds(c, s, id, false, s.tasks[id].expiry);
    case CommitRevoke(id) => RevokeProceeds(c, s, id);
    case AbortRevoke(id) => RevokeProceeds(c, s, id);
    case AfterCommit(id) => RevokeProceeds(c, s, id);
    case RedisSet(id, ok) => RedisSetProceeds(c, s, id, ok);
    case Reply(id) => ReplyProceeds(s, id);
    case Tick(_) => QuietProceeds(c, s, step);
    case EvictLocal(_) => QuietProceeds(c, s, step);
    case EvictRedis(_) => QuietProceeds(c, s, step);
    case BeginRevoke(_, _, _, _) => QuietProceeds(c, s, step);
    case _ => LookupProceeds(c, s, step);
  }

  // ---------------------------------------------------------------- every write keeps holding

  lemma GivenIsQuelled(c: Config, s: System, i: nat, a: Answer)
    requires i < |s.writes| && WriteHolds(c, s, i) && !s.writes[i].overtaken && Given(s, a)
    ensures AnswerQuelled(c, a, s.writes[i], i)
  {
    hide SaysNo;
  }

  lemma OldWriteHolds(c: Config, s: System, step: Step, i: nat)
    requires Settled(c, s) && Enabled(c, s, step) && i < |s.writes|
    ensures var s' := Apply(c, s, step); s.writes <= s'.writes && WriteHolds(c, s', i)
  {
    hide Inv, Earned, Enabled, Apply, Quelled, AnswerQuelled, Given;
    var s', w := Apply(c, s, step), s.writes[i];
    StepProceeds(c, s, step);
    assert s'.writes[i] == w && WriteHolds(c, s, i);
    if !w.overtaken {
      if Live(c, s', w.jti) { StepStaysQuelled(c, s, step, w.jti, w.at, i); }
      forall a | a in s'.answers ensures AnswerQuelled(c, a, w, i) {
        if a !in s.answers { GivenIsQuelled(c, s, i, a); }
      }
    }
  }

  /** When `revoke_token` stores its answer and no blind check is left, only copies in process remain. */
  lemma WriteQuells(c: Config, s: System, id: TaskId)
    requires Inv(c, s) && Counted(s) && id in s.tasks && s.tasks[id].kind == Revoke && s.tasks[id].pc.AwaitRedisSet?
    requires !Overtaken(s, s.tasks[id].jti)
    ensures Quelled(c, DoRedisSet(c, s, id, true), s.tasks[id].jti, s.clock, |s.writes|)
  {
    TaskFacts(c, s, id);
    var j, s' := s.tasks[id].jti, DoRedisSet(c, s, id, true);
    forall k | k in s'.tasks && s'.tasks[k].jti == j ensures TaskQuelled(s'.tasks[k], s.clock, |s.writes|) {
      TaskFacts(c, s, k);
    }
  }

  lemma NewWriteHolds(c: Config, s: System, step: Step)
    requires Settled(c, s) && Enabled(c, s, step) && Notes(s, step)
    ensures var s' := Apply(c, s, step); |s'.writes| == |s.writes| + 1 && WriteHolds(c, s', |s.writes|)
  {
    var id, s' := step.id, Apply(c, s, step);
    TaskFacts(c, s, id);
    EarnedTask(s, id);
    if !Overtaken(s, s.tasks[id].jti) { WriteQuells(c, s, id); }
    hide Inv, Earned, WriteHolds, TaskTimed, TaskFresh, Overtaken, PendingEntry;
    assert s'.writes[|s.writes|] == Write(s.tasks[id].jti, s.clock, Overtaken(s, s.tasks[id].jti));
    forall a | a in s'.answers ensures a.now <= s.clock && a.seen <= |s.writes| { AnswerFacts(c, s, a); }
    NoteHolds(c, s, s');
  }

  lemma NoteHolds(c: Config, s: System, s': System)
    requires |s'.writes| == |s.writes| + 1 && s'.clock == s.clock
    requires var w := s'.writes[|s.writes|];
             && w.at == s.clock && w.jti in s'.firstCommit
             && (!w.overtaken ==> Quelled(c, s', w.jti, w.at, |s.writes|))
    requires forall a :: a in s'.answers ==> a.now <= s.clock && a.seen <= |s.writes|
    ensures WriteHolds(c, s', |s.writes|)
  {
    hide Quelled;
  }

  lemma AnswerFacts(c: Config, s: System, a: Answer)
    requires Inv(c, s) && a in s.answers
    ensures a.now <= a.at <= s.clock
  {
  }

  lemma CountKept(s: System, s': System, noted: bool)
    requires Counted(s) && Proceeds(s, s', noted)
    ensures Counted(s')
  {
  }

  lemma WritesHold(c: Config, s: System, step: Step, i: nat)
    requires Settled(c, s) && Enabled(c, s, step) && i < |Apply(c, s, step).writes|
    ensures WriteHolds(c, Apply(c, s, step), i)
  {
    hide Settled, WriteHolds, Apply, Enabled, TaskProceeds, Given;
    if i < |s.writes| {
      OldWriteHolds(c, s, step, i);
    } else {
      StepProceeds(c, s, step);
      NewWriteHolds(c, s, step);
    }
  }

  lemma StepKeepsSettled(c: Config, s: System, step: Step)
    requires Settled(c, s) && Enabled(c, s, step)
    ensures Settled(c, Apply(c, s, step))
  {
    hide Inv, Earned, Counted, WriteHolds, Enabled, Apply, Proceeds;
    StepKeepsInv(c, s, step);
    StepKeepsEarned(c, s, step);
    StepProceeds(c, s, step);
    CountKept(s, Apply(c, s, step), Notes(s, step));
    forall i | 0 <= i < |Apply(c, s, step).writes| ensures WriteHolds(c, Apply(c, s, step), i) {
      WritesHold(c, s, step, i);
    }
  }

  lemma {:induction false} RunKeepsSettled(c: Config, start: Time, steps: seq<Step>)
    requires IsRun(c, Init(start), steps)
    ensures Settled(c, After(c, Init(start), steps))
    decreases |steps|
  {
    if steps != [] {
      var last := |steps| - 1;
      RunKeepsSettled(c, start, steps[..last]);
      StepKeepsSettled(c, After(c, Init(start), steps[..last]), steps[last]);
    }
  }

  // ---------------------------------------------------------------- when a write is overtaken

  lemma NoneBlindStays(c: Config, s: System, step: Step, j: Jti)
    requires Inv(c, s) && Enabled(c, s, step) && Live(c, s, j) && !Overtaken(s, j)
    ensures !Overtaken(Apply(c, s, step), j)
  {
    StepProceeds(c, s, step);
    hide Inv, Live, Apply, Enabled;
    var s' := Apply(c, s, step);
    forall id | id in s'.tasks && s'.tasks[id].jti == j ensures !Blind(s'.tasks[id]) {
      assert TaskProceeds(s, id, s'.tasks[id]);
      if id in s.tasks { LiveTask(c, s, id, j); }
    }
  }

  lemma {:induction false} RunStaysReachable(c: Config, s: System, steps: seq<Step>)
    requires Reachable(c, s) && IsRun(c, s, steps)
    ensures Reachable(c, After(c, s, steps)) && s.writes <= After(c, s, steps).writes
    ensures s.clock <= After(c, s, steps).clock
    decreases |steps|
  {
    if steps != [] {
      var last := |steps| - 1;
      RunStaysReachable(c, s, steps[..last]);
      var before := After(c, s, steps[..last]);
      Extend(c, before, steps[last]);
      StepProceeds(c, before, steps[last]);
    }
  }

  lemma ReachableSettled(c: Config, s: System)
    requires Reachable(c, s)
    ensures Settled(c, s)
  {
    var start, steps :| IsRun(c, Init(start), steps) && s == After(c, Init(start), steps);
    RunKeepsSettled(c, start, steps);
  }

  lemma {:induction false} NoneBlindOverRun(c: Config, s: System, j: Jti, steps: seq<Step>)
    requires Reachable(c, s) && IsRun(c, s, steps) && j in s.firstCommit && j in c.expiry && !Overtaken(s, j)
    requires After(c, s, steps).clock < c.expiry[j]
    ensures j in After(c, s, steps).firstCommit && !Overtaken(After(c, s, steps), j)
    decreases |steps|
  {
    if steps != [] {
      var last := |steps| - 1;
      var before := After(c, s, steps[..last]);
      RunStaysReachable(c, s, steps[..last]);
      ReachableSettled(c, before);
      StepProceeds(c, before, steps[last]);
      NoneBlindOverRun(c, s, j, steps[..last]);
      NoneBlindStays(c, before, steps[last], j);
    }
  }

  lemma NotedWrite(c: Config, s: System, step: Step)
    requires Enabled(c, s, step) && Notes(s, step)
    ensures var t := s.tasks[step.id];
            Apply(c, s, step).writes == s.writes + [Write(t.jti, s.clock, Overtaken(s, t.jti))]
  {
    hide Overtaken, PendingEntry;
  }

  /** With no blind check in flight when a token's row is there, none ever is again, so no later
      write of that token is overtaken while the token is valid. */
  lemma {:induction false} LaterWriteIsNotOvertaken(c: Config, s: System, j: Jti, steps: seq<Step>, i: nat)
    requires Reachable(c, s) && IsRun(c, s, steps) && j in s.firstCommit && j in c.expiry && !Overtaken(s, j)
    requires |s.writes| <= i < |After(c, s, steps).writes|
    requires var w := After(c, s, steps).writes[i]; w.jti == j && w.at < c.expiry[j]
    ensures !After(c, s, steps).writes[i].overtaken
    decreases |steps|
  {
    if steps != [] {
      var last := |steps| - 1;
      var before := After(c, s, steps[..last]);
      StepProceeds(c, before, steps[last]);
      if i < |before.writes| {
        LaterWriteIsNotOvertaken(c, s, j, steps[..last], i);
      } else {
        NotedWrite(c, before, steps[last]);
        NoneBlindOverRun(c, s, j, steps[..last]);
      }
    }
  }

  /** A commit makes no check blind. */
  lemma CommitBlindsNone(c: Config, s: System, id: TaskId)
    requires At(s, id, AwaitCommit) && !Overtaken(s, s.tasks[id].jti)
    ensures var j, s' := s.tasks[id].jti, Apply(c, s, CommitRevoke(id)); j in s'.firstCommit && !Overtaken(s', j)
  {
    StepProceeds(c, s, CommitRevoke(id));
  }

  // ---------------------------------------------------------------- the guarantee

  /** Once `revoke_token` has stored its answer in Redis, no blind check left to overwrite it, a
      check that reads the clock a negative TTL later (and no earlier than the next microsecond)
      answers "revoked" before the expiry; and so does every check that begins after the write,
      unless its worker still holds a negative copy. */
  lemma WrittenRevocationHolds(c: Config, s: System, i: nat, a: Answer)
    requires Reachable(c, s) && i < |s.writes| && !s.writes[i].overtaken && a in s.answers
    requires a.jti == s.writes[i].jti && a.jti in c.expiry && a.at < c.expiry[a.jti]
    ensures a.now >= s.writes[i].at + CopyBound(c) ==> a.revoked
    ensures a.seen > i && !a.local ==> a.revoked
  {
    ReachableSettled(c, s);
    assert WriteHolds(c, s, i);
  }

  /** The same from the commit on: if no check of the token that had found no row was in flight
      when its row was committed (so in particular if no check of it was), each later successful
      write of `revoke_token` while the token is valid ends the denials. */
  lemma QuietRevocationHolds(c: Config, s: System, id: TaskId, steps: seq<Step>, i: nat, a: Answer)
    requires Reachable(c, s) && At(s, id, AwaitCommit) && s.tasks[id].jti in c.expiry
    requires !Overtaken(s, s.tasks[id].jti) && IsRun(c, Apply(c, s, CommitRevoke(id)), steps)
    requires var s' := After(c, Apply(c, s, CommitRevoke(id)), steps);
             && |s.writes| <= i < |s'.writes| && s'.writes[i].jti == s.tasks[id].jti
             && s'.writes[i].at < c.expiry[s.tasks[id].jti]
             && a in s'.answers && a.jti == s.tasks[id].jti && a.at < c.expiry[s.tasks[id].jti]
    ensures var w := After(c, Apply(c, s, CommitRevoke(id)), steps).writes[i];
            && (a.now >= w.at + CopyBound(c) ==> a.revoked)
            && (a.seen > i && !a.local ==> a.revoked)
  {
    hide Reachable;
    var s1 := Apply(c, s, CommitRevoke(id));
    Extend(c, s, CommitRevoke(id));
    CommitBlindsNone(c, s, id);
    LaterWriteIsNotOvertaken(c, s1, s.tasks[id].jti, steps, i);
    RunStaysReachable(c, s1, steps);
    WrittenRevocationHolds(c, After(c, s1, steps), i, a);
  }
}
