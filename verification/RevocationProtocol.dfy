/** Token revocation as a step system.

    Any number of workers share one clock, one `auth_revoked_token_jtis` table and
    one Redis. Every `await` of `is_token_revoked` and `revoke_token` is a point
    where other calls may run, so a call is a task that advances one step at a
    time: the moment an external system carries out a request and the moment the
    coroutine resumes with the reply are separate steps. Redis calls may fail at
    will; Redis and the in-process layers may lose entries at any time.
  */
module RevocationProtocol {
  import opened RevocationTime
  import opened Wrappers

  type Worker = nat
  type TaskId = nat
  type Jti = string

  /** `expiry` gives each decodable token's jti its fixed expiry. An identity outside
      it is a raw-token digest, whose expiry is counted from each call anew. */
  datatype Config = Config(negativeTtl: nat, maxDuration: nat, expiry: map<Jti, Time>)

  datatype Slot = Slot(worker: Worker, jti: Jti)
  datatype Local = Local(revoked: bool, until: Time)
  datatype Remote = Remote(revoked: bool, expiresAt: Time, diesAt: Time)

  datatype Kind = Check | Revoke

  datatype Pc =
    | AwaitRedisGet
    | GotRedis(reply: Option<Remote>)
    | AwaitRedisDelete
    | AwaitSelect
    | GotRow(row: Option<Time>)
    | AwaitRowDelete
    | RowDeleted
    | AwaitCommit
    | Committed
    | AwaitRedisSet(revoked: bool, expiresAt: Time)
    | Replying(revoked: bool)

  /** `seen` is history: how many revocations had been written to Redis when the call began. */
  datatype Task = Task(kind: Kind, worker: Worker, jti: Jti, expiry: Time, now: Time, pc: Pc, seen: nat)

  /** One answer of `is_token_revoked`: `now` is the call's clock read, `at` the moment it returned,
      `local` whether the in-process layer gave it. */
  datatype Answer = Answer(jti: Jti, now: Time, at: Time, revoked: bool, seen: nat, local: bool)

  /** A committed revocation and the expiry it gave the row. */
  datatype Commit = Commit(at: Time, expiry: Time)

  /** A revocation stored in Redis by `revoke_token`. It was overtaken if a check that had found
      no row was yet to store its answer. */
  datatype Write = Write(jti: Jti, at: Time, overtaken: bool)

  /** `firstCommit`, `lastCommit`, `writes` and `answers` are history: no step reads them. */
  datatype System = System(
    clock: Time,
    rows: map<Jti, Time>,
    redis: map<Jti, Remote>,
    local: map<Slot, Local>,
    cleanupDue: map<Worker, Time>,
    tasks: map<TaskId, Task>,
    firstCommit: map<Jti, Time>,
    lastCommit: map<Jti, Commit>,
    writes: seq<Write>,
    answers: seq<Answer>)

  datatype Step =
    | Tick(elapsed: nat)
    | EvictLocal(slot: Slot)
    | EvictRedis(key: Jti)
    | BeginCheck(id: TaskId, worker: Worker, jti: Jti, expiry: Time)
    | BeginRevoke(id: TaskId, worker: Worker, jti: Jti, expiry: Time)
    | RedisGet(id: TaskId, ok: bool)
    | AfterGet(id: TaskId)
    | RedisDelete(id: TaskId, ok: bool)
    | SelectRow(id: TaskId)
    | AfterSelect(id: TaskId)
    | DeleteRow(id: TaskId)
    | AfterDelete(id: TaskId)
    | CommitRevoke(id: TaskId)
    | AbortRevoke(id: TaskId)
    | AfterCommit(id: TaskId)
    | RedisSet(id: TaskId, ok: bool)
    | Reply(id: TaskId)

  const CLEANUP_INTERVAL: int := 60 * SECOND

  function Init(start: Time): System {
    System(start, map[], map[], map[], map[], map[], map[], map[], [], [])
  }

  // ---------------------------------------------------------------- steps

  predicate At(s: System, id: TaskId, pc: Pc) {
    id in s.tasks && s.tasks[id].pc == pc
  }

  /** Only a call in flight, its identity and time already fixed, can be slow: no check outlives
      `maxDuration` after its clock read. */
  predicate MayTick(c: Config, s: System, elapsed: nat) {
    forall id :: id in s.tasks && s.tasks[id].kind == Check ==>
      s.clock + elapsed <= s.tasks[id].now + c.maxDuration
  }

  predicate Identity(c: Config, jti: Jti, expiry: Time) {
    jti in c.expiry ==> expiry == c.expiry[jti]
  }

  /** What `_resolve_revocation_identity` yields: a decodable token's own expiry, or 30 days from now. */
  predicate Resolved(c: Config, now: Time, jti: Jti, expiry: Time) {
    if jti in c.expiry then expiry == c.expiry[jti] else expiry == now + RAW_TOKEN_TTL
  }

  predicate Enabled(c: Config, s: System, step: Step) {
    match step
    case Tick(elapsed) => MayTick(c, s, elapsed)
    case EvictLocal(_) => true
    case EvictRedis(_) => true
    case BeginCheck(id, _, jti, expiry) => id !in s.tasks && Resolved(c, s.clock, jti, expiry)
    case BeginRevoke(id, _, jti, expiry) => id !in s.tasks && Resolved(c, s.clock, jti, expiry)
    case RedisGet(id, _) => At(s, id, AwaitRedisGet)
    case AfterGet(id) => id in s.tasks && s.tasks[id].pc.GotRedis?
    case RedisDelete(id, _) => At(s, id, AwaitRedisDelete)
    case SelectRow(id) => At(s, id, AwaitSelect)
    case AfterSelect(id) => id in s.tasks && s.tasks[id].pc.GotRow?
    case DeleteRow(id) => At(s, id, AwaitRowDelete)
    case AfterDelete(id) => At(s, id, RowDeleted)
    case CommitRevoke(id) => At(s, id, AwaitCommit)
    case AbortRevoke(id) => At(s, id, AwaitCommit)
    case AfterCommit(id) => At(s, id, Committed)
    case RedisSet(id, _) => id in s.tasks && s.tasks[id].pc.AwaitRedisSet?
    case Reply(id) => id in s.tasks && s.tasks[id].pc.Replying?
  }

  function Goto(s: System, id: TaskId, pc: Pc): System
    requires id in s.tasks
  {
    s.(tasks := s.tasks[id := s.tasks[id].(pc := pc)])
  }

  /** `_cache_revocation_status`; the evictions it may cause are `EvictLocal` steps. */
  function WriteLocal(c: Config, s: System, slot: Slot, revoked: bool, now: Time, expiresAt: Time): System {
    s.(local := s.local[slot := Local(revoked, CacheUntil(revoked, now, expiresAt, c.negativeTtl))])
  }

  function Return(s: System, id: TaskId, revoked: bool): System
    requires id in s.tasks
  {
    var t := s.tasks[id];
    s.(tasks := s.tasks - {id}, answers := s.answers + [Answer(t.jti, t.now, s.clock, revoked, t.seen, false)])
  }

  /** What Redis hands out for a key: an entry past its lifetime is gone. */
  function Visible(s: System, jti: Jti): Option<Remote> {
    if jti in s.redis && s.redis[jti].diesAt > s.clock then Some(s.redis[jti]) else None
  }

  function DoBeginCheck(s: System, id: TaskId, worker: Worker, jti: Jti, expiry: Time): System {
    var slot := Slot(worker, jti);
    if slot in s.local && s.local[slot].until > s.clock then
      s.(answers := s.answers + [Answer(jti, s.clock, s.clock, s.local[slot].revoked, |s.writes|, true)])
    else
      s.(local := s.local - {slot},
         tasks := s.tasks[id := Task(Check, worker, jti, expiry, s.clock, AwaitRedisGet, |s.writes|)])
  }

  function DoAfterGet(c: Config, s: System, id: TaskId): System
    requires id in s.tasks && s.tasks[id].pc.GotRedis?
  {
    var t := s.tasks[id];
    match t.pc.reply
    case None => Goto(s, id, AwaitSelect)
    case Some(entry) =>
      if entry.expiresAt <= t.now then Goto(s, id, AwaitRedisDelete)
      else Return(WriteLocal(c, s, Slot(t.worker, t.jti), entry.revoked, t.now, t.expiry), id, entry.revoked)
  }

  function DoAfterSelect(c: Config, s: System, id: TaskId): System
    requires id in s.tasks && s.tasks[id].pc.GotRow?
  {
    var t := s.tasks[id];
    var slot := Slot(t.worker, t.jti);
    match t.pc.row
    case None =>
      Goto(WriteLocal(c, s, slot, false, t.now, t.expiry), id, AwaitRedisSet(false, t.expiry))
    case Some(expiresAt) =>
      if expiresAt <= t.now then Goto(s, id, AwaitRowDelete)
      else Goto(WriteLocal(c, s, slot, true, t.now, expiresAt), id, AwaitRedisSet(true, expiresAt))
  }

  /** `_should_cleanup_expired_revocations`: at most one sweep a minute per worker. */
  predicate CleanupDue(s: System, worker: Worker, now: Time) {
    !(worker in s.cleanupDue && s.cleanupDue[worker] > now)
  }

  function Unexpired(rows: map<Jti, Time>, now: Time): map<Jti, Time> {
    map j | j in rows && rows[j] > now :: rows[j]
  }

  /** The transaction of `_store_revoked_jti`: the throttled sweep, then delete-and-insert. */
  function DoCommit(s: System, id: TaskId): System
    requires id in s.tasks
  {
    var t := s.tasks[id];
    var due := CleanupDue(s, t.worker, t.now);
    var swept := if due then Unexpired(s.rows, t.now) else s.rows;
    s.(rows := swept[t.jti := t.expiry],
       cleanupDue := if due then s.cleanupDue[t.worker := t.now + CLEANUP_INTERVAL] else s.cleanupDue,
       firstCommit := if t.jti in s.firstCommit then s.firstCommit else s.firstCommit[t.jti := s.clock],
       lastCommit := s.lastCommit[t.jti := Commit(s.clock, t.expiry)],
       tasks := s.tasks[id := t.(pc := Committed)])
  }

  /** The transaction fails and the call raises; the sweep's due time has moved all the same. */
  function DoAbort(s: System, id: TaskId): System
    requires id in s.tasks
  {
    var t := s.tasks[id];
    s.(cleanupDue := if CleanupDue(s, t.worker, t.now)
                     then s.cleanupDue[t.worker := t.now + CLEANUP_INTERVAL] else s.cleanupDue,
       tasks := s.tasks - {id})
  }

  function DoAfterCommit(c: Config, s: System, id: TaskId): System
    requires id in s.tasks
  {
    var t := s.tasks[id].(now := s.clock, pc := AwaitRedisSet(true, s.tasks[id].expiry));
    WriteLocal(c, s.(tasks := s.tasks[id := t]), Slot(t.worker, t.jti), true, t.now, t.expiry)
  }

  function PendingEntry(c: Config, s: System, t: Task): (entry: Remote)
    requires t.pc.AwaitRedisSet?
    ensures entry.revoked == t.pc.revoked
    ensures !entry.revoked ==> entry.diesAt <= s.clock + NegativeRedisLifetime(c.negativeTtl)
  {
    NegativeLifetimeBound(t.now, t.pc.expiresAt, c.negativeTtl);
    Remote(t.pc.revoked, t.pc.expiresAt, s.clock + RedisLifetime(t.pc.revoked, t.now, t.pc.expiresAt, c.negativeTtl))
  }

  function DoRedisSet(c: Config, s: System, id: TaskId, ok: bool): System
    requires id in s.tasks && s.tasks[id].pc.AwaitRedisSet?
  {
    var t := s.tasks[id];
    Goto(if ok then s.(redis := s.redis[t.jti := PendingEntry(c, s, t)]) else s, id, Replying(t.pc.revoked))
  }

  /** A check that has found no row, its answer not yet stored in Redis. */
  predicate Blind(t: Task) { t.pc == GotRow(None) || (t.pc.AwaitRedisSet? && !t.pc.revoked) }

  predicate Overtaken(s: System, j: Jti) { exists id :: id in s.tasks && s.tasks[id].jti == j && Blind(s.tasks[id]) }

  /** History: a Redis command of task `id` has been carried out. */
  function NoteWrite(s: System, s': System, id: TaskId): System
    requires id in s.tasks
  {
    var t := s.tasks[id];
    if t.kind == Revoke then s'.(writes := s.writes + [Write(t.jti, s.clock, Overtaken(s, t.jti))]) else s'
  }

  function DoReply(s: System, id: TaskId): System
    requires id in s.tasks && s.tasks[id].pc.Replying?
  {
    if s.tasks[id].kind == Check then Return(s, id, s.tasks[id].pc.revoked)
    else s.(tasks := s.tasks - {id})
  }

  function Apply(c: Config, s: System, step: Step): System
    requires Enabled(c, s, step)
  {
    match step
    case Tick(elapsed) => s.(clock := s.clock + elapsed)
    case EvictLocal(slot) => s.(local := s.local - {slot})
    case EvictRedis(key) => s.(redis := s.redis - {key})
    case BeginCheck(id, worker, jti, expiry) => DoBeginCheck(s, id, worker, jti, expiry)
    case BeginRevoke(id, worker, jti, expiry) =>
      s.(tasks := s.tasks[id := Task(Revoke, worker, jti, expiry, s.clock, AwaitCommit, |s.writes|)])
    case RedisGet(id, ok) => Goto(s, id, GotRedis(if ok then Visible(s, s.tasks[id].jti) else None))
    case AfterGet(id) => DoAfterGet(c, s, id)
    case RedisDelete(id, ok) =>
      Goto(if ok then s.(redis := s.redis - {s.tasks[id].jti}) else s, id, AwaitSelect)
    case SelectRow(id) =>
      var j := s.tasks[id].jti;
      Goto(s, id, GotRow(if j in s.rows then Some(s.rows[j]) else None))
    case AfterSelect(id) => DoAfterSelect(c, s, id)
    case DeleteRow(id) => Goto(s.(rows := s.rows - {s.tasks[id].jti}), id, RowDeleted)
    case AfterDelete(id) =>
      var t := s.tasks[id];
      Goto(WriteLocal(c, s, Slot(t.worker, t.jti), false, t.now, t.expiry), id, AwaitRedisSet(false, t.expiry))
    case CommitRevoke(id) => DoCommit(s, id)
    case AbortRevoke(id) => DoAbort(s, id)
    case AfterCommit(id) => DoAfterCommit(c, s, id)
    case RedisSet(id, ok) => if ok then NoteWrite(s, DoRedisSet(c, s, id, ok), id) else DoRedisSet(c, s, id, ok)
    case Reply(id) => DoReply(s, id)
  }

  // ---------------------------------------------------------------- runs

  predicate IsRun(c: Config, s: System, steps: seq<Step>)
    decreases |steps|, 0
  {
    steps == [] ||
    var last := |steps| - 1;
    IsRun(c, s, steps[..last]) && Enabled(c, After(c, s, steps[..last]), steps[last])
  }

  function After(c: Config, s: System, steps: seq<Step>): System
    requires IsRun(c, s, steps)
    decreases |steps|, 1
  {
    if steps == [] then s
    else
      var last := |steps| - 1;
      Apply(c, After(c, s, steps[..last]), steps[last])
  }

  /** `s` is what some run leaves, from an idle system at some moment. */
  ghost predicate Reachable(c: Config, s: System) {
    exists start: Time, steps: seq<Step> ::
      IsRun(c, Init(start), steps) && s == After(c, Init(start), steps)
  }

  lemma Initially(c: Config, start: Time)
    ensures Reachable(c, Init(start))
  {
    assert IsRun(c, Init(start), []) && Init(start) == After(c, Init(start), []);
  }

  lemma Extend(c: Config, s: System, step: Step)
    requires Reachable(c, s) && Enabled(c, s, step)
    ensures Reachable(c, Apply(c, s, step))
  {
    var start, steps :| IsRun(c, Init(start), steps) && s == After(c, Init(start), steps);
    var longer := steps + [step];
    assert longer[..|steps|] == steps;
    assert IsRun(c, Init(start), longer) && Apply(c, s, step) == After(c, Init(start), longer);
  }

  // ---------------------------------------------------------------- invariants

  /** An expiry that may have been resolved by `now`. */
  predicate Within(c: Config, now: Time, jti: Jti, expiry: Time) {
    Identity(c, jti, expiry) && (jti !in c.expiry ==> expiry <= now + RAW_TOKEN_TTL)
  }

  /** Facts every layer keeps on its own: entries and tasks are never dated in the future. */
  ghost predicate TaskTimed(c: Config, clock: Time, t: Task) {
    && t.now <= clock
    && (t.kind == Check ==> clock <= t.now + c.maxDuration)
    && Within(c, clock, t.jti, t.expiry)
    && (t.kind == Revoke ==> t.pc.AwaitCommit? || t.pc.Committed? ||
                             (t.pc.AwaitRedisSet? && t.pc.revoked) || (t.pc.Replying? && t.pc.revoked))
    && (t.kind == Check ==> !t.pc.AwaitCommit? && !t.pc.Committed?)
    && (t.pc.GotRow? && t.pc.row.Some? ==> Identity(c, t.jti, t.pc.row.value))
    && (t.pc.AwaitRedisSet? ==> Identity(c, t.jti, t.pc.expiresAt))
    && ((t.pc.AwaitRowDelete? || t.pc.RowDeleted?) && t.jti in c.expiry ==> t.expiry <= t.now)
  }

  ghost predicate Timed(c: Config, s: System) {
    && (forall j :: j in s.rows ==> Identity(c, j, s.rows[j]))
    && (forall slot :: slot in s.local && !s.local[slot].revoked ==>
          s.local[slot].until <= s.clock + c.negativeTtl)
    && (forall j :: j in s.redis && !s.redis[j].revoked ==>
          s.redis[j].diesAt <= s.clock + NegativeRedisLifetime(c.negativeTtl))
    && (forall id :: id in s.tasks ==> TaskTimed(c, s.clock, s.tasks[id]))
    && (forall a :: a in s.answers ==> a.now <= a.at <= s.clock)
    && (forall j :: j in s.firstCommit ==> s.firstCommit[j] <= s.clock)
    && (forall j :: j in s.lastCommit ==> Dated(c, s, j))
  }

  /** The latest commit of `j` came no earlier than the first, and gave the expiry it had resolved. */
  ghost predicate Dated(c: Config, s: System, j: Jti)
    requires j in s.lastCommit
  {
    && j in s.firstCommit && s.firstCommit[j] <= s.lastCommit[j].at <= s.clock
    && Within(c, s.lastCommit[j].at, j, s.lastCommit[j].expiry)
  }

  /** How long after the commit a clock read can still lead to "not revoked". An entry is served
      strictly before it dies, so a hit in Redis and then in process loses an instant. */
  function StaleBound(c: Config): nat {
    c.maxDuration + NegativeRedisLifetime(c.negativeTtl) + if c.negativeTtl == 0 then 0 else c.negativeTtl - 1
  }

  /** What a task on a token first revoked at `t0` can still carry that says "not revoked". */
  ghost predicate TaskFresh(c: Config, t0: Time, t: Task) {
    && (t.pc.GotRedis? && t.pc.reply.Some? && !t.pc.reply.value.revoked ==>
          t.now < t0 + c.maxDuration + NegativeRedisLifetime(c.negativeTtl))
    && (t.pc == GotRow(None) ==> t.now <= t0)
    && ((t.pc.AwaitRedisSet? || t.pc.Replying?) && !t.pc.revoked ==> t.now <= t0)
  }

  /** The negative knowledge left about token `j`, first revoked at `t0`. */
  ghost predicate Fresh(c: Config, s: System, j: Jti, t0: Time) {
    && j in s.rows
    && (forall w :: Slot(w, j) in s.local && !s.local[Slot(w, j)].revoked ==>
          s.local[Slot(w, j)].until <= t0 + c.maxDuration + NegativeRedisLifetime(c.negativeTtl) + c.negativeTtl - 1)
    && (j in s.redis && !s.redis[j].revoked ==>
          s.redis[j].diesAt <= t0 + c.maxDuration + NegativeRedisLifetime(c.negativeTtl))
    && (forall id :: id in s.tasks && s.tasks[id].jti == j ==> TaskFresh(c, t0, s.tasks[id]))
  }

  ghost predicate AnswerFresh(c: Config, s: System, a: Answer) {
    !a.revoked && a.jti in s.firstCommit && a.jti in c.expiry && a.at < c.expiry[a.jti] ==>
      a.now < s.firstCommit[a.jti] + StaleBound(c)
  }

  ghost predicate Live(c: Config, s: System, j: Jti) {
    j in s.firstCommit && j in c.expiry && s.clock < c.expiry[j]
  }

  ghost predicate Inv(c: Config, s: System) {
    && Timed(c, s)
    && (forall j :: Live(c, s, j) ==> Fresh(c, s, j, s.firstCommit[j]))
    && (forall a :: a in s.answers ==> AnswerFresh(c, s, a))
  }

  // The invariant is kept by each primitive effect, and so by each step.

  lemma TaskFacts(c: Config, s: System, id: TaskId)
    requires Inv(c, s) && id in s.tasks
    ensures TaskTimed(c, s.clock, s.tasks[id])
    ensures Live(c, s, s.tasks[id].jti) ==> TaskFresh(c, s.firstCommit[s.tasks[id].jti], s.tasks[id])
  {
  }

  lemma GotoKeepsInv(c: Config, s: System, id: TaskId, pc: Pc)
    requires Inv(c, s) && id in s.tasks
    requires TaskTimed(c, s.clock, s.tasks[id].(pc := pc))
    requires Live(c, s, s.tasks[id].jti) ==>
               TaskFresh(c, s.firstCommit[s.tasks[id].jti], s.tasks[id].(pc := pc))
    ensures Inv(c, Goto(s, id, pc))
  {
  }

  lemma WriteLocalKeepsInv(c: Config, s: System, slot: Slot, revoked: bool, now: Time, expiresAt: Time)
    requires Inv(c, s) && now <= s.clock
    requires !revoked && Live(c, s, slot.jti) ==>
               now < s.firstCommit[slot.jti] + c.maxDuration + NegativeRedisLifetime(c.negativeTtl)
    ensures Inv(c, WriteLocal(c, s, slot, revoked, now, expiresAt))
  {
  }

  lemma ReturnKeepsInv(c: Config, s: System, id: TaskId, revoked: bool)
    requires Inv(c, s) && id in s.tasks
    requires var t := s.tasks[id]; AnswerFresh(c, s, Answer(t.jti, t.now, s.clock, revoked, t.seen, false))
    ensures Inv(c, Return(s, id, revoked))
  {
  }

  /** A smaller table of cached entries, or none changed at all, keeps the invariant. */
  lemma LoseKeepsInv(c: Config, s: System, s': System)
    requires Inv(c, s)
    requires s' == s.(local := s'.local, redis := s'.redis)
    requires forall slot :: slot in s'.local ==> slot in s.local && s'.local[slot] == s.local[slot]
    requires forall j :: j in s'.redis ==> j in s.redis && s'.redis[j] == s.redis[j]
    ensures Inv(c, s')
  {
  }

  /** A task added, or dropped, away from the rest of the state. */
  lemma TasksKeepInv(c: Config, s: System, s': System, id: TaskId)
    requires Inv(c, s)
    requires s' == s.(tasks := s'.tasks, cleanupDue := s'.cleanupDue)
    requires forall i :: i in s'.tasks && i != id ==> i in s.tasks && s'.tasks[i] == s.tasks[i]
    requires id in s'.tasks ==>
               && TaskTimed(c, s.clock, s'.tasks[id])
               && (Live(c, s, s'.tasks[id].jti) ==> TaskFresh(c, s.firstCommit[s'.tasks[id].jti], s'.tasks[id]))
    ensures Inv(c, s')
  {
  }

  lemma AnswerKeepsInv(c: Config, s: System, a: Answer)
    requires Inv(c, s) && a.now <= a.at <= s.clock && AnswerFresh(c, s, a)
    ensures Inv(c, s.(answers := s.answers + [a]))
  {
  }

  lemma TickKeepsInv(c: Config, s: System, elapsed: nat)
    requires Inv(c, s) && MayTick(c, s, elapsed)
    ensures Inv(c, Apply(c, s, Tick(elapsed)))
  {
  }

  lemma BeginCheckKeepsInv(c: Config, s: System, id: TaskId, worker: Worker, jti: Jti, expiry: Time)
    requires Inv(c, s) && id !in s.tasks && Resolved(c, s.clock, jti, expiry)
    ensures Inv(c, DoBeginCheck(s, id, worker, jti, expiry))
  {
    var slot := Slot(worker, jti);
    if slot in s.local && s.local[slot].until > s.clock {
      assert Live(c, s, jti) ==> Fresh(c, s, jti, s.firstCommit[jti]);
      AnswerKeepsInv(c, s, Answer(jti, s.clock, s.clock, s.local[slot].revoked, |s.writes|, true));
    } else {
      var s1 := s.(local := s.local - {slot});
      LoseKeepsInv(c, s, s1);
      TasksKeepInv(c, s1, DoBeginCheck(s, id, worker, jti, expiry), id);
    }
  }

  lemma AfterGetKeepsInv(c: Config, s: System, id: TaskId)
    requires Inv(c, s) && id in s.tasks && s.tasks[id].pc.GotRedis?
    ensures Inv(c, DoAfterGet(c, s, id))
  {
    var t := s.tasks[id];
    hide Inv;
    TaskFacts(c, s, id);
    if t.pc.reply.None? {
      GotoKeepsInv(c, s, id, AwaitSelect);
    } else if t.pc.reply.value.expiresAt <= t.now {
      GotoKeepsInv(c, s, id, AwaitRedisDelete);
    } else {
      var revoked := t.pc.reply.value.revoked;
      WriteLocalKeepsInv(c, s, Slot(t.worker, t.jti), revoked, t.now, t.expiry);
      ReturnKeepsInv(c, WriteLocal(c, s, Slot(t.worker, t.jti), revoked, t.now, t.expiry), id, revoked);
    }
  }

  /** An answer is cached in process and about to be stored in Redis. */
  lemma StoreKeepsInv(c: Config, s: System, id: TaskId, revoked: bool, expiresAt: Time)
    requires Inv(c, s) && id in s.tasks && s.tasks[id].kind == Check && Identity(c, s.tasks[id].jti, expiresAt)
    requires !revoked && Live(c, s, s.tasks[id].jti) ==> s.tasks[id].now <= s.firstCommit[s.tasks[id].jti]
    ensures var t := s.tasks[id];
            Inv(c, Goto(WriteLocal(c, s, Slot(t.worker, t.jti), revoked, t.now, expiresAt), id,
                        AwaitRedisSet(revoked, expiresAt)))
  {
    hide Inv;
    TaskFacts(c, s, id);
    var t := s.tasks[id];
    var slot := Slot(t.worker, t.jti);
    WriteLocalKeepsInv(c, s, slot, revoked, t.now, expiresAt);
    GotoKeepsInv(c, WriteLocal(c, s, slot, revoked, t.now, expiresAt), id, AwaitRedisSet(revoked, expiresAt));
  }

  lemma AfterSelectKeepsInv(c: Config, s: System, id: TaskId)
    requires Inv(c, s) && id in s.tasks && s.tasks[id].pc.GotRow?
    ensures Inv(c, DoAfterSelect(c, s, id))
  {
    hide Inv;
    TaskFacts(c, s, id);
    var t := s.tasks[id];
    match t.pc.row
    case None => StoreKeepsInv(c, s, id, false, t.expiry);
    case Some(expiresAt) =>
      if expiresAt <= t.now {
        GotoKeepsInv(c, s, id, AwaitRowDelete);
      } else {
        StoreKeepsInv(c, s, id, true, expiresAt);
      }
  }

  lemma RowLossKeepsInv(c: Config, s: System, j: Jti)
    requires Inv(c, s) && !Live(c, s, j)
    ensures Inv(c, s.(rows := s.rows - {j}))
  {
    var s1 := s.(rows := s.rows - {j});
    forall i | Live(c, s1, i) ensures Fresh(c, s1, i, s1.firstCommit[i]) { assert Fresh(c, s, i, s.firstCommit[i]); }
    assert forall i :: i in s.lastCommit ==> Dated(c, s, i);
    assert forall a :: a in s.answers ==> AnswerFresh(c, s, a);
  }

  /** The expired-row delete only ever hits an expired row of a decodable token. */
  lemma DeleteRowKeepsInv(c: Config, s: System, id: TaskId)
    requires Inv(c, s) && At(s, id, AwaitRowDelete)
    ensures Inv(c, Apply(c, s, DeleteRow(id)))
  {
    hide Inv;
    TaskFacts(c, s, id);
    RowLossKeepsInv(c, s, s.tasks[id].jti);
    GotoKeepsInv(c, s.(rows := s.rows - {s.tasks[id].jti}), id, RowDeleted);
  }

  lemma AfterDeleteKeepsInv(c: Config, s: System, id: TaskId)
    requires Inv(c, s) && At(s, id, RowDeleted)
    ensures Inv(c, Apply(c, s, AfterDelete(id)))
  {
    hide Inv;
    TaskFacts(c, s, id);
    StoreKeepsInv(c, s, id, false, s.tasks[id].expiry);
  }

  /** The sweep spares every live token, and what is cached at the moment a token is first
      revoked cannot outlive the bound. */
  lemma CommitKeepsFresh(c: Config, s: System, id: TaskId, j: Jti)
    requires Inv(c, s) && At(s, id, AwaitCommit) && Live(c, DoCommit(s, id), j)
    ensures Fresh(c, DoCommit(s, id), j, DoCommit(s, id).firstCommit[j])
  {
    hide CleanupDue;
    var s' := DoCommit(s, id);
    TaskFacts(c, s, id);
    if j in s.firstCommit {
      assert Live(c, s, j);
    } else {
      forall i | i in s'.tasks && s'.tasks[i].jti == j ensures TaskFresh(c, s.clock, s'.tasks[i]) {
        TaskFacts(c, s, i);
      }
    }
  }

  lemma CommitKeepsTimed(c: Config, s: System, id: TaskId)
    requires Timed(c, s) && At(s, id, AwaitCommit)
    ensures Timed(c, DoCommit(s, id))
  {
    hide CleanupDue;
    var s' := DoCommit(s, id);
    assert TaskTimed(c, s.clock, s.tasks[id]);
    forall j | j in s'.lastCommit ensures Dated(c, s', j) {
      assert j != s.tasks[id].jti ==> Dated(c, s, j);
    }
    forall i | i in s'.tasks ensures TaskTimed(c, s'.clock, s'.tasks[i]) {
      assert TaskTimed(c, s.clock, s.tasks[i]);
    }
  }

  lemma CommitKeepsInv(c: Config, s: System, id: TaskId)
    requires Inv(c, s) && At(s, id, AwaitCommit)
    ensures Inv(c, DoCommit(s, id))
  {
    var s' := DoCommit(s, id);
    CommitKeepsTimed(c, s, id);
    hide Timed, Fresh, CleanupDue;
    forall j | Live(c, s', j) ensures Fresh(c, s', j, s'.firstCommit[j]) { CommitKeepsFresh(c, s, id, j); }
    forall a | a in s'.answers ensures AnswerFresh(c, s', a) {
      assert AnswerFresh(c, s, a);
      if a.jti !in s.firstCommit { EarlierAnswer(c, s, a); }
    }
  }

  lemma EarlierAnswer(c: Config, s: System, a: Answer)
    requires Timed(c, s) && a in s.answers
    ensures a.now <= s.clock
  {
  }

  lemma AfterCommitKeepsInv(c: Config, s: System, id: TaskId)
    requires Inv(c, s) && At(s, id, Committed)
    ensures Inv(c, DoAfterCommit(c, s, id))
  {
    var t := s.tasks[id].(now := s.clock, pc := AwaitRedisSet(true, s.tasks[id].expiry));
    hide Inv;
    TaskFacts(c, s, id);
    var s1 := s.(tasks := s.tasks[id := t]);
    TasksKeepInv(c, s, s1, id);
    WriteLocalKeepsInv(c, s1, Slot(t.worker, t.jti), true, t.now, t.expiry);
  }

  lemma RedisPutKeepsInv(c: Config, s: System, key: Jti, entry: Remote)
    requires Inv(c, s)
    requires !entry.revoked ==>
               entry.diesAt <= s.clock + NegativeRedisLifetime(c.negativeTtl)
    requires !entry.revoked && Live(c, s, key) ==>
               entry.diesAt <= s.firstCommit[key] + c.maxDuration + NegativeRedisLifetime(c.negativeTtl)
    ensures Inv(c, s.(redis := s.redis[key := entry]))
  {
  }

  lemma RedisSetKeepsInv(c: Config, s: System, id: TaskId, ok: bool)
    requires Inv(c, s) && id in s.tasks && s.tasks[id].pc.AwaitRedisSet?
    ensures Inv(c, DoRedisSet(c, s, id, ok))
  {
    var t := s.tasks[id];
    hide Inv;
    TaskFacts(c, s, id);
    var s1 := s;
    if ok {
      RedisPutKeepsInv(c, s, t.jti, PendingEntry(c, s, t));
      s1 := s.(redis := s.redis[t.jti := PendingEntry(c, s, t)]);
    }
    GotoKeepsInv(c, s1, id, Replying(t.pc.revoked));
  }

  lemma NoteKeepsInv(c: Config, s: System, s': System, id: TaskId)
    requires Inv(c, s') && id in s.tasks
    ensures Inv(c, NoteWrite(s, s', id))
  {
  }

  lemma RedisGetKeepsInv(c: Config, s: System, id: TaskId, ok: bool)
    requires Inv(c, s) && At(s, id, AwaitRedisGet)
    ensures Inv(c, Apply(c, s, RedisGet(id, ok)))
  {
    var t := s.tasks[id];
    assert TaskTimed(c, s.clock, t);
    assert Live(c, s, t.jti) ==> Fresh(c, s, t.jti, s.firstCommit[t.jti]);
    GotoKeepsInv(c, s, id, GotRedis(if ok then Visible(s, t.jti) else None));
  }

  lemma RedisDeleteKeepsInv(c: Config, s: System, id: TaskId, ok: bool)
    requires Inv(c, s) && At(s, id, AwaitRedisDelete)
    ensures Inv(c, Apply(c, s, RedisDelete(id, ok)))
  {
    hide Inv;
    TaskFacts(c, s, id);
    var s1 := if ok then s.(redis := s.redis - {s.tasks[id].jti}) else s;
    LoseKeepsInv(c, s, s1);
    GotoKeepsInv(c, s1, id, AwaitSelect);
  }

  lemma SelectRowKeepsInv(c: Config, s: System, id: TaskId)
    requires Inv(c, s) && At(s, id, AwaitSelect)
    ensures Inv(c, Apply(c, s, SelectRow(id)))
  {
    var t := s.tasks[id];
    assert TaskTimed(c, s.clock, t);
    assert Live(c, s, t.jti) ==> Fresh(c, s, t.jti, s.firstCommit[t.jti]);
    GotoKeepsInv(c, s, id, GotRow(if t.jti in s.rows then Some(s.rows[t.jti]) else None));
  }

  lemma ReplyKeepsInv(c: Config, s: System, id: TaskId)
    requires Inv(c, s) && id in s.tasks && s.tasks[id].pc.Replying?
    ensures Inv(c, DoReply(s, id))
  {
    var t := s.tasks[id];
    hide Inv;
    TaskFacts(c, s, id);
    if t.kind == Check {
      ReturnKeepsInv(c, s, id, t.pc.revoked);
    } else {
      TasksKeepInv(c, s, DoReply(s, id), id);
    }
  }

  lemma StepKeepsInv(c: Config, s: System, step: Step)
    requires Inv(c, s) && Enabled(c, s, step)
    ensures Inv(c, Apply(c, s, step))
  {
    match step
    case Tick(elapsed) => TickKeepsInv(c, s, elapsed);
    case EvictLocal(_) => LoseKeepsInv(c, s, Apply(c, s, step));
    case EvictRedis(_) => LoseKeepsInv(c, s, Apply(c, s, step));
    case BeginCheck(id, worker, jti, expiry) => BeginCheckKeepsInv(c, s, id, worker, jti, expiry);
    case BeginRevoke(id, _, _, _) => TasksKeepInv(c, s, Apply(c, s, step), id);
    case RedisGet(id, ok) => RedisGetKeepsInv(c, s, id, ok);
    case AfterGet(id) => AfterGetKeepsInv(c, s, id);
    case RedisDelete(id, ok) => RedisDeleteKeepsInv(c, s, id, ok);
    case SelectRow(id) => SelectRowKeepsInv(c, s, id);
    case AfterSelect(id) => AfterSelectKeepsInv(c, s, id);
    case DeleteRow(id) => DeleteRowKeepsInv(c, s, id);
    case AfterDelete(id) => AfterDeleteKeepsInv(c, s, id);
    case CommitRevoke(id) => CommitKeepsInv(c, s, id);
    case AbortRevoke(id) => TasksKeepInv(c, s, Apply(c, s, step), id);
    case AfterCommit(id) => AfterCommitKeepsInv(c, s, id);
    case RedisSet(id, ok) =>
      RedisSetKeepsInv(c, s, id, ok);
      NoteKeepsInv(c, s, DoRedisSet(c, s, id, ok), id);
    case Reply(id) => ReplyKeepsInv(c, s, id);
  }

  lemma {:induction false} RunKeepsInv(c: Config, start: Time, steps: seq<Step>)
    requires IsRun(c, Init(start), steps)
    ensures Inv(c, After(c, Init(start), steps))
    decreases |steps|
  {
    if steps != [] {
      var last := |steps| - 1;
      RunKeepsInv(c, start, steps[..last]);
      StepKeepsInv(c, After(c, Init(start), steps[..last]), steps[last]);
    }
  }

  lemma ReachableInv(c: Config, s: System)
    requires Reachable(c, s)
    ensures Inv(c, s)
  {
    var start, steps :| IsRun(c, Init(start), steps) && s == After(c, Init(start), steps);
    RunKeepsInv(c, start, steps);
  }

  // ---------------------------------------------------------------- the guarantee

  /** In every interleaving: once a decodable token's row is committed, a check that reads the
      clock at least `maxDuration + R + L` later (less one microsecond, when L is positive) does
      not answer "not revoked" before the token expires. */
  lemma BoundedStaleness(c: Config, s: System, a: Answer)
    requires Reachable(c, s) && a in s.answers
    requires a.jti in c.expiry && a.at < c.expiry[a.jti] && a.jti in s.firstCommit
    requires a.now >= s.firstCommit[a.jti] + StaleBound(c)
    ensures a.revoked
  {
    ReachableInv(c, s);
    assert AnswerFresh(c, s, a);
  }

  /** Neither the throttled sweep nor the expired-row delete ever removes the row of a
      decodable token that has not expired. */
  lemma RevokedRowSurvives(c: Config, s: System, j: Jti)
    requires Reachable(c, s)
    requires j in s.firstCommit && j in c.expiry && s.clock < c.expiry[j]
    ensures j in s.rows && s.rows[j] == c.expiry[j]
  {
    ReachableInv(c, s);
    assert Live(c, s, j);
  }

  // ---------------------------------------------------------------- soundness

  ghost predicate TaskEarned(s: System, t: Task) {
    (t.pc.GotRedis? && t.pc.reply.Some? && t.pc.reply.value.revoked)
    || (t.pc.GotRow? && t.pc.row.Some?)
    || ((t.pc.AwaitRedisSet? || t.pc.Replying?) && t.pc.revoked)
    || t.pc.Committed?
    ==> t.jti in s.firstCommit
  }

  /** Every "revoked" found anywhere goes back to a committed revocation. */
  ghost predicate Earned(s: System) {
    && (forall j :: j in s.rows ==> j in s.firstCommit)
    && (forall slot :: slot in s.local && s.local[slot].revoked ==> slot.jti in s.firstCommit)
    && (forall j :: j in s.redis && s.redis[j].revoked ==> j in s.firstCommit)
    && (forall id :: id in s.tasks ==> TaskEarned(s, s.tasks[id]))
    && (forall j :: j in s.firstCommit ==> s.firstCommit[j] <= s.clock)
    && (forall a :: a in s.answers && a.revoked ==> a.jti in s.firstCommit && s.firstCommit[a.jti] <= a.at)
  }

  lemma GotoKeepsEarned(s: System, id: TaskId, pc: Pc)
    requires Earned(s) && id in s.tasks && TaskEarned(s, s.tasks[id].(pc := pc))
    ensures Earned(Goto(s, id, pc))
  {
  }

  lemma WriteLocalKeepsEarned(c: Config, s: System, slot: Slot, revoked: bool, now: Time, expiresAt: Time)
    requires Earned(s) && (revoked ==> slot.jti in s.firstCommit)
    ensures Earned(WriteLocal(c, s, slot, revoked, now, expiresAt))
  {
  }

  lemma ReturnKeepsEarned(s: System, id: TaskId, revoked: bool)
    requires Earned(s) && id in s.tasks && (revoked ==> s.tasks[id].jti in s.firstCommit)
    ensures Earned(Return(s, id, revoked))
  {
  }

  lemma AnswerKeepsEarned(s: System, a: Answer)
    requires Earned(s) && a.at == s.clock && (a.revoked ==> a.jti in s.firstCommit)
    ensures Earned(s.(answers := s.answers + [a]))
  {
  }

  /** A task added, or dropped. */
  lemma TasksKeepEarned(s: System, s': System, id: TaskId)
    requires Earned(s) && s' == s.(tasks := s'.tasks, cleanupDue := s'.cleanupDue)
    requires forall i :: i in s'.tasks && i != id ==> i in s.tasks && s'.tasks[i] == s.tasks[i]
    requires id in s'.tasks ==> TaskEarned(s, s'.tasks[id])
    ensures Earned(s')
  {
  }

  lemma LocalKeepsEarned(s: System, slots: map<Slot, Local>)
    requires Earned(s)
    requires forall slot :: slot in slots ==> slot in s.local && slots[slot] == s.local[slot]
    ensures Earned(s.(local := slots))
  {
  }

  lemma EarnedTask(s: System, id: TaskId)
    requires Earned(s) && id in s.tasks
    ensures TaskEarned(s, s.tasks[id])
  {
  }

  lemma BeginCheckKeepsEarned(s: System, id: TaskId, worker: Worker, jti: Jti, expiry: Time)
    requires Earned(s) && id !in s.tasks
    ensures Earned(DoBeginCheck(s, id, worker, jti, expiry))
  {
    var slot := Slot(worker, jti);
    if slot in s.local && s.local[slot].until > s.clock {
      AnswerKeepsEarned(s, Answer(jti, s.clock, s.clock, s.local[slot].revoked, |s.writes|, true));
    } else {
      LocalKeepsEarned(s, s.local - {slot});
      TasksKeepEarned(s.(local := s.local - {slot}), DoBeginCheck(s, id, worker, jti, expiry), id);
    }
  }

  lemma AfterGetKeepsEarned(c: Config, s: System, id: TaskId)
    requires Earned(s) && id in s.tasks && s.tasks[id].pc.GotRedis?
    ensures Earned(DoAfterGet(c, s, id))
  {
    hide Earned;
    EarnedTask(s, id);
    var t := s.tasks[id];
    if t.pc.reply.None? {
      GotoKeepsEarned(s, id, AwaitSelect);
    } else if t.pc.reply.value.expiresAt <= t.now {
      GotoKeepsEarned(s, id, AwaitRedisDelete);
    } else {
      var slot, revoked := Slot(t.worker, t.jti), t.pc.reply.value.revoked;
      WriteLocalKeepsEarned(c, s, slot, revoked, t.now, t.expiry);
      ReturnKeepsEarned(WriteLocal(c, s, slot, revoked, t.now, t.expiry), id, revoked);
    }
  }

  lemma AfterSelectKeepsEarned(c: Config, s: System, id: TaskId)
    requires Earned(s) && id in s.tasks && s.tasks[id].pc.GotRow?
    ensures Earned(DoAfterSelect(c, s, id))
  {
    hide Earned;
    EarnedTask(s, id);
    var t := s.tasks[id];
    if t.pc.row.None? {
      StoreKeepsEarned(c, s, id, false, t.expiry);
    } else if t.pc.row.value <= t.now {
      GotoKeepsEarned(s, id, AwaitRowDelete);
    } else {
      StoreKeepsEarned(c, s, id, true, t.pc.row.value);
    }
  }

  /** An answer is cached in process and about to be stored in Redis. */
  lemma StoreKeepsEarned(c: Config, s: System, id: TaskId, revoked: bool, expiresAt: Time)
    requires Earned(s) && id in s.tasks && (revoked ==> s.tasks[id].jti in s.firstCommit)
    ensures var t := s.tasks[id];
            Earned(Goto(WriteLocal(c, s, Slot(t.worker, t.jti), revoked, t.now, expiresAt), id,
                        AwaitRedisSet(revoked, expiresAt)))
  {
    hide Earned;
    var t := s.tasks[id];
    WriteLocalKeepsEarned(c, s, Slot(t.worker, t.jti), revoked, t.now, expiresAt);
    GotoKeepsEarned(WriteLocal(c, s, Slot(t.worker, t.jti), revoked, t.now, expiresAt), id,
                    AwaitRedisSet(revoked, expiresAt));
  }

  lemma ReplyKeepsEarned(s: System, id: TaskId)
    requires Earned(s) && id in s.tasks && s.tasks[id].pc.Replying?
    ensures Earned(DoReply(s, id))
  {
    hide Earned;
    EarnedTask(s, id);
    if s.tasks[id].kind == Check {
      ReturnKeepsEarned(s, id, s.tasks[id].pc.revoked);
    } else {
      TasksKeepEarned(s, DoReply(s, id), id);
    }
  }

  lemma CommitKeepsEarned(s: System, id: TaskId)
    requires Earned(s) && At(s, id, AwaitCommit)
    ensures Earned(DoCommit(s, id))
  {
    hide CleanupDue;
    var s' := DoCommit(s, id);
    forall i | i in s'.tasks ensures TaskEarned(s', s'.tasks[i]) {
      assert TaskEarned(s, s.tasks[i]);
    }
  }

  lemma AfterCommitKeepsEarned(c: Config, s: System, id: TaskId)
    requires Earned(s) && At(s, id, Committed)
    ensures Earned(DoAfterCommit(c, s, id))
  {
    hide Earned;
    EarnedTask(s, id);
    var t := s.tasks[id].(now := s.clock, pc := AwaitRedisSet(true, s.tasks[id].expiry));
    var s1 := s.(tasks := s.tasks[id := t]);
    TasksKeepEarned(s, s1, id);
    WriteLocalKeepsEarned(c, s1, Slot(t.worker, t.jti), true, t.now, t.expiry);
  }

  lemma TablesKeepEarned(s: System, s': System)
    requires Earned(s) && s' == s.(rows := s'.rows, redis := s'.redis)
    requires forall j :: j in s'.rows ==> j in s.rows
    requires forall j :: j in s'.redis && s'.redis[j].revoked ==> j in s.firstCommit
    ensures Earned(s')
  {
  }

  lemma StoreStepKeepsEarned(c: Config, s: System, step: Step)
    requires Earned(s) && Enabled(c, s, step)
    requires step.RedisGet? || step.RedisDelete? || step.SelectRow? || step.DeleteRow? || step.RedisSet?
    ensures Earned(Apply(c, s, step))
  {
    var t := s.tasks[step.id];
    EarnedTask(s, step.id);
    match step
    case RedisGet(id, ok) => GotoKeepsEarned(s, id, GotRedis(if ok then Visible(s, t.jti) else None));
    case SelectRow(id) => GotoKeepsEarned(s, id, GotRow(if t.jti in s.rows then Some(s.rows[t.jti]) else None));
    case RedisDelete(id, ok) =>
      var s1 := if ok then s.(redis := s.redis - {t.jti}) else s;
      TablesKeepEarned(s, s1);
      GotoKeepsEarned(s1, id, AwaitSelect);
    case DeleteRow(id) =>
      var s1 := s.(rows := s.rows - {t.jti});
      TablesKeepEarned(s, s1);
      GotoKeepsEarned(s1, id, RowDeleted);
    case RedisSet(id, ok) =>
      RedisSetKeepsEarned(c, s, id, ok);
      NoteKeepsEarned(s, DoRedisSet(c, s, id, ok), id);
  }

  lemma RedisSetKeepsEarned(c: Config, s: System, id: TaskId, ok: bool)
    requires Earned(s) && id in s.tasks && s.tasks[id].pc.AwaitRedisSet?
    ensures Earned(DoRedisSet(c, s, id, ok))
  {
  }

  lemma NoteKeepsEarned(s: System, s': System, id: TaskId)
    requires Earned(s') && id in s.tasks
    ensures Earned(NoteWrite(s, s', id))
  {
  }

  lemma QuietStepKeepsEarned(c: Config, s: System, step: Step)
    requires Earned(s) && Enabled(c, s, step)
    requires step.Tick? || step.EvictLocal? || step.EvictRedis?
    ensures Earned(Apply(c, s, step))
  {
    hide MayTick;
    var s' := Apply(c, s, step);
    forall i | i in s'.tasks ensures TaskEarned(s', s'.tasks[i]) {
      assert TaskEarned(s, s.tasks[i]);
    }
  }

  lemma StepKeepsEarned(c: Config, s: System, step: Step)
    requires Earned(s) && Enabled(c, s, step)
    ensures Earned(Apply(c, s, step))
  {
    hide Earned;
    match step
    case Tick(_) => QuietStepKeepsEarned(c, s, step);
    case EvictLocal(_) => QuietStepKeepsEarned(c, s, step);
    case EvictRedis(_) => QuietStepKeepsEarned(c, s, step);
    case BeginCheck(id, worker, jti, expiry) => BeginCheckKeepsEarned(s, id, worker, jti, expiry);
    case BeginRevoke(id, _, _, _) => TasksKeepEarned(s, Apply(c, s, step), id);
    case AfterGet(id) => AfterGetKeepsEarned(c, s, id);
    case AfterSelect(id) => AfterSelectKeepsEarned(c, s, id);
    case AfterDelete(id) => StoreKeepsEarned(c, s, id, false, s.tasks[id].expiry);
    case Reply(id) => ReplyKeepsEarned(s, id);
    case CommitRevoke(id) => CommitKeepsEarned(s, id);
    case AbortRevoke(id) => TasksKeepEarned(s, Apply(c, s, step), id);
    case AfterCommit(id) => AfterCommitKeepsEarned(c, s, id);
    case _ => StoreStepKeepsEarned(c, s, step);
  }

  lemma {:induction false} RunKeepsEarned(c: Config, start: Time, steps: seq<Step>)
    requires IsRun(c, Init(start), steps)
    ensures Earned(After(c, Init(start), steps))
    decreases |steps|
  {
    if steps != [] {
      var last := |steps| - 1;
      RunKeepsEarned(c, start, steps[..last]);
      StepKeepsEarned(c, After(c, Init(start), steps[..last]), steps[last]);
    }
  }

  /** In every interleaving a check answers "revoked" only after some `revoke_token` for
      that identity has committed. */
  lemma RevocationIsSound(c: Config, s: System, a: Answer)
    requires Reachable(c, s) && a in s.answers && a.revoked
    ensures a.jti in s.firstCommit && s.firstCommit[a.jti] <= a.at
  {
    var start, steps :| IsRun(c, Init(start), steps) && s == After(c, Init(start), steps);
    RunKeepsEarned(c, start, steps);
  }
}
