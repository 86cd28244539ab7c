/** `_KeyedBucketFactory.get` called by any number of threads, one read or write at a time. */
module BucketFactory {
  import opened Wrappers

  type Thread = nat
  type Key = string
  type Bucket = nat

  /** Where a thread is in `get`. From `Rechecking` to `Releasing` it holds the lock. */
  datatype Pc =
    | Looking(key: Key)
    | Waiting(key: Key)
    | Rechecking(key: Key)
    | Choosing(key: Key)
    | Storing(key: Key, bucket: Bucket)
    | Releasing(key: Key, result: Option<Bucket>)

  /** A finished call: what was asked for, and the bucket, or nothing when it raised. */
  datatype Outcome = Outcome(key: Key, result: Option<Bucket>)

  /** `hasScript` is fixed when the factory is made; the Redis client can go away later. */
  datatype State = State(
    hasScript: bool,
    redis: bool,
    buckets: map<Key, Bucket>,
    lock: Option<Thread>,
    threads: map<Thread, Pc>,
    created: nat,
    stores: seq<(Key, Bucket)>,
    outcomes: seq<Outcome>)

  datatype Step =
    | Call(t: Thread, key: Key)
    | Look(t: Thread)
    | Acquire(t: Thread)
    | Recheck(t: Thread)
    | Choose(t: Thread)
    | Store(t: Thread)
    | Release(t: Thread)
    | ClientChanges(present: bool)

  predicate Enabled(s: State, step: Step) {
    match step
    case Call(t, _) => t !in s.threads
    case Look(t) => t in s.threads && s.threads[t].Looking?
    case Acquire(t) => t in s.threads && s.threads[t].Waiting? && s.lock.None?
    case Recheck(t) => t in s.threads && s.threads[t].Rechecking?
    case Choose(t) => t in s.threads && s.threads[t].Choosing?
    case Store(t) => t in s.threads && s.threads[t].Storing?
    case Release(t) => t in s.threads && s.threads[t].Releasing?
    case ClientChanges(_) => true
  }

  function Goto(s: State, t: Thread, pc: Pc): State { s.(threads := s.threads[t := pc]) }

  function Finish(s: State, t: Thread, o: Outcome): State {
    s.(threads := s.threads - {t}, outcomes := s.outcomes + [o])
  }

  function Apply(s: State, step: Step): State
    requires Enabled(s, step)
  {
    match step
    case Call(t, key) => Goto(s, t, Looking(key))
    case Look(t) =>
      var key := s.threads[t].key;
      if key in s.buckets then Finish(s, t, Outcome(key, Some(s.buckets[key]))) else Goto(s, t, Waiting(key))
    case Acquire(t) => Goto(s, t, Rechecking(s.threads[t].key)).(lock := Some(t))
    case Recheck(t) =>
      var key := s.threads[t].key;
      if key in s.buckets then Goto(s, t, Releasing(key, Some(s.buckets[key]))) else Goto(s, t, Choosing(key))
    case Choose(t) =>
      var key := s.threads[t].key;
      if s.redis && !s.hasScript then Goto(s, t, Releasing(key, None))
      else Goto(s, t, Storing(key, s.created)).(created := s.created + 1)
    case Store(t) =>
      var key, bucket := s.threads[t].key, s.threads[t].bucket;
      Goto(s, t, Releasing(key, Some(bucket)))
        .(buckets := s.buckets[key := bucket], stores := s.stores + [(key, bucket)])
    case Release(t) =>
      Finish(s, t, Outcome(s.threads[t].key, s.threads[t].result)).(lock := None)
    case ClientChanges(present) => s.(redis := present)
  }

  ghost predicate IsRun(s: State, steps: seq<Step>)
    decreases |steps|
  {
    steps == [] || (Enabled(s, steps[0]) && IsRun(Apply(s, steps[0]), steps[1..]))
  }

  ghost function After(s: State, steps: seq<Step>): State
    requires IsRun(s, steps)
    decreases |steps|
  {
    if steps == [] then s else After(Apply(s, steps[0]), steps[1..])
  }

  function Start(hasScript: bool, redis: bool): State {
    State(hasScript, redis, map[], None, map[], 0, [], [])
  }

  // ---------------------------------------------------------------- what every step keeps

  predicate Locked(pc: Pc) { !pc.Looking? && !pc.Waiting? }

  /** Exactly the thread that holds the lock is past it. */
  ghost predicate Mutex(s: State) {
    && (forall t :: t in s.threads ==> (Locked(s.threads[t]) <==> s.lock == Some(t)))
    && (s.lock.Some? ==> s.lock.value in s.threads)
  }

  /** A thread about to make or store a bucket still finds its key absent. */
  ghost predicate Absent(s: State) {
    forall t :: t in s.threads && (s.threads[t].Choosing? || s.threads[t].Storing?) ==> s.threads[t].key !in s.buckets
  }

  /** What a thread is about to return is stored, or it raises for want of a script. */
  ghost predicate Justified(s: State, key: Key, result: Option<Bucket>) {
    match result
    case Some(bucket) => key in s.buckets && s.buckets[key] == bucket
    case None => !s.hasScript
  }

  ghost predicate Answered(s: State) {
    && (forall o :: o in s.outcomes ==> Justified(s, o.key, o.result))
    && (forall t :: t in s.threads && s.threads[t].Releasing? ==> Justified(s, s.threads[t].key, s.threads[t].result))
  }

  /** The stores made so far are the items of the dictionary, each made once. */
  ghost predicate Stored(s: State) {
    && (forall i :: 0 <= i < |s.stores| ==> s.stores[i].0 in s.buckets && s.buckets[s.stores[i].0] == s.stores[i].1)
    && (forall i, j :: 0 <= i < j < |s.stores| ==> s.stores[i].0 != s.stores[j].0)
    && (forall key :: key in s.buckets ==> (key, s.buckets[key]) in s.stores)
  }

  predicate InFlight(s: State) { s.lock.Some? && s.lock.value in s.threads && s.threads[s.lock.value].Storing? }

  /** Every bucket made was stored, or is being stored. */
  ghost predicate Numbered(s: State) {
    && (forall i :: 0 <= i < |s.stores| ==> s.stores[i].1 == i)
    && s.created == |s.stores| + (if InFlight(s) then 1 else 0)
    && (InFlight(s) ==> s.threads[s.lock.value].bucket == |s.stores|)
  }

  ghost predicate Inv(s: State) {
    Mutex(s) && Absent(s) && Answered(s) && Stored(s) && Numbered(s)
  }

  lemma MutexKept(s: State, step: Step)
    requires Mutex(s) && Enabled(s, step)
    ensures Mutex(Apply(s, step))
  {
  }

  lemma AbsentKept(s: State, step: Step)
    requires Mutex(s) && Absent(s) && Enabled(s, step)
    ensures Absent(Apply(s, step))
  {
  }

  lemma AnsweredKept(s: State, step: Step)
    requires Absent(s) && Answered(s) && Enabled(s, step)
    ensures Answered(Apply(s, step))
  {
    var s' := Apply(s, step);
    if step.Store? {
      forall key, result | Justified(s, key, result) ensures Justified(s', key, result) {}
    }
    forall o | o in s'.outcomes ensures Justified(s', o.key, o.result) {
      if o in s.outcomes { assert Justified(s, o.key, o.result); }
    }
  }

  lemma StoredKept(s: State, step: Step)
    requires Absent(s) && Stored(s) && Enabled(s, step)
    ensures Stored(Apply(s, step))
  {
    var s' := Apply(s, step);
    if step.Store? {
      forall key | key in s'.buckets ensures (key, s'.buckets[key]) in s'.stores {
        if key != s.threads[step.t].key { assert (key, s.buckets[key]) in s.stores; }
      }
    }
  }

  lemma NumberedKept(s: State, step: Step)
    requires Mutex(s) && Numbered(s) && Enabled(s, step)
    ensures Numbered(Apply(s, step))
  {
  }

  lemma StepKeepsInv(s: State, step: Step)
    requires Inv(s) && Enabled(s, step)
    ensures Inv(Apply(s, step))
  {
    MutexKept(s, step);
    AbsentKept(s, step);
    AnsweredKept(s, step);
    StoredKept(s, step);
    NumberedKept(s, step);
  }

  lemma {:induction false} RunKeepsInv(s: State, steps: seq<Step>)
    requires Inv(s) && IsRun(s, steps)
    ensures Inv(After(s, steps))
    decreases |steps|
  {
    if steps != [] {
      StepKeepsInv(s, steps[0]);
      RunKeepsInv(Apply(s, steps[0]), steps[1..]);
    }
  }

  /** In every interleaving, at most one bucket is ever stored for a key, none is made in vain
      but one about to be stored, every call that returns for a key returns the stored bucket,
      different keys have different buckets, and a call raises only for want of a script. */
  lemma OneBucketPerKey(hasScript: bool, redis: bool, steps: seq<Step>)
    requires IsRun(Start(hasScript, redis), steps)
    ensures var s := After(Start(hasScript, redis), steps);
            && (forall i, j :: 0 <= i < j < |s.stores| ==>
                  s.stores[i].0 != s.stores[j].0 && s.stores[i].1 != s.stores[j].1)
            && |s.stores| <= s.created <= |s.stores| + 1
            && (forall o :: o in s.outcomes && o.result.Some? ==> (o.key, o.result.value) in s.stores)
            && (forall o :: o in s.outcomes && o.result.None? ==> !hasScript)
  {
    var s := After(Start(hasScript, redis), steps);
    RunKeepsInv(Start(hasScript, redis), steps);
    ScriptIsFixed(Start(hasScript, redis), steps);
    forall o | o in s.outcomes ensures Justified(s, o.key, o.result) {}
  }

  lemma {:induction false} ScriptIsFixed(s: State, steps: seq<Step>)
    requires IsRun(s, steps)
    ensures After(s, steps).hasScript == s.hasScript
    decreases |steps|
  {
    if steps != [] { ScriptIsFixed(Apply(s, steps[0]), steps[1..]); }
  }

  // ---------------------------------------------------------------- when a call raises

  /** The client never comes or goes. */
  ghost predicate Steady(redis: bool, steps: seq<Step>) {
    forall step :: step in steps && step.ClientChanges? ==> step.present == redis
  }

  /** Whatever is decided is a raise if it `raises`, and else a bucket. */
  ghost predicate Decided(s: State, redis: bool, raises: bool) {
    && s.redis == redis && raises == (redis && !s.hasScript)
    && (forall o :: o in s.outcomes ==> (o.result.None? <==> raises))
    && (forall t :: t in s.threads && s.threads[t].Releasing? ==> (s.threads[t].result.None? <==> raises))
    && (raises ==> s.buckets == map[] && forall t :: t in s.threads ==> !s.threads[t].Storing?)
  }

  lemma DecidedKept(s: State, step: Step, redis: bool, raises: bool)
    requires Decided(s, redis, raises) && Enabled(s, step) && (step.ClientChanges? ==> step.present == redis)
    ensures Decided(Apply(s, step), redis, raises)
  {
  }

  lemma {:induction false} RunKeepsDecided(s: State, steps: seq<Step>, redis: bool, raises: bool)
    requires Decided(s, redis, raises) && IsRun(s, steps) && Steady(redis, steps)
    ensures Decided(After(s, steps), redis, raises)
    decreases |steps|
  {
    if steps != [] {
      DecidedKept(s, steps[0], redis, raises);
      RunKeepsDecided(Apply(s, steps[0]), steps[1..], redis, raises);
    }
  }

  /** In every interleaving under a client that neither comes nor goes, a call raises exactly when
      there is a client and no script. */
  lemma CallsRaiseIff(hasScript: bool, redis: bool, steps: seq<Step>)
    requires IsRun(Start(hasScript, redis), steps) && Steady(redis, steps)
    ensures forall o :: o in After(Start(hasScript, redis), steps).outcomes ==>
              (o.result.None? <==> redis && !hasScript)
  {
    RunKeepsDecided(Start(hasScript, redis), steps, redis, redis && !hasScript);
  }
}
