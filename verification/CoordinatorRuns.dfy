/** Every run of the coordinator: any interleaving of its transactions, from any
    number of replicas and workers. */
module CoordinatorRuns {
  import opened Wrappers
  import opened Dag
  import opened CoordinatorTables
  import opened CoordinatorInvariant
  import opened CoordinatorSteps

  /** The database, its clock, and the tokens and batch ids ever given out. */
  datatype Db = Db(batches: map<BatchId, Batch>, now: int, issued: set<Token>, ids: set<BatchId>)

  /** A transaction on one batch. */
  datatype Op =
    | Claim(key: Key, token: Token, lease: int)
    | Heartbeat(beating: Token, extension: int)
    | Complete(attempt: Token, result: Result)
    | Expire(expired: Token)
    | Release(keys: set<Key>)
    | Evict(parent: Key)
    | Stop(cancelled: bool)

  datatype Step =
    | Submit(id: BatchId, class_: Class, actions: seq<NewAction>, edges: set<Edge>)
    | On(id: BatchId, op: Op)
    | Delete(id: BatchId)
    | Tick(seconds: nat)

  const EMPTY := Db(map[], 0, {}, {})

  /** What a transaction does to the batch it names. */
  ghost function Changed(b: Batch, op: Op, now: int, m: int): Batch {
    match op
    case Claim(key, token, lease) => Claimed(b, key, token, now + lease)
    case Heartbeat(token, extension) => Extended(b, token, now, now + extension)
    case Complete(token, result) => Completed(b, token, result, now, m)
    case Expire(token) => Expired(b, token, now, m)
    case Release(keys) => Released(b, keys)
    case Evict(parent) => Evicted(b, parent, m)
    case Stop(cancelled) => Stopped(b, if cancelled then BatchCancelled else BatchFailed)
  }

  /** The token a transaction makes up. */
  function Made(op: Op): set<Token> {
    if op.Claim? then {op.token} else {}
  }

  ghost function Apply(db: Db, step: Step, m: int): Db {
    match step
    case Submit(id, class_, actions, edges) =>
      if id !in db.ids && Submittable(actions, edges) && (class_.Run? ==> edges == {}) then
        db.(batches := db.batches[id := Submitted(class_, actions, edges)], ids := db.ids + {id})
      else db
    case On(id, op) =>
      if id in db.batches && Made(op) !! db.issued then
        db.(batches := db.batches[id := Changed(db.batches[id], op, db.now, m)], issued := db.issued + Made(op))
      else db
    case Delete(id) =>
      if id in db.batches && !db.batches[id].state.InProgress? then
        db.(batches := map i | i in db.batches && i != id :: db.batches[i])
      else db
    case Tick(seconds) => db.(now := db.now + seconds)
  }

  /** The database after a run. */
  ghost function After(steps: seq<Step>, m: int): Db {
    if steps == [] then EMPTY else Apply(After(steps[..|steps| - 1], m), steps[|steps| - 1], m)
  }

  ghost predicate DbInv(db: Db, m: int) {
    && (forall id <- db.batches :: Inv(db.batches[id], m) && id in db.ids)
    && (forall id <- db.batches, t <- db.batches[id].leases :: t in db.issued)
    && (forall i, j, t :: i in db.batches && j in db.batches && t in db.batches[i].leases && t in db.batches[j].leases ==> i == j)
  }

  lemma ChangedKeeps(b: Batch, op: Op, now: int, m: int)
    requires Inv(b, m) && Made(op) !! b.leases.Keys
    ensures Inv(Changed(b, op, now, m), m)
  {
    hide Inv;
    match op
    case Claim(key, token, lease) => ClaimedKeeps(b, key, token, now + lease, m);
    case Heartbeat(token, extension) => ExtendedKeeps(b, token, now, now + extension, m);
    case Complete(token, result) => CompletedKeeps(b, token, result, now, m);
    case Expire(token) => ExpiredKeeps(b, token, now, m);
    case Release(keys) => ReleasedKeeps(b, keys, m);
    case Evict(parent) => EvictedKeeps(b, parent, m);
    case Stop(cancelled) => StoppedKeeps(b, if cancelled then BatchCancelled else BatchFailed, m);
  }

  /** Leases only go, but for those given as changed. */
  ghost predicate LeasesGo(b: Batch, c: Batch) {
    forall t <- c.leases :: t in b.leases && c.leases[t] == b.leases[t]
  }

  lemma RulesAddNoLease(b: Batch, k: Key)
    ensures LeasesGo(b, Retry(b, k)) && LeasesGo(b, Requeue(b, k)) && LeasesGo(b, FailBatch(b, k)) && LeasesGo(b, Fail(b, k))
  {
    hide Refreshed, OpenParents, Ended;
  }

  lemma MissingAddsNoLease(b: Batch, k: Key, attempts: int, missing: Option<Missing>, m: int)
    ensures LeasesGo(b, MissingInput(b, k, attempts, missing, m))
  {
    hide Requeue, Retry, FailBatch, PriorityOf, Acyclic;
    RulesAddNoLease(b, k);
    if missing.Some? && missing.value.MissingTheory? && missing.value.key in b.actions && k in b.actions
       && Joins(b.edges, b.actions.Keys) && Acyclic(b.edges + {Edge(k, missing.value.key)}) {
      RulesAddNoLease(SetState(WithEdge(b, Edge(k, missing.value.key)), k, Waiting), missing.value.key);
    }
  }

  lemma AppliedAddsNoLease(b: Batch, k: Key, a: Action, r: Result, m: int)
    requires k in b.actions
    ensures LeasesGo(b, Applied(b, k, a, r, m))
  {
    hide Retry, Fail, MissingInput, RetriesWithinAttempts, Refreshed, OpenParents;
    RulesAddNoLease(b, k);
    RulesAddNoLease(WithAction(b, k, b.actions[k].(tier := High)), k);
    RulesAddNoLease(WithAction(b, k, b.actions[k].(attempts := b.actions[k].attempts - 1)), k);
    MissingAddsNoLease(b, k, a.attempts, r.missing, m);
  }

  /** Only a claim adds a lease, and only its own; only a heartbeat extends one. */
  lemma ChangedLeases(b: Batch, op: Op, now: int, m: int)
    ensures Changed(b, op, now, m).leases.Keys <= b.leases.Keys + Made(op)
    ensures !op.Heartbeat? ==> forall t <- Changed(b, op, now, m).leases ::
                                 t in Made(op) || (t in b.leases && Changed(b, op, now, m).leases[t] == b.leases[t])
  {
    hide Applied, Retry, Requeue, Fail, FailBatch;
    match op
    case Complete(token, r) =>
      if Live(b, token, now) && Matches(b, b.leases[token].key, r) {
        var k := b.leases[token].key;
        AppliedAddsNoLease(Recorded(WithoutLease(b, token), k, r.failure), k, b.actions[k], r, m);
      }
    case Expire(token) =>
      if token in b.leases {
        var k, freed := b.leases[token].key, WithoutLease(b, token);
        RulesAddNoLease(freed, k);
        if k in b.actions { RulesAddNoLease(Recorded(freed, k, Some(Internal)), k); }
      }
    case Evict(parent) => RulesAddNoLease(b, parent);
    case _ =>
  }

  lemma BatchReplaced(db: Db, id: BatchId, b: Batch, made: set<Token>, m: int)
    requires DbInv(db, m) && id in db.batches && Inv(b, m)
    requires made !! db.issued && b.leases.Keys <= db.batches[id].leases.Keys + made
    ensures DbInv(db.(batches := db.batches[id := b], issued := db.issued + made), m)
  {
    hide Inv;
  }

  /** Every step of every transaction keeps the invariant of the whole database. */
  lemma StepKeeps(db: Db, step: Step, m: int)
    requires m >= 1 && DbInv(db, m)
    ensures DbInv(Apply(db, step, m), m)
  {
    hide Inv, Changed, Submittable, Submitted;
    match step
    case Submit(id, class_, actions, edges) =>
      if Apply(db, step, m) != db {
        SubmittedInv(class_, actions, edges, m);
        SubmittedUnleased(class_, actions, edges);
      }
    case Delete(id) =>
    case Tick(seconds) =>
    case On(id, op) =>
      if id in db.batches && Made(op) !! db.issued {
        ChangedKeeps(db.batches[id], op, db.now, m);
        ChangedLeases(db.batches[id], op, db.now, m);
        BatchReplaced(db, id, Changed(db.batches[id], op, db.now, m), Made(op), m);
      }
  }

  lemma SubmittedUnleased(class_: Class, actions: seq<NewAction>, edges: set<Edge>)
    requires Submittable(actions, edges)
    ensures Submitted(class_, actions, edges).leases == map[]
  {}

  lemma {:induction false} RunKeeps(steps: seq<Step>, m: int)
    requires m >= 1
    ensures DbInv(After(steps, m), m)
  {
    if steps != [] {
      RunKeeps(steps[..|steps| - 1], m);
      StepKeeps(After(steps[..|steps| - 1], m), steps[|steps| - 1], m);
    }
  }
}
