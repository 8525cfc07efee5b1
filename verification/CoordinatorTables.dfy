/** The coordinator's tables and the statements its transactions are made of.
    The rows of `actions`, `edges` and `leases` are grouped by their batch, which
    every one of them names; each function here is one statement or one of the
    rules that several transactions share. */
module CoordinatorTables {
  import opened Wrappers
  import opened Dag

  datatype ActionState = Waiting | Ready | Running | Done | Failed | Cancelled
  datatype BatchState = InProgress | Finished | BatchFailed | BatchCancelled
  datatype Tier = Standard | High
  datatype Class = Build | Run

  datatype Failure =
    | Proof | TacticTimeout | Memory | InputMissing | Publish | Toolchain
    | Disk | SpecRejected | Internal | Script | TimedOut | Unavailable

  type Token = nat
  type BatchId = nat

  datatype Action = Action(
    state: ActionState,
    remaining: nat,
    attempts: int,
    tier: Tier,
    lastFailure: Option<Failure>,
    priority: Priority,
    spec: string,
    acKey: string)

  datatype Lease = Lease(key: Key, expiresAt: int)

  datatype Batch = Batch(
    state: BatchState,
    class_: Class,
    actions: map<Key, Action>,
    edges: set<Edge>,
    leases: map<Token, Lease>)

  datatype Missing = MissingTheory(key: Key) | MissingBlob(hash: string)

  /** A parsed result record: it failed exactly when it names a failure. */
  datatype Result = Result(spec: string, inputKey: Option<Key>, failure: Option<Failure>, missing: Option<Missing>)

  predicate Unfinished(s: ActionState) {
    s.Waiting? || s.Ready? || s.Running?
  }

  // ---- statements ------------------------------------------------------------------

  /** The parents an action still waits for. */
  function OpenParents(b: Batch, k: Key): set<Key> {
    set e | e in b.edges && e.child == k && e.parent in b.actions && !b.actions[e.parent].state.Done? :: e.parent
  }

  function ChildrenOf(b: Batch, k: Key): set<Key> {
    set e | e in b.edges && e.parent == k :: e.child
  }

  function SetState(b: Batch, k: Key, s: ActionState): Batch {
    if k in b.actions then b.(actions := b.actions[k := b.actions[k].(state := s)]) else b
  }

  function Refreshed(b: Batch, k: Key): Action
    requires k in b.actions
  {
    var a, open := b.actions[k], |OpenParents(b, k)|;
    if a.state.Waiting? || a.state.Ready? then
      a.(remaining := open, state := if open > 0 then Waiting else a.state)
    else a
  }

  /** `REFRESH`: recount the waiting and ready ones among `keys`; one with a
      parent that isn't done goes back to waiting. */
  function Refresh(b: Batch, keys: set<Key>): Batch {
    b.(actions := map k | k in b.actions :: if k in keys then Refreshed(b, k) else b.actions[k])
  }

  /** `_retry`. */
  function Retry(b: Batch, k: Key): Batch {
    Refresh(SetState(b, k, Waiting), {k})
  }

  /** `_requeue`. */
  function Requeue(b: Batch, k: Key): Batch {
    var waiting := if k in b.actions && b.actions[k].state.Done? then SetState(b, k, Waiting) else b;
    Refresh(Refresh(waiting, {k}), ChildrenOf(b, k))
  }

  function Ended(a: Action): Action {
    if Unfinished(a.state) then a.(state := Cancelled) else a
  }

  /** `_end_batch`. */
  function EndBatch(b: Batch, s: BatchState): Batch {
    b.(state := s, actions := map k | k in b.actions :: Ended(b.actions[k]), leases := map[])
  }

  /** `_fail_batch`. */
  function FailBatch(b: Batch, k: Key): Batch {
    EndBatch(SetState(b, k, Failed), BatchFailed)
  }

  /** `_finish_if_done`. */
  function FinishIfDone(b: Batch): Batch {
    if forall k <- b.actions :: b.actions[k].state.Done? || b.actions[k].state.Failed?
    then b.(state := Finished) else b
  }

  /** `_fail`: a failed build ends its batch, a failed run only itself. */
  function Fail(b: Batch, k: Key): Batch {
    if b.class_.Build? then FailBatch(b, k) else FinishIfDone(SetState(b, k, Failed))
  }

  /** `_add_edge` when the edge closes no cycle: the edge, and every action's
      place in the graph that has it. */
  ghost function WithEdge(b: Batch, e: Edge): Batch
    requires Joins(b.edges + {e}, b.actions.Keys) && Acyclic(b.edges + {e})
  {
    var edges := b.edges + {e};
    b.(edges := edges,
       actions := map k | k in b.actions :: b.actions[k].(priority := PriorityIn(b.actions.Keys, edges, k)))
  }

  /** `_input_missing`. The guard that the edges join actions is the tables'
      foreign key. */
  ghost function MissingInput(b: Batch, k: Key, attempts: int, missing: Option<Missing>, maxAttempts: int): Batch {
    if attempts >= maxAttempts then FailBatch(b, k)
    else if missing.Some? && missing.value.MissingTheory? && missing.value.key in b.actions && k in b.actions
         && Joins(b.edges, b.actions.Keys) && Acyclic(b.edges + {Edge(k, missing.value.key)}) then
      Requeue(SetState(WithEdge(b, Edge(k, missing.value.key)), k, Waiting), missing.value.key)
    else Retry(b, k)
  }

  // ---- transactions on a batch --------------------------------------------------------

  function WithAction(b: Batch, k: Key, a: Action): Batch {
    b.(actions := b.actions[k := a])
  }

  /** What `_claim` writes for the action it picked. */
  function Claimed(b: Batch, k: Key, token: Token, expiresAt: int): Batch {
    if b.state.InProgress? && k in b.actions && b.actions[k].state.Ready? then
      var a := b.actions[k];
      WithAction(b, k, a.(state := Running, attempts := a.attempts + 1)).(leases := b.leases[token := Lease(k, expiresAt)])
    else b
  }

  predicate Live(b: Batch, token: Token, now: int) {
    token in b.leases && b.leases[token].expiresAt > now
  }

  function Extended(b: Batch, token: Token, now: int, expiresAt: int): Batch {
    if Live(b, token, now) then b.(leases := b.leases[token := b.leases[token].(expiresAt := expiresAt)]) else b
  }

  predicate Matches(b: Batch, k: Key, r: Result) {
    k in b.actions && r.spec == b.actions[k].spec && (r.inputKey.None? || r.inputKey.value == k)
  }

  predicate RetriesWithinAttempts(a: Action, failure: Failure, maxAttempts: int) {
    && a.attempts < maxAttempts
    && (failure.Publish? || failure.Toolchain? || failure.Internal? || failure.Memory?
        || (failure.Disk? && a.lastFailure != Some(Disk)))
  }

  /** The rest of `complete`, from the action `a` as it was read and the batch
      `b` without the lease and with the result's failure recorded. */
  ghost function Applied(b: Batch, k: Key, a: Action, r: Result, maxAttempts: int): Batch
    requires k in b.actions
  {
    if r.failure.None? then
      FinishIfDone(Refresh(SetState(b, k, Done), ChildrenOf(b, k)))
    else if r.failure.value.Memory? && a.tier.Standard? then
      Retry(WithAction(b, k, b.actions[k].(tier := High)), k)
    else if r.failure.value.Unavailable? then
      Retry(WithAction(b, k, b.actions[k].(attempts := b.actions[k].attempts - 1)), k)
    else if RetriesWithinAttempts(a, r.failure.value, maxAttempts) then
      Retry(b, k)
    else if r.failure.value.InputMissing? then
      MissingInput(b, k, a.attempts, r.missing, maxAttempts)
    else
      Fail(b, k)
  }

  function WithoutLease(b: Batch, token: Token): Batch {
    b.(leases := map t | t in b.leases && t != token :: b.leases[t])
  }

  function Recorded(b: Batch, k: Key, failure: Option<Failure>): Batch
    requires k in b.actions
  {
    WithAction(b, k, b.actions[k].(lastFailure := failure))
  }

  /** `complete`. A stale token and a result for another action change nothing:
      the latter's transaction is rolled back. */
  ghost function Completed(b: Batch, token: Token, r: Result, now: int, maxAttempts: int): Batch {
    if Live(b, token, now) && Matches(b, b.leases[token].key, r) then
      var k := b.leases[token].key;
      Applied(Recorded(WithoutLease(b, token), k, r.failure), k, b.actions[k], r, maxAttempts)
    else b
  }

  /** `expire_leases` for one expired lease. */
  function Expired(b: Batch, token: Token, now: int, maxAttempts: int): Batch {
    if token in b.leases && b.leases[token].expiresAt <= now then
      var k, freed := b.leases[token].key, WithoutLease(b, token);
      if k !in b.actions || !b.actions[k].state.Running? then freed
      else if b.actions[k].attempts >= maxAttempts then
        Fail(if b.class_.Run? then Recorded(freed, k, Some(Internal)) else freed, k)
      else Retry(freed, k)
    else b
  }

  function MadeReady(a: Action): Action {
    if a.state.Waiting? && a.remaining == 0 then a.(state := Ready) else a
  }

  /** The update of `_release_batch`. */
  function Released(b: Batch, keys: set<Key>): Batch {
    if b.state.InProgress? then
      b.(actions := map k | k in b.actions :: if k in keys then MadeReady(b.actions[k]) else b.actions[k])
    else b
  }

  /** `_requeue_evicted`. */
  function Evicted(b: Batch, parent: Key, maxAttempts: int): Batch {
    if b.state.InProgress? && parent in b.actions && b.actions[parent].state.Done? then
      if b.actions[parent].attempts >= maxAttempts then FailBatch(b, parent) else Requeue(b, parent)
    else b
  }

  /** `cancel`, and `fail_overdue` for one batch. */
  function Stopped(b: Batch, s: BatchState): Batch {
    if b.state.InProgress? then EndBatch(b, s) else b
  }

  /** What a client may submit: see ParseBatch in BatchFormat. */
  datatype NewAction = NewAction(key: Key, acKey: string, spec: string, high: bool)

  ghost predicate Submittable(actions: seq<NewAction>, edges: set<Edge>) {
    && (forall i, j :: 0 <= i < j < |actions| ==> actions[i].key != actions[j].key)
    && Joins(edges, set n | n in actions :: n.key)
    && Acyclic(edges)
  }

  function NewOf(actions: seq<NewAction>, k: Key): NewAction
    requires exists n :: n in actions && n.key == k
  {
    if actions[0].key == k then actions[0] else NewOf(actions[1..], k)
  }

  /** The rows `submit` inserts. */
  ghost function Submitted(class_: Class, actions: seq<NewAction>, edges: set<Edge>): Batch
    requires Submittable(actions, edges)
  {
    var keys := set n | n in actions :: n.key;
    Batch(
      if actions == [] then Finished else InProgress,
      class_,
      map k | k in keys ::
        var n := NewOf(actions, k);
        Action(Waiting, |set e | e in edges && e.child == k :: e.parent|, 0, if n.high then High else Standard,
               None, PriorityIn(keys, edges, k), n.spec, n.acKey),
      edges,
      map[])
  }
}
