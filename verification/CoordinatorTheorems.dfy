/** What holds in every reachable state of the coordinator. */
module CoordinatorTheorems {
  import opened Wrappers
  import opened Dag
  import opened CoordinatorTables
  import opened CoordinatorInvariant
  import opened CoordinatorRuns

  // ---- the retry bound --------------------------------------------------------------------

  function Attempts(b: Batch): map<Key, int> {
    map k | k in b.actions :: b.actions[k].attempts
  }

  lemma {:induction false} SumPlus(w: map<Key, int>, d: int, v: map<Key, int>)
    requires v.Keys == w.Keys && forall k <- w :: v[k] == w[k] + d
    ensures Sum(v) == Sum(w) + Times(d, |w|)
    decreases |w|
  {
    if w.Keys == {} {
      assert w == map[] && v == map[];
    } else {
      var k :| k in w;
      SumTakes(w, k);
      SumTakes(v, k);
      assert (w - {k}).Keys == w.Keys - {k};
      assert (v - {k}).Keys == v.Keys - {k};
      SumPlus(w - {k}, d, v - {k});
      assert |w - {k}| == |w| - 1;
    }
  }

  function Times(d: int, n: nat): int {
    if n == 0 then 0 else d + Times(d, n - 1)
  }

  lemma {:induction false} TimesIsProduct(d: int, n: nat)
    ensures Times(d, n) == d * n
  {
    if n > 0 { TimesIsProduct(d, n - 1); }
  }

  lemma AttemptsByWeight(a: Action, m: int)
    ensures a.attempts <= Weight(a, m) + 2 * m
  {}

  lemma BudgetBoundsAttempts(b: Batch, m: int)
    requires Budgeted(b, m)
    ensures Sum(Attempts(b)) <= 2 * m * |b.actions|
  {
    var lifted := map k | k in b.actions :: Weight(b.actions[k], m) + 2 * m;
    forall k <- b.actions
      ensures Attempts(b)[k] <= lifted[k]
    {
      AttemptsByWeight(b.actions[k], m);
    }
    hide Weight;
    SumMonotone(Attempts(b), lifted);
    SumPlus(Weights(b, m), 2 * m, lifted);
    assert Weights(b, m).Keys == b.actions.Keys;
    TimesIsProduct(2 * m, |b.actions|);
    assert |Weights(b, m)| == |Weights(b, m).Keys| == |b.actions.Keys| == |b.actions|;
  }

  // ---- attempts count the claims that were not given back ------------------------------------

  ghost predicate Starts(b: Batch, op: Op) {
    op.Claim? && b.state.InProgress? && op.key in b.actions && b.actions[op.key].state.Ready?
  }

  /** A live attempt's worker says that it could not start the action. */
  ghost predicate GivesBack(b: Batch, op: Op, now: int) {
    op.Complete? && Live(b, op.attempt, now) && Matches(b, b.leases[op.attempt].key, op.result)
    && op.result.failure == Some(Unavailable)
  }

  ghost predicate SameAttempts(b: Batch, c: Batch) {
    b.actions.Keys == c.actions.Keys && forall k <- b.actions :: c.actions[k].attempts == b.actions[k].attempts
  }

  lemma StatementsKeepAttempts(b: Batch, k: Key, s: ActionState, keys: set<Key>, end: BatchState)
    ensures SameAttempts(b, SetState(b, k, s))
    ensures SameAttempts(b, Refresh(b, keys))
    ensures SameAttempts(b, EndBatch(b, end))
    ensures SameAttempts(b, FinishIfDone(b))
  {}

  lemma RetryKeepsAttempts(b: Batch, k: Key)
    ensures SameAttempts(b, Retry(b, k))
  {
    hide Refresh, SetState;
    StatementsKeepAttempts(b, k, Waiting, {}, BatchFailed);
    StatementsKeepAttempts(SetState(b, k, Waiting), k, Waiting, {k}, BatchFailed);
  }

  lemma RequeueKeepsAttempts(b: Batch, k: Key)
    ensures SameAttempts(b, Requeue(b, k))
  {
    hide Refresh, SetState;
    var w := if k in b.actions && b.actions[k].state.Done? then SetState(b, k, Waiting) else b;
    StatementsKeepAttempts(b, k, Waiting, {}, BatchFailed);
    StatementsKeepAttempts(w, k, Waiting, {k}, BatchFailed);
    StatementsKeepAttempts(Refresh(w, {k}), k, Waiting, ChildrenOf(b, k), BatchFailed);
  }

  lemma FailKeepsAttempts(b: Batch, k: Key)
    ensures SameAttempts(b, FailBatch(b, k))
    ensures SameAttempts(b, Fail(b, k))
  {
    hide SetState, EndBatch, FinishIfDone;
    StatementsKeepAttempts(b, k, Failed, {}, BatchFailed);
    StatementsKeepAttempts(SetState(b, k, Failed), k, Failed, {}, BatchFailed);
  }

  lemma DoneKeepsAttempts(b: Batch, k: Key)
    ensures SameAttempts(b, FinishIfDone(Refresh(SetState(b, k, Done), ChildrenOf(b, k))))
  {
    hide SetState, Refresh, FinishIfDone;
    StatementsKeepAttempts(b, k, Done, {}, BatchFailed);
    var d := SetState(b, k, Done);
    StatementsKeepAttempts(d, k, Done, ChildrenOf(b, k), BatchFailed);
    StatementsKeepAttempts(Refresh(d, ChildrenOf(b, k)), k, Done, {}, BatchFailed);
  }

  lemma MissingKeepsAttempts(b: Batch, k: Key, attempts: int, missing: Option<Missing>, m: int)
    ensures SameAttempts(b, MissingInput(b, k, attempts, missing, m))
  {
    hide Requeue, Retry, FailBatch, PriorityOf, Acyclic;
    RetryKeepsAttempts(b, k);
    FailKeepsAttempts(b, k);
    if missing.Some? && missing.value.MissingTheory? && missing.value.key in b.actions && k in b.actions
       && Joins(b.edges, b.actions.Keys) && Acyclic(b.edges + {Edge(k, missing.value.key)}) {
      var s := SetState(WithEdge(b, Edge(k, missing.value.key)), k, Waiting);
      assert SameAttempts(b, s);
      RequeueKeepsAttempts(s, missing.value.key);
    }
  }

  /** `b` with `n` attempts of `k` instead. */
  ghost predicate AttemptsBut(b: Batch, c: Batch, k: Key, n: int) {
    b.actions.Keys == c.actions.Keys && k in b.actions &&
    forall j <- b.actions :: c.actions[j].attempts == if j == k then n else b.actions[j].attempts
  }

  lemma AppliedAttempts(b: Batch, k: Key, a: Action, r: Result, m: int)
    requires k in b.actions
    ensures var c := Applied(b, k, a, r, m);
            if r.failure == Some(Unavailable) then AttemptsBut(b, c, k, b.actions[k].attempts - 1) else SameAttempts(b, c)
  {
    hide Requeue, Retry, FailBatch, Fail, Refresh, MissingInput, FinishIfDone, SetState, ChildrenOf, RetriesWithinAttempts;
    if r.failure.None? {
      DoneKeepsAttempts(b, k);
    } else if r.failure.value.Memory? && a.tier.Standard? {
      RetryKeepsAttempts(WithAction(b, k, b.actions[k].(tier := High)), k);
    } else if r.failure.value.Unavailable? {
      RetryKeepsAttempts(WithAction(b, k, b.actions[k].(attempts := b.actions[k].attempts - 1)), k);
    } else {
      RetryKeepsAttempts(b, k);
      FailKeepsAttempts(b, k);
      MissingKeepsAttempts(b, k, a.attempts, r.missing, m);
    }
  }

  lemma ExpiredAttempts(b: Batch, token: Token, now: int, m: int)
    ensures SameAttempts(b, Expired(b, token, now, m))
  {
    hide Retry, Fail;
    if token in b.leases && b.leases[token].key in b.actions {
      var k, freed := b.leases[token].key, WithoutLease(b, token);
      if b.actions[k].attempts < m {
        RetryKeepsAttempts(freed, k);
      } else if b.class_.Run? {
        FailKeepsAttempts(Recorded(freed, k, Some(Internal)), k);
      } else {
        FailKeepsAttempts(freed, k);
      }
    }
  }

  lemma CompletedAttempts(b: Batch, token: Token, r: Result, now: int, m: int)
    ensures var c := Completed(b, token, r, now, m);
            if GivesBack(b, Complete(token, r), now)
            then AttemptsBut(b, c, b.leases[token].key, b.actions[b.leases[token].key].attempts - 1)
            else SameAttempts(b, c)
  {
    hide Applied;
    if Live(b, token, now) && Matches(b, b.leases[token].key, r) {
      var k := b.leases[token].key;
      AppliedAttempts(Recorded(WithoutLease(b, token), k, r.failure), k, b.actions[k], r, m);
    }
  }

  lemma SumSame(b: Batch, c: Batch)
    requires SameAttempts(b, c)
    ensures Sum(Attempts(c)) == Sum(Attempts(b))
  {
    assert Attempts(c) == Attempts(b);
  }

  lemma SumBut(b: Batch, c: Batch, k: Key, n: int)
    requires AttemptsBut(b, c, k, n)
    ensures Sum(Attempts(c)) == Sum(Attempts(b)) - b.actions[k].attempts + n
  {
    assert Attempts(c) == Attempts(b)[k := n];
    SumChange(Attempts(b), k, n);
  }

  lemma SumChange(w: map<Key, int>, k: Key, n: int)
    requires k in w
    ensures Sum(w[k := n]) == Sum(w) - w[k] + n
  {
    SumTakes(w, k);
    SumTakes(w[k := n], k);
    assert w[k := n] - {k} == w - {k};
  }

  lemma AttemptsStep(b: Batch, op: Op, now: int, m: int)
    ensures Sum(Attempts(Changed(b, op, now, m))) ==
            Sum(Attempts(b)) + (if Starts(b, op) then 1 else 0) - (if GivesBack(b, op, now) then 1 else 0)
  {
    hide Completed, Expired, Evicted, Released, Stopped, Extended;
    var c := Changed(b, op, now, m);
    match op
    case Claim(key, token, lease) =>
      if Starts(b, op) { SumBut(b, c, key, b.actions[key].attempts + 1); }
    case Complete(token, result) =>
      CompletedAttempts(b, token, result, now, m);
      if GivesBack(b, op, now) {
        SumBut(b, c, b.leases[token].key, b.actions[b.leases[token].key].attempts - 1);
      } else {
        SumSame(b, c);
      }
    case Expire(token) =>
      ExpiredAttempts(b, token, now, m);
      SumSame(b, c);
    case _ =>
      OthersKeepAttempts(b, op, now, m);
      SumSame(b, c);
  }

  lemma OthersKeepAttempts(b: Batch, op: Op, now: int, m: int)
    requires op.Evict? || op.Heartbeat? || op.Release? || op.Stop?
    ensures SameAttempts(b, Changed(b, op, now, m))
  {
    hide Requeue, FailBatch;
    if op.Evict? {
      RequeueKeepsAttempts(b, op.parent);
      FailKeepsAttempts(b, op.parent);
    }
  }

  ghost predicate Acts(db: Db, step: Step, id: BatchId) {
    step.On? && step.id == id && id in db.batches && Made(step.op) !! db.issued
  }

  /** How many of the run's claims leased an action of the batch. */
  ghost function Started(steps: seq<Step>, id: BatchId, m: int): nat {
    if steps == [] then 0
    else
      var before, step := After(steps[..|steps| - 1], m), steps[|steps| - 1];
      Started(steps[..|steps| - 1], id, m) +
      if Acts(before, step, id) && Starts(before.batches[id], step.op) then 1 else 0
  }

  /** How many of them ended in `unavailable`. */
  ghost function Returned(steps: seq<Step>, id: BatchId, m: int): nat {
    if steps == [] then 0
    else
      var before, step := After(steps[..|steps| - 1], m), steps[|steps| - 1];
      Returned(steps[..|steps| - 1], id, m) +
      if Acts(before, step, id) && GivesBack(before.batches[id], step.op, before.now) then 1 else 0
  }

  lemma RunAccounts(steps: seq<Step>, id: BatchId, m: int)
    ensures id in After(steps, m).batches ==> id in After(steps, m).ids
    ensures id !in After(steps, m).ids ==> Started(steps, id, m) == 0 && Returned(steps, id, m) == 0
    ensures id in After(steps, m).batches ==>
              Started(steps, id, m) - Returned(steps, id, m) == Sum(Attempts(After(steps, m).batches[id]))
  {
    hide Changed, Submittable, Starts, GivesBack, Attempts;
    if steps != [] {
      var earlier, step := steps[..|steps| - 1], steps[|steps| - 1];
      RunAccounts(earlier, id, m);
      var before := After(earlier, m);
      if Acts(before, step, id) {
        AttemptsStep(before.batches[id], step.op, before.now, m);
      } else if step.Submit? && step.id == id && Submittable(step.actions, step.edges) {
        SubmittedAttempts(step.class_, step.actions, step.edges);
      }
    }
  }

  lemma SubmittedAttempts(class_: Class, actions: seq<NewAction>, edges: set<Edge>)
    requires Submittable(actions, edges)
    ensures Sum(Attempts(Submitted(class_, actions, edges))) == 0
  {
    AllZero(Attempts(Submitted(class_, actions, edges)));
  }

  lemma {:induction false} AllZero(w: map<Key, int>)
    requires forall k <- w :: w[k] == 0
    ensures Sum(w) == 0
    decreases |w|
  {
    if w != map[] {
      var k :| k in w;
      SumTakes(w, k);
      assert (w - {k}).Keys == w.Keys - {k};
      AllZero(w - {k});
    }
  }

  /** However a run interleaves evictions, missing inputs, moves to the high tier
      and lease expiries, a batch of N actions is claimed at most 2 N `max_attempts`
      times, not counting the claims whose worker could not start the action. */
  lemma RetryBound(steps: seq<Step>, id: BatchId, m: int)
    requires m >= 1 && id in After(steps, m).batches
    ensures var b := After(steps, m).batches[id];
            Started(steps, id, m) - Returned(steps, id, m) == Sum(Attempts(b)) <= 2 * m * |b.actions|
  {
    RunKeeps(steps, m);
    RunAccounts(steps, id, m);
    BudgetBoundsAttempts(After(steps, m).batches[id], m);
  }

  // ---- every reachable state ----------------------------------------------------------------

  /** Stored priorities never drift: in every reachable state the edges are acyclic, and
      each action's priority is its longest chain of dependents and their number. */
  lemma PrioritiesNeverDrift(steps: seq<Step>, id: BatchId, m: int)
    requires m >= 1 && id in After(steps, m).batches
    ensures var b := After(steps, m).batches[id];
            Joins(b.edges, b.actions.Keys) && Acyclic(b.edges) &&
            forall k <- b.actions :: PriorityOf(b.edges, b.actions.Keys, k, b.actions[k].priority)
  {
    RunKeeps(steps, m);
  }

  /** In every reachable state each running action has exactly one lease and each lease
      is of one; only a batch in progress has any; and a batch is in progress exactly
      while it has an unfinished action. */
  lemma LeasesMatchRunning(steps: seq<Step>, id: BatchId, m: int)
    requires m >= 1 && id in After(steps, m).batches
    ensures var b := After(steps, m).batches[id];
            && (forall k <- b.actions :: b.actions[k].state.Running? <==> exists t :: t in b.leases && b.leases[t].key == k)
            && (forall t, u :: t in b.leases && u in b.leases && b.leases[t].key == b.leases[u].key ==> t == u)
            && (forall t <- b.leases :: b.state.InProgress? && b.leases[t].key in b.actions)
            && (b.state.InProgress? <==> exists k :: k in b.actions && Unfinished(b.actions[k].state))
  {
    RunKeeps(steps, m);
    var b := After(steps, m).batches[id];
    forall k <- b.actions | b.actions[k].state.Running?
      ensures exists t :: t in b.leases && b.leases[t].key == k
    {
      assert HasLease(b, k);
    }
  }

  // ---- no deadlock -----------------------------------------------------------------------------

  ghost predicate ParentsDone(b: Batch, k: Key) {
    forall p :: Edge(k, p) in b.edges ==> p in b.actions && b.actions[p].state.Done?
  }

  /** Something of a build batch in progress can always move on: it is ready, it
      runs, or it waits only for its release. */
  lemma NoDeadlock(b: Batch, m: int) returns (k: Key)
    requires Inv(b, m) && b.state.InProgress? && b.class_.Build?
    ensures k in b.actions
    ensures b.actions[k].state.Ready? || b.actions[k].state.Running? || (b.actions[k].state.Waiting? && ParentsDone(b, k))
  {
    var open := set j | j in b.actions && Unfinished(b.actions[j].state);
    var u :| u in b.actions && Unfinished(b.actions[u].state);
    assert u in open;
    k := SomeHasNoParent(b.edges, open);
    forall p | Edge(k, p) in b.edges
      ensures p in b.actions && b.actions[p].state.Done?
    {
      assert p !in open;
    }
  }

  /** The counter agrees with the graph: a ready action, and one being claimed,
      has every parent done. */
  lemma ReadyHasParentsDone(b: Batch, k: Key, m: int)
    requires Inv(b, m) && k in b.actions
    requires b.actions[k].state.Ready? || (b.actions[k].state.Waiting? && b.actions[k].remaining == 0)
    ensures ParentsDone(b, k)
  {
    forall p | Edge(k, p) in b.edges
      ensures p in b.actions && b.actions[p].state.Done?
    {
      assert Edge(k, p).parent in OpenParents(b, k) <==> !b.actions[p].state.Done?;
    }
  }

  /** In every reachable state a build batch in progress can move on. */
  lemma NeverDeadlocked(steps: seq<Step>, id: BatchId, m: int)
    requires m >= 1 && id in After(steps, m).batches
    ensures var b := After(steps, m).batches[id];
            b.state.InProgress? && b.class_.Build? ==>
              exists k :: k in b.actions &&
                (b.actions[k].state.Ready? || b.actions[k].state.Running? || (b.actions[k].state.Waiting? && ParentsDone(b, k)))
  {
    RunKeeps(steps, m);
    var b := After(steps, m).batches[id];
    if b.state.InProgress? && b.class_.Build? { var k := NoDeadlock(b, m); }
  }

  /** In every reachable state each waiting or ready action's counter is the number of its
      parents not done; so an action ready, or claimed by the next step, has them all done. */
  lemma CounterAgrees(steps: seq<Step>, id: BatchId, m: int)
    requires m >= 1 && id in After(steps, m).batches
    ensures var b := After(steps, m).batches[id];
            forall k <- b.actions :: b.actions[k].state.Waiting? || b.actions[k].state.Ready? ==>
              && b.actions[k].remaining == |set p | p in b.actions && Edge(k, p) in b.edges && !b.actions[p].state.Done?|
              && (b.actions[k].state.Ready? || b.actions[k].remaining == 0 ==> ParentsDone(b, k))
  {
    RunKeeps(steps, m);
    var b := After(steps, m).batches[id];
    forall k <- b.actions | b.actions[k].state.Waiting? || b.actions[k].state.Ready?
      ensures b.actions[k].remaining == |set p | p in b.actions && Edge(k, p) in b.edges && !b.actions[p].state.Done?|
      ensures b.actions[k].state.Ready? || b.actions[k].remaining == 0 ==> ParentsDone(b, k)
    {
      OpenParentsAre(b, k);
      if b.actions[k].state.Ready? || b.actions[k].remaining == 0 { ReadyHasParentsDone(b, k, m); }
    }
  }

  lemma OpenParentsAre(b: Batch, k: Key)
    ensures OpenParents(b, k) == set p | p in b.actions && Edge(k, p) in b.edges && !b.actions[p].state.Done?
  {
    forall p | p in b.actions && Edge(k, p) in b.edges && !b.actions[p].state.Done?
      ensures p in OpenParents(b, k)
    {
      assert Edge(k, p).parent in OpenParents(b, k);
    }
    assert forall e <- b.edges | e.child == k :: e == Edge(k, e.parent);
  }

  // ---- what is final stays so --------------------------------------------------------------------

  /** Batches that are done, failed or cancelled never change, although neither a
      completion nor an expiry looks at the batch's state: they have no lease. */
  lemma TerminalFrozen(b: Batch, op: Op, now: int, m: int)
    requires Inv(b, m) && !b.state.InProgress?
    ensures Changed(b, op, now, m) == b
  {
    assert forall t <- b.leases :: Unfinished(b.actions[b.leases[t].key].state);
    assert b.leases == map[];
  }

  /** So once a run has ended a batch, it stays as it is for the rest of every run, until
      it is deleted. */
  lemma {:induction false} EndedForever(steps: seq<Step>, more: seq<Step>, id: BatchId, m: int)
    requires m >= 1 && id in After(steps, m).batches && !After(steps, m).batches[id].state.InProgress?
    ensures var after := After(steps + more, m);
            id in after.ids && (id in after.batches ==> after.batches[id] == After(steps, m).batches[id])
    decreases |more|
  {
    hide Apply, Inv, Submittable;
    if more == [] {
      assert steps + more == steps;
      RunKeeps(steps, m);
    } else {
      var all := steps + more;
      EndedForever(steps, more[..|more| - 1], id, m);
      assert all[..|all| - 1] == steps + more[..|more| - 1];
      RunKeeps(steps + more[..|more| - 1], m);
      EndedStep(After(all[..|all| - 1], m), all[|all| - 1], id, m);
    }
  }

  lemma EndedStep(db: Db, step: Step, id: BatchId, m: int)
    requires DbInv(db, m) && id in db.ids && (id in db.batches ==> !db.batches[id].state.InProgress?)
    ensures var after := Apply(db, step, m);
            id in after.ids && (id in after.batches ==> id in db.batches && after.batches[id] == db.batches[id])
  {
    hide Changed, Submittable, Submitted, Inv;
    match step
    case On(touched, op) => if touched == id && id in db.batches { TerminalFrozen(db.batches[id], op, db.now, m); }
    case _ =>
  }

  ghost predicate LiveSomewhere(db: Db, token: Token) {
    exists id :: id in db.batches && Live(db.batches[id], token, db.now)
  }

  /** A token that was given out and is no longer live. */
  ghost predicate Stale(db: Db, token: Token) {
    token in db.issued && !LiveSomewhere(db, token)
  }

  /** Neither a heartbeat nor a result under a stale token changes anything. */
  lemma StaleIsRefused(db: Db, token: Token, id: BatchId, r: Result, extension: int, m: int)
    requires Stale(db, token)
    ensures Apply(db, On(id, Complete(token, r)), m) == db
    ensures Apply(db, On(id, Heartbeat(token, extension)), m) == db
  {
    if id in db.batches {
      assert !Live(db.batches[id], token, db.now);
      assert db.batches[id := db.batches[id]] == db.batches;
      assert db.issued + {} == db.issued;
    }
  }

  lemma NoNewLife(b: Batch, op: Op, token: Token, now: int, m: int)
    requires !Live(b, token, now) && token !in Made(op)
    ensures !Live(Changed(b, op, now, m), token, now)
  {
    hide Claimed, Completed, Expired, Evicted, Released, Stopped;
    if !op.Heartbeat? { ChangedLeases(b, op, now, m); }
  }

  /** Expired, revoked or superseded, a token stays so for the rest of the run. */
  lemma {:induction false} StaleForever(steps: seq<Step>, more: seq<Step>, token: Token, m: int)
    requires Stale(After(steps, m), token)
    ensures Stale(After(steps + more, m), token)
    decreases |more|
  {
    if more == [] {
      assert steps + more == steps;
    } else {
      var all := steps + more;
      StaleForever(steps, more[..|more| - 1], token, m);
      assert all[..|all| - 1] == steps + more[..|more| - 1];
      StaleStep(After(all[..|all| - 1], m), all[|all| - 1], token, m);
    }
  }

  lemma StaleStep(db: Db, step: Step, token: Token, m: int)
    requires Stale(db, token)
    ensures Stale(Apply(db, step, m), token)
  {
    hide Changed, Submittable, Submitted;
    var after := Apply(db, step, m);
    forall id | id in after.batches
      ensures !Live(after.batches[id], token, after.now)
    {
      assert id in db.batches ==> !Live(db.batches[id], token, db.now);
      match step
      case Submit(added, class_, actions, edges) =>
        if added == id && Submittable(actions, edges) { SubmittedUnleased(class_, actions, edges); }
      case On(touched, op) =>
        if touched == id && Made(op) !! db.issued { NoNewLife(db.batches[id], op, token, db.now, m); }
      case _ =>
    }
  }
}
