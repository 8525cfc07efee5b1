/** How long a lease lives: from its claim until its time is up, unless a result under it
    or the end of its batch takes it. */
module CoordinatorLeases {
  import opened Wrappers
  import opened Dag
  import opened CoordinatorTables
  import opened CoordinatorInvariant
  import opened CoordinatorRuns
  import opened CoordinatorTheorems

  /** The lease is there, of that action, and to last at least until then. */
  ghost predicate Holds(b: Batch, token: Token, key: Key, until: int) {
    token in b.leases && b.leases[token].key == key && b.leases[token].expiresAt >= until
  }

  /** What takes a lease: a result under it, its expiry, and the end of its batch. */
  ghost predicate TakesLease(db: Db, step: Step, id: BatchId, token: Token, until: int, m: int) {
    || (step.On? && step.id == id && step.op.Complete? && step.op.attempt == token)
    || (step.On? && step.id == id && step.op.Expire? && step.op.expired == token && db.now >= until)
    || (id in Apply(db, step, m).batches && !Apply(db, step, m).batches[id].state.InProgress?)
  }

  /** A heartbeat asks for as long again as the claim, or longer. */
  predicate Shortens(step: Step, id: BatchId, token: Token, lease: int) {
    step.On? && step.id == id && step.op.Heartbeat? && step.op.beating == token && step.op.extension < lease
  }

  /** A rule keeps the leases, or ends the batch. */
  ghost predicate KeepsLeases(b: Batch, c: Batch) {
    c.leases == b.leases || !c.state.InProgress?
  }

  lemma RulesKeepLeases(b: Batch, k: Key)
    ensures Retry(b, k).leases == b.leases && Requeue(b, k).leases == b.leases && FinishIfDone(b).leases == b.leases
    ensures KeepsLeases(b, FailBatch(b, k)) && KeepsLeases(b, Fail(b, k))
  {
    hide Refreshed, OpenParents, Ended;
  }

  lemma MissingKeepsLeases(b: Batch, k: Key, attempts: int, missing: Option<Missing>, m: int)
    ensures KeepsLeases(b, MissingInput(b, k, attempts, missing, m))
  {
    hide Requeue, Retry, FailBatch, PriorityOf, Acyclic;
    RulesKeepLeases(b, k);
    if missing.Some? && missing.value.MissingTheory? && missing.value.key in b.actions && k in b.actions
       && Joins(b.edges, b.actions.Keys) && Acyclic(b.edges + {Edge(k, missing.value.key)}) {
      RulesKeepLeases(SetState(WithEdge(b, Edge(k, missing.value.key)), k, Waiting), missing.value.key);
    }
  }

  lemma AppliedKeepsLeases(b: Batch, k: Key, a: Action, r: Result, m: int)
    requires k in b.actions
    ensures KeepsLeases(b, Applied(b, k, a, r, m))
  {
    hide Retry, Fail, MissingInput, RetriesWithinAttempts, OpenParents, FinishIfDone, Refreshed;
    RulesKeepLeases(b, k);
    RulesKeepLeases(WithAction(b, k, b.actions[k].(tier := High)), k);
    RulesKeepLeases(WithAction(b, k, b.actions[k].(attempts := b.actions[k].attempts - 1)), k);
    RulesKeepLeases(Refresh(SetState(b, k, Done), ChildrenOf(b, k)), k);
    MissingKeepsLeases(b, k, a.attempts, r.missing, m);
  }

  /** Of a transaction on the batch. */
  lemma ChangeKeeps(b: Batch, op: Op, now: int, token: Token, key: Key, until: int, lease: int, m: int)
    requires Holds(b, token, key, until) && token !in Made(op) && until <= now + lease
    requires !(op.Complete? && op.attempt == token) && !(op.Expire? && op.expired == token && now >= until)
    requires !(op.Heartbeat? && op.beating == token && op.extension < lease)
    requires Changed(b, op, now, m).state.InProgress?
    ensures Holds(Changed(b, op, now, m), token, key, until)
  {
    hide Applied, Retry, Requeue, Fail, FailBatch;
    match op
    case Complete(other, r) =>
      if Live(b, other, now) && Matches(b, b.leases[other].key, r) {
        var k := b.leases[other].key;
        AppliedKeepsLeases(Recorded(WithoutLease(b, other), k, r.failure), k, b.actions[k], r, m);
      }
    case Expire(other) =>
      if other in b.leases {
        var k, freed := b.leases[other].key, WithoutLease(b, other);
        RulesKeepLeases(freed, k);
        if k in b.actions { RulesKeepLeases(Recorded(freed, k, Some(Internal)), k); }
      }
    case Evict(parent) => RulesKeepLeases(b, parent);
    case _ =>
  }

  lemma StepKeepsLease(db: Db, step: Step, id: BatchId, token: Token, key: Key, until: int, lease: int, m: int)
    requires DbInv(db, m) && id in db.batches && Holds(db.batches[id], token, key, until) && until <= db.now + lease
    requires !TakesLease(db, step, id, token, until, m) && !Shortens(step, id, token, lease)
    ensures var after := Apply(db, step, m); id in after.batches && Holds(after.batches[id], token, key, until) && after.now >= db.now
  {
    LeaseIsKnown(db, id, token, m);
    hide DbInv, Inv, Changed, Submittable, Submitted, Holds, Live, Matches;
    if step.On? && step.id == id && Made(step.op) !! db.issued {
      assert Apply(db, step, m).batches[id] == Changed(db.batches[id], step.op, db.now, m);
      ChangeKeeps(db.batches[id], step.op, db.now, token, key, until, lease, m);
    } else {
      OthersKeepBatch(db, step, id, m);
    }
  }

  lemma OthersKeepBatch(db: Db, step: Step, id: BatchId, m: int)
    requires id in db.batches && id in db.ids && db.batches[id].state.InProgress?
    requires !(step.On? && step.id == id && Made(step.op) !! db.issued)
    ensures var after := Apply(db, step, m); id in after.batches && after.batches[id] == db.batches[id] && after.now >= db.now
  {
    hide Changed, Submittable, Submitted;
  }

  lemma LeaseIsKnown(db: Db, id: BatchId, token: Token, m: int)
    requires DbInv(db, m) && id in db.batches && token in db.batches[id].leases
    ensures token in db.issued && id in db.ids && db.batches[id].state.InProgress?
  {
    hide Inv;
    HeldInProgress(db.batches[id], token, m);
  }

  lemma HeldInProgress(b: Batch, token: Token, m: int)
    requires Inv(b, m) && token in b.leases
    ensures b.state.InProgress? && b.leases[token].key in b.actions && b.actions[b.leases[token].key].state.Running?
  {
    assert Unfinished(b.actions[b.leases[token].key].state);
  }

  /** Nothing of `more`, run after `steps`, takes the lease or shortens it. */
  ghost predicate Undisturbed(steps: seq<Step>, more: seq<Step>, id: BatchId, token: Token, until: int, lease: int, m: int) {
    forall i | 0 <= i < |more| :: !TakesLease(After(steps + more[..i], m), more[i], id, token, until, m) && !Shortens(more[i], id, token, lease)
  }

  lemma {:induction false} LeaseStays(steps: seq<Step>, more: seq<Step>, id: BatchId, token: Token, key: Key, until: int, lease: int, m: int)
    requires m >= 1 && Undisturbed(steps, more, id, token, until, lease, m)
    requires var db := After(steps, m); id in db.batches && Holds(db.batches[id], token, key, until) && until <= db.now + lease
    ensures var after := After(steps + more, m);
            id in after.batches && Holds(after.batches[id], token, key, until) && after.now >= After(steps, m).now
    decreases |more|
  {
    hide After, Apply, DbInv, Holds, Undisturbed;
    if more == [] {
      assert steps + more == steps;
    } else {
      var init := more[..|more| - 1];
      var before := steps + init;
      UndisturbedSoFar(steps, more, id, token, until, lease, m);
      LeaseStays(steps, init, id, token, key, until, lease, m);
      RunKeeps(before, m);
      StepKeepsLease(After(before, m), more[|more| - 1], id, token, key, until, lease, m);
      AfterOne(before, more[|more| - 1], m);
      assert before + [more[|more| - 1]] == steps + more;
    }
  }

  lemma AfterOne(steps: seq<Step>, step: Step, m: int)
    ensures After(steps + [step], m) == Apply(After(steps, m), step, m)
  {
    assert (steps + [step])[..|steps|] == steps;
  }

  lemma UndisturbedSoFar(steps: seq<Step>, more: seq<Step>, id: BatchId, token: Token, until: int, lease: int, m: int)
    requires more != [] && Undisturbed(steps, more, id, token, until, lease, m)
    ensures var init := more[..|more| - 1];
            && Undisturbed(steps, init, id, token, until, lease, m)
            && !TakesLease(After(steps + init, m), more[|more| - 1], id, token, until, m) && !Shortens(more[|more| - 1], id, token, lease)
  {
    hide After, TakesLease, Shortens;
    var init := more[..|more| - 1];
    assert forall i | 0 <= i < |init| :: init[..i] == more[..i] && init[i] == more[i];
  }

  /** A claim of a ready action gives it a lease for `lease` seconds; and through whatever
      run follows, until that time is up the lease is live and its action running, unless a
      result under it came or its batch ended. */
  lemma LeaseLives(steps: seq<Step>, id: BatchId, key: Key, token: Token, lease: int, more: seq<Step>, m: int)
    requires m >= 1 && id in After(steps, m).batches && token !in After(steps, m).issued
    requires var b := After(steps, m).batches[id]; b.state.InProgress? && key in b.actions && b.actions[key].state.Ready?
    requires Undisturbed(steps + [On(id, Claim(key, token, lease))], more, id, token, After(steps, m).now + lease, lease, m)
    ensures var after := After(steps + [On(id, Claim(key, token, lease))] + more, m);
            && id in after.batches && Holds(after.batches[id], token, key, After(steps, m).now + lease)
            && key in after.batches[id].actions && after.batches[id].actions[key].state.Running?
            && (after.now < After(steps, m).now + lease ==> Live(after.batches[id], token, after.now))
  {
    hide *;
    var claim := On(id, Claim(key, token, lease));
    var claimed, until := steps + [claim], After(steps, m).now + lease;
    AfterOne(steps, claim, m);
    ClaimHolds(After(steps, m), id, key, token, lease, m);
    LeaseStays(claimed, more, id, token, key, until, lease, m);
    BatchInv(claimed + more, id, m);
    HeldIsLive(After(claimed + more, m).batches[id], token, key, until, After(claimed + more, m).now, m);
  }

  lemma HeldIsLive(b: Batch, token: Token, key: Key, until: int, now: int, m: int)
    requires Inv(b, m) && Holds(b, token, key, until)
    ensures key in b.actions && b.actions[key].state.Running? && (now < until ==> Live(b, token, now))
  {
    HeldInProgress(b, token, m);
  }

  lemma BatchInv(steps: seq<Step>, id: BatchId, m: int)
    requires m >= 1 && id in After(steps, m).batches
    ensures Inv(After(steps, m).batches[id], m)
  {
    hide After, Inv;
    RunKeeps(steps, m);
  }

  lemma ClaimHolds(db: Db, id: BatchId, key: Key, token: Token, lease: int, m: int)
    requires id in db.batches && token !in db.issued
    requires var b := db.batches[id]; b.state.InProgress? && key in b.actions && b.actions[key].state.Ready?
    ensures var after := Apply(db, On(id, Claim(key, token, lease)), m);
            id in after.batches && Holds(after.batches[id], token, key, db.now + lease) && after.now == db.now
  {}
}
