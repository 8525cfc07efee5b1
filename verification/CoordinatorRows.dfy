/** What each of the other transactions leaves in the tables, row by row. */
module CoordinatorRows {
  import opened Wrappers
  import opened Dag
  import opened CoordinatorTables
  import opened CoordinatorInvariant
  import opened CoordinatorSteps
  import opened CoordinatorTheorems
  import opened CoordinatorOutcomes

  /** A result under a lease that is gone or past its time, or for another action, changes nothing. */
  lemma RefusedLeaves(b: Batch, token: Token, r: Result, now: int, m: int)
    requires Inv(b, m)
    requires token in b.leases && b.leases[token].expiresAt > now ==>
               var k := b.leases[token].key; r.spec != b.actions[k].spec || (r.inputKey.Some? && r.inputKey.value != k)
    ensures Completed(b, token, r, now, m) == b
  {
    if token in b.leases { LeasedRuns(b, token, m); }
    hide Applied, Inv;
  }

  /** An expired lease sends its action back, or fails it once its attempts are used up;
      one that was extended is left alone. */
  lemma ExpiryLeaves(b: Batch, token: Token, now: int, m: int)
    requires Inv(b, m)
    ensures var after := Expired(b, token, now, m);
            if token in b.leases && b.leases[token].expiresAt <= now then
              var k := b.leases[token].key;
              if b.actions[k].attempts < m then OnlyTo(b, after, token, k, SentBack(b, k))
              else FailsFor(b, after, token, k, if b.class_.Run? then Some(Internal) else b.actions[k].lastFailure)
            else after == b
  {
    if token in b.leases && b.leases[token].expiresAt <= now {
      LeasedRuns(b, token, m);
      ExpiredIs(b, token, now, m);
      hide Inv, Retry, Fail, Awaited, FailsFor, Expired, OnlyTo;
      if b.actions[b.leases[token].key].attempts < m {
        FreedGoesBack(b, token, b.leases[token].key);
      } else {
        FreedFails(b, token, b.leases[token].key);
      }
    }
  }

  /** The batch whose lease expired, with what is recorded of a run that fails so. */
  function Freed(b: Batch, token: Token, k: Key): Batch
    requires k in b.actions
  {
    if b.class_.Run? then Recorded(WithoutLease(b, token), k, Some(Internal)) else WithoutLease(b, token)
  }

  lemma ExpiredIs(b: Batch, token: Token, now: int, m: int)
    requires token in b.leases && b.leases[token].expiresAt <= now && b.leases[token].key in b.actions
    requires b.actions[b.leases[token].key].state.Running?
    ensures var k := b.leases[token].key;
            Expired(b, token, now, m) == if b.actions[k].attempts < m then Retry(WithoutLease(b, token), k) else Fail(Freed(b, token, k), k)
  {
    hide Retry, Fail;
  }

  lemma FreedGoesBack(b: Batch, token: Token, k: Key)
    requires k in b.actions && b.actions[k].state.Running?
    ensures OnlyTo(b, Retry(WithoutLease(b, token), k), token, k, SentBack(b, k))
  {
    AwaitedFrame(b, WithoutLease(b, token), k);
    hide Awaited, Retry;
    RetryLeaves(WithoutLease(b, token), k);
  }

  lemma FreedFails(b: Batch, token: Token, k: Key)
    requires k in b.actions
    ensures FailsFor(b, Fail(Freed(b, token, k), k), token, k, if b.class_.Run? then Some(Internal) else b.actions[k].lastFailure)
  {
    var freed := Freed(b, token, k);
    assert freed.leases == b.leases - {token} && token !in freed.leases;
    hide Fail, FailsFor;
    FailLeaves(freed, token, k);
    FailsFrame(b, freed, Fail(freed, k), token, k, freed.actions[k].lastFailure);
  }

  /** Release makes ready exactly those named that wait with every parent done. */
  lemma ReleaseLeaves(b: Batch, keys: set<Key>, m: int)
    requires Inv(b, m) && b.state.InProgress?
    ensures var after := Released(b, keys);
            && after == b.(actions := after.actions) && after.actions.Keys == b.actions.Keys
            && forall j <- b.actions ::
                 after.actions[j] ==
                 if j in keys && b.actions[j].state.Waiting? && Awaited(b, j) == {} then b.actions[j].(state := Ready) else b.actions[j]
  {
    forall j <- b.actions
      ensures b.actions[j].state.Waiting? ==> (b.actions[j].remaining == 0 <==> Awaited(b, j) == {})
    {
      OpenIsAwaited(b, j);
      hide OpenParents, Awaited;
    }
    hide Inv, Awaited;
  }

  /** A done parent whose entry is gone is built again, with its ready children waiting; out
      of attempts it fails the batch; one not done, or of an ended batch, is left alone. */
  lemma EvictionLeaves(b: Batch, p: Key, m: int)
    requires Inv(b, m)
    ensures var after := Evicted(b, p, m);
            if b.state.InProgress? && p in b.actions && b.actions[p].state.Done? then
              if b.actions[p].attempts >= m then FailsWithBatch(b, after, p, b.actions[p].lastFailure)
              else
                && after == b.(actions := after.actions) && after.actions.Keys == b.actions.Keys
                && forall j <- b.actions :: after.actions[j] == b.actions[j].(state := StateWithout(b, p, j), remaining := after.actions[j].remaining)
            else after == b
  {
    if b.state.InProgress? && p in b.actions && b.actions[p].state.Done? {
      ReadyAwaitNone(b, m);
      assert Evicted(b, p, m) == if b.actions[p].attempts >= m then FailBatch(b, p) else Requeue(b, p);
      hide Inv, Requeue, FailBatch, StateWithout, Awaited, FailsWithBatch, Evicted;
      if b.actions[p].attempts >= m {
        FailBatchLeaves(b, p);
      } else {
        RequeueLeaves(b, p);
      }
    }
  }

  /** A batch stopped has the given state, no leases, and cancelled what was not finished. */
  lemma StopLeaves(b: Batch, s: BatchState)
    requires b.state.InProgress?
    ensures var after := Stopped(b, s);
            && after.state == s && after.class_ == b.class_ && after.edges == b.edges && after.leases == map[]
            && after.actions.Keys == b.actions.Keys
            && forall j <- b.actions ::
                 after.actions[j] == if b.actions[j].state in {Waiting, Ready, Running} then b.actions[j].(state := Cancelled) else b.actions[j]
  {}

  lemma {:induction false} NewOfDistinct(actions: seq<NewAction>, i: nat)
    requires i < |actions| && forall i, j | 0 <= i < j < |actions| :: actions[i].key != actions[j].key
    ensures NewOf(actions, actions[i].key) == actions[i]
  {
    if i > 0 { NewOfDistinct(actions[1..], i - 1); }
  }

  /** The rows of a submission: each action as it was given, waiting, not tried yet, in its
      tier, with the number of its parents; and nothing else. */
  lemma SubmissionLeaves(class_: Class, actions: seq<NewAction>, edges: set<Edge>, i: nat)
    requires Submittable(actions, edges) && i < |actions|
    ensures var b, new_ := Submitted(class_, actions, edges), actions[i];
            && b.state.InProgress? && b.class_ == class_ && b.edges == edges && b.leases == map[]
            && (forall k :: k in b.actions <==> exists j :: 0 <= j < |actions| && actions[j].key == k)
            && var a := b.actions[new_.key];
               && a.state.Waiting? && a.attempts == 0 && a.lastFailure.None?
               && a.spec == new_.spec && a.acKey == new_.acKey && (a.tier.High? <==> new_.high)
               && a.remaining == |set p | p in b.actions && Edge(new_.key, p) in edges|
  {
    var b, new_ := Submitted(class_, actions, edges), actions[i];
    NewOfDistinct(actions, i);
    hide PriorityOf, Acyclic;
    assert (set e | e in edges && e.child == new_.key :: e.parent) == set p | p in b.actions && Edge(new_.key, p) in edges by {
      assert forall e <- edges | e.child == new_.key :: e == Edge(new_.key, e.parent);
      forall p | p in b.actions && Edge(new_.key, p) in edges
        ensures exists e :: e in edges && e.child == new_.key && e.parent == p
      {
        assert Edge(new_.key, p).child == new_.key;
      }
    }
  }

  /** A submission of nothing is finished at once. */
  lemma EmptySubmission(class_: Class)
    requires Submittable([], {})
    ensures Submitted(class_, [], {}) == Batch(Finished, class_, map[], {}, map[])
  {}
}
