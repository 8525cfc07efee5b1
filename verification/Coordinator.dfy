/** The coordinator itself: the transactions as its methods carry them out,
    statement by statement, and `release`, which runs until nothing is left to do. */
module Coordinator {
  import opened Wrappers
  import opened Collections
  import opened Dag
  import opened CoordinatorTables
  import opened CoordinatorInvariant
  import opened CoordinatorSteps
  import opened CoordinatorTheorems
  import opened CoordinatorOutcomes
  import opened CoordinatorRows

  datatype Outcome = Accepted | StaleToken | ResultMismatch

  /** What the cache says of an entry: `True`, `False` and `None` of `_in_cache`. */
  datatype CacheAnswer = Present | Absent | Unknown

  class Coordinator {
    var batches: map<BatchId, Batch>
    const maxAttempts: int
    const leaseSeconds: int

    ghost predicate Valid()
      reads this
    {
      maxAttempts >= 1 && forall id <- batches :: Inv(batches[id], maxAttempts)
    }

    constructor (maxAttempts: int, leaseSeconds: int)
      requires maxAttempts >= 1
      ensures Valid() && batches == map[]
      ensures this.maxAttempts == maxAttempts && this.leaseSeconds == leaseSeconds
    {
      this.maxAttempts := maxAttempts;
      this.leaseSeconds := leaseSeconds;
      batches := map[];
    }

    // ---- statements and shared rules on one batch ---------------------------------------------

    method SetActionState(id: BatchId, k: Key, s: ActionState)
      requires id in batches
      modifies this`batches
      ensures batches == old(batches)[id := SetState(old(batches)[id], k, s)]
    {
      var b := batches[id];
      if k in b.actions {
        b := b.(actions := b.actions[k := b.actions[k].(state := s)]);
      }
      batches := batches[id := b];
    }

    method RefreshKeys(id: BatchId, keys: set<Key>)
      requires id in batches
      modifies this`batches
      ensures batches == old(batches)[id := Refresh(old(batches)[id], keys)]
    {
      batches := batches[id := Refresh(batches[id], keys)];
    }

    method RetryAction(id: BatchId, k: Key)
      requires id in batches
      modifies this`batches
      ensures batches == old(batches)[id := Retry(old(batches)[id], k)]
    {
      SetActionState(id, k, Waiting);
      RefreshKeys(id, {k});
    }

    method RequeueAction(id: BatchId, k: Key)
      requires id in batches
      modifies this`batches
      ensures batches == old(batches)[id := Requeue(old(batches)[id], k)]
    {
      if k in batches[id].actions && batches[id].actions[k].state.Done? {
        SetActionState(id, k, Waiting);
      }
      RefreshKeys(id, {k});
      RefreshKeys(id, ChildrenOf(batches[id], k));
    }

    method End(id: BatchId, s: BatchState)
      requires id in batches
      modifies this`batches
      ensures batches == old(batches)[id := EndBatch(old(batches)[id], s)]
    {
      var b := batches[id].(state := s);
      b := b.(actions := map k | k in b.actions :: Ended(b.actions[k]));
      b := b.(leases := map[]);
      batches := batches[id := b];
    }

    method FailWholeBatch(id: BatchId, k: Key)
      requires id in batches
      modifies this`batches
      ensures batches == old(batches)[id := FailBatch(old(batches)[id], k)]
    {
      SetActionState(id, k, Failed);
      End(id, BatchFailed);
    }

    method FinishWhenDone(id: BatchId)
      requires id in batches
      modifies this`batches
      ensures batches == old(batches)[id := FinishIfDone(old(batches)[id])]
    {
      batches := batches[id := FinishIfDone(batches[id])];
    }

    method FailAction(id: BatchId, k: Key)
      requires id in batches
      modifies this`batches
      ensures batches == old(batches)[id := Fail(old(batches)[id], k)]
    {
      if batches[id].class_.Build? {
        FailWholeBatch(id, k);
      } else {
        SetActionState(id, k, Failed);
        FinishWhenDone(id);
      }
    }

    /** `_add_edge`: refused exactly when it would close a cycle; else the rows
        whose priority it changes are updated. */
    method AddEdge(id: BatchId, child: Key, parent: Key) returns (added: bool)
      requires id in batches && ForeignKeys(batches[id])
      requires child in batches[id].actions && parent in batches[id].actions
      modifies this`batches
      ensures added <==> Acyclic(old(batches)[id].edges + {Edge(child, parent)})
      ensures batches == if added then old(batches)[id := WithEdge(old(batches)[id], Edge(child, parent))] else old(batches)
    {
      hide PriorityOf, Acyclic;
      var b := batches[id];
      var more := b.edges + {Edge(child, parent)};
      var computed := DagPriorities(b.actions.Keys, more);
      if computed.CycleError? {
        return false;
      }
      var changed := set k | k in b.actions && computed.of[k] != b.actions[k].priority;
      var rows := map k | k in b.actions ::
        if k in changed then b.actions[k].(priority := computed.of[k]) else b.actions[k];
      forall k | k in b.actions
        ensures rows[k] == b.actions[k].(priority := PriorityIn(b.actions.Keys, more, k))
      {
        PriorityUnique(more, b.actions.Keys, k, computed.of[k], PriorityIn(b.actions.Keys, more, k));
      }
      b := b.(edges := more, actions := rows);
      assert b == WithEdge(batches[id], Edge(child, parent));
      batches := batches[id := b];
      added := true;
    }

    method HandleInputMissing(id: BatchId, k: Key, attempts: int, missing: Option<Missing>)
      requires id in batches && ForeignKeys(batches[id]) && k in batches[id].actions
      modifies this`batches
      ensures batches == old(batches)[id := MissingInput(old(batches)[id], k, attempts, missing, maxAttempts)]
    {
      hide PriorityOf, Acyclic, Retry, FailBatch, Requeue;
      var rebuilt := missing.Some? && missing.value.MissingTheory? && missing.value.key in batches[id].actions;
      if attempts >= maxAttempts {
        FailWholeBatch(id, k);
      } else {
        var added := false;
        if rebuilt {
          added := AddEdge(id, k, missing.value.key);
        }
        if added {
          SetActionState(id, k, Waiting);
          RequeueAction(id, missing.value.key);
        } else {
          RetryAction(id, k);
        }
      }
    }

    // ---- transactions ----------------------------------------------------------------------------

    /** `_claim`'s writes for the ready action it picked. */
    method Take(id: BatchId, k: Key, token: Token, now: int)
      requires Valid() && id in batches && token !in batches[id].leases
      requires batches[id].state.InProgress? && k in batches[id].actions && batches[id].actions[k].state.Ready?
      modifies this`batches
      ensures Valid() && batches == old(batches)[id := Claimed(old(batches)[id], k, token, now + leaseSeconds)]
      ensures ParentsDone(batches[id], k)
      ensures token in batches[id].leases && batches[id].leases[token].key == k && batches[id].leases[token].expiresAt == now + leaseSeconds
      ensures batches[id].actions[k] == old(batches)[id].actions[k].(state := Running, attempts := old(batches)[id].actions[k].attempts + 1)
    {
      hide Inv;
      var b := batches[id];
      ReadyHasParentsDone(b, k, maxAttempts);
      ClaimedKeeps(b, k, token, now + leaseSeconds, maxAttempts);
      var a := b.actions[k];
      b := b.(actions := b.actions[k := a.(state := Running, attempts := a.attempts + 1)]);
      b := b.(leases := b.leases[token := Lease(k, now + leaseSeconds)]);
      batches := batches[id := b];
    }

    /** `heartbeat`: true exactly when the lease is live, which it then extends. */
    method Heartbeat(id: BatchId, token: Token, now: int) returns (extended: bool)
      requires Valid() && id in batches
      modifies this`batches
      ensures Valid() && batches == old(batches)[id := Extended(old(batches)[id], token, now, now + leaseSeconds)]
      ensures extended <==> token in old(batches)[id].leases && old(batches)[id].leases[token].expiresAt > now
      ensures batches[id] == if extended then old(batches)[id].(leases := old(batches)[id].leases[token := Lease(old(batches)[id].leases[token].key, now + leaseSeconds)])
                             else old(batches)[id]
    {
      hide Inv;
      ExtendedKeeps(batches[id], token, now, now + leaseSeconds, maxAttempts);
      var b := batches[id];
      extended := token in b.leases && b.leases[token].expiresAt > now;
      if extended {
        b := b.(leases := b.leases[token := b.leases[token].(expiresAt := now + leaseSeconds)]);
      }
      batches := batches[id := b];
    }

    /** `complete`. A mismatch leaves the database as it was: its transaction is
        rolled back. */
    method Complete(id: BatchId, token: Token, r: Result, now: int) returns (outcome: Outcome)
      requires Valid() && id in batches
      modifies this`batches
      ensures Valid() && batches == old(batches)[id := Completed(old(batches)[id], token, r, now, maxAttempts)]
      ensures outcome.StaleToken? <==> !(token in old(batches)[id].leases && old(batches)[id].leases[token].expiresAt > now)
      ensures outcome.Accepted? <==> Ends(old(batches)[id], token, r, now)
      ensures !outcome.Accepted? ==> batches == old(batches)
    {
      hide Inv, Applied;
      var b := batches[id];
      CompletedKeeps(b, token, r, now, maxAttempts);
      InvForeignKeys(b, maxAttempts);
      if token !in b.leases || b.leases[token].expiresAt <= now {
        return StaleToken;
      }
      var k := b.leases[token].key;
      var a := b.actions[k];
      if r.spec != a.spec || (r.inputKey.Some? && r.inputKey.value != k) {
        return ResultMismatch;
      }
      b := b.(leases := map t | t in b.leases && t != token :: b.leases[t]);
      b := b.(actions := b.actions[k := b.actions[k].(lastFailure := r.failure)]);
      assert b.actions.Keys == batches[id].actions.Keys;
      batches := batches[id := b];
      Dispose(id, k, a, r);
      outcome := Accepted;
    }

    /** `complete` from the recorded result on. */
    method Dispose(id: BatchId, k: Key, a: Action, r: Result)
      requires id in batches && k in batches[id].actions && ForeignKeys(batches[id])
      modifies this`batches
      ensures batches == old(batches)[id := Applied(old(batches)[id], k, a, r, maxAttempts)]
    {
      hide Retry, Fail, FinishIfDone, Refresh, SetState, MissingInput;
      if r.failure.None? {
        SetActionState(id, k, Done);
        KeepsChildren(old(batches)[id], k, Done);
        RefreshKeys(id, ChildrenOf(batches[id], k));
        FinishWhenDone(id);
      } else if r.failure.value.Memory? && a.tier.Standard? {
        var b := batches[id];
        batches := batches[id := b.(actions := b.actions[k := b.actions[k].(tier := High)])];
        RetryAction(id, k);
      } else if r.failure.value.Unavailable? {
        var b := batches[id];
        batches := batches[id := b.(actions := b.actions[k := b.actions[k].(attempts := b.actions[k].attempts - 1)])];
        RetryAction(id, k);
      } else if RetriesWithinAttempts(a, r.failure.value, maxAttempts) {
        RetryAction(id, k);
      } else if r.failure.value.InputMissing? {
        HandleInputMissing(id, k, a.attempts, r.missing);
      } else {
        FailAction(id, k);
      }
    }

    /** `expire_leases` for one lease: nothing happens to one that was extended. */
    method Expire(id: BatchId, token: Token, now: int)
      requires Valid() && id in batches
      modifies this`batches
      ensures Valid() && batches == old(batches)[id := Expired(old(batches)[id], token, now, maxAttempts)]
    {
      hide Inv, Retry, Fail;
      ExpiredKeeps(batches[id], token, now, maxAttempts);
      var b := batches[id];
      if token !in b.leases || b.leases[token].expiresAt > now {
        return;
      }
      var k := b.leases[token].key;
      b := b.(leases := map t | t in b.leases && t != token :: b.leases[t]);
      batches := batches[id := b];
      if k in b.actions && b.actions[k].state.Running? {
        if b.actions[k].attempts >= maxAttempts {
          if b.class_.Run? {
            batches := batches[id := b.(actions := b.actions[k := b.actions[k].(lastFailure := Some(Internal))])];
          }
          FailAction(id, k);
        } else {
          RetryAction(id, k);
        }
      }
    }

    /** `cancel`, and `fail_overdue` for a batch past its deadline. */
    method Stop(id: BatchId, s: BatchState)
      requires Valid() && id in batches && !s.InProgress?
      modifies this`batches
      ensures Valid() && batches == old(batches)[id := Stopped(old(batches)[id], s)]
    {
      hide Inv, EndBatch;
      StoppedKeeps(batches[id], s, maxAttempts);
      if batches[id].state.InProgress? {
        End(id, s);
      }
    }

    /** `submit`, up to the release it ends with. */
    method Submit(id: BatchId, class_: Class, actions: seq<NewAction>, edges: set<Edge>)
      requires Valid() && id !in batches && Submittable(actions, edges)
      modifies this`batches
      ensures Valid() && batches == old(batches)[id := Submitted(class_, actions, edges)]
    {
      hide Inv, PriorityOf, Acyclic;
      SubmittedInv(class_, actions, edges, maxAttempts);
      var keys := set n | n in actions :: n.key;
      var computed := DagPriorities(keys, edges);
      forall k | k in keys
        ensures computed.of[k] == PriorityIn(keys, edges, k)
      {
        PriorityUnique(edges, keys, k, computed.of[k], PriorityIn(keys, edges, k));
      }
      var rows := map k | k in keys ::
        var n := NewOf(actions, k);
        Action(Waiting, |set e | e in edges && e.child == k :: e.parent|, 0, if n.high then High else Standard,
               None, computed.of[k], n.spec, n.acKey);
      assert rows == Submitted(class_, actions, edges).actions;
      batches := batches[id := Batch(if actions == [] then Finished else InProgress, class_, rows, edges, map[])];
    }

    /** `_requeue_evicted`: true exactly when it re-queued the parent. */
    method RequeueEvicted(id: BatchId, parent: Key) returns (requeued: bool)
      requires Valid() && id in batches
      modifies this`batches
      ensures Valid() && batches == old(batches)[id := Evicted(old(batches)[id], parent, maxAttempts)]
      ensures requeued == Requeues(old(batches)[id], parent, maxAttempts)
    {
      hide Inv, Requeue, FailBatch;
      EvictedKeeps(batches[id], parent, maxAttempts);
      var b := batches[id];
      if !b.state.InProgress? || parent !in b.actions || !b.actions[parent].state.Done? {
        return false;
      }
      if b.actions[parent].attempts >= maxAttempts {
        FailWholeBatch(id, parent);
        return false;
      }
      RequeueAction(id, parent);
      requeued := true;
    }

    // ---- release -------------------------------------------------------------------------------------

    /** `_requeue_evicted` for each done parent the cache has not got, with a child that waits for it. */
    method EvictMissing(id: BatchId, missing: set<Edge>) returns (requeued: bool)
      requires Valid() && id in batches && batches[id].state.InProgress?
      requires forall e <- missing :: e.parent in batches[id].actions && batches[id].actions[e.parent].state.Done?
      modifies this`batches
      ensures Valid() && id in batches && batches == old(batches)[id := batches[id]]
      ensures DoneOf(batches[id]) <= DoneOf(old(batches)[id])
      ensures requeued ==> DoneOf(batches[id]) != DoneOf(old(batches)[id])
      ensures !requeued && batches[id].state.InProgress? ==> missing == {} && batches == old(batches)
      ensures OnlyEvicts(old(batches)[id], batches[id], missing)
    {
      hide Inv, Evicted;
      ghost var b := batches[id];
      var todo := missing;
      requeued := false;
      while todo != {}
        invariant Valid() && id in batches && todo <= missing
        invariant batches == old(batches)[id := batches[id]]
        invariant DoneOf(batches[id]) <= DoneOf(b)
        invariant requeued ==> DoneOf(batches[id]) != DoneOf(b)
        invariant !requeued && batches[id].state.InProgress? ==> todo == missing && batches[id] == b
        invariant OnlyEvicts(b, batches[id], missing)
        decreases todo
      {
        var e :| e in todo;
        EvictedDone(batches[id], e.parent, maxAttempts);
        EvictsMore(b, batches[id], e, missing, maxAttempts);
        var again := RequeueEvicted(id, e.parent);
        requeued := requeued || again;
        todo := todo - {e};
      }
    }

    /** `_release_batch`, of the candidates of one batch, with the answers the
        cache gives in this pass. */
    method ReleaseBatch(id: BatchId, pass: nat, cache: (nat, BatchId, string) -> CacheAnswer) returns (requeued: bool)
      requires Valid() && id in batches && batches[id].state.InProgress?
      modifies this`batches
      ensures Valid() && id in batches && batches == old(batches)[id := batches[id]]
      ensures DoneOf(batches[id]) <= DoneOf(old(batches)[id])
      ensures requeued ==> DoneOf(batches[id]) != DoneOf(old(batches)[id])
      ensures !requeued ==> !batches[id].state.InProgress? || AwaitsAnswers(batches[id], id, pass, cache)
      ensures Justified(old(batches)[id], batches[id], id, pass, pass, cache)
    {
      hide Inv, Evicted;
      ghost var before := batches;
      var b := batches[id];
      var candidates := Releasable(b);
      var ready := set k | k in candidates && forall p <- ParentsOf(b, k) :: AnswerFor(b, p, id, pass, cache).Present?;
      ReleasedKeeps(b, ready, maxAttempts);
      CandidatesParents(b, maxAttempts);
      batches := batches[id := Released(b, ready)];
      ReleasedDone(b, ready);
      var missing := set e | e in b.edges && e.child in candidates && AnswerFor(b, e.parent, id, pass, cache).Absent?;
      requeued := EvictMissing(id, missing);
      ReleaseJustified(b, ready, batches[id], missing, id, pass, cache, maxAttempts);
      if !requeued && batches[id].state.InProgress? {
        forall e | e in b.edges && e.child in Releasable(b)
          ensures !AnswerFor(b, e.parent, id, pass, cache).Absent?
        {
          assert e !in missing;
        }
        NothingMissing(b, id, ready, pass, cache, maxAttempts);
      }
    }

    /** One pass over the batches asked for. Their tasks touch separate batches, so
        taking them one after the other is what running them together does. */
    method ReleasePass(only: Option<BatchId>, pass: nat, cache: (nat, BatchId, string) -> CacheAnswer) returns (requeued: bool)
      requires Valid()
      modifies this`batches
      ensures Valid() && batches.Keys == old(batches.Keys)
      ensures forall id <- batches :: only.Some? && id != only.value ==> batches[id] == old(batches)[id]
      ensures AllDone(batches) <= AllDone(old(batches))
      ensures requeued ==> AllDone(batches) != AllDone(old(batches))
      ensures !requeued ==> Settles(batches, only, pass, cache)
      ensures forall id <- batches :: Justified(old(batches)[id], batches[id], id, pass, pass, cache)
    {
      hide Inv, AwaitsAnswers, DoneOf, AllDone, Justified;
      forall id <- batches { NothingJustified(batches[id], id, pass, cache); }
      var asked := set id | id in batches && (only.None? || id == only.value) && batches[id].state.InProgress?;
      var todo := asked;
      requeued := false;
      while todo != {}
        invariant Valid() && batches.Keys == old(batches.Keys) && todo <= asked
        invariant forall id <- batches :: id !in asked || id in todo ==> batches[id] == old(batches)[id]
        invariant forall id <- batches :: Justified(old(batches)[id], batches[id], id, pass, pass, cache)
        invariant AllDone(batches) <= AllDone(old(batches))
        invariant requeued ==> AllDone(batches) != AllDone(old(batches))
        invariant !requeued ==> forall id <- asked :: id !in todo && batches[id].state.InProgress? ==>
                                  AwaitsAnswers(batches[id], id, pass, cache)
        decreases todo
      {
        var id :| id in todo;
        ghost var was := batches;
        var again := ReleaseBatch(id, pass, cache);
        AllDoneShrinks(was, batches, id);
        requeued := requeued || again;
        todo := todo - {id};
      }
    }

    /** `release`: passes over the batches asked for until one re-queues nothing.
        Run with no other step between, each pass that repeats leaves strictly
        fewer actions done, so it ends; and then whatever still waits with all its
        parents done waits for an answer the cache did not give. */
    method Release(only: Option<BatchId>, cache: (nat, BatchId, string) -> CacheAnswer) returns (passes: nat)
      requires Valid()
      modifies this`batches
      ensures Valid() && batches.Keys == old(batches.Keys)
      ensures forall id <- batches :: only.Some? && id != only.value ==> batches[id] == old(batches)[id]
      ensures Settles(batches, only, passes, cache)
      ensures AllDone(batches) <= AllDone(old(batches)) && passes <= |AllDone(old(batches))|
      ensures forall id <- batches :: Justified(old(batches)[id], batches[id], id, 0, passes, cache)
    {
      hide Inv, Settles, AllDone, Justified;
      passes := 0;
      forall id <- batches { NothingJustified(batches[id], id, 0, cache); }
      while true
        invariant Valid() && batches.Keys == old(batches.Keys)
        invariant forall id <- batches :: only.Some? && id != only.value ==> batches[id] == old(batches)[id]
        invariant AllDone(batches) <= AllDone(old(batches))
        invariant passes + |AllDone(batches)| <= |AllDone(old(batches))|
        invariant forall id <- batches :: Justified(old(batches)[id], batches[id], id, 0, passes, cache)
        decreases AllDone(batches)
      {
        ghost var before, was := AllDone(batches), batches;
        var requeued := ReleasePass(only, passes, cache);
        forall id <- batches
          ensures Justified(old(batches)[id], batches[id], id, 0, passes, cache) && Justified(old(batches)[id], batches[id], id, 0, passes + 1, cache)
        {
          assert Justified(was[id], batches[id], id, passes, passes, cache);
          JustifiedOn(old(batches)[id], was[id], batches[id], id, passes, cache);
        }
        if !requeued {
          SubsetSize(AllDone(batches), before);
          return;
        }
        ProperSubset(AllDone(batches), before);
        passes := passes + 1;
      }
    }
  }

  // ---- what release is about ----------------------------------------------------------------------------

  /** `RELEASABLE`: the waiting actions whose parents are all done. */
  function Releasable(b: Batch): set<Key> {
    set k | k in b.actions && b.actions[k].state.Waiting? && b.actions[k].remaining == 0
  }

  function ParentsOf(b: Batch, k: Key): set<Key> {
    set e | e in b.edges && e.child == k :: e.parent
  }

  function AnswerFor(b: Batch, p: Key, id: BatchId, pass: nat, cache: (nat, BatchId, string) -> CacheAnswer): CacheAnswer {
    if p in b.actions then cache(pass, id, b.actions[p].acKey) else Unknown
  }

  /** Every waiting action whose parents are done has one the cache could not
      answer for. */
  ghost predicate AwaitsAnswers(b: Batch, id: BatchId, pass: nat, cache: (nat, BatchId, string) -> CacheAnswer) {
    forall k <- b.actions :: b.actions[k].state.Waiting? && ParentsDone(b, k) ==>
      exists p :: Edge(k, p) in b.edges && p in b.actions && cache(pass, id, b.actions[p].acKey).Unknown?
  }

  ghost predicate Settles(batches: map<BatchId, Batch>, only: Option<BatchId>, pass: nat,
                          cache: (nat, BatchId, string) -> CacheAnswer) {
    forall id <- batches :: (only.None? || id == only.value) && batches[id].state.InProgress? ==>
      AwaitsAnswers(batches[id], id, pass, cache)
  }

  ghost function DoneOf(b: Batch): set<Key> {
    set k | k in b.actions && b.actions[k].state.Done?
  }

  ghost function AllDone(batches: map<BatchId, Batch>): set<(BatchId, Key)> {
    set id, k | id in batches && k in DoneOf(batches[id]) :: (id, k)
  }

  lemma AllDoneShrinks(was: map<BatchId, Batch>, now: map<BatchId, Batch>, id: BatchId)
    requires id in was && id in now && now == was[id := now[id]] && DoneOf(now[id]) <= DoneOf(was[id])
    ensures AllDone(now) <= AllDone(was)
    ensures DoneOf(now[id]) != DoneOf(was[id]) ==> AllDone(now) != AllDone(was)
  {
    hide DoneOf;
    if DoneOf(now[id]) != DoneOf(was[id]) {
      var k :| k in DoneOf(was[id]) && k !in DoneOf(now[id]);
      assert (id, k) in AllDone(was) && (id, k) !in AllDone(now);
    }
  }

  /** Only what an edge of `missing` leads to is done no longer, and nothing becomes ready. */
  ghost predicate OnlyEvicts(was: Batch, now: Batch, missing: set<Edge>) {
    && now.edges == was.edges && now.actions.Keys == was.actions.Keys
    && forall k <- was.actions ::
         && now.actions[k] == was.actions[k].(state := now.actions[k].state, remaining := now.actions[k].remaining)
         && (now.actions[k].state.Ready? ==> was.actions[k].state.Ready?)
         && (was.actions[k].state.Done? && !now.actions[k].state.Done? ==> exists e <- missing :: e.parent == k)
  }

  lemma EvictsMore(was: Batch, b: Batch, e: Edge, missing: set<Edge>, m: int)
    requires Inv(b, m) && OnlyEvicts(was, b, missing) && e in missing
    ensures OnlyEvicts(was, Evicted(b, e.parent, m), missing)
  {
    hide Inv, Evicted, Awaited;
    EvictionLeaves(b, e.parent, m);
  }

  /** Of the batch as it was, what became ready has every parent's entry in the cache, and
      what is done no longer has its own gone from it, as the cache answered in those passes. */
  ghost predicate Justified(was: Batch, now: Batch, id: BatchId, first: nat, last: nat, cache: (nat, BatchId, string) -> CacheAnswer) {
    && now.edges == was.edges && now.actions.Keys == was.actions.Keys
    && forall k <- was.actions ::
         && now.actions[k] == was.actions[k].(state := now.actions[k].state, remaining := now.actions[k].remaining)
         && (now.actions[k].state.Ready? && !was.actions[k].state.Ready? ==>
               exists q :: first <= q <= last && AllPresent(was, k, id, q, cache))
         && (was.actions[k].state.Done? && !now.actions[k].state.Done? ==>
               exists q :: first <= q <= last && cache(q, id, was.actions[k].acKey).Absent?)
  }

  ghost predicate AllPresent(b: Batch, k: Key, id: BatchId, pass: nat, cache: (nat, BatchId, string) -> CacheAnswer) {
    forall p | Edge(k, p) in b.edges :: p in b.actions && cache(pass, id, b.actions[p].acKey).Present?
  }

  lemma NothingJustified(b: Batch, id: BatchId, pass: nat, cache: (nat, BatchId, string) -> CacheAnswer)
    ensures Justified(b, b, id, pass, pass, cache)
  {}

  lemma JustifiedOn(was: Batch, mid: Batch, now: Batch, id: BatchId, pass: nat, cache: (nat, BatchId, string) -> CacheAnswer)
    requires Justified(was, mid, id, 0, pass, cache) && Justified(mid, now, id, pass, pass, cache)
    ensures Justified(was, now, id, 0, pass, cache) && Justified(was, now, id, 0, pass + 1, cache)
  {
    assert forall k, q | AllPresent(mid, k, id, q, cache) :: AllPresent(was, k, id, q, cache);
  }

  lemma ReleaseJustified(b: Batch, ready: set<Key>, now: Batch, missing: set<Edge>, id: BatchId, pass: nat,
                         cache: (nat, BatchId, string) -> CacheAnswer, m: int)
    requires Inv(b, m) && b.state.InProgress?
    requires ready == set k | k in Releasable(b) && forall p <- ParentsOf(b, k) :: AnswerFor(b, p, id, pass, cache).Present?
    requires missing == set e | e in b.edges && e.child in Releasable(b) && AnswerFor(b, e.parent, id, pass, cache).Absent?
    requires OnlyEvicts(Released(b, ready), now, missing)
    ensures Justified(b, now, id, pass, pass, cache)
  {
    hide Inv, Released, Awaited, OnlyEvicts;
    ReleaseLeaves(b, ready, m);
    forall k | k in ready { ReadyPresent(b, ready, k, id, pass, cache); }
    forall e | e in missing
      ensures e.parent in b.actions ==> cache(pass, id, b.actions[e.parent].acKey).Absent?
    {}
    hide ParentsOf, AnswerFor, Releasable, AllPresent;
    EvictedJustified(b, Released(b, ready), ready, now, missing, id, pass, cache);
  }

  lemma ReadyPresent(b: Batch, ready: set<Key>, k: Key, id: BatchId, pass: nat, cache: (nat, BatchId, string) -> CacheAnswer)
    requires k in ready && ready == set k | k in Releasable(b) && forall p <- ParentsOf(b, k) :: AnswerFor(b, p, id, pass, cache).Present?
    ensures AllPresent(b, k, id, pass, cache)
  {
    forall p | Edge(k, p) in b.edges
      ensures p in b.actions && cache(pass, id, b.actions[p].acKey).Present?
    {
      assert Edge(k, p).parent in ParentsOf(b, k);
    }
  }

  lemma EvictedJustified(b: Batch, released: Batch, ready: set<Key>, now: Batch, missing: set<Edge>, id: BatchId, pass: nat,
                         cache: (nat, BatchId, string) -> CacheAnswer)
    requires released == b.(actions := released.actions) && released.actions.Keys == b.actions.Keys
    requires forall j <- b.actions ::
               released.actions[j] == b.actions[j] || (j in ready && released.actions[j] == b.actions[j].(state := Ready) && b.actions[j].state.Waiting?)
    requires (forall k <- ready :: AllPresent(b, k, id, pass, cache)) && OnlyEvicts(released, now, missing)
    requires forall e <- missing :: e.parent in b.actions ==> cache(pass, id, b.actions[e.parent].acKey).Absent?
    ensures Justified(b, now, id, pass, pass, cache)
  {
    hide AllPresent;
  }

  lemma ReleasedDone(b: Batch, keys: set<Key>)
    ensures DoneOf(Released(b, keys)) == DoneOf(b)
    ensures Released(b, keys).state == b.state
  {}

  lemma EvictedDone(b: Batch, p: Key, m: int)
    ensures DoneOf(Evicted(b, p, m)) <= DoneOf(b)
    ensures Requeues(b, p, m) ==> DoneOf(Evicted(b, p, m)) != DoneOf(b)
    ensures b.state.InProgress? && p in b.actions && b.actions[p].state.Done? && !Requeues(b, p, m) ==>
              !Evicted(b, p, m).state.InProgress?
    ensures !b.state.InProgress? ==> Evicted(b, p, m) == b
  {
    if p in b.actions && b.actions[p].state.Done? {
      RequeueKeeps(b, p);
      hide Requeue;
      if Requeues(b, p, m) { assert p in DoneOf(b) && p !in DoneOf(Requeue(b, p)); }
    }
  }

  /** The parents of what can be released are the batch's, and done. */
  lemma CandidatesParents(b: Batch, m: int)
    requires Inv(b, m)
    ensures forall e <- b.edges :: e.child in Releasable(b) ==> e.parent in b.actions && b.actions[e.parent].state.Done?
    ensures forall k <- b.actions :: b.actions[k].state.Waiting? && ParentsDone(b, k) ==> k in Releasable(b)
  {
    forall e | e in b.edges && e.child in Releasable(b)
      ensures e.parent in b.actions && b.actions[e.parent].state.Done?
    {
      ReadyHasParentsDone(b, e.child, m);
      assert Edge(e.child, e.parent) == e;
    }
    forall k | k in b.actions && b.actions[k].state.Waiting? && ParentsDone(b, k)
      ensures k in Releasable(b)
    {
      assert OpenParents(b, k) == {} by {
        assert forall e <- b.edges :: e.child == k ==> e == Edge(k, e.parent);
      }
    }
  }

  lemma StillUnanswered(b: Batch, id: BatchId, ready: set<Key>, k: Key, pass: nat, cache: (nat, BatchId, string) -> CacheAnswer)
    requires b.state.InProgress? && k in b.actions && k !in ready
    requires forall p <- ParentsOf(b, k) :: p in b.actions && !AnswerFor(b, p, id, pass, cache).Absent?
    requires !forall p <- ParentsOf(b, k) :: AnswerFor(b, p, id, pass, cache).Present?
    ensures var c := Released(b, ready);
            exists p :: Edge(k, p) in c.edges && p in c.actions && cache(pass, id, c.actions[p].acKey).Unknown?
  {
    var c := Released(b, ready);
    var p :| p in ParentsOf(b, k) && !AnswerFor(b, p, id, pass, cache).Present?;
    assert Edge(k, p) in c.edges && p in c.actions && c.actions[p].acKey == b.actions[p].acKey;
  }

  /** A pass that found no parent gone leaves waiting only what awaits an answer. */
  lemma NothingMissing(b: Batch, id: BatchId, ready: set<Key>, pass: nat, cache: (nat, BatchId, string) -> CacheAnswer, m: int)
    requires Inv(b, m) && b.state.InProgress?
    requires ready == set k | k in Releasable(b) && forall p <- ParentsOf(b, k) :: AnswerFor(b, p, id, pass, cache).Present?
    requires forall e <- b.edges :: e.child in Releasable(b) ==> !AnswerFor(b, e.parent, id, pass, cache).Absent?
    ensures AwaitsAnswers(Released(b, ready), id, pass, cache)
  {
    hide Inv;
    CandidatesParents(b, m);
    var c := Released(b, ready);
    forall k | k in c.actions && c.actions[k].state.Waiting? && ParentsDone(c, k)
      ensures exists p :: Edge(k, p) in c.edges && p in c.actions && cache(pass, id, c.actions[p].acKey).Unknown?
    {
      assert ParentsDone(b, k);
      assert k in Releasable(b) && k !in ready;
      hide Releasable, Released, AnswerFor;
      StillUnanswered(b, id, ready, k, pass, cache);
    }
  }

  /** Edges and leases are of the batch's own actions. */
  ghost predicate ForeignKeys(b: Batch) {
    Joins(b.edges, b.actions.Keys) && forall t <- b.leases :: b.leases[t].key in b.actions
  }

  lemma InvForeignKeys(b: Batch, m: int)
    requires Inv(b, m)
    ensures ForeignKeys(b)
  {}

  lemma KeepsChildren(b: Batch, k: Key, s: ActionState)
    ensures ChildrenOf(SetState(b, k, s), k) == ChildrenOf(b, k)
  {}

  predicate Requeues(b: Batch, parent: Key, maxAttempts: int) {
    b.state.InProgress? && parent in b.actions && b.actions[parent].state.Done? && b.actions[parent].attempts < maxAttempts
  }
}
