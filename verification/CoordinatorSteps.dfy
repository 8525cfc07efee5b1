/** Every transaction keeps the invariant of the batch it touches. */
module CoordinatorSteps {
  import opened Wrappers
  import opened Dag
  import opened CoordinatorTables
  import opened CoordinatorInvariant

  lemma SameOpen(b: Batch, c: Batch)
    requires CountedBut(b, {}) && b.actions.Keys == c.actions.Keys && b.edges == c.edges
    requires forall k <- b.actions :: b.actions[k].state.Done? <==> c.actions[k].state.Done?
    requires forall k <- c.actions ::
               c.actions[k].state.Waiting? || c.actions[k].state.Ready? ==>
                 c.actions[k].remaining == b.actions[k].remaining && (b.actions[k].state.Waiting? || b.actions[k].state.Ready?) &&
                 (c.actions[k].state.Ready? ==> b.actions[k].state.Ready? || c.actions[k].remaining == 0)
    ensures CountedBut(c, {})
  {
    forall k
      ensures OpenParents(c, k) == OpenParents(b, k)
    {}
  }

  lemma ClaimedKeeps(b: Batch, k: Key, token: Token, expiresAt: int, m: int)
    requires Inv(b, m) && token !in b.leases
    ensures Inv(Claimed(b, k, token, expiresAt), m)
  {
    var c := Claimed(b, k, token, expiresAt);
    if c != b {
      assert c.actions.Keys == b.actions.Keys;
      GraphKept(b, c);
      ClaimedSettles(b, k, token, expiresAt, m);
    }
  }

  lemma ClaimedSettles(b: Batch, k: Key, token: Token, expiresAt: int, m: int)
    requires Settled(b, m) && token !in b.leases && b.state.InProgress? && k in b.actions && b.actions[k].state.Ready?
    ensures Settled(Claimed(b, k, token, expiresAt), m)
  {
    hide Sum, CountedBut, LeasedBut;
    var c := Claimed(b, k, token, expiresAt);
    assert c.actions.Keys == b.actions.Keys;
    assert NoHeavier(b, c, m);
    KeepsBudget(b, c, m);
    ClaimedLeased(b, k, token, expiresAt);
    ProgressKept(b, c, k);
    SameOpen(b, c);
  }

  lemma ClaimedLeased(b: Batch, k: Key, token: Token, expiresAt: int)
    requires LeasedBut(b, {}) && token !in b.leases && b.state.InProgress? && k in b.actions && b.actions[k].state.Ready?
    ensures LeasedBut(Claimed(b, k, token, expiresAt), {})
  {
    var c := Claimed(b, k, token, expiresAt);
    forall j | j in c.actions && c.actions[j].state.Running?
      ensures HasLease(c, j)
    {
      if j == k {
        assert token in c.leases && c.leases[token].key == k;
      } else {
        var t :| t in b.leases && b.leases[t].key == j;
        assert t in c.leases && c.leases[t].key == j;
      }
    }
  }

  lemma LeasesAlike(b: Batch, c: Batch, m: int)
    requires Inv(b, m) && c == b.(leases := c.leases) && c.leases.Keys == b.leases.Keys
    requires forall t <- b.leases :: c.leases[t].key == b.leases[t].key
    ensures Inv(c, m)
  {
    GraphKept(b, c);
    SameCounts(b, c);
    assert Weights(c, m) == Weights(b, m);
    forall k | k in b.actions && HasLease(b, k)
      ensures HasLease(c, k)
    {
      var t :| t in b.leases && b.leases[t].key == k;
      assert t in c.leases && c.leases[t].key == k;
    }
    assert HasUnfinished(b) <==> HasUnfinished(c);
  }

  lemma ExtendedKeeps(b: Batch, token: Token, now: int, expiresAt: int, m: int)
    requires Inv(b, m)
    ensures Inv(Extended(b, token, now, expiresAt), m)
  {
    LeasesAlike(b, Extended(b, token, now, expiresAt), m);
  }

  /** A transaction deletes an action's lease and records its failure. */
  lemma TakesHold(b: Batch, token: Token, c: Batch, m: int)
    requires Settled(b, m) && token in b.leases
    requires c.actions.Keys == b.actions.Keys && c.edges == b.edges && c.state == b.state && c.class_ == b.class_
    requires c.leases == WithoutLease(b, token).leases
    requires forall k <- b.actions :: c.actions[k] == b.actions[k].(lastFailure := c.actions[k].lastFailure)
    ensures Held(c, b.leases[token].key, m) && SameGraph(b, c)
  {
    hide Sum, CountedBut;
    var k := b.leases[token].key;
    LeaseTaken(b, token, c);
    hide LeasedBut, HasLease;
    assert NoHeavier(b, c, m);
    KeepsBudget(b, c, m);
    SameOpen(b, c);
    assert Unfinished(b.actions[k].state);
    ProgressKept(b, c, k);
  }

  lemma LeaseTaken(b: Batch, token: Token, c: Batch)
    requires LeasedBut(b, {}) && token in b.leases && c.actions.Keys == b.actions.Keys && c.state == b.state
    requires c.leases == WithoutLease(b, token).leases
    requires forall k <- b.actions :: c.actions[k].state == b.actions[k].state
    ensures var k := b.leases[token].key; k in b.actions && b.actions[k].state.Running? && LeasedBut(c, {k})
  {
    var k := b.leases[token].key;
    forall j | j in c.actions && c.actions[j].state.Running? && j != k
      ensures HasLease(c, j)
    {
      var t :| t in b.leases && b.leases[t].key == j;
      assert t in c.leases && c.leases[t].key == j;
    }
  }

  lemma MissingInputKeeps(b: Batch, k: Key, missing: Option<Missing>, m: int)
    requires Held(b, k, m) && Graphed(b)
    ensures Inv(MissingInput(b, k, b.actions[k].attempts, missing, m), m)
  {
    if b.actions[k].attempts >= m {
      FailBatchKeeps(b, k, m);
      FailBatchGraph(b, k);
    } else if missing.Some? && missing.value.MissingTheory? && missing.value.key in b.actions
              && Acyclic(b.edges + {Edge(k, missing.value.key)}) {
      MissingTheoryKeeps(b, k, missing.value.key, m);
    } else {
      HeldRetry(b, k, m);
      GraphKept(b, Retry(b, k));
    }
  }

  lemma MissingTheoryKeeps(b: Batch, k: Key, p: Key, m: int)
    requires Held(b, k, m) && p in b.actions && b.actions[k].attempts < m
    requires Joins(b.edges, b.actions.Keys) && Acyclic(b.edges + {Edge(k, p)})
    ensures Inv(Requeue(SetState(WithEdge(b, Edge(k, p)), k, Waiting), p), m)
  {
    NoSelfEdge(b.edges, k, p);
    EdgeKeepsGraph(b, Edge(k, p));
    var w := WithEdge(b, Edge(k, p));
    var s := SetState(w, k, Waiting);
    MissingTheorySettles(b, w, k, p, m);
    GraphKept(w, s);
    GraphKept(s, Requeue(s, p));
  }

  lemma MissingTheorySettles(b: Batch, w: Batch, k: Key, p: Key, m: int)
    requires Held(b, k, m) && p in b.actions && k != p && b.actions[k].attempts < m
    requires w.actions.Keys == b.actions.Keys && w == b.(edges := b.edges + {Edge(k, p)}, actions := w.actions)
    requires forall j <- b.actions :: w.actions[j] == b.actions[j].(priority := w.actions[j].priority)
    ensures var s := SetState(w, k, Waiting);
            Settled(Requeue(s, p), m) && SameGraph(w, s) && SameGraph(s, Requeue(s, p))
  {
    HeldMissing(b, SetState(w, k, Waiting), k, p, m);
  }

  lemma NoSelfEdge(edges: set<Edge>, k: Key, p: Key)
    requires Acyclic(edges + {Edge(k, p)})
    ensures k != p
  {
    if k == p { ReachStep(edges + {Edge(k, p)}, k, k); }
  }

  lemma FailBatchGraph(b: Batch, k: Key)
    requires Graphed(b)
    ensures Graphed(FailBatch(b, k))
  {
    assert SetState(b, k, Failed).actions.Keys == b.actions.Keys;
    GraphKept(b, FailBatch(b, k));
  }

  lemma ChangedRetryFrame(b: Batch, k: Key, a: Action)
    requires k in b.actions && a.state.Running? && a.priority == b.actions[k].priority
    ensures var d := Retry(WithAction(b, k, a), k);
            SameGraph(b, d) && d == b.(actions := d.actions) &&
            (forall j <- b.actions :: j != k ==> d.actions[j] == b.actions[j]) &&
            d.actions[k] == a.(state := Waiting, remaining := d.actions[k].remaining)
  {
    RetryKeeps(WithAction(b, k, a), k);
  }

  lemma ChangedRetryCounts(b: Batch, k: Key, a: Action)
    requires k in b.actions && b.actions[k].state.Running? && a.state.Running? && CountedBut(b, {})
    ensures CountedBut(Retry(WithAction(b, k, a), k), {})
  {
    assert WithAction(b, k, a).actions.Keys == b.actions.Keys;
    SameOpen(b, WithAction(b, k, a));
    RetryCounts(WithAction(b, k, a), k);
  }

  /** Retrying a held action as `a`, which weighs no more waiting than it did running. */
  lemma HeldChangedRetry(b: Batch, k: Key, a: Action, m: int)
    requires Held(b, k, m)
    requires a.state.Running? && a.priority == b.actions[k].priority
    requires a.attempts >= 0 && Weight(a.(state := Waiting), m) <= Weight(b.actions[k], m)
    ensures Settled(Retry(WithAction(b, k, a), k), m) && SameGraph(b, Retry(WithAction(b, k, a), k))
  {
    var d := Retry(WithAction(b, k, a), k);
    ChangedRetryFrame(b, k, a);
    ChangedRetryCounts(b, k, a);
    assert NoHeavier(b, d, m);
    KeepsBudget(b, d, m);
    HeldWaits(b, d, k, m);
  }

  /** A first failure for memory moves to the high tier, which pays for one more
      attempt; one the worker could not start gives its attempt back. */
  lemma RetryWeights(a: Action, m: int)
    requires a.state.Running?
    ensures a.tier.Standard? ==> Weight(a.(tier := High, state := Waiting), m) <= Weight(a, m)
    ensures Weight(a.(attempts := a.attempts - 1, state := Waiting), m) <= Weight(a, m)
    ensures a.attempts < m ==> Weight(a.(state := Waiting), m) <= Weight(a, m)
  {}

  lemma HeldAction(b: Batch, k: Key, m: int)
    requires Held(b, k, m)
    ensures k in b.actions && b.actions[k].state.Running? && b.actions[k].attempts >= 1
  {}

  lemma AppliedSettles(b: Batch, k: Key, a: Action, r: Result, m: int)
    requires Held(b, k, m) && a.attempts == b.actions[k].attempts && a.tier == b.actions[k].tier
    requires !(r.failure.Some? && r.failure.value.InputMissing?)
    ensures Settled(Applied(b, k, a, r, m), m) && SameGraph(b, Applied(b, k, a, r, m))
  {
    hide Settled, SameGraph, Weight, Retry, FinishIfDone, Refresh, SetState, Fail, WithAction, LeasedBut, CountedBut, Budgeted, Progressing;
    HeldAction(b, k, m);
    RetryWeights(b.actions[k], m);
    if r.failure.None? {
      HeldDone(b, k, m);
    } else if r.failure.value.Memory? && a.tier.Standard? {
      HeldChangedRetry(b, k, b.actions[k].(tier := High), m);
    } else if r.failure.value.Unavailable? {
      HeldChangedRetry(b, k, b.actions[k].(attempts := b.actions[k].attempts - 1), m);
    } else if RetriesWithinAttempts(a, r.failure.value, m) {
      HeldRetry(b, k, m);
    } else {
      HeldFail(b, k, m);
    }
  }

  lemma AppliedKeeps(b: Batch, k: Key, a: Action, r: Result, m: int)
    requires Held(b, k, m) && Graphed(b) && a.attempts == b.actions[k].attempts && a.tier == b.actions[k].tier
    ensures Inv(Applied(b, k, a, r, m), m)
  {
    hide Held, Graphed, Settled, SameGraph, Applied, MissingInput;
    HeldAction(b, k, m);
    if r.failure.Some? && r.failure.value.InputMissing? {
      AppliedMissing(b, k, a, r, m);
      MissingInputKeeps(b, k, r.missing, m);
    } else {
      AppliedSettles(b, k, a, r, m);
      GraphKept(b, Applied(b, k, a, r, m));
    }
  }

  lemma AppliedMissing(b: Batch, k: Key, a: Action, r: Result, m: int)
    requires k in b.actions && r.failure == Some(InputMissing)
    ensures Applied(b, k, a, r, m) == MissingInput(b, k, a.attempts, r.missing, m)
  {
    hide MissingInput, Retry, Fail, Refresh;
  }

  lemma CompletedKeeps(b: Batch, token: Token, r: Result, now: int, m: int)
    requires Inv(b, m)
    ensures Inv(Completed(b, token, r, now, m), m)
  {
    hide Settled, Graphed, Held, Applied;
    if Live(b, token, now) && Matches(b, b.leases[token].key, r) {
      var k := b.leases[token].key;
      var c := Recorded(WithoutLease(b, token), k, r.failure);
      assert c.actions.Keys == b.actions.Keys;
      TakesHold(b, token, c, m);
      GraphKept(b, c);
      AppliedKeeps(c, k, b.actions[k], r, m);
    }
  }

  lemma ExpiredKeeps(b: Batch, token: Token, now: int, m: int)
    requires Inv(b, m)
    ensures Inv(Expired(b, token, now, m), m)
  {
    if token in b.leases && b.leases[token].expiresAt <= now {
      ExpiredSettles(b, token, now, m);
      GraphKept(b, Expired(b, token, now, m));
    }
  }

  lemma LeaseRuns(b: Batch, token: Token, m: int)
    requires Settled(b, m) && token in b.leases
    ensures b.leases[token].key in b.actions && b.actions[b.leases[token].key].state.Running?
  {}

  lemma ExpiredSettles(b: Batch, token: Token, now: int, m: int)
    requires Settled(b, m) && token in b.leases && b.leases[token].expiresAt <= now
    ensures Settled(Expired(b, token, now, m), m)
    ensures SameGraph(b, Expired(b, token, now, m))
  {
    LeaseRuns(b, token, m);
    RetryWeights(b.actions[b.leases[token].key], m);
    hide Settled, SameGraph, Weight, Retry, Fail, LeasedBut, CountedBut, Budgeted, Progressing;
    var k, freed := b.leases[token].key, WithoutLease(b, token);
    if b.actions[k].attempts >= m {
      var c := if b.class_.Run? then Recorded(freed, k, Some(Internal)) else freed;
      assert c.actions.Keys == b.actions.Keys;
      TakesHold(b, token, c, m);
      HeldFail(c, k, m);
    } else {
      TakesHold(b, token, freed, m);
      HeldRetry(freed, k, m);
    }
  }

  lemma ReleasedKeeps(b: Batch, keys: set<Key>, m: int)
    requires Inv(b, m)
    ensures Inv(Released(b, keys), m)
  {
    if b.state.InProgress? {
      ReleasedSettles(b, Released(b, keys), keys, m);
      GraphKept(b, Released(b, keys));
    }
  }

  lemma StaysSettled(b: Batch, c: Batch, k: Key, m: int)
    requires Settled(b, m) && b.state.InProgress? && CountedBut(c, {}) && Budgeted(c, m)
    requires c.actions.Keys == b.actions.Keys && c.leases == b.leases && c.state == b.state && c.class_ == b.class_
    requires k in c.actions && Unfinished(c.actions[k].state)
    requires forall j <- b.actions :: c.actions[j].state.Running? <==> b.actions[j].state.Running?
    requires forall j <- b.actions :: c.actions[j].state.Cancelled? || c.actions[j].state.Failed? ==> c.actions[j].state == b.actions[j].state
    ensures Settled(c, m)
  {
    LeasedAlike(b, c);
    ProgressKept(b, c, k);
  }

  lemma ReleasedBudget(b: Batch, keys: set<Key>, m: int)
    requires Budgeted(b, m)
    ensures Budgeted(Released(b, keys), m)
  {
    assert NoHeavier(b, Released(b, keys), m);
    KeepsBudget(b, Released(b, keys), m);
  }

  lemma ReleasedCounts(b: Batch, keys: set<Key>)
    requires CountedBut(b, {})
    ensures CountedBut(Released(b, keys), {})
  {
    assert Released(b, keys).actions.Keys == b.actions.Keys;
    SameOpen(b, Released(b, keys));
  }

  lemma ReleasedFrame(b: Batch, keys: set<Key>)
    ensures var c := Released(b, keys);
            SameGraph(b, c) && c == b.(actions := c.actions) &&
            forall k <- b.actions ::
              c.actions[k].state == b.actions[k].state || (b.actions[k].state.Waiting? && c.actions[k].state.Ready?)
  {}

  lemma ReleasedSettles(b: Batch, c: Batch, keys: set<Key>, m: int)
    requires Settled(b, m) && b.state.InProgress? && c == Released(b, keys)
    ensures Settled(c, m) && SameGraph(b, c)
  {
    ReleasedFrame(b, keys);
    ReleasedBudget(b, keys, m);
    ReleasedCounts(b, keys);
    var k := UnfinishedOne(b, m);
    StaysSettled(b, c, k, m);
  }

  lemma UnfinishedOne(b: Batch, m: int) returns (k: Key)
    requires Settled(b, m) && b.state.InProgress?
    ensures k in b.actions && Unfinished(b.actions[k].state)
  {
    k :| k in b.actions && Unfinished(b.actions[k].state);
  }

  lemma EvictedKeeps(b: Batch, p: Key, m: int)
    requires Inv(b, m)
    ensures Inv(Evicted(b, p, m), m)
  {
    if b.state.InProgress? && p in b.actions && b.actions[p].state.Done? {
      if b.actions[p].attempts >= m {
        FailBatchKeeps(b, p, m);
        FailBatchGraph(b, p);
      } else {
        RequeueSettles(b, p, m);
        GraphKept(b, Requeue(b, p));
      }
    }
  }

  lemma RequeueBudget(b: Batch, p: Key, m: int)
    requires Budgeted(b, m) && p in b.actions && b.actions[p].attempts < m
    ensures Budgeted(Requeue(b, p), m)
  {
    RequeueKeeps(b, p);
    assert NoHeavier(b, Requeue(b, p), m);
    KeepsBudget(b, Requeue(b, p), m);
  }

  lemma RequeueCountsAll(b: Batch, p: Key)
    requires CountedBut(b, {}) && p in b.actions
    ensures CountedBut(Requeue(b, p), {})
  {
    CountedWeaken(b, {}, ChildrenOf(b, p) + {p});
    RequeueCounts(b, p);
  }

  lemma RequeueSettles(b: Batch, p: Key, m: int)
    requires Settled(b, m) && b.state.InProgress? && p in b.actions && b.actions[p].state.Done? && b.actions[p].attempts < m
    ensures Settled(Requeue(b, p), m) && SameGraph(b, Requeue(b, p))
  {
    RequeueBudget(b, p, m);
    RequeueCountsAll(b, p);
    RequeueKeeps(b, p);
    StaysSettled(b, Requeue(b, p), p, m);
  }

  lemma StoppedKeeps(b: Batch, s: BatchState, m: int)
    requires Inv(b, m) && !s.InProgress?
    ensures Inv(Stopped(b, s), m)
  {
    hide Graphed, LeasedBut, Progressing, CountedBut, Budgeted;
    if b.state.InProgress? {
      EndKeeps(b, s, m);
      GraphKept(b, EndBatch(b, s));
    }
  }

  lemma {:induction false} SumNotPositive(w: map<Key, int>)
    requires forall k <- w :: w[k] <= 0
    ensures Sum(w) <= 0
    decreases |w|
  {
    if w != map[] {
      var k :| k in w;
      SumTakes(w, k);
      assert (w - {k}).Keys == w.Keys - {k};
      SumNotPositive(w - {k});
    }
  }

  lemma SubmittedInv(class_: Class, actions: seq<NewAction>, edges: set<Edge>, m: int)
    requires Submittable(actions, edges) && m >= 1
    ensures Inv(Submitted(class_, actions, edges), m)
  {
    var b := Submitted(class_, actions, edges);
    var keys := set n | n in actions :: n.key;
    assert b.actions.Keys == keys;
    forall k | k in b.actions
      ensures PriorityOf(b.edges, b.actions.Keys, k, b.actions[k].priority)
    {
      assert b.actions[k].priority == PriorityIn(keys, edges, k);
    }
    forall k | k in b.actions
      ensures OpenParents(b, k) == set e | e in edges && e.child == k :: e.parent
    {}
    SumNotPositive(Weights(b, m));
    assert Progressing(b) by {
      if actions != [] { assert actions[0].key in b.actions; }
    }
  }
}
