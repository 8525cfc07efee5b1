/** What every transaction keeps of a batch: its graph and priorities, one lease
    per running action, the count of open parents, the state that follows from the
    actions' states, and the budget of attempts. */
module CoordinatorInvariant {
  import opened Wrappers
  import opened Dag
  import opened CoordinatorTables

  ghost predicate Ranked(b: Batch) {
    forall k <- b.actions :: PriorityOf(b.edges, b.actions.Keys, k, b.actions[k].priority)
  }

  /** The edges join the batch's actions without a cycle, and every action's
      stored priority is its place in them. */
  ghost predicate Graphed(b: Batch) {
    Joins(b.edges, b.actions.Keys) && Acyclic(b.edges) && Ranked(b)
  }

  ghost predicate HasLease(b: Batch, k: Key) {
    exists t :: t in b.leases && b.leases[t].key == k
  }

  /** Every lease is of a running action, no two are of one, and every running
      action but `except` has one. */
  ghost predicate LeasedBut(b: Batch, except: set<Key>) {
    && (forall t <- b.leases :: b.leases[t].key in b.actions && b.actions[b.leases[t].key].state.Running?)
    && (forall t, u :: t in b.leases && u in b.leases && b.leases[t].key == b.leases[u].key ==> t == u)
    && (forall k <- b.actions :: b.actions[k].state.Running? && k !in except ==> HasLease(b, k))
    && (forall k <- except :: !HasLease(b, k))
  }

  ghost predicate HasUnfinished(b: Batch) {
    exists k :: k in b.actions && Unfinished(b.actions[k].state)
  }

  ghost predicate Progressing(b: Batch) {
    && (b.state.InProgress? <==> HasUnfinished(b))
    && (b.state.InProgress? ==> forall k <- b.actions :: !b.actions[k].state.Cancelled?)
    && (b.state.InProgress? && b.class_.Build? ==> forall k <- b.actions :: !b.actions[k].state.Failed?)
  }

  /** Every waiting or ready action but `except` counts its open parents right,
      and a ready one has none. */
  ghost predicate CountedBut(b: Batch, except: set<Key>) {
    forall k <- b.actions :: k !in except && (b.actions[k].state.Waiting? || b.actions[k].state.Ready?) ==>
      b.actions[k].remaining == |OpenParents(b, k)| && (b.actions[k].state.Ready? ==> b.actions[k].remaining == 0)
  }

  // ---- the budget of attempts -----------------------------------------------------------

  function Positive(n: int): int { if n > 0 then n else 0 }
  function Least(m: int, n: int): int { if m < n then m else n }

  /** How far the action's attempts, with the one it waits for, pass `m`. */
  function Excess(a: Action, m: int): int {
    Positive(a.attempts + (if a.state.Waiting? || a.state.Ready? then 1 else 0) - m)
  }

  /** What can have taken attempts past `m`: its one move to the high tier, and
      each of its attempts that could have re-queued a missing parent. */
  function Credit(a: Action, m: int): int {
    (if a.tier.High? then 1 else 0) + Least(a.attempts - (if a.state.Running? then 1 else 0), m - 1)
  }

  function Weight(a: Action, m: int): int {
    Excess(a, m) - Credit(a, m)
  }

  ghost function Sum(w: map<Key, int>): int
    decreases |w|
  {
    if w == map[] then 0
    else
      var k :| k in w;
      assert |w - {k}| < |w| by { assert (w - {k}).Keys == w.Keys - {k}; }
      w[k] + Sum(w - {k})
  }

  lemma {:induction false} SumTakes(w: map<Key, int>, k: Key)
    requires k in w
    ensures Sum(w) == w[k] + Sum(w - {k})
    decreases |w|
  {
    var j :| j in w && Sum(w) == w[j] + Sum(w - {j});
    if j != k {
      assert (w - {j}).Keys == w.Keys - {j};
      SumTakes(w - {j}, k);
      assert (w - {k}).Keys == w.Keys - {k};
      SumTakes(w - {k}, j);
      assert w - {j} - {k} == w - {k} - {j};
    }
  }

  lemma {:induction false} SumMonotone(v: map<Key, int>, w: map<Key, int>)
    requires v.Keys == w.Keys && forall k <- v :: v[k] <= w[k]
    ensures Sum(v) <= Sum(w)
    decreases |v|
  {
    if v.Keys == {} {
      assert v == map[] && w == map[];
    } else {
      var k :| k in v;
      SumTakes(v, k);
      SumTakes(w, k);
      assert (v - {k}).Keys == v.Keys - {k};
      assert (w - {k}).Keys == w.Keys - {k};
      SumMonotone(v - {k}, w - {k});
    }
  }

  /** One entry may rise by as much as another falls. */
  lemma SumTrade(v: map<Key, int>, w: map<Key, int>, up: Key, down: Key)
    requires v.Keys == w.Keys && up in v && down in v && up != down
    requires forall k <- v :: k != up && k != down ==> v[k] <= w[k]
    requires v[up] <= w[up] + 1 && v[down] <= w[down] - 1
    ensures Sum(v) <= Sum(w)
  {
    SumTakes(v, up);
    SumTakes(w, up);
    SumTakes(v - {up}, down);
    SumTakes(w - {up}, down);
    var v', w' := v - {up} - {down}, w - {up} - {down};
    assert v'.Keys == v.Keys - {up} - {down};
    assert w'.Keys == w.Keys - {up} - {down};
    SumMonotone(v', w');
  }

  function Weights(b: Batch, m: int): map<Key, int> {
    map k | k in b.actions :: Weight(b.actions[k], m)
  }

  ghost predicate Sane(b: Batch) {
    forall k <- b.actions :: b.actions[k].attempts >= if b.actions[k].state.Running? then 1 else 0
  }

  ghost predicate Budgeted(b: Batch, m: int) {
    Sane(b) && Sum(Weights(b, m)) <= 0
  }

  // ---- the invariant ---------------------------------------------------------------------

  ghost predicate Settled(b: Batch, m: int) {
    LeasedBut(b, {}) && Progressing(b) && CountedBut(b, {}) && Budgeted(b, m)
  }

  ghost predicate Inv(b: Batch, m: int) {
    Graphed(b) && Settled(b, m)
  }

  /** What holds while a transaction has deleted the lease of the running action
      `k` and not yet decided what becomes of it. */
  ghost predicate Held(b: Batch, k: Key, m: int) {
    && k in b.actions && b.actions[k].state.Running?
    && LeasedBut(b, {k}) && Progressing(b) && CountedBut(b, {}) && Budgeted(b, m)
  }

  /** Same actions in the same places of the same graph. */
  ghost predicate SameGraph(b: Batch, c: Batch) {
    && b.edges == c.edges && b.actions.Keys == c.actions.Keys
    && forall k <- b.actions :: c.actions[k].priority == b.actions[k].priority
  }

  lemma GraphKept(b: Batch, c: Batch)
    requires Graphed(b) && SameGraph(b, c)
    ensures Graphed(c)
  {}

  lemma EdgeKeepsGraph(b: Batch, e: Edge)
    requires Joins(b.edges + {e}, b.actions.Keys) && Acyclic(b.edges + {e})
    ensures Graphed(WithEdge(b, e))
  {
    var c := WithEdge(b, e);
    assert c.actions.Keys == b.actions.Keys;
    forall k | k in c.actions
      ensures PriorityOf(c.edges, c.actions.Keys, k, c.actions[k].priority)
    {
      assert c.actions[k].priority == PriorityIn(b.actions.Keys, c.edges, k);
    }
  }

  // ---- what does not change a count or a priority ------------------------------------------

  /** Same graph, and the same actions done. */
  ghost predicate SameDone(b: Batch, c: Batch) {
    && b.actions.Keys == c.actions.Keys && b.edges == c.edges
    && forall k <- b.actions :: b.actions[k].state.Done? <==> c.actions[k].state.Done?
  }

  lemma SameOpenParents(b: Batch, c: Batch, k: Key)
    requires SameDone(b, c)
    ensures OpenParents(b, k) == OpenParents(c, k)
  {}

  lemma RefreshKeeps(b: Batch, keys: set<Key>)
    ensures var c := Refresh(b, keys);
            SameDone(b, c) && c.class_ == b.class_ && c.state == b.state && c.leases == b.leases &&
            forall k <- b.actions ::
              var a, a' := b.actions[k], c.actions[k];
              a' == a.(remaining := a'.remaining, state := a'.state) &&
              (a'.state == a.state || (a.state.Ready? && a'.state.Waiting?))
  {}

  lemma RefreshCounts(b: Batch, keys: set<Key>, except: set<Key>)
    requires CountedBut(b, except)
    ensures CountedBut(Refresh(b, keys), except - keys)
  {
    var c := Refresh(b, keys);
    forall k | k in c.actions && k !in except - keys && (c.actions[k].state.Waiting? || c.actions[k].state.Ready?)
      ensures c.actions[k].remaining == |OpenParents(c, k)| && (c.actions[k].state.Ready? ==> c.actions[k].remaining == 0)
    {
      RefreshKeeps(b, keys);
      SameOpenParents(b, c, k);
    }
  }

  /** Changing one action's state unsettles at most its own count and, if that
      makes it done or undone, those of its children. */
  lemma SetStateCounts(b: Batch, k: Key, s: ActionState, except: set<Key>)
    requires k in b.actions && CountedBut(b, except)
    requires s.Done? == b.actions[k].state.Done? || ChildrenOf(b, k) <= except
    ensures CountedBut(SetState(b, k, s), except + {k})
  {
    var c := SetState(b, k, s);
    forall j | j in c.actions && j !in except + {k} && (c.actions[j].state.Waiting? || c.actions[j].state.Ready?)
      ensures c.actions[j].remaining == |OpenParents(c, j)| && (c.actions[j].state.Ready? ==> c.actions[j].remaining == 0)
    {
      assert OpenParents(c, j) == OpenParents(b, j) by {
        assert Edge(j, k) in b.edges ==> j in ChildrenOf(b, k);
      }
    }
  }

  lemma CountedWeaken(b: Batch, except: set<Key>, more: set<Key>)
    requires CountedBut(b, except) && except <= more
    ensures CountedBut(b, more)
  {}

  /** A batch none of whose actions waits or is ready has nothing to count. */
  lemma EndCounts(b: Batch, s: BatchState)
    ensures CountedBut(EndBatch(b, s), {})
  {}

  // ---- weights -------------------------------------------------------------------------------

  ghost predicate NoHeavier(b: Batch, c: Batch, m: int) {
    b.actions.Keys == c.actions.Keys && forall k <- b.actions :: Weight(c.actions[k], m) <= Weight(b.actions[k], m)
  }

  lemma KeepsBudget(b: Batch, c: Batch, m: int)
    requires Budgeted(b, m) && NoHeavier(b, c, m) && Sane(c)
    ensures Budgeted(c, m)
  {
    SumMonotone(Weights(c, m), Weights(b, m));
  }

  lemma EndWeights(b: Batch, s: BatchState, m: int)
    requires Sane(b)
    ensures NoHeavier(b, EndBatch(b, s), m) && Sane(EndBatch(b, s))
  {}

  // ---- the shared rules keep the invariant ------------------------------------------------------

  lemma ProgressKept(b: Batch, c: Batch, k: Key)
    requires Progressing(b) && b.state.InProgress? && c.state == b.state && c.class_ == b.class_
    requires b.actions.Keys == c.actions.Keys && k in c.actions && Unfinished(c.actions[k].state)
    requires forall j <- c.actions :: c.actions[j].state.Cancelled? ==> b.actions[j].state.Cancelled?
    requires forall j <- c.actions :: c.actions[j].state.Failed? ==> b.actions[j].state.Failed?
    ensures Progressing(c)
  {
    assert HasUnfinished(c);
  }

  lemma HeldInProgress(b: Batch, k: Key, m: int)
    requires Held(b, k, m)
    ensures b.state.InProgress?
  {
    assert Unfinished(b.actions[k].state);
  }

  /** Ending a batch, whatever its actions' states. */
  lemma EndKeeps(b: Batch, s: BatchState, m: int)
    requires Budgeted(b, m) && !s.InProgress?
    ensures Settled(EndBatch(b, s), m)
  {
    EndCounts(b, s);
    EndWeights(b, s, m);
    KeepsBudget(b, EndBatch(b, s), m);
    assert Progressing(EndBatch(b, s));
  }

  lemma FailBatchKeeps(b: Batch, k: Key, m: int)
    requires Budgeted(b, m) && k in b.actions
    requires b.actions[k].state.Running? || b.actions[k].state.Done?
    ensures Settled(FailBatch(b, k), m)
  {
    var c := SetState(b, k, Failed);
    assert c.actions.Keys == b.actions.Keys;
    KeepsBudget(b, c, m);
    EndKeeps(c, BatchFailed, m);
  }

  /** Once no action of a batch in progress is unfinished it is finished. */
  lemma FinishKeeps(b: Batch, m: int)
    requires LeasedBut(b, {}) && CountedBut(b, {}) && Budgeted(b, m)
    requires b.state.InProgress? && forall k <- b.actions :: !b.actions[k].state.Cancelled?
    requires b.class_.Build? ==> forall k <- b.actions :: !b.actions[k].state.Failed?
    ensures Settled(FinishIfDone(b), m)
  {
    var c := FinishIfDone(b);
    assert Weights(c, m) == Weights(b, m);
    SameCounts(b, c);
    LeasedAlike(b, c);
    assert Progressing(c) by {
      if !(forall k <- b.actions :: b.actions[k].state.Done? || b.actions[k].state.Failed?) {
        var k :| k in b.actions && !(b.actions[k].state.Done? || b.actions[k].state.Failed?);
        assert Unfinished(c.actions[k].state);
      }
    }
  }

  lemma SameCounts(b: Batch, c: Batch)
    requires CountedBut(b, {}) && b.actions == c.actions && b.edges == c.edges
    ensures CountedBut(c, {})
  {
    forall k | k in c.actions
      ensures OpenParents(c, k) == OpenParents(b, k)
    {}
  }

  lemma LeasedSame(b: Batch, c: Batch, k: Key)
    requires LeasedBut(b, {k}) && c.leases == b.leases && c.actions.Keys == b.actions.Keys
    requires k in b.actions && !c.actions[k].state.Running?
    requires forall j <- b.actions :: j != k ==> (c.actions[j].state.Running? <==> b.actions[j].state.Running?)
    ensures LeasedBut(c, {})
  {
    forall t | t in c.leases
      ensures c.leases[t].key in c.actions && c.actions[c.leases[t].key].state.Running?
    {
      assert c.leases[t].key != k by {
        if c.leases[t].key == k { assert HasLease(b, k); }
      }
    }
    forall j | j in c.actions && c.actions[j].state.Running?
      ensures HasLease(c, j)
    {
      assert HasLease(b, j);
    }
  }

  /** A held action that waits again, the other actions none the further. */
  lemma HeldWaits(b: Batch, c: Batch, k: Key, m: int)
    requires Held(b, k, m) && CountedBut(c, {}) && Budgeted(c, m)
    requires c.actions.Keys == b.actions.Keys && c.leases == b.leases && c.state == b.state && c.class_ == b.class_
    requires c.actions[k].state.Waiting?
    requires forall j <- b.actions :: j != k ==> (c.actions[j].state.Running? <==> b.actions[j].state.Running?)
    requires forall j <- b.actions :: c.actions[j].state.Cancelled? || c.actions[j].state.Failed? ==> c.actions[j].state == b.actions[j].state
    ensures Settled(c, m)
  {
    LeasedSame(b, c, k);
    HeldInProgress(b, k, m);
    ProgressKept(b, c, k);
  }

  lemma RetryKeeps(b: Batch, k: Key)
    requires k in b.actions && !b.actions[k].state.Done?
    ensures var c := Retry(b, k);
            SameGraph(b, c) && c.class_ == b.class_ && c.state == b.state && c.leases == b.leases &&
            (forall j <- b.actions :: j != k ==> c.actions[j] == b.actions[j]) &&
            c.actions[k] == b.actions[k].(state := Waiting, remaining := c.actions[k].remaining)
  {}

  lemma RetryCounts(b: Batch, k: Key)
    requires k in b.actions && !b.actions[k].state.Done? && CountedBut(b, {})
    ensures CountedBut(Retry(b, k), {})
  {
    SetStateCounts(b, k, Waiting, {});
    RefreshCounts(SetState(b, k, Waiting), {k}, {} + {k});
    assert ({} + {k}) - {k} == {};
  }

  /** A held action sent back to waiting. */
  lemma HeldRetry(b: Batch, k: Key, m: int)
    requires Held(b, k, m)
    requires Weight(b.actions[k].(state := Waiting), m) <= Weight(b.actions[k], m)
    ensures Settled(Retry(b, k), m) && SameGraph(b, Retry(b, k))
  {
    hide Retry, CountedBut, Sum;
    var c := Retry(b, k);
    RetryKeeps(b, k);
    RetryCounts(b, k);
    assert NoHeavier(b, c, m);
    KeepsBudget(b, c, m);
    HeldWaits(b, c, k, m);
  }

  lemma DoneCounts(b: Batch, k: Key)
    requires k in b.actions && CountedBut(b, {})
    ensures CountedBut(Refresh(SetState(b, k, Done), ChildrenOf(b, k)), {})
  {
    var children := ChildrenOf(b, k);
    var d := SetState(b, k, Done);
    CountedWeaken(b, {}, children);
    SetStateCounts(b, k, Done, children);
    RefreshCounts(d, children, children + {k});
    var c := Refresh(d, children);
    RefreshKeeps(d, children);
    forall j | j in c.actions && (c.actions[j].state.Waiting? || c.actions[j].state.Ready?)
      ensures j !in children + {k} - children
    {}
  }

  lemma DoneKeeps(b: Batch, k: Key)
    requires k in b.actions && b.actions[k].state.Running?
    ensures var c := Refresh(SetState(b, k, Done), ChildrenOf(b, k));
            SameGraph(b, c) && c.class_ == b.class_ && c.state == b.state && c.leases == b.leases &&
            c.actions[k] == b.actions[k].(state := Done) &&
            forall j <- b.actions :: j != k ==>
              var a, a' := b.actions[j], c.actions[j];
              a' == a.(remaining := a'.remaining, state := a'.state) &&
              (a'.state == a.state || (a.state.Ready? && a'.state.Waiting?))
  {
    RefreshKeeps(SetState(b, k, Done), ChildrenOf(b, k));
  }

  /** A held action done. */
  lemma HeldDone(b: Batch, k: Key, m: int)
    requires Held(b, k, m)
    ensures var c := FinishIfDone(Refresh(SetState(b, k, Done), ChildrenOf(b, k))); Settled(c, m) && SameGraph(b, c)
  {
    hide Refresh, SetState, ChildrenOf, CountedBut, Sum;
    var c := Refresh(SetState(b, k, Done), ChildrenOf(b, k));
    HeldInProgress(b, k, m);
    DoneCounts(b, k);
    DoneKeeps(b, k);
    assert NoHeavier(b, c, m);
    KeepsBudget(b, c, m);
    LeasedSame(b, c, k);
    FinishKeeps(c, m);
  }

  lemma FailedRun(b: Batch, k: Key, m: int)
    requires Held(b, k, m)
    ensures var c := SetState(b, k, Failed); LeasedBut(c, {}) && CountedBut(c, {}) && Budgeted(c, m) && SameGraph(b, c)
  {
    var c := SetState(b, k, Failed);
    assert c.actions.Keys == b.actions.Keys;
    SetStateCounts(b, k, Failed, {});
    KeepsBudget(b, c, m);
    LeasedSame(b, c, k);
  }

  /** A held action failed for good. */
  lemma HeldFail(b: Batch, k: Key, m: int)
    requires Held(b, k, m)
    ensures Settled(Fail(b, k), m) && SameGraph(b, Fail(b, k))
  {
    hide LeasedBut, CountedBut, Budgeted, Settled, HasUnfinished;
    HeldInProgress(b, k, m);
    if b.class_.Build? {
      FailBatchKeeps(b, k, m);
    } else {
      FailedRun(b, k, m);
      FinishKeeps(SetState(b, k, Failed), m);
    }
  }

  /** A parent re-queued, once nothing but its own and its children's counts is
      unsettled. */
  lemma RequeueCounts(b: Batch, p: Key)
    requires p in b.actions && CountedBut(b, ChildrenOf(b, p) + {p})
    ensures CountedBut(Requeue(b, p), {})
  {
    var w := if b.actions[p].state.Done? then SetState(b, p, Waiting) else b;
    var all := ChildrenOf(b, p) + {p};
    if b.actions[p].state.Done? {
      SetStateCounts(b, p, Waiting, all);
      assert all + {p} == all;
    }
    RefreshCounts(w, {p}, all);
    RefreshCounts(Refresh(w, {p}), ChildrenOf(b, p), all - {p});
    assert all - {p} - ChildrenOf(b, p) == {};
  }

  lemma RequeueKeeps(b: Batch, p: Key)
    requires p in b.actions
    ensures var c := Requeue(b, p);
            c.actions.Keys == b.actions.Keys && c.edges == b.edges && c.leases == b.leases && c.state == b.state &&
            c.class_ == b.class_ &&
            (forall k <- b.actions ::
               var a, a' := b.actions[k], c.actions[k];
               a' == a.(remaining := a'.remaining, state := a'.state) &&
               (a'.state == a.state || (a.state.Ready? && a'.state.Waiting?) || (k == p && a.state.Done? && a'.state.Waiting?))) &&
            (b.actions[p].state.Done? ==> c.actions[p].state.Waiting?)
  {
    var w := if b.actions[p].state.Done? then SetState(b, p, Waiting) else b;
    RefreshKeeps(w, {p});
    RefreshKeeps(Refresh(w, {p}), ChildrenOf(b, p));
  }

  lemma LeasedAlike(b: Batch, c: Batch)
    requires LeasedBut(b, {}) && c.leases == b.leases && c.actions.Keys == b.actions.Keys
    requires forall j <- b.actions :: c.actions[j].state.Running? <==> b.actions[j].state.Running?
    ensures LeasedBut(c, {})
  {
    forall j | j in c.actions && c.actions[j].state.Running?
      ensures HasLease(c, j)
    {
      assert HasLease(b, j);
    }
  }

  /** A held action set waiting behind a new edge to `p`: only `p`, its children
      and the action itself are unsettled. */
  lemma MissingCounts(b: Batch, s: Batch, k: Key, p: Key)
    requires CountedBut(b, {}) && k in b.actions && !b.actions[k].state.Done?
    requires s.actions.Keys == b.actions.Keys && s.edges == b.edges + {Edge(k, p)}
    requires forall j <- b.actions ::
               s.actions[j] == b.actions[j].(priority := s.actions[j].priority, state := if j == k then Waiting else b.actions[j].state)
    ensures CountedBut(s, ChildrenOf(s, p) + {p})
  {
    forall j | j in s.actions && j !in ChildrenOf(s, p) + {p} && (s.actions[j].state.Waiting? || s.actions[j].state.Ready?)
      ensures s.actions[j].remaining == |OpenParents(s, j)| && (s.actions[j].state.Ready? ==> s.actions[j].remaining == 0)
    {
      assert Edge(k, p) in s.edges;
      assert k in ChildrenOf(s, p);
      assert OpenParents(s, j) == OpenParents(b, j);
    }
  }

  /** A held action that lacks an input the batch builds: it waits behind a new
      edge, and the parent it names is built again, whatever its attempts. */
  lemma HeldMissing(b: Batch, s: Batch, k: Key, p: Key, m: int)
    requires Held(b, k, m) && p in b.actions && k != p && b.actions[k].attempts < m
    requires s.actions.Keys == b.actions.Keys && s.edges == b.edges + {Edge(k, p)}
    requires s.state == b.state && s.class_ == b.class_ && s.leases == b.leases
    requires forall j <- b.actions ::
               s.actions[j] == b.actions[j].(priority := s.actions[j].priority, state := if j == k then Waiting else b.actions[j].state)
    ensures Settled(Requeue(s, p), m) && SameGraph(s, Requeue(s, p))
  {
    hide Requeue, CountedBut, Sum, Weight, Weights, LeasedBut, Progressing;
    var c := Requeue(s, p);
    RequeueKeeps(s, p);
    MissingCounts(b, s, k, p);
    RequeueCounts(s, p);
    MissingTrade(b, s, c, k, p, m);
    HeldWaits(b, c, k, m);
  }

  lemma TradedWeights(b: Batch, s: Batch, c: Batch, k: Key, p: Key, m: int)
    requires k in b.actions && p in b.actions && k != p
    requires b.actions[k].state.Running? && b.actions[k].attempts < m
    requires s.actions.Keys == b.actions.Keys == c.actions.Keys
    requires forall j <- b.actions ::
               s.actions[j] == b.actions[j].(priority := s.actions[j].priority, state := if j == k then Waiting else b.actions[j].state)
    requires forall j <- b.actions ::
               var a, a' := s.actions[j], c.actions[j];
               a' == a.(remaining := a'.remaining, state := a'.state) &&
               (a'.state == a.state || (a.state.Ready? && a'.state.Waiting?) || (j == p && a.state.Done? && a'.state.Waiting?))
    ensures forall j <- b.actions :: j != p && j != k ==> Weight(c.actions[j], m) <= Weight(b.actions[j], m)
    ensures Weight(c.actions[k], m) <= Weight(b.actions[k], m) - 1
    ensures Weight(c.actions[p], m) <= Weight(b.actions[p], m) + 1
    ensures Sane(b) ==> Sane(c)
  {
    forall j | j in b.actions && j != p && j != k
      ensures Weight(c.actions[j], m) <= Weight(b.actions[j], m)
    {
      hide Excess, Credit;
      SameWeight(b.actions[j], c.actions[j], m);
    }
  }

  /** Waiting and ready weigh the same. */
  lemma SameWeight(a: Action, a': Action, m: int)
    requires a'.attempts == a.attempts && a'.tier == a.tier
    requires a'.state == a.state || (a.state.Ready? && a'.state.Waiting?)
    ensures Weight(a', m) == Weight(a, m)
  {}

  /** The re-queued parent's possible attempt past `m` is paid for by the one the
      action that missed it has used. */
  lemma MissingTrade(b: Batch, s: Batch, c: Batch, k: Key, p: Key, m: int)
    requires Budgeted(b, m) && k in b.actions && p in b.actions && k != p
    requires b.actions[k].state.Running? && b.actions[k].attempts < m
    requires s.actions.Keys == b.actions.Keys == c.actions.Keys
    requires forall j <- b.actions ::
               s.actions[j] == b.actions[j].(priority := s.actions[j].priority, state := if j == k then Waiting else b.actions[j].state)
    requires forall j <- b.actions ::
               var a, a' := s.actions[j], c.actions[j];
               a' == a.(remaining := a'.remaining, state := a'.state) &&
               (a'.state == a.state || (a.state.Ready? && a'.state.Waiting?) || (j == p && a.state.Done? && a'.state.Waiting?))
    ensures Budgeted(c, m)
  {
    TradedWeights(b, s, c, k, p, m);
    hide Weight;
    SumTrade(Weights(c, m), Weights(b, m), p, k);
  }
}
