/** What each outcome of an attempt means for its action and its neighbours, said of
    the state it leaves and not of the statements that make it. */
module CoordinatorOutcomes {
  import opened Wrappers
  import opened Dag
  import opened CoordinatorTables
  import opened CoordinatorInvariant
  import opened CoordinatorSteps
  import opened CoordinatorRuns
  import opened CoordinatorTheorems

  /** A live lease and a result for its action. */
  ghost predicate Ends(b: Batch, token: Token, r: Result, now: int) {
    && token in b.leases && b.leases[token].expiresAt > now
    && var k := b.leases[token].key;
       k in b.actions && r.spec == b.actions[k].spec && (r.inputKey.None? || r.inputKey == Some(k))
  }

  /** The parents an action has that are not done. */
  function Awaited(b: Batch, k: Key): set<Key> {
    set p | p in b.actions && Edge(k, p) in b.edges && !b.actions[p].state.Done?
  }

  /** Only the row of `k` changes, and only the lease `token` goes. */
  ghost predicate OnlyTo(b: Batch, after: Batch, token: Token, k: Key, row: Action) {
    && after.state == b.state && after.class_ == b.class_ && after.edges == b.edges
    && after.leases == b.leases - {token}
    && after.actions == b.actions[k := row]
  }

  /** The row of an action sent back to wait for its parents. */
  function SentBack(b: Batch, k: Key): Action
    requires k in b.actions
  {
    b.actions[k].(state := Waiting, remaining := |Awaited(b, k)|)
  }

  /** The batch ends, its leases go, and what of it was not finished is cancelled; but `k` failed. */
  ghost predicate FailsWithBatch(b: Batch, after: Batch, k: Key, last: Option<Failure>) {
    && after.state == BatchFailed && after.class_ == b.class_ && after.edges == b.edges && after.leases == map[]
    && after.actions.Keys == b.actions.Keys
    && forall j <- b.actions ::
         after.actions[j] ==
         if j == k then b.actions[j].(state := Failed, lastFailure := last)
         else if b.actions[j].state in {Waiting, Ready, Running} then b.actions[j].(state := Cancelled)
         else b.actions[j]
  }

  /** `k` alone failed; the batch is finished once every action is done or failed. */
  ghost predicate FailsAlone(b: Batch, after: Batch, token: Token, k: Key, last: Option<Failure>)
    requires k in b.actions
  {
    && after.class_ == b.class_ && after.edges == b.edges && after.leases == b.leases - {token}
    && after.actions == b.actions[k := b.actions[k].(state := Failed, lastFailure := last)]
    && after.state == if forall j <- after.actions :: after.actions[j].state in {Done, Failed} then Finished else b.state
  }

  /** A failed build ends its batch, a failed run only itself. */
  ghost predicate FailsFor(b: Batch, after: Batch, token: Token, k: Key, last: Option<Failure>)
    requires k in b.actions
  {
    match b.class_
    case Build => FailsWithBatch(b, after, k, last)
    case Run => FailsAlone(b, after, token, k, last)
  }

  /** The batch once the lease is gone and the result recorded. */
  function Recording(b: Batch, token: Token, r: Result): Batch
    requires token in b.leases && b.leases[token].key in b.actions
  {
    Recorded(WithoutLease(b, token), b.leases[token].key, r.failure)
  }

  /** Whatever the outcome, the lease is gone, and no other comes. */
  lemma LeaseEnds(b: Batch, token: Token, r: Result, now: int, m: int)
    requires Ends(b, token, r, now)
    ensures Completed(b, token, r, now, m).leases.Keys <= b.leases.Keys - {token}
  {
    var k := b.leases[token].key;
    hide Applied;
    AppliedAddsNoLease(Recording(b, token, r), k, b.actions[k], r, m);
  }

  /** An action's parents that the children's refresh sees once `k` is done. */
  lemma OnlyParentDone(b: Batch, k: Key, c: Key)
    requires k in b.actions && OpenParents(b, c) == {k}
    ensures OpenParents(SetState(b, k, Done), c) == {}
  {
    var d := SetState(b, k, Done);
    forall e | e in d.edges && e.child == c && e.parent in d.actions
      ensures d.actions[e.parent].state.Done?
    {
      assert e.parent in OpenParents(b, c) <==> !b.actions[e.parent].state.Done?;
    }
  }

  /** A built action is done, and a child that waited for it alone waits no longer: its
      counter is zero, so the next release takes it up. */
  lemma BuiltFreesChildren(b: Batch, token: Token, r: Result, now: int, m: int, c: Key)
    requires Ends(b, token, r, now) && r.failure.None?
    requires c in b.actions && b.actions[c].state.Waiting? && Edge(c, b.leases[token].key) in b.edges
    requires OpenParents(b, c) == {b.leases[token].key} && c != b.leases[token].key
    ensures var k, after := b.leases[token].key, Completed(b, token, r, now, m);
            && after.actions[k].state.Done?
            && c in after.actions && after.actions[c].state.Waiting? && after.actions[c].remaining == 0
  {
    var k, rec := b.leases[token].key, Recording(b, token, r);
    assert OpenParents(rec, c) == OpenParents(b, c);
    OnlyParentDone(rec, k, c);
    var d := SetState(rec, k, Done);
    assert ChildrenOf(rec, k) == ChildrenOf(d, k);
    assert c in ChildrenOf(rec, k) by { assert Edge(c, k) in rec.edges; }
    hide OpenParents, ChildrenOf;
    assert Refreshed(d, c).state.Waiting? && Refreshed(d, c).remaining == 0;
    assert Completed(b, token, r, now, m) == FinishIfDone(Refresh(d, ChildrenOf(rec, k)));
  }

  /** Waiting on a parent that is not done: no release takes the action up. */
  ghost predicate WaitsFor(b: Batch, k: Key, p: Key) {
    && Edge(k, p) in b.edges && k in b.actions && p in b.actions
    && b.actions[k].state.Waiting? && !b.actions[p].state.Done? && b.actions[k].remaining > 0
  }

  lemma OpenIsCounted(b: Batch, k: Key, p: Key, m: int)
    requires Inv(b, m) && Edge(k, p) in b.edges && k in b.actions && p in b.actions
    requires b.actions[k].state.Waiting? && !b.actions[p].state.Done?
    ensures WaitsFor(b, k, p)
  {
    assert Edge(k, p).parent in OpenParents(b, k);
  }

  /** An action whose input is missing, a theory of its batch, waits for that theory,
      which is done no longer; and the edge stays. */
  lemma MissingTheoryIsRebuilt(b: Batch, token: Token, r: Result, now: int, m: int, p: Key)
    requires Inv(b, m) && Ends(b, token, r, now) && r.failure == Some(InputMissing) && r.missing == Some(MissingTheory(p))
    requires var k := b.leases[token].key;
             b.actions[k].attempts < m && p in b.actions && Acyclic(b.edges + {Edge(k, p)})
    ensures var after := Completed(b, token, r, now, m);
            WaitsFor(after, b.leases[token].key, p) && after.edges == b.edges + {Edge(b.leases[token].key, p)}
  {
    hide Inv, PriorityOf, Acyclic, OpenParents, Requeue, MissingInput, Completed, WaitsFor;
    var k, rec := b.leases[token].key, Recording(b, token, r);
    CompletedKeeps(b, token, r, now, m);
    InvJoins(b, m);
    assert rec.actions.Keys == b.actions.Keys && rec.edges == b.edges;
    CompletedIsMissing(b, token, r, now, m);
    MissingStep(rec, k, b.actions[k].attempts, m, p);
    OpenIsCounted(Completed(b, token, r, now, m), k, p, m);
  }

  lemma CompletedIsMissing(b: Batch, token: Token, r: Result, now: int, m: int)
    requires Ends(b, token, r, now) && r.failure == Some(InputMissing)
    ensures var k := b.leases[token].key;
            Completed(b, token, r, now, m) == MissingInput(Recording(b, token, r), k, b.actions[k].attempts, r.missing, m)
  {
    hide Applied, MissingInput;
    AppliedMissing(Recording(b, token, r), b.leases[token].key, b.actions[b.leases[token].key], r, m);
  }

  lemma MissingStep(b: Batch, k: Key, attempts: int, m: int, p: Key)
    requires attempts < m && k in b.actions && p in b.actions && Joins(b.edges, b.actions.Keys) && Acyclic(b.edges + {Edge(k, p)})
    ensures var c := MissingInput(b, k, attempts, Some(MissingTheory(p)), m);
            && c.edges == b.edges + {Edge(k, p)} && c.actions.Keys == b.actions.Keys
            && c.actions[k].state.Waiting? && !c.actions[p].state.Done?
  {
    NoSelfEdge(b.edges, k, p);
    hide PriorityOf, Acyclic, OpenParents, Requeue;
    var w := WithEdge(b, Edge(k, p));
    assert w.actions.Keys == b.actions.Keys;
    RequeuedNotDone(SetState(w, k, Waiting), p);
  }

  lemma InvJoins(b: Batch, m: int)
    requires Inv(b, m)
    ensures Joins(b.edges, b.actions.Keys)
  {}

  /** A re-queued action is not done, and no other action's being done changes. */
  lemma RequeuedNotDone(b: Batch, p: Key)
    requires p in b.actions
    ensures var c := Requeue(b, p);
            && c.edges == b.edges && c.actions.Keys == b.actions.Keys && !c.actions[p].state.Done?
            && forall k <- b.actions :: b.actions[k].state.Waiting? ==> c.actions[k].state.Waiting?
  {
    hide OpenParents, ChildrenOf;
  }

  /** A done parent whose entry is gone is done no longer, and every child of it that
      waited or was ready waits for it. */
  lemma EvictedParentIsAwaited(b: Batch, p: Key, m: int, c: Key)
    requires Inv(b, m) && b.state.InProgress? && p in b.actions && b.actions[p].state.Done? && b.actions[p].attempts < m
    requires Edge(c, p) in b.edges && c in b.actions && (b.actions[c].state.Waiting? || b.actions[c].state.Ready?)
    ensures WaitsFor(Evicted(b, p, m), c, p)
  {
    hide Inv;
    EvictedKeeps(b, p, m);
    RequeuedNotDone(b, p);
    RequeuedChildWaits(b, p, c);
    hide Requeue, WaitsFor;
    OpenIsCounted(Evicted(b, p, m), c, p, m);
  }

  lemma RequeuedChildWaits(b: Batch, p: Key, c: Key)
    requires p in b.actions && b.actions[p].state.Done? && Edge(c, p) in b.edges && c in b.actions
    requires b.actions[c].state.Waiting? || b.actions[c].state.Ready?
    ensures Requeue(b, p).actions[c].state.Waiting?
  {
    var once := Refresh(SetState(b, p, Waiting), {p});
    assert Edge(c, p) in once.edges && Edge(c, p).parent in OpenParents(once, c);
    assert c in ChildrenOf(b, p) by { assert Edge(c, p).child in ChildrenOf(b, p); }
    hide OpenParents, ChildrenOf;
    assert Refreshed(once, c).state.Waiting?;
  }

  // ------------------------------------------------------------ failures, one by one

  /** What a failure calls for. */
  datatype Verdict = Fails | GoesBack | MovesUp | IsGivenBack | LacksInput

  /** By the failure, the attempts, the tier and the failure before. */
  function VerdictOf(failure: Failure, attempts: int, tier: Tier, before: Option<Failure>, m: int): Verdict {
    match failure
    case Proof => Fails
    case TacticTimeout => Fails
    case SpecRejected => Fails
    case Script => Fails
    case TimedOut => Fails
    case Publish => if attempts < m then GoesBack else Fails
    case Toolchain => if attempts < m then GoesBack else Fails
    case Internal => if attempts < m then GoesBack else Fails
    case Disk => if attempts < m && before != Some(Disk) then GoesBack else Fails
    case Memory => if tier == Standard then MovesUp else if attempts < m then GoesBack else Fails
    case Unavailable => IsGivenBack
    case InputMissing => LacksInput
  }

  lemma OpenIsAwaited(b: Batch, k: Key)
    ensures OpenParents(b, k) == Awaited(b, k)
  {
    OpenParentsAre(b, k);
  }

  /** What `_retry` leaves. */
  lemma RetryLeaves(b: Batch, k: Key)
    requires k in b.actions && !b.actions[k].state.Done?
    ensures Retry(b, k) == b.(actions := b.actions[k := SentBack(b, k)])
  {
    var w := SetState(b, k, Waiting);
    assert OpenParents(w, k) == OpenParents(b, k);
    OpenIsAwaited(b, k);
    hide OpenParents, Awaited;
    assert Retry(b, k).actions == b.actions[k := SentBack(b, k)];
  }

  lemma FailBatchLeaves(b: Batch, k: Key)
    requires k in b.actions
    ensures FailsWithBatch(b, FailBatch(b, k), k, b.actions[k].lastFailure)
  {}

  lemma FailLeaves(b: Batch, token: Token, k: Key)
    requires k in b.actions && token !in b.leases
    ensures FailsFor(b, Fail(b, k), token, k, b.actions[k].lastFailure)
  {
    FailBatchLeaves(b, k);
    assert b.leases - {token} == b.leases;
    hide FailBatch, FailsWithBatch;
  }

  /** What it awaits does not turn on the leases, nor on its own row. */
  lemma AwaitedFrame(b: Batch, c: Batch, k: Key)
    requires c.edges == b.edges && c.actions.Keys == b.actions.Keys
    requires forall j <- b.actions :: b.actions[j].state.Done? <==> c.actions[j].state.Done?
    ensures Awaited(c, k) == Awaited(b, k)
  {}

  lemma RecordingLeaves(b: Batch, token: Token, r: Result, k: Key)
    requires token in b.leases && k == b.leases[token].key && k in b.actions
    ensures var rec := Recording(b, token, r);
            && rec.state == b.state && rec.class_ == b.class_ && rec.edges == b.edges && rec.leases == b.leases - {token}
            && rec.actions == b.actions[k := b.actions[k].(lastFailure := r.failure)]
  {}

  /** The row of an action sent back after a failure. */
  function SentBackBy(b: Batch, k: Key, failure: Failure): Action
    requires k in b.actions
  {
    SentBack(b, k).(lastFailure := Some(failure))
  }

  /** The action can be rebuilt with its missing theory first. */
  ghost predicate CanAwait(b: Batch, k: Key, missing: Option<Missing>) {
    match missing
    case Some(MissingTheory(p)) => p in b.actions && Acyclic(b.edges + {Edge(k, p)})
    case _ => false
  }

  /** What each failure of an attempt leaves, row by row. */
  lemma FailureLeaves(b: Batch, token: Token, r: Result, now: int, m: int)
    requires Inv(b, m) && Ends(b, token, r, now) && r.failure.Some?
    ensures var k, failure, after := b.leases[token].key, r.failure.value, Completed(b, token, r, now, m);
            var a := b.actions[k];
            match VerdictOf(failure, a.attempts, a.tier, a.lastFailure, m)
            case Fails => FailsFor(b, after, token, k, Some(failure))
            case GoesBack => OnlyTo(b, after, token, k, SentBackBy(b, k, failure))
            case MovesUp => OnlyTo(b, after, token, k, SentBackBy(b, k, failure).(tier := High))
            case IsGivenBack => OnlyTo(b, after, token, k, SentBackBy(b, k, failure).(attempts := a.attempts - 1))
            case LacksInput =>
              if a.attempts >= m then FailsWithBatch(b, after, k, Some(failure))
              else !CanAwait(b, k, r.missing) ==> OnlyTo(b, after, token, k, SentBackBy(b, k, failure))
  {
    var k, failure := b.leases[token].key, r.failure.value;
    var a, rec := b.actions[k], Recording(b, token, r);
    LeasedRuns(b, token, m);
    InvJoins(b, m);
    RecordingLeaves(b, token, r, k);
    AppliedByVerdict(rec, k, a, r, m);
    assert Completed(b, token, r, now, m) == Applied(rec, k, a, r, m);
    hide Inv, Joins, Recording, Completed, Applied, Acyclic, Awaited, Retry, Fail, FailBatch, FailsWithBatch, FailsFor, OnlyTo, SentBackBy, MissingInput, CanAwait, WithAction;
    match VerdictOf(failure, a.attempts, a.tier, a.lastFailure, m)
    case Fails =>
      FailLeaves(rec, token, k);
      FailsFrame(b, rec, Fail(rec, k), token, k, Some(failure));
    case GoesBack => SentBackLeaves(b, rec, rec, token, k, failure);
    case MovesUp => SentBackLeaves(b, rec, WithAction(rec, k, rec.actions[k].(tier := High)), token, k, failure);
    case IsGivenBack => SentBackLeaves(b, rec, WithAction(rec, k, rec.actions[k].(attempts := rec.actions[k].attempts - 1)), token, k, failure);
    case LacksInput => LacksInputLeaves(b, rec, token, k, failure, r.missing, m);
  }

  lemma AppliedByVerdict(b: Batch, k: Key, a: Action, r: Result, m: int)
    requires k in b.actions && r.failure.Some?
    ensures var row, after := b.actions[k], Applied(b, k, a, r, m);
            match VerdictOf(r.failure.value, a.attempts, a.tier, a.lastFailure, m)
            case Fails => after == Fail(b, k)
            case GoesBack => after == Retry(b, k)
            case MovesUp => after == Retry(WithAction(b, k, row.(tier := High)), k)
            case IsGivenBack => after == Retry(WithAction(b, k, row.(attempts := row.attempts - 1)), k)
            case LacksInput => after == MissingInput(b, k, a.attempts, r.missing, m)
  {
    hide Fail, Retry, MissingInput, WithAction;
  }

  lemma SentBackLeaves(b: Batch, rec: Batch, changed: Batch, token: Token, k: Key, failure: Failure)
    requires k in b.actions && !b.actions[k].state.Done?
    requires rec.state == b.state && rec.class_ == b.class_ && rec.edges == b.edges && rec.leases == b.leases - {token}
    requires rec.actions == b.actions[k := b.actions[k].(lastFailure := Some(failure))]
    requires k in changed.actions && changed == WithAction(rec, k, changed.actions[k]) && !changed.actions[k].state.Done?
    ensures OnlyTo(b, Retry(changed, k), token, k, changed.actions[k].(state := Waiting, remaining := |Awaited(b, k)|))
  {
    AwaitedFrame(b, changed, k);
    hide Awaited, Retry;
    RetryLeaves(changed, k);
  }

  lemma LacksInputLeaves(b: Batch, rec: Batch, token: Token, k: Key, failure: Failure, missing: Option<Missing>, m: int)
    requires k in b.actions && !b.actions[k].state.Done? && Joins(b.edges, b.actions.Keys)
    requires rec.state == b.state && rec.class_ == b.class_ && rec.edges == b.edges && rec.leases == b.leases - {token}
    requires rec.actions == b.actions[k := b.actions[k].(lastFailure := Some(failure))]
    ensures var a, after := b.actions[k], MissingInput(rec, k, b.actions[k].attempts, missing, m);
            if a.attempts >= m then FailsWithBatch(b, after, k, Some(failure))
            else !CanAwait(b, k, missing) ==> OnlyTo(b, after, token, k, SentBackBy(b, k, failure))
  {
    assert rec.actions.Keys == b.actions.Keys && WithAction(rec, k, rec.actions[k]) == rec;
    hide Acyclic, Awaited, Retry, FailBatch, FailsWithBatch, Requeue, SetState, PriorityOf;
    FailBatchLeaves(rec, k);
    BatchFailsFrame(b, rec, FailBatch(rec, k), k, Some(failure));
    SentBackLeaves(b, rec, rec, token, k, failure);
  }

  lemma LeasedRuns(b: Batch, token: Token, m: int)
    requires Inv(b, m) && token in b.leases
    ensures b.leases[token].key in b.actions && b.actions[b.leases[token].key].state.Running?
  {}

  lemma BatchFailsFrame(b: Batch, rec: Batch, after: Batch, k: Key, last: Option<Failure>)
    requires k in b.actions && rec.class_ == b.class_ && rec.edges == b.edges
    requires rec.actions == b.actions[k := b.actions[k].(lastFailure := last)]
    requires FailsWithBatch(rec, after, k, last)
    ensures FailsWithBatch(b, after, k, last)
  {}

  lemma FailsFrame(b: Batch, rec: Batch, after: Batch, token: Token, k: Key, last: Option<Failure>)
    requires k in b.actions && rec.state == b.state && rec.class_ == b.class_ && rec.edges == b.edges && rec.leases == b.leases - {token}
    requires rec.actions == b.actions[k := b.actions[k].(lastFailure := last)]
    requires FailsFor(rec, after, token, k, last)
    ensures FailsFor(b, after, token, k, last)
  {
    if b.class_.Build? { BatchFailsFrame(b, rec, after, k, last); }
  }

  // ------------------------------------------------------------ success

  /** The row of `j` once `k` is built. */
  function RowAfterBuild(b: Batch, after: Batch, k: Key, j: Key): Action
    requires j in b.actions
  {
    if j == k then b.actions[j].(state := Done, lastFailure := None)
    else if Edge(j, k) in b.edges && b.actions[j].state.Waiting? then b.actions[j].(remaining := |Awaited(after, j)|)
    else b.actions[j]
  }

  /** A result without a failure: its action is done, each child that waits counts the
      parents still open, no other row changes, and the batch is finished once every
      action is done or failed. */
  lemma BuiltLeaves(b: Batch, token: Token, r: Result, now: int, m: int)
    requires Inv(b, m) && Ends(b, token, r, now) && r.failure.None?
    ensures var k, after := b.leases[token].key, Completed(b, token, r, now, m);
            && after.class_ == b.class_ && after.edges == b.edges && after.leases == b.leases - {token}
            && after.actions.Keys == b.actions.Keys && (forall j <- b.actions :: after.actions[j] == RowAfterBuild(b, after, k, j))
            && after.state == if forall j <- after.actions :: after.actions[j].state in {Done, Failed} then Finished else b.state
  {
    var k, rec, after := b.leases[token].key, Recording(b, token, r), Completed(b, token, r, now, m);
    LeasedRuns(b, token, m);
    RecordingLeaves(b, token, r, k);
    var counted := Refresh(SetState(rec, k, Done), ChildrenOf(rec, k));
    assert after == FinishIfDone(counted);
    NoReadyChild(b, k, m);
    hide Inv, Completed, Recording, Refresh, ChildrenOf, Awaited, OpenParents, SetState, FinishIfDone, RowAfterBuild;
    FinishLeaves(counted);
    CountedRows(b, rec, k, after);
  }

  lemma FinishLeaves(b: Batch)
    ensures FinishIfDone(b) == b.(state := if forall j <- b.actions :: b.actions[j].state in {Done, Failed} then Finished else b.state)
  {}

  lemma CountedRows(b: Batch, rec: Batch, k: Key, after: Batch)
    requires k in b.actions && b.actions[k].state.Running? && forall j <- b.actions | Edge(j, k) in b.edges :: !b.actions[j].state.Ready?
    requires rec.edges == b.edges && rec.actions == b.actions[k := b.actions[k].(lastFailure := None)]
    requires var counted := Refresh(SetState(rec, k, Done), ChildrenOf(rec, k)); after.actions == counted.actions && after.edges == counted.edges
    ensures var counted := Refresh(SetState(rec, k, Done), ChildrenOf(rec, k));
            && counted.state == rec.state && counted.class_ == rec.class_ && counted.edges == rec.edges && counted.leases == rec.leases
            && counted.actions.Keys == b.actions.Keys && forall j <- b.actions :: counted.actions[j] == RowAfterBuild(b, after, k, j)
  {
    var d := SetState(rec, k, Done);
    RefreshFrame(d, ChildrenOf(rec, k));
    hide Refresh, ChildrenOf, Awaited;
    forall j <- b.actions
      ensures Refresh(d, ChildrenOf(rec, k)).actions[j] == RowAfterBuild(b, after, k, j)
    {
      AwaitedFrame(d, after, j);
      CountedRow(b, rec, k, j);
    }
  }

  lemma CountedRow(b: Batch, rec: Batch, k: Key, j: Key)
    requires k in b.actions && j in b.actions && !(Edge(j, k) in b.edges && b.actions[j].state.Ready?) && b.actions[k].state.Running?
    requires rec.edges == b.edges && rec.actions == b.actions[k := b.actions[k].(lastFailure := None)]
    ensures Refresh(SetState(rec, k, Done), ChildrenOf(rec, k)).actions[j] == RowAfterBuild(b, SetState(rec, k, Done), k, j)
  {
    IsChild(rec, k, j);
    hide Refresh, ChildrenOf, Awaited;
    RefreshedRow(SetState(rec, k, Done), ChildrenOf(rec, k), j);
  }

  lemma IsChild(b: Batch, k: Key, j: Key)
    ensures j in ChildrenOf(b, k) <==> Edge(j, k) in b.edges
  {
    if Edge(j, k) in b.edges { assert Edge(j, k).child in ChildrenOf(b, k); }
    assert forall e <- b.edges | e.parent == k && e.child == j :: e == Edge(j, k);
  }

  lemma NoReadyChild(b: Batch, k: Key, m: int)
    requires Inv(b, m) && k in b.actions && !b.actions[k].state.Done?
    ensures forall j <- b.actions | Edge(j, k) in b.edges :: !b.actions[j].state.Ready?
  {
    forall j <- b.actions | Edge(j, k) in b.edges && b.actions[j].state.Ready?
      ensures false
    {
      ReadyHasParentsDone(b, j, m);
    }
  }

  lemma RefreshFrame(b: Batch, keys: set<Key>)
    ensures var c := Refresh(b, keys);
            && c.state == b.state && c.class_ == b.class_ && c.edges == b.edges && c.leases == b.leases && c.actions.Keys == b.actions.Keys
            && forall j <- b.actions :: b.actions[j].state.Done? <==> c.actions[j].state.Done?
  {
    hide OpenParents;
  }

  lemma RefreshedRow(b: Batch, keys: set<Key>, j: Key)
    requires j in b.actions
    ensures var a := b.actions[j];
            Refresh(b, keys).actions[j] ==
            if j in keys && a.state in {Waiting, Ready} then
              a.(remaining := |Awaited(b, j)|, state := if Awaited(b, j) == {} then a.state else Waiting)
            else a
  {
    OpenIsAwaited(b, j);
    hide OpenParents, Awaited;
  }

  // ------------------------------------------------------------ a parent built again

  /** A done action goes back to waiting, and its ready children with it; what was not
      done is as it was. */
  function StateWithout(b: Batch, p: Key, j: Key): ActionState
    requires p in b.actions && j in b.actions
  {
    if !b.actions[p].state.Done? then b.actions[j].state
    else if j == p || (b.actions[j].state.Ready? && Edge(j, p) in b.edges) then Waiting
    else b.actions[j].state
  }

  lemma RequeueLeaves(b: Batch, p: Key)
    requires p in b.actions && (forall j <- b.actions | b.actions[j].state.Ready? :: Awaited(b, j) == {})
    ensures var c := Requeue(b, p);
            && c.state == b.state && c.class_ == b.class_ && c.edges == b.edges && c.leases == b.leases && c.actions.Keys == b.actions.Keys
            && forall j <- b.actions :: c.actions[j] == b.actions[j].(state := StateWithout(b, p, j), remaining := c.actions[j].remaining)
  {
    var w := if b.actions[p].state.Done? then SetState(b, p, Waiting) else b;
    var once := Refresh(w, {p});
    var c := Refresh(once, ChildrenOf(b, p));
    assert Requeue(b, p) == c;
    RefreshFrame(w, {p});
    RefreshFrame(once, ChildrenOf(b, p));
    hide Refresh, ChildrenOf, Requeue;
    forall j <- b.actions
      ensures c.actions[j] == b.actions[j].(state := StateWithout(b, p, j), remaining := c.actions[j].remaining)
    {
      IsChild(b, p, j);
      RefreshedRow(w, {p}, j);
      RefreshedRow(once, ChildrenOf(b, p), j);
      AwaitedFrame(w, once, j);
      assert Edge(j, p) in b.edges && !w.actions[p].state.Done? ==> p in Awaited(w, j);
      if !b.actions[p].state.Done? { AwaitedFrame(b, w, j); }
    }
  }

  /** The action waits for its missing theory, which is built again if it was done; but
      for counts and priorities no other row changes. */
  ghost predicate WaitsForTheory(b: Batch, after: Batch, k: Key, p: Key)
    requires p in b.actions
  {
    && after.state == b.state && after.class_ == b.class_ && after.edges == b.edges + {Edge(k, p)} && after.actions.Keys == b.actions.Keys
    && forall j <- b.actions ::
         after.actions[j] == b.actions[j].(
           state := if j == k then Waiting else StateWithout(b, p, j),
           lastFailure := if j == k then Some(InputMissing) else b.actions[j].lastFailure,
           remaining := after.actions[j].remaining,
           priority := after.actions[j].priority)
  }

  /** What a missing theory of the batch leaves, row by row. */
  lemma MissingTheoryLeaves(b: Batch, token: Token, r: Result, now: int, m: int, p: Key)
    requires Inv(b, m) && Ends(b, token, r, now) && r.failure == Some(InputMissing) && r.missing == Some(MissingTheory(p))
    requires var k := b.leases[token].key;
             b.actions[k].attempts < m && p in b.actions && Acyclic(b.edges + {Edge(k, p)})
    ensures var after := Completed(b, token, r, now, m);
            WaitsForTheory(b, after, b.leases[token].key, p) && after.leases == b.leases - {token}
  {
    var k, rec := b.leases[token].key, Recording(b, token, r);
    LeasedRuns(b, token, m);
    InvJoins(b, m);
    NoSelfEdge(b.edges, k, p);
    RecordingLeaves(b, token, r, k);
    CompletedIsMissing(b, token, r, now, m);
    ReadyAwaitNone(b, m);
    assert rec.actions.Keys == b.actions.Keys;
    hide Inv, Acyclic, Awaited, Requeue, Completed, Recording, Joins, WaitsForTheory, MissingInput, AwaitingEdge;
    MissingIsRequeue(rec, k, b.actions[k].attempts, m, p);
    RequeuedAwaiting(b, rec, k, p);
  }

  lemma MissingIsRequeue(b: Batch, k: Key, attempts: int, m: int, p: Key)
    requires attempts < m && k in b.actions && p in b.actions && Joins(b.edges, b.actions.Keys) && Acyclic(b.edges + {Edge(k, p)})
    ensures Joins(b.edges + {Edge(k, p)}, b.actions.Keys)
    ensures MissingInput(b, k, attempts, Some(MissingTheory(p)), m) == Requeue(AwaitingEdge(b, k, p), p)
  {
    hide Acyclic, Requeue, SetState, PriorityOf;
  }

  lemma RequeuedAwaiting(b: Batch, rec: Batch, k: Key, p: Key)
    requires k in b.actions && p in b.actions && k != p && b.actions[k].state.Running?
    requires rec.edges == b.edges && rec.state == b.state && rec.class_ == b.class_
    requires rec.actions == b.actions[k := b.actions[k].(lastFailure := Some(InputMissing))]
    requires Joins(rec.edges + {Edge(k, p)}, rec.actions.Keys) && Acyclic(rec.edges + {Edge(k, p)})
    requires forall j <- b.actions | b.actions[j].state.Ready? :: Awaited(b, j) == {}
    ensures var after := Requeue(AwaitingEdge(rec, k, p), p); WaitsForTheory(b, after, k, p) && after.leases == rec.leases
  {
    hide Acyclic, Awaited, Requeue, Joins, StateWithout, AwaitingEdge;
    AwaitingReady(b, rec, k, p);
    AwaitingStates(b, rec, k, p);
    RequeueLeaves(AwaitingEdge(rec, k, p), p);
  }

  ghost function AwaitingEdge(b: Batch, k: Key, p: Key): Batch
    requires Joins(b.edges + {Edge(k, p)}, b.actions.Keys) && Acyclic(b.edges + {Edge(k, p)})
  {
    SetState(WithEdge(b, Edge(k, p)), k, Waiting)
  }

  lemma ReadyAwaitNone(b: Batch, m: int)
    requires Inv(b, m)
    ensures forall j <- b.actions | b.actions[j].state.Ready? :: Awaited(b, j) == {}
  {
    forall j <- b.actions | b.actions[j].state.Ready?
      ensures Awaited(b, j) == {}
    {
      ReadyHasParentsDone(b, j, m);
    }
  }

  lemma AwaitingReady(b: Batch, rec: Batch, k: Key, p: Key)
    requires k in b.actions && p in b.actions && b.actions[k].state.Running?
    requires rec.edges == b.edges && rec.actions == b.actions[k := b.actions[k].(lastFailure := Some(InputMissing))]
    requires Joins(rec.edges + {Edge(k, p)}, rec.actions.Keys) && Acyclic(rec.edges + {Edge(k, p)})
    requires forall j <- b.actions | b.actions[j].state.Ready? :: Awaited(b, j) == {}
    ensures var x := AwaitingEdge(rec, k, p); forall j <- x.actions | x.actions[j].state.Ready? :: Awaited(x, j) == {}
  {
    hide Acyclic, PriorityOf;
    var x := AwaitingEdge(rec, k, p);
    forall j <- x.actions | x.actions[j].state.Ready?
      ensures Awaited(x, j) == {}
    {
      assert j != k && Awaited(b, j) == {};
      assert forall q <- Awaited(x, j) :: q in Awaited(b, j);
    }
  }

  lemma AwaitingStates(b: Batch, rec: Batch, k: Key, p: Key)
    requires k in b.actions && p in b.actions && k != p && b.actions[k].state.Running?
    requires rec.edges == b.edges && rec.actions == b.actions[k := b.actions[k].(lastFailure := Some(InputMissing))]
    requires Joins(rec.edges + {Edge(k, p)}, rec.actions.Keys) && Acyclic(rec.edges + {Edge(k, p)})
    ensures var x := AwaitingEdge(rec, k, p);
            && x.actions.Keys == b.actions.Keys && x.state == rec.state && x.class_ == rec.class_ && x.leases == rec.leases
            && x.edges == b.edges + {Edge(k, p)}
            && forall j <- b.actions ::
                 && x.actions[j] == b.actions[j].(
                      state := if j == k then Waiting else b.actions[j].state,
                      lastFailure := if j == k then Some(InputMissing) else b.actions[j].lastFailure,
                      priority := x.actions[j].priority)
                 && StateWithout(x, p, j) == if j == k then Waiting else StateWithout(b, p, j)
  {
    hide Acyclic, PriorityOf;
  }
}
