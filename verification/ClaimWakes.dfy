/** The claims waiting in one process: `claim`'s loop, the counter of actions made
    ready, and the wakes handed from one claim to the next. Tasks switch only where
    they await, so each event below is one uninterrupted stretch of code. */
module ClaimWakes {
  import opened Wrappers

  type Id = nat
  type Tier = string

  /** `woken`: done once a wake was handed to the claim. `release` is history: which
      release the wake is for. */
  datatype Future = Pending | Woken(tier: Tier, release: nat)

  datatype Phase =
    | Trying    // inside `_claim`
    | Sleeping  // waiting on its future, or about to run again
    | Checking  // asking whether its client has gone

  /** `seen` is the counter as it was when the last attempt began, `asleep` is
      history: the time it last went to sleep. */
  datatype Task = Task(tiers: set<Tier>, phase: Phase, seen: int, woken: Future, asleep: nat)

  /** History: what has become of the wake for one release. */
  datatype Fate = Held(holder: Id) | Tried(holder: Id) | Dropped

  datatype State = State(
    madeReady: int,
    tasks: map<Id, Task>,
    waiters: seq<Id>,
    clock: nat,              // history: how many times a claim went to sleep
    releases: seq<Tier>,     // history: the tier of each release
    fates: map<nat, Fate>)   // history: by release

  datatype Event =
    | Arrive(id: Id, tiers: set<Tier>)
    | Finish(id: Id)        // an attempt claims an action, or its time is up
    | Miss(id: Id)          // an attempt finds none, with time left
    | Resume(id: Id)        // a sleeping claim runs again: woken, or timed out
    | Retry(id: Id)         // the client is still there
    | Leave(id: Id)         // the client has gone
    | Cancel(id: Id)        // its task is cancelled, wherever it awaits
    | Release(tier: Tier)

  const EMPTY := State(0, map[], [], 0, [], map[])

  function Takes(t: Task, tier: Tier): bool {
    tier in t.tiers && t.woken.Pending?
  }

  /** The first waiter that takes the tier, or the number of waiters. */
  function FirstTaking(tasks: map<Id, Task>, waiters: seq<Id>, tier: Tier): (i: nat)
    ensures i <= |waiters|
    ensures forall k | 0 <= k < i :: waiters[k] in tasks ==> !Takes(tasks[waiters[k]], tier)
    ensures i < |waiters| ==> waiters[i] in tasks && Takes(tasks[waiters[i]], tier)
  {
    if waiters == [] then 0
    else if waiters[0] in tasks && Takes(tasks[waiters[0]], tier) then 0
    else 1 + FirstTaking(tasks, waiters[1..], tier)
  }

  function Removed(waiters: seq<Id>, id: Id): seq<Id> {
    if waiters == [] then [] else if waiters[0] == id then waiters[1..] else [waiters[0]] + Removed(waiters[1..], id)
  }

  /** `_wake_claim`, for the wake of release `k`. */
  function Wake(s: State, tier: Tier, k: nat): State {
    var i := FirstTaking(s.tasks, s.waiters, tier);
    if i == |s.waiters| then s.(madeReady := s.madeReady + 1, fates := s.fates[k := Dropped])
    else
      var id := s.waiters[i];
      s.(madeReady := s.madeReady + 1,
         waiters := s.waiters[..i] + s.waiters[i + 1..],
         tasks := s.tasks[id := s.tasks[id].(woken := Woken(tier, k))],
         fates := s.fates[k := Held(id)])
  }

  /** `_pass_wake` */
  function Pass(s: State, woken: Future): State {
    match woken
    case Pending => s
    case Woken(tier, k) => Wake(s.(madeReady := s.madeReady - 1), tier, k)
  }

  function Without(s: State, id: Id): State {
    s.(tasks := map u | u in s.tasks && u != id :: s.tasks[u], waiters := Removed(s.waiters, id))
  }

  function Put(s: State, id: Id, t: Task): State {
    s.(tasks := s.tasks[id := t])
  }

  function At(s: State, id: Id, phase: Phase): bool {
    id in s.tasks && s.tasks[id].phase == phase
  }

  function Try(s: State, id: Id, t: Task): State {
    Put(s, id, t.(phase := Trying, seen := s.madeReady)).(
      fates := match t.woken case Pending => s.fates case Woken(_, k) => s.fates[k := Tried(id)])
  }

  function Step(s: State, e: Event): State {
    match e
    case Arrive(id, tiers) =>
      if id in s.tasks then s else Try(s, id, Task(tiers, Trying, s.madeReady, Pending, 0))
    case Finish(id) => if At(s, id, Trying) then Without(s, id) else s
    case Miss(id) =>
      if !At(s, id, Trying) then s
      else
        var t := s.tasks[id].(woken := Pending);
        if s.madeReady == t.seen then
          Put(s, id, t.(phase := Sleeping, asleep := s.clock)).(waiters := s.waiters + [id], clock := s.clock + 1)
        else Put(s, id, t.(phase := Checking))
    case Resume(id) =>
      if At(s, id, Sleeping) then Put(s, id, s.tasks[id].(phase := Checking)).(waiters := Removed(s.waiters, id)) else s
    case Retry(id) => if At(s, id, Checking) then Try(s, id, s.tasks[id]) else s
    case Leave(id) => if At(s, id, Checking) then Pass(Without(s, id), s.tasks[id].woken) else s
    case Cancel(id) => if id in s.tasks then Pass(Without(s, id), s.tasks[id].woken) else s
    case Release(tier) => Wake(s.(releases := s.releases + [tier]), tier, |s.releases|)
  }

  function After(events: seq<Event>): State {
    if events == [] then EMPTY else Step(After(events[..|events| - 1]), events[|events| - 1])
  }

  /** What each event of a claim does to it: an attempt counts the releases before it; one
      that finds nothing puts the claim to sleep, last of all, exactly if there was no
      release since, and else has its client asked about. */
  ghost predicate Moves(s: State, e: Event, after: State) {
    match e
    case Arrive(id, tiers) => id !in s.tasks ==> At(after, id, Trying) && after.tasks[id].tiers == tiers && after.tasks[id].seen == |s.releases|
    case Finish(id) => At(s, id, Trying) ==> id !in after.tasks && id !in after.waiters
    case Miss(id) =>
      At(s, id, Trying) ==>
        if s.tasks[id].seen == |s.releases| then At(after, id, Sleeping) && after.waiters == s.waiters + [id]
        else At(after, id, Checking) && after.waiters == s.waiters
    case Resume(id) => At(s, id, Sleeping) ==> At(after, id, Checking) && id !in after.waiters && after.tasks[id].woken == s.tasks[id].woken
    case Retry(id) => At(s, id, Checking) ==> At(after, id, Trying) && after.tasks[id].seen == |s.releases|
    case Leave(id) => At(s, id, Checking) ==> id !in after.tasks && id !in after.waiters
    case Cancel(id) => id !in after.tasks && id !in after.waiters
    case Release(tier) => after.releases == s.releases + [tier]
  }

  // ------------------------------------------------------------ what every event keeps

  ghost predicate Asleep(s: State, id: Id) {
    id in s.tasks && s.tasks[id].phase == Sleeping && s.tasks[id].woken == Pending
  }

  /** The list is exactly the sleeping claims without a wake, the longest asleep first. */
  ghost predicate Queued(s: State) {
    && (forall id :: id in s.waiters <==> Asleep(s, id))
    && (forall id <- s.tasks :: Asleep(s, id) ==> s.tasks[id].asleep < s.clock)
    && (forall i, j | 0 <= i < j < |s.waiters| ::
          s.waiters[i] in s.tasks && s.waiters[j] in s.tasks && s.tasks[s.waiters[i]].asleep < s.tasks[s.waiters[j]].asleep)
  }

  lemma NextTaking(tasks: map<Id, Task>, waiters: seq<Id>, tier: Tier, i: nat)
    requires i < |waiters| && waiters[i] in tasks
    ensures FirstTaking(tasks, waiters[i..], tier) == if Takes(tasks[waiters[i]], tier) then 0 else 1 + FirstTaking(tasks, waiters[i + 1..], tier)
  {
    assert waiters[i..][1..] == waiters[i + 1..];
  }

  lemma WakeAt(s: State, tier: Tier, k: nat)
    ensures var (i, after) := (FirstTaking(s.tasks, s.waiters, tier), Wake(s, tier, k));
            && after.madeReady == s.madeReady + 1
            && if i == |s.waiters| then after.tasks == s.tasks && after.waiters == s.waiters
               else && after.tasks == s.tasks[s.waiters[i] := s.tasks[s.waiters[i]].(woken := Woken(tier, k))]
                    && after.waiters == s.waiters[..i] + s.waiters[i + 1..]
  {}

  lemma WaitersAreTasks(s: State)
    requires Queued(s)
    ensures forall id <- s.waiters :: id in s.tasks
  {}

  /** What became of a release's wake: a live claim has it and has yet to try; or its
      holder began an attempt after it; or no sleeping claim could have used it. */
  ghost predicate Accounted(s: State, k: nat)
    requires k < |s.releases|
  {
    && k in s.fates
    && match s.fates[k]
       case Held(id) => id in s.tasks && s.tasks[id].woken == Woken(s.releases[k], k) && s.tasks[id].phase != Trying
       case Tried(id) => id in s.tasks ==> s.tasks[id].seen > k
       case Dropped => forall id <- s.tasks :: Asleep(s, id) && s.releases[k] in s.tasks[id].tiers ==> s.tasks[id].seen > k
  }

  /** A claim's wake is its own: no two claims have the same. */
  ghost predicate Owned(s: State, id: Id)
    requires id in s.tasks
  {
    match s.tasks[id].woken
    case Pending => true
    case Woken(tier, k) =>
      && k < |s.releases| && tier == s.releases[k] && k in s.fates
      && s.fates[k] == (if s.tasks[id].phase == Trying then Tried(id) else Held(id))
  }

  ghost predicate Inv(s: State) {
    && s.madeReady == |s.releases|
    && (forall id <- s.tasks :: s.tasks[id].seen <= |s.releases|)
    && Queued(s)
    && (forall id <- s.tasks :: Owned(s, id))
    && (forall k | 0 <= k < |s.releases| :: Accounted(s, k))
  }

  /** All of `Inv` but that release `k` is not accounted for, nor in the counter, and no claim has its wake. */
  ghost predicate Loose(s: State, k: nat) {
    && k < |s.releases|
    && s.madeReady == |s.releases| - 1
    && (forall id <- s.tasks :: s.tasks[id].seen <= |s.releases|)
    && Queued(s)
    && (forall id <- s.tasks :: Owned(s, id))
    && (forall id <- s.tasks :: s.tasks[id].woken.Woken? ==> s.tasks[id].woken.release != k)
    && (forall i | 0 <= i < |s.releases| && i != k :: Accounted(s, i))
  }

  lemma SameQueue(s: State, after: State)
    requires Queued(s) && after.waiters == s.waiters && after.clock == s.clock
    requires forall id :: Asleep(s, id) <==> Asleep(after, id)
    requires forall id | Asleep(s, id) && Asleep(after, id) :: after.tasks[id].asleep == s.tasks[id].asleep
    ensures Queued(after)
  {
    forall i, j | 0 <= i < j < |after.waiters|
      ensures Asleep(after, after.waiters[i]) && Asleep(after, after.waiters[j])
      ensures after.tasks[after.waiters[i]].asleep < after.tasks[after.waiters[j]].asleep
    {
      assert s.waiters[i] in s.waiters && s.waiters[j] in s.waiters;
    }
  }

  lemma {:induction false} RemovedIs(waiters: seq<Id>, id: Id) returns (i: nat)
    ensures i <= |waiters|
    ensures i == |waiters| ==> id !in waiters && Removed(waiters, id) == waiters
    ensures i < |waiters| ==> waiters[i] == id && Removed(waiters, id) == waiters[..i] + waiters[i + 1..]
  {
    if waiters == [] {
      i := 0;
    } else if waiters[0] == id {
      i := 0;
    } else {
      var j := RemovedIs(waiters[1..], id);
      i := j + 1;
      if i < |waiters| {
        assert waiters[..i] == [waiters[0]] + waiters[1..][..j];
        assert waiters[i + 1..] == waiters[1..][j + 1..];
      }
    }
  }

  /** Taking the claim at `i` off the list, when it no longer sleeps without a wake. */
  lemma CutQueued(s: State, i: nat, tasks: map<Id, Task>)
    requires Queued(s) && i < |s.waiters|
    requires forall id | id != s.waiters[i] :: (id in tasks <==> id in s.tasks) && (id in tasks ==> tasks[id] == s.tasks[id])
    requires !Asleep(s.(tasks := tasks), s.waiters[i])
    ensures Queued(s.(tasks := tasks, waiters := s.waiters[..i] + s.waiters[i + 1..]))
  {
    var after := s.(tasks := tasks, waiters := s.waiters[..i] + s.waiters[i + 1..]);
    CutAt(s, i);
    hide Asleep;
    forall id
      ensures id in after.waiters <==> Asleep(after, id)
    {
      CutAsleep(s, i, tasks, id);
    }
    forall id | id in tasks && Asleep(after, id)
      ensures tasks[id].asleep < s.clock
    {
      CutAsleep(s, i, tasks, id);
    }
  }

  lemma CutAt(s: State, i: nat)
    requires Queued(s) && i < |s.waiters|
    ensures var cut := s.waiters[..i] + s.waiters[i + 1..];
            && (forall j | 0 <= j < |cut| :: cut[j] == s.waiters[if j < i then j else j + 1] && cut[j] != s.waiters[i])
            && (forall id :: id in cut <==> id in s.waiters && id != s.waiters[i])
  {
    var cut := s.waiters[..i] + s.waiters[i + 1..];
    hide Asleep;
    forall j | 0 <= j < |cut|
      ensures cut[j] == s.waiters[if j < i then j else j + 1] && cut[j] != s.waiters[i]
    {}
    forall id | id in s.waiters && id != s.waiters[i]
      ensures id in cut
    {
      var j :| 0 <= j < |s.waiters| && s.waiters[j] == id;
      assert cut[if j < i then j else j - 1] == id;
    }
  }

  lemma CutAsleep(s: State, i: nat, tasks: map<Id, Task>, id: Id)
    requires i < |s.waiters| && !Asleep(s.(tasks := tasks), s.waiters[i])
    requires id != s.waiters[i] ==> (id in tasks <==> id in s.tasks) && (id in tasks ==> tasks[id] == s.tasks[id])
    ensures Asleep(s.(tasks := tasks, waiters := s.waiters[..i] + s.waiters[i + 1..]), id) <==> Asleep(s, id) && id != s.waiters[i]
  {}

  lemma WakeQueued(s: State, tier: Tier, k: nat)
    requires Queued(s)
    ensures Queued(Wake(s, tier, k))
  {
    hide Queued;
    var i := FirstTaking(s.tasks, s.waiters, tier);
    var after := Wake(s, tier, k);
    if i < |s.waiters| {
      CutQueued(s, i, after.tasks);
      SameQueue(s.(tasks := after.tasks, waiters := after.waiters), after);
    } else {
      SameQueue(s, after);
    }
  }

  lemma WakeOwned(s: State, tier: Tier, k: nat, id: Id)
    requires Loose(s, k) && tier == s.releases[k] && id in s.tasks
    ensures id in Wake(s, tier, k).tasks && Owned(Wake(s, tier, k), id)
  {
    assert Owned(s, id);
    var i := FirstTaking(s.tasks, s.waiters, tier);
    if i < |s.waiters| {
      assert s.waiters[i] in s.waiters;
      assert Asleep(s, s.waiters[i]);
    }
  }

  /** A wake nobody took found no sleeping claim of its tier. */
  lemma WakeAccounted(s: State, tier: Tier, k: nat, j: nat)
    requires Loose(s, k) && tier == s.releases[k] && j < |s.releases|
    ensures Accounted(Wake(s, tier, k), j)
  {
    assert j != k ==> Accounted(s, j);
    var after := Wake(s, tier, k);
    var i := FirstTaking(s.tasks, s.waiters, tier);
    if i < |s.waiters| {
      assert s.waiters[i] in s.waiters;
      assert Asleep(s, s.waiters[i]);
      forall id | Asleep(after, id)
        ensures Asleep(s, id) && after.tasks[id] == s.tasks[id]
      {}
    } else {
      forall id <- s.tasks | Asleep(s, id)
        ensures tier !in s.tasks[id].tiers
      {
        assert id in s.waiters;
      }
    }
  }

  lemma WakeKeeps(s: State, tier: Tier, k: nat)
    requires Loose(s, k) && tier == s.releases[k]
    ensures Inv(Wake(s, tier, k))
  {
    hide Accounted, Queued, Owned;
    WakeQueued(s, tier, k);
    forall id <- s.tasks { WakeOwned(s, tier, k, id); }
    forall j | 0 <= j < |s.releases| { WakeAccounted(s, tier, k, j); }
    var after := Wake(s, tier, k);
    assert |after.releases| == |s.releases|;
    var i := FirstTaking(s.tasks, s.waiters, tier);
    if i < |s.waiters| {
      assert after.tasks.Keys == s.tasks.Keys;
    }
  }

  lemma WithoutQueued(s: State, id: Id, madeReady: int)
    requires Queued(s) && id in s.tasks
    ensures Queued(Without(s, id).(madeReady := madeReady))
  {
    var i := RemovedIs(s.waiters, id);
    var after := Without(s, id).(madeReady := madeReady);
    assert i == |s.waiters| ==> !Asleep(s, id);
    hide Queued, Removed;
    if i < |s.waiters| {
      CutQueued(s.(madeReady := madeReady), i, after.tasks);
    } else {
      SameQueue(s, after);
    }
  }

  lemma WithoutAccounted(s: State, id: Id, madeReady: int, k: nat)
    requires Inv(s) && id in s.tasks && k < |s.releases|
    requires s.tasks[id].woken.Woken? ==> k != s.tasks[id].woken.release
    ensures Accounted(Without(s, id).(madeReady := madeReady), k)
  {
    var after := Without(s, id).(madeReady := madeReady);
    assert Accounted(s, k);
    assert forall u | Asleep(after, u) :: Asleep(s, u) && after.tasks[u] == s.tasks[u];
  }

  /** A claim that goes leaves its wake, if it has one, to be accounted for. */
  lemma WithoutKeeps(s: State, id: Id)
    requires Inv(s) && id in s.tasks
    ensures match s.tasks[id].woken
            case Pending => Inv(Without(s, id))
            case Woken(_, k) => Loose(Without(s, id).(madeReady := s.madeReady - 1), k)
  {
    hide Queued, Accounted, Removed;
    var madeReady := if s.tasks[id].woken.Woken? then s.madeReady - 1 else s.madeReady;
    var after := Without(s, id).(madeReady := madeReady);
    WithoutQueued(s, id, madeReady);
    assert Owned(s, id);
    forall u | u in after.tasks
      ensures Owned(after, u)
      ensures s.tasks[id].woken.Woken? && after.tasks[u].woken.Woken? ==> after.tasks[u].woken.release != s.tasks[id].woken.release
    {
      assert Owned(s, u);
    }
    forall k | 0 <= k < |s.releases| && (s.tasks[id].woken.Woken? ==> k != s.tasks[id].woken.release) {
      WithoutAccounted(s, id, madeReady, k);
    }
  }

  lemma PassKeeps(s: State, id: Id)
    requires Inv(s) && id in s.tasks
    ensures Inv(Pass(Without(s, id), s.tasks[id].woken))
  {
    WithoutKeeps(s, id);
    assert Owned(s, id);
    match s.tasks[id].woken
    case Pending =>
    case Woken(tier, k) => WakeKeeps(Without(s, id).(madeReady := s.madeReady - 1), tier, k);
  }

  /** A claim that begins an attempt has used its wake. */
  lemma TryKeeps(s: State, id: Id, t: Task)
    requires Inv(s) && t.phase != Sleeping
    requires if id in s.tasks then s.tasks[id] == t && t.phase == Checking else t.woken == Pending
    ensures Inv(Try(s, id, t))
  {
    var after := Try(s, id, t);
    assert id in s.tasks ==> Owned(s, id);
    SameQueue(s, after);
    forall u <- after.tasks
      ensures Owned(after, u)
    {
      assert u in s.tasks ==> Owned(s, u);
    }
    forall k | 0 <= k < |s.releases|
      ensures Accounted(after, k)
    {
      assert Accounted(s, k);
    }
  }

  lemma FinishKeeps(s: State, id: Id)
    requires Inv(s) && At(s, id, Trying)
    ensures Inv(Without(s, id))
  {
    var after := Without(s, id);
    WithoutQueued(s, id, s.madeReady);
    assert after == Without(s, id).(madeReady := s.madeReady);
    forall u <- after.tasks
      ensures Owned(after, u)
    {
      assert Owned(s, u);
    }
    forall k | 0 <= k < |s.releases|
      ensures Accounted(after, k)
    {
      assert Accounted(s, k);
      assert forall u | Asleep(after, u) :: Asleep(s, u) && after.tasks[u] == s.tasks[u];
    }
  }

  lemma ResumeQueued(s: State, id: Id)
    requires Queued(s) && At(s, id, Sleeping)
    ensures Queued(Step(s, Resume(id)))
  {
    var after := Step(s, Resume(id));
    var i := RemovedIs(s.waiters, id);
    assert id in s.waiters <==> Asleep(s, id);
    assert after == s.(tasks := after.tasks, waiters := Removed(s.waiters, id)) && !Asleep(s.(tasks := after.tasks), id);
    assert forall u | u != id :: (u in after.tasks <==> u in s.tasks) && (u in after.tasks ==> after.tasks[u] == s.tasks[u]);
    hide Queued, Step, Removed;
    if i < |s.waiters| {
      CutQueued(s, i, after.tasks);
    } else {
      SameQueue(s, after);
    }
  }

  lemma ResumeKeeps(s: State, id: Id)
    requires Inv(s) && At(s, id, Sleeping)
    ensures Inv(Step(s, Resume(id)))
  {
    var after := Step(s, Resume(id));
    ResumeQueued(s, id);
    hide Queued, Removed;
    assert Owned(s, id);
    forall u <- after.tasks
      ensures Owned(after, u)
    {
      assert Owned(s, u);
    }
    forall k | 0 <= k < |s.releases|
      ensures Accounted(after, k)
    {
      assert Accounted(s, k);
      assert forall u | Asleep(after, u) :: Asleep(s, u) && after.tasks[u] == s.tasks[u];
    }
  }

  lemma SleepQueued(s: State, id: Id, tiers: set<Tier>, seen: int)
    requires Queued(s) && !Asleep(s, id)
    ensures Queued(Put(s, id, Task(tiers, Sleeping, seen, Pending, s.clock)).(waiters := s.waiters + [id], clock := s.clock + 1))
  {
    var after := Put(s, id, Task(tiers, Sleeping, seen, Pending, s.clock)).(waiters := s.waiters + [id], clock := s.clock + 1);
    forall u
      ensures u in after.waiters <==> Asleep(after, u)
    {
      assert u in s.waiters <==> Asleep(s, u);
    }
    forall i | 0 <= i < |s.waiters|
      ensures after.waiters[i] == s.waiters[i] && Asleep(s, s.waiters[i]) && s.waiters[i] != id
    {
      assert s.waiters[i] in s.waiters;
    }
  }

  /** A claim goes to sleep only when nothing was made ready since its attempt began. */
  lemma MissKeeps(s: State, id: Id)
    requires Inv(s) && At(s, id, Trying)
    ensures Inv(Step(s, Miss(id)))
  {
    var after := Step(s, Miss(id));
    assert Owned(s, id) && !Asleep(s, id);
    if s.madeReady == s.tasks[id].seen {
      SleepQueued(s, id, s.tasks[id].tiers, s.tasks[id].seen);
    } else {
      SameQueue(s, after);
    }
    forall u <- after.tasks
      ensures Owned(after, u)
    {
      assert Owned(s, u);
    }
    forall k | 0 <= k < |s.releases|
      ensures Accounted(after, k)
    {
      assert Accounted(s, k);
    }
  }

  lemma ReleaseKeeps(s: State, tier: Tier)
    requires Inv(s)
    ensures Inv(Step(s, Release(tier)))
  {
    var next := s.(releases := s.releases + [tier]);
    SameQueue(s, next);
    forall u <- next.tasks
      ensures Owned(next, u)
      ensures next.tasks[u].woken.Woken? ==> next.tasks[u].woken.release < |s.releases|
    {
      assert Owned(s, u);
    }
    forall k | 0 <= k < |s.releases|
      ensures Accounted(next, k)
    {
      assert Accounted(s, k);
      assert forall u | Asleep(next, u) :: Asleep(s, u);
    }
    WakeKeeps(next, tier, |s.releases|);
  }

  lemma StepKeeps(s: State, e: Event)
    requires Inv(s)
    ensures Inv(Step(s, e))
  {
    hide Inv;
    match e
    case Arrive(id, tiers) => if id !in s.tasks { TryKeeps(s, id, Task(tiers, Trying, s.madeReady, Pending, 0)); }
    case Finish(id) => if At(s, id, Trying) { FinishKeeps(s, id); }
    case Miss(id) => if At(s, id, Trying) { MissKeeps(s, id); }
    case Resume(id) => if At(s, id, Sleeping) { ResumeKeeps(s, id); }
    case Retry(id) => if At(s, id, Checking) { TryKeeps(s, id, s.tasks[id]); }
    case Leave(id) => if At(s, id, Checking) { PassKeeps(s, id); }
    case Cancel(id) => if id in s.tasks { PassKeeps(s, id); }
    case Release(tier) => ReleaseKeeps(s, tier);
  }

  // ------------------------------------------------------------ the theorems

  /** A sleeping claim without a wake began its last attempt after every release of a
      tier it takes, but for releases whose wake another live claim still holds or has
      begun an attempt with. */
  ghost predicate NothingMissed(s: State, id: Id, k: nat)
    requires k < |s.releases|
  {
    Asleep(s, id) && s.releases[k] in s.tasks[id].tiers && s.tasks[id].seen <= k ==>
      k in s.fates &&
      match s.fates[k]
      case Held(u) => u != id && u in s.tasks && s.tasks[u].woken == Woken(s.releases[k], k)
      case Tried(u) => u != id && (u in s.tasks ==> s.tasks[u].seen > k)
      case Dropped => false
  }

  lemma {:induction false} NoLostWake(events: seq<Event>)
    ensures var s := After(events);
            Inv(s) && forall id, k | 0 <= k < |s.releases| :: NothingMissed(s, id, k)
  {
    hide Step, Inv, NothingMissed;
    if events != [] {
      NoLostWake(events[..|events| - 1]);
      StepKeeps(After(events[..|events| - 1]), events[|events| - 1]);
    } else {
      EmptyKeeps();
    }
    var s := After(events);
    forall id, k | 0 <= k < |s.releases| { InvMissesNothing(s, id, k); }
  }

  lemma EmptyKeeps()
    ensures Inv(EMPTY)
  {}

  lemma InvMissesNothing(s: State, id: Id, k: nat)
    requires Inv(s) && k < |s.releases|
    ensures NothingMissed(s, id, k)
  {
    assert Accounted(s, k);
  }

  lemma SleepStep(s: State, e: Event, id: Id)
    requires Inv(s) && !Asleep(s, id) && Asleep(Step(s, e), id)
    ensures e == Miss(id) && Step(s, e).tasks[id].seen == |Step(s, e).releases|
  {
    match e
    case Leave(u) => if At(s, u, Checking) { WokenOrSame(Without(s, u), s.tasks[u].woken, id); }
    case Cancel(u) => if u in s.tasks { WokenOrSame(Without(s, u), s.tasks[u].woken, id); }
    case _ =>
  }

  /** Passing a wake puts no claim to sleep. */
  lemma WokenOrSame(s: State, woken: Future, id: Id)
    requires Asleep(Pass(s, woken), id)
    ensures Asleep(s, id)
  {
  }

  /** The claim a wake goes to sleeps longest of those that take its tier. */
  ghost predicate Longest(s: State, id: Id, tier: Tier) {
    && Asleep(s, id) && tier in s.tasks[id].tiers
    && forall u | Asleep(s, u) && tier in s.tasks[u].tiers :: u != id ==> s.tasks[id].asleep < s.tasks[u].asleep
  }

  lemma WakeStep(s: State, tier: Tier, k: nat)
    requires Queued(s)
    ensures var after := Wake(s, tier, k);
            match after.fates[k]
            case Held(id) => Longest(s, id, tier) && after.tasks == s.tasks[id := s.tasks[id].(woken := Woken(tier, k))]
            case Dropped => after.tasks == s.tasks && forall u | Asleep(s, u) :: tier !in s.tasks[u].tiers
            case Tried(_) => false
  {
    var i := FirstTaking(s.tasks, s.waiters, tier);
    if i < |s.waiters| {
      assert s.waiters[i] in s.waiters;
      forall u | Asleep(s, u) && tier in s.tasks[u].tiers && u != s.waiters[i]
        ensures s.tasks[s.waiters[i]].asleep < s.tasks[u].asleep
      {
        var j :| 0 <= j < |s.waiters| && s.waiters[j] == u;
      }
    } else {
      forall u | Asleep(s, u)
        ensures tier !in s.tasks[u].tiers
      {
        assert u in s.waiters;
      }
    }
  }

  lemma HeldStep(s: State, e: Event, k: nat, id: Id)
    requires Inv(s) && k < |s.releases| && k in s.fates && s.fates[k] == Held(id)
    ensures var after := Step(s, e);
            k in after.fates &&
            match after.fates[k]
            case Held(u) => u == id || ((e == Leave(id) || e == Cancel(id)) && Longest(Without(s, id), u, s.releases[k]))
            case Tried(u) => u == id && e == Retry(id) && At(after, id, Trying) && after.tasks[id].seen > k
            case Dropped => (e == Leave(id) || e == Cancel(id)) &&
                            forall u | Asleep(s, u) && u != id :: s.releases[k] !in s.tasks[u].tiers
  {
    assert Accounted(s, k);
    match e
    case Leave(u) => if At(s, u, Checking) { PassMoves(s, u, k, id); }
    case Cancel(u) => if u in s.tasks { PassMoves(s, u, k, id); }
    case Release(tier) =>
    case _ => assert forall u <- s.tasks :: Owned(s, u);
  }

  lemma PassMoves(s: State, leaver: Id, k: nat, id: Id)
    requires Inv(s) && leaver in s.tasks
    requires k < |s.releases| && k in s.fates && s.fates[k] == Held(id)
    ensures var after := Pass(Without(s, leaver), s.tasks[leaver].woken);
            k in after.fates &&
            if leaver != id then after.fates[k] == Held(id)
            else match after.fates[k]
              case Held(u) => Longest(Without(s, id), u, s.releases[k])
              case Tried(_) => false
              case Dropped => forall u | Asleep(s, u) && u != id :: s.releases[k] !in s.tasks[u].tiers
  {
    assert Accounted(s, k) && Owned(s, leaver);
    hide Queued, Accounted, Removed, Inv, Wake, Asleep, Longest;
    if leaver == id {
      HolderPasses(s, id, k);
    } else {
      WokenElsewhere(s, leaver, k);
    }
  }

  lemma WokenElsewhere(s: State, leaver: Id, k: nat)
    requires leaver in s.tasks && k in s.fates && (s.tasks[leaver].woken.Woken? ==> s.tasks[leaver].woken.release != k)
    ensures var after := Pass(Without(s, leaver), s.tasks[leaver].woken); k in after.fates && after.fates[k] == s.fates[k]
  {
    hide FirstTaking;
  }

  lemma HolderPasses(s: State, id: Id, k: nat)
    requires Queued(s) && id in s.tasks && k < |s.releases| && s.tasks[id].woken == Woken(s.releases[k], k)
    ensures var after := Pass(Without(s, id), s.tasks[id].woken);
            k in after.fates &&
            match after.fates[k]
            case Held(u) => Longest(Without(s, id), u, s.releases[k])
            case Tried(_) => false
            case Dropped => forall u | Asleep(s, u) && u != id :: s.releases[k] !in s.tasks[u].tiers
  {
    var without := Without(s, id).(madeReady := s.madeReady - 1);
    WithoutQueued(s, id, s.madeReady - 1);
    forall u { AsleepWithout(s, id, s.madeReady - 1, u); }
    forall u { AsleepWithout(s, id, s.madeReady, u); }
    assert k in Wake(without, s.releases[k], k).fates;
    hide Wake, Asleep, Queued;
    WakeStep(without, s.releases[k], k);
  }

  lemma AsleepWithout(s: State, id: Id, madeReady: int, u: Id)
    ensures Asleep(Without(s, id).(madeReady := madeReady), u) <==> Asleep(s, u) && u != id
  {}

  lemma HolderStep(s: State, k: nat, id: Id)
    requires Inv(s) && k < |s.releases| && k in s.fates && s.fates[k] == Held(id)
    ensures At(s, id, Sleeping) || At(s, id, Checking)
    ensures At(Step(s, Resume(id)), id, Checking)
    ensures k in Step(Step(s, Resume(id)), Retry(id)).fates && Step(Step(s, Resume(id)), Retry(id)).fates[k] == Tried(id)
  {
    assert Accounted(s, k);
  }

  /** After any events, at the moment a claim goes to sleep every release so far came
      before its attempt began. */
  lemma SleepsKnowing(events: seq<Event>, e: Event, id: Id)
    requires !Asleep(After(events), id) && Asleep(After(events + [e]), id)
    ensures e == Miss(id) && After(events + [e]).tasks[id].seen == |After(events + [e]).releases|
  {
    NoLostWake(events);
    OneEventMore(events, e);
    SleepStep(After(events), e, id);
  }

  lemma OneEventMore(events: seq<Event>, e: Event)
    ensures After(events + [e]) == Step(After(events), e)
  {
    assert (events + [e])[..|events|] == events;
  }

  /** After any events, a release's wake goes to the longest sleeping claim that takes its
      tier, and is dropped only when none sleeps for it. */
  lemma WakesLongest(events: seq<Event>, tier: Tier)
    ensures var (s, after) := (After(events), After(events + [Release(tier)]));
            var k := |s.releases|;
            && after.releases == s.releases + [tier] && k in after.fates
            && match after.fates[k]
               case Held(id) => Longest(s, id, tier) && after.tasks == s.tasks[id := s.tasks[id].(woken := Woken(tier, k))]
               case Dropped => after.tasks == s.tasks && forall u | Asleep(s, u) :: tier !in s.tasks[u].tiers
               case Tried(_) => false
  {
    NoLostWake(events);
    OneEventMore(events, Release(tier));
    var s := After(events);
    var next := s.(releases := s.releases + [tier]);
    SameQueue(s, next);
    assert forall id :: Asleep(s, id) <==> Asleep(next, id);
    hide Wake;
    WakeStep(next, tier, |s.releases|);
    WakeKeepsReleases(next, tier, |s.releases|);
  }

  lemma WakeKeepsReleases(s: State, tier: Tier, k: nat)
    ensures Wake(s, tier, k).releases == s.releases && k in Wake(s, tier, k).fates
  {}

  /** After any events, a handed wake stays with its holder until the holder begins an
      attempt, or leaves and passes it to the longest asleep of its tier; it is dropped
      only when no claim of the tier sleeps without one. */
  lemma HeldWakeMoves(events: seq<Event>, e: Event, k: nat, id: Id)
    requires var s := After(events); k < |s.releases| && k in s.fates && s.fates[k] == Held(id)
    ensures var (s, after) := (After(events), After(events + [e]));
            k in after.fates &&
            match after.fates[k]
            case Held(u) => u == id || ((e == Leave(id) || e == Cancel(id)) && Longest(Without(s, id), u, s.releases[k]))
            case Tried(u) => u == id && e == Retry(id) && At(after, id, Trying) && after.tasks[id].seen > k
            case Dropped => (e == Leave(id) || e == Cancel(id)) &&
                            forall u | Asleep(s, u) && u != id :: s.releases[k] !in s.tasks[u].tiers
  {
    NoLostWake(events);
    OneEventMore(events, e);
    hide Step, After, Inv;
    HeldStep(After(events), e, k, id);
  }

  /** And nothing keeps the holder from that attempt: after any events it is never in one
      it began before the wake, nor back asleep, so its own next events are to run again
      and to try or leave. */
  lemma HolderIsDue(events: seq<Event>, k: nat, id: Id)
    requires var s := After(events); k < |s.releases| && k in s.fates && s.fates[k] == Held(id)
    ensures At(After(events), id, Sleeping) || At(After(events), id, Checking)
    ensures At(After(events + [Resume(id)]), id, Checking)
    ensures k in After(events + [Resume(id), Retry(id)]).fates && After(events + [Resume(id), Retry(id)]).fates[k] == Tried(id)
  {
    NoLostWake(events);
    HolderStep(After(events), k, id);
    OneEventMore(events, Resume(id));
    OneEventMore(events + [Resume(id)], Retry(id));
    assert events + [Resume(id)] + [Retry(id)] == events + [Resume(id), Retry(id)];
    hide After, Inv;
  }

  // ------------------------------------------------------------ the loops themselves

  /** After any events, the next does to its claim what it should; and every claim takes the
      tiers it came with. */
  lemma ClaimsMove(events: seq<Event>, e: Event)
    ensures Moves(After(events), e, After(events + [e]))
    ensures forall id <- After(events).tasks :: id in After(events + [e]).tasks ==> After(events + [e]).tasks[id].tiers == After(events).tasks[id].tiers
  {
    NoLostWake(events);
    NoLostWake(events + [e]);
    OneEventMore(events, e);
    var s := After(events);
    match e
    case Leave(id) => if At(s, id, Checking) { PassKeepsTasks(Without(s, id), s.tasks[id].woken); }
    case Cancel(id) => if id in s.tasks { PassKeepsTasks(Without(s, id), s.tasks[id].woken); }
    case Release(tier) =>
      WakeKeepsReleases(s.(releases := s.releases + [tier]), tier, |s.releases|);
      PassKeepsTasks(s.(madeReady := s.madeReady + 1, releases := s.releases + [tier]), Woken(tier, |s.releases|));
    case _ =>
  }

  lemma PassKeepsTasks(s: State, woken: Future)
    ensures Pass(s, woken).tasks.Keys == s.tasks.Keys
    ensures forall id <- s.tasks :: Pass(s, woken).tasks[id].tiers == s.tasks[id].tiers
  {}

  /** The process's fields, as the coordinator object holds them. */
  class Process {
    var madeReady: int
    var tasks: map<Id, Task>
    var waiters: seq<Id>

    /** The fields, with the history they carry no trace of. */
    ghost function Fields(s: State): State
      reads this
    {
      s.(madeReady := madeReady, tasks := tasks, waiters := waiters)
    }

    method WakeClaim(tier: Tier, k: nat, ghost s: State)
      requires Fields(s) == s && Queued(s)
      modifies this
      ensures Fields(Wake(s, tier, k)) == Wake(s, tier, k)
    {
      WaitersAreTasks(s);
      hide Queued, Takes, FirstTaking, Wake;
      madeReady := madeReady + 1;
      var i := 0;
      while i < |waiters|
        invariant i <= |waiters|
        invariant waiters == s.waiters && tasks == s.tasks && madeReady == s.madeReady + 1
        invariant FirstTaking(s.tasks, s.waiters, tier) == i + FirstTaking(s.tasks, s.waiters[i..], tier)
      {
        var id := waiters[i];
        assert id in s.waiters;
        NextTaking(s.tasks, s.waiters, tier, i);
        WakeAt(s, tier, k);
        if Takes(tasks[id], tier) {
          tasks := tasks[id := tasks[id].(woken := Woken(tier, k))];
          waiters := waiters[..i] + waiters[i + 1..];
          return;
        }
        i := i + 1;
      }
      WakeAt(s, tier, k);
    }

    method PassWake(woken: Future, ghost s: State)
      requires Fields(s) == s && Queued(s)
      modifies this
      ensures Fields(Pass(s, woken)) == Pass(s, woken)
    {
      match woken {
        case Pending =>
        case Woken(tier, k) =>
          madeReady := madeReady - 1;
          ghost var less := s.(madeReady := s.madeReady - 1);
          SameQueue(s, less);
          WakeClaim(tier, k, less);
      }
    }
  }
}
