/** Claims running at the same time, in any number of coordinators: what each
    statement of `_claim` sees and locks, and why run actions stay under their cap. */
module RunAdmission {
  import opened Wrappers

  type Transaction = nat

  datatype Job = Job(id: nat, run: bool, high: bool)

  /** Where a claim's transaction stands. `Counting` has what its
      second statement's snapshot saw: the number of running runs and the ready actions; `Picked` holds a row lock. */
  datatype Phase =
    | Asking
    | Counting(seen: nat, visible: set<Job>)
    | Picked(job: Job)
    | WantsLock

  datatype State = State(
    running: set<Job>,                      // running run actions, as committed
    ready: set<Job>,                        // ready actions, as committed
    claims: map<Transaction, Phase>,
    tiers: map<Transaction, set<bool>>,     // the tiers each claim takes, by "is it high"
    holder: Option<Transaction>,            // of the advisory lock
    buildsSeen: map<Transaction, set<Job>>) // history: what the first statement could have claimed

  datatype Event =
    | First(t: Transaction, takes: set<bool>, choice: Option<Job>)
    | Acquire(t: Transaction)
    | Snapshot(t: Transaction)
    | Second(t: Transaction, choice: Option<Job>)
    | Commit(t: Transaction)
    | Rollback(t: Transaction)
    | MadeReady(job: Job)
    | Unready(job: Job)
    | Ended(job: Job)

  function Locked(s: State): set<Job> {
    set t | t in s.claims && s.claims[t].Picked? :: s.claims[t].job
  }

  /** What `CLAIM` can return: ready, of the tiers, not locked, and a build unless
      runs are allowed. */
  function Claimable(s: State, takes: set<bool>, runs: bool): set<Job> {
    set j | j in s.ready && j.high in takes && j !in Locked(s) && (!j.run || runs)
  }

  function Builds(jobs: set<Job>): set<Job> {
    set j | j in jobs && !j.run
  }

  function Leave(s: State, t: Transaction): State {
    s.(claims := map u | u in s.claims && u != t :: s.claims[u],
       holder := if s.holder == Some(t) then None else s.holder)
  }

  /** One statement of one claim, or another transaction's commit. An event that
      is not possible changes nothing. */
  function Step(s: State, e: Event, slots: nat): State {
    match e
    // The first statement, with runs not allowed; then whether any run is ready.
    case First(t, takes, choice) =>
      var builds := Claimable(s, takes, false);
      if t in s.claims || t in s.buildsSeen then s
      else if builds != {} then
        if choice.Some? && choice.value in builds then
          s.(claims := s.claims[t := Picked(choice.value)], tiers := s.tiers[t := takes], buildsSeen := s.buildsSeen[t := builds])
        else s
      else if slots != 0 && exists j <- s.ready :: j.run && j.high in takes then
        s.(claims := s.claims[t := WantsLock], tiers := s.tiers[t := takes], buildsSeen := s.buildsSeen[t := builds])
      else s
    case Acquire(t) =>
      if t in s.claims && s.claims[t].WantsLock? && s.holder.None? then
        s.(claims := s.claims[t := Asking], holder := Some(t))
      else s
    // The second statement's snapshot, taken once the lock is held.
    case Snapshot(t) =>
      if t in s.claims && s.claims[t].Asking? then s.(claims := s.claims[t := Counting(|s.running|, s.ready)]) else s
    // Its row lock, at any later time: a build before a run, a run only under the cap it counted.
    case Second(t, choice) =>
      if t in s.claims && t in s.tiers && s.claims[t].Counting? then
        var open := Claimable(s, s.tiers[t], s.claims[t].seen < slots) * s.claims[t].visible;
        if open == {} then Leave(s, t)
        else if choice.Some? && choice.value in open && (choice.value.run ==> Builds(open) == {}) then
          s.(claims := s.claims[t := Picked(choice.value)])
        else s
      else s
    case Commit(t) =>
      if t in s.claims && s.claims[t].Picked? then
        var j := s.claims[t].job;
        Leave(s.(ready := s.ready - {j}, running := if j.run then s.running + {j} else s.running), t)
      else s
    case Rollback(t) => Leave(s, t)
    // Releases, re-queues, completions, expiries and cancels. A row one claim holds is not theirs to change.
    case MadeReady(j) => if j !in s.running && j !in Locked(s) then s.(ready := s.ready + {j}) else s
    case Unready(j) => if j !in Locked(s) then s.(ready := s.ready - {j}) else s
    case Ended(j) => s.(running := s.running - {j})
  }

  const IDLE := State({}, {}, map[], map[], None, map[])

  function After(events: seq<Event>, slots: nat): State {
    if events == [] then IDLE else Step(After(events[..|events| - 1], slots), events[|events| - 1], slots)
  }

  ghost predicate NeedsLock(p: Phase) {
    p.Asking? || p.Counting? || (p.Picked? && p.job.run)
  }

  ghost predicate Inv(s: State, slots: nat) {
    && |s.running| <= slots
    // Whoever counts runs, or has picked one, holds the lock, and there is one lock.
    && (forall t <- s.claims :: NeedsLock(s.claims[t]) ==> s.holder == Some(t))
    && (s.holder.Some? ==> s.holder.value in s.claims)
    // No run has started since a claim counted them.
    && (forall t <- s.claims :: s.claims[t].Counting? ==> |s.running| <= s.claims[t].seen)
    && (forall t <- s.claims :: s.claims[t].Picked? && s.claims[t].job.run ==> |s.running| < slots)
    && (forall t <- s.claims :: t in s.buildsSeen)
    && (forall t <- s.claims :: s.holder == Some(t) || s.claims[t].WantsLock? ==> s.buildsSeen[t] == {})
  }

  lemma RemovalShrinks(s: set<Job>, j: Job)
    ensures |s - {j}| <= |s|
  {
    if j in s { assert |s - {j}| == |s| - 1; } else { assert s - {j} == s; }
  }

  /** A commit: a picked run joins the running ones under the lock, which no one else counting can hold. */
  lemma CommitKeeps(s: State, t: Transaction, slots: nat)
    requires Inv(s, slots) && t in s.claims && s.claims[t].Picked?
    ensures Inv(Step(s, Commit(t), slots), slots)
  {
    if s.claims[t].job.run {
      assert |s.running + {s.claims[t].job}| <= |s.running| + 1;
      forall u | u in s.claims && u != t
        ensures !NeedsLock(s.claims[u])
      {}
    }
  }

  lemma EndedKeeps(s: State, j: Job, slots: nat)
    requires Inv(s, slots)
    ensures Inv(Step(s, Ended(j), slots), slots)
  {
    RemovalShrinks(s.running, j);
  }

  lemma SecondKeeps(s: State, t: Transaction, choice: Option<Job>, slots: nat)
    requires Inv(s, slots)
    ensures Inv(Step(s, Second(t, choice), slots), slots)
  {
    hide Locked;
  }

  lemma FirstKeeps(s: State, t: Transaction, takes: set<bool>, choice: Option<Job>, slots: nat)
    requires Inv(s, slots)
    ensures Inv(Step(s, First(t, takes, choice), slots), slots)
  {
    hide Locked;
  }

  lemma StepKeeps(s: State, e: Event, slots: nat)
    requires Inv(s, slots)
    ensures Inv(Step(s, e, slots), slots)
  {
    match e
    case First(t, takes, choice) => FirstKeeps(s, t, takes, choice, slots);
    case Second(t, choice) => SecondKeeps(s, t, choice, slots);
    case Ended(j) => EndedKeeps(s, j, slots);
    case Commit(t) => if t in s.claims && s.claims[t].Picked? { CommitKeeps(s, t, slots); }
    case _ => hide Locked, Claimable;
  }

  /** For any number of claims and coordinators, and whatever else commits between
      a claim's lock, its count and its commit, no more run actions run than there
      are slots; and a claim that could have had a build never took the lock. */
  lemma {:induction false} RunCap(events: seq<Event>, slots: nat)
    ensures var s := After(events, slots);
            |s.running| <= slots && Inv(s, slots) &&
            forall t :: s.holder == Some(t) && t in s.claims ==> s.buildsSeen[t] == {}
  {
    if events != [] {
      RunCap(events[..|events| - 1], slots);
      StepKeeps(After(events[..|events| - 1], slots), events[|events| - 1], slots);
    }
  }

  // ------------------------------------------------------------ what each claim gets

  /** Each claim under way takes the tiers it said it would when it began. */
  ghost predicate Began(events: seq<Event>, t: Transaction, takes: set<bool>) {
    exists i, choice :: 0 <= i < |events| && events[i] == First(t, takes, choice)
  }

  ghost predicate AllBegan(events: seq<Event>, s: State) {
    forall t <- s.claims :: t in s.tiers && Began(events, t, s.tiers[t])
  }

  /** Whoever holds a row holds one that is ready, of a tier it takes, and no one else holds it. */
  ghost predicate Holding(s: State) {
    && (forall t <- s.claims :: s.claims[t].Picked? ==> t in s.tiers && s.claims[t].job in s.ready && s.claims[t].job.high in s.tiers[t])
    && (forall t, u :: t in s.claims && u in s.claims && s.claims[t].Picked? && s.claims[u].Picked? && s.claims[t].job == s.claims[u].job ==> t == u)
    && (forall t <- s.claims :: t in s.buildsSeen)
  }

  lemma BeganStill(events: seq<Event>, e: Event, t: Transaction, takes: set<bool>)
    requires Began(events, t, takes)
    ensures Began(events + [e], t, takes)
  {
    var i, choice :| 0 <= i < |events| && events[i] == First(t, takes, choice);
    assert (events + [e])[i] == First(t, takes, choice);
  }

  lemma BeganStep(events: seq<Event>, s: State, e: Event, slots: nat)
    requires AllBegan(events, s)
    ensures AllBegan(events + [e], Step(s, e, slots))
  {
    var after := Step(s, e, slots);
    forall t | t in after.claims
      ensures t in after.tiers && Began(events + [e], t, after.tiers[t])
    {
      hide Began, Claimable, Locked, Builds;
      if t in s.claims {
        BeganStill(events, e, t, s.tiers[t]);
      } else {
        BeganNow(events, t, e.takes, e.choice);
      }
    }
  }

  lemma BeganNow(events: seq<Event>, t: Transaction, takes: set<bool>, choice: Option<Job>)
    ensures Began(events + [First(t, takes, choice)], t, takes)
  {
    assert (events + [First(t, takes, choice)])[|events|] == First(t, takes, choice);
  }

  lemma IsLocked(s: State)
    ensures forall t <- s.claims :: s.claims[t].Picked? ==> s.claims[t].job in Locked(s)
  {}

  lemma HoldingStep(s: State, e: Event, slots: nat)
    requires Holding(s)
    ensures Holding(Step(s, e, slots))
  {
    match e
    case First(t, takes, choice) => HoldingFirst(s, t, takes, choice, slots);
    case Second(t, choice) => HoldingSecond(s, t, choice, slots);
    case _ =>
      IsLocked(s);
      hide Locked, Claimable;
  }

  lemma HoldingFirst(s: State, t: Transaction, takes: set<bool>, choice: Option<Job>, slots: nat)
    requires Holding(s)
    ensures Holding(Step(s, First(t, takes, choice), slots))
  {
    IsLocked(s);
    hide Locked;
  }

  lemma HoldingSecond(s: State, t: Transaction, choice: Option<Job>, slots: nat)
    requires Holding(s)
    ensures Holding(Step(s, Second(t, choice), slots))
  {
    IsLocked(s);
    hide Locked;
  }

  /** After any events, a row claimed is ready, of a tier its claim asked for, and claimed once. */
  lemma {:induction false} ClaimsAreOfTheirTiers(events: seq<Event>, slots: nat)
    ensures AllBegan(events, After(events, slots)) && Holding(After(events, slots))
  {
    if events != [] {
      var init, e := events[..|events| - 1], events[|events| - 1];
      ClaimsAreOfTheirTiers(init, slots);
      hide AllBegan, Holding, Step;
      BeganStep(init, After(init, slots), e, slots);
      HoldingStep(After(init, slots), e, slots);
      assert init + [e] == events;
    }
  }

  lemma LockedIsPicked(s: State, j: Job)
    ensures j in Locked(s) <==> exists u <- s.claims :: s.claims[u] == Picked(j)
  {
    if u :| u in s.claims && s.claims[u] == Picked(j) { assert s.claims[u].job in Locked(s); }
  }

  /** The first statement picks a build exactly if it is ready, of the claim's tiers, and
      no other claim holds it. */
  lemma FirstPicks(s: State, t: Transaction, takes: set<bool>, j: Job, slots: nat)
    requires t !in s.claims && t !in s.buildsSeen
    ensures var after := Step(s, First(t, takes, Some(j)), slots);
            (t in after.claims && after.claims[t] == Picked(j)) <==>
            j in s.ready && !j.run && j.high in takes && forall u <- s.claims :: s.claims[u] != Picked(j)
  {
    LockedIsPicked(s, j);
    var builds := Claimable(s, takes, false);
    assert j in builds <==> j in s.ready && !j.run && j.high in takes && j !in Locked(s);
    hide Locked, Claimable;
    assert j in builds ==> builds != {};
    var after := Step(s, First(t, takes, Some(j)), slots);
    if t in after.claims && after.claims[t] == Picked(j) {
      assert j in builds;
    }
  }

  ghost predicate CanPick(s: State, t: Transaction, j: Job)
    requires t in s.claims && t in s.tiers && s.claims[t].Counting?
  {
    j in s.ready && j in s.claims[t].visible && j.high in s.tiers[t] && forall u <- s.claims :: s.claims[u] != Picked(j)
  }

  /** The second picks what its snapshot showed, under the same conditions: a build, or a
      run if there is no build to pick and fewer ran than there are slots. */
  lemma SecondPicks(s: State, t: Transaction, j: Job, slots: nat)
    requires t in s.claims && t in s.tiers && s.claims[t].Counting?
    ensures var after := Step(s, Second(t, Some(j)), slots);
            (t in after.claims && after.claims[t] == Picked(j)) <==>
            && CanPick(s, t, j)
            && (j.run ==> s.claims[t].seen < slots && forall build :: CanPick(s, t, build) ==> build.run)
  {
    var open := Claimable(s, s.tiers[t], s.claims[t].seen < slots) * s.claims[t].visible;
    forall build
      ensures build in open <==> CanPick(s, t, build) && (build.run ==> s.claims[t].seen < slots)
    {
      LockedIsPicked(s, build);
      hide Locked;
    }
    hide Claimable, CanPick, Locked;
    forall build
      ensures build in Builds(open) <==> CanPick(s, t, build) && !build.run
    {}
    hide Builds;
    if Builds(open) != {} {
      var build :| build in Builds(open);
      assert CanPick(s, t, build) && !build.run;
    }
  }

  /** The event numbered `i` commits a claim of `j`. */
  ghost predicate Commits(events: seq<Event>, i: nat, j: Job, slots: nat) {
    i < |events| && events[i].Commit?
    && var s := After(events[..i], slots); events[i].t in s.claims && s.claims[events[i].t] == Picked(j)
  }

  predicate NotEndedSince(events: seq<Event>, i: nat, j: Job) {
    forall l | i < l < |events| :: events[l] != Ended(j)
  }

  ghost predicate CommittedNotEnded(events: seq<Event>, j: Job, slots: nat) {
    exists i: nat :: Commits(events, i, j, slots) && NotEndedSince(events, i, j)
  }

  /** The run actions running are exactly those whose claim was committed and that have not
      ended since. */
  lemma {:induction false} RunningIsCommitted(events: seq<Event>, slots: nat, j: Job)
    ensures j in After(events, slots).running <==> j.run && CommittedNotEnded(events, j, slots)
  {
    if events != [] {
      var init, e := events[..|events| - 1], events[|events| - 1];
      RunningIsCommitted(init, slots, j);
      RunningStep(After(init, slots), e, j, slots);
      CommittedMore(init, e, j, slots);
      hide Step, CommittedNotEnded;
      assert init + [e] == events;
    }
  }

  lemma CommittedMore(events: seq<Event>, e: Event, j: Job, slots: nat)
    ensures var s := After(events, slots);
            CommittedNotEnded(events + [e], j, slots) <==>
            (CommittedNotEnded(events, j, slots) && e != Ended(j)) || (e.Commit? && e.t in s.claims && s.claims[e.t] == Picked(j))
  {
    var all := events + [e];
    hide After;
    assert all[..|events|] == events;
    assert Commits(all, |events|, j, slots) <==> e.Commit? && var s := After(events, slots); e.t in s.claims && s.claims[e.t] == Picked(j);
    assert NotEndedSince(all, |events|, j);
    forall i: nat | i < |events|
      ensures Commits(all, i, j, slots) <==> Commits(events, i, j, slots)
      ensures NotEndedSince(all, i, j) <==> NotEndedSince(events, i, j) && e != Ended(j)
    {
      assert all[..i] == events[..i] && all[i] == events[i] && all[|events|] == e;
      assert NotEndedSince(all, i, j) ==> all[|events|] != Ended(j);
      assert NotEndedSince(all, i, j) ==> forall l | i < l < |events| :: all[l] == events[l];
    }
  }

  lemma RunningStep(s: State, e: Event, j: Job, slots: nat)
    ensures j in Step(s, e, slots).running <==>
            (j in s.running && e != Ended(j)) || (j.run && e.Commit? && e.t in s.claims && s.claims[e.t] == Picked(j))
  {
    hide Claimable, Locked;
  }
}
