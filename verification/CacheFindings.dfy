/** What one process remembers of the cache: entries found lately, the checks under
    way, and the counter that makes a check forget what it found too late. Tasks
    switch only where they await; each event is one stretch of code between awaits. */
module CacheFindings {
  import opened Wrappers

  type Key = string
  type Id = nat

  const IN_CACHE_TRUST_SECONDS := 60.0

  /** `at`: when the answer arrived. `request` is history: when its request began,
      as a number of events. */
  datatype Finding = Finding(at: real, request: nat)

  /** The fields of the coordinator object. */
  datatype Tables = Tables(found: map<Key, Finding>, checks: map<Key, Id>, forgotten: nat)

  /** A check's task: it reads the counter when it first runs, and may then wait its
      turn before it sends its request. */
  datatype Progress =
    | Created
    | Started(forgotten: nat)
    | Sent(forgotten: nat, request: nat)
    | Ended(answer: Option<bool>, finding: Finding)

  datatype Check = Check(key: Key, created: nat, progress: Progress)

  /** `forgot` is history: the number of events up to the last forgetting before the call. */
  datatype Outcome = Waiting(check: Id) | Answered(answer: Option<bool>, finding: Finding)
  datatype Call = Call(key: Key, called: real, forgot: nat, outcome: Outcome)

  datatype State = State(
    tables: Tables,
    tasks: map<Id, Check>,
    calls: map<Id, Call>,
    now: real,
    events: nat,    // history: how many events there were
    forgot: nat)    // history: how many when the findings were last forgotten, that one included

  datatype Event =
    | Ask(call: Id, key: Key, spare: Id)
    | Start(check: Id)
    | Send(check: Id)
    | Respond(check: Id, status: nat)
    | Fail(check: Id)           // an HTTP error
    | Callback(check: Id)
    | Resume(call: Id)
    | Forget                    // a result said an input was missing
    | Sweep
    | Wait(seconds: real)

  const EMPTY := State(Tables(map[], map[], 0), map[], map[], 0.0, 0, 0)

  // ------------------------------------------------------------ the fields' own changes

  /** What a status says of the entry: it is there, it is not, or the cache can't tell. */
  function AnswerOf(status: nat): Option<bool> {
    if status == 200 then Some(true) else if status == 404 then Some(false) else None
  }

  function Trusted(t: Tables, key: Key, now: real): Option<Finding> {
    if key in t.found && now - t.found[key].at < IN_CACHE_TRUST_SECONDS then Some(t.found[key]) else None
  }

  function Shared(t: Tables, key: Key, spare: Id): Id {
    if key in t.checks then t.checks[key] else spare
  }

  /** What asking about a key does: nothing if it is trusted or checked already. */
  function Asked(t: Tables, key: Key, now: real, spare: Id): Tables {
    if Trusted(t, key, now).Some? then t else t.(checks := t.checks[key := Shared(t, key, spare)])
  }

  function Found(t: Tables, key: Key, forgotten: nat, finding: Finding): Tables {
    if t.forgotten == forgotten then t.(found := t.found[key := finding]) else t
  }

  function CalledBack(t: Tables, key: Key, check: Id): Tables {
    if key in t.checks && t.checks[key] == check then t.(checks := map k | k in t.checks && k != key :: t.checks[k]) else t
  }

  function Forgotten(t: Tables): Tables {
    Tables(map[], map[], t.forgotten + 1)
  }

  function Swept(t: Tables, now: real): Tables {
    t.(found := map k | k in t.found && t.found[k].at > now - IN_CACHE_TRUST_SECONDS :: t.found[k])
  }

  // ------------------------------------------------------------ events

  /** A finished check's callback is due at once, so it runs before the trust in its answer ends. */
  ghost predicate CallbacksDue(s: State, now: real) {
    forall k <- s.tables.checks :: s.tables.checks[k] in s.tasks && s.tasks[s.tables.checks[k]].progress.Ended? ==>
      now - s.tasks[s.tables.checks[k]].progress.finding.at < IN_CACHE_TRUST_SECONDS
  }

  function Progressed(s: State, check: Id, p: Progress): State
    requires check in s.tasks
  {
    s.(tasks := s.tasks[check := s.tasks[check].(progress := p)])
  }

  ghost function Act(s: State, e: Event): State {
    match e
    case Ask(call, key, spare) =>
      if call in s.calls || spare in s.tasks then s
      else
        var trusted := Trusted(s.tables, key, s.now);
        var check := Shared(s.tables, key, spare);
        s.(tables := Asked(s.tables, key, s.now, spare),
           tasks := if trusted.None? && check == spare then s.tasks[spare := Check(key, s.events, Created)] else s.tasks,
           calls := s.calls[call := Call(key, s.now, s.forgot,
             if trusted.Some? then Answered(Some(true), trusted.value) else Waiting(check))])
    case Start(check) =>
      if check in s.tasks && s.tasks[check].progress.Created? then Progressed(s, check, Started(s.tables.forgotten)) else s
    case Send(check) =>
      if check in s.tasks then
        match s.tasks[check].progress
        case Started(forgotten) => Progressed(s, check, Sent(forgotten, s.events))
        case _ => s
      else s
    case Respond(check, status) =>
      if check in s.tasks then
        match s.tasks[check].progress
        case Sent(forgotten, request) =>
          var finding := Finding(s.now, request);
          Progressed(s, check, Ended(AnswerOf(status), finding)).(
            tables := if status == 200 then Found(s.tables, s.tasks[check].key, forgotten, finding) else s.tables)
        case _ => s
      else s
    case Fail(check) =>
      if check in s.tasks then
        match s.tasks[check].progress
        case Sent(forgotten, request) => Progressed(s, check, Ended(None, Finding(s.now, request)))
        case _ => s
      else s
    case Callback(check) =>
      if check in s.tasks && s.tasks[check].progress.Ended? then s.(tables := CalledBack(s.tables, s.tasks[check].key, check)) else s
    case Resume(call) =>
      if call in s.calls then
        match s.calls[call].outcome
        case Waiting(check) =>
          if check in s.tasks then
            match s.tasks[check].progress
            case Ended(answer, finding) => s.(calls := s.calls[call := s.calls[call].(outcome := Answered(answer, finding))])
            case _ => s
          else s
        case _ => s
      else s
    case Forget => s.(tables := Forgotten(s.tables), forgot := s.events + 1)
    case Sweep => s.(tables := Swept(s.tables, s.now))
    case Wait(seconds) => if seconds >= 0.0 && CallbacksDue(s, s.now + seconds) then s.(now := s.now + seconds) else s
  }

  ghost function Step(s: State, e: Event): State {
    Act(s, e).(events := s.events + 1)
  }

  ghost function After(events: seq<Event>): State {
    if events == [] then EMPTY else Step(After(events[..|events| - 1]), events[|events| - 1])
  }

  // ------------------------------------------------------------ what every event keeps

  /** A check that counts as begun since `since` sent, or will send, its request since then. */
  ghost predicate BegunSince(c: Check, since: nat) {
    && c.created >= since
    && match c.progress
       case Created => true
       case Started(_) => true
       case Sent(_, request) => request >= since
       case Ended(_, finding) => finding.request >= since
  }

  /** A check that read the present counter has not sent a request before the last forgetting. */
  ghost predicate Current(s: State, c: Check) {
    match c.progress
    case Created => true
    case Started(forgotten) => forgotten <= s.tables.forgotten
    case Sent(forgotten, request) => forgotten <= s.tables.forgotten && (forgotten == s.tables.forgotten ==> request >= s.forgot)
    case Ended(_, finding) => finding.at <= s.now
  }

  /** An answer from the cache itself since the call's last forgetting, not older than the trust in it. */
  ghost predicate Fresh(c: Call, f: Finding) {
    f.request >= c.forgot && c.called - f.at < IN_CACHE_TRUST_SECONDS
  }

  ghost predicate Backed(s: State, c: Call) {
    match c.outcome
    case Waiting(check) =>
      check in s.tasks && s.tasks[check].key == c.key && BegunSince(s.tasks[check], c.forgot) && c.called <= s.now
      && (match s.tasks[check].progress case Ended(_, finding) => Fresh(c, finding) case _ => true)
    case Answered(answer, finding) => Fresh(c, finding)
  }

  ghost predicate Unfinished(s: State, check: Id) {
    check in s.tasks && !s.tasks[check].progress.Ended? && s.tasks[check].created >= s.forgot
  }

  /** The tables hold only what was asked since the last forgetting. */
  ghost predicate Recent(s: State) {
    && (forall k <- s.tables.found :: s.tables.found[k].request >= s.forgot && s.tables.found[k].at <= s.now)
    && (forall k <- s.tables.checks :: s.tables.checks[k] in s.tasks
          && s.tasks[s.tables.checks[k]].key == k && BegunSince(s.tasks[s.tables.checks[k]], s.forgot))
    && CallbacksDue(s, s.now)
  }

  /** Concurrent calls share one check: of those begun since the last forgetting, none
      is under way but those in the table. */
  ghost predicate OneEach(s: State) {
    forall i :: Unfinished(s, i) ==> s.tasks[i].key in s.tables.checks && s.tables.checks[s.tasks[i].key] == i
  }

  ghost predicate Inv(s: State) {
    && s.forgot <= s.events
    && Recent(s)
    && OneEach(s)
    && (forall i <- s.tasks :: s.tasks[i].created < s.events && Current(s, s.tasks[i]))
    && (forall c <- s.calls :: s.calls[c].forgot <= s.events && Backed(s, s.calls[c]))
  }

  ghost predicate Moves(s: State, before: Progress, after: Progress) {
    match before
    case Created => after == Started(s.tables.forgotten)
    case Started(forgotten) => after == Sent(forgotten, s.events)
    case Sent(_, request) => after.Ended? && after.finding == Finding(s.now, request)
    case Ended(_, _) => false
  }

  lemma ProgressBacked(s: State, check: Id, p: Progress, c: Call)
    requires Inv(s) && check in s.tasks && Moves(s, s.tasks[check].progress, p) && Backed(s, c) && c.forgot <= s.events
    ensures Backed(Progressed(s, check, p), c)
  {
    hide Inv;
  }

  lemma ProgressRecent(s: State, check: Id, p: Progress)
    requires Inv(s) && check in s.tasks && Moves(s, s.tasks[check].progress, p)
    ensures var after := Progressed(s, check, p); Recent(after) && OneEach(after)
  {
    var after := Progressed(s, check, p);
    hide Backed;
    assert forall i | Unfinished(after, i) :: Unfinished(s, i);
  }

  lemma ProgressKeeps(s: State, check: Id, p: Progress)
    requires Inv(s) && check in s.tasks && Moves(s, s.tasks[check].progress, p)
    ensures Inv(Progressed(s, check, p).(events := s.events + 1))
  {
    ProgressRecent(s, check, p);
    hide Recent, OneEach, BegunSince, Fresh, CallbacksDue, Unfinished;
    forall c <- s.calls { ProgressBacked(s, check, p, s.calls[c]); }
    var moved := Progressed(s, check, p);
    assert forall i <- moved.tasks :: moved.tasks[i].created < s.events && Current(moved, moved.tasks[i]);
    TickKeeps(moved);
  }

  lemma TickKeeps(s: State)
    requires Inv(s)
    ensures Inv(s.(events := s.events + 1))
  {
    var after := s.(events := s.events + 1);
    assert forall i | Unfinished(after, i) :: Unfinished(s, i);
  }

  /** A finding is kept only when nothing was forgotten since its check read the counter. */
  lemma FoundKeeps(s: State, check: Id, status: nat)
    requires Inv(s) && check in s.tasks && s.tasks[check].progress.Sent?
    ensures Inv(Step(s, Respond(check, status)))
  {
    match s.tasks[check].progress
    case Sent(forgotten, request) =>
      var finding := Finding(s.now, request);
      assert Current(s, s.tasks[check]);
      ProgressKeeps(s, check, Ended(AnswerOf(status), finding));
      var moved := Progressed(s, check, Ended(AnswerOf(status), finding)).(events := s.events + 1);
      var after := Step(s, Respond(check, status));
      assert forall i | Unfinished(after, i) :: Unfinished(moved, i);
      assert forall c <- after.calls :: Backed(moved, after.calls[c]) && Backed(after, after.calls[c]);
  }

  /** A check's callback takes it off the table, and never a later check of its key. */
  lemma CallbackKeeps(s: State, check: Id)
    requires Inv(s)
    ensures Inv(Act(s, Callback(check)))
  {
    var after := Act(s, Callback(check));
    assert forall i | Unfinished(after, i) :: Unfinished(s, i);
    assert forall c <- after.calls :: Backed(s, after.calls[c]) && Backed(after, after.calls[c]);
  }

  lemma ResumeKeeps(s: State, call: Id)
    requires Inv(s)
    ensures Inv(Act(s, Resume(call)))
  {
    var after := Act(s, Resume(call));
    assert forall i | Unfinished(after, i) :: Unfinished(s, i);
    assert forall c <- s.calls :: Backed(s, s.calls[c]) && Backed(after, after.calls[c]);
  }

  lemma ForgetKeeps(s: State)
    requires Inv(s)
    ensures Inv(Step(s, Forget))
  {
    var after := Step(s, Forget);
    assert forall i :: !Unfinished(after, i);
    assert forall c <- s.calls :: Backed(s, s.calls[c]) && Backed(after, after.calls[c]);
  }

  lemma WaitKeeps(s: State, seconds: real)
    requires Inv(s)
    ensures Inv(Act(s, Wait(seconds)))
  {
    var after := Act(s, Wait(seconds));
    assert forall i | Unfinished(after, i) :: Unfinished(s, i);
    assert forall c <- s.calls :: Backed(s, s.calls[c]) && Backed(after, after.calls[c]);
  }

  lemma SweepKeeps(s: State)
    requires Inv(s)
    ensures Inv(Act(s, Sweep))
  {
    var after := Act(s, Sweep);
    assert forall i | Unfinished(after, i) :: Unfinished(s, i);
    assert forall c <- s.calls :: Backed(s, s.calls[c]) && Backed(after, after.calls[c]);
  }

  /** A call rests on a finding still trusted, on a check begun since the last
      forgetting, or on one it begins. */
  lemma AskBacked(s: State, call: Id, key: Key, spare: Id, c: Call)
    requires Inv(s) && call !in s.calls && spare !in s.tasks
    requires Backed(s, c) || c == Step(s, Ask(call, key, spare)).calls[call]
    ensures Backed(Step(s, Ask(call, key, spare)), c)
  {}

  lemma AskTables(s: State, call: Id, key: Key, spare: Id)
    requires Inv(s) && call !in s.calls && spare !in s.tasks
    ensures Recent(Step(s, Ask(call, key, spare))) && OneEach(Step(s, Ask(call, key, spare)))
  {
    var after := Step(s, Ask(call, key, spare));
    hide Backed, Current;
    assert forall i | Unfinished(after, i) :: Unfinished(s, i) || (i == spare && Trusted(s.tables, key, s.now).None?);
  }

  lemma AskKeeps(s: State, call: Id, key: Key, spare: Id)
    requires Inv(s) && call !in s.calls && spare !in s.tasks
    ensures Inv(Step(s, Ask(call, key, spare)))
  {
    var after := Step(s, Ask(call, key, spare));
    AskTables(s, call, key, spare);
    AskBacked(s, call, key, spare, after.calls[call]);
    forall c <- s.calls { AskBacked(s, call, key, spare, s.calls[c]); }
    forall i <- after.tasks
      ensures after.tasks[i].created < after.events && Current(after, after.tasks[i])
    {}
    hide Recent, OneEach, Backed, Current, Asked, Trusted, Shared;
    assert after.calls.Keys == s.calls.Keys + {call};
  }

  lemma StepKeeps(s: State, e: Event)
    requires Inv(s)
    ensures Inv(Step(s, e))
  {
    hide Recent, OneEach, Current, Backed;
    match e
    case Ask(call, key, spare) => if call in s.calls || spare in s.tasks { TickKeeps(s); } else { AskKeeps(s, call, key, spare); }
    case Start(check) =>
      if check in s.tasks && s.tasks[check].progress.Created? { ProgressKeeps(s, check, Started(s.tables.forgotten)); } else { TickKeeps(s); }
    case Send(check) =>
      if check in s.tasks && s.tasks[check].progress.Started? {
        match s.tasks[check].progress case Started(forgotten) => ProgressKeeps(s, check, Sent(forgotten, s.events));
      } else { TickKeeps(s); }
    case Respond(check, status) =>
      if check in s.tasks && s.tasks[check].progress.Sent? { FoundKeeps(s, check, status); } else { TickKeeps(s); }
    case Fail(check) =>
      if check in s.tasks && s.tasks[check].progress.Sent? {
        match s.tasks[check].progress case Sent(forgotten, request) => ProgressKeeps(s, check, Ended(None, Finding(s.now, request)));
      } else { TickKeeps(s); }
    case Callback(check) => CallbackKeeps(s, check); TickKeeps(Act(s, e));
    case Resume(call) => ResumeKeeps(s, call); TickKeeps(Act(s, e));
    case Forget => ForgetKeeps(s);
    case Sweep => SweepKeeps(s); TickKeeps(Act(s, e));
    case Wait(seconds) => WaitKeeps(s, seconds); TickKeeps(Act(s, e));
  }

  // ------------------------------------------------------------ the theorems

  lemma {:induction false} RunKeeps(events: seq<Event>)
    ensures Inv(After(events))
  {
    if events != [] {
      RunKeeps(events[..|events| - 1]);
      StepKeeps(After(events[..|events| - 1]), events[|events| - 1]);
    }
  }

  /** However forgettings, shared checks, late answers and callbacks interleave: a call
      is answered from a request begun after the last forgetting before the call, and
      the answer came within the trust window before the call, or after it. */
  lemma AnswersAreFresh(events: seq<Event>, call: Id)
    requires call in After(events).calls
    ensures match After(events).calls[call].outcome
            case Answered(_, finding) => Fresh(After(events).calls[call], finding)
            case Waiting(_) => true
  {
    RunKeeps(events);
    assert Backed(After(events), After(events).calls[call]);
  }

  lemma {:induction false} EventCount(events: seq<Event>)
    ensures After(events).events == |events|
  {
    if events != [] { EventCount(events[..|events| - 1]); }
  }

  /** Calls after an event `n` that forgets the findings. */
  ghost predicate CallsSince(earlier: set<Id>, s: State, n: nat) {
    s.forgot >= n && forall c <- s.calls | c !in earlier :: s.calls[c].forgot >= n
  }

  lemma CallsSinceStep(earlier: set<Id>, s: State, e: Event, n: nat)
    requires CallsSince(earlier, s, n) && n <= s.events
    ensures CallsSince(earlier, Step(s, e), n)
  {}

  lemma {:induction false} CallsSinceForget(before: seq<Event>, after: seq<Event>)
    ensures CallsSince(After(before).calls.Keys, After(before + [Forget] + after), |before| + 1)
  {
    var run := before + [Forget] + after;
    EventCount(before);
    if after == [] {
      assert run == before + [Forget] && run[..|before|] == before;
    } else {
      hide Act, CallsSince, Asked, Trusted;
      var init := before + [Forget] + after[..|after| - 1];
      CallsSinceForget(before, after[..|after| - 1]);
      EventCount(init);
      assert run[..|run| - 1] == init && |init| > |before|;
      CallsSinceStep(After(before).calls.Keys, After(init), run[|run| - 1], |before| + 1);
    }
  }

  /** So after an input-missing result, every later call answered rests on a request
      begun after that result. */
  lemma AnswersSinceForgetting(before: seq<Event>, after: seq<Event>, call: Id)
    requires var s := After(before + [Forget] + after);
             call !in After(before).calls && call in s.calls
    ensures match After(before + [Forget] + after).calls[call].outcome
            case Answered(_, finding) => finding.request > |before|
            case Waiting(_) => true
  {
    AnswersAreFresh(before + [Forget] + after, call);
    CallsSinceForget(before, after);
  }

  /** The checks of one key share one request: two under way since the last forgetting are the same. */
  lemma OneRequestAtATime(events: seq<Event>, i: Id, j: Id)
    requires var s := After(events); Unfinished(s, i) && Unfinished(s, j) && s.tasks[i].key == s.tasks[j].key
    ensures i == j
  {
    RunKeeps(events);
  }

  // ------------------------------------------------------------ answers are the cache's

  /** The event numbered `n` is the first call for `key` to begin the check. */
  ghost predicate AskedAt(events: seq<Event>, n: nat, key: Key, check: Id) {
    n < |events| && events[n].Ask? && events[n].key == key && events[n].spare == check
  }

  ghost predicate SentAt(events: seq<Event>, n: nat, check: Id) {
    n < |events| && events[n] == Send(check)
  }

  /** The event numbered `n` tells the check: 200 says yes, 404 no, and all else nothing. */
  ghost predicate TellsAt(events: seq<Event>, n: nat, check: Id, answer: Option<bool>) {
    n < |events|
    && match answer
       case Some(true) => events[n] == Respond(check, 200)
       case Some(false) => events[n] == Respond(check, 404)
       case None => events[n] == Fail(check) || (events[n].Respond? && events[n].check == check && events[n].status !in {200, 404})
  }

  /** The finding's request was the check's, and the answer came to it, when the finding says. */
  ghost predicate Told(events: seq<Event>, check: Id, answer: Option<bool>, finding: Finding) {
    SentAt(events, finding.request, check)
    && exists n: nat :: finding.request < n && TellsAt(events, n, check, answer) && After(events[..n]).now == finding.at
  }

  /** Some check of that key was told so. */
  ghost predicate ToldOf(events: seq<Event>, tasks: map<Id, Check>, key: Key, answer: Option<bool>, finding: Finding) {
    exists check :: check in tasks && tasks[check].key == key && Told(events, check, answer, finding)
  }

  ghost predicate TaskTraced(events: seq<Event>, i: Id, c: Check) {
    && AskedAt(events, c.created, c.key, i)
    && match c.progress
       case Sent(_, request) => SentAt(events, request, i)
       case Ended(answer, finding) => Told(events, i, answer, finding)
       case _ => true
  }

  ghost predicate CallTraced(events: seq<Event>, tasks: map<Id, Check>, c: Call) {
    match c.outcome
    case Waiting(check) => check in tasks && tasks[check].key == c.key
    case Answered(answer, finding) => ToldOf(events, tasks, c.key, answer, finding)
  }

  ghost predicate Traced(events: seq<Event>, s: State) {
    && (forall i <- s.tasks :: TaskTraced(events, i, s.tasks[i]))
    && (forall k <- s.tables.found :: ToldOf(events, s.tasks, k, Some(true), s.tables.found[k]))
    && (forall c <- s.calls :: CallTraced(events, s.tasks, s.calls[c]))
  }

  lemma ToldStill(events: seq<Event>, e: Event, check: Id, answer: Option<bool>, finding: Finding)
    requires Told(events, check, answer, finding)
    ensures Told(events + [e], check, answer, finding)
  {
    var n: nat :| finding.request < n && TellsAt(events, n, check, answer) && After(events[..n]).now == finding.at;
    assert (events + [e])[..n] == events[..n] && (events + [e])[n] == events[n];
    hide After;
    assert TellsAt(events + [e], n, check, answer);
  }

  ghost predicate KeysKept(tasks: map<Id, Check>, more: map<Id, Check>) {
    forall i <- tasks :: i in more && more[i].key == tasks[i].key
  }

  lemma ToldOfStill(events: seq<Event>, e: Event, tasks: map<Id, Check>, more: map<Id, Check>, key: Key, answer: Option<bool>, finding: Finding)
    requires ToldOf(events, tasks, key, answer, finding) && KeysKept(tasks, more)
    ensures ToldOf(events + [e], more, key, answer, finding)
  {
    hide Told;
    var check :| check in tasks && tasks[check].key == key && Told(events, check, answer, finding);
    ToldStill(events, e, check, answer, finding);
  }

  lemma TaskStill(events: seq<Event>, e: Event, i: Id, c: Check)
    requires TaskTraced(events, i, c)
    ensures TaskTraced(events + [e], i, c)
  {
    assert forall n | 0 <= n < |events| :: (events + [e])[n] == events[n];
    hide Told;
    match c.progress
    case Ended(answer, finding) => ToldStill(events, e, i, answer, finding);
    case _ =>
  }

  lemma CallStill(events: seq<Event>, e: Event, tasks: map<Id, Check>, more: map<Id, Check>, c: Call)
    requires CallTraced(events, tasks, c) && KeysKept(tasks, more)
    ensures CallTraced(events + [e], more, c)
  {
    hide ToldOf;
    match c.outcome
    case Answered(answer, finding) => ToldOfStill(events, e, tasks, more, c.key, answer, finding);
    case _ =>
  }

  /** What an event adds is traced to it. */
  lemma JustTold(events: seq<Event>, e: Event, check: Id, request: nat, answer: Option<bool>)
    requires SentAt(events, request, check)
    requires match answer
             case Some(true) => e == Respond(check, 200)
             case Some(false) => e == Respond(check, 404)
             case None => e == Fail(check) || (e.Respond? && e.check == check && e.status !in {200, 404})
    ensures Told(events + [e], check, answer, Finding(After(events).now, request))
  {
    var all := events + [e];
    hide After;
    assert all[request] == events[request] && all[..|events|] == events;
    assert TellsAt(all, |events|, check, answer);
  }

  lemma TasksStep(events: seq<Event>, e: Event)
    requires Traced(events, After(events))
    ensures var s, after := After(events), Step(After(events), e);
            && KeysKept(s.tasks, after.tasks) && forall i <- after.tasks :: TaskTraced(events + [e], i, after.tasks[i])
  {
    var s, after := After(events), Step(After(events), e);
    EventCount(events);
    hide After, Told, ToldOf, CallTraced, Asked, Found, CalledBack, Swept, CallbacksDue;
    forall i <- after.tasks
      ensures TaskTraced(events + [e], i, after.tasks[i])
    {
      if i in s.tasks { TaskStill(events, e, i, s.tasks[i]); }
      match e
      case Respond(check, status) =>
        if check == i && s.tasks[i].progress.Sent? { JustTold(events, e, i, s.tasks[i].progress.request, AnswerOf(status)); }
      case Fail(check) =>
        if check == i && s.tasks[i].progress.Sent? { JustTold(events, e, i, s.tasks[i].progress.request, None); }
      case _ =>
    }
  }

  lemma FoundStep(events: seq<Event>, e: Event)
    requires Traced(events, After(events))
    ensures var after := Step(After(events), e); forall k <- after.tables.found :: ToldOf(events + [e], after.tasks, k, Some(true), after.tables.found[k])
  {
    var s, after := After(events), Step(After(events), e);
    TasksStep(events, e);
    hide After, Step, Told, CallTraced, KeysKept;
    forall k <- after.tables.found
      ensures ToldOf(events + [e], after.tasks, k, Some(true), after.tables.found[k])
    {
      if k in s.tables.found && after.tables.found[k] == s.tables.found[k] {
        ToldOfStill(events, e, s.tasks, after.tasks, k, Some(true), s.tables.found[k]);
      } else {
        var check := FoundBy(s, e, k);
        assert TaskTraced(events + [e], check, after.tasks[check]);
      }
    }
  }

  /** An entry is found by a check of its key that ends so. */
  lemma FoundBy(s: State, e: Event, k: Key) returns (check: Id)
    requires var after := Step(s, e);
             k in after.tables.found && !(k in s.tables.found && after.tables.found[k] == s.tables.found[k])
    ensures var after := Step(s, e);
            check in after.tasks && after.tasks[check].key == k && after.tasks[check].progress == Ended(Some(true), after.tables.found[k])
  {
    hide CallbacksDue, Trusted, Shared;
    check := e.check;
  }

  lemma CallsStep(events: seq<Event>, e: Event)
    requires Traced(events, After(events))
    ensures var after := Step(After(events), e); forall c <- after.calls :: CallTraced(events + [e], after.tasks, after.calls[c])
  {
    var s, after := After(events), Step(After(events), e);
    TasksStep(events, e);
    hide After, Told, ToldOf, CallbacksDue, Found, CalledBack, Swept;
    forall c <- after.calls
      ensures CallTraced(events + [e], after.tasks, after.calls[c])
    {
      if c in s.calls && after.calls[c] == s.calls[c] {
        CallStill(events, e, s.tasks, after.tasks, s.calls[c]);
      } else {
        CallAnswered(events, e, c);
      }
    }
  }

  lemma ChecksAreOfTheirKeys(events: seq<Event>)
    ensures var s := After(events); forall k <- s.tables.checks :: s.tables.checks[k] in s.tasks && s.tasks[s.tables.checks[k]].key == k
  {
    RunKeeps(events);
  }

  lemma CallAnswered(events: seq<Event>, e: Event, c: Id)
    requires Traced(events, After(events)) && c in Step(After(events), e).calls
    requires c in After(events).calls ==> Step(After(events), e).calls[c] != After(events).calls[c]
    ensures var after := Step(After(events), e); CallTraced(events + [e], after.tasks, after.calls[c])
  {
    var s, after := After(events), Step(After(events), e);
    TasksStep(events, e);
    CallChanges(s, e, c);
    hide After, Step, Told, Inv, KeysKept;
    match e
    case Ask(call, key, spare) =>
      ChecksAreOfTheirKeys(events);
      if Trusted(s.tables, key, s.now).Some? {
        ToldOfStill(events, e, s.tasks, after.tasks, key, Some(true), s.tables.found[key]);
      }
    case Resume(call) =>
      var check := s.calls[c].outcome.check;
      assert CallTraced(events, s.tasks, s.calls[c]) && TaskTraced(events + [e], check, after.tasks[check]);
  }

  /** A call is new, or resumed once its check has ended. */
  lemma CallChanges(s: State, e: Event, c: Id)
    requires c in Step(s, e).calls && (c in s.calls ==> Step(s, e).calls[c] != s.calls[c])
    ensures e.Ask? || e.Resume?
    ensures var after := Step(s, e);
            match e
            case Ask(call, key, spare) =>
              && after.calls[c].key == key
              && after.calls[c].outcome ==
                 (match Trusted(s.tables, key, s.now)
                  case Some(finding) => Answered(Some(true), finding)
                  case None => Waiting(Shared(s.tables, key, spare)))
              && (Trusted(s.tables, key, s.now).None? ==>
                    var check := Shared(s.tables, key, spare);
                    key in s.tables.checks || (check in after.tasks && after.tasks[check].key == key))
            case Resume(call) =>
              && c in s.calls && s.calls[c].outcome.Waiting? && after.calls[c].key == s.calls[c].key && after.tasks == s.tasks
              && var check := s.calls[c].outcome.check;
                 check in s.tasks && s.tasks[check].progress.Ended?
                 && after.calls[c].outcome == Answered(s.tasks[check].progress.answer, s.tasks[check].progress.finding)
            case _ => true
  {
    hide CallbacksDue, Found, CalledBack, Swept, Trusted;
  }

  lemma {:induction false} RunTraced(events: seq<Event>)
    ensures Traced(events, After(events))
  {
    if events != [] {
      var init, e := events[..|events| - 1], events[|events| - 1];
      RunTraced(init);
      TasksStep(init, e);
      FoundStep(init, e);
      CallsStep(init, e);
      assert init + [e] == events;
      hide TaskTraced, ToldOf, CallTraced, Step;
    }
  }

  /** An answer is what the cache said of that entry: some check of its key, begun by a
      call, sent the request the answer rests on, and after that was told 200 if the answer
      is yes, 404 if it is no, and neither if there is none. */
  lemma AnswersAreTheCaches(events: seq<Event>, call: Id)
    requires call in After(events).calls && After(events).calls[call].outcome.Answered?
    ensures var c := After(events).calls[call];
            exists check, asked :: AskedAt(events, asked, c.key, check) && Told(events, check, c.outcome.answer, c.outcome.finding)
  {
    RunTraced(events);
    var s := After(events);
    var c := s.calls[call];
    hide After, Told, AskedAt;
    assert CallTraced(events, s.tasks, c);
    var check :| check in s.tasks && s.tasks[check].key == c.key && Told(events, check, c.outcome.answer, c.outcome.finding);
    assert TaskTraced(events, check, s.tasks[check]);
    assert AskedAt(events, s.tasks[check].created, c.key, check);
  }

  // ------------------------------------------------------------ what was found spares a request

  /** The entry was found at `since` or later, and time has not gone back. */
  ghost predicate FoundSince(s: State, key: Key, since: real) {
    s.now >= since && key in s.tables.found && s.tables.found[key].at >= since
  }

  lemma FoundStays(s: State, e: Event, key: Key, since: real)
    requires FoundSince(s, key, since) && e != Forget && Step(s, e).now - since < IN_CACHE_TRUST_SECONDS
    ensures FoundSince(Step(s, e), key, since) && Step(s, e).now >= s.now
  {
    hide CallbacksDue, Trusted, Shared;
  }

  lemma TimeGoesOn(s: State, e: Event)
    ensures Step(s, e).now >= s.now
  {
    hide CallbacksDue, Trusted, Shared, CalledBack, Found, Swept;
  }

  lemma {:induction false} FoundThrough(events: seq<Event>, more: seq<Event>, key: Key, since: real)
    requires FoundSince(After(events), key, since) && Forget !in more
    requires After(events + more).now - since < IN_CACHE_TRUST_SECONDS
    ensures FoundSince(After(events + more), key, since)
    decreases |more|
  {
    if more == [] {
      assert events + more == events;
    } else {
      var init, e := more[..|more| - 1], more[|more| - 1];
      assert (events + more)[..|events + more| - 1] == events + init && e in more;
      hide Step, FoundSince;
      TimeGoesOn(After(events + init), e);
      FoundThrough(events, init, key, since);
      FoundStays(After(events + init), e, key, since);
    }
  }

  /** Once a check is told 200, with nothing forgotten since it read the counter, a call in
      the next sixty seconds is answered yes at once, and begins no check, unless an input
      went missing in between. */
  lemma FoundSparesRequests(events: seq<Event>, check: Id, more: seq<Event>, call: Id, spare: Id)
    requires var s := After(events);
             && check in s.tasks && s.tasks[check].progress.Sent? && s.tasks[check].progress.forgotten == s.tables.forgotten
    requires var s := After(events + [Respond(check, 200)] + more);
             && Forget !in more && s.now - After(events).now < 60.0 && call !in s.calls && spare !in s.tasks
    ensures var s := After(events + [Respond(check, 200)] + more);
            var after := Step(s, Ask(call, After(events).tasks[check].key, spare));
            after.tasks == s.tasks && after.calls[call].outcome.Answered? && after.calls[call].outcome.answer == Some(true)
  {
    var told := events + [Respond(check, 200)];
    assert told[..|told| - 1] == events;
    FoundThrough(told, more, After(events).tasks[check].key, After(events).now);
    hide After, CallbacksDue;
  }

  // ------------------------------------------------------------ the object's methods

  class Findings {
    var found: map<Key, Finding>
    var checks: map<Key, Id>
    var forgotten: nat

    ghost function Fields(): Tables
      reads this
    {
      Tables(found, checks, forgotten)
    }

    /** Up to its first await: the finding trusted, or the check to wait for. */
    method Ask(key: Key, now: real, spare: Id) returns (trusted: Option<Finding>, check: Id)
      modifies this`checks
      ensures Fields() == Asked(old(Fields()), key, now, spare)
      ensures trusted == Trusted(old(Fields()), key, now) && check == Shared(old(Fields()), key, spare)
    {
      trusted := None;
      check := spare;
      if key in checks {
        check := checks[key];
      }
      if key in found && now - found[key].at < IN_CACHE_TRUST_SECONDS {
        trusted := Some(found[key]);
        return;
      }
      if key !in checks {
        checks := checks[key := check];
      }
      assert old(checks)[key := check] == checks;
    }

    method Keep(key: Key, readCounter: nat, finding: Finding)
      modifies this`found
      ensures Fields() == Found(old(Fields()), key, readCounter, finding)
    {
      if forgotten == readCounter {
        found := found[key := finding];
      }
    }

    method Done(key: Key, check: Id)
      modifies this`checks
      ensures Fields() == CalledBack(old(Fields()), key, check)
    {
      if key in checks && checks[key] == check {
        checks := checks - {key};
      }
    }

    method ForgetCacheFindings()
      modifies this
      ensures Fields() == Forgotten(old(Fields()))
    {
      found := map[];
      checks := map[];
      forgotten := forgotten + 1;
    }
  }
}
