/** When a revocation holds, and when a worker restart undoes it (apps/extension/src/background.ts).  The
    queue of permission changes is served in order, and is lost with the worker. */
module Revocations {
  import opened Wrappers
  import opened ApprovalProtocol
  import opened ApprovalSafety

  // ---------- The order of the queue ----------

  ghost predicate GrantedBefore(s: State, at: nat) {
    forall o :: o in s.grants ==> s.grants[o] <= at
  }

  /** The request of a permission job was captured no later than this place of the log. */
  ghost predicate RequestBefore(s: State, id: Id, at: nat) {
    id in s.requests && s.requests[id].Resolving? ==> CapturedAt(s, s.requests[id].item) <= at
  }

  /** A queued request is being resolved, or has failed. */
  ghost predicate JobOk(s: State, job: Job) {
    job.ForRequest? ==> job.id in s.requests && (s.requests[job.id].Resolving? || s.requests[job.id].Closed?)
  }

  /** What comes before a revocation in the queue, or has been served, was captured before it. */
  ghost predicate PlaceOk(s: State, j: nat)
    requires j < |s.queue|
  {
    s.queue[j].Revocation? ==>
      && GrantedBefore(s, s.queue[j].at)
      && forall k :: 0 <= k < j && s.queue[k].ForRequest? ==> RequestBefore(s, s.queue[k].id, s.queue[j].at)
  }

  ghost predicate Ordered(s: State) {
    && GrantedBefore(s, |s.log|)
    && (forall j {:trigger JobOk(s, s.queue[j])} :: 0 <= j < |s.queue| ==> JobOk(s, s.queue[j]))
    && (forall j {:trigger PlaceOk(s, j)} :: 0 <= j < |s.queue| ==> PlaceOk(s, j))
  }

  // ---------- Every step keeps it ----------

  /** Requests only go on: one being resolved keeps its item until it closes, and a closed one stays. */
  ghost predicate GoesOn(before: Phase, after: Phase) {
    && (before.Closed? ==> after.Closed?)
    && (before.Resolving? ==> after.Closed? || (after.Resolving? && after.item == before.item))
  }

  ghost predicate AllGoOn(s: State, t: State) {
    forall id {:trigger OneGoesOn(s, t, id)} :: id in s.requests ==> OneGoesOn(s, t, id)
  }

  ghost predicate OneGoesOn(s: State, t: State, id: Id)
    requires id in s.requests
  {
    id in t.requests && GoesOn(s.requests[id], t.requests[id])
  }

  /** The log may have grown, the first job may be done and permissions may be gone; nothing is new. */
  ghost predicate Shrinks(s: State, t: State) {
    && t.base == s.base && |s.log| <= |t.log|
    && (t.queue == s.queue || (s.queue != [] && t.queue == s.queue[1..]))
    && (forall o :: o in t.grants ==> o in s.grants && t.grants[o] == s.grants[o])
  }

  lemma JobGoesOn(s: State, t: State, job: Job)
    requires AllGoOn(s, t) && JobOk(s, job)
    ensures JobOk(t, job)
  {
    if job.ForRequest? {
      assert OneGoesOn(s, t, job.id);
    }
  }

  lemma RequestGoesOn(s: State, t: State, id: Id, at: nat)
    requires AllGoOn(s, t) && t.base == s.base && JobOk(s, ForRequest(id)) && RequestBefore(s, id, at)
    ensures RequestBefore(t, id, at)
  {
    if id in s.requests {
      assert OneGoesOn(s, t, id);
    }
  }

  lemma PlaceShrinks(s: State, t: State, j: nat)
    requires Ordered(s) && Shrinks(s, t) && AllGoOn(s, t) && j < |t.queue|
    ensures PlaceOk(t, j)
  {
    var d := |s.queue| - |t.queue|;
    assert PlaceOk(s, j + d) && t.queue[j] == s.queue[j + d];
    if t.queue[j].Revocation? {
      forall k | 0 <= k < j && t.queue[k].ForRequest? ensures RequestBefore(t, t.queue[k].id, t.queue[j].at) {
        assert t.queue[k] == s.queue[k + d] && JobOk(s, s.queue[k + d]);
        RequestGoesOn(s, t, t.queue[k].id, t.queue[j].at);
      }
    }
  }

  lemma ShrinkKeeps(s: State, t: State)
    requires Ordered(s) && Shrinks(s, t) && AllGoOn(s, t)
    ensures Ordered(t)
  {
    forall j | 0 <= j < |t.queue| ensures JobOk(t, t.queue[j]) {
      assert t.queue[j] == s.queue[j + (|s.queue| - |t.queue|)];
      assert JobOk(s, s.queue[j + (|s.queue| - |t.queue|)]);
      JobGoesOn(s, t, t.queue[j]);
    }
    forall j | 0 <= j < |t.queue| ensures PlaceOk(t, j) {
      PlaceShrinks(s, t, j);
    }
  }

  /** A new job at the end: a request's own, or a revocation, which everything captured so far precedes. */
  lemma AppendKeeps(s: State, t: State, job: Job)
    requires Inv(s) && Ordered(s) && JobOk(s, job) && (job.Revocation? ==> job.at == |s.log|)
    requires t == s.(queue := s.queue + [job])
    ensures Ordered(t)
  {
    forall j | 0 <= j < |t.queue| ensures JobOk(t, t.queue[j]) {
      assert j < |s.queue| ==> t.queue[j] == s.queue[j] && JobOk(s, s.queue[j]);
    }
    forall j | 0 <= j < |t.queue| ensures PlaceOk(t, j) {
      if j < |s.queue| {
        assert PlaceOk(s, j) && t.queue[j] == s.queue[j];
        assert forall k :: 0 <= k < j ==> t.queue[k] == s.queue[k];
      } else if job.Revocation? {
        forall k | 0 <= k < j && t.queue[k].ForRequest? ensures RequestBefore(t, t.queue[k].id, job.at) {
          CapturedBefore(s, t.queue[k].id);
        }
      }
    }
  }

  lemma CapturedBefore(s: State, id: Id)
    requires Inv(s)
    ensures RequestBefore(s, id, |s.log|)
  {
    if id in s.requests {
      assert RequestOk(s, id, s.requests[id]);
    }
  }

  /** The permission that the first job writes was captured before every queued revocation. */
  lemma GrantKeeps(s: State, id: Id, item: Item, context: Context, grants: map<Origin, nat>)
    requires Inv(s) && Ordered(s) && id in s.requests
    requires s.requests[id] == Resolving(item, context, GrantWriting(grants))
    ensures Ordered(s.(grants := grants))
  {
    assert RequestOk(s, id, s.requests[id]);
    var t := s.(grants := grants);
    forall j | 0 <= j < |t.queue| ensures PlaceOk(t, j) {
      assert PlaceOk(s, j);
      if s.queue[j].Revocation? {
        assert s.queue[0] == ForRequest(id) && RequestBefore(s, id, s.queue[j].at);
      }
    }
    forall j | 0 <= j < |t.queue| ensures JobOk(t, t.queue[j]) {
      assert JobOk(s, s.queue[j]);
    }
  }

  lemma MoveOrdered(s: State, id: Id, phase: Phase)
    requires Ordered(s) && (id in s.requests ==> GoesOn(s.requests[id], phase))
    ensures Ordered(Put(s, id, phase))
  {
    ShrinkKeeps(s, Put(s, id, phase));
  }

  lemma CheckedOrdered(s: State, expired: bool)
    requires Ordered(s)
    ensures Ordered(Checked(s, expired))
  {
    ShrinkKeeps(s, Checked(s, expired));
  }

  lemma CloseOrdered(s: State, id: Id)
    requires Inv(s) && Ordered(s) && id in s.requests
    ensures Ordered(Close(s, id))
  {
    ShrinkKeeps(s, Close(s, id));
  }

  lemma ContinueOrdered(s: State, id: Id, item: Item, context: Context, stage: Stage, read: Settings,
                        expired: bool, more: bool)
    requires Inv(s) && Ordered(s) && id in s.requests && s.requests[id] == Resolving(item, context, Passed(stage, read))
    ensures Ordered(Continue(s, id, item, context, stage, read, expired, more))
  {
    if stage == Enter && item.kind == Connect {
      EnqueueOrdered(s, id, item, context);
    } else if stage.GrantBefore? || stage.Final? {
      CheckOrdered(s, id, item, context, stage, read, expired, more);
    } else {
      ShrinkKeeps(s, Continue(s, id, item, context, stage, read, expired, more));
    }
  }

  lemma CheckOrdered(s: State, id: Id, item: Item, context: Context, stage: Stage, read: Settings,
                     expired: bool, more: bool)
    requires Inv(s) && Ordered(s) && id in s.requests && s.requests[id] == Resolving(item, context, Passed(stage, read))
    requires stage.GrantBefore? || stage.Final?
    ensures Ordered(Continue(s, id, item, context, stage, read, expired, more))
  {
    CheckedKeeps(s, expired, id);
    CheckedOrdered(s, expired);
    var s1 := Checked(s, expired);
    if Valid(s1, context) {
      ShrinkKeeps(s1, Continue(s, id, item, context, stage, read, expired, more));
    } else {
      CloseOrdered(s1, id);
    }
  }

  lemma EnqueueOrdered(s: State, id: Id, item: Item, next: Context)
    requires Inv(s) && Ordered(s) && id in s.requests
    requires s.requests[id].Resolving? && s.requests[id].item == item
    ensures Ordered(Enqueue(s, id, item, next))
  {
    AppendKeeps(s, s.(queue := s.queue + [ForRequest(id)]), ForRequest(id));
    ShrinkKeeps(s.(queue := s.queue + [ForRequest(id)]), Enqueue(s, id, item, next));
  }

  lemma SwitchOrdered(s: State, id: Id, item: Item, context: Context, chosen: Settings)
    requires Ordered(s) && id in s.requests && s.requests[id] == Resolving(item, context, Switching)
    ensures
      var s2 := BumpedAndCancelled(s, OwnSwitch(id, chosen));
      Ordered(At(BeginWrite(s2, chosen), id, item, context, SwitchWriting(chosen, s2.revision, s2.nextWrite)))
  {
    var s2 := BumpedAndCancelled(s, OwnSwitch(id, chosen));
    ShrinkKeeps(s, s2);
    ShrinkKeeps(s2, At(BeginWrite(s2, chosen), id, item, context, SwitchWriting(chosen, s2.revision, s2.nextWrite)));
  }

  /** The handler between two awaits, but for the steps that touch permissions. */
  lemma PlainOrdered(s: State, id: Id, item: Item, context: Context, pc: Pc, expired: bool, more: bool,
                     chosen: Settings)
    requires Inv(s) && Ordered(s) && id in s.requests && s.requests[id] == Resolving(item, context, pc)
    requires pc.Reading? || pc.Have? || pc.Got? || pc.Asking? || pc.Answered? || pc.Switching? || pc.Queued?
    ensures Ordered(AdvanceResolve(s, id, item, context, pc, expired, more, chosen))
  {
    CheckedKeeps(s, expired, id);
    CheckedOrdered(s, expired);
    var s1 := Checked(s, expired);
    CloseOrdered(s, id);
    CloseOrdered(s1, id);
    match pc
    case Reading(stage, revision) => MoveOrdered(s, id, Resolving(item, context, Have(stage, revision, s.stored)));
    case Have(stage, revision, settings) =>
      MoveOrdered(s, id, Resolving(item, context, Got(stage, Context(settings, revision))));
    case Got(stage, current) =>
      MoveOrdered(s, id, Resolving(item, context, Reading(Enter, s.revision)));
      MoveOrdered(s1, id, Resolving(item, context, Passed(stage, current.settings)));
    case Asking => MoveOrdered(s, id, Resolving(item, context, Answered(item.origin in s.grants)));
    case Answered(_) => MoveOrdered(s, id, Resolving(item, context, Reading(Permit, s.revision)));
    case Switching => if Valid(s1, context) { SwitchOrdered(s1, id, item, context, chosen); }
    case Queued => MoveOrdered(s, id, Resolving(item, context, Reading(GrantBefore(s.grants), s.revision)));
  }

  lemma ResolveOrdered(s: State, id: Id, item: Item, context: Context, pc: Pc, expired: bool, more: bool,
                       chosen: Settings)
    requires Inv(s) && Ordered(s) && id in s.requests && s.requests[id] == Resolving(item, context, pc)
    ensures Ordered(AdvanceResolve(s, id, item, context, pc, expired, more, chosen))
  {
    if pc.Passed? {
      ContinueOrdered(s, id, item, context, pc.stage, pc.read, expired, more);
    } else if pc.GrantWriting? {
      GrantKeeps(s, id, item, context, pc.grants);
      MoveOrdered(s.(grants := pc.grants), id, Resolving(item, context, Reading(GrantAfter, s.revision)));
    } else if pc.SwitchWriting? {
      CloseOrdered(s, id);
      EnqueueOrdered(s, id, item, Context(pc.next, pc.revision));
    } else {
      PlainOrdered(s, id, item, context, pc, expired, more, chosen);
    }
  }

  lemma AdvanceOrdered(s: State, id: Id, expired: bool, more: bool, chosen: Settings)
    requires Inv(s) && Ordered(s) && id in s.requests
    ensures Ordered(AdvanceRequest(s, id, expired, more, chosen))
  {
    var phase := s.requests[id];
    if phase.Resolving? {
      ResolveOrdered(s, id, phase.item, phase.context, phase.pc, expired, more, chosen);
    } else {
      ShrinkKeeps(s, AdvanceRequest(s, id, expired, more, chosen));
    }
  }

  lemma RevokeOrdered(s: State, revoked: Option<Origin>)
    requires Inv(s) && Ordered(s)
    ensures Ordered(Step(s, Revoke(revoked)))
  {
    var job := Revocation(revoked, |s.log|);
    var mid := s.(queue := s.queue + [job]);
    AppendKeeps(s, mid, job);
    ShrinkKeeps(mid, Step(s, Revoke(revoked)));
  }

  lemma StepOrdered(s: State, e: Event)
    requires Inv(s) && Ordered(s)
    ensures Ordered(Step(s, e))
  {
    match e
    case Revoke(revoked) => RevokeOrdered(s, revoked);
    case Advance(id, expired, more, chosen) => if id in s.requests { AdvanceOrdered(s, id, expired, more, chosen); }
    case Restart(landed, granted) => RestartOrdered(s, landed, granted);
    case Fail(id) => if id in s.requests { CloseOrdered(s, id); }
    case Resolve(id) => ResolvingOrdered(s, id);
    case _ => ShrinkKeeps(s, Step(s, e));
  }

  lemma ResolvingOrdered(s: State, id: Id)
    requires Ordered(s)
    ensures Ordered(Step(s, Resolve(id)))
  {
    ShrinkKeeps(s, Step(s, Resolve(id)));
  }

  lemma RestartOrdered(s: State, landed: Option<nat>, granted: Option<Id>)
    requires Inv(s) && Ordered(s)
    ensures Ordered(Step(s, Restart(landed, granted)))
  {
    if InFlight(s, granted) {
      assert RequestOk(s, granted.value, s.requests[granted.value]);
    }
  }

  lemma {:induction false} RunOrdered(stored: Settings, grants: map<Origin, nat>, events: seq<Event>)
    ensures Ordered(Run(Initial(stored, grants), events))
  {
    if events != [] {
      var s := Run(Initial(stored, grants), events[..|events| - 1]);
      RunKeeps(stored, grants, events[..|events| - 1]);
      RunOrdered(stored, grants, events[..|events| - 1]);
      StepOrdered(s, events[|events| - 1]);
    }
  }

  // ---------- Main results ----------

  /** In every run, restarts included: a permission that was captured before a revocation of it is still
      there exactly while that revocation is queued, unless a restart forgot the revocation.  So an
      approval that was under way never undoes one. */
  lemma RevocationsHold(stored: Settings, grants: map<Origin, nat>, events: seq<Event>, origin: Origin, i: nat)
    requires
      var s := Run(Initial(stored, grants), events);
      origin in s.grants && RevokedAt(s.log, i, origin) && i !in s.lost
    ensures
      var s := Run(Initial(stored, grants), events);
      s.grants[origin] <= i <==> i in Places(s.queue)
  {
    var s := Run(Initial(stored, grants), events);
    RunKeeps(stored, grants, events);
    RunOrdered(stored, grants, events);
    PendingExactly(s, origin, i);
  }

  lemma PendingExactly(s: State, origin: Origin, i: nat)
    requires Inv(s) && Ordered(s) && origin in s.grants && RevokedAt(s.log, i, origin) && i !in s.lost
    ensures s.grants[origin] <= i <==> i in Places(s.queue)
  {
    assert GrantOk(s, origin, s.grants[origin]);
    if i in Places(s.queue) {
      var j :| 0 <= j < |s.queue| && s.queue[j].Revocation? && s.queue[j].at == i;
      assert PlaceOk(s, j);
    }
  }

  /** The permissions after a restart: those before it, and the one whose write was in flight, if it
      has landed. */
  lemma RestartPermissions(s: State, landed: Option<nat>, granted: Option<Id>, origin: Origin)
    requires Inv(s)
    ensures origin in Step(s, Restart(landed, granted)).grants <==>
              origin in s.grants || (InFlight(s, granted) && s.requests[granted.value].item.origin == origin)
  {
    if InFlight(s, granted) {
      assert RequestOk(s, granted.value, s.requests[granted.value]);
    }
  }

  /** A permission that is there after a restart was captured before a revocation of it exactly when
      that revocation was queued at the restart, in which case the revocation is lost: whether the
      permission was there already or its write has just landed. */
  lemma UndoneByRestartExactly(stored: Settings, grants: map<Origin, nat>, events: seq<Event>, landed: Option<nat>,
                               granted: Option<Id>, origin: Origin, i: nat)
    requires
      var s := Run(Initial(stored, grants), events);
      && origin in Step(s, Restart(landed, granted)).grants
      && RevokedAt(s.log, i, origin) && i !in s.lost
    ensures
      var s := Run(Initial(stored, grants), events);
      var t := Step(s, Restart(landed, granted));
      && (t.grants[origin] <= i <==> i in Places(s.queue))
      && (i in t.lost <==> i in Places(s.queue)) && t.queue == []
  {
    var s := Run(Initial(stored, grants), events);
    RunKeeps(stored, grants, events);
    RunOrdered(stored, grants, events);
    if InFlight(s, granted) && s.requests[granted.value].item.origin == origin {
      InFlightExactly(s, granted.value, origin, i);
    } else {
      RestartPermissions(s, landed, granted, origin);
      UntouchedByRestart(s, landed, granted, origin);
      PendingExactly(s, origin, i);
    }
  }

  lemma UntouchedByRestart(s: State, landed: Option<nat>, granted: Option<Id>, origin: Origin)
    requires Inv(s) && origin in s.grants
    requires InFlight(s, granted) ==> s.requests[granted.value].item.origin != origin
    ensures
      var t := Step(s, Restart(landed, granted));
      origin in t.grants && t.grants[origin] == s.grants[origin]
  {
    if InFlight(s, granted) {
      assert RequestOk(s, granted.value, s.requests[granted.value]);
    }
  }

  lemma InFlightExactly(s: State, id: Id, origin: Origin, i: nat)
    requires Inv(s) && Ordered(s) && InFlight(s, Some(id)) && s.requests[id].item.origin == origin
    requires RevokedAt(s.log, i, origin) && i !in s.lost
    ensures origin in s.requests[id].pc.grants
    ensures s.requests[id].pc.grants[origin] <= i <==> i in Places(s.queue)
  {
    assert RequestOk(s, id, s.requests[id]);
    if i in Places(s.queue) {
      var j :| 0 <= j < |s.queue| && s.queue[j].Revocation? && s.queue[j].at == i;
      assert PlaceOk(s, j) && s.queue[0] == ForRequest(id);
      assert RequestBefore(s, id, i);
    }
  }

  // ---------- A restart that adds a revoked permission ----------

  const ITEM := Item(5, Connect, Context(0, 0), true, 0)

  /** One request of site 5, in a wallet where nothing else happens. */
  function Alone(phase: Phase, queue: seq<Job>): State {
    State(true, 0, 0, [], 0, map[], 0, 0, map[], queue, {}, map[7 := phase], [])
  }

  lemma PutAlone(phase: Phase, queue: seq<Job>, next: Phase)
    ensures Put(Alone(phase, queue), 7, next) == Alone(next, queue)
  {
  }

  lemma OpenAlone(events: seq<Event>)
    requires events == [] + [Unlock, Open(7, 5, Connect), NEXT]
    ensures Run(Initial(0, map[]), events) == Alone(Opening(5, Connect, 0, 0, true, 0), [])
  {
    var s0 := Initial(0, map[]);
    Run3(s0, [], Unlock, Open(7, 5, Connect), NEXT);
    assert s0.grants == map[];
    var none: map<Id, Phase> := map[];
    assert Step(s0, Unlock) == State(true, 0, 0, [], 0, map[], 0, 0, map[], [], {}, none, []);
    assert Step(Step(s0, Unlock), Open(7, 5, Connect)) == Alone(Started(5, Connect, 0, true, 0), []);
    PutAlone(Started(5, Connect, 0, true, 0), [], Opening(5, Connect, 0, 0, true, 0));
  }

  lemma PendAlone(s0: State, events: seq<Event>)
    requires Run(s0, events) == Alone(Opening(5, Connect, 0, 0, true, 0), [])
    ensures Run(s0, events + [NEXT, NEXT, Resolve(7)]) == Alone(Resolving(ITEM, ITEM.context, Reading(Compare, 0)), [])
  {
    Run3(s0, events, NEXT, NEXT, Resolve(7));
    PutAlone(Opening(5, Connect, 0, 0, true, 0), [], Captured(ITEM));
    PutAlone(Captured(ITEM), [], Pending(ITEM));
    PutAlone(Pending(ITEM), [], Resolving(ITEM, ITEM.context, Reading(Compare, 0)));
  }

  lemma CompareAlone(s0: State, events: seq<Event>)
    requires Run(s0, events) == Alone(Resolving(ITEM, ITEM.context, Reading(Compare, 0)), [])
    ensures Run(s0, events + [NEXT, NEXT, NEXT]) == Alone(Resolving(ITEM, ITEM.context, Reading(Enter, 0)), [])
  {
    Run3(s0, events, NEXT, NEXT, NEXT);
    CompareSteps(Run(s0, events));
  }

  lemma CompareSteps(s: State)
    requires s == Alone(Resolving(ITEM, ITEM.context, Reading(Compare, 0)), [])
    ensures Step(Step(Step(s, NEXT), NEXT), NEXT) == Alone(Resolving(ITEM, ITEM.context, Reading(Enter, 0)), [])
  {
    var c := ITEM.context;
    PutAlone(Resolving(ITEM, c, Reading(Compare, 0)), [], Resolving(ITEM, c, Have(Compare, 0, 0)));
    PutAlone(Resolving(ITEM, c, Have(Compare, 0, 0)), [], Resolving(ITEM, c, Got(Compare, c)));
    PutAlone(Resolving(ITEM, c, Got(Compare, c)), [], Resolving(ITEM, c, Reading(Enter, 0)));
  }

  lemma StageAlone(s0: State, events: seq<Event>, stage: Stage, queue: seq<Job>)
    requires stage != Compare && Run(s0, events) == Alone(Resolving(ITEM, ITEM.context, Reading(stage, 0)), queue)
    ensures Run(s0, events + [NEXT, NEXT, NEXT]) == Alone(Resolving(ITEM, ITEM.context, Passed(stage, 0)), queue)
  {
    Run3(s0, events, NEXT, NEXT, NEXT);
    CheckPasses(Run(s0, events), ITEM, stage);
    PutAlone(Resolving(ITEM, ITEM.context, Reading(stage, 0)), queue, Resolving(ITEM, ITEM.context, Passed(stage, 0)));
  }

  lemma WaitAlone(s: State)
    requires s == Alone(Resolving(ITEM, ITEM.context, Passed(Enter, 0)), [])
    ensures Step(s, NEXT) == Alone(Resolving(ITEM, ITEM.context, Queued), [ForRequest(7)])
  {
    PutAlone(s.requests[7], [], Resolving(ITEM, ITEM.context, Queued));
  }

  lemma TurnAlone(s: State)
    requires s == Alone(Resolving(ITEM, ITEM.context, Queued), [ForRequest(7)])
    ensures Step(s, NEXT) == Alone(Resolving(ITEM, ITEM.context, Reading(GrantBefore(map[]), 0)), [ForRequest(7)])
  {
    PutAlone(s.requests[7], s.queue, Resolving(ITEM, ITEM.context, Reading(GrantBefore(map[]), 0)));
  }

  lemma WriteAlone(s: State)
    requires s == Alone(Resolving(ITEM, ITEM.context, Passed(GrantBefore(map[]), 0)), [ForRequest(7)])
    ensures Step(s, NEXT) == Alone(Resolving(ITEM, ITEM.context, GrantWriting(map[5 := 0])), [ForRequest(7)])
  {
    PutAlone(s.requests[7], s.queue, Resolving(ITEM, ITEM.context, GrantWriting(map[5 := 0])));
  }

  /** A site is revoked while its permission is being written, is not permitted, and is permitted after
      the restart that lets the write land and forgets the revocation. */
  lemma RestartMayPermit() returns (events: seq<Event>)
    ensures
      var s := Run(Initial(0, map[]), events);
      var t := Step(s, Restart(None, Some(7)));
      5 !in s.grants && RevokedAt(s.log, 0, 5) && 5 in t.grants && t.queue == [] && 0 in t.lost
  {
    var s0 := Initial(0, map[]);
    events := [] + [Unlock, Open(7, 5, Connect), NEXT];
    OpenAlone(events);
    PendAlone(s0, events);
    events := events + [NEXT, NEXT, Resolve(7)];
    CompareAlone(s0, events);
    events := events + [NEXT, NEXT, NEXT];
    StageAlone(s0, events, Enter, []);
    events := events + [NEXT, NEXT, NEXT];
    RunSnoc(s0, events, NEXT);
    WaitAlone(Run(s0, events));
    events := events + [NEXT];
    RunSnoc(s0, events, NEXT);
    TurnAlone(Run(s0, events));
    events := events + [NEXT];
    StageAlone(s0, events, GrantBefore(map[]), [ForRequest(7)]);
    events := events + [NEXT, NEXT, NEXT];
    RunSnoc(s0, events, NEXT);
    WriteAlone(Run(s0, events));
    events := events + [NEXT];
    RunSnoc(s0, events, Revoke(Some(5)));
    RevokeThenRestart(Run(s0, events));
    events := events + [Revoke(Some(5))];
  }

  lemma RevokeThenRestart(w: State)
    requires w == Alone(Resolving(ITEM, ITEM.context, GrantWriting(map[5 := 0])), [ForRequest(7)])
    ensures
      var s := Step(w, Revoke(Some(5)));
      var t := Step(s, Restart(None, Some(7)));
      5 !in s.grants && RevokedAt(s.log, 0, 5) && 5 in t.grants && t.queue == [] && 0 in t.lost
  {
    var s := Step(w, Revoke(Some(5)));
    assert s.queue == [ForRequest(7), Revocation(Some(5), 0)];
    assert s.queue[1].at == 0;
  }
}
