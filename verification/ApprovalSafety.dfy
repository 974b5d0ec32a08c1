/** Safety of the approval protocol over every run. */
module ApprovalSafety {
  import opened Wrappers
  import opened ApprovalProtocol

  // ---------- The properties ----------

  /** What a success means: the wallet is unlocked, nothing has advanced the revision since the
      request's context was captured except the network switch of a request for one, and the settings
      read last are the reviewed ones, or those that switch wrote.  If no settings write was in flight
      at the capture and no first-wallet write began since, they are also still the stored ones. */
  ghost predicate PostOk(p: Post) {
    && p.unlocked
    && (p.kind == Switch ==> p.since == [OwnSwitch(p.id, p.finalRead)])
    && (p.kind != Switch ==> p.since == [] && p.finalRead == p.reviewed)
    && (p.undisturbed ==> p.stored == p.finalRead)
  }

  /** Place `i` of the log is a revocation of this origin. */
  ghost predicate RevokedAt(log: seq<Bump>, i: nat, origin: Origin) {
    i < |log| && log[i].Revoked? && Revokes(log[i].origin, origin)
  }

  /** A permission that was revoked after its request was captured still has that revocation to come,
      unless a restart forgot it. */
  ghost predicate GrantOk(s: State, origin: Origin, captured: nat) {
    forall i: nat {:trigger RevokedAt(s.log, i, origin)} ::
      captured <= i && RevokedAt(s.log, i, origin) ==> i in s.lost || i in Places(s.queue)
  }

  /** The queued revocations are those the log records. */
  ghost predicate QueueOk(s: State) {
    forall j {:trigger s.queue[j].Revocation?} :: 0 <= j < |s.queue| && s.queue[j].Revocation? ==>
      s.queue[j].at < |s.log| && s.log[s.queue[j].at] == Revoked(s.queue[j].origin)
  }

  // ---------- The invariant ----------

  ghost predicate Undisturbed(s: State, quiet: bool, firstWrites: nat, revision: nat) {
    quiet && firstWrites == s.firstWrites && revision == s.revision
  }

  ghost predicate StoredIs(s: State, settings: Settings) {
    s.writes == map[] && s.stored == settings
  }

  ghost predicate ItemOk(s: State, item: Item) {
    item.context.revision <= s.revision && item.firstWrites <= s.firstWrites
  }

  ghost predicate Switched(s: State, id: Id, item: Item, context: Context) {
    && context.revision == item.context.revision + 1 && s.base + context.revision <= |s.log|
    && s.log[CapturedAt(s, item)] == OwnSwitch(id, context.settings)
  }

  predicate Early(pc: Pc) {
    || pc.Asking? || pc.Answered? || pc.Switching? || pc.SwitchWriting?
    || (pc.Reading? && EarlyStage(pc.stage)) || (pc.Have? && EarlyStage(pc.stage))
    || (pc.Got? && EarlyStage(pc.stage)) || (pc.Passed? && EarlyStage(pc.stage))
  }

  predicate EarlyStage(stage: Stage) {
    stage.Compare? || stage.Enter? || stage.Permit? || stage.Start? || stage.Work?
  }

  /** A stretch of the handler that only requests of one kind come to. */
  predicate KindOk(kind: Kind, pc: Pc) {
    && (pc.Switching? || pc.SwitchWriting? ==> kind == Switch)
    && (pc.Reading? || pc.Have? || pc.Got? || pc.Passed? ==> (pc.stage.Start? || pc.stage.Work? ==> kind == Sign))
  }

  /** The grants a request read while its permission job is running. */
  ghost predicate StageOk(s: State, stage: Stage) {
    stage.GrantBefore? ==> stage.grants == s.grants
  }

  ghost predicate PcOk(s: State, id: Id, item: Item, context: Context, pc: Pc) {
    && (InGrant(pc) ==> s.queue != [] && s.queue[0] == ForRequest(id))
    && match pc
       case Reading(stage, revision) => revision <= s.revision && StageOk(s, stage)
       case Have(stage, revision, _) => revision <= s.revision && StageOk(s, stage)
       case Got(stage, _) => StageOk(s, stage)
       case Passed(stage, read) => read == context.settings && StageOk(s, stage) && !stage.Compare?
       case Asking => true
       case Answered(_) => true
       case Switching => true
       case SwitchWriting(next, revision, write) => Switched(s, id, item, Context(next, revision))
       case Queued => true
       case GrantWriting(grants) =>
         && grants == s.grants[item.origin := CapturedAt(s, item)]
         && GrantOk(s, item.origin, CapturedAt(s, item))
  }

  ghost predicate QuietOk(s: State, item: Item, context: Context, pc: Pc) {
    if pc.SwitchWriting? then
      Undisturbed(s, item.quiet, item.firstWrites, pc.revision) ==>
        s.writes == map[pc.write := pc.next] || StoredIs(s, pc.next)
    else
      Undisturbed(s, item.quiet, item.firstWrites, context.revision) ==> StoredIs(s, context.settings)
  }

  ghost predicate RequestOk(s: State, id: Id, phase: Phase) {
    match phase
    case Started(_, _, revision, quiet, firstWrites) =>
      && revision <= s.revision && firstWrites <= s.firstWrites
      && (Undisturbed(s, quiet, firstWrites, revision) ==> s.writes == map[])
    case Opening(_, _, revision, settings, quiet, firstWrites) =>
      && revision <= s.revision && firstWrites <= s.firstWrites
      && (Undisturbed(s, quiet, firstWrites, revision) ==> StoredIs(s, settings))
    case Captured(item) =>
      && ItemOk(s, item)
      && (Undisturbed(s, item.quiet, item.firstWrites, item.context.revision) ==> StoredIs(s, item.context.settings))
    case Pending(item) =>
      && ItemOk(s, item)
      && (Undisturbed(s, item.quiet, item.firstWrites, item.context.revision) ==> StoredIs(s, item.context.settings))
    case Resolving(item, context, pc) =>
      && ItemOk(s, item)
      && (context == item.context || Switched(s, id, item, context))
      && (Early(pc) || item.kind != Switch ==> context == item.context)
      && (!Early(pc) && item.kind == Switch ==> Switched(s, id, item, context))
      && KindOk(item.kind, pc)
      && PcOk(s, id, item, context, pc)
      && QuietOk(s, item, context, pc)
    case Closed => true
  }

  ghost predicate Base(s: State) {
    && s.base + s.revision == |s.log|
    && QueueOk(s)
    && (forall w :: w in s.writes ==> w < s.nextWrite)
    && (forall o {:trigger GrantOk(s, o, s.grants[o])} :: o in s.grants ==> GrantOk(s, o, s.grants[o]))
    && (forall i :: 0 <= i < |s.posts| ==> PostOk(s.posts[i]))
  }

  ghost predicate AllRequestsOk(s: State) {
    forall id {:trigger RequestOk(s, id, s.requests[id])} :: id in s.requests ==> RequestOk(s, id, s.requests[id])
  }

  ghost predicate Inv(s: State) {
    Base(s) && AllRequestsOk(s)
  }

  // ---------- Steps that concern every request ----------

  lemma PlacesAppend(queue: seq<Job>, more: seq<Job>)
    ensures Places(queue + more) == Places(queue) + Places(more)
  {
    var all := queue + more;
    forall i | i in Places(queue) ensures i in Places(all) {
      var j :| 0 <= j < |queue| && queue[j].Revocation? && queue[j].at == i;
      assert all[j] == queue[j];
    }
    forall i | i in Places(more) ensures i in Places(all) {
      var j :| 0 <= j < |more| && more[j].Revocation? && more[j].at == i;
      assert all[|queue| + j] == more[j];
    }
  }

  /** Taking the first job off the queue takes off its revocation, if it is one, and nothing else. */
  lemma PlacesTail(queue: seq<Job>)
    requires queue != []
    ensures Places(queue) == Places(queue[1..]) + (if queue[0].Revocation? then {queue[0].at} else {})
  {
    assert queue == [queue[0]] + queue[1..];
    PlacesAppend([queue[0]], queue[1..]);
    assert Places([queue[0]]) == if queue[0].Revocation? then {queue[0].at} else {} by {
      assert [queue[0]][0] == queue[0];
    }
  }

  /** `t` is `s` after a bump, with the revocation job of that bump (if any) queued. */
  ghost predicate AfterBump(s: State, t: State, bump: Bump) {
    && t.revision == s.revision + 1 && t.base == s.base && t.log == s.log + [bump]
    && t.queue == s.queue + BumpJobs(s, bump) && t.lost == s.lost
    && t.grants == s.grants && t.firstWrites == s.firstWrites && t.posts == s.posts
  }

  function BumpJobs(s: State, bump: Bump): seq<Job> {
    if bump.Revoked? then [Revocation(bump.origin, |s.log|)] else []
  }

  lemma GrantAfterBump(s: State, t: State, bump: Bump, origin: Origin, captured: nat)
    requires AfterBump(s, t, bump) && GrantOk(s, origin, captured)
    ensures GrantOk(t, origin, captured)
  {
    PlacesAppend(s.queue, BumpJobs(s, bump));
    forall i: nat | captured <= i && RevokedAt(t.log, i, origin) ensures i in t.lost || i in Places(t.queue) {
      if i < |s.log| {
        assert RevokedAt(s.log, i, origin);
      } else {
        assert BumpJobs(s, bump)[0].at == i;
      }
    }
  }

  lemma QueueAfterBump(s: State, t: State, bump: Bump)
    requires AfterBump(s, t, bump) && QueueOk(s)
    ensures QueueOk(t)
  {
    forall j | 0 <= j < |t.queue| && t.queue[j].Revocation?
      ensures t.queue[j].at < |t.log| && t.log[t.queue[j].at] == Revoked(t.queue[j].origin)
    {
      if j < |s.queue| {
        assert t.queue[j] == s.queue[j] && s.queue[j].Revocation?;
      }
    }
  }

  lemma RequestAfterBump(s: State, t: State, bump: Bump, id: Id, phase: Phase)
    requires Base(s) && AfterBump(s, t, bump) && RequestOk(s, id, phase)
    ensures RequestOk(t, id, phase)
  {
    if phase.Resolving? {
      GrantAfterBumpIfWriting(s, t, bump, phase);
    }
  }

  lemma GrantAfterBumpIfWriting(s: State, t: State, bump: Bump, phase: Phase)
    requires AfterBump(s, t, bump) && phase.Resolving?
    requires phase.pc.GrantWriting? ==> GrantOk(s, phase.item.origin, CapturedAt(s, phase.item))
    ensures phase.pc.GrantWriting? ==> GrantOk(t, phase.item.origin, CapturedAt(t, phase.item))
  {
    if phase.pc.GrantWriting? {
      GrantAfterBump(s, t, bump, phase.item.origin, CapturedAt(s, phase.item));
    }
  }

  lemma BumpKeeps(s: State, t: State, bump: Bump)
    requires Inv(s) && AfterBump(s, t, bump)
    requires forall w :: w in t.writes ==> w < t.nextWrite
    requires t.requests == s.requests || t.requests == Cancelled(s.requests)
    ensures Inv(t)
  {
    QueueAfterBump(s, t, bump);
    forall o | o in t.grants ensures GrantOk(t, o, t.grants[o]) {
      GrantAfterBump(s, t, bump, o, t.grants[o]);
    }
    forall id | id in t.requests ensures RequestOk(t, id, t.requests[id]) {
      if t.requests[id] != Closed {
        RequestAfterBump(s, t, bump, id, t.requests[id]);
      }
    }
  }

  lemma FirstWriteKeeps(s: State, next: Settings)
    requires Inv(s)
    ensures Inv(Step(s, FirstWrite(next)))
  {
    var t := Step(s, FirstWrite(next));
    forall o | o in t.grants ensures GrantOk(t, o, t.grants[o]) {
      assert GrantOk(s, o, s.grants[o]);
    }
    forall id | id in t.requests ensures RequestOk(t, id, t.requests[id]) {
      assert RequestOk(s, id, s.requests[id]);
    }
  }

  lemma WriteLandsKeeps(s: State, write: nat)
    requires Inv(s)
    ensures Inv(Step(s, WriteLands(write)))
  {
    var t := Step(s, WriteLands(write));
    forall o | o in t.grants ensures GrantOk(t, o, t.grants[o]) {
      assert GrantOk(s, o, s.grants[o]);
    }
    forall id | id in t.requests ensures RequestOk(t, id, t.requests[id]) {
      var phase := s.requests[id];
      assert RequestOk(s, id, phase);
      if write in s.writes && phase.Resolving? && phase.pc.SwitchWriting?
         && s.writes == map[phase.pc.write := phase.pc.next] {
        assert write == phase.pc.write;
        assert t.writes == map[];
      }
    }
  }

  lemma RevocationRunsKeeps(s: State)
    requires Inv(s)
    ensures Inv(Step(s, RevocationRuns))
  {
    var t := Step(s, RevocationRuns);
    if s.queue != [] && s.queue[0].Revocation? {
      PlacesTail(s.queue);
      QueueTail(s, t);
      forall o | o in t.grants ensures GrantOk(t, o, t.grants[o]) {
        assert GrantOk(s, o, s.grants[o]);
        assert !RevokedAt(s.log, s.queue[0].at, o);
      }
      forall id | id in t.requests ensures RequestOk(t, id, t.requests[id]) {
        assert RequestOk(s, id, s.requests[id]);
      }
    }
  }

  lemma RestartKeeps(s: State, landed: Option<nat>, granted: Option<Id>)
    requires Inv(s)
    ensures Inv(Step(s, Restart(landed, granted)))
  {
    var t := Step(s, Restart(landed, granted));
    if InFlight(s, granted) {
      assert RequestOk(s, granted.value, s.requests[granted.value]);
    }
    forall o | o in t.grants ensures GrantOk(t, o, t.grants[o]) {
      assert o in s.grants ==> GrantOk(s, o, s.grants[o]);
      assert GrantOk(s, o, t.grants[o]);
    }
  }

  // ---------- Steps of one request ----------

  lemma PutKeeps(s: State, id: Id, phase: Phase)
    requires Inv(s) && RequestOk(s, id, phase)
    ensures Inv(Put(s, id, phase))
  {
    var t := Put(s, id, phase);
    forall o | o in t.grants ensures GrantOk(t, o, t.grants[o]) {
      assert GrantOk(s, o, s.grants[o]);
    }
    forall other | other in t.requests ensures RequestOk(t, other, t.requests[other]) {
      assert other != id ==> RequestOk(s, other, s.requests[other]);
      SameView(s, t, other, t.requests[other]);
    }
  }

  /** What is required of a request does not depend on the other requests. */
  lemma SameView(s: State, t: State, id: Id, phase: Phase)
    requires t == s.(requests := t.requests) && RequestOk(s, id, phase)
    ensures RequestOk(t, id, phase)
  {
  }

  lemma GrantAfterDequeue(s: State, t: State, origin: Origin, captured: nat)
    requires s.queue != [] && s.queue[0].ForRequest? && t.queue == s.queue[1..] && t.log == s.log && t.lost == s.lost
    requires GrantOk(s, origin, captured)
    ensures GrantOk(t, origin, captured)
  {
    PlacesTail(s.queue);
  }

  lemma QueueTail(s: State, t: State)
    requires QueueOk(s) && s.queue != [] && t.queue == s.queue[1..] && t.log == s.log
    ensures QueueOk(t)
  {
    forall j | 0 <= j < |t.queue| && t.queue[j].Revocation?
      ensures t.queue[j].at < |t.log| && t.log[t.queue[j].at] == Revoked(t.queue[j].origin)
    {
      assert t.queue[j] == s.queue[j + 1] && s.queue[j + 1].Revocation?;
    }
  }

  /** The running permission job ends; no other request can have been inside one. */
  lemma DequeueKeeps(s: State, id: Id, phase: Phase)
    requires Inv(s) && s.queue != [] && s.queue[0] == ForRequest(id)
    requires RequestOk(s.(queue := s.queue[1..]), id, phase)
    ensures Inv(Put(s.(queue := s.queue[1..]), id, phase))
  {
    var shorter := s.(queue := s.queue[1..]);
    var t := Put(shorter, id, phase);
    QueueTail(s, t);
    forall o | o in t.grants ensures GrantOk(t, o, t.grants[o]) {
      assert GrantOk(s, o, s.grants[o]);
      GrantAfterDequeue(s, t, o, s.grants[o]);
    }
    forall other | other in t.requests ensures RequestOk(t, other, t.requests[other]) {
      if other == id {
        SameView(shorter, t, id, phase);
      } else {
        assert RequestOk(s, other, s.requests[other]);
      }
    }
  }

  lemma CloseKeeps(s: State, id: Id)
    requires Inv(s) && id in s.requests
    ensures Inv(Close(s, id))
  {
    assert RequestOk(s, id, s.requests[id]);
    var phase := s.requests[id];
    if phase.Resolving? && InGrant(phase.pc) {
      DequeueKeeps(s, id, Closed);
    } else {
      PutKeeps(s, id, Closed);
    }
  }

  lemma CheckedKeeps(s: State, expired: bool, id: Id)
    requires Inv(s) && id in s.requests && s.requests[id].Resolving?
    ensures Inv(Checked(s, expired))
    ensures id in Checked(s, expired).requests && Checked(s, expired).requests[id] == s.requests[id]
    ensures Checked(s, expired).grants == s.grants
  {
    if s.unlocked && expired {
      BumpKeeps(s, LockedState(s), Locked);
    }
  }

  lemma EnqueueKeeps(s: State, id: Id, item: Item, context: Context)
    requires Inv(s) && RequestOk(s, id, Resolving(item, context, Queued))
    ensures Inv(Enqueue(s, id, item, context))
  {
    PutKeeps(s, id, Resolving(item, context, Queued));
    var mid, t := At(s, id, item, context, Queued), Enqueue(s, id, item, context);
    PlacesAppend(mid.queue, [ForRequest(id)]);
    forall o, captured | GrantOk(mid, o, captured) ensures GrantOk(t, o, captured) {
    }
    forall j | 0 <= j < |t.queue| && t.queue[j].Revocation?
      ensures t.queue[j] == mid.queue[j] && mid.queue[j].Revocation?
    {
    }
    forall other | other in t.requests ensures RequestOk(t, other, t.requests[other]) {
      assert RequestOk(mid, other, mid.requests[other]);
    }
  }

  lemma GrantedKeeps(s: State, id: Id, item: Item, context: Context, grants: map<Origin, nat>)
    requires Inv(s) && id in s.requests && s.requests[id] == Resolving(item, context, GrantWriting(grants))
    ensures Inv(At(s.(grants := grants), id, item, context, Reading(GrantAfter, s.revision)))
  {
    assert RequestOk(s, id, s.requests[id]);
    var t := At(s.(grants := grants), id, item, context, Reading(GrantAfter, s.revision));
    forall o | o in t.grants ensures GrantOk(t, o, t.grants[o]) {
      assert o != item.origin ==> GrantOk(s, o, s.grants[o]);
      assert o == item.origin ==> GrantOk(s, o, CapturedAt(s, item));
    }
    forall other | other in t.requests ensures RequestOk(t, other, t.requests[other]) {
      if other != id {
        OthersNotInGrant(s, id, other, t);
      }
    }
  }

  /** While one request has its turn in the queue, what it writes concerns no other. */
  lemma OthersNotInGrant(s: State, id: Id, other: Id, t: State)
    requires Inv(s) && other in s.requests && other != id && s.queue != [] && s.queue[0] == ForRequest(id)
    requires t == s.(grants := t.grants, requests := t.requests)
    ensures RequestOk(t, other, s.requests[other])
  {
    assert RequestOk(s, other, s.requests[other]);
  }

  lemma NotRevokedYet(s: State, id: Id, item: Item, context: Context)
    requires Base(s) && Valid(s, context)
    requires context == item.context || Switched(s, id, item, context)
    ensures GrantOk(s, item.origin, CapturedAt(s, item))
  {
  }

  lemma PostKeeps(s: State, id: Id, item: Item, context: Context, read: Settings)
    requires Inv(s) && id in s.requests && Valid(s, context)
    requires s.requests[id] == Resolving(item, context, Passed(Final, read))
    ensures Inv(PostSuccess(s, id, item, read))
  {
    assert RequestOk(s, id, s.requests[id]);
    var t := PostSuccess(s, id, item, read);
    var p := t.posts[|s.posts|];
    assert p.since == if item.kind == Switch then [OwnSwitch(id, context.settings)] else [];
    assert PostOk(p);
    PutKeeps(s, id, Closed);
    var mid := Put(s, id, Closed);
    forall o | o in t.grants ensures GrantOk(t, o, t.grants[o]) {
      assert GrantOk(mid, o, mid.grants[o]);
    }
    forall other | other in t.requests ensures RequestOk(t, other, t.requests[other]) {
      assert RequestOk(mid, other, mid.requests[other]);
    }
  }

  lemma ContinueKeeps(s: State, id: Id, item: Item, context: Context, stage: Stage, read: Settings,
                      expired: bool, more: bool)
    requires Inv(s) && id in s.requests && s.requests[id] == Resolving(item, context, Passed(stage, read))
    ensures Inv(Continue(s, id, item, context, stage, read, expired, more))
  {
    assert RequestOk(s, id, s.requests[id]);
    if stage.GrantBefore? {
      GrantBeforeKeeps(s, id, item, context, stage.grants, read, expired, more);
    } else if stage.GrantAfter? {
      DequeueKeeps(s, id, Resolving(item, context, Reading(Final, s.revision)));
    } else if stage.Final? {
      FinalKeeps(s, id, item, context, read, expired, more);
    } else {
      MoveKeeps(s, id, item, context, stage, read, expired, more);
    }
  }

  lemma MoveKeeps(s: State, id: Id, item: Item, context: Context, stage: Stage, read: Settings,
                  expired: bool, more: bool)
    requires Inv(s) && id in s.requests && s.requests[id] == Resolving(item, context, Passed(stage, read))
    requires EarlyStage(stage)
    ensures Inv(Continue(s, id, item, context, stage, read, expired, more))
  {
    assert RequestOk(s, id, s.requests[id]);
    match stage
    case Compare =>
    case Enter =>
      if item.kind == Connect { EnqueueKeeps(s, id, item, context); }
      else { PutKeeps(s, id, Resolving(item, context, Asking)); }
    case Permit =>
      if item.kind == Switch { PutKeeps(s, id, Resolving(item, context, Switching)); }
      else if item.kind == Sign { PutKeeps(s, id, Resolving(item, context, Reading(Start, s.revision))); }
      else { PutKeeps(s, id, Resolving(item, context, Reading(Final, s.revision))); }
    case Start => PutKeeps(s, id, Resolving(item, context, Reading(Work, s.revision)));
    case Work => PutKeeps(s, id, Resolving(item, context, Reading(if more then Work else Final, s.revision)));
  }

  lemma GrantBeforeKeeps(s: State, id: Id, item: Item, context: Context, grants: map<Origin, nat>, read: Settings,
                         expired: bool, more: bool)
    requires Inv(s) && id in s.requests && s.requests[id] == Resolving(item, context, Passed(GrantBefore(grants), read))
    ensures Inv(Continue(s, id, item, context, GrantBefore(grants), read, expired, more))
  {
    CheckedKeeps(s, expired, id);
    var s1 := Checked(s, expired);
    assert RequestOk(s1, id, s1.requests[id]);
    if Valid(s1, context) {
      NotRevokedYet(s1, id, item, context);
      PutKeeps(s1, id, Resolving(item, context, GrantWriting(grants[item.origin := CapturedAt(s1, item)])));
    } else {
      CloseKeeps(s1, id);
    }
  }

  lemma FinalKeeps(s: State, id: Id, item: Item, context: Context, read: Settings, expired: bool, more: bool)
    requires Inv(s) && id in s.requests && s.requests[id] == Resolving(item, context, Passed(Final, read))
    ensures Inv(Continue(s, id, item, context, Final, read, expired, more))
  {
    CheckedKeeps(s, expired, id);
    var s1 := Checked(s, expired);
    if Valid(s1, context) { PostKeeps(s1, id, item, context, read); } else { CloseKeeps(s1, id); }
  }

  lemma SwitchKeeps(s: State, id: Id, item: Item, context: Context, chosen: Settings)
    requires Inv(s) && id in s.requests && s.requests[id] == Resolving(item, context, Switching) && Valid(s, context)
    ensures
      var s2 := BumpedAndCancelled(s, OwnSwitch(id, chosen));
      Inv(At(BeginWrite(s2, chosen), id, item, context, SwitchWriting(chosen, s2.revision, s2.nextWrite)))
  {
    assert RequestOk(s, id, s.requests[id]);
    var s2 := BumpedAndCancelled(s, OwnSwitch(id, chosen));
    var s3 := BeginWrite(s2, chosen);
    BumpKeeps(s, s3, OwnSwitch(id, chosen));
    if Undisturbed(s, item.quiet, item.firstWrites, context.revision) {
      assert s3.writes == map[s2.nextWrite := chosen];
    }
    PutKeeps(s3, id, Resolving(item, context, SwitchWriting(chosen, s2.revision, s2.nextWrite)));
  }

  lemma GotKeeps(s: State, id: Id, item: Item, context: Context, stage: Stage, expired: bool)
    requires Inv(s) && id in s.requests && s.requests[id] == Resolving(item, context, Got(stage, context))
    requires stage != Compare
    ensures
      var s1 := Checked(s, expired);
      Inv(if Valid(s1, context) then At(s1, id, item, context, Passed(stage, context.settings)) else Close(s1, id))
  {
    CheckedKeeps(s, expired, id);
    var s1 := Checked(s, expired);
    assert RequestOk(s1, id, s1.requests[id]);
    if Valid(s1, context) {
      PutKeeps(s1, id, Resolving(item, context, Passed(stage, context.settings)));
    } else {
      CloseKeeps(s1, id);
    }
  }

  lemma ReadKeeps(s: State, id: Id, item: Item, context: Context, pc: Pc, expired: bool, more: bool, chosen: Settings)
    requires Inv(s) && id in s.requests && s.requests[id] == Resolving(item, context, pc) && (pc.Reading? || pc.Have?)
    ensures Inv(AdvanceResolve(s, id, item, context, pc, expired, more, chosen))
  {
    assert RequestOk(s, id, s.requests[id]);
    if pc.Reading? {
      PutKeeps(s, id, Resolving(item, context, Have(pc.stage, pc.revision, s.stored)));
    } else if pc.revision == s.revision {
      PutKeeps(s, id, Resolving(item, context, Got(pc.stage, Context(pc.settings, pc.revision))));
    } else {
      CloseKeeps(s, id);
    }
  }

  lemma AskKeeps(s: State, id: Id, item: Item, context: Context, pc: Pc, expired: bool, more: bool, chosen: Settings)
    requires Inv(s) && id in s.requests && s.requests[id] == Resolving(item, context, pc)
    requires pc.Asking? || pc.Answered? || pc.Queued?
    ensures Inv(AdvanceResolve(s, id, item, context, pc, expired, more, chosen))
  {
    assert RequestOk(s, id, s.requests[id]);
    match pc
    case Asking => PutKeeps(s, id, Resolving(item, context, Answered(item.origin in s.grants)));
    case Answered(permitted) =>
      if permitted {
        PutKeeps(s, id, Resolving(item, context, Reading(Permit, s.revision)));
      } else {
        CloseKeeps(s, id);
      }
    case Queued =>
      if s.queue != [] && s.queue[0] == ForRequest(id) {
        PutKeeps(s, id, Resolving(item, context, Reading(GrantBefore(s.grants), s.revision)));
      }
  }

  lemma AdvanceResolveKeeps(s: State, id: Id, item: Item, context: Context, pc: Pc,
                            expired: bool, more: bool, chosen: Settings)
    requires Inv(s) && id in s.requests && s.requests[id] == Resolving(item, context, pc)
    ensures Inv(AdvanceResolve(s, id, item, context, pc, expired, more, chosen))
  {
    assert RequestOk(s, id, s.requests[id]);
    match pc
    case Reading(_, _) => ReadKeeps(s, id, item, context, pc, expired, more, chosen);
    case Have(_, _, _) => ReadKeeps(s, id, item, context, pc, expired, more, chosen);
    case Asking => AskKeeps(s, id, item, context, pc, expired, more, chosen);
    case Answered(_) => AskKeeps(s, id, item, context, pc, expired, more, chosen);
    case Queued => AskKeeps(s, id, item, context, pc, expired, more, chosen);
    case Got(stage, current) =>
      if current != context { CloseKeeps(s, id); }
      else if stage == Compare { PutKeeps(s, id, Resolving(item, context, Reading(Enter, s.revision))); }
      else { GotKeeps(s, id, item, context, stage, expired); }
    case Passed(stage, read) => ContinueKeeps(s, id, item, context, stage, read, expired, more);
    case Switching =>
      CheckedKeeps(s, expired, id);
      var s1 := Checked(s, expired);
      if Valid(s1, context) { SwitchKeeps(s1, id, item, context, chosen); } else { CloseKeeps(s1, id); }
    case SwitchWriting(next, revision, write) =>
      if write in s.writes {
      } else if s.unlocked && revision == s.revision {
        assert write !in s.writes;
        EnqueueKeeps(s, id, item, Context(next, revision));
      } else {
        CloseKeeps(s, id);
      }
    case GrantWriting(grants) => GrantedKeeps(s, id, item, context, grants);
  }

  lemma AdvanceKeeps(s: State, id: Id, expired: bool, more: bool, chosen: Settings)
    requires Inv(s) && id in s.requests
    ensures Inv(AdvanceRequest(s, id, expired, more, chosen))
  {
    assert RequestOk(s, id, s.requests[id]);
    match s.requests[id]
    case Started(origin, kind, revision, quiet, firstWrites) =>
      PutKeeps(s, id, Opening(origin, kind, revision, s.stored, quiet, firstWrites));
    case Opening(origin, kind, revision, settings, quiet, firstWrites) =>
      if revision == s.revision {
        PutKeeps(s, id, Captured(Item(origin, kind, Context(settings, revision), quiet, firstWrites)));
      } else {
        PutKeeps(s, id, Closed);
      }
    case Captured(item) => PutKeeps(s, id, Pending(item));
    case Pending(_) =>
    case Resolving(item, context, pc) => AdvanceResolveKeeps(s, id, item, context, pc, expired, more, chosen);
    case Closed =>
  }

  lemma StepKeeps(s: State, e: Event)
    requires Inv(s)
    ensures Inv(Step(s, e))
  {
    match e
    case Lock => BumpKeeps(s, Step(s, e), Locked);
    case Unlock =>
      UnlockKeeps(s);
    case Protect => BumpKeeps(s, Step(s, e), Protected);
    case UiUpdate(next) => BumpKeeps(s, Step(s, e), Updated);
    case FirstWrite(next) => FirstWriteKeeps(s, next);
    case WriteLands(write) => WriteLandsKeeps(s, write);
    case Revoke(revoked) => BumpKeeps(s, Step(s, e), Revoked(revoked));
    case RevocationRuns => RevocationRunsKeeps(s);
    case Open(id, origin, kind) =>
      if id !in s.requests {
        PutKeeps(s, id, Started(origin, kind, s.revision, s.writes == map[], s.firstWrites));
      }
    case Drop(id) =>
      if id in s.requests && s.requests[id].Pending? { PutKeeps(s, id, Closed); }
    case Resolve(id) =>
      if id in s.requests && s.requests[id].Pending? {
        assert RequestOk(s, id, s.requests[id]);
        var item := s.requests[id].item;
        PutKeeps(s, id, if s.unlocked then Resolving(item, item.context, Reading(Compare, s.revision)) else Closed);
      }
    case Fail(id) =>
      if id in s.requests && s.requests[id].Resolving? && !s.requests[id].pc.Queued? { CloseKeeps(s, id); }
    case Advance(id, expired, more, chosen) =>
      if id in s.requests { AdvanceKeeps(s, id, expired, more, chosen); }
    case Restart(landed, granted) => RestartKeeps(s, landed, granted);
  }

  lemma UnlockKeeps(s: State)
    requires Inv(s)
    ensures Inv(Step(s, Unlock))
  {
    var t := Step(s, Unlock);
    forall o | o in t.grants ensures GrantOk(t, o, t.grants[o]) {
      assert GrantOk(s, o, s.grants[o]);
    }
    forall id | id in t.requests ensures RequestOk(t, id, t.requests[id]) {
      assert RequestOk(s, id, s.requests[id]);
    }
  }

  lemma {:induction false} RunKeeps(stored: Settings, grants: map<Origin, nat>, events: seq<Event>)
    ensures Inv(Run(Initial(stored, grants), events))
  {
    if events != [] {
      RunKeeps(stored, grants, events[..|events| - 1]);
      StepKeeps(Run(Initial(stored, grants), events[..|events| - 1]), events[|events| - 1]);
    }
  }

  // ---------- Main results ----------

  /** In every run, every success was posted in an unlocked wallet with no lock, settings change,
      protection or revocation since its context was captured, but for the one network switch of a
      request for one; and the settings read last are the reviewed ones, or those that switch wrote. */
  lemma EverySuccessIsCurrent(stored: Settings, grants: map<Origin, nat>, events: seq<Event>, i: nat)
    requires i < |Run(Initial(stored, grants), events).posts|
    ensures
      var p := Run(Initial(stored, grants), events).posts[i];
      && p.unlocked
      && (p.kind == Switch ==> p.since == [OwnSwitch(p.id, p.finalRead)])
      && (p.kind != Switch ==> p.since == [] && p.finalRead == p.reviewed)
      && (p.undisturbed ==> p.stored == p.finalRead)
  {
    RunKeeps(stored, grants, events);
  }
}
