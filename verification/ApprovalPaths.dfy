/** What a request has been through when its success is posted (apps/extension/src/background.ts), read
    off the states of a run. */
module ApprovalPaths {
  import opened Wrappers
  import opened ApprovalProtocol
  import opened ApprovalSafety
  import opened Revocations

  // ---------- What is seen of a request ----------

  /** A check that passed, or something done: `Found` says whether the site was permitted when the
      permissions were read, and which revocations were queued then. */
  datatype Mark =
    | Entered
    | Found(permitted: bool, queued: set<nat>)
    | Allowed
    | Started
    | Worked
    | SwitchMade(next: Settings)
    | GrantChecked
    | GrantMade
    | GrantRechecked
    | Finished

  function MarkOf(stage: Stage): seq<Mark> {
    match stage
    case Compare => []
    case Enter => [Entered]
    case Permit => [Allowed]
    case Start => [Mark.Started]
    case Work => [Worked]
    case GrantBefore(_) => [GrantChecked]
    case GrantAfter => [GrantRechecked]
    case Final => [Finished]
  }

  /** The log says that this request switched, and the write of the new settings has begun. */
  predicate Switches(s: State, t: State, id: Id, next: Settings) {
    && t.log == s.log + [OwnSwitch(id, next)]
    && t.nextWrite == s.nextWrite + 1 && s.nextWrite in t.writes && t.writes[s.nextWrite] == next
  }

  /** What the step from `s` to `t` did for the request. */
  function Seen(s: State, t: State, id: Id): seq<Mark>
    requires id in s.requests && s.requests[id].Resolving?
  {
    var item, pc := s.requests[id].item, s.requests[id].pc;
    if id !in t.requests || !t.requests[id].Resolving? then []
    else
      var next := t.requests[id].pc;
      if pc.Got? && next.Passed? then MarkOf(next.stage)
      else if pc.Asking? && next.Answered? then [Found(item.origin in s.grants, Places(s.queue))]
      else if pc.Switching? && next.SwitchWriting? && Switches(s, t, id, next.next) then [SwitchMade(next.next)]
      else if pc.GrantWriting? && next.Reading? && item.origin in t.grants then [GrantMade]
      else []
  }

  /** What a run has done for the request since it was approved. */
  function Trail(s0: State, events: seq<Event>, id: Id): seq<Mark> {
    if events == [] then []
    else
      var init := events[..|events| - 1];
      var s := Run(s0, init);
      if id in s.requests && s.requests[id].Resolving? then Trail(s0, init, id) + Seen(s, Run(s0, events), id) else []
  }

  // ---------- The path of each kind ----------

  predicate FoundPermitted(trail: seq<Mark>) {
    |trail| >= 2 && trail[1].Found? && trail[1].permitted
  }

  /** Entering, and finding the site permitted. */
  predicate Asked(trail: seq<Mark>) {
    FoundPermitted(trail) && trail == [Entered, trail[1]]
  }

  predicate Permitted(trail: seq<Mark>) {
    FoundPermitted(trail) && trail == [Entered, trail[1], Allowed]
  }

  /** At the beginning of the permission job. */
  predicate BeforeGrant(kind: Kind, trail: seq<Mark>) {
    if kind == Connect then trail == [Entered]
    else
      && kind == Switch && |trail| == 4 && FoundPermitted(trail) && trail[3].SwitchMade?
      && trail == [Entered, trail[1], Allowed, trail[3]]
  }

  /** Signing, after this number of checks. */
  predicate Working(trail: seq<Mark>, n: nat) {
    && |trail| == 4 + n && FoundPermitted(trail) && trail[..4] == [Entered, trail[1], Allowed, Mark.Started]
    && forall i :: 4 <= i < |trail| ==> trail[i] == Worked
  }

  /** All that a request of this kind has to do before its last check. */
  predicate Complete(kind: Kind, trail: seq<Mark>) {
    match kind
    case AddChain => Permitted(trail)
    case Sign => |trail| > 4 && Working(trail, |trail| - 4)
    case _ =>
      var n := |trail| - 3;
      n > 0 && BeforeGrant(kind, trail[..n]) && trail[n..] == [GrantChecked, GrantMade, GrantRechecked]
  }

  /** The whole path: the last check too. */
  predicate FullPath(kind: Kind, trail: seq<Mark>) {
    trail != [] && trail[|trail| - 1] == Finished && Complete(kind, trail[..|trail| - 1])
  }

  /** What has been done when this check is being made. */
  predicate UpTo(kind: Kind, stage: Stage, trail: seq<Mark>) {
    match stage
    case Compare => trail == []
    case Enter => trail == []
    case Permit => kind != Connect && Asked(trail)
    case Start => kind == Sign && Permitted(trail)
    case Work => kind == Sign && |trail| >= 4 && Working(trail, |trail| - 4)
    case GrantBefore(_) => BeforeGrant(kind, trail)
    case GrantAfter =>
      var n := |trail| - 2;
      n > 0 && BeforeGrant(kind, trail[..n]) && trail[n..] == [GrantChecked, GrantMade]
    case Final => Complete(kind, trail)
  }

  /** What has been done once this check has passed. */
  predicate Made(kind: Kind, stage: Stage, trail: seq<Mark>) {
    && trail != [] && MarkOf(stage) == [trail[|trail| - 1]]
    && UpTo(kind, stage, trail[..|trail| - 1])
  }

  predicate OnPath(kind: Kind, pc: Pc, trail: seq<Mark>) {
    match pc
    case Reading(stage, _) => UpTo(kind, stage, trail)
    case Have(stage, _, _) => UpTo(kind, stage, trail)
    case Got(stage, _) => UpTo(kind, stage, trail)
    case Passed(stage, _) => Made(kind, stage, trail)
    case Asking => kind != Connect && trail == [Entered]
    case Answered(permitted) =>
      && kind != Connect && |trail| == 2 && trail[1].Found? && trail[1].permitted == permitted
      && trail == [Entered, trail[1]]
    case Switching => kind == Switch && Permitted(trail)
    case SwitchWriting(_, _, _) => kind == Switch && BeforeGrant(kind, trail)
    case Queued => BeforeGrant(kind, trail)
    case GrantWriting(_) =>
      && trail != [] && trail[|trail| - 1] == GrantChecked
      && BeforeGrant(kind, trail[..|trail| - 1])
  }

  ghost predicate RequestOnPath(s: State, id: Id, trail: seq<Mark>) {
    id in s.requests && s.requests[id].Resolving? ==> OnPath(s.requests[id].item.kind, s.requests[id].pc, trail)
  }

  // ---------- Every step keeps to the path ----------

  /** The other request stays as it is, unless it was pending and is cancelled. */
  ghost predicate Leaves(s: State, t: State, other: Id) {
    && (other in t.requests <==> other in s.requests)
    && (other in s.requests ==>
          t.requests[other] == s.requests[other] || (s.requests[other].Pending? && t.requests[other].Closed?))
  }

  lemma CheckedLeaves(s: State, expired: bool, other: Id)
    ensures Leaves(s, Checked(s, expired), other)
  {
  }

  lemma ContinueLeaves(s: State, id: Id, item: Item, context: Context, stage: Stage, read: Settings,
                       expired: bool, more: bool, other: Id)
    requires id in s.requests && other != id
    ensures Leaves(s, Continue(s, id, item, context, stage, read, expired, more), other)
  {
    CheckedLeaves(s, expired, other);
  }

  lemma ResolveLeaves(s: State, id: Id, item: Item, context: Context, pc: Pc, expired: bool, more: bool,
                      chosen: Settings, other: Id)
    requires id in s.requests && other != id
    ensures Leaves(s, AdvanceResolve(s, id, item, context, pc, expired, more, chosen), other)
  {
    CheckedLeaves(s, expired, other);
    if pc.Passed? {
      ContinueLeaves(s, id, item, context, pc.stage, pc.read, expired, more, other);
    } else if pc.Switching? {
      SwitchLeaves(s, id, item, context, expired, more, chosen, other);
    } else if pc.Got? {
      GotLeaves(s, id, item, context, pc.stage, pc.current, expired, more, chosen, other);
    }
  }

  lemma GotLeaves(s: State, id: Id, item: Item, context: Context, stage: Stage, current: Context, expired: bool,
                  more: bool, chosen: Settings, other: Id)
    requires id in s.requests && other != id
    ensures Leaves(s, AdvanceResolve(s, id, item, context, Got(stage, current), expired, more, chosen), other)
  {
    CheckedLeaves(s, expired, other);
  }

  lemma SwitchLeaves(s: State, id: Id, item: Item, context: Context, expired: bool, more: bool, chosen: Settings,
                     other: Id)
    requires id in s.requests && other != id
    ensures Leaves(s, AdvanceResolve(s, id, item, context, Switching, expired, more, chosen), other)
  {
    CheckedLeaves(s, expired, other);
  }

  lemma AdvanceLeaves(s: State, id: Id, expired: bool, more: bool, chosen: Settings, other: Id)
    requires id in s.requests && other != id
    ensures Leaves(s, AdvanceRequest(s, id, expired, more, chosen), other)
  {
    var phase := s.requests[id];
    if phase.Resolving? {
      ResolveLeaves(s, id, phase.item, phase.context, phase.pc, expired, more, chosen, other);
    }
  }

  lemma OthersUntouched(s: State, e: Event, id: Id)
    requires id in s.requests && s.requests[id].Resolving? && !(e.Advance? && e.id == id)
    ensures
      var t := Step(s, e);
      id in t.requests && t.requests[id].Resolving? ==> t.requests[id] == s.requests[id]
  {
    if e.Advance? && e.id in s.requests {
      AdvanceLeaves(s, e.id, e.expired, e.more, e.chosen, id);
    }
  }

  lemma SnocParts(trail: seq<Mark>, m: Mark)
    ensures (trail + [m])[..|trail|] == trail && (trail + [m])[|trail|] == m
  {
  }

  lemma PassedOnPath(kind: Kind, stage: Stage, read: Settings, trail: seq<Mark>)
    requires UpTo(kind, stage, trail) && !stage.Compare?
    ensures OnPath(kind, Passed(stage, read), trail + MarkOf(stage))
  {
    SnocParts(trail, MarkOf(stage)[0]);
  }

  lemma AfterEnter(kind: Kind, trail: seq<Mark>)
    requires Made(kind, Enter, trail)
    ensures trail == [Entered]
  {
    assert trail == trail[..|trail| - 1] + [trail[|trail| - 1]];
  }

  lemma AfterPermit(kind: Kind, trail: seq<Mark>)
    requires Made(kind, Permit, trail)
    ensures kind != Connect && Permitted(trail)
  {
    assert trail == trail[..|trail| - 1] + [trail[|trail| - 1]];
  }

  lemma AfterStart(kind: Kind, trail: seq<Mark>)
    requires Made(kind, Start, trail)
    ensures UpTo(kind, Work, trail)
  {
    assert trail == trail[..|trail| - 1] + [trail[|trail| - 1]];
    assert trail[..4] == trail;
  }

  lemma AfterWork(kind: Kind, trail: seq<Mark>)
    requires Made(kind, Work, trail)
    ensures UpTo(kind, Work, trail) && UpTo(kind, Final, trail)
  {
    assert trail[..4] == trail[..|trail| - 1][..4];
  }

  lemma AfterGrantAfter(kind: Kind, trail: seq<Mark>)
    requires Made(kind, GrantAfter, trail)
    ensures UpTo(kind, Final, trail)
  {
    var before := trail[..|trail| - 1];
    var n := |before| - 2;
    BeforeGrantKind(kind, before[..n]);
    assert trail[..n] == before[..n];
    assert trail == before + [GrantRechecked] && before == before[..n] + before[n..];
    assert trail[n..] == before[n..] + [GrantRechecked];
  }

  lemma BeforeGrantKind(kind: Kind, trail: seq<Mark>)
    requires BeforeGrant(kind, trail)
    ensures kind == Connect || kind == Switch
  {
  }

  /** From a check that passed to what comes next. */
  lemma ContinueOnPath(s: State, id: Id, item: Item, context: Context, stage: Stage, read: Settings,
                       expired: bool, more: bool, trail: seq<Mark>)
    requires id in s.requests && s.requests[id] == Resolving(item, context, Passed(stage, read))
    requires Made(item.kind, stage, trail)
    ensures RequestOnPath(Continue(s, id, item, context, stage, read, expired, more), id, trail)
  {
    if stage.GrantBefore? || stage.Final? {
      LastCheckOnPath(s, id, item, context, stage, read, expired, more, trail);
    } else {
      match stage
      case Compare =>
      case Enter => AfterEnter(item.kind, trail);
      case Permit => AfterPermit(item.kind, trail);
      case Start => AfterStart(item.kind, trail);
      case Work => AfterWork(item.kind, trail);
      case GrantAfter => AfterGrantAfter(item.kind, trail);
    }
  }

  lemma LastCheckOnPath(s: State, id: Id, item: Item, context: Context, stage: Stage, read: Settings,
                        expired: bool, more: bool, trail: seq<Mark>)
    requires id in s.requests && s.requests[id] == Resolving(item, context, Passed(stage, read))
    requires Made(item.kind, stage, trail) && (stage.GrantBefore? || stage.Final?)
    ensures RequestOnPath(Continue(s, id, item, context, stage, read, expired, more), id, trail)
  {
  }

  lemma GrantOnPath(kind: Kind, trail: seq<Mark>)
    requires trail != [] && trail[|trail| - 1] == GrantChecked && BeforeGrant(kind, trail[..|trail| - 1])
    ensures UpTo(kind, GrantAfter, trail + [GrantMade])
  {
    var longer, n := trail + [GrantMade], |trail| - 1;
    assert longer[..n] == trail[..n] && longer[n..] == [GrantChecked, GrantMade];
  }

  /** A check passes or fails, but for the first, which leads to the next. */
  lemma CheckSeen(s: State, id: Id, item: Item, context: Context, stage: Stage, current: Context,
                  expired: bool, more: bool, chosen: Settings)
    requires id in s.requests && s.requests[id] == Resolving(item, context, Got(stage, current))
    ensures
      var t := AdvanceResolve(s, id, item, context, Got(stage, current), expired, more, chosen);
      && id in t.requests
      && (|| t.requests[id].Closed?
          || (stage.Compare? && t.requests[id] == Resolving(item, context, Reading(Enter, s.revision)))
          || (!stage.Compare? && t.requests[id] == Resolving(item, context, Passed(stage, current.settings))))
  {
  }

  lemma CheckOnPath(s: State, id: Id, item: Item, context: Context, stage: Stage, current: Context,
                    expired: bool, more: bool, chosen: Settings, trail: seq<Mark>)
    requires id in s.requests && s.requests[id] == Resolving(item, context, Got(stage, current))
    requires UpTo(item.kind, stage, trail)
    ensures
      var t := AdvanceResolve(s, id, item, context, Got(stage, current), expired, more, chosen);
      RequestOnPath(t, id, trail + Seen(s, t, id))
  {
    var t := AdvanceResolve(s, id, item, context, Got(stage, current), expired, more, chosen);
    CheckSeen(s, id, item, context, stage, current, expired, more, chosen);
    PhaseOnPath(s, t, id, item, context, stage, current, trail);
  }

  lemma PhaseOnPath(s: State, t: State, id: Id, item: Item, context: Context, stage: Stage, current: Context,
                    trail: seq<Mark>)
    requires id in s.requests && s.requests[id] == Resolving(item, context, Got(stage, current))
    requires UpTo(item.kind, stage, trail) && id in t.requests
    requires
      || t.requests[id].Closed?
      || (stage.Compare? && t.requests[id] == Resolving(item, context, Reading(Enter, s.revision)))
      || (!stage.Compare? && t.requests[id] == Resolving(item, context, Passed(stage, current.settings)))
    ensures RequestOnPath(t, id, trail + Seen(s, t, id))
  {
    assert trail + [] == trail;
    if !stage.Compare? {
      PassedOnPath(item.kind, stage, current.settings, trail);
    }
  }

  lemma SwitchOnPath(s: State, id: Id, item: Item, context: Context, expired: bool, more: bool, chosen: Settings,
                     trail: seq<Mark>)
    requires id in s.requests && s.requests[id] == Resolving(item, context, Switching)
    requires OnPath(item.kind, Switching, trail)
    ensures
      var t := AdvanceResolve(s, id, item, context, Switching, expired, more, chosen);
      RequestOnPath(t, id, trail + Seen(s, t, id))
  {
    SnocParts(trail, SwitchMade(chosen));
    assert trail + [] == trail;
  }

  lemma AskOnPath(s: State, id: Id, item: Item, context: Context, expired: bool, more: bool, chosen: Settings,
                  trail: seq<Mark>)
    requires id in s.requests && s.requests[id] == Resolving(item, context, Asking)
    requires OnPath(item.kind, Asking, trail)
    ensures
      var t := AdvanceResolve(s, id, item, context, Asking, expired, more, chosen);
      RequestOnPath(t, id, trail + Seen(s, t, id))
  {
  }

  lemma WriteOnPath(s: State, id: Id, item: Item, context: Context, grants: map<Origin, nat>, expired: bool,
                    more: bool, chosen: Settings, trail: seq<Mark>)
    requires Inv(s) && id in s.requests && s.requests[id] == Resolving(item, context, GrantWriting(grants))
    requires OnPath(item.kind, GrantWriting(grants), trail)
    ensures
      var t := AdvanceResolve(s, id, item, context, GrantWriting(grants), expired, more, chosen);
      RequestOnPath(t, id, trail + Seen(s, t, id))
  {
    assert RequestOk(s, id, s.requests[id]);
    GrantOnPath(item.kind, trail);
  }

  /** Steps that do nothing to be seen. */
  lemma WaitOnPath(s: State, id: Id, item: Item, context: Context, pc: Pc, expired: bool, more: bool,
                   chosen: Settings, trail: seq<Mark>)
    requires id in s.requests && s.requests[id] == Resolving(item, context, pc)
    requires pc.Reading? || pc.Have? || pc.Answered? || pc.SwitchWriting? || pc.Queued?
    requires OnPath(item.kind, pc, trail)
    ensures
      var t := AdvanceResolve(s, id, item, context, pc, expired, more, chosen);
      Seen(s, t, id) == [] && RequestOnPath(t, id, trail)
  {
  }

  lemma OwnStepOnPath(s: State, id: Id, item: Item, context: Context, pc: Pc, expired: bool, more: bool,
                      chosen: Settings, trail: seq<Mark>)
    requires Inv(s) && id in s.requests && s.requests[id] == Resolving(item, context, pc)
    requires OnPath(item.kind, pc, trail)
    ensures
      var t := AdvanceResolve(s, id, item, context, pc, expired, more, chosen);
      RequestOnPath(t, id, trail + Seen(s, t, id))
  {
    if pc.Got? {
      CheckOnPath(s, id, item, context, pc.stage, pc.current, expired, more, chosen, trail);
    } else if pc.Passed? {
      ContinueOnPath(s, id, item, context, pc.stage, pc.read, expired, more, trail);
      assert trail + [] == trail;
    } else if pc.Switching? {
      SwitchOnPath(s, id, item, context, expired, more, chosen, trail);
    } else if pc.GrantWriting? {
      WriteOnPath(s, id, item, context, pc.grants, expired, more, chosen, trail);
    } else if pc.Asking? {
      AskOnPath(s, id, item, context, expired, more, chosen, trail);
    } else {
      WaitOnPath(s, id, item, context, pc, expired, more, chosen, trail);
      assert trail + [] == trail;
    }
  }

  lemma NothingSeen(s: State, t: State, id: Id)
    requires id in s.requests && s.requests[id].Resolving?
    requires id in t.requests && t.requests[id].Resolving? ==> t.requests[id] == s.requests[id]
    ensures Seen(s, t, id) == []
  {
  }

  lemma OwnAdvance(s: State, id: Id, expired: bool, more: bool, chosen: Settings)
    requires id in s.requests && s.requests[id].Resolving?
    ensures
      var phase := s.requests[id];
      Step(s, Advance(id, expired, more, chosen))
      == AdvanceResolve(s, id, phase.item, phase.context, phase.pc, expired, more, chosen)
  {
  }

  lemma StepOnPath(s: State, e: Event, id: Id, trail: seq<Mark>)
    requires Inv(s) && id in s.requests && s.requests[id].Resolving? && RequestOnPath(s, id, trail)
    ensures RequestOnPath(Step(s, e), id, trail + Seen(s, Step(s, e), id))
  {
    if e.Advance? && e.id == id {
      var phase := s.requests[id];
      OwnAdvance(s, id, e.expired, e.more, e.chosen);
      OwnStepOnPath(s, id, phase.item, phase.context, phase.pc, e.expired, e.more, e.chosen, trail);
    } else {
      OthersUntouched(s, e, id);
      NothingSeen(s, Step(s, e), id);
      assert trail + [] == trail;
    }
  }

  lemma OwnBegins(s: State, id: Id, expired: bool, more: bool, chosen: Settings)
    requires id in s.requests && !s.requests[id].Resolving?
    ensures
      var t := AdvanceRequest(s, id, expired, more, chosen);
      !(id in t.requests && t.requests[id].Resolving?)
  {
  }

  /** A request begins to be resolved with its first check. */
  lemma BeginsAtStart(s: State, e: Event, id: Id)
    requires !(id in s.requests && s.requests[id].Resolving?)
    ensures RequestOnPath(Step(s, e), id, [])
  {
    if e.Advance? && e.id in s.requests {
      if e.id == id {
        OwnBegins(s, id, e.expired, e.more, e.chosen);
      } else {
        AdvanceLeaves(s, e.id, e.expired, e.more, e.chosen, id);
      }
    }
  }

  lemma {:induction false} RunOnPath(stored: Settings, grants: map<Origin, nat>, events: seq<Event>, id: Id)
    ensures
      var s0 := Initial(stored, grants);
      RequestOnPath(Run(s0, events), id, Trail(s0, events, id))
  {
    if events != [] {
      var s0, init := Initial(stored, grants), events[..|events| - 1];
      var s := Run(s0, init);
      RunKeeps(stored, grants, init);
      if id in s.requests && s.requests[id].Resolving? {
        RunOnPath(stored, grants, init, id);
        StepOnPath(s, events[|events| - 1], id, Trail(s0, init, id));
      } else {
        BeginsAtStart(s, events[|events| - 1], id);
      }
    }
  }

  // ---------- What becomes of the permission ----------

  /** The queued revocations are these, or came after the request was captured. */
  ghost predicate OnlyOld(s: State, item: Item, due: set<nat>) {
    forall i :: i in Places(s.queue) ==> i in due || CapturedAt(s, item) <= i
  }

  /** The site is permitted, or one of these revocations of it, or a later one, has run. */
  ghost predicate Kept(s: State, item: Item, due: set<nat>) {
    || item.origin in s.grants
    || exists i: nat :: RevokedAt(s.log, i, item.origin) && (i in due || CapturedAt(s, item) <= i)
  }

  /** No step takes a permission away but by a queued revocation, and new ones are logged at the end. */
  ghost predicate Progress(s: State, t: State) {
    && t.base == s.base && s.log <= t.log
    && (forall i :: i in Places(t.queue) ==> i in Places(s.queue) || |s.log| <= i)
    && (forall o {:trigger o in t.grants} :: o in s.grants ==>
          o in t.grants || exists i :: i in Places(s.queue) && RevokedAt(s.log, i, o))
  }

  lemma KeptGoesOn(s: State, t: State, item: Item, due: set<nat>)
    requires Progress(s, t) && CapturedAt(s, item) <= |s.log|
    requires OnlyOld(s, item, due) && Kept(s, item, due)
    ensures OnlyOld(t, item, due) && Kept(t, item, due)
  {
    if item.origin in s.grants {
      if item.origin !in t.grants {
        var i :| i in Places(s.queue) && RevokedAt(s.log, i, item.origin);
        assert RevokedAt(t.log, i, item.origin);
      }
    } else {
      var i: nat :| RevokedAt(s.log, i, item.origin) && (i in due || CapturedAt(s, item) <= i);
      assert RevokedAt(t.log, i, item.origin);
    }
  }

  /** The queue lost its first job at most, or got one of a request. */
  ghost predicate Simple(s: State, t: State) {
    && t.base == s.base && s.log <= t.log
    && (t.queue == s.queue || (s.queue != [] && t.queue == s.queue[1..])
        || exists id :: t.queue == s.queue + [ForRequest(id)])
    && (forall o :: o in s.grants ==> o in t.grants)
  }

  lemma SimpleProgress(s: State, t: State)
    requires Simple(s, t)
    ensures Progress(s, t)
  {
    if t.queue != s.queue {
      if s.queue != [] && t.queue == s.queue[1..] {
        PlacesTail(s.queue);
      } else {
        var id :| t.queue == s.queue + [ForRequest(id)];
        PlacesAppend(s.queue, [ForRequest(id)]);
      }
    }
  }

  lemma ContinueSimple(s: State, id: Id, item: Item, context: Context, stage: Stage, read: Settings,
                       expired: bool, more: bool)
    requires id in s.requests
    ensures Simple(s, Continue(s, id, item, context, stage, read, expired, more))
  {
  }

  lemma CloseSimple(s: State, expired: bool, id: Id)
    requires id in s.requests && id in Checked(s, expired).requests
    ensures Simple(s, Close(s, id)) && Simple(s, Close(Checked(s, expired), id))
  {
  }

  lemma SwitchSimple(s: State, id: Id, item: Item, context: Context, expired: bool, more: bool, chosen: Settings)
    requires id in s.requests
    ensures Simple(s, AdvanceResolve(s, id, item, context, Switching, expired, more, chosen))
  {
    CloseSimple(s, expired, id);
  }

  lemma WritingSimple(s: State, id: Id, item: Item, context: Context, pc: Pc, expired: bool, more: bool,
                      chosen: Settings)
    requires Inv(s) && id in s.requests && s.requests[id] == Resolving(item, context, pc)
    requires pc.SwitchWriting? || pc.GrantWriting?
    ensures Simple(s, AdvanceResolve(s, id, item, context, pc, expired, more, chosen))
  {
    if pc.GrantWriting? {
      assert RequestOk(s, id, s.requests[id]);
    } else {
      CloseSimple(s, expired, id);
      assert Enqueue(s, id, item, Context(pc.next, pc.revision)).queue == s.queue + [ForRequest(id)];
    }
  }

  lemma ResolveSimple(s: State, id: Id, item: Item, context: Context, pc: Pc, expired: bool, more: bool,
                      chosen: Settings)
    requires Inv(s) && id in s.requests && s.requests[id] == Resolving(item, context, pc)
    ensures Simple(s, AdvanceResolve(s, id, item, context, pc, expired, more, chosen))
  {
    if pc.Passed? {
      ContinueSimple(s, id, item, context, pc.stage, pc.read, expired, more);
    } else if pc.Switching? {
      SwitchSimple(s, id, item, context, expired, more, chosen);
    } else if pc.GrantWriting? || pc.SwitchWriting? {
      WritingSimple(s, id, item, context, pc, expired, more, chosen);
    } else if pc.Got? {
      GotSimple(s, id, item, context, pc.stage, pc.current, expired, more, chosen);
    } else {
      CloseSimple(s, expired, id);
    }
  }

  lemma GotSimple(s: State, id: Id, item: Item, context: Context, stage: Stage, current: Context, expired: bool,
                  more: bool, chosen: Settings)
    requires id in s.requests
    ensures Simple(s, AdvanceResolve(s, id, item, context, Got(stage, current), expired, more, chosen))
  {
    CloseSimple(s, expired, id);
  }

  lemma AdvanceSimple(s: State, id: Id, expired: bool, more: bool, chosen: Settings)
    requires Inv(s) && id in s.requests
    ensures Simple(s, AdvanceRequest(s, id, expired, more, chosen))
  {
    var phase := s.requests[id];
    if phase.Resolving? {
      ResolveSimple(s, id, phase.item, phase.context, phase.pc, expired, more, chosen);
    }
  }

  lemma RevocationProgress(s: State)
    requires Inv(s)
    ensures Progress(s, Step(s, RevocationRuns))
  {
    if s.queue != [] && s.queue[0].Revocation? {
      PlacesTail(s.queue);
      forall o | o in s.grants && o !in Step(s, RevocationRuns).grants
        ensures exists i :: i in Places(s.queue) && RevokedAt(s.log, i, o)
      {
        assert s.queue[0].at in Places(s.queue) && RevokedAt(s.log, s.queue[0].at, o);
      }
    }
  }

  lemma RevokeProgress(s: State, revoked: Option<Origin>)
    ensures Progress(s, Step(s, Revoke(revoked)))
  {
    PlacesAppend(s.queue, [Revocation(revoked, |s.log|)]);
    assert Places([Revocation(revoked, |s.log|)]) == {|s.log|} by {
      assert [Revocation(revoked, |s.log|)][0].at == |s.log|;
    }
  }

  lemma StepProgress(s: State, e: Event)
    requires Inv(s) && !e.Restart?
    ensures Progress(s, Step(s, e))
  {
    match e
    case Advance(id, expired, more, chosen) =>
      if id in s.requests {
        AdvanceSimple(s, id, expired, more, chosen);
      }
      SimpleProgress(s, Step(s, e));
    case Revoke(revoked) => RevokeProgress(s, revoked);
    case RevocationRuns => RevocationProgress(s);
    case _ => SimpleProgress(s, Step(s, e));
  }

  /** What is known of the permission once the site was found permitted, or was given it. */
  ghost predicate PermissionOk(s: State, item: Item, trail: seq<Mark>) {
    && (FoundPermitted(trail) ==> OnlyOld(s, item, trail[1].queued) && Kept(s, item, trail[1].queued))
    && (GrantMade in trail ==> OnlyOld(s, item, {}) && Kept(s, item, {}))
  }

  ghost predicate RequestPermitted(s: State, id: Id, trail: seq<Mark>) {
    id in s.requests && s.requests[id].Resolving? ==> PermissionOk(s, s.requests[id].item, trail)
  }

  lemma PermissionGoesOn(s: State, t: State, item: Item, trail: seq<Mark>)
    requires Progress(s, t) && CapturedAt(s, item) <= |s.log| && PermissionOk(s, item, trail)
    ensures PermissionOk(t, item, trail)
  {
    if FoundPermitted(trail) {
      KeptGoesOn(s, t, item, trail[1].queued);
    }
    if GrantMade in trail {
      KeptGoesOn(s, t, item, {});
    }
  }

  /** During a request's own job, every queued revocation came after its capture. */
  lemma QueuedLater(s: State, id: Id)
    requires Inv(s) && Ordered(s) && id in s.requests && s.requests[id].Resolving?
    requires s.queue != [] && s.queue[0] == ForRequest(id)
    ensures OnlyOld(s, s.requests[id].item, {})
  {
    forall i | i in Places(s.queue) ensures CapturedAt(s, s.requests[id].item) <= i {
      var j :| 0 <= j < |s.queue| && s.queue[j].Revocation? && s.queue[j].at == i;
      assert PlaceOk(s, j);
      assert RequestBefore(s, s.queue[0].id, s.queue[j].at);
    }
  }

  lemma OtherMark(t: State, item: Item, trail: seq<Mark>, m: Mark)
    requires PermissionOk(t, item, trail) && !m.Found? && m != GrantMade
    ensures PermissionOk(t, item, trail + [m])
  {
    assert |trail| >= 2 ==> (trail + [m])[1] == trail[1];
  }

  lemma GrantMark(t: State, item: Item, trail: seq<Mark>)
    requires PermissionOk(t, item, trail) && OnlyOld(t, item, {}) && item.origin in t.grants
    ensures PermissionOk(t, item, trail + [GrantMade])
  {
    assert |trail| >= 2 ==> (trail + [GrantMade])[1] == trail[1];
  }

  lemma FoundMark(s: State, t: State, item: Item)
    requires t.grants == s.grants && t.queue == s.queue && t.log == s.log && t.base == s.base
    ensures PermissionOk(t, item, [Entered, Found(item.origin in s.grants, Places(s.queue))])
  {
  }

  /** Elsewhere, what is seen is a check or a switch. */
  lemma SeenElsewhere(s: State, t: State, id: Id)
    requires id in s.requests && s.requests[id].Resolving?
    requires !s.requests[id].pc.GrantWriting? && !s.requests[id].pc.Asking?
    ensures
      var seen := Seen(s, t, id);
      seen == [] || (|seen| == 1 && !seen[0].Found? && seen[0] != GrantMade)
  {
  }

  lemma MarkPermitted(s: State, e: Event, id: Id, trail: seq<Mark>)
    requires Inv(s) && Ordered(s) && id in s.requests && s.requests[id].Resolving?
    requires OnPath(s.requests[id].item.kind, s.requests[id].pc, trail)
    requires PermissionOk(Step(s, e), s.requests[id].item, trail) && e.Advance? && e.id == id
    ensures PermissionOk(Step(s, e), s.requests[id].item, trail + Seen(s, Step(s, e), id))
  {
    var phase, t := s.requests[id], Step(s, e);
    assert trail + [] == trail;
    if phase.pc.GrantWriting? {
      WroteLater(s, e, id);
      GrantMark(t, phase.item, trail);
    } else if phase.pc.Asking? {
      OwnAdvance(s, id, e.expired, e.more, e.chosen);
      FoundMark(s, t, phase.item);
    } else {
      SeenElsewhere(s, t, id);
      if Seen(s, t, id) != [] {
        OtherMark(t, phase.item, trail, Seen(s, t, id)[0]);
      }
    }
  }

  lemma WroteLater(s: State, e: Event, id: Id)
    requires Inv(s) && Ordered(s) && id in s.requests && s.requests[id].Resolving? && s.requests[id].pc.GrantWriting?
    requires e.Advance? && e.id == id
    ensures
      var t, item := Step(s, e), s.requests[id].item;
      OnlyOld(t, item, {}) && item.origin in t.grants
  {
    assert RequestOk(s, id, s.requests[id]);
    QueuedLater(s, id);
    OwnAdvance(s, id, e.expired, e.more, e.chosen);
  }

  lemma StepPermitted(s: State, e: Event, id: Id, trail: seq<Mark>)
    requires Inv(s) && Ordered(s) && id in s.requests && s.requests[id].Resolving?
    requires RequestOnPath(s, id, trail) && RequestPermitted(s, id, trail)
    ensures RequestPermitted(Step(s, e), id, trail + Seen(s, Step(s, e), id))
  {
    var phase, t := s.requests[id], Step(s, e);
    if !e.Restart? && id in t.requests && t.requests[id].Resolving? {
      StepProgress(s, e);
      assert RequestOk(s, id, phase);
      PermissionGoesOn(s, t, phase.item, trail);
      SameItem(s, e, id);
      if e.Advance? && e.id == id {
        MarkPermitted(s, e, id, trail);
      } else {
        OthersUntouched(s, e, id);
        NothingSeen(s, t, id);
        assert trail + [] == trail;
      }
    }
  }

  lemma SameItem(s: State, e: Event, id: Id)
    requires id in s.requests && s.requests[id].Resolving?
    ensures
      var t := Step(s, e);
      id in t.requests && t.requests[id].Resolving? ==> t.requests[id].item == s.requests[id].item
  {
    if e.Advance? && e.id == id {
      OwnAdvance(s, id, e.expired, e.more, e.chosen);
      ResolveKeepsItem(s, id, s.requests[id], e.expired, e.more, e.chosen);
    } else {
      OthersUntouched(s, e, id);
    }
  }

  lemma ResolveKeepsItem(s: State, id: Id, phase: Phase, expired: bool, more: bool, chosen: Settings)
    requires id in s.requests && s.requests[id] == phase && phase.Resolving?
    ensures
      var t := AdvanceResolve(s, id, phase.item, phase.context, phase.pc, expired, more, chosen);
      id in t.requests && t.requests[id].Resolving? ==> t.requests[id].item == phase.item
  {
    if phase.pc.Passed? {
      ContinueKeepsItem(s, id, phase.item, phase.context, phase.pc.stage, phase.pc.read, expired, more);
    }
  }

  lemma ContinueKeepsItem(s: State, id: Id, item: Item, context: Context, stage: Stage, read: Settings,
                          expired: bool, more: bool)
    requires id in s.requests && s.requests[id].Resolving? && s.requests[id].item == item
    ensures
      var t := Continue(s, id, item, context, stage, read, expired, more);
      id in t.requests && t.requests[id].Resolving? ==> t.requests[id].item == item
  {
  }

  lemma {:induction false} RunPermitted(stored: Settings, grants: map<Origin, nat>, events: seq<Event>, id: Id)
    ensures
      var s0 := Initial(stored, grants);
      RequestPermitted(Run(s0, events), id, Trail(s0, events, id))
  {
    if events != [] {
      var s0, init := Initial(stored, grants), events[..|events| - 1];
      var s := Run(s0, init);
      RunKeeps(stored, grants, init);
      RunOrdered(stored, grants, init);
      if id in s.requests && s.requests[id].Resolving? {
        RunOnPath(stored, grants, init, id);
        RunPermitted(stored, grants, init, id);
        StepPermitted(s, events[|events| - 1], id, Trail(s0, init, id));
      }
    }
  }

  // ---------- Main result ----------

  /** What a success means for the request: the whole path of its kind is behind it, and the site is
      permitted; but for one that neither connects nor switches, a revocation that was requested before
      the capture and still queued when the permissions were read may have run since. */
  ghost predicate Completed(s: State, p: Post, trail: seq<Mark>) {
    && FullPath(p.kind, trail)
    && (p.kind == Connect || p.kind == Switch ==> p.permitted)
    && (p.kind == AddChain || p.kind == Sign ==>
          && FoundPermitted(trail)
          && (p.permitted || exists i: nat :: i in trail[1].queued && RevokedAt(s.log, i, p.origin)))
  }

  /** At the last check nothing but the request's own switch has been logged since the capture. */
  lemma NoLaterRevocation(s: State, id: Id, item: Item, context: Context, read: Settings, i: nat)
    requires Inv(s) && id in s.requests && Valid(s, context)
    requires s.requests[id] == Resolving(item, context, Passed(Final, read)) && RevokedAt(s.log, i, item.origin)
    ensures i < CapturedAt(s, item)
  {
    assert RequestOk(s, id, s.requests[id]);
  }

  lemma FinishedCompletes(s: State, id: Id, item: Item, context: Context, read: Settings, trail: seq<Mark>)
    requires Inv(s) && id in s.requests && Valid(s, context)
    requires s.requests[id] == Resolving(item, context, Passed(Final, read))
    requires RequestOnPath(s, id, trail) && RequestPermitted(s, id, trail)
    ensures
      var t := PostSuccess(s, id, item, read);
      Completed(s, t.posts[|s.posts|], trail)
  {
    var p := PostSuccess(s, id, item, read).posts[|s.posts|];
    CompleteMeans(item.kind, trail);
    if item.origin !in s.grants {
      forall i: nat | RevokedAt(s.log, i, item.origin) ensures i < CapturedAt(s, item) {
        NoLaterRevocation(s, id, item, context, read, i);
      }
    }
  }

  lemma CompleteMeans(kind: Kind, trail: seq<Mark>)
    requires FullPath(kind, trail)
    ensures kind == Connect || kind == Switch ==> GrantMade in trail
    ensures kind == AddChain || kind == Sign ==> FoundPermitted(trail)
  {
    var before := trail[..|trail| - 1];
    if kind == Connect || kind == Switch {
      var n := |before| - 3;
      assert before[n + 1] == before[n..][1] == GrantMade;
      assert trail[n + 1] == GrantMade;
    } else {
      assert trail[1] == before[1];
    }
  }

  lemma ContinuePosts(s: State, id: Id, item: Item, context: Context, stage: Stage, read: Settings,
                      expired: bool, more: bool)
    requires id in s.requests
    ensures
      var t := Continue(s, id, item, context, stage, read, expired, more);
      t.posts == s.posts
      || (stage == Final && !expired && Valid(s, context) && t == PostSuccess(s, id, item, read))
  {
  }

  lemma ResolvePosts(s: State, id: Id, item: Item, context: Context, pc: Pc, expired: bool, more: bool,
                     chosen: Settings)
    requires id in s.requests
    ensures
      var t := AdvanceResolve(s, id, item, context, pc, expired, more, chosen);
      t.posts == s.posts
      || (pc.Passed? && pc.stage == Final && !expired && Valid(s, context) && t == PostSuccess(s, id, item, pc.read))
  {
    if pc.Passed? {
      ContinuePosts(s, id, item, context, pc.stage, pc.read, expired, more);
    }
  }

  /** Only the last stretch of a handler posts, with the session not expired and the context valid. */
  lemma PostsAtEnd(s: State, e: Event)
    requires Step(s, e).posts != s.posts
    ensures e.Advance? && !e.expired && e.id in s.requests && s.requests[e.id].Resolving?
    ensures
      var phase := s.requests[e.id];
      && phase.pc.Passed? && phase.pc.stage == Final && Valid(s, phase.context)
      && Step(s, e) == PostSuccess(s, e.id, phase.item, phase.pc.read)
  {
    if e.Advance? && e.id in s.requests && s.requests[e.id].Resolving? {
      var phase := s.requests[e.id];
      OwnAdvance(s, e.id, e.expired, e.more, e.chosen);
      ResolvePosts(s, e.id, phase.item, phase.context, phase.pc, e.expired, e.more, e.chosen);
    }
  }

  /** In every run, every step that posts a success posts one, in a session that has not expired, and
      completes its request. */
  lemma EverySuccessCompletes(stored: Settings, grants: map<Origin, nat>, events: seq<Event>, e: Event)
    ensures
      var s0 := Initial(stored, grants);
      var s := Run(s0, events);
      var t := Step(s, e);
      t.posts != s.posts ==>
        && e.Advance? && !e.expired && |t.posts| == |s.posts| + 1 && t.posts[..|s.posts|] == s.posts
        && t.posts[|s.posts|].id == e.id && Completed(s, t.posts[|s.posts|], Trail(s0, events, e.id))
  {
    var s0 := Initial(stored, grants);
    var s := Run(s0, events);
    if Step(s, e).posts != s.posts {
      PostsAtEnd(s, e);
      var phase := s.requests[e.id];
      RunKeeps(stored, grants, events);
      RunOnPath(stored, grants, events, e.id);
      RunPermitted(stored, grants, events, e.id);
      FinishedCompletes(s, e.id, phase.item, phase.context, phase.pc.read, Trail(s0, events, e.id));
    }
  }

  // ---------- Cancelling ----------

  lemma ResolveCancels(s: State, id: Id, item: Item, context: Context, pc: Pc, expired: bool, more: bool,
                       chosen: Settings, other: Id)
    requires id in s.requests && s.requests[id] == Resolving(item, context, pc)
    requires AdvanceResolve(s, id, item, context, pc, expired, more, chosen).log != s.log
    ensures
      var t := AdvanceResolve(s, id, item, context, pc, expired, more, chosen);
      other in t.requests ==> !t.requests[other].Pending?
  {
    if pc.Passed? {
      ContinueCancels(s, id, item, context, pc.stage, pc.read, expired, more, other);
    }
  }

  lemma ContinueCancels(s: State, id: Id, item: Item, context: Context, stage: Stage, read: Settings,
                        expired: bool, more: bool, other: Id)
    requires id in s.requests && s.requests[id].Resolving?
    requires Continue(s, id, item, context, stage, read, expired, more).log != s.log
    ensures
      var t := Continue(s, id, item, context, stage, read, expired, more);
      other in t.requests ==> !t.requests[other].Pending?
  {
  }

  /** Whatever advances the revision, but for protecting, leaves no request waiting for an answer. */
  lemma BumpsCancel(s: State, e: Event, id: Id)
    requires e != Protect && Step(s, e).log != s.log
    ensures id in Step(s, e).requests ==> !Step(s, e).requests[id].Pending?
  {
    if e.Advance? && e.id in s.requests && s.requests[e.id].Resolving? {
      var phase := s.requests[e.id];
      OwnAdvance(s, e.id, e.expired, e.more, e.chosen);
      ResolveCancels(s, e.id, phase.item, phase.context, phase.pc, e.expired, e.more, e.chosen, id);
    }
  }

  lemma ResolveStaysLocked(s: State, id: Id, item: Item, context: Context, pc: Pc, expired: bool, more: bool,
                           chosen: Settings)
    requires id in s.requests && !s.unlocked
    ensures !AdvanceResolve(s, id, item, context, pc, expired, more, chosen).unlocked
  {
    if pc.Passed? {
      ContinueStaysLocked(s, id, item, context, pc.stage, pc.read, expired, more);
    }
  }

  lemma ContinueStaysLocked(s: State, id: Id, item: Item, context: Context, stage: Stage, read: Settings,
                            expired: bool, more: bool)
    requires id in s.requests && !s.unlocked
    ensures !Continue(s, id, item, context, stage, read, expired, more).unlocked
  {
  }

  lemma StepStaysLocked(s: State, e: Event)
    requires !s.unlocked && e != Unlock
    ensures !Step(s, e).unlocked && Step(s, e).posts == s.posts
  {
    if e.Advance? && e.id in s.requests && s.requests[e.id].Resolving? {
      var phase := s.requests[e.id];
      OwnAdvance(s, e.id, e.expired, e.more, e.chosen);
      ResolveStaysLocked(s, e.id, phase.item, phase.context, phase.pc, e.expired, e.more, e.chosen);
    }
    if Step(s, e).posts != s.posts {
      PostsAtEnd(s, e);
    }
  }

  /** Until the wallet is unlocked, no success is posted. */
  lemma {:induction false} NothingBeforeUnlocking(stored: Settings, grants: map<Origin, nat>, events: seq<Event>)
    requires Unlock !in events
    ensures !Run(Initial(stored, grants), events).unlocked && Run(Initial(stored, grants), events).posts == []
  {
    if events != [] {
      NothingBeforeUnlocking(stored, grants, events[..|events| - 1]);
      StepStaysLocked(Run(Initial(stored, grants), events[..|events| - 1]), events[|events| - 1]);
    }
  }

  lemma ClosedStays(s: State, e: Event, id: Id)
    requires id in s.requests && s.requests[id].Closed? && !e.Restart?
    ensures id in Step(s, e).requests && Step(s, e).requests[id].Closed?
  {
    if e.Advance? && e.id in s.requests && e.id != id {
      AdvanceLeaves(s, e.id, e.expired, e.more, e.chosen, id);
    }
  }

  /** A request that was rejected, or ran out of time, before it was approved is never taken up again. */
  lemma {:induction false} DroppedStaysClosed(s: State, id: Id, later: seq<Event>)
    requires id in s.requests && s.requests[id].Pending? && forall i :: 0 <= i < |later| ==> !later[i].Restart?
    ensures
      var t := Run(Step(s, Drop(id)), later);
      id in t.requests && t.requests[id].Closed?
  {
    if later != [] {
      DroppedStaysClosed(s, id, later[..|later| - 1]);
      ClosedStays(Run(Step(s, Drop(id)), later[..|later| - 1]), later[|later| - 1], id);
    }
  }

  /** A restart leaves a locked wallet without requests; a settings write in flight has landed or not. */
  lemma RestartStores(s: State, landed: Option<nat>, granted: Option<Id>)
    ensures
      var t := Step(s, Restart(landed, granted));
      && !t.unlocked && t.requests == map[] && t.queue == [] && t.writes == map[] && t.posts == s.posts
      && (landed.Some? && landed.value in s.writes ==> t.stored == s.writes[landed.value])
      && (landed.None? || landed.value !in s.writes ==> t.stored == s.stored)
  {
  }
}
