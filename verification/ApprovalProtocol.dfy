/** Model of the approval protocol (apps/extension/src/background.ts).

    The background worker interleaves at every `await`.  Each stretch between two awaits is one
    event, and `Step` says what it does; locking, settings changes, revocations, timeouts and
    worker restarts are events too.  A run is any sequence of events.  `log` and `posts` are
    history: every change of the context revision, and every success sent to a page. */
module ApprovalProtocol {
  import opened Wrappers

  type Id = int
  type Origin = int
  type Settings = int

  datatype Kind = Connect | AddChain | Switch | Sign

  /** Who advanced the context revision; a network switch is recorded with the settings it writes. */
  datatype Bump = Locked | Updated | Protected | Revoked(origin: Option<Origin>) | OwnSwitch(id: Id, next: Settings)

  datatype Context = Context(settings: Settings, revision: nat)

  /** `quiet` and `firstWrites` remember, of the moment of capture, that no settings write was in
      flight, and how many first-wallet writes (which do not advance the revision) had begun. */
  datatype Item = Item(origin: Origin, kind: Kind, context: Context, quiet: bool, firstWrites: nat)

  datatype Stage =
    | Compare
    | Enter
    | Permit
    | Start
    | Work
    | GrantBefore(grants: map<Origin, nat>)
    | GrantAfter
    | Final

  /** Where the handler of `RESOLVE_PENDING` stands between two awaits. */
  datatype Pc =
    | Reading(stage: Stage, revision: nat)
    | Have(stage: Stage, revision: nat, settings: Settings)
    | Got(stage: Stage, current: Context)
    | Passed(stage: Stage, read: Settings)
    | Asking
    | Answered(permitted: bool)
    | Switching
    | SwitchWriting(next: Settings, revision: nat, write: nat)
    | Queued
    | GrantWriting(grants: map<Origin, nat>)

  datatype Phase =
    | Started(origin: Origin, kind: Kind, revision: nat, quiet: bool, firstWrites: nat)
    | Opening(origin: Origin, kind: Kind, revision: nat, settings: Settings, quiet: bool, firstWrites: nat)
    | Captured(item: Item)
    | Pending(item: Item)
    | Resolving(item: Item, context: Context, pc: Pc)
    | Closed

  /** `at` is where in the log the revocation stands. */
  datatype Job = ForRequest(id: Id) | Revocation(origin: Option<Origin>, at: nat)

  /** A success sent to a page: what was asked for, the state at that moment (whether the site is
      permitted then, for one), and the bumps since the capture. */
  datatype Post = Post(
    id: Id,
    origin: Origin,
    kind: Kind,
    permitted: bool,
    unlocked: bool,
    since: seq<Bump>,
    reviewed: Settings,
    finalRead: Settings,
    stored: Settings,
    undisturbed: bool)

  /** `log` goes on over restarts; `base` is its length when the worker started.  `grants` maps each
      permitted origin to the place in the log at which the granting request was captured, and `lost`
      holds the places of the revocations that restarts forgot. */
  datatype State = State(
    unlocked: bool,
    revision: nat,
    base: nat,
    log: seq<Bump>,
    stored: Settings,
    writes: map<nat, Settings>,
    nextWrite: nat,
    firstWrites: nat,
    grants: map<Origin, nat>,
    queue: seq<Job>,
    lost: set<nat>,
    requests: map<Id, Phase>,
    posts: seq<Post>)

  datatype Event =
    | Lock
    | Unlock
    | Protect
    | UiUpdate(next: Settings)
    | FirstWrite(next: Settings)
    | WriteLands(write: nat)
    | Revoke(revoked: Option<Origin>)
    | RevocationRuns
    | Open(id: Id, origin: Origin, kind: Kind)
    | Drop(id: Id)
    | Resolve(id: Id)
    | Fail(id: Id)
    | Advance(id: Id, expired: bool, more: bool, chosen: Settings)
    | Restart(landed: Option<nat>, granted: Option<Id>)

  function Initial(stored: Settings, grants: map<Origin, nat>): State {
    State(false, 0, 0, [], stored, map[], 0, 0, map o | o in grants :: 0, [], {}, map[], [])
  }

  // ---------- Shared steps ----------

  /** `cancelPendingApprovals`. */
  function Cancelled(requests: map<Id, Phase>): map<Id, Phase> {
    map id | id in requests :: if requests[id].Pending? then Closed else requests[id]
  }

  function Bumped(s: State, bump: Bump): State {
    s.(revision := s.revision + 1, log := s.log + [bump])
  }

  function BumpedAndCancelled(s: State, bump: Bump): State {
    Bumped(s, bump).(requests := Cancelled(s.requests))
  }

  function LockedState(s: State): State {
    BumpedAndCancelled(s.(unlocked := false), Locked)
  }

  function BeginWrite(s: State, next: Settings): State {
    s.(writes := s.writes[s.nextWrite := next], nextWrite := s.nextWrite + 1)
  }

  function Put(s: State, id: Id, phase: Phase): State {
    s.(requests := s.requests[id := phase])
  }

  predicate InGrant(pc: Pc) {
    || pc.GrantWriting?
    || (pc.Reading? && (pc.stage.GrantBefore? || pc.stage.GrantAfter?))
    || (pc.Have? && (pc.stage.GrantBefore? || pc.stage.GrantAfter?))
    || (pc.Got? && (pc.stage.GrantBefore? || pc.stage.GrantAfter?))
    || (pc.Passed? && (pc.stage.GrantBefore? || pc.stage.GrantAfter?))
  }

  /** The handler throws: the page gets an error, and a permission job that was running is over. */
  function Close(s: State, id: Id): State
    requires id in s.requests
  {
    var phase := s.requests[id];
    var s1 := if phase.Resolving? && InGrant(phase.pc) && s.queue != [] then s.(queue := s.queue[1..]) else s;
    Put(s1, id, Closed)
  }

  /** `assertContextRevision`: lock an expired session, then compare revisions. */
  function Checked(s: State, expired: bool): State {
    if s.unlocked && expired then LockedState(s) else s
  }

  predicate Valid(s: State, context: Context) {
    s.unlocked && context.revision == s.revision
  }

  // ---------- The handler of `RESOLVE_PENDING` ----------

  function At(s: State, id: Id, item: Item, context: Context, pc: Pc): State {
    Put(s, id, Resolving(item, context, pc))
  }

  function Enqueue(s: State, id: Id, item: Item, context: Context): State {
    At(s, id, item, context, Queued).(queue := s.queue + [ForRequest(id)])
  }

  /** Where in the log the request's context was captured. */
  function CapturedAt(s: State, item: Item): nat {
    s.base + item.context.revision
  }

  function PostSuccess(s: State, id: Id, item: Item, read: Settings): State {
    var since := if CapturedAt(s, item) <= |s.log| then s.log[CapturedAt(s, item)..] else [];
    Put(s, id, Closed).(
      posts := s.posts + [Post(id, item.origin, item.kind, item.origin in s.grants, s.unlocked, since,
                               item.context.settings, read, s.stored,
                               item.quiet && item.firstWrites == s.firstWrites)])
  }

  function Continue(s: State, id: Id, item: Item, context: Context, stage: Stage, read: Settings,
                    expired: bool, more: bool): State
    requires id in s.requests
  {
    match stage
    case Compare => s
    case Enter =>
      if item.kind == Connect then Enqueue(s, id, item, context)
      else At(s, id, item, context, Asking)
    case Permit =>
      (match item.kind
       case Switch => At(s, id, item, context, Switching)
       case Sign => At(s, id, item, context, Reading(Start, s.revision))
       case _ => At(s, id, item, context, Reading(Final, s.revision)))
    case Start => At(s, id, item, context, Reading(Work, s.revision))
    case Work => At(s, id, item, context, Reading(if more then Work else Final, s.revision))
    case GrantBefore(grants) =>
      var s1 := Checked(s, expired);
      if Valid(s1, context) then At(s1, id, item, context, GrantWriting(grants[item.origin := CapturedAt(s1, item)]))
      else Close(s1, id)
    case GrantAfter =>
      At(s, id, item, context, Reading(Final, s.revision)).(queue := if s.queue == [] then [] else s.queue[1..])
    case Final =>
      var s1 := Checked(s, expired);
      if Valid(s1, context) then PostSuccess(s1, id, item, read) else Close(s1, id)
  }

  function AdvanceResolve(s: State, id: Id, item: Item, context: Context, pc: Pc,
                          expired: bool, more: bool, chosen: Settings): State
    requires id in s.requests
  {
    match pc
    case Reading(stage, revision) => At(s, id, item, context, Have(stage, revision, s.stored))
    case Have(stage, revision, settings) =>
      if revision == s.revision then At(s, id, item, context, Got(stage, Context(settings, revision))) else Close(s, id)
    case Got(stage, current) =>
      if current != context then Close(s, id)
      else if stage == Compare then At(s, id, item, context, Reading(Enter, s.revision))
      else
        var s1 := Checked(s, expired);
        if Valid(s1, context) then At(s1, id, item, context, Passed(stage, current.settings)) else Close(s1, id)
    case Passed(stage, read) => Continue(s, id, item, context, stage, read, expired, more)
    case Asking => At(s, id, item, context, Answered(item.origin in s.grants))
    case Answered(permitted) =>
      if permitted then At(s, id, item, context, Reading(Permit, s.revision)) else Close(s, id)
    case Switching =>
      var s1 := Checked(s, expired);
      if Valid(s1, context) then
        var s2 := BumpedAndCancelled(s1, OwnSwitch(id, chosen));
        At(BeginWrite(s2, chosen), id, item, context, SwitchWriting(chosen, s2.revision, s2.nextWrite))
      else Close(s1, id)
    case SwitchWriting(next, revision, write) =>
      if write in s.writes then s
      else if s.unlocked && revision == s.revision then Enqueue(s, id, item, Context(next, revision))
      else Close(s, id)
    case Queued =>
      if s.queue != [] && s.queue[0] == ForRequest(id)
      then At(s, id, item, context, Reading(GrantBefore(s.grants), s.revision))
      else s
    case GrantWriting(grants) => At(s.(grants := grants), id, item, context, Reading(GrantAfter, s.revision))
  }

  function AdvanceRequest(s: State, id: Id, expired: bool, more: bool, chosen: Settings): State
    requires id in s.requests
  {
    match s.requests[id]
    case Started(origin, kind, revision, quiet, firstWrites) =>
      Put(s, id, Opening(origin, kind, revision, s.stored, quiet, firstWrites))
    case Opening(origin, kind, revision, settings, quiet, firstWrites) =>
      if revision == s.revision
      then Put(s, id, Captured(Item(origin, kind, Context(settings, revision), quiet, firstWrites)))
      else Put(s, id, Closed)
    case Captured(item) => Put(s, id, Pending(item))
    case Pending(_) => s
    case Resolving(item, context, pc) => AdvanceResolve(s, id, item, context, pc, expired, more, chosen)
    case Closed => s
  }

  // ---------- Permission revocation ----------

  predicate Revokes(revoked: Option<Origin>, origin: Origin) {
    revoked.None? || revoked.value == origin
  }

  function Without(grants: map<Origin, nat>, revoked: Option<Origin>): map<Origin, nat> {
    map o | o in grants && !Revokes(revoked, o) :: grants[o]
  }

  /** A request whose permission write is in flight. */
  predicate InFlight(s: State, granted: Option<Id>) {
    && granted.Some? && granted.value in s.requests && s.requests[granted.value].Resolving?
    && s.requests[granted.value].pc.GrantWriting?
  }

  function Places(queue: seq<Job>): set<nat> {
    set j | 0 <= j < |queue| && queue[j].Revocation? :: queue[j].at
  }

  // ---------- The machine ----------

  function Step(s: State, e: Event): State {
    match e
    case Lock => LockedState(s)
    case Unlock => s.(unlocked := true)
    case Protect => Bumped(s, Protected)
    case UiUpdate(next) => BeginWrite(BumpedAndCancelled(s, Updated), next)
    case FirstWrite(next) => BeginWrite(s.(firstWrites := s.firstWrites + 1), next)
    case WriteLands(write) =>
      if write in s.writes then s.(stored := s.writes[write], writes := s.writes - {write}) else s
    case Revoke(revoked) =>
      BumpedAndCancelled(s, Revoked(revoked)).(queue := s.queue + [Revocation(revoked, |s.log|)])
    case RevocationRuns =>
      if s.queue != [] && s.queue[0].Revocation?
      then s.(grants := Without(s.grants, s.queue[0].origin), queue := s.queue[1..])
      else s
    case Open(id, origin, kind) =>
      if id in s.requests then s
      else Put(s, id, Started(origin, kind, s.revision, s.writes == map[], s.firstWrites))
    case Drop(id) =>
      if id in s.requests && s.requests[id].Pending? then Put(s, id, Closed) else s
    case Resolve(id) =>
      if id in s.requests && s.requests[id].Pending? then
        var item := s.requests[id].item;
        if s.unlocked then At(s, id, item, item.context, Reading(Compare, s.revision)) else Put(s, id, Closed)
      else s
    case Fail(id) =>
      if id in s.requests && s.requests[id].Resolving? && !s.requests[id].pc.Queued?
      then Close(s, id)
      else s
    case Advance(id, expired, more, chosen) =>
      if id in s.requests then AdvanceRequest(s, id, expired, more, chosen) else s
    case Restart(landed, granted) =>
      var stored := if landed.Some? && landed.value in s.writes then s.writes[landed.value] else s.stored;
      var grants := if InFlight(s, granted) then s.requests[granted.value].pc.grants else s.grants;
      Initial(stored, map[]).(base := |s.log|, log := s.log, grants := grants, lost := s.lost + Places(s.queue),
                              posts := s.posts)
  }

  function Run(s: State, events: seq<Event>): State {
    if events == [] then s else Step(Run(s, events[..|events| - 1]), events[|events| - 1])
  }

  // ---------- Runs, step by step ----------

  lemma RunSnoc(s: State, events: seq<Event>, e: Event)
    ensures Run(s, events + [e]) == Step(Run(s, events), e)
  {
    assert (events + [e])[..|events|] == events;
  }

  lemma Run3(s: State, events: seq<Event>, a: Event, b: Event, c: Event)
    ensures Run(s, events + [a, b, c]) == Step(Step(Step(Run(s, events), a), b), c)
  {
    assert events + [a, b, c] == events + [a] + [b] + [c];
    RunSnoc(s, events, a);
    RunSnoc(s, events + [a], b);
    RunSnoc(s, events + [a] + [b], c);
  }

  const NEXT := Advance(7, false, false, 0)

  /** Three advances take a valid check from its start to its end, and touch nothing else. */
  lemma CheckPasses(s: State, item: Item, stage: Stage)
    requires 7 in s.requests && s.requests[7] == Resolving(item, item.context, Reading(stage, s.revision))
    requires Valid(s, item.context) && s.stored == item.context.settings && stage != Compare
    ensures Step(Step(Step(s, NEXT), NEXT), NEXT) == At(s, 7, item, item.context, Passed(stage, s.stored))
  {
    var a := At(s, 7, item, item.context, Have(stage, s.revision, s.stored));
    var b := At(s, 7, item, item.context, Got(stage, item.context));
    assert Step(s, NEXT) == a;
    assert Step(a, NEXT) == b;
  }
}
