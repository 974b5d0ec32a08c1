/** Settings writes that land after a request's last check (apps/extension/src/background.ts). */
module LateWrites {
  import opened Wrappers
  import opened ApprovalProtocol

  // ---------- When the stored settings can differ ----------

  /** The request has passed its last check, and nothing has advanced the revision since. */
  ghost predicate AtEnd(s: State, id: Id, item: Item, context: Context, read: Settings) {
    && id in s.requests && s.requests[id] == Resolving(item, context, Passed(Final, read))
    && Valid(s, context)
  }

  /** No worker restart, which closes every request, and no first-wallet write, which is the one kind
      of write that begins without advancing the revision. */
  predicate Ordinary(events: seq<Event>) {
    forall i :: 0 <= i < |events| ==> !events[i].Restart? && !events[i].FirstWrite?
  }

  /** After these events the request succeeds, and sends this. */
  ghost predicate Posts(s: State, events: seq<Event>, id: Id, item: Item, context: Context, read: Settings, p: Post) {
    var t := Run(s, events);
    && AtEnd(t, id, item, context, read)
    && Step(t, Advance(id, false, false, 0)).posts == t.posts + [p]
  }

  ghost predicate MayDiffer(s: State, id: Id, item: Item, context: Context, read: Settings) {
    exists events, p :: Ordinary(events) && Posts(s, events, id, item, context, read, p) && p.stored != p.finalRead
  }

  /** Every settings value that is stored or about to be is the one that was read. */
  ghost predicate OnlyRead(s: State, read: Settings) {
    s.stored == read && forall w :: w in s.writes ==> s.writes[w] == read
  }

  lemma PostAtEnd(s: State, id: Id, item: Item, context: Context, read: Settings) returns (p: Post)
    requires AtEnd(s, id, item, context, read)
    ensures Step(s, Advance(id, false, false, 0)).posts == s.posts + [p]
    ensures p.id == id && p.stored == s.stored && p.finalRead == read
  {
    p := PostSuccess(s, id, item, read).posts[|s.posts|];
  }

  /** An event that leaves the revision alone begins no write. */
  ghost predicate Calm(s: State, t: State) {
    && t.revision >= s.revision
    && (t.revision == s.revision ==> forall read :: OnlyRead(s, read) ==> OnlyRead(t, read))
  }

  lemma ContinueCalm(s: State, id: Id, item: Item, context: Context, stage: Stage, read: Settings, expired: bool,
                     more: bool)
    requires id in s.requests
    ensures Calm(s, Continue(s, id, item, context, stage, read, expired, more))
  {
  }

  lemma ResolveCalm(s: State, id: Id, item: Item, context: Context, pc: Pc, expired: bool, more: bool, chosen: Settings)
    requires id in s.requests
    ensures Calm(s, AdvanceResolve(s, id, item, context, pc, expired, more, chosen))
  {
    if pc.Passed? {
      ContinueCalm(s, id, item, context, pc.stage, pc.read, expired, more);
    }
  }

  lemma StepCalm(s: State, e: Event)
    requires !e.Restart? && !e.FirstWrite?
    ensures Calm(s, Step(s, e))
  {
    if e.Advance? && e.id in s.requests && s.requests[e.id].Resolving? {
      var phase := s.requests[e.id];
      ResolveCalm(s, e.id, phase.item, phase.context, phase.pc, e.expired, e.more, e.chosen);
    }
  }

  lemma {:induction false} RunCalm(s: State, events: seq<Event>)
    requires Ordinary(events)
    ensures Calm(s, Run(s, events))
  {
    if events != [] {
      var init := events[..|events| - 1];
      RunCalm(s, init);
      StepCalm(Run(s, init), events[|events| - 1]);
    }
  }

  /** Once a request has passed its last check, it can succeed with other settings stored than it read
      exactly when others are stored already, or a write of others, begun before, is still in flight. */
  lemma MayDifferExactly(s: State, id: Id, item: Item, context: Context, read: Settings)
    requires AtEnd(s, id, item, context, read)
    ensures MayDiffer(s, id, item, context, read) <==>
              s.stored != read || exists w :: w in s.writes && s.writes[w] != read
  {
    if MayDiffer(s, id, item, context, read) {
      var events, p :| Ordinary(events) && Posts(s, events, id, item, context, read, p) && p.stored != p.finalRead;
      RunCalm(s, events);
      var t := Run(s, events);
      var q := PostAtEnd(t, id, item, context, read);
      assert (t.posts + [p])[|t.posts|] == p && (t.posts + [q])[|t.posts|] == q;
      assert !OnlyRead(s, read);
    }
    if s.stored != read {
      DiffersAfter(s, [], id, item, context, read);
    }
    forall w | w in s.writes && s.writes[w] != read ensures MayDiffer(s, id, item, context, read) {
      LandsLate(s, w, id, item, context, read);
    }
  }

  lemma LandsLate(s: State, w: nat, id: Id, item: Item, context: Context, read: Settings)
    requires AtEnd(s, id, item, context, read) && w in s.writes && s.writes[w] != read
    ensures MayDiffer(s, id, item, context, read)
  {
    var events := [WriteLands(w)];
    assert events[..0] == [] && Run(s, []) == s;
    assert Run(s, events) == Step(s, WriteLands(w));
    DiffersAfter(s, events, id, item, context, read);
  }

  lemma DiffersAfter(s: State, events: seq<Event>, id: Id, item: Item, context: Context, read: Settings)
    requires Ordinary(events) && AtEnd(Run(s, events), id, item, context, read) && Run(s, events).stored != read
    ensures MayDiffer(s, id, item, context, read)
  {
    var p := PostAtEnd(Run(s, events), id, item, context, read);
    assert Posts(s, events, id, item, context, read, p);
  }

  // ---------- A write in flight at the capture ----------

  const REVIEWED := Context(0, 1)
  const ITEM := Item(5, AddChain, REVIEWED, false, 0)

  /** One request, opened while the write that follows a settings change is still in flight. */
  function DuringWrite(phase: Phase): State {
    State(true, 1, 0, [Updated], 0, map[0 := 1], 1, 0, map[5 := 0], [], {}, map[7 := phase], [])
  }

  lemma OpenDuringWrite(events: seq<Event>)
    requires events == [] + [Unlock, UiUpdate(1), Open(7, 5, AddChain)]
    ensures Run(Initial(0, map[5 := 0]), events) == DuringWrite(Started(5, AddChain, 1, false, 0))
  {
    var s0 := Initial(0, map[5 := 0]);
    Run3(s0, [], Unlock, UiUpdate(1), Open(7, 5, AddChain));
    var none: map<Id, Phase> := map[];
    assert Cancelled(none) == none;
    assert s0.grants == map[5 := 0];
    var u := State(true, 1, 0, [Updated], 0, map[0 := 1], 1, 0, map[5 := 0], [], {}, none, []);
    assert Step(Step(s0, Unlock), UiUpdate(1)) == u;
    assert 0 in u.writes;
  }

  lemma Put7(phase: Phase, next: Phase)
    ensures Put(DuringWrite(phase), 7, next) == DuringWrite(next)
  {
  }

  lemma CaptureDuringWrite(s: State)
    requires s == DuringWrite(Started(5, AddChain, 1, false, 0))
    ensures Step(Step(Step(s, NEXT), NEXT), NEXT) == DuringWrite(Pending(ITEM))
  {
    Put7(s.requests[7], Opening(5, AddChain, 1, 0, false, 0));
    assert Step(s, NEXT) == DuringWrite(Opening(5, AddChain, 1, 0, false, 0));
    Put7(Opening(5, AddChain, 1, 0, false, 0), Captured(ITEM));
    Put7(Captured(ITEM), Pending(ITEM));
  }

  lemma CompareDuringWrite(s: State)
    requires s == DuringWrite(Pending(ITEM))
    ensures Step(Step(Step(Step(s, Resolve(7)), NEXT), NEXT), NEXT)
         == DuringWrite(Resolving(ITEM, REVIEWED, Reading(Enter, 1)))
  {
    Put7(Pending(ITEM), Resolving(ITEM, REVIEWED, Reading(Compare, 1)));
    assert Step(s, Resolve(7)) == DuringWrite(Resolving(ITEM, REVIEWED, Reading(Compare, 1)));
    Put7(Resolving(ITEM, REVIEWED, Reading(Compare, 1)), Resolving(ITEM, REVIEWED, Have(Compare, 1, 0)));
    Put7(Resolving(ITEM, REVIEWED, Have(Compare, 1, 0)), Resolving(ITEM, REVIEWED, Got(Compare, REVIEWED)));
    Put7(Resolving(ITEM, REVIEWED, Got(Compare, REVIEWED)), Resolving(ITEM, REVIEWED, Reading(Enter, 1)));
  }

  lemma StageDuringWrite(s0: State, events: seq<Event>, stage: Stage)
    requires stage != Compare && Run(s0, events) == DuringWrite(Resolving(ITEM, REVIEWED, Reading(stage, 1)))
    ensures Run(s0, events + [NEXT, NEXT, NEXT]) == DuringWrite(Resolving(ITEM, REVIEWED, Passed(stage, 0)))
  {
    Run3(s0, events, NEXT, NEXT, NEXT);
    CheckPasses(Run(s0, events), ITEM, stage);
    Put7(Resolving(ITEM, REVIEWED, Reading(stage, 1)), Resolving(ITEM, REVIEWED, Passed(stage, 0)));
  }

  lemma AskDuringWrite(s0: State, events: seq<Event>)
    requires Run(s0, events) == DuringWrite(Resolving(ITEM, REVIEWED, Passed(Enter, 0)))
    ensures Run(s0, events + [NEXT, NEXT, NEXT]) == DuringWrite(Resolving(ITEM, REVIEWED, Reading(Permit, 1)))
  {
    Run3(s0, events, NEXT, NEXT, NEXT);
    AskSteps(Run(s0, events));
  }

  lemma AskSteps(s: State)
    requires s == DuringWrite(Resolving(ITEM, REVIEWED, Passed(Enter, 0)))
    ensures Step(Step(Step(s, NEXT), NEXT), NEXT) == DuringWrite(Resolving(ITEM, REVIEWED, Reading(Permit, 1)))
  {
    var a := DuringWrite(Resolving(ITEM, REVIEWED, Asking));
    var b := DuringWrite(Resolving(ITEM, REVIEWED, Answered(true)));
    Put7(s.requests[7], Resolving(ITEM, REVIEWED, Asking));
    assert Step(s, NEXT) == a;
    Put7(a.requests[7], Resolving(ITEM, REVIEWED, Answered(true)));
    assert Step(a, NEXT) == b;
    Put7(b.requests[7], Resolving(ITEM, REVIEWED, Reading(Permit, 1)));
  }

  lemma PermittedDuringWrite(s0: State, events: seq<Event>)
    requires Run(s0, events) == DuringWrite(Resolving(ITEM, REVIEWED, Passed(Permit, 0)))
    ensures Run(s0, events + [NEXT]) == DuringWrite(Resolving(ITEM, REVIEWED, Reading(Final, 1)))
  {
    RunSnoc(s0, events, NEXT);
    Put7(Resolving(ITEM, REVIEWED, Passed(Permit, 0)), Resolving(ITEM, REVIEWED, Reading(Final, 1)));
  }

  lemma LandThenPost(s: State)
    requires s == DuringWrite(Resolving(ITEM, REVIEWED, Passed(Final, 0)))
    ensures Step(Step(s, WriteLands(0)), NEXT).posts == [Post(7, 5, AddChain, true, true, [], 0, 0, 1, false)]
  {
    var t := Step(s, WriteLands(0));
    assert t.stored == 1 && t.requests == s.requests;
    assert t.log[1..] == [];
  }

  /** "No settings change" cannot be strengthened to "no settings write lands": a write that began
      before the capture may land between the last read and the success.  Storage operations are not
      ordered among themselves: here a read issued after the write is answered before it lands. */
  lemma InFlightWriteMayLand() returns (events: seq<Event>)
    ensures
      var s := Run(Initial(0, map[5 := 0]), events);
      && |s.posts| == 1 && s.posts[0].since == []
      && s.posts[0].reviewed == s.posts[0].finalRead == 0 && s.posts[0].stored == 1
  {
    var s0 := Initial(0, map[5 := 0]);
    events := [] + [Unlock, UiUpdate(1), Open(7, 5, AddChain)];
    OpenDuringWrite(events);
    CaptureDuringWrite(Run(s0, events));
    Run3(s0, events, NEXT, NEXT, NEXT);
    events := events + [NEXT, NEXT, NEXT];
    CompareDuringWrite(Run(s0, events));
    Run3(s0, events, Resolve(7), NEXT, NEXT);
    events := events + [Resolve(7), NEXT, NEXT];
    RunSnoc(s0, events, NEXT);
    events := events + [NEXT];
    StageDuringWrite(s0, events, Enter);
    events := events + [NEXT, NEXT, NEXT];
    AskDuringWrite(s0, events);
    events := events + [NEXT, NEXT, NEXT];
    StageDuringWrite(s0, events, Permit);
    events := events + [NEXT, NEXT, NEXT];
    PermittedDuringWrite(s0, events);
    events := events + [NEXT];
    StageDuringWrite(s0, events, Final);
    events := events + [NEXT, NEXT, NEXT];
    LandThenPost(Run(s0, events));
    RunSnoc(s0, events, WriteLands(0));
    RunSnoc(s0, events + [WriteLands(0)], NEXT);
    events := events + [WriteLands(0)] + [NEXT];
  }
}
