/** A success for a site that is no longer permitted (apps/extension/src/background.ts): a revocation
    requested before the capture runs after the permissions were read. */
module RevokedLate {
  import opened Wrappers
  import opened ApprovalProtocol

  const REVIEWED := Context(0, 1)
  const ITEM := Item(5, AddChain, REVIEWED, true, 0)

  /** The revocation of site 5 is queued. */
  function Before(phase: Phase): State {
    State(true, 1, 0, [Revoked(Some(5))], 0, map[], 0, 0, map[5 := 0], [Revocation(Some(5), 0)], {}, map[7 := phase],
          [])
  }

  /** It has run. */
  function Later(phase: Phase): State {
    State(true, 1, 0, [Revoked(Some(5))], 0, map[], 0, 0, map[], [], {}, map[7 := phase], [])
  }

  function At7(pc: Pc): Phase {
    Resolving(ITEM, REVIEWED, pc)
  }

  lemma PutBefore(phase: Phase, next: Phase)
    ensures Put(Before(phase), 7, next) == Before(next)
  {
  }

  lemma PutLater(phase: Phase, next: Phase)
    ensures Put(Later(phase), 7, next) == Later(next)
  {
  }

  lemma Opens(events: seq<Event>)
    requires events == [] + [Unlock, Revoke(Some(5)), Open(7, 5, AddChain)]
    ensures Run(Initial(0, map[5 := 0]), events) == Before(Started(5, AddChain, 1, true, 0))
  {
    var s0 := Initial(0, map[5 := 0]);
    Run3(s0, [], Unlock, Revoke(Some(5)), Open(7, 5, AddChain));
    var none: map<Id, Phase> := map[];
    assert Cancelled(none) == none && s0.grants == map[5 := 0];
    assert Step(Step(s0, Unlock), Revoke(Some(5)))
        == State(true, 1, 0, [Revoked(Some(5))], 0, map[], 0, 0, map[5 := 0], [Revocation(Some(5), 0)], {}, none, []);
  }

  lemma Captures(s: State)
    requires s == Before(Started(5, AddChain, 1, true, 0))
    ensures Step(Step(Step(s, NEXT), NEXT), NEXT) == Before(Pending(ITEM))
  {
    PutBefore(s.requests[7], Opening(5, AddChain, 1, 0, true, 0));
    assert Step(s, NEXT) == Before(Opening(5, AddChain, 1, 0, true, 0));
    PutBefore(Opening(5, AddChain, 1, 0, true, 0), Captured(ITEM));
    PutBefore(Captured(ITEM), Pending(ITEM));
  }

  lemma Compares(s: State)
    requires s == Before(Pending(ITEM))
    ensures Step(Step(Step(Step(s, Resolve(7)), NEXT), NEXT), NEXT) == Before(At7(Reading(Enter, 1)))
  {
    PutBefore(Pending(ITEM), At7(Reading(Compare, 1)));
    assert Step(s, Resolve(7)) == Before(At7(Reading(Compare, 1)));
    PutBefore(At7(Reading(Compare, 1)), At7(Have(Compare, 1, 0)));
    PutBefore(At7(Have(Compare, 1, 0)), At7(Got(Compare, REVIEWED)));
    PutBefore(At7(Got(Compare, REVIEWED)), At7(Reading(Enter, 1)));
  }

  /** The site is found permitted, and then the revocation runs. */
  lemma AsksAndLoses(s: State)
    requires s == Before(At7(Passed(Enter, 0)))
    ensures Step(Step(Step(s, NEXT), NEXT), RevocationRuns) == Later(At7(Answered(true)))
  {
    PutBefore(s.requests[7], At7(Asking));
    assert Step(s, NEXT) == Before(At7(Asking));
    PutBefore(At7(Asking), At7(Answered(true)));
    var b := Before(At7(Answered(true)));
    assert Without(b.grants, Some(5)) == map[];
    assert b.queue[1..] == [];
  }

  lemma EntersBefore(s0: State, events: seq<Event>)
    requires Run(s0, events) == Before(At7(Reading(Enter, 1)))
    ensures Run(s0, events + [NEXT, NEXT, NEXT]) == Before(At7(Passed(Enter, 0)))
  {
    Run3(s0, events, NEXT, NEXT, NEXT);
    CheckPasses(Run(s0, events), ITEM, Enter);
    PutBefore(At7(Reading(Enter, 1)), At7(Passed(Enter, 0)));
  }

  lemma ChecksLater(s0: State, events: seq<Event>, stage: Stage)
    requires stage != Compare && Run(s0, events) == Later(At7(Reading(stage, 1)))
    ensures Run(s0, events + [NEXT, NEXT, NEXT]) == Later(At7(Passed(stage, 0)))
  {
    Run3(s0, events, NEXT, NEXT, NEXT);
    CheckPasses(Run(s0, events), ITEM, stage);
    PutLater(At7(Reading(stage, 1)), At7(Passed(stage, 0)));
  }

  lemma GoesOnLater(s0: State, events: seq<Event>, pc: Pc, next: Stage)
    requires (pc == Answered(true) && next == Permit) || (pc == Passed(Permit, 0) && next == Final)
    requires Run(s0, events) == Later(At7(pc))
    ensures Run(s0, events + [NEXT]) == Later(At7(Reading(next, 1)))
  {
    RunSnoc(s0, events, NEXT);
    PutLater(At7(pc), At7(Reading(next, 1)));
  }

  lemma PostsLater(s: State)
    requires s == Later(At7(Passed(Final, 0)))
    ensures Step(s, NEXT).posts == [Post(7, 5, AddChain, false, true, [], 0, 0, 0, true)]
  {
    assert s.log[1..] == [];
  }

  /** Such a run: the site is permitted when it is asked about, and not when the success is posted. */
  lemma MaySucceedUnpermitted() returns (events: seq<Event>)
    ensures
      var s := Run(Initial(0, map[5 := 0]), events);
      |s.posts| == 1 && s.posts[0].kind == AddChain && !s.posts[0].permitted
  {
    var s0 := Initial(0, map[5 := 0]);
    events := [] + [Unlock, Revoke(Some(5)), Open(7, 5, AddChain)];
    Opens(events);
    Captures(Run(s0, events));
    Run3(s0, events, NEXT, NEXT, NEXT);
    events := events + [NEXT, NEXT, NEXT];
    Compares(Run(s0, events));
    Run3(s0, events, Resolve(7), NEXT, NEXT);
    events := events + [Resolve(7), NEXT, NEXT];
    RunSnoc(s0, events, NEXT);
    events := events + [NEXT];
    EntersBefore(s0, events);
    events := events + [NEXT, NEXT, NEXT];
    AsksAndLoses(Run(s0, events));
    Run3(s0, events, NEXT, NEXT, RevocationRuns);
    events := events + [NEXT, NEXT, RevocationRuns];
    GoesOnLater(s0, events, Answered(true), Permit);
    events := events + [NEXT];
    ChecksLater(s0, events, Permit);
    events := events + [NEXT, NEXT, NEXT];
    GoesOnLater(s0, events, Passed(Permit, 0), Final);
    events := events + [NEXT];
    ChecksLater(s0, events, Final);
    events := events + [NEXT, NEXT, NEXT];
    PostsLater(Run(s0, events));
    RunSnoc(s0, events, NEXT);
    events := events + [NEXT];
  }
}
