/** Model of `SecretClipboard` (apps/extension/src/secret-clipboard.ts).  Copies and clears run one
    after another; each stretch between two awaits is one event, and clipboard calls may fail. */
module ClipboardCleanup {
  import opened Wrappers

  type Secret = string

  const MAX_FAILED_CLEARS := 3

  datatype Action = Copy(value: Secret) | Clear

  datatype Running =
    | Idle
    | CopyReading(value: Secret)
    | CopyWriting(value: Secret)
    | CopyWritten(value: Secret)
    | ClearReading(value: Secret)
    | ClearWriting(value: Secret, read: string)
    | ClearWritten

  /** A time `clear` overwrote the clipboard: what it had just read, and what was held. */
  datatype Overwrite = Overwrite(read: string, held: Option<Secret>)

  /** `timer` is whether a timer is armed; `failures` counts failed clears since the last copy. */
  datatype State = State(
    held: Option<Secret>,
    failedClears: nat,
    timer: bool,
    queue: seq<Action>,
    running: Running,
    clipboard: string,
    failures: nat,
    overwrites: seq<Overwrite>)

  datatype Event =
    | CallCopy(value: Secret)
    | CallClear
    | TimerFires
    | Start
    | Succeed          // the pending clipboard call succeeds, or the code after it runs
    | Fail             // the pending clipboard call is rejected
    | OthersCopy(text: string)

  function Initial(clipboard: string): State {
    State(None, 0, false, [], Idle, clipboard, 0, [])
  }

  function StartNext(s: State): State {
    if s.running != Idle || s.queue == [] then s
    else
      var s1 := s.(queue := s.queue[1..]);
      match s.queue[0]
      case Copy(value) => s1.(running := CopyReading(value))
      case Clear =>
        var s2 := s1.(timer := false);
        if s.held.None? then s2 else s2.(running := ClearReading(s.held.value))
  }

  function ClearFailed(s: State): State {
    var failed := s.failedClears + 1;
    var s1 := s.(failedClears := failed, failures := s.failures + 1, running := Idle);
    if failed < MAX_FAILED_CLEARS then s1.(timer := true) else s1.(held := None)
  }

  function Succeeded(s: State): State {
    match s.running
    case Idle => s
    case CopyReading(value) => s.(running := CopyWriting(value))
    case CopyWriting(value) => s.(clipboard := value, running := CopyWritten(value))
    case CopyWritten(value) =>
      s.(held := Some(value), failedClears := 0, failures := 0, timer := true, running := Idle)
    case ClearReading(value) =>
      if s.clipboard == value then s.(running := ClearWriting(value, s.clipboard))
      else s.(held := None, running := Idle)
    case ClearWriting(value, read) =>
      s.(clipboard := "", overwrites := s.overwrites + [Overwrite(read, s.held)], running := ClearWritten)
    case ClearWritten => s.(held := None, running := Idle)
  }

  function Failed(s: State): State {
    match s.running
    case CopyReading(_) => s.(running := Idle)
    case CopyWriting(_) => s.(running := Idle)
    case ClearReading(_) => ClearFailed(s)
    case ClearWriting(_, _) => ClearFailed(s)
    case _ => s
  }

  function Step(s: State, e: Event): State {
    match e
    case CallCopy(value) => s.(queue := s.queue + [Copy(value)])
    case CallClear => s.(queue := s.queue + [Clear])
    case TimerFires => if s.timer then s.(timer := false, queue := s.queue + [Clear]) else s
    case Start => StartNext(s)
    case Succeed => Succeeded(s)
    case Fail => Failed(s)
    case OthersCopy(text) => s.(clipboard := text)
  }

  function Run(clipboard: string, events: seq<Event>): State {
    if events == [] then Initial(clipboard)
    else Step(Run(clipboard, events[..|events| - 1]), events[|events| - 1])
  }

  lemma RunSnoc(clipboard: string, events: seq<Event>, e: Event)
    ensures Run(clipboard, []) == Initial(clipboard) && Run(clipboard, events + [e]) == Step(Run(clipboard, events), e)
  {
    assert (events + [e])[..|events|] == events;
  }

  predicate Clearing(running: Running) {
    running.ClearReading? || running.ClearWriting? || running.ClearWritten?
  }

  ghost predicate Inv(s: State) {
    && (s.held.Some? ==> s.timer || Clear in s.queue || Clearing(s.running))
    && (s.held.Some? ==> s.failures == s.failedClears < MAX_FAILED_CLEARS)
    && s.failures <= MAX_FAILED_CLEARS
    && (Clearing(s.running) ==> s.held.Some?)
    && (s.running.ClearReading? ==> s.held == Some(s.running.value))
    && (s.running.ClearWriting? ==> s.held == Some(s.running.value) && s.running.read == s.running.value)
    && (forall i :: 0 <= i < |s.overwrites| ==> s.overwrites[i].held == Some(s.overwrites[i].read))
  }

  lemma QueueKept(queue: seq<Action>, more: seq<Action>)
    ensures Clear in queue ==> Clear in queue + more
    ensures queue != [] && Clear in queue && queue[0] != Clear ==> Clear in queue[1..]
  {
    if queue != [] {
      assert queue == [queue[0]] + queue[1..];
    }
  }

  lemma StartKeeps(s: State)
    requires Inv(s)
    ensures Inv(StartNext(s))
  {
    QueueKept(s.queue, []);
  }

  lemma SucceededKeeps(s: State)
    requires Inv(s)
    ensures Inv(Succeeded(s))
  {
  }

  lemma StepKeeps(s: State, e: Event)
    requires Inv(s)
    ensures Inv(Step(s, e))
  {
    match e
    case CallCopy(value) => QueueKept(s.queue, [Copy(value)]);
    case CallClear => QueueKept(s.queue, [Clear]);
    case TimerFires => assert Clear in s.queue + [Clear];
    case Start => StartKeeps(s);
    case Succeed => SucceededKeeps(s);
    case Fail =>
    case OthersCopy(text) =>
  }

  lemma {:induction false} RunKeeps(clipboard: string, events: seq<Event>)
    ensures Inv(Run(clipboard, events))
  {
    if events != [] {
      var init, last := events[..|events| - 1], events[|events| - 1];
      RunKeeps(clipboard, init);
      StepKeeps(Run(clipboard, init), last);
      assert init + [last] == events;
      RunSnoc(clipboard, init, last);
    }
  }

  /** In every run: a held secret always has a timer, a queued clear or a running one; it survives at
      most two failed clears, and the third drops it; and the clipboard is only ever overwritten when
      the text just read is the held secret. */
  lemma SecretsAreCleaned(clipboard: string, events: seq<Event>)
    ensures
      var s := Run(clipboard, events);
      && (s.held.Some? ==> s.timer || Clear in s.queue || Clearing(s.running))
      && (s.held.Some? ==> s.failures < 3) && s.failures <= 3
      && (forall i :: 0 <= i < |s.overwrites| ==> s.overwrites[i].held == Some(s.overwrites[i].read))
  {
    RunKeeps(clipboard, events);
  }

  /** The clipboard changes in three ways only: somebody else copies, a copy writes its value, or a clear
      empties it, and then the clear is recorded. */
  lemma ClipboardExactly(s: State, e: Event)
    ensures
      var t := Step(s, e);
      && t.clipboard == (if e.OthersCopy? then e.text
                         else if e == Succeed && s.running.CopyWriting? then s.running.value
                         else if e == Succeed && s.running.ClearWriting? then ""
                         else s.clipboard)
      && (t.overwrites == s.overwrites
          || (e == Succeed && s.running.ClearWriting? && t.clipboard == ""
              && t.overwrites == s.overwrites + [Overwrite(s.running.read, s.held)]))
  {
  }

  // ---------- What is left on the clipboard ----------

  /** Nobody else copies, and no clipboard call fails. */
  predicate Undisturbed(events: seq<Event>) {
    forall i :: 0 <= i < |events| ==> !events[i].OthersCopy? && !events[i].Fail?
  }

  /** Then the clipboard holds the held secret; what was there first, or nothing, when none is held. */
  ghost predicate Wiped(s: State, first: string) {
    match s.running
    case CopyWritten(value) => s.clipboard == value
    case ClearWritten => s.clipboard == ""
    case _ => if s.held.Some? then s.clipboard == s.held.value else s.clipboard in {first, ""}
  }

  lemma StepWipes(s: State, e: Event, first: string)
    requires Inv(s) && Wiped(s, first) && !e.OthersCopy? && !e.Fail?
    ensures Wiped(Step(s, e), first)
  {
    if e == Start && s.running == Idle && s.queue != [] {
      assert s.queue[0].Copy? || s.queue[0].Clear?;
    }
  }

  lemma {:induction false} RunWipes(clipboard: string, events: seq<Event>)
    requires Undisturbed(events)
    ensures Wiped(Run(clipboard, events), clipboard)
  {
    if events != [] {
      var init := events[..|events| - 1];
      RunWipes(clipboard, init);
      RunKeeps(clipboard, init);
      StepWipes(Run(clipboard, init), events[|events| - 1], clipboard);
    }
  }

  /** Left to itself, the clipboard ends up without any secret copied: with what it held first, or empty. */
  lemma QuietMeansWiped(clipboard: string, events: seq<Event>)
    requires Undisturbed(events)
    requires var s := Run(clipboard, events); !s.timer && s.queue == [] && s.running == Idle
    ensures Run(clipboard, events).clipboard in {clipboard, ""}
  {
    RunWipes(clipboard, events);
    QuietMeansForgotten(clipboard, events);
  }

  /** When nothing is left to run and no timer is armed, no secret is held. */
  lemma QuietMeansForgotten(clipboard: string, events: seq<Event>)
    requires var s := Run(clipboard, events); !s.timer && s.queue == [] && s.running == Idle
    ensures Run(clipboard, events).held.None?
  {
    RunKeeps(clipboard, events);
  }

  // ---------- What an action achieves ----------

  /** A copy that comes to its turn, and is not disturbed, puts its value on the clipboard, holds it and
      arms the timer. */
  lemma CopyCompletes(s: State, value: Secret)
    requires s.running == Idle && s.queue != [] && s.queue[0] == Copy(value)
    ensures Step(Step(Step(Step(s, Start), Succeed), Succeed), Succeed)
         == s.(clipboard := value, held := Some(value), timer := true, failedClears := 0, failures := 0,
               queue := s.queue[1..])
  {
  }

  /** A clear with nothing to clear only disarms the timer. */
  lemma ClearOfNothing(s: State)
    requires s.running == Idle && s.queue != [] && s.queue[0] == Clear && s.held.None?
    ensures Step(s, Start) == s.(timer := false, queue := s.queue[1..])
  {
  }

  /** A clear that is not disturbed forgets the secret, and empties the clipboard if it still holds it. */
  lemma ClearCompletes(s: State, value: Secret)
    requires s.running == Idle && s.queue != [] && s.queue[0] == Clear && s.held == Some(value)
    ensures
      var cleared := s.(held := None, timer := false, queue := s.queue[1..]);
      if s.clipboard == value then
        Step(Step(Step(Step(s, Start), Succeed), Succeed), Succeed)
        == cleared.(clipboard := "", overwrites := s.overwrites + [Overwrite(value, Some(value))])
      else Step(Step(s, Start), Succeed) == cleared
  {
  }

  /** A failing copy changes nothing that was held; a failing clear tries again later, and the third in a
      row gives the secret up. */
  lemma FailuresExactly(s: State)
    ensures s.running.CopyReading? || s.running.CopyWriting? ==> Step(s, Fail) == s.(running := Idle)
    ensures s.running.ClearReading? || s.running.ClearWriting? ==>
              var t := Step(s, Fail);
              && t.failedClears == s.failedClears + 1 && t.running == Idle && t.clipboard == s.clipboard
              && (if s.failedClears < 2 then t.timer && t.held == s.held else t.held.None? && t.timer == s.timer)
  {
  }

  /** Calls wait their turn, and a timer asks for one clear. */
  lemma CallsQueue(s: State, value: Secret)
    ensures Step(s, CallCopy(value)) == s.(queue := s.queue + [Copy(value)])
    ensures Step(s, CallClear) == s.(queue := s.queue + [Clear])
    ensures s.timer ==> Step(s, TimerFires) == s.(timer := false, queue := s.queue + [Clear])
    ensures !s.timer ==> Step(s, TimerFires) == s
  {
  }

  /** From a quiet state, a copied secret is on the clipboard until the timer fires, and wiped then. */
  lemma CopiedThenWiped(s: State, value: Secret)
    requires !s.timer && s.queue == [] && s.running == Idle
    ensures
      var copied := Step(Step(Step(Step(Step(s, CallCopy(value)), Start), Succeed), Succeed), Succeed);
      var wiped := Step(Step(Step(Step(Step(copied, TimerFires), Start), Succeed), Succeed), Succeed);
      && copied.clipboard == value && copied.held == Some(value) && copied.timer
      && wiped.clipboard == "" && wiped.held.None? && !wiped.timer && wiped.queue == [] && wiped.running == Idle
  {
    var queued := Step(s, CallCopy(value));
    CopyCompletes(queued, value);
    var copied := queued.(clipboard := value, held := Some(value), timer := true, failedClears := 0, failures := 0,
                          queue := queued.queue[1..]);
    ClearCompletes(Step(copied, TimerFires), value);
  }

  /** So the first secret copied leaves nothing behind but the record of its being wiped. */
  lemma FirstCopyIsWiped(clipboard: string, value: Secret)
    ensures
      var s := Initial(clipboard);
      var copied := Step(Step(Step(Step(Step(s, CallCopy(value)), Start), Succeed), Succeed), Succeed);
      Step(Step(Step(Step(Step(copied, TimerFires), Start), Succeed), Succeed), Succeed)
      == Initial("").(overwrites := [Overwrite(value, Some(value))])
  {
    var queued := Step(Initial(clipboard), CallCopy(value));
    CopyCompletes(queued, value);
    var copied := queued.(clipboard := value, held := Some(value), timer := true, failedClears := 0, failures := 0,
                          queue := queued.queue[1..]);
    ClearCompletes(Step(copied, TimerFires), value);
  }
}
