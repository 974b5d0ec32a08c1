/** Model of default-wallet protection (apps/extension/src/background.ts with
    apps/extension/src/device-vault.ts): two stores, one serialized queue of wallet actions, any
    number of unlocks and status probes beside it, locks, and worker restarts at any await.

    A payload is represented by its set of accounts.  `ever` is history: every account that was
    ever put in a store. */
module WalletProtection {
  import opened Wrappers

  type Payload = set<int>
  type Thread = nat

  /** The thread that runs the serialized actions; all others only unlock or probe. */
  const SERIAL: Thread := 0

  datatype Action =
    | OpenWallet(created: Payload)
    | ProtectDefaultWallet
    | EditWallet(extra: Payload)   // CREATE_WALLET, or RENAME_WALLET with nothing extra
    | ImportAccounts(extra: Payload)
    | CreateVault(created: Payload)
    | UnlockWallet
    | Probe                        // STATUS, exports, worker start: only `encryptedVault()`

  /** What a thread does once `encryptedVault()` has returned. */
  datatype Goal =
    | ToOpen(gen: nat, created: Payload)
    | ToProtect
    | Protected(gen: nat)
    | ToEdit(gen: nat, authorized: bool, extra: Payload)
    | ToImport(extra: Payload)
    | ToCreate(gen: nat, created: Payload)
    | ToUnlock(gen: nat)
    | Nothing

  datatype Pc =
    | ReadVault(goal: Goal)
    | Has(goal: Goal, stored: Payload)
    | Remove(goal: Goal, stored: Payload)
    | HasAgain(goal: Goal, stored: Payload)
    | EnsureLoad(gen: nat, created: Payload)
    | EnsureAdd(gen: nat, created: Payload)
    | OpenFinish(gen: nat, payload: Payload)
    | ProtectLoad(gen: nat)
    | ProtectWrite(gen: nat, payload: Payload)
    | ProtectLand(gen: nat, payload: Payload)
    | ProtectFinish(gen: nat, payload: Payload)
    | EditLoad(gen: nat, authorized: bool, extra: Payload)
    | EditWrite(gen: nat, payload: Payload, toVault: bool)
    | EditLand(gen: nat, payload: Payload, toVault: bool)
    | EditFinish(gen: nat, payload: Payload)
    | CreateLoad(gen: nat, created: Payload)
    | CreateWrite(gen: nat, payload: Payload)
    | CreateLand(gen: nat, payload: Payload)
    | CreateFinish(gen: nat, payload: Payload)
    | UnlockFinish(gen: nat, payload: Payload)

  datatype State = State(
    vault: Option<Payload>,
    device: Option<Payload>,
    session: Option<Payload>,
    deviceMode: bool,
    revision: nat,
    threads: map<Thread, Pc>,
    ever: Payload)

  datatype Event =
    | Start(thread: Thread, action: Action)
    | Advance(thread: Thread)
    | Fail(thread: Thread)
    | Lock
    | Bump
    | Restart(landed: bool, removed: bool)

  const INITIAL := State(None, None, None, false, 0, map[], {})

  function Locked(s: State): State {
    s.(session := None, revision := s.revision + 1)
  }

  function At(s: State, t: Thread, pc: Pc): State {
    s.(threads := s.threads[t := pc])
  }

  function End(s: State, t: Thread): State {
    s.(threads := s.threads - {t})
  }

  function StoreVault(s: State, payload: Payload): State {
    s.(vault := Some(payload), ever := s.ever + payload)
  }

  function StoreDevice(s: State, payload: Payload): State {
    s.(device := Some(payload), ever := s.ever + payload)
  }

  predicate Current(s: State, gen: nat) {
    gen == s.revision
  }

  predicate CurrentSession(s: State, gen: nat) {
    gen == s.revision && s.session.Some?
  }

  function StartAction(s: State, t: Thread, action: Action): State {
    if t in s.threads then s
    else
      match action
      case UnlockWallet => if t == SERIAL then s else At(s, t, ReadVault(ToUnlock(s.revision)))
      case Probe => if t == SERIAL then s else At(s, t, ReadVault(Nothing))
      case OpenWallet(created) => if t != SERIAL then s else At(s, t, ReadVault(ToOpen(s.revision, created)))
      case ProtectDefaultWallet =>
        if t != SERIAL || !s.deviceMode || s.session.None? then s else At(s, t, ReadVault(ToProtect))
      case EditWallet(extra) =>
        if t != SERIAL || s.session.None? then s else At(s, t, ReadVault(ToEdit(s.revision, !s.deviceMode, extra)))
      case ImportAccounts(extra) =>
        if t != SERIAL || s.session.None? then s else At(s, t, ReadVault(ToImport(extra)))
      case CreateVault(created) => if t != SERIAL then s else At(s, t, ReadVault(ToCreate(s.revision, created)))
  }

  /** `encryptedVault()` returned null. */
  function WithoutVault(s: State, t: Thread, goal: Goal): State {
    match goal
    case ToOpen(gen, created) => At(s, t, EnsureLoad(gen, created))
    case ToProtect => At(s, t, ProtectLoad(s.revision))
    case ToEdit(gen, authorized, extra) =>
      if s.deviceMode then At(s, t, EditLoad(gen, authorized, extra)) else End(s, t)
    case ToCreate(gen, created) => At(s, t, CreateLoad(gen, created))
    case _ => End(s, t)
  }

  /** `encryptedVault()`, or the cleanup after protecting, returned with this vault. */
  function WithVault(s: State, t: Thread, goal: Goal, stored: Payload): State {
    match goal
    case Protected(gen) => At(s, t, ProtectFinish(gen, stored))
    case ToEdit(gen, authorized, extra) =>
      if s.deviceMode then At(s, t, EditLoad(gen, authorized, extra))
      else if authorized then At(s, t, EditWrite(gen, stored + extra, true))
      else End(s, t)
    case ToImport(extra) => At(s, t, EditWrite(s.revision, stored + extra, true))
    case ToUnlock(gen) => At(s, t, UnlockFinish(gen, stored))
    case _ => End(s, t)
  }

  function AdvanceThread(s: State, t: Thread): State
    requires t in s.threads
  {
    match s.threads[t]
    case ReadVault(goal) => if s.vault.Some? then At(s, t, Has(goal, s.vault.value)) else WithoutVault(s, t, goal)
    case Has(goal, stored) => At(s, t, if s.device.Some? then Remove(goal, stored) else HasAgain(goal, stored))
    case Remove(goal, stored) => At(s.(device := None), t, HasAgain(goal, stored))
    case HasAgain(goal, stored) => if s.device.Some? then End(Locked(s), t) else WithVault(s, t, goal, stored)
    case EnsureLoad(gen, created) =>
      At(s, t, if s.device.Some? then OpenFinish(gen, s.device.value) else EnsureAdd(gen, created))
    case EnsureAdd(gen, created) =>
      if s.device.Some? then At(s, t, OpenFinish(gen, s.device.value))
      else At(StoreDevice(s, created), t, OpenFinish(gen, created))
    case OpenFinish(gen, payload) =>
      if Current(s, gen) then End(s.(session := Some(payload), deviceMode := true), t) else End(s, t)
    case ProtectLoad(gen) => if s.device.Some? then At(s, t, ProtectWrite(gen, s.device.value)) else End(s, t)
    case ProtectWrite(gen, payload) => if CurrentSession(s, gen) then At(s, t, ProtectLand(gen, payload)) else End(s, t)
    case ProtectLand(gen, payload) => At(StoreVault(s, payload), t, Has(Protected(gen), payload))
    case ProtectFinish(gen, payload) =>
      if CurrentSession(s, gen)
      then End(s.(session := Some(payload), deviceMode := false, revision := s.revision + 1), t)
      else End(s, t)
    case EditLoad(gen, authorized, extra) =>
      if s.device.Some? then At(s, t, EditWrite(gen, s.device.value + extra, authorized)) else End(s, t)
    case EditWrite(gen, payload, toVault) =>
      if CurrentSession(s, gen) then At(s, t, EditLand(gen, payload, toVault)) else End(s, t)
    case EditLand(gen, payload, toVault) =>
      At(if toVault then StoreVault(s, payload) else StoreDevice(s, payload), t, EditFinish(gen, payload))
    case EditFinish(gen, payload) =>
      if CurrentSession(s, gen) then End(s.(session := Some(payload)), t) else End(s, t)
    case CreateLoad(gen, created) => if s.device.Some? then End(s, t) else At(s, t, CreateWrite(gen, created))
    case CreateWrite(gen, payload) => if Current(s, gen) then At(s, t, CreateLand(gen, payload)) else End(s, t)
    case CreateLand(gen, payload) => At(StoreVault(s, payload), t, CreateFinish(gen, payload))
    case CreateFinish(gen, payload) => if Current(s, gen) then End(s.(session := Some(payload)), t) else End(s, t)
    case UnlockFinish(gen, payload) =>
      if Current(s, gen) then End(s.(session := Some(payload), deviceMode := false), t) else End(s, t)
  }

  /** An operation throws.  Inside the cleanup that also locks the wallet. */
  function FailThread(s: State, t: Thread): State
    requires t in s.threads
  {
    var pc := s.threads[t];
    End(if pc.Has? || pc.Remove? || pc.HasAgain? then Locked(s) else s, t)
  }

  /** The worker dies: memory is gone, and what was being written has landed or not. */
  function Restarted(s: State, landed: bool, removed: bool): State {
    var removing := removed && exists t :: t in s.threads && s.threads[t].Remove?;
    var s1 := if removing then s.(device := None) else s;
    var s2 :=
      if landed && SERIAL in s1.threads then
        match s1.threads[SERIAL]
        case ProtectLand(_, payload) => StoreVault(s1, payload)
        case EditLand(_, payload, toVault) => if toVault then StoreVault(s1, payload) else StoreDevice(s1, payload)
        case CreateLand(_, payload) => StoreVault(s1, payload)
        case EnsureAdd(_, created) => if s1.device.Some? then s1 else StoreDevice(s1, created)
        case _ => s1
      else s1;
    s2.(session := None, deviceMode := false, revision := 0, threads := map[])
  }

  function Step(s: State, e: Event): State {
    match e
    case Start(t, action) => StartAction(s, t, action)
    case Advance(t) => if t in s.threads then AdvanceThread(s, t) else s
    case Fail(t) => if t in s.threads then FailThread(s, t) else s
    case Lock => Locked(s)
    case Bump => s.(revision := s.revision + 1)
    case Restart(landed, removed) => Restarted(s, landed, removed)
  }

  function Run(events: seq<Event>): State {
    if events == [] then INITIAL else Step(Run(events[..|events| - 1]), events[|events| - 1])
  }

  lemma RunSnoc(events: seq<Event>, e: Event)
    ensures Run([]) == INITIAL && Run(events + [e]) == Step(Run(events), e)
  {
    assert (events + [e])[..|events|] == events;
  }

  // ---------- The invariant ----------

  /** One store holds every account there ever was. */
  ghost predicate NothingLost(s: State) {
    || s.ever == {}
    || (s.vault.Some? && s.ever <= s.vault.value)
    || (s.device.Some? && s.ever <= s.device.value)
  }

  ghost predicate StoresOk(s: State) {
    && NothingLost(s)
    && (s.vault.Some? ==> s.vault.value <= s.ever)
    && (s.device.Some? ==> s.device.value <= s.ever)
    && (s.vault.Some? && s.device.Some? ==> s.vault == s.device)
    && (s.session.Some? ==> s.session.value <= s.ever)
    && (s.session.Some? ==> s.vault.Some? || s.device.Some?)
    && (s.session.Some? && !s.deviceMode ==> s.device.None?)
  }

  predicate SerialGoal(goal: Goal) {
    !goal.ToUnlock? && !goal.Nothing?
  }

  /** An edit authorized with a password began outside device mode, and only the serialized thread
      itself could enter it. */
  ghost predicate AuthorizedOk(s: State, goal: Goal) {
    goal.ToEdit? && goal.authorized ==> !s.deviceMode
  }

  /** What a thread knows about the stores while it waits. */
  ghost predicate ThreadOk(s: State, t: Thread, pc: Pc) {
    if pc.ReadVault? then (t == SERIAL <==> SerialGoal(pc.goal)) && !pc.goal.Protected? && AuthorizedOk(s, pc.goal)
    else if pc.Has? || pc.Remove? || pc.HasAgain? then CleaningOk(s, t, pc.goal, pc.stored)
    else if pc.UnlockFinish? then t != SERIAL && s.vault.Some? && s.device.None? && pc.payload <= s.ever
    else t == SERIAL && SerialOk(s, pc)
  }

  ghost predicate CleaningOk(s: State, t: Thread, goal: Goal, stored: Payload) {
    && (t == SERIAL <==> SerialGoal(goal))
    && s.vault.Some? && stored <= s.ever && AuthorizedOk(s, goal)
    && (t == SERIAL ==> s.vault == Some(stored))
  }

  ghost predicate SerialOk(s: State, pc: Pc) {
    && (pc.EnsureLoad? || pc.EnsureAdd? || pc.ProtectLoad? || pc.CreateLoad? ==> s.vault.None?)
    && (pc.OpenFinish? || pc.ProtectWrite? || pc.ProtectLand? ==> s.vault.None? && s.device == Some(pc.payload))
    && (pc.ProtectFinish? || pc.CreateFinish? ==> s.vault == Some(pc.payload) && s.device.None?)
    && (pc.EditLoad? ==> !pc.authorized && (s.vault.Some? ==> s.device.None?))
    && (pc.EditWrite? || pc.EditLand? ==> EditOk(s, pc.payload, pc.toVault))
    && (pc.EditFinish? ==> pc.payload <= s.ever)
    && (pc.CreateWrite? || pc.CreateLand? ==> s.vault.None? && s.device.None?)
  }

  ghost predicate EditOk(s: State, payload: Payload, toVault: bool) {
    if toVault then s.vault.Some? && s.device.None? && s.vault.value <= payload
    else s.vault.None? && s.device.Some? && s.device.value <= payload
  }

  ghost predicate Inv(s: State) {
    && StoresOk(s)
    && forall t {:trigger ThreadOk(s, t, s.threads[t])} :: t in s.threads ==> ThreadOk(s, t, s.threads[t])
  }

  // ---------- Every step keeps it ----------

  lemma SameStores(s: State, u: State, t: Thread, pc: Pc)
    requires ThreadOk(s, t, pc)
    requires u.vault == s.vault && u.device == s.device && u.ever == s.ever
    requires t != SERIAL || (u.deviceMode ==> s.deviceMode)
    ensures ThreadOk(u, t, pc)
  {
  }

  /** A step that leaves the stores alone and moves at most one thread. */
  lemma MoveKeeps(s: State, u: State, t: Thread)
    requires Inv(s) && Moved(s, u, t)
    ensures Inv(u)
  {
    forall other | other in u.threads ensures ThreadOk(u, other, u.threads[other]) {
      if other != t { SameStores(s, u, other, u.threads[other]); }
    }
  }

  lemma StartKeeps(s: State, t: Thread, action: Action)
    requires Inv(s)
    ensures Inv(StartAction(s, t, action))
  {
    MoveKeeps(s, StartAction(s, t, action), t);
  }

  lemma LockKeeps(s: State)
    requires Inv(s)
    ensures Inv(Locked(s))
  {
    forall t | t in s.threads ensures ThreadOk(Locked(s), t, s.threads[t]) {
      SameStores(s, Locked(s), t, s.threads[t]);
    }
  }

  /** Deleting the device copy, by any thread that is cleaning up. */
  lemma RemoveKeeps(s: State)
    requires Inv(s) && s.vault.Some?
    ensures Inv(s.(device := None))
  {
    var u := s.(device := None);
    forall t | t in u.threads ensures ThreadOk(u, t, u.threads[t]) {
      assert ThreadOk(s, t, s.threads[t]);
    }
  }

  /** Only the serialized thread writes a store, and no other thread minds. */
  lemma OthersUnaffected(s: State, u: State)
    requires Inv(s)
    requires s.ever <= u.ever
    requires s.vault.Some? ==> u.vault.Some? && u.device == s.device
    ensures forall t :: t in s.threads && t != SERIAL ==> ThreadOk(u, t, s.threads[t])
  {
    forall t | t in s.threads && t != SERIAL ensures ThreadOk(u, t, s.threads[t]) {
      assert ThreadOk(s, t, s.threads[t]);
    }
  }

  lemma WriteKeeps(s: State, u: State, pc: Pc)
    requires Inv(s) && StoresOk(u)
    requires s.ever <= u.ever
    requires s.vault.Some? ==> u.vault.Some? && u.device == s.device
    requires u.threads == s.threads[SERIAL := pc] && ThreadOk(u, SERIAL, pc)
    ensures Inv(u)
  {
    OthersUnaffected(s, u);
  }

  predicate Cleaning(pc: Pc) {
    pc.ReadVault? || pc.Has? || pc.Remove? || pc.HasAgain?
  }

  predicate Writing(pc: Pc) {
    pc.EnsureAdd? || pc.ProtectLand? || pc.EditLand? || pc.CreateLand?
  }

  lemma CleaningKeeps(s: State, t: Thread)
    requires Inv(s) && t in s.threads && Cleaning(s.threads[t])
    ensures Inv(AdvanceThread(s, t))
  {
    var u, pc := AdvanceThread(s, t), s.threads[t];
    assert ThreadOk(s, t, pc);
    if pc.Remove? {
      RemoveKeeps(s);
      MoveKeeps(s.(device := None), u, t);
    } else {
      CleaningThreadOk(s, t);
      MoveKeeps(s, u, t);
    }
  }

  /** A move that leaves the stores alone and the moved thread in order. */
  ghost predicate Moved(s: State, u: State, t: Thread) {
    && StoresOk(u) && (t in u.threads ==> ThreadOk(u, t, u.threads[t]))
    && u.vault == s.vault && u.device == s.device && u.ever == s.ever
    && (t == SERIAL || (u.deviceMode ==> s.deviceMode))
    && (forall other :: other in u.threads && other != t ==> other in s.threads && u.threads[other] == s.threads[other])
  }

  lemma CleaningThreadOk(s: State, t: Thread)
    requires StoresOk(s) && t in s.threads && ThreadOk(s, t, s.threads[t])
    requires Cleaning(s.threads[t]) && !s.threads[t].Remove?
    ensures Moved(s, AdvanceThread(s, t), t)
  {
    match s.threads[t]
    case ReadVault(goal) => if s.vault.None? { WithoutVaultOk(s, t, goal); }
    case Has(_, _) =>
    case HasAgain(goal, stored) => if s.device.None? { WithVaultOk(s, t, goal, stored); }
  }

  lemma WithoutVaultOk(s: State, t: Thread, goal: Goal)
    requires StoresOk(s) && t in s.threads && ThreadOk(s, t, ReadVault(goal)) && s.vault.None?
    ensures Moved(s, WithoutVault(s, t, goal), t)
  {
  }

  lemma WithVaultOk(s: State, t: Thread, goal: Goal, stored: Payload)
    requires StoresOk(s) && t in s.threads && CleaningOk(s, t, goal, stored) && s.device.None?
    ensures Moved(s, WithVault(s, t, goal, stored), t)
  {
  }

  lemma WritingKeeps(s: State, t: Thread)
    requires Inv(s) && t in s.threads && Writing(s.threads[t])
    ensures Inv(AdvanceThread(s, t))
  {
    var u, pc := AdvanceThread(s, t), s.threads[t];
    assert ThreadOk(s, t, pc);
    if pc.EnsureAdd? && s.device.Some? {
      MoveKeeps(s, u, t);
    } else {
      WriteKeeps(s, u, u.threads[SERIAL]);
    }
  }

  lemma FinishingKeeps(s: State, t: Thread)
    requires Inv(s) && t in s.threads && !Cleaning(s.threads[t]) && !Writing(s.threads[t])
    ensures Inv(AdvanceThread(s, t))
  {
    var u, pc := AdvanceThread(s, t), s.threads[t];
    assert ThreadOk(s, t, pc);
    FinishingThreadOk(s, t);
    MoveKeeps(s, u, t);
  }

  lemma FinishingThreadOk(s: State, t: Thread)
    requires StoresOk(s) && t in s.threads && ThreadOk(s, t, s.threads[t])
    requires !Cleaning(s.threads[t]) && !Writing(s.threads[t])
    ensures Moved(s, AdvanceThread(s, t), t)
  {
    if EditsOrCreates(s.threads[t]) {
      EditingThreadOk(s, t);
    } else {
      OpeningThreadOk(s, t);
    }
  }

  predicate EditsOrCreates(pc: Pc) {
    pc.EditLoad? || pc.EditWrite? || pc.EditFinish? || pc.CreateLoad? || pc.CreateWrite? || pc.CreateFinish?
  }

  lemma EditingThreadOk(s: State, t: Thread)
    requires StoresOk(s) && t in s.threads && ThreadOk(s, t, s.threads[t])
    requires !Cleaning(s.threads[t]) && !Writing(s.threads[t])
    requires EditsOrCreates(s.threads[t])
    ensures Moved(s, AdvanceThread(s, t), t)
  {
  }

  lemma OpeningThreadOk(s: State, t: Thread)
    requires StoresOk(s) && t in s.threads && ThreadOk(s, t, s.threads[t])
    requires !Cleaning(s.threads[t]) && !Writing(s.threads[t])
    requires !EditsOrCreates(s.threads[t])
    ensures Moved(s, AdvanceThread(s, t), t)
  {
  }

  lemma AdvanceKeeps(s: State, t: Thread)
    requires Inv(s) && t in s.threads
    ensures Inv(AdvanceThread(s, t))
  {
    if Cleaning(s.threads[t]) {
      CleaningKeeps(s, t);
    } else if Writing(s.threads[t]) {
      WritingKeeps(s, t);
    } else {
      FinishingKeeps(s, t);
    }
  }

  lemma FailKeeps(s: State, t: Thread)
    requires Inv(s) && t in s.threads
    ensures Inv(FailThread(s, t))
  {
    MoveKeeps(s, FailThread(s, t), t);
  }

  lemma RestartKeeps(s: State, landed: bool, removed: bool)
    requires Inv(s)
    ensures Inv(Restarted(s, landed, removed))
  {
    var removing := removed && exists t :: t in s.threads && s.threads[t].Remove?;
    if removing {
      var t :| t in s.threads && s.threads[t].Remove?;
      assert ThreadOk(s, t, s.threads[t]);
      RemoveKeeps(s);
    }
    var s1 := if removing then s.(device := None) else s;
    if SERIAL in s1.threads {
      assert ThreadOk(s1, SERIAL, s1.threads[SERIAL]);
    }
  }

  lemma StepKeeps(s: State, e: Event)
    requires Inv(s)
    ensures Inv(Step(s, e))
  {
    match e
    case Start(t, action) => StartKeeps(s, t, action);
    case Advance(t) => if t in s.threads { AdvanceKeeps(s, t); }
    case Fail(t) => if t in s.threads { FailKeeps(s, t); }
    case Lock => LockKeeps(s);
    case Bump =>
      forall t | t in s.threads ensures ThreadOk(Step(s, e), t, s.threads[t]) {
        SameStores(s, Step(s, e), t, s.threads[t]);
      }
    case Restart(landed, removed) => RestartKeeps(s, landed, removed);
  }

  lemma {:induction false} RunKeeps(events: seq<Event>)
    ensures Inv(Run(events))
  {
    if events != [] {
      RunKeeps(events[..|events| - 1]);
      StepKeeps(Run(events[..|events| - 1]), events[|events| - 1]);
    }
  }

  // ---------- Main results ----------

  /** Whatever crashes, locks and interleavings happen: every account that was ever stored is in one
      store, no session shows an account that is not, and an unlocked session that is not in device
      mode means the device store is empty. */
  lemma CrashSafe(events: seq<Event>)
    ensures
      var s := Run(events);
      && (s.ever == {} || (s.vault.Some? && s.ever <= s.vault.value) || (s.device.Some? && s.ever <= s.device.value))
      && (s.session.Some? ==> s.session.value <= s.ever)
      && (s.session.Some? && !s.deviceMode ==> s.device.None?)
  {
    RunKeeps(events);
  }

  /** The device copy disappears only while the encrypted vault holds the same accounts. */
  lemma DeletedOnlyWhenEncrypted(events: seq<Event>, e: Event)
    requires Run(events).device.Some? && Step(Run(events), e).device.None?
    ensures Run(events).vault == Run(events).device
    ensures Step(Run(events), e).vault == Run(events).vault
  {
    RunKeeps(events);
    var s := Run(events);
    if e.Advance? {
      assert ThreadOk(s, e.thread, s.threads[e.thread]);
    } else {
      var t :| t in s.threads && s.threads[t].Remove?;
      assert ThreadOk(s, t, s.threads[t]);
      if SERIAL in s.threads { assert ThreadOk(s, SERIAL, s.threads[SERIAL]); }
    }
  }

  /** A password vault, once there, stays, and no step takes an account out of it. */
  lemma VaultOnlyGrows(events: seq<Event>, e: Event)
    requires Run(events).vault.Some?
    ensures Step(Run(events), e).vault.Some?
    ensures Run(events).vault.value <= Step(Run(events), e).vault.value
  {
    RunKeeps(events);
    var s := Run(events);
    if SERIAL in s.threads { assert ThreadOk(s, SERIAL, s.threads[SERIAL]); }
    if e.Advance? && e.thread in s.threads { assert ThreadOk(s, e.thread, s.threads[e.thread]); }
  }

  // ---------- What an action achieves ----------

  /** The serialized thread goes on for this many steps, and nothing else happens. */
  function Alone(s: State, n: nat): State {
    if n == 0 then s else Step(Alone(s, n - 1), Advance(SERIAL))
  }

  /** Enough for the longest action. */
  const LONGEST := 8

  /** The state after an action that is left undisturbed. */
  function Completed(s: State, action: Action): State {
    Alone(Step(s, Start(SERIAL, action)), LONGEST)
  }

  lemma {:induction false} Ended(s: State, m: nat, n: nat)
    requires m <= n && SERIAL !in Alone(s, m).threads
    ensures Alone(s, n) == Alone(s, m)
  {
    if m < n {
      Ended(s, m, n - 1);
    }
  }

  /** The serialized thread stands here, and the stores hold this; memory is as at the start. */
  ghost predicate Stands(s: State, u: State, pc: Pc, vault: Option<Payload>, device: Option<Payload>) {
    && SERIAL in u.threads && u.threads[SERIAL] == pc && u.vault == vault && u.device == device
    && u.session == s.session && u.deviceMode == s.deviceMode && u.revision == s.revision
  }

  /** The action is over, and the stores and the session hold this. */
  ghost predicate Done(u: State, vault: Option<Payload>, device: Option<Payload>, session: Option<Payload>) {
    SERIAL !in u.threads && u.vault == vault && u.device == device && u.session == session
  }

  /** Protecting a starting wallet moves it, whole, from the device to the vault. */
  lemma ProtectCompletes(s: State)
    requires Inv(s) && SERIAL !in s.threads && s.session.Some? && s.deviceMode && s.vault.None?
    ensures s.device.Some?
    ensures Done(Completed(s, ProtectDefaultWallet), s.device, None, s.device)
    ensures !Completed(s, ProtectDefaultWallet).deviceMode
    ensures Completed(s, ProtectDefaultWallet).revision == s.revision + 1
  {
    var u := Step(s, Start(SERIAL, ProtectDefaultWallet));
    var d, gen := s.device.value, s.revision;
    assert Stands(s, Alone(u, 0), ReadVault(ToProtect), None, s.device);
    assert Stands(s, Alone(u, 1), ProtectLoad(gen), None, s.device);
    assert Stands(s, Alone(u, 2), ProtectWrite(gen, d), None, s.device);
    assert Stands(s, Alone(u, 3), ProtectLand(gen, d), None, s.device);
    ProtectLands(s, u, d);
  }

  lemma ProtectLands(s: State, u: State, d: Payload)
    requires s.session.Some? && Stands(s, Alone(u, 3), ProtectLand(s.revision, d), None, Some(d))
    ensures Done(Alone(u, LONGEST), Some(d), None, Some(d)) && !Alone(u, LONGEST).deviceMode
    ensures Alone(u, LONGEST).revision == s.revision + 1
  {
    var goal := Protected(s.revision);
    assert Stands(s, Alone(u, 4), Has(goal, d), Some(d), Some(d));
    assert Stands(s, Alone(u, 5), Remove(goal, d), Some(d), Some(d));
    assert Stands(s, Alone(u, 6), HasAgain(goal, d), Some(d), None);
    ProtectEnds(s, u, d);
  }

  lemma ProtectEnds(s: State, u: State, d: Payload)
    requires s.session.Some? && Stands(s, Alone(u, 6), HasAgain(Protected(s.revision), d), Some(d), None)
    ensures Done(Alone(u, LONGEST), Some(d), None, Some(d)) && !Alone(u, LONGEST).deviceMode
    ensures Alone(u, LONGEST).revision == s.revision + 1
  {
    assert Stands(s, Alone(u, 7), ProtectFinish(s.revision, d), Some(d), None);
  }

  /** Editing a starting wallet adds to the device store. */
  lemma EditCompletesInDevice(s: State, extra: Payload)
    requires Inv(s) && SERIAL !in s.threads && s.session.Some? && s.deviceMode && s.vault.None?
    ensures s.device.Some?
    ensures
      var edited := Some(s.device.value + extra);
      Done(Completed(s, EditWallet(extra)), None, edited, edited)
  {
    var u := Step(s, Start(SERIAL, EditWallet(extra)));
    var d, gen := s.device.value, s.revision;
    assert Stands(s, Alone(u, 0), ReadVault(ToEdit(gen, false, extra)), None, s.device);
    assert Stands(s, Alone(u, 1), EditLoad(gen, false, extra), None, s.device);
    assert Stands(s, Alone(u, 2), EditWrite(gen, d + extra, false), None, s.device);
    assert Stands(s, Alone(u, 3), EditLand(gen, d + extra, false), None, s.device);
    assert Stands(s, Alone(u, 4), EditFinish(gen, d + extra), None, Some(d + extra));
    EditEnds(s, u, 4, d + extra, None, Some(d + extra));
  }

  /** The cleanup that comes first when there is a vault. */
  lemma VaultIsRead(s: State, u: State, goal: Goal) returns (n: nat)
    requires Inv(s) && s.vault.Some? && Stands(s, u, ReadVault(goal), s.vault, s.device)
    ensures n <= 3 && Stands(s, Alone(u, n), HasAgain(goal, s.vault.value), s.vault, None)
  {
    var v := s.vault.value;
    assert Alone(u, 0) == u;
    assert Stands(s, Alone(u, 1), Has(goal, v), s.vault, s.device);
    if s.device.Some? {
      n := 3;
      assert Stands(s, Alone(u, 2), Remove(goal, v), s.vault, s.device);
    } else {
      n := 2;
    }
  }

  lemma VaultIsWritten(s: State, u: State, n: nat, payload: Payload)
    requires s.session.Some? && n + 3 <= LONGEST
    requires Stands(s, Alone(u, n), EditWrite(s.revision, payload, true), s.vault, None)
    ensures Done(Alone(u, LONGEST), Some(payload), None, Some(payload))
  {
    assert Stands(s, Alone(u, n + 1), EditLand(s.revision, payload, true), s.vault, None);
    assert Stands(s, Alone(u, n + 2), EditFinish(s.revision, payload), Some(payload), None);
    EditEnds(s, u, n + 2, payload, Some(payload), None);
  }

  lemma EditEnds(s: State, u: State, n: nat, payload: Payload, vault: Option<Payload>, device: Option<Payload>)
    requires s.session.Some? && n < LONGEST && Stands(s, Alone(u, n), EditFinish(s.revision, payload), vault, device)
    ensures Done(Alone(u, LONGEST), vault, device, Some(payload))
  {
    assert SERIAL !in Alone(u, n + 1).threads;
    Ended(u, n + 1, LONGEST);
  }

  /** Editing a protected wallet adds to the vault. */
  lemma EditCompletesInVault(s: State, extra: Payload)
    requires Inv(s) && SERIAL !in s.threads && s.session.Some? && !s.deviceMode
    ensures s.vault.Some?
    ensures
      var edited := Some(s.vault.value + extra);
      Done(Completed(s, EditWallet(extra)), edited, None, edited)
  {
    var u := Step(s, Start(SERIAL, EditWallet(extra)));
    var goal := ToEdit(s.revision, true, extra);
    var n := VaultIsRead(s, u, goal);
    assert Stands(s, Alone(u, n + 1), EditWrite(s.revision, s.vault.value + extra, true), s.vault, None);
    VaultIsWritten(s, u, n + 1, s.vault.value + extra);
  }

  /** Importing into a vault adds to it. */
  lemma ImportCompletes(s: State, extra: Payload)
    requires Inv(s) && SERIAL !in s.threads && s.session.Some? && s.vault.Some?
    ensures
      var merged := Some(s.vault.value + extra);
      Done(Completed(s, ImportAccounts(extra)), merged, None, merged)
  {
    var u := Step(s, Start(SERIAL, ImportAccounts(extra)));
    var n := VaultIsRead(s, u, ToImport(extra));
    assert Stands(s, Alone(u, n + 1), EditWrite(s.revision, s.vault.value + extra, true), s.vault, None);
    VaultIsWritten(s, u, n + 1, s.vault.value + extra);
  }

  /** Opening without a vault takes the device wallet, or stores the one created. */
  lemma OpenCompletes(s: State, created: Payload)
    requires SERIAL !in s.threads && s.vault.None?
    ensures
      var shown := if s.device.Some? then s.device else Some(created);
      Done(Completed(s, OpenWallet(created)), None, shown, shown)
    ensures Completed(s, OpenWallet(created)).deviceMode
  {
    var u := Step(s, Start(SERIAL, OpenWallet(created)));
    var gen := s.revision;
    assert Stands(s, Alone(u, 0), ReadVault(ToOpen(gen, created)), None, s.device);
    assert Stands(s, Alone(u, 1), EnsureLoad(gen, created), None, s.device);
    if s.device.Some? {
      assert Stands(s, Alone(u, 2), OpenFinish(gen, s.device.value), None, s.device);
      Ended(u, 3, LONGEST);
    } else {
      assert Stands(s, Alone(u, 2), EnsureAdd(gen, created), None, None);
      assert Stands(s, Alone(u, 3), OpenFinish(gen, created), None, Some(created));
      Ended(u, 4, LONGEST);
    }
  }

  /** Creating a vault stores what was created, where there was no wallet at all. */
  lemma CreateCompletes(s: State, created: Payload)
    requires SERIAL !in s.threads && s.vault.None? && s.device.None?
    ensures Done(Completed(s, CreateVault(created)), Some(created), None, Some(created))
  {
    var u := Step(s, Start(SERIAL, CreateVault(created)));
    var gen := s.revision;
    assert Stands(s, Alone(u, 0), ReadVault(ToCreate(gen, created)), None, None);
    assert Stands(s, Alone(u, 1), CreateLoad(gen, created), None, None);
    assert Stands(s, Alone(u, 2), CreateWrite(gen, created), None, None);
    CreateLands(s, u, created);
  }

  lemma CreateLands(s: State, u: State, created: Payload)
    requires Stands(s, Alone(u, 2), CreateWrite(s.revision, created), None, None)
    ensures Done(Alone(u, LONGEST), Some(created), None, Some(created))
  {
    assert Stands(s, Alone(u, 3), CreateLand(s.revision, created), None, None);
    assert Stands(s, Alone(u, 4), CreateFinish(s.revision, created), Some(created), None);
    CreateEnds(s, u, created);
  }

  lemma CreateEnds(s: State, u: State, created: Payload)
    requires Stands(s, Alone(u, 4), CreateFinish(s.revision, created), Some(created), None)
    ensures Done(Alone(u, LONGEST), Some(created), None, Some(created))
  {
    Ended(u, 5, LONGEST);
  }

  /** Unlocking, by any other thread, shows what the vault holds. */
  lemma UnlockCompletes(s: State, t: Thread)
    requires t != SERIAL && t !in s.threads && s.vault.Some? && s.device.None?
    ensures
      var u := Step(Step(Step(Step(Step(s, Start(t, UnlockWallet)), Advance(t)), Advance(t)), Advance(t)), Advance(t));
      t !in u.threads && u.session == u.vault == s.vault && u.device == s.device && !u.deviceMode
  {
    var goal, v := ToUnlock(s.revision), s.vault.value;
    var a := Step(s, Start(t, UnlockWallet));
    assert a.threads[t] == ReadVault(goal);
    var b := Step(a, Advance(t));
    assert b.threads[t] == Has(goal, v) && b.vault == s.vault && b.device == s.device && b.revision == s.revision;
    var c := Step(b, Advance(t));
    assert c.threads[t] == HasAgain(goal, v) && c.vault == s.vault && c.device == s.device && c.revision == s.revision;
    var d := Step(c, Advance(t));
    assert d.threads[t] == UnlockFinish(s.revision, v);
  }

  // ---------- A lock holds ----------

  /** The context revision an action remembers that can show a wallet in an empty session. */
  function ShowsAt(pc: Pc): Option<nat> {
    match pc
    case ReadVault(goal) => GoalShowsAt(goal)
    case Has(goal, _) => GoalShowsAt(goal)
    case Remove(goal, _) => GoalShowsAt(goal)
    case HasAgain(goal, _) => GoalShowsAt(goal)
    case EnsureLoad(gen, _) => Some(gen)
    case EnsureAdd(gen, _) => Some(gen)
    case OpenFinish(gen, _) => Some(gen)
    case CreateLoad(gen, _) => Some(gen)
    case CreateWrite(gen, _) => Some(gen)
    case CreateLand(gen, _) => Some(gen)
    case CreateFinish(gen, _) => Some(gen)
    case UnlockFinish(gen, _) => Some(gen)
    case _ => None
  }

  function GoalShowsAt(goal: Goal): Option<nat> {
    match goal
    case ToOpen(gen, _) => Some(gen)
    case ToCreate(gen, _) => Some(gen)
    case ToUnlock(gen) => Some(gen)
    case _ => None
  }

  ghost predicate RemembersUpTo(s: State, limit: int) {
    forall t :: t in s.threads && ShowsAt(s.threads[t]).Some? ==> ShowsAt(s.threads[t]).value <= limit
  }

  /** The thread that moves remembers nothing newer, and the others stay. */
  ghost predicate MovesOn(s: State, u: State, t: Thread, limit: int) {
    && s.revision <= u.revision
    && (t in u.threads && ShowsAt(u.threads[t]).Some? ==> ShowsAt(u.threads[t]).value <= limit)
    && (forall other :: other in u.threads && other != t ==> other in s.threads && u.threads[other] == s.threads[other])
  }

  lemma CleaningMovesOn(s: State, t: Thread, limit: int)
    requires t in s.threads && RemembersUpTo(s, limit) && Cleaning(s.threads[t])
    ensures MovesOn(s, AdvanceThread(s, t), t, limit)
  {
  }

  lemma EditingMovesOn(s: State, t: Thread, limit: int)
    requires t in s.threads && RemembersUpTo(s, limit) && !Cleaning(s.threads[t])
    requires EditsOrCreates(s.threads[t])
    ensures MovesOn(s, AdvanceThread(s, t), t, limit)
  {
  }

  lemma OtherMovesOn(s: State, t: Thread, limit: int)
    requires t in s.threads && RemembersUpTo(s, limit) && !Cleaning(s.threads[t])
    requires !EditsOrCreates(s.threads[t])
    ensures MovesOn(s, AdvanceThread(s, t), t, limit)
  {
  }

  lemma AdvanceRemembers(s: State, t: Thread, limit: int)
    requires t in s.threads && RemembersUpTo(s, limit)
    ensures RemembersUpTo(AdvanceThread(s, t), limit) && s.revision <= AdvanceThread(s, t).revision
  {
    if Cleaning(s.threads[t]) {
      CleaningMovesOn(s, t, limit);
    } else if EditsOrCreates(s.threads[t]) {
      EditingMovesOn(s, t, limit);
    } else {
      OtherMovesOn(s, t, limit);
    }
  }

  lemma StepRemembers(s: State, e: Event)
    requires RemembersUpTo(s, s.revision)
    ensures RemembersUpTo(Step(s, e), Step(s, e).revision)
  {
    if e.Advance? && e.thread in s.threads {
      AdvanceRemembers(s, e.thread, s.revision);
    }
  }

  lemma {:induction false} RunRemembers(events: seq<Event>)
    ensures RemembersUpTo(Run(events), Run(events).revision)
  {
    if events != [] {
      RunRemembers(events[..|events| - 1]);
      StepRemembers(Run(events[..|events| - 1]), events[|events| - 1]);
    }
  }

  /** Nothing is shown, and no action under way can show anything. */
  ghost predicate Shut(s: State) {
    s.session.None? && RemembersUpTo(s, s.revision - 1)
  }

  lemma AdvanceShut(s: State, t: Thread)
    requires t in s.threads && Shut(s)
    ensures AdvanceThread(s, t).session.None?
  {
  }

  lemma StepShut(s: State, e: Event)
    requires Shut(s) && !e.Start?
    ensures Shut(Step(s, e))
  {
    if e.Advance? && e.thread in s.threads {
      AdvanceShut(s, e.thread);
      AdvanceRemembers(s, e.thread, s.revision - 1);
    }
  }

  function RunFrom(s: State, events: seq<Event>): State {
    if events == [] then s else Step(RunFrom(s, events[..|events| - 1]), events[|events| - 1])
  }

  lemma {:induction false} RunFromConcat(events: seq<Event>, later: seq<Event>)
    ensures RunFrom(Run(events), later) == Run(events + later)
  {
    if later == [] {
      assert events + [] == events;
    } else {
      var init := later[..|later| - 1];
      RunFromConcat(events, init);
      RunSnoc(events + init, later[|later| - 1]);
      assert events + later == events + init + [later[|later| - 1]];
    }
  }

  /** In every run: once locked, the wallet stays locked until another action is started, whatever the
      actions under way still do. */
  lemma LockHolds(events: seq<Event>, later: seq<Event>)
    requires forall i :: 0 <= i < |later| ==> !later[i].Start?
    ensures Run(events + [Lock] + later).session.None?
  {
    LockedShut(events, later);
    RunSnoc(events, Lock);
    RunFromConcat(events + [Lock], later);
  }

  lemma {:induction false} LockedShut(events: seq<Event>, later: seq<Event>)
    requires forall i :: 0 <= i < |later| ==> !later[i].Start?
    ensures Shut(RunFrom(Step(Run(events), Lock), later))
  {
    if later == [] {
      RunRemembers(events);
    } else {
      LockedShut(events, later[..|later| - 1]);
      StepShut(RunFrom(Step(Run(events), Lock), later[..|later| - 1]), later[|later| - 1]);
    }
  }

  /** A failure changes no store.  In the cleanup, which runs before a vault is shown, it locks the wallet;
      elsewhere the session stays as it was. */
  lemma FailureExactly(s: State, t: Thread)
    requires t in s.threads
    ensures
      var u, pc := Step(s, Fail(t)), s.threads[t];
      && u.vault == s.vault && u.device == s.device && t !in u.threads
      && (if pc.Has? || pc.Remove? || pc.HasAgain? then u.session.None? && u.revision == s.revision + 1
          else u.session == s.session && u.revision == s.revision)
  {
  }

  /** A restart leaves a locked wallet outside device mode, and nothing under way. */
  lemma RestartLocks(s: State, landed: bool, removed: bool)
    ensures
      var u := Step(s, Restart(landed, removed));
      u.session.None? && !u.deviceMode && u.threads == map[] && u.revision == 0
  {
  }

  /** In every run: once the context revision has been advanced, nothing that was under way opens,
      creates or unlocks a wallet any more. */
  lemma BumpHolds(events: seq<Event>, t: Thread)
    requires t in Run(events).threads && ShowsAt(Run(events).threads[t]).Some?
    ensures
      var s := Step(Run(events), Bump);
      && s == Run(events).(revision := Run(events).revision + 1)
      && AdvanceThread(s, t).session in {s.session, None}
  {
    RunRemembers(events);
  }

  /** A probe, undisturbed, finishes an interrupted protection and shows nothing. */
  lemma ProbeCompletes(s: State, t: Thread)
    requires t != SERIAL && t !in s.threads && s.vault.Some? && s.device.Some?
    ensures
      var u := Step(Step(Step(Step(Step(s, Start(t, Probe)), Advance(t)), Advance(t)), Advance(t)), Advance(t));
      t !in u.threads && u.vault == s.vault && u.device.None? && u.session == s.session && u.deviceMode == s.deviceMode
  {
    var v := s.vault.value;
    var a := Step(s, Start(t, Probe));
    var b := Step(a, Advance(t));
    assert b.threads[t] == Has(Nothing, v) && b.vault == s.vault && b.device == s.device && b.session == s.session;
    var c := Step(b, Advance(t));
    assert c.threads[t] == Remove(Nothing, v) && c.vault == s.vault && c.session == s.session;
    var d := Step(c, Advance(t));
    assert d.threads[t] == HasAgain(Nothing, v) && d.device.None? && d.vault == s.vault && d.session == s.session;
  }

  /** A write of the serialized actions that has begun, the device store's first one apart. */
  predicate Landing(pc: Pc) {
    pc.ProtectLand? || pc.EditLand? || pc.CreateLand?
  }

  lemma ShutBeginsNoWrite(s: State, t: Thread)
    requires t in s.threads && Shut(s) && !Landing(s.threads[t])
    ensures
      var u := AdvanceThread(s, t);
      t in u.threads ==> !Landing(u.threads[t])
  {
  }

  /** In every run: after a lock no protecting, editing or creating write begins until another action is
      started. */
  lemma LockStopsWrites(events: seq<Event>, later: seq<Event>, t: Thread)
    requires forall i :: 0 <= i < |later| ==> !later[i].Start?
    requires
      var s := Run(events + [Lock] + later);
      t in s.threads && !Landing(s.threads[t])
    ensures
      var u := AdvanceThread(Run(events + [Lock] + later), t);
      t in u.threads ==> !Landing(u.threads[t])
  {
    LockedShut(events, later);
    RunSnoc(events, Lock);
    RunFromConcat(events + [Lock], later);
    ShutBeginsNoWrite(Run(events + [Lock] + later), t);
  }

  /** A write that was under way at a restart, and landed, is in its store. */
  lemma RestartLands(s: State)
    requires SERIAL in s.threads
    ensures
      var u, pc := Step(s, Restart(true, false)), s.threads[SERIAL];
      && (pc.ProtectLand? || pc.CreateLand? || (pc.EditLand? && pc.toVault) ==>
            u.vault == Some(pc.payload) && u.device == s.device)
      && (pc.EditLand? && !pc.toVault ==> u.device == Some(pc.payload) && u.vault == s.vault)
      && (pc.EnsureAdd? ==> u.device == (if s.device.Some? then s.device else Some(pc.created)) && u.vault == s.vault)
  {
  }
}
