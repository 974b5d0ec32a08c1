/** Model of `ApprovalRequestGuard` (apps/extension/src/provider-security.ts). */
module RequestGuard {

  type Id = string
  type Origin = string

  const MAX_PENDING_TOTAL := 20
  const MAX_PENDING_PER_ORIGIN := 3
  const MAX_APPROVALS_PER_MINUTE := 10
  const WINDOW := 60_000
  const PRUNE_ABOVE := 100

  datatype Decision = Allowed | AlreadyPending | TooManyPending | TooManyForSite | TooQuick

  /** The entries after the cutoff, in order. */
  function After(times: seq<int>, cutoff: int): seq<int> {
    if times == [] then []
    else if times[0] > cutoff then [times[0]] + After(times[1..], cutoff)
    else After(times[1..], cutoff)
  }

  ghost predicate Ascending(times: seq<int>) {
    forall i, j :: 0 <= i <= j < |times| ==> times[i] <= times[j]
  }

  /** Any eleven consecutive entries span at least a minute. */
  ghost predicate SpacedOut(times: seq<int>) {
    forall i :: 0 <= i && i + 10 < |times| ==> times[i + 10] - times[i] >= 60_000
  }

  ghost function PendingFor(pending: map<Id, Origin>, origin: Origin): nat {
    |set id | id in pending && pending[id] == origin|
  }

  lemma {:induction false} AfterConcat(a: seq<int>, b: seq<int>, cutoff: int)
    ensures After(a + b, cutoff) == After(a, cutoff) + After(b, cutoff)
  {
    if a == [] {
      assert a + b == b;
    } else {
      assert (a + b)[1..] == a[1..] + b;
      AfterConcat(a[1..], b, cutoff);
    }
  }

  lemma {:induction false} NoneAfter(times: seq<int>, cutoff: int)
    requires forall i :: 0 <= i < |times| ==> times[i] <= cutoff
    ensures After(times, cutoff) == []
  {
    if times != [] {
      NoneAfter(times[1..], cutoff);
    }
  }

  /** Of an ascending list, the entries after a cutoff are its tail. */
  lemma {:induction false} AfterIsTail(times: seq<int>, cutoff: int) returns (k: nat)
    requires Ascending(times)
    ensures k <= |times| && After(times, cutoff) == times[k..]
    ensures forall i :: 0 <= i < k ==> times[i] <= cutoff
    ensures forall i :: k <= i < |times| ==> times[i] > cutoff
  {
    if times == [] {
      k := 0;
    } else if times[0] > cutoff {
      var r := AfterIsTail(times[1..], cutoff);
      assert forall i :: 0 <= i < |times[1..]| ==> times[1..][i] > cutoff;
      assert r == 0;
      k := 0;
      assert [times[0]] + times[1..] == times;
    } else {
      var r := AfterIsTail(times[1..], cutoff);
      k := r + 1;
      assert times[1..][r..] == times[k..];
      forall i | 0 <= i < k ensures times[i] <= cutoff {
        assert i > 0 ==> times[1..][i - 1] == times[i];
      }
      forall i | k <= i < |times| ensures times[i] > cutoff {
        assert times[1..][i - 1] == times[i];
      }
    }
  }

  /** The stored list is the complete list without some of its oldest entries, none of them recent. */
  ghost predicate Tracks(stored: seq<int>, complete: seq<int>, now: int) {
    && |stored| <= |complete| && stored == complete[|complete| - |stored|..]
    && (forall i :: 0 <= i < |complete| - |stored| ==> complete[i] <= now - WINDOW)
    && |stored| <= MAX_APPROVALS_PER_MINUTE
  }

  /** What the guard keeps true of every origin. */
  ghost predicate OriginOk(stored: seq<int>, complete: seq<int>, now: int) {
    && Ascending(complete) && SpacedOut(complete)
    && (forall t :: t in complete ==> t <= now)
    && Tracks(stored, complete, now)
  }

  lemma {:induction false} FilteredShorter(times: seq<int>, cutoff: int)
    ensures |After(times, cutoff)| <= |times|
  {
    if times != [] {
      FilteredShorter(times[1..], cutoff);
    }
  }

  /** Filtering the stored list or the complete one gives the same, and a list to store again. */
  lemma FilteredAgrees(stored: seq<int>, complete: seq<int>, now: int)
    requires OriginOk(stored, complete, now)
    ensures After(stored, now - WINDOW) == After(complete, now - WINDOW)
    ensures OriginOk(After(stored, now - WINDOW), complete, now)
  {
    var dropped := complete[..|complete| - |stored|];
    assert complete == dropped + stored;
    AfterConcat(dropped, stored, now - WINDOW);
    NoneAfter(dropped, now - WINDOW);
    var k := AfterIsTail(complete, now - WINDOW);
    FilteredShorter(stored, now - WINDOW);
    TailTracks(After(complete, now - WINDOW), complete, now, k);
  }

  lemma TailTracks(stored: seq<int>, complete: seq<int>, now: int, k: nat)
    requires k <= |complete| && stored == complete[k..] && |stored| <= MAX_APPROVALS_PER_MINUTE
    requires forall i :: 0 <= i < k ==> complete[i] <= now - WINDOW
    ensures Tracks(stored, complete, now)
  {
  }

  lemma AscendingSnoc(times: seq<int>, now: int)
    requires Ascending(times) && forall t :: t in times ==> t <= now
    ensures Ascending(times + [now]) && forall t :: t in times + [now] ==> t <= now
  {
    forall i | 0 <= i < |times| ensures times[i] <= now {
      assert times[i] in times;
    }
  }

  /** An admission keeps eleven in a row a minute apart. */
  lemma AdmissionSpaced(complete: seq<int>, timestamps: seq<int>, now: int)
    requires Ascending(complete) && SpacedOut(complete) && forall t :: t in complete ==> t <= now
    requires timestamps == After(complete, now - WINDOW) && |timestamps| < MAX_APPROVALS_PER_MINUTE
    ensures OriginOk(timestamps + [now], complete + [now], now)
  {
    AscendingSnoc(complete, now);
    var k := AfterIsTail(complete, now - WINDOW);
    SpacedSnoc(complete, now, k);
    var longer := complete + [now];
    assert longer[k..] == complete[k..] + [now];
    forall i | 0 <= i < k ensures longer[i] <= now - WINDOW {
      assert longer[i] == complete[i];
    }
    TailTracks(timestamps + [now], longer, now, k);
  }

  lemma SpacedSnoc(complete: seq<int>, now: int, k: nat)
    requires SpacedOut(complete) && k <= |complete| < k + MAX_APPROVALS_PER_MINUTE
    requires forall i :: 0 <= i < k ==> complete[i] <= now - WINDOW
    ensures SpacedOut(complete + [now])
  {
    var longer := complete + [now];
    forall i | 0 <= i && i + MAX_APPROVALS_PER_MINUTE < |longer|
      ensures longer[i + MAX_APPROVALS_PER_MINUTE] - longer[i] >= WINDOW
    {
      if i + MAX_APPROVALS_PER_MINUTE < |complete| {
        assert complete[i + MAX_APPROVALS_PER_MINUTE] - complete[i] >= WINDOW;
      } else {
        assert i < k && longer[i] == complete[i];
      }
    }
  }

  /** An origin whose stored entries are all too old may be forgotten. */
  lemma ForgetOld(stored: seq<int>, complete: seq<int>, now: int)
    requires OriginOk(stored, complete, now)
    requires forall i :: 0 <= i < |stored| ==> stored[i] <= now - WINDOW
    ensures OriginOk([], complete, now)
  {
    forall i | 0 <= i < |complete| ensures complete[i] <= now - WINDOW {
      var n := |complete| - |stored|;
      assert i >= n ==> complete[i] == stored[i - n];
    }
  }

  function ListOf(lists: map<Origin, seq<int>>, origin: Origin): (r: seq<int>)
    ensures origin in lists ==> r == lists[origin]
    ensures origin !in lists ==> r == []
  {
    if origin in lists then lists[origin] else []
  }

  ghost predicate AllOk(recent: map<Origin, seq<int>>, admitted: map<Origin, seq<int>>, now: int) {
    forall origin {:trigger OriginOk(ListOf(recent, origin), ListOf(admitted, origin), now)} ::
      OriginOk(ListOf(recent, origin), ListOf(admitted, origin), now)
  }

  /** Changing the lists of one origin leaves the others as they are. */
  lemma OneChanged(recent: map<Origin, seq<int>>, admitted: map<Origin, seq<int>>, now: int, origin: Origin,
                   recent': map<Origin, seq<int>>, admitted': map<Origin, seq<int>>)
    requires AllOk(recent, admitted, now)
    requires OriginOk(ListOf(recent', origin), ListOf(admitted', origin), now)
    requires forall o :: o != origin ==>
               ListOf(recent', o) == ListOf(recent, o) && ListOf(admitted', o) == ListOf(admitted, o)
    ensures AllOk(recent', admitted', now)
  {
    forall o ensures OriginOk(ListOf(recent', o), ListOf(admitted', o), now) {
      assert OriginOk(ListOf(recent, o), ListOf(admitted, o), now);
    }
  }

  /** Emptying a list with only old entries keeps everything in order. */
  lemma OneEmptied(recent: map<Origin, seq<int>>, admitted: map<Origin, seq<int>>, now: int, key: Origin,
                   recent': map<Origin, seq<int>>)
    requires AllOk(recent, admitted, now)
    requires forall i :: 0 <= i < |ListOf(recent, key)| ==> ListOf(recent, key)[i] <= now - WINDOW
    requires ListOf(recent', key) == [] && forall o :: o != key ==> ListOf(recent', o) == ListOf(recent, o)
    ensures AllOk(recent', admitted, now)
  {
    ForgetOld(ListOf(recent, key), ListOf(admitted, key), now);
    OneChanged(recent, admitted, now, key, recent', admitted);
  }

  lemma OneForgotten(recent: map<Origin, seq<int>>, admitted: map<Origin, seq<int>>, now: int, key: Origin)
    requires AllOk(recent, admitted, now) && key in recent
    requires forall i :: 0 <= i < |recent[key]| ==> recent[key][i] <= now - WINDOW
    ensures AllOk(recent - {key}, admitted, now)
  {
    WithoutKey(recent, key);
    OneEmptied(recent, admitted, now, key, recent - {key});
  }

  lemma WithoutKey(recent: map<Origin, seq<int>>, key: Origin)
    ensures ListOf(recent - {key}, key) == []
    ensures forall o :: o != key ==> ListOf(recent - {key}, o) == ListOf(recent, o)
  {
    var rest := recent - {key};
    forall o | o != key ensures ListOf(rest, o) == ListOf(recent, o) {
      assert o in rest <==> o in recent;
    }
  }

  lemma Later(recent: map<Origin, seq<int>>, admitted: map<Origin, seq<int>>, before: int, now: int)
    requires AllOk(recent, admitted, before) && before <= now
    ensures AllOk(recent, admitted, now)
  {
    forall o ensures OriginOk(ListOf(recent, o), ListOf(admitted, o), now) {
      assert OriginOk(ListOf(recent, o), ListOf(admitted, o), before);
    }
  }

  /** One call to the guard, on values: the decision a complete history makes. */
  datatype Call = Call(id: Id, origin: Origin, pending: map<Id, Origin>, now: int)

  ghost function Decide(times: seq<int>, call: Call): Decision {
    if call.id in call.pending then AlreadyPending
    else if |call.pending| >= 20 then TooManyPending
    else if PendingFor(call.pending, call.origin) >= 3 then TooManyForSite
    else if |After(times, call.now - 60_000)| >= 10 then TooQuick
    else Allowed
  }

  class ApprovalRequestGuard {
    var recent: map<Origin, seq<int>>
    /** History: every admission of every origin, and the time of the last call. */
    ghost var admitted: map<Origin, seq<int>>
    ghost var clock: int

    ghost function Admissions(origin: Origin): seq<int>
      reads this
    {
      ListOf(admitted, origin)
    }

    function Stored(origin: Origin): seq<int>
      reads this
    {
      ListOf(recent, origin)
    }

    ghost predicate Valid()
      reads this
    {
      AllOk(recent, admitted, clock)
    }

    constructor ()
      ensures Valid() && recent == map[] && admitted == map[]
    {
      recent, admitted, clock := map[], map[], 0;
    }

    /** The decision is the one a guard with the complete history would make: what has been pruned or
        filtered away never matters. */
    method AssertAllowed(id: Id, origin: Origin, pending: map<Id, Origin>, now: int) returns (r: Decision)
      requires Valid() && clock <= now
      modifies this
      ensures Valid() && clock == now
      ensures r == Decide(old(Admissions(origin)), Call(id, origin, pending, now))
      ensures r == Allowed ==> admitted == old(admitted)[origin := old(Admissions(origin)) + [now]]
      ensures r != Allowed ==> admitted == old(admitted)
      ensures r == Allowed ==>
                recent == Tidied(old(recent)[origin := After(old(Stored(origin)), now - 60_000) + [now]], now)
    {
      AdvanceClock(now);
      if id in pending {
        return AlreadyPending;
      }
      if |pending| >= MAX_PENDING_TOTAL {
        return TooManyPending;
      }
      var originPending := CountPending(pending, origin);
      if originPending >= MAX_PENDING_PER_ORIGIN {
        return TooManyForSite;
      }
      var admit := Admit(origin, now);
      return if admit then Allowed else TooQuick;
    }

    /** The rate limit of one origin. */
    method Admit(origin: Origin, now: int) returns (ok: bool)
      requires Valid() && clock == now
      modifies this`recent, this`admitted
      ensures Valid()
      ensures ok <==> |After(old(Admissions(origin)), now - WINDOW)| < MAX_APPROVALS_PER_MINUTE
      ensures admitted == if ok then old(admitted)[origin := old(Admissions(origin)) + [now]] else old(admitted)
      ensures ok ==> recent == Tidied(old(recent)[origin := After(old(Stored(origin)), now - 60_000) + [now]], now)
    {
      var cutoff := now - WINDOW;
      var timestamps := After(Stored(origin), cutoff);
      ghost var complete := Admissions(origin);
      FilteredAgrees(Stored(origin), complete, now);
      if |timestamps| >= MAX_APPROVALS_PER_MINUTE {
        Store(origin, timestamps, complete);
        return false;
      }
      AdmissionSpaced(complete, timestamps, now);
      timestamps := timestamps + [now];
      Store(origin, timestamps, complete + [now]);
      if |recent| > PRUNE_ABOVE {
        Prune(cutoff);
      }
      return true;
    }

    ghost method AdvanceClock(now: int)
      requires Valid() && clock <= now
      modifies this`clock
      ensures Valid() && clock == now
    {
      Later(recent, admitted, clock, now);
      clock := now;
    }

    method Store(origin: Origin, timestamps: seq<int>, ghost complete: seq<int>)
      requires Valid() && OriginOk(timestamps, complete, clock)
      modifies this`recent, this`admitted
      ensures Valid() && recent == old(recent)[origin := timestamps]
      ensures complete == old(Admissions(origin)) ==> admitted == old(admitted)
      ensures complete != old(Admissions(origin)) ==> admitted == old(admitted)[origin := complete]
    {
      ghost var admitted' := if complete == Admissions(origin) then admitted else admitted[origin := complete];
      OneChanged(recent, admitted, clock, origin, recent[origin := timestamps], admitted');
      recent, admitted := recent[origin := timestamps], admitted';
    }

    method Forget(key: Origin)
      requires Valid() && key in recent
      requires forall i :: 0 <= i < |recent[key]| ==> recent[key][i] <= clock - WINDOW
      modifies this`recent
      ensures Valid() && recent == old(recent) - {key}
    {
      OneForgotten(recent, admitted, clock, key);
      recent := recent - {key};
    }

    /** Deletes every origin whose stored entries are all too old to matter. */
    method Prune(cutoff: int)
      requires Valid() && cutoff == clock - WINDOW
      modifies this`recent
      ensures Valid()
      ensures recent == map o | o in old(recent) && Matters(old(recent)[o], clock) :: old(recent)[o]
    {
      var todo := recent.Keys;
      while todo != {}
        invariant Valid() && todo <= recent.Keys
        invariant recent == map o | o in old(recent) && (o in todo || !TooOld(old(recent)[o], cutoff)) :: old(recent)[o]
        decreases |todo|
      {
        var key :| key in todo;
        todo := todo - {key};
        if TooOld(recent[key], cutoff) {
          Forget(key);
        }
      }
    }

    /** Some entry is less than a minute old. */
    static ghost predicate Matters(times: seq<int>, now: int) {
      exists i :: 0 <= i < |times| && now - times[i] < 60_000
    }

    /** Above 100 sites, only those with an entry that matters. */
    static ghost function Tidied(stored: map<Origin, seq<int>>, now: int): map<Origin, seq<int>> {
      if |stored| > 100 then map o | o in stored && Matters(stored[o], now) :: stored[o] else stored
    }

    static predicate TooOld(times: seq<int>, cutoff: int) {
      forall i :: 0 <= i < |times| ==> times[i] <= cutoff
    }

    method CountPending(pending: map<Id, Origin>, origin: Origin) returns (n: nat)
      ensures n == PendingFor(pending, origin)
    {
      n := 0;
      var todo, counted := pending.Keys, {};
      while todo != {}
        invariant todo <= pending.Keys && counted == pending.Keys - todo
        invariant n == |set id | id in counted && pending[id] == origin|
        decreases |todo|
      {
        var id :| id in todo;
        todo := todo - {id};
        ghost var seen := set x | x in counted && pending[x] == origin;
        counted := counted + {id};
        if pending[id] == origin {
          n := n + 1;
          assert (set x | x in counted && pending[x] == origin) == seen + {id};
        } else {
          assert (set x | x in counted && pending[x] == origin) == seen;
        }
      }
      assert (set id | id in counted && pending[id] == origin) == (set id | id in pending && pending[id] == origin);
    }
  }

  // ---------- Whole runs ----------

  /** All admissions of one origin over a run of calls. */
  ghost function AdmissionsIn(calls: seq<Call>, origin: Origin): seq<int> {
    if calls == [] then []
    else
      var times, last := AdmissionsIn(calls[..|calls| - 1], origin), calls[|calls| - 1];
      if last.origin == origin && Decide(times, last) == Allowed then times + [last.now] else times
  }

  /** In any run with a clock that does not go back, eleven consecutive admissions of an origin span
      at least 60,000 ms. */
  lemma {:induction false} RunSpacedOut(calls: seq<Call>, origin: Origin)
    requires forall i, j :: 0 <= i <= j < |calls| ==> calls[i].now <= calls[j].now
    ensures Ascending(AdmissionsIn(calls, origin)) && SpacedOut(AdmissionsIn(calls, origin))
    ensures calls != [] ==> forall t :: t in AdmissionsIn(calls, origin) ==> t <= calls[|calls| - 1].now
  {
    if calls != [] {
      var init, last := calls[..|calls| - 1], calls[|calls| - 1];
      RunSpacedOut(init, origin);
      var times := AdmissionsIn(init, origin);
      forall t | t in times ensures t <= last.now {
        assert init != [] ==> init[|init| - 1].now <= last.now;
      }
      if last.origin == origin && Decide(times, last) == Allowed {
        AdmissionSpaced(times, After(times, last.now - WINDOW), last.now);
      }
    }
  }
}
