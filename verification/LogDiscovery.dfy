/** Model of resumable Safe discovery (apps/extension/src/safe-discovery.ts) and of the client that
    follows its cursors (apps/desktop/src/lib/safeDiscovery.ts).

    The chain's factory logs are one sequence `chain`, newest first.  The RPC provider is an
    environment: for every attempt it decides whether a block range is answered, and it may list
    the logs of a range in any order. */
module LogDiscovery {
  import opened Wrappers

  datatype Log = Log(block: nat, index: nat, removed: bool, proxy: int)

  datatype Lookup = Owned | NotOwned | Unsupported | Outage

  datatype Cursor = Cursor(beforeBlock: Option<int>, offset: int, blockSpan: Option<int>)

  datatype Page = Page(
    accounts: seq<Log>,
    fromBlock: nat,
    toBlock: nat,
    latestBlock: nat,
    nextBeforeBlock: Option<nat>,
    nextOffset: nat,
    blockSpan: nat,
    complete: bool,
    unsupported: nat)

  datatype Error = InvalidCursor | RangeRejected | HistoryChanged | InvalidFactoryLog | LookupOutage | DidNotAdvance

  /** `answers(attempt, from, to)` says whether that query succeeds; `reply` is what it returns. */
  datatype Rpc = Rpc(latest: nat, answers: (nat, nat, nat) -> bool, reply: (nat, nat) -> seq<Log>)

  const MAX_SAFE_INTEGER := 0x1F_FFFF_FFFF_FFFF
  const MAX_SPAN := 50_000
  const MIN_SPAN := 500
  const MAX_OFFSET := 100_000
  const PAGE_SIZE := 5

  // ---------- Logs in order ----------

  predicate Newer(a: Log, b: Log) {
    a.block > b.block || (a.block == b.block && a.index > b.index)
  }

  ghost predicate Descending(logs: seq<Log>) {
    forall i, j :: 0 <= i < j < |logs| ==> Newer(logs[i], logs[j])
  }

  /** The logs of the blocks `from..=to`, newest first. */
  function Listing(chain: seq<Log>, from: int, to: int): seq<Log> {
    if chain == [] then []
    else if from <= chain[0].block <= to then [chain[0]] + Listing(chain[1..], from, to)
    else Listing(chain[1..], from, to)
  }

  function Kept(logs: seq<Log>): seq<Log> {
    if logs == [] then []
    else (if logs[0].removed then [] else [logs[0]]) + Kept(logs[1..])
  }

  ghost predicate Honest(rpc: Rpc, chain: seq<Log>) {
    && rpc.latest <= MAX_SAFE_INTEGER
    && forall from: nat, to: nat :: multiset(rpc.reply(from, to)) == multiset(Listing(chain, from, to))
  }

  lemma {:induction false} ListingMember(chain: seq<Log>, from: int, to: int, log: Log)
    ensures log in Listing(chain, from, to) <==> log in chain && from <= log.block <= to
  {
    if chain != [] {
      ListingMember(chain[1..], from, to, log);
      assert chain == [chain[0]] + chain[1..];
    }
  }

  lemma {:induction false} ListingDescending(chain: seq<Log>, from: int, to: int)
    requires Descending(chain)
    ensures Descending(Listing(chain, from, to))
  {
    if chain != [] {
      var rest := Listing(chain[1..], from, to);
      ListingDescending(chain[1..], from, to);
      forall i | 0 <= i < |rest| ensures Newer(chain[0], rest[i]) {
        ListingMember(chain[1..], from, to, rest[i]);
        var j :| 0 <= j < |chain[1..]| && chain[1..][j] == rest[i];
        assert chain[j + 1] == rest[i];
      }
    }
  }

  lemma {:induction false} NoneInRange(chain: seq<Log>, from: int, to: int)
    requires forall log :: log in chain ==> log.block < from
    ensures Listing(chain, from, to) == []
  {
    if chain != [] {
      NoneInRange(chain[1..], from, to);
    }
  }

  /** A range splits at any block: the newer part comes first. */
  lemma {:induction false} ListingSplit(chain: seq<Log>, from: int, to: int)
    requires Descending(chain) && from <= to + 1
    ensures Listing(chain, 0, to) == Listing(chain, from, to) + Listing(chain, 0, from - 1)
  {
    if chain != [] {
      var rest := chain[1..];
      ListingSplit(rest, from, to);
      if chain[0].block < from {
        forall log | log in chain ensures log.block < from {
          var j :| 0 <= j < |chain| && chain[j] == log;
        }
        NoneInRange(chain, from, to);
        NoneInRange(rest, from, to);
      } else {
        assert Listing(chain, 0, from - 1) == Listing(rest, 0, from - 1);
      }
    }
  }

  lemma {:induction false} ListingEmpty(chain: seq<Log>, to: int)
    requires to < 0
    ensures Listing(chain, 0, to) == []
  {
    if chain != [] {
      ListingEmpty(chain[1..], to);
    }
  }

  lemma {:induction false} KeptConcat(a: seq<Log>, b: seq<Log>)
    ensures Kept(a + b) == Kept(a) + Kept(b)
  {
    if a == [] {
      assert a + b == b;
    } else {
      assert (a + b)[1..] == a[1..] + b;
      KeptConcat(a[1..], b);
    }
  }

  // ---------- The sort ----------

  /** `logs.sort`, newest first; the comparator is zero only on the same block and index. */
  function Insert(log: Log, sorted: seq<Log>): seq<Log> {
    if sorted == [] || !Newer(sorted[0], log) then [log] + sorted
    else [sorted[0]] + Insert(log, sorted[1..])
  }

  function Sorted(logs: seq<Log>): seq<Log> {
    if logs == [] then [] else Insert(logs[0], Sorted(logs[1..]))
  }

  ghost predicate WeaklyDescending(logs: seq<Log>) {
    forall i, j :: 0 <= i < j < |logs| ==> !Newer(logs[j], logs[i])
  }

  lemma {:induction false} InsertKeeps(log: Log, sorted: seq<Log>)
    ensures multiset(Insert(log, sorted)) == multiset{log} + multiset(sorted)
  {
    if sorted != [] && Newer(sorted[0], log) {
      assert sorted == [sorted[0]] + sorted[1..];
      InsertKeeps(log, sorted[1..]);
    }
  }

  lemma InsertedIsOlder(log: Log, sorted: seq<Log>, x: Log)
    requires WeaklyDescending(sorted) && sorted != [] && Newer(sorted[0], log)
    requires x in Insert(log, sorted[1..])
    ensures !Newer(x, sorted[0])
  {
    var tail := sorted[1..];
    InsertKeeps(log, tail);
    assert x in multiset(Insert(log, tail));
    if x != log {
      assert x in tail;
      var k :| 0 <= k < |tail| && tail[k] == x;
      assert sorted[k + 1] == x;
    }
  }

  lemma TailDescends(sorted: seq<Log>)
    requires WeaklyDescending(sorted) && sorted != []
    ensures WeaklyDescending(sorted[1..])
  {
  }

  lemma {:induction false} InsertSorts(log: Log, sorted: seq<Log>)
    requires WeaklyDescending(sorted)
    ensures WeaklyDescending(Insert(log, sorted))
  {
    if sorted != [] && Newer(sorted[0], log) {
      TailDescends(sorted);
      InsertSorts(log, sorted[1..]);
      forall x | x in Insert(log, sorted[1..]) ensures !Newer(x, sorted[0]) {
        InsertedIsOlder(log, sorted, x);
      }
      WeaklyCons(sorted[0], Insert(log, sorted[1..]));
    } else {
      forall x | x in sorted ensures !Newer(x, log) {
        NoneNewer(log, sorted, x);
      }
      WeaklyCons(log, sorted);
    }
  }

  lemma NoneNewer(log: Log, sorted: seq<Log>, x: Log)
    requires WeaklyDescending(sorted) && x in sorted && !Newer(sorted[0], log)
    ensures !Newer(x, log)
  {
    var k :| 0 <= k < |sorted| && sorted[k] == x;
    assert k > 0 ==> !Newer(sorted[k], sorted[0]);
  }

  lemma WeaklyCons(first: Log, rest: seq<Log>)
    requires WeaklyDescending(rest) && forall x :: x in rest ==> !Newer(x, first)
    ensures WeaklyDescending([first] + rest)
  {
  }

  lemma {:induction false} SortedSorts(logs: seq<Log>)
    ensures WeaklyDescending(Sorted(logs)) && multiset(Sorted(logs)) == multiset(logs)
  {
    if logs != [] {
      assert logs == [logs[0]] + logs[1..];
      SortedSorts(logs[1..]);
      InsertSorts(logs[0], Sorted(logs[1..]));
      InsertKeeps(logs[0], Sorted(logs[1..]));
    }
  }

  lemma {:induction false} SortedUnique(s: seq<Log>, t: seq<Log>)
    requires WeaklyDescending(s) && Descending(t) && multiset(s) == multiset(t)
    ensures s == t
  {
    assert |multiset(s)| == |s| && |multiset(t)| == |t|;
    if s != [] {
      SameFirst(s, t);
      RemoveFirst(s);
      RemoveFirst(t);
      SortedUnique(s[1..], t[1..]);
      assert s == [s[0]] + s[1..] && t == [t[0]] + t[1..];
    }
  }

  lemma SameFirst(s: seq<Log>, t: seq<Log>)
    requires WeaklyDescending(s) && Descending(t) && multiset(s) == multiset(t) && s != [] && t != []
    ensures s[0] == t[0]
  {
    assert s[0] in multiset(s) && t[0] in multiset(t);
    var i :| 0 <= i < |t| && t[i] == s[0];
    var j :| 0 <= j < |s| && s[j] == t[0];
    FirstIsNewest(t, i);
  }

  lemma FirstIsNewest(t: seq<Log>, i: nat)
    requires Descending(t) && i < |t|
    ensures t[i] == t[0] || Newer(t[0], t[i])
  {
  }

  lemma RemoveFirst(s: seq<Log>)
    requires s != []
    ensures multiset(s[1..]) == multiset(s) - multiset{s[0]}
  {
    assert s == [s[0]] + s[1..];
  }

  // ---------- What a page is ----------

  function StartSpan(cursor: Cursor): int {
    if cursor.blockSpan.Some? then cursor.blockSpan.value else MAX_SPAN
  }

  function ToBlock(cursor: Cursor, latest: nat): int {
    if cursor.beforeBlock.Some? then cursor.beforeBlock.value else latest
  }

  /** A fresh cursor starts at the newest block with the largest span; any other says itself. */
  lemma StartExactly(cursor: Cursor, latest: nat)
    ensures cursor.blockSpan.None? ==> StartSpan(cursor) == 50_000
    ensures cursor.beforeBlock.None? ==> ToBlock(cursor, latest) == latest
    ensures cursor.blockSpan.Some? ==> Some(StartSpan(cursor)) == cursor.blockSpan
    ensures cursor.beforeBlock.Some? ==> Some(ToBlock(cursor, latest)) == cursor.beforeBlock
  {
  }

  predicate CursorAccepted(cursor: Cursor, latest: nat) {
    && latest <= MAX_SAFE_INTEGER
    && 0 <= ToBlock(cursor, latest) <= latest
    && 1 <= StartSpan(cursor) <= MAX_SPAN
    && 0 <= cursor.offset <= MAX_OFFSET
  }

  function FromBlock(to: nat, span: nat): nat {
    if to - span + 1 > 0 then to - span + 1 else 0
  }

  function Smaller(span: nat): nat {
    if span / 10 > MIN_SPAN then span / 10 else MIN_SPAN
  }

  /** An answered range ends at its block and has exactly as many blocks as the span, or all there are. */
  lemma RangeExactly(to: nat, span: nat)
    requires span >= 1
    ensures FromBlock(to, span) <= to && to - FromBlock(to, span) + 1 == if span <= to + 1 then span else to + 1
  {
  }

  /** A retry takes a tenth of the span, rounded down, and at least 500 blocks. */
  lemma SmallerExactly(span: nat)
    ensures span >= 5_000 ==> 10 * Smaller(span) <= span < 10 * Smaller(span) + 10
    ensures span < 5_000 ==> Smaller(span) == 500
    ensures MAX_SPAN == 50_000 && MAX_OFFSET == 100_000 && PAGE_SIZE == 5
  {
  }

  /** `span` is reached from `start` by shrinking after rejected ranges. */
  predicate ShrinksTo(start: nat, span: nat)
    decreases start
  {
    start == span || (start > MIN_SPAN && ShrinksTo(Smaller(start), span))
  }

  function Min(a: int, b: int): int {
    if a <= b then a else b
  }

  function OwnedOf(logs: seq<Log>, lookup: Log -> Lookup): seq<Log> {
    if logs == [] then []
    else (if lookup(logs[0]) == Owned then [logs[0]] else []) + OwnedOf(logs[1..], lookup)
  }

  function UnsupportedIn(logs: seq<Log>, lookup: Log -> Lookup): nat {
    if logs == [] then 0
    else (if lookup(logs[0]) == Unsupported then 1 else 0) + UnsupportedIn(logs[1..], lookup)
  }

  /** The logs a page looks at: at most five, from the offset on. */
  ghost function Visited(chain: seq<Log>, cursor: Cursor, page: Page): seq<Log> {
    var range := Listing(chain, page.fromBlock, page.toBlock);
    if 0 <= cursor.offset <= |range| then range[cursor.offset..Min(cursor.offset + PAGE_SIZE, |range|)] else []
  }

  /** Where the cursor a page was asked for stands, and where the page says to go next. */
  ghost predicate PageOf(chain: seq<Log>, cursor: Cursor, latest: nat, page: Page) {
    var range := Listing(chain, page.fromBlock, page.toBlock);
    var end := Min(cursor.offset + PAGE_SIZE, |range|);
    && CursorAccepted(cursor, latest)
    && page.latestBlock == latest && page.toBlock == ToBlock(cursor, latest)
    && ShrinksTo(StartSpan(cursor), page.blockSpan)
    && (cursor.offset != 0 ==> page.blockSpan == StartSpan(cursor))
    && page.fromBlock == FromBlock(page.toBlock, page.blockSpan)
    && cursor.offset <= |range|
    && page.nextOffset == (if end < |range| then end else 0)
    && page.nextBeforeBlock == (if end < |range| then Some(page.toBlock)
                                else if page.fromBlock == 0 then None else Some(page.fromBlock - 1))
    && page.complete == page.nextBeforeBlock.None?
    && page.unsupported <= PAGE_SIZE
  }

  lemma {:induction false} ShrinksWithin(start: nat, span: nat)
    requires 1 <= start && ShrinksTo(start, span)
    ensures 1 <= span <= start
    decreases start
  {
    if start != span {
      ShrinksWithin(Smaller(start), span);
    }
  }

  lemma {:induction false} ShrinkStep(start: nat, span: nat)
    requires ShrinksTo(start, span) && span > MIN_SPAN
    ensures ShrinksTo(start, Smaller(span))
    decreases start
  {
    if start != span {
      ShrinkStep(Smaller(start), span);
    }
  }

  // ---------- The method ----------

  /** The span after `k` rejections. */
  function SpanAt(start: nat, k: nat): nat {
    if k == 0 then start else Smaller(SpanAt(start, k - 1))
  }

  /** Attempt `k` is made unless one is answered before: only the first on a range that is partly
      consumed, otherwise as long as the span could still shrink. */
  predicate Attempted(offset: nat, start: nat, k: nat) {
    k == 0 || (offset == 0 && forall j :: 0 <= j < k ==> SpanAt(start, j) > MIN_SPAN)
  }

  predicate Answers(rpc: Rpc, to: nat, start: nat, k: nat) {
    rpc.answers(k, FromBlock(to, SpanAt(start, k)), to)
  }

  ghost predicate FirstAnswer(rpc: Rpc, offset: nat, to: nat, start: nat, k: nat) {
    && Attempted(offset, start, k) && Answers(rpc, to, start, k)
    && forall j :: 0 <= j < k ==> !Answers(rpc, to, start, j)
  }

  /** The first attempt that is answered has this span. */
  ghost predicate AnsweredWith(rpc: Rpc, offset: nat, to: nat, start: nat, span: nat) {
    exists k :: FirstAnswer(rpc, offset, to, start, k) && span == SpanAt(start, k)
  }

  lemma AnsweredOnce(rpc: Rpc, offset: nat, to: nat, start: nat, a: nat, b: nat)
    requires AnsweredWith(rpc, offset, to, start, a) && AnsweredWith(rpc, offset, to, start, b)
    ensures a == b
  {
    var k: nat :| FirstAnswer(rpc, offset, to, start, k) && a == SpanAt(start, k);
    var m: nat :| FirstAnswer(rpc, offset, to, start, m) && b == SpanAt(start, m);
    assert !(k < m) && !(m < k);
  }

  lemma {:induction false} AttemptedShrinks(offset: nat, start: nat, k: nat)
    requires Attempted(offset, start, k)
    ensures ShrinksTo(start, SpanAt(start, k)) && (offset != 0 ==> k == 0)
  {
    if k > 0 {
      AttemptedShrinks(offset, start, k - 1);
      ShrinkStep(start, SpanAt(start, k - 1));
    }
  }

  /** The loop that shrinks the span until a range is answered: it succeeds exactly when one of the
      attempts is answered, with the span of the first of them. */
  method QueryRange(rpc: Rpc, offset: nat, to: nat, startSpan: nat) returns (r: Result<nat, Error>)
    requires 1 <= startSpan
    ensures r.Success? ==> AnsweredWith(rpc, offset, to, startSpan, r.value)
    ensures r.Success? ==> ShrinksTo(startSpan, r.value) && (offset != 0 ==> r.value == startSpan)
    ensures r.Failure? ==> r.error == RangeRejected
    ensures r.Failure? <==> forall k :: Attempted(offset, startSpan, k) ==> !Answers(rpc, to, startSpan, k)
  {
    var span, attempt := startSpan, 0;
    while !rpc.answers(attempt, FromBlock(to, span), to)
      invariant 1 <= span == SpanAt(startSpan, attempt) && Attempted(offset, startSpan, attempt)
      invariant forall j :: 0 <= j < attempt ==> !Answers(rpc, to, startSpan, j)
      decreases span
    {
      assert !Answers(rpc, to, startSpan, attempt);
      if offset != 0 || span <= MIN_SPAN {
        return Failure(RangeRejected);
      }
      span := Smaller(span);
      attempt := attempt + 1;
    }
    AttemptedShrinks(offset, startSpan, attempt);
    assert FirstAnswer(rpc, offset, to, startSpan, attempt);
    return Success(span);
  }

  ghost predicate Examines(page: Page, logs: seq<Log>, lookup: Log -> Lookup) {
    && page.accounts == OwnedOf(Kept(logs), lookup)
    && page.unsupported == UnsupportedIn(Kept(logs), lookup)
    && NoOutage(logs, lookup)
  }

  ghost predicate NoOutage(logs: seq<Log>, lookup: Log -> Lookup) {
    forall log :: log in Kept(logs) ==> lookup(log) != Outage
  }

  /** The provider answers this cursor's query, first with this span. */
  ghost predicate Answered(rpc: Rpc, cursor: Cursor, span: nat) {
    CursorAccepted(cursor, rpc.latest)
    && AnsweredWith(rpc, cursor.offset, ToBlock(cursor, rpc.latest), StartSpan(cursor), span)
  }

  /** The logs a cursor's query returns at this span, newest first. */
  ghost function RangeOf(chain: seq<Log>, cursor: Cursor, latest: nat, span: nat): seq<Log>
    requires CursorAccepted(cursor, latest)
  {
    Listing(chain, FromBlock(ToBlock(cursor, latest), span), ToBlock(cursor, latest))
  }

  function Slice(range: seq<Log>, offset: nat): seq<Log>
    requires offset <= |range|
  {
    range[offset..Min(offset + PAGE_SIZE, |range|)]
  }

  /** Each way a call can end, and exactly when. */
  method DiscoverSafes(rpc: Rpc, lookup: Log -> Lookup, cursor: Cursor, ghost chain: seq<Log>)
    returns (r: Result<Page, Error>)
    requires Descending(chain) && Honest(rpc, chain)
    ensures r.Failure? ==> r.error in {InvalidCursor, RangeRejected, HistoryChanged, LookupOutage}
    ensures r == Failure(InvalidCursor) <==> !CursorAccepted(cursor, rpc.latest)
    ensures r == Failure(RangeRejected) <==>
              CursorAccepted(cursor, rpc.latest) && forall span :: !Answered(rpc, cursor, span)
    ensures r == Failure(HistoryChanged) <==>
              exists span :: Answered(rpc, cursor, span) && cursor.offset > |RangeOf(chain, cursor, rpc.latest, span)|
    ensures r == Failure(LookupOutage) <==>
              exists span :: Answered(rpc, cursor, span)
                && var range := RangeOf(chain, cursor, rpc.latest, span);
                   cursor.offset <= |range| && !NoOutage(Slice(range, cursor.offset), lookup)
    ensures r.Success? ==> Answered(rpc, cursor, r.value.blockSpan)
    ensures r.Success? ==> PageOf(chain, cursor, rpc.latest, r.value)
    ensures r.Success? ==> Examines(r.value, Visited(chain, cursor, r.value), lookup)
  {
    if !CursorAccepted(cursor, rpc.latest) {
      return Failure(InvalidCursor);
    }
    var to := ToBlock(cursor, rpc.latest);
    var answered := QueryRange(rpc, cursor.offset, to, StartSpan(cursor));
    if answered.Failure? {
      return Failure(answered.error);
    }
    var span := answered.value;
    assert Answered(rpc, cursor, span);
    forall other | Answered(rpc, cursor, other) ensures other == span {
      AnsweredOnce(rpc, cursor.offset, to, StartSpan(cursor), span, other);
    }
    ShrinksWithin(StartSpan(cursor), span);
    var from := FromBlock(to, span);
    var logs := SortLogs(rpc.reply(from, to), chain, from, to);
    if cursor.offset > |logs| {
      return Failure(HistoryChanged);
    }
    r := PageFrom(logs, lookup, cursor, rpc.latest, span, chain);
  }

  /** The part of the source after the sort: examine up to five logs and work out the next cursor. */
  method PageFrom(logs: seq<Log>, lookup: Log -> Lookup, cursor: Cursor, latest: nat, span: nat, ghost chain: seq<Log>)
    returns (r: Result<Page, Error>)
    requires CursorAccepted(cursor, latest) && ShrinksTo(StartSpan(cursor), span)
    requires cursor.offset != 0 ==> span == StartSpan(cursor)
    requires logs == RangeOf(chain, cursor, latest, span)
    requires cursor.offset <= |logs|
    ensures r.Success? ==> PageOf(chain, cursor, latest, r.value) && r.value.blockSpan == span
    ensures r.Success? ==> Examines(r.value, Visited(chain, cursor, r.value), lookup)
    ensures r.Failure? ==> r.error == LookupOutage
    ensures r.Failure? <==> !NoOutage(Slice(logs, cursor.offset), lookup)
  {
    var to := ToBlock(cursor, latest);
    var from := FromBlock(to, span);
    var end := Min(cursor.offset + PAGE_SIZE, |logs|);
    var slice := logs[cursor.offset..end];
    forall log | log in Kept(slice) ensures from <= log.block <= to {
      KeptMember(slice, log);
      assert log in logs;
      ListingMember(chain, from, to, log);
    }
    var examined := ExamineLogs(slice, lookup, from, to);
    if examined.Failure? {
      return Failure(examined.error);
    }
    UnsupportedBound(Kept(slice), lookup);
    KeptBound(slice);
    var sameRange := end < |logs|;
    var next := if sameRange then Some(to) else if from == 0 then None else Some(from - 1);
    r := Success(Page(examined.value.0, from, to, latest, next, if sameRange then end else 0, span,
                      next.None?, examined.value.1));
  }

  method SortLogs(logs: seq<Log>, ghost chain: seq<Log>, from: nat, to: nat) returns (r: seq<Log>)
    requires Descending(chain) && multiset(logs) == multiset(Listing(chain, from, to))
    ensures r == Listing(chain, from, to)
  {
    r := Sorted(logs);
    SortedSorts(logs);
    ListingDescending(chain, from, to);
    SortedUnique(r, Listing(chain, from, to));
  }

  ghost predicate InRange(logs: seq<Log>, from: nat, to: nat) {
    forall log :: log in Kept(logs) ==> from <= log.block <= to
  }

  ghost predicate Examined(logs: seq<Log>, lookup: Log -> Lookup, from: nat, to: nat, accounts: seq<Log>,
                           unsupported: nat) {
    && accounts == OwnedOf(Kept(logs), lookup) && unsupported == UnsupportedIn(Kept(logs), lookup)
    && NoOutage(logs, lookup) && InRange(logs, from, to)
  }

  /** The body of the loop over one page: skip removed logs, check the range, look the Safe up. */
  method ExamineLogs(logs: seq<Log>, lookup: Log -> Lookup, from: nat, to: nat)
    returns (r: Result<(seq<Log>, nat), Error>)
    ensures r.Success? <==> InRange(logs, from, to) && NoOutage(logs, lookup)
    ensures r.Success? ==> r.value == (OwnedOf(Kept(logs), lookup), UnsupportedIn(Kept(logs), lookup))
    ensures r == Failure(InvalidFactoryLog) ==> !InRange(logs, from, to)
    ensures r.Failure? && r.error != InvalidFactoryLog ==> r.error == LookupOutage && !NoOutage(logs, lookup)
  {
    var accounts, unsupported := [], 0;
    for i := 0 to |logs|
      invariant Examined(logs[..i], lookup, from, to, accounts, unsupported)
    {
      var log := logs[i];
      KeptSnoc(logs, i);
      if log.removed {
        continue;
      }
      KeptHas(logs, i);
      if log.block < from || log.block > to {
        return Failure(InvalidFactoryLog);
      }
      CountsSnoc(Kept(logs[..i]), log, lookup);
      match lookup(log)
      case Owned => accounts := accounts + [log];
      case NotOwned =>
      case Unsupported => unsupported := unsupported + 1;
      case Outage => return Failure(LookupOutage);
    }
    assert logs[..|logs|] == logs;
    return Success((accounts, unsupported));
  }

  lemma KeptSnoc(logs: seq<Log>, i: nat)
    requires i < |logs|
    ensures Kept(logs[..i + 1]) == if logs[i].removed then Kept(logs[..i]) else Kept(logs[..i]) + [logs[i]]
  {
    assert logs[..i + 1] == logs[..i] + [logs[i]];
    KeptConcat(logs[..i], [logs[i]]);
    KeptOne(logs[i]);
  }

  lemma {:induction false} KeptHas(logs: seq<Log>, i: nat)
    requires i < |logs| && !logs[i].removed
    ensures logs[i] in Kept(logs)
  {
    if i > 0 {
      KeptHas(logs[1..], i - 1);
    }
  }

  lemma KeptOne(log: Log)
    ensures Kept([log]) == if log.removed then [] else [log]
  {
    assert [log][1..] == [];
  }

  lemma {:induction false} KeptMember(logs: seq<Log>, log: Log)
    requires log in Kept(logs)
    ensures log in logs
  {
    if log in Kept(logs[1..]) {
      KeptMember(logs[1..], log);
    }
  }

  lemma CountsCons(log: Log, logs: seq<Log>, lookup: Log -> Lookup)
    ensures OwnedOf([log] + logs, lookup) == (if lookup(log) == Owned then [log] else []) + OwnedOf(logs, lookup)
    ensures UnsupportedIn([log] + logs, lookup)
         == (if lookup(log) == Unsupported then 1 else 0) + UnsupportedIn(logs, lookup)
  {
    assert ([log] + logs)[1..] == logs;
  }

  lemma {:induction false} CountsSnoc(logs: seq<Log>, log: Log, lookup: Log -> Lookup)
    ensures OwnedOf(logs + [log], lookup) == OwnedOf(logs, lookup) + if lookup(log) == Owned then [log] else []
    ensures UnsupportedIn(logs + [log], lookup)
         == UnsupportedIn(logs, lookup) + if lookup(log) == Unsupported then 1 else 0
  {
    if logs == [] {
      assert logs + [log] == [log] + [];
      CountsCons(log, [], lookup);
    } else {
      assert logs + [log] == [logs[0]] + (logs[1..] + [log]);
      CountsSnoc(logs[1..], log, lookup);
      CountsCons(logs[0], logs[1..] + [log], lookup);
    }
  }

  lemma {:induction false} UnsupportedBound(logs: seq<Log>, lookup: Log -> Lookup)
    ensures UnsupportedIn(logs, lookup) <= |logs|
  {
    if logs != [] {
      UnsupportedBound(logs[1..], lookup);
    }
  }

  lemma {:induction false} KeptBound(logs: seq<Log>)
    ensures |Kept(logs)| <= |logs|
  {
    if logs != [] {
      KeptBound(logs[1..]);
    }
  }

  // ---------- The client ----------

  /** `nextDiscoveryCursor`: refuses pages that do not advance. */
  function NextCursor(page: Page, previous: Cursor): Result<Option<Cursor>, Error> {
    if || page.fromBlock > MAX_SAFE_INTEGER || page.toBlock > MAX_SAFE_INTEGER || page.latestBlock > MAX_SAFE_INTEGER
       || page.nextOffset > MAX_SAFE_INTEGER || page.unsupported > MAX_SAFE_INTEGER
       || page.blockSpan < 1 || page.blockSpan > MAX_SPAN
       || page.fromBlock > page.toBlock || page.toBlock > page.latestBlock
       || (previous.beforeBlock.Some? && page.toBlock != previous.beforeBlock.value)
       || page.complete != page.nextBeforeBlock.None?
    then Failure(InvalidCursor)
    else if page.complete then
      if page.fromBlock != 0 || page.nextOffset != 0 then Failure(InvalidCursor) else Success(None)
    else
      var next := page.nextBeforeBlock.value;
      if next <= MAX_SAFE_INTEGER &&
         ((next == page.toBlock && page.nextOffset > previous.offset) ||
          (next == page.fromBlock - 1 && page.nextOffset == 0))
      then Success(Some(Cursor(Some(next), page.nextOffset, Some(page.blockSpan))))
      else Failure(DidNotAdvance)
  }

  /** The client accepts every page the server produces: both agree on what advancing means. */
  lemma ClientAcceptsPage(chain: seq<Log>, cursor: Cursor, latest: nat, page: Page)
    requires PageOf(chain, cursor, latest, page)
    ensures NextCursor(page, cursor).Success?
    ensures NextCursor(page, cursor).value.None? <==> page.complete
    ensures !page.complete ==>
              NextCursor(page, cursor)
              == Success(Some(Cursor(page.nextBeforeBlock, page.nextOffset, Some(page.blockSpan))))
  {
    ShrinksWithin(StartSpan(cursor), page.blockSpan);
    assert page.fromBlock <= page.toBlock;
  }

  /** What the client lets through, whoever sent it: a consistent page of at most 50,000 blocks that
      continues where the cursor stood, and is the last one only at block 0. */
  lemma AcceptedIsConsistent(page: Page, previous: Cursor)
    requires NextCursor(page, previous).Success?
    ensures page.fromBlock <= page.toBlock <= page.latestBlock <= MAX_SAFE_INTEGER
    ensures page.nextOffset <= MAX_SAFE_INTEGER && page.unsupported <= MAX_SAFE_INTEGER
    ensures 1 <= page.blockSpan <= 50_000
    ensures previous.beforeBlock.Some? ==> page.toBlock == previous.beforeBlock.value
    ensures NextCursor(page, previous).value.None? <==> page.nextBeforeBlock.None?
    ensures page.complete == page.nextBeforeBlock.None?
    ensures page.complete ==> page.fromBlock == 0 && page.nextOffset == 0
  {
  }

  /** How far a cursor is from the end: blocks below it, and offsets left in its block. */
  function Measure(cursor: Cursor): int
    requires cursor.beforeBlock.Some?
  {
    (cursor.beforeBlock.value + 1) * (MAX_SAFE_INTEGER + 1) - cursor.offset
  }

  /** Every accepted cursor is below the block, or further on in it. */
  lemma AcceptedAdvances(page: Page, previous: Cursor)
    requires NextCursor(page, previous).Success? && NextCursor(page, previous).value.Some?
    ensures
      var next := NextCursor(page, previous).value.value;
      && next.beforeBlock.Some? && 0 <= next.beforeBlock.value <= page.toBlock && 0 <= next.offset <= MAX_SAFE_INTEGER
      && next.blockSpan == Some(page.blockSpan)
      && (|| (next.beforeBlock.value == page.toBlock && next.offset > previous.offset)
          || (next.beforeBlock.value == page.fromBlock - 1 && next.offset == 0))
  {
  }

  /** The cursors a client follows, each accepted after the page before it. */
  ghost predicate Followed(cursors: seq<Cursor>, pages: seq<Page>) {
    && |cursors| == |pages| + 1
    && forall i :: 0 <= i < |pages| ==> NextCursor(pages[i], cursors[i]) == Success(Some(cursors[i + 1]))
  }

  /** Whatever the server sends, a client cannot be led on for ever. */
  lemma {:induction false} FollowingEnds(cursors: seq<Cursor>, pages: seq<Page>)
    requires Followed(cursors, pages) && cursors[0].beforeBlock.Some? && cursors[0].beforeBlock.value >= 0
    requires 0 <= cursors[0].offset <= MAX_SAFE_INTEGER
    ensures |pages| <= Measure(cursors[0])
  {
    if pages != [] {
      assert NextCursor(pages[0], cursors[0]) == Success(Some(cursors[1]));
      AcceptedIsConsistent(pages[0], cursors[0]);
      AcceptedAdvances(pages[0], cursors[0]);
      forall i | 0 <= i < |pages[1..]|
        ensures NextCursor(pages[1..][i], cursors[1..][i]) == Success(Some(cursors[1..][i + 1]))
      {
        assert NextCursor(pages[i + 1], cursors[i + 1]) == Success(Some(cursors[i + 2]));
      }
      FollowingEnds(cursors[1..], pages[1..]);
    }
  }
}
