/** Whole runs of Safe discovery: pages served one after another, for the cursors the client takes
    from them. */
module DiscoveryRuns {
  import opened Wrappers
  import opened LogDiscovery

  datatype Visit = Visit(cursor: Cursor, latest: nat, page: Page)

  /** Pages served one after another, each for the cursor the client took from the page before.
      Failed attempts leave the cursor alone and do not appear. */
  ghost predicate Run(chain: seq<Log>, visits: seq<Visit>) {
    && (forall i :: 0 <= i < |visits| ==> PageOf(chain, visits[i].cursor, visits[i].latest, visits[i].page))
    && (forall i :: 0 < i < |visits| ==> Linked(visits, i))
  }

  ghost predicate Linked(visits: seq<Visit>, i: nat)
    requires 0 < i < |visits|
  {
    NextCursor(visits[i - 1].page, visits[i - 1].cursor) == Success(Some(visits[i].cursor))
  }

  ghost function AllVisited(chain: seq<Log>, visits: seq<Visit>): seq<Log> {
    if visits == [] then []
    else Visited(chain, visits[0].cursor, visits[0].page) + AllVisited(chain, visits[1..])
  }

  /** What is still to be seen at a page: everything up to its last block, past the offset. */
  ghost function Ahead(chain: seq<Log>, visit: Visit): seq<Log> {
    var below := Listing(chain, 0, visit.page.toBlock);
    if 0 <= visit.cursor.offset <= |below| then below[visit.cursor.offset..] else []
  }

  ghost predicate Served(chain: seq<Log>, visit: Visit) {
    PageOf(chain, visit.cursor, visit.latest, visit.page)
  }

  /** What is left after a page: nothing, or everything up to the next block, past the next offset. */
  ghost function Rest(chain: seq<Log>, page: Page): seq<Log> {
    if page.nextBeforeBlock.None? then []
    else
      var below := Listing(chain, 0, page.nextBeforeBlock.value);
      if page.nextOffset <= |below| then below[page.nextOffset..] else []
  }

  lemma VisitConsumes(chain: seq<Log>, visit: Visit)
    requires Descending(chain) && Served(chain, visit)
    ensures Ahead(chain, visit) == Visited(chain, visit.cursor, visit.page) + Rest(chain, visit.page)
  {
    var from, to, offset: nat := visit.page.fromBlock as int, visit.page.toBlock as int, visit.cursor.offset;
    var all, range, older := Listing(chain, 0, to), Listing(chain, from, to), Listing(chain, 0, from - 1);
    var end := Min(offset + PAGE_SIZE, |range|);
    assert all == range + older by { ListingSplit(chain, from, to); }
    assert Ahead(chain, visit) == all[offset..];
    assert Visited(chain, visit.cursor, visit.page) == range[offset..end];
    Consume(range, older, offset, end);
    if end < |range| {
      assert Rest(chain, visit.page) == all[end..];
    } else {
      assert older == Rest(chain, visit.page) by {
        if from == 0 { ListingEmpty(chain, from - 1); }
      }
    }
  }

  lemma Consume(range: seq<Log>, older: seq<Log>, offset: nat, end: nat)
    requires offset <= end <= |range|
    ensures (range + older)[offset..] == range[offset..end] + (range + older)[end..]
    ensures end == |range| ==> (range + older)[end..] == older && older[0..] == older
  {
  }

  lemma NextVisitAhead(chain: seq<Log>, visits: seq<Visit>, i: nat)
    requires Descending(chain) && Run(chain, visits) && i + 1 < |visits|
    ensures !visits[i].page.complete
    ensures Ahead(chain, visits[i]) == Visited(chain, visits[i].cursor, visits[i].page) + Ahead(chain, visits[i + 1])
  {
    VisitConsumes(chain, visits[i]);
    ClientAcceptsPage(chain, visits[i].cursor, visits[i].latest, visits[i].page);
    assert Linked(visits, i + 1);
    assert Served(chain, visits[i + 1]);
    assert Ahead(chain, visits[i + 1]) == Rest(chain, visits[i].page);
  }

  /** At every point of a run, what has been visited and what is ahead make up the whole history. */
  lemma {:induction false} RunInvariant(chain: seq<Log>, visits: seq<Visit>, k: nat)
    requires Descending(chain) && Run(chain, visits) && k < |visits|
    ensures Ahead(chain, visits[0]) == AllVisited(chain, visits[..k]) + Ahead(chain, visits[k])
  {
    if k == 0 {
      assert visits[..0] == [];
    } else {
      var seen := Visited(chain, visits[k - 1].cursor, visits[k - 1].page);
      RunInvariant(chain, visits, k - 1);
      NextVisitAhead(chain, visits, k - 1);
      AllVisitedNext(chain, visits, k);
      Join(AllVisited(chain, visits[..k - 1]), seen, Ahead(chain, visits[k]));
    }
  }

  lemma AllVisitedNext(chain: seq<Log>, visits: seq<Visit>, k: nat)
    requires 0 < k <= |visits|
    ensures AllVisited(chain, visits[..k])
         == AllVisited(chain, visits[..k - 1]) + Visited(chain, visits[k - 1].cursor, visits[k - 1].page)
  {
    assert visits[..k] == visits[..k - 1] + [visits[k - 1]];
    AllVisitedSnoc(chain, visits[..k - 1], visits[k - 1]);
  }

  lemma Join(a: seq<Log>, b: seq<Log>, c: seq<Log>)
    ensures a + (b + c) == a + b + c
  {
  }

  lemma {:induction false} AllVisitedSnoc(chain: seq<Log>, visits: seq<Visit>, last: Visit)
    ensures AllVisited(chain, visits + [last])
         == AllVisited(chain, visits) + Visited(chain, last.cursor, last.page)
  {
    if visits == [] {
      assert visits + [last] == [last];
    } else {
      assert (visits + [last])[1..] == visits[1..] + [last];
      AllVisitedSnoc(chain, visits[1..], last);
    }
  }

  /** A run that starts at offset 0 and ends complete visits every log at or below its starting
      block, each once, newest first, whatever ranges were rejected on the way. */
  lemma CompleteRunVisitsAll(chain: seq<Log>, visits: seq<Visit>)
    requires Descending(chain) && Run(chain, visits) && visits != []
    requires visits[0].cursor.offset == 0 && visits[|visits| - 1].page.complete
    ensures AllVisited(chain, visits) == Listing(chain, 0, visits[0].page.toBlock)
    ensures
      var visited := AllVisited(chain, visits);
      forall i, j :: 0 <= i < j < |visited| ==>
        visited[i].block > visited[j].block
        || (visited[i].block == visited[j].block && visited[i].index > visited[j].index)
    ensures forall log :: log in AllVisited(chain, visits) <==> log in chain && log.block <= visits[0].page.toBlock
  {
    VisitsListing(chain, visits);
    ListingDescending(chain, 0, visits[0].page.toBlock);
    forall log ensures log in AllVisited(chain, visits) <==> log in chain && log.block <= visits[0].page.toBlock {
      ListingMember(chain, 0, visits[0].page.toBlock, log);
    }
  }

  lemma VisitsListing(chain: seq<Log>, visits: seq<Visit>)
    requires Descending(chain) && Run(chain, visits) && visits != []
    requires visits[0].cursor.offset == 0 && visits[|visits| - 1].page.complete
    ensures AllVisited(chain, visits) == Listing(chain, 0, visits[0].page.toBlock)
  {
    var n := |visits| - 1;
    var last := Visited(chain, visits[n].cursor, visits[n].page);
    assert AllVisited(chain, visits) == AllVisited(chain, visits[..n]) + last by {
      assert visits[..n + 1] == visits;
      AllVisitedNext(chain, visits, n + 1);
    }
    assert Ahead(chain, visits[n]) == last by { VisitConsumes(chain, visits[n]); }
    RunInvariant(chain, visits, n);
  }

  lemma RunTail(chain: seq<Log>, visits: seq<Visit>)
    requires Run(chain, visits) && visits != []
    ensures Run(chain, visits[1..])
  {
    var rest := visits[1..];
    forall i | 0 < i < |rest| ensures Linked(rest, i) {
      assert Linked(visits, i + 1);
      assert rest[i] == visits[i + 1] && rest[i - 1] == visits[i];
    }
  }

  /** No run is longer than the logs and blocks it has ahead of it. */
  lemma {:induction false} RunsAreBounded(chain: seq<Log>, visits: seq<Visit>)
    requires Descending(chain) && Run(chain, visits) && visits != []
    ensures |visits| <= |Ahead(chain, visits[0])| + visits[0].page.toBlock + 1
  {
    if |visits| > 1 {
      var rest := visits[1..];
      RunTail(chain, visits);
      RunsAreBounded(chain, rest);
      NextVisitAhead(chain, visits, 0);
      ClientAcceptsPage(chain, visits[0].cursor, visits[0].latest, visits[0].page);
      var page := visits[0].page;
      assert Linked(visits, 1);
      if page.nextBeforeBlock == Some(page.toBlock) {
        assert |Visited(chain, visits[0].cursor, page)| == PAGE_SIZE;
      } else {
        assert visits[1].page.toBlock < page.toBlock;
      }
    }
  }

  // ---------- What a complete run reports ----------

  ghost function AllAccounts(visits: seq<Visit>): seq<Log> {
    if visits == [] then [] else visits[0].page.accounts + AllAccounts(visits[1..])
  }

  ghost function AllUnsupported(visits: seq<Visit>): nat {
    if visits == [] then 0 else visits[0].page.unsupported + AllUnsupported(visits[1..])
  }

  ghost predicate AllExamined(chain: seq<Log>, visits: seq<Visit>, lookup: Log -> Lookup) {
    forall v :: v in visits ==> Examines(v.page, Visited(chain, v.cursor, v.page), lookup)
  }

  lemma {:induction false} OwnedConcat(a: seq<Log>, b: seq<Log>, lookup: Log -> Lookup)
    ensures OwnedOf(a + b, lookup) == OwnedOf(a, lookup) + OwnedOf(b, lookup)
  {
    if a == [] {
      assert a + b == b;
    } else {
      var head := if lookup(a[0]) == Owned then [a[0]] else [];
      assert (a + b)[1..] == a[1..] + b;
      assert OwnedOf(a + b, lookup) == head + OwnedOf(a[1..] + b, lookup);
      OwnedConcat(a[1..], b, lookup);
      Join(head, OwnedOf(a[1..], lookup), OwnedOf(b, lookup));
    }
  }

  lemma {:induction false} UnsupportedConcat(a: seq<Log>, b: seq<Log>, lookup: Log -> Lookup)
    ensures UnsupportedIn(a + b, lookup) == UnsupportedIn(a, lookup) + UnsupportedIn(b, lookup)
  {
    if a == [] {
      assert a + b == b;
    } else {
      assert (a + b)[1..] == a[1..] + b;
      UnsupportedConcat(a[1..], b, lookup);
    }
  }

  lemma {:induction false} ReportsVisited(chain: seq<Log>, visits: seq<Visit>, lookup: Log -> Lookup)
    requires AllExamined(chain, visits, lookup)
    ensures AllAccounts(visits) == OwnedOf(Kept(AllVisited(chain, visits)), lookup)
    ensures AllUnsupported(visits) == UnsupportedIn(Kept(AllVisited(chain, visits)), lookup)
  {
    if visits != [] {
      var first, rest := Visited(chain, visits[0].cursor, visits[0].page), AllVisited(chain, visits[1..]);
      assert visits[0] in visits;
      ReportsVisited(chain, visits[1..], lookup);
      KeptConcat(first, rest);
      OwnedConcat(Kept(first), Kept(rest), lookup);
      UnsupportedConcat(Kept(first), Kept(rest), lookup);
    }
  }

  /** The accounts a complete run lists, page after page, are the owned Safes of the whole history up
      to its starting block, newest first; and it counts every unsupported one. */
  lemma CompleteRunReportsAll(chain: seq<Log>, visits: seq<Visit>, lookup: Log -> Lookup)
    requires Descending(chain) && Run(chain, visits) && visits != [] && AllExamined(chain, visits, lookup)
    requires visits[0].cursor.offset == 0 && visits[|visits| - 1].page.complete
    ensures
      var logs := Kept(Listing(chain, 0, visits[0].page.toBlock));
      AllAccounts(visits) == OwnedOf(logs, lookup) && AllUnsupported(visits) == UnsupportedIn(logs, lookup)
  {
    VisitsListing(chain, visits);
    ReportsVisited(chain, visits, lookup);
  }

  // ---------- Progress and its exact limit ----------

  function CursorAfter(page: Page): Cursor {
    Cursor(page.nextBeforeBlock, page.nextOffset, Some(page.blockSpan))
  }

  /** The page ends beyond offset 100,000 of a range that has more logs. */
  ghost predicate PastLimit(chain: seq<Log>, cursor: Cursor, page: Page) {
    && cursor.offset + PAGE_SIZE > MAX_OFFSET
    && |Listing(chain, page.fromBlock, page.toBlock)| > cursor.offset + PAGE_SIZE
  }

  /** The cursor handed out after a page is accepted, as long as the chain does not shrink, exactly
      unless the page is past the limit; and at its own span its offset lies inside the range, which is
      where it matters that a partly consumed range is never resized. */
  lemma NextCursorAcceptedExactly(chain: seq<Log>, cursor: Cursor, latest: nat, page: Page, later: nat)
    requires PageOf(chain, cursor, latest, page) && !page.complete && latest <= later <= MAX_SAFE_INTEGER
    ensures CursorAccepted(CursorAfter(page), later) <==> !PastLimit(chain, cursor, page)
    ensures page.nextOffset
         <= |Listing(chain, FromBlock(page.nextBeforeBlock.value, page.blockSpan), page.nextBeforeBlock.value)|
  {
    ShrinksWithin(StartSpan(cursor), page.blockSpan);
  }

  lemma {:induction false} ListingAll(chain: seq<Log>, from: int, to: int)
    requires forall log :: log in chain ==> from <= log.block <= to
    ensures Listing(chain, from, to) == chain
  {
    if chain != [] {
      ListingAll(chain[1..], from, to);
      assert chain == [chain[0]] + chain[1..];
    }
  }

  /** `n` logs of one block, newest first. */
  function OneBlock(block: nat, n: nat): seq<Log> {
    seq(n, i requires 0 <= i < n => Log(block, n - i, false, i))
  }

  /** 100,006 logs in one block are enough to be stuck. */
  lemma LimitReached() returns (chain: seq<Log>, cursor: Cursor, page: Page)
    ensures Descending(chain) && PageOf(chain, cursor, 7, page) && PastLimit(chain, cursor, page)
    ensures !page.complete && !CursorAccepted(CursorAfter(page), 7)
  {
    chain, cursor := OneBlock(7, 100_006), Cursor(Some(7), MAX_OFFSET, None);
    page := Page([], 0, 7, 7, Some(7), 100_005, MAX_SPAN, false, 0);
    ListingAll(chain, 0, 7);
    NextCursorAcceptedExactly(chain, cursor, 7, page, 7);
  }

  // ---------- When a run can be completed ----------

  /** The provider answers every range of at most 500 blocks, and a range it answers once it answers
      every time. */
  ghost predicate Obliging(rpc: Rpc) {
    && (forall a: nat, from: nat, to: nat :: to < from + MIN_SPAN ==> rpc.answers(a, from, to))
    && (forall a: nat, b: nat, from: nat, to: nat :: rpc.answers(a, from, to) ==> rpc.answers(b, from, to))
  }

  /** The next page at this cursor, were it asked of this provider. */
  ghost predicate ServedBy(chain: seq<Log>, rpc: Rpc, visit: Visit) {
    && visit.latest == rpc.latest
    && PageOf(chain, visit.cursor, rpc.latest, visit.page) && Answered(rpc, visit.cursor, visit.page.blockSpan)
  }

  ghost predicate FollowedBy(chain: seq<Log>, rpc: Rpc, cursor: Cursor, visits: seq<Visit>) {
    && visits != [] && visits[0].cursor == cursor && Run(chain, visits)
    && forall i :: 0 <= i < |visits| ==> ServedBy(chain, rpc, visits[i])
  }

  /** A page can be served at this cursor. */
  ghost predicate Servable(chain: seq<Log>, rpc: Rpc, cursor: Cursor) {
    exists span :: Answered(rpc, cursor, span) && cursor.offset <= |RangeOf(chain, cursor, rpc.latest, span)|
  }

  lemma {:induction false} SomeAnswer(rpc: Rpc, to: nat, start: nat, k: nat) returns (span: nat)
    requires Obliging(rpc) && 1 <= start && Attempted(0, start, k)
    requires forall j :: 0 <= j < k ==> !Answers(rpc, to, start, j)
    ensures AnsweredWith(rpc, 0, to, start, span)
    decreases SpanAt(start, k)
  {
    span := SpanAt(start, k);
    if Answers(rpc, to, start, k) {
      assert FirstAnswer(rpc, 0, to, start, k);
    } else {
      assert span > MIN_SPAN by {
        assert span <= MIN_SPAN ==> to < FromBlock(to, span) + MIN_SPAN;
      }
      span := SomeAnswer(rpc, to, start, k + 1);
    }
  }

  lemma FreshCursorServable(chain: seq<Log>, rpc: Rpc, cursor: Cursor)
    requires Obliging(rpc) && CursorAccepted(cursor, rpc.latest) && cursor.offset == 0
    ensures Servable(chain, rpc, cursor)
  {
    var span := SomeAnswer(rpc, ToBlock(cursor, rpc.latest), StartSpan(cursor), 0);
    assert Answered(rpc, cursor, span);
  }

  /** A provider that answers ranges of at most 500 blocks lets every cursor of a run be served,
      however the spans shrank before. */
  lemma NextServable(chain: seq<Log>, rpc: Rpc, visit: Visit)
    requires Descending(chain) && Obliging(rpc) && ServedBy(chain, rpc, visit)
    requires !visit.page.complete && !PastLimit(chain, visit.cursor, visit.page)
    ensures Servable(chain, rpc, CursorAfter(visit.page))
  {
    var cursor, page, next := visit.cursor, visit.page, CursorAfter(visit.page);
    NextCursorAcceptedExactly(chain, cursor, rpc.latest, page, rpc.latest);
    if next.offset == 0 {
      FreshCursorServable(chain, rpc, next);
    } else {
      var k: nat :| FirstAnswer(rpc, cursor.offset, page.toBlock, StartSpan(cursor), k)
                    && page.blockSpan == SpanAt(StartSpan(cursor), k);
      assert Answers(rpc, page.toBlock, StartSpan(cursor), k);
      assert FirstAnswer(rpc, next.offset, page.toBlock, page.blockSpan, 0);
      assert Answered(rpc, next, page.blockSpan);
    }
  }

  /** The page at a cursor, for a given span; who owns what does not matter here. */
  ghost function PageAt(chain: seq<Log>, cursor: Cursor, latest: nat, span: nat): Page
    requires CursorAccepted(cursor, latest)
  {
    var to: nat := ToBlock(cursor, latest);
    var from := FromBlock(to, span);
    var range := Listing(chain, from, to);
    var end := Min(cursor.offset + PAGE_SIZE, |range|);
    var next := if end < |range| then Some(to) else if from == 0 then None else Some(from - 1);
    Page([], from, to, latest, next, if end < |range| then end else 0, span, next.None?, 0)
  }

  lemma ServeOne(chain: seq<Log>, rpc: Rpc, cursor: Cursor) returns (visit: Visit)
    requires Servable(chain, rpc, cursor)
    ensures visit.cursor == cursor && ServedBy(chain, rpc, visit)
  {
    var span: nat :| Answered(rpc, cursor, span) && cursor.offset <= |RangeOf(chain, cursor, rpc.latest, span)|;
    var k: nat :| FirstAnswer(rpc, cursor.offset, ToBlock(cursor, rpc.latest), StartSpan(cursor), k)
                  && span == SpanAt(StartSpan(cursor), k);
    AttemptedShrinks(cursor.offset, StartSpan(cursor), k);
    visit := Visit(cursor, rpc.latest, PageAt(chain, cursor, rpc.latest, span));
  }

  ghost function Remaining(chain: seq<Log>, visit: Visit): nat {
    |Ahead(chain, visit)| + visit.page.toBlock
  }

  lemma LinkNext(chain: seq<Log>, rpc: Rpc, visit: Visit, next: Visit)
    requires Descending(chain) && ServedBy(chain, rpc, visit) && ServedBy(chain, rpc, next)
    requires !visit.page.complete && next.cursor == CursorAfter(visit.page)
    ensures Run(chain, [visit, next]) && Linked([visit, next], 1)
    ensures Remaining(chain, next) < Remaining(chain, visit)
  {
    ClientAcceptsPage(chain, visit.cursor, visit.latest, visit.page);
    assert Linked([visit, next], 1);
    NextVisitAhead(chain, [visit, next], 0);
    if visit.page.nextBeforeBlock == Some(visit.page.toBlock) {
      assert |Visited(chain, visit.cursor, visit.page)| == PAGE_SIZE;
    }
  }

  /** Follow the cursors until the history is complete or the limit is met. */
  lemma {:induction false} Follow(chain: seq<Log>, rpc: Rpc, visit: Visit) returns (visits: seq<Visit>)
    requires Descending(chain) && Obliging(rpc) && ServedBy(chain, rpc, visit)
    ensures FollowedBy(chain, rpc, visit.cursor, visits) && visits[0] == visit
    ensures var last := visits[|visits| - 1]; last.page.complete || PastLimit(chain, last.cursor, last.page)
    decreases Remaining(chain, visit)
  {
    if visit.page.complete || PastLimit(chain, visit.cursor, visit.page) {
      visits := [visit];
    } else {
      NextServable(chain, rpc, visit);
      var next := ServeOne(chain, rpc, CursorAfter(visit.page));
      LinkNext(chain, rpc, visit, next);
      var rest := Follow(chain, rpc, next);
      visits := [visit] + rest;
      Prepend(chain, rpc, visit, rest);
    }
  }

  lemma Prepend(chain: seq<Log>, rpc: Rpc, visit: Visit, rest: seq<Visit>)
    requires rest != [] && FollowedBy(chain, rpc, rest[0].cursor, rest) && ServedBy(chain, rpc, visit)
    requires Linked([visit, rest[0]], 1)
    ensures FollowedBy(chain, rpc, visit.cursor, [visit] + rest)
  {
    var visits := [visit] + rest;
    forall i | 0 < i < |visits| ensures Linked(visits, i) {
      assert visits[i] == rest[i - 1];
      if i > 1 { assert Linked(rest, i - 1) && visits[i - 1] == rest[i - 2]; }
    }
    forall i | 0 <= i < |visits| ensures ServedBy(chain, rpc, visits[i]) {
      if i > 0 { assert ServedBy(chain, rpc, rest[i - 1]); }
    }
  }

  /** The provider leaves no choice: two runs from the same cursor agree as long as both last. */
  lemma {:induction false} SameRun(chain: seq<Log>, rpc: Rpc, cursor: Cursor, a: seq<Visit>, b: seq<Visit>, i: nat)
    requires FollowedBy(chain, rpc, cursor, a) && FollowedBy(chain, rpc, cursor, b) && i < |a| && i < |b|
    ensures a[i].cursor == b[i].cursor
    ensures a[i].page == b[i].page.(accounts := a[i].page.accounts, unsupported := a[i].page.unsupported)
  {
    if i > 0 {
      SameRun(chain, rpc, cursor, a, b, i - 1);
      assert Linked(a, i) && Linked(b, i);
    }
    assert ServedBy(chain, rpc, a[i]) && ServedBy(chain, rpc, b[i]);
    SamePage(chain, rpc, a[i], b[i]);
  }

  lemma SamePage(chain: seq<Log>, rpc: Rpc, a: Visit, b: Visit)
    requires ServedBy(chain, rpc, a) && ServedBy(chain, rpc, b) && a.cursor == b.cursor
    ensures a.page == b.page.(accounts := a.page.accounts, unsupported := a.page.unsupported)
  {
    AnsweredOnce(rpc, a.cursor.offset, a.page.toBlock, StartSpan(a.cursor), a.page.blockSpan, b.page.blockSpan);
  }

  /** A run goes on after page `i` only if the page is not complete and not past the limit. */
  lemma GoesOn(chain: seq<Log>, rpc: Rpc, cursor: Cursor, visits: seq<Visit>, i: nat)
    requires FollowedBy(chain, rpc, cursor, visits) && i + 1 < |visits|
    ensures !visits[i].page.complete && !PastLimit(chain, visits[i].cursor, visits[i].page)
  {
    var visit := visits[i];
    assert ServedBy(chain, rpc, visit) && ServedBy(chain, rpc, visits[i + 1]) && Linked(visits, i + 1);
    ClientAcceptsPage(chain, visit.cursor, visit.latest, visit.page);
    NextCursorAcceptedExactly(chain, visit.cursor, rpc.latest, visit.page, rpc.latest);
  }

  ghost predicate Completes(chain: seq<Log>, rpc: Rpc, cursor: Cursor) {
    exists visits: seq<Visit> :: FollowedBy(chain, rpc, cursor, visits) && visits[|visits| - 1].page.complete
  }

  ghost predicate StaysWithinLimit(chain: seq<Log>, rpc: Rpc, cursor: Cursor) {
    forall visits: seq<Visit>, i :: FollowedBy(chain, rpc, cursor, visits) && 0 <= i < |visits| ==>
      !PastLimit(chain, visits[i].cursor, visits[i].page)
  }

  /** From a cursor that can be served, a complete run exists exactly when no page on the way is past
      the limit. */
  lemma CompletesExactly(chain: seq<Log>, rpc: Rpc, cursor: Cursor)
    requires Descending(chain) && Obliging(rpc) && Servable(chain, rpc, cursor)
    ensures Completes(chain, rpc, cursor) <==> StaysWithinLimit(chain, rpc, cursor)
  {
    if Completes(chain, rpc, cursor) {
      var full: seq<Visit> :| FollowedBy(chain, rpc, cursor, full) && full[|full| - 1].page.complete;
      forall visits: seq<Visit>, i | FollowedBy(chain, rpc, cursor, visits) && 0 <= i < |visits|
        ensures !PastLimit(chain, visits[i].cursor, visits[i].page)
      {
        CompleteRunIsLongest(chain, rpc, cursor, full, visits, i);
      }
    }
    if StaysWithinLimit(chain, rpc, cursor) {
      var first := ServeOne(chain, rpc, cursor);
      var visits := Follow(chain, rpc, first);
      assert FollowedBy(chain, rpc, cursor, visits) && 0 <= |visits| - 1 < |visits|;
    }
  }

  lemma CompleteRunIsLongest(chain: seq<Log>, rpc: Rpc, cursor: Cursor, full: seq<Visit>, visits: seq<Visit>, i: nat)
    requires FollowedBy(chain, rpc, cursor, full) && full[|full| - 1].page.complete
    requires FollowedBy(chain, rpc, cursor, visits) && i < |visits|
    ensures i < |full| && !PastLimit(chain, visits[i].cursor, visits[i].page)
  {
    var last := |full| - 1;
    if i > last {
      SameRun(chain, rpc, cursor, full, visits, last);
      GoesOn(chain, rpc, cursor, visits, last);
    } else {
      SameRun(chain, rpc, cursor, full, visits, i);
      if i < last {
        GoesOn(chain, rpc, cursor, full, i);
      } else {
        assert ServedBy(chain, rpc, full[i]);
      }
    }
  }
}
