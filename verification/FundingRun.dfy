/** The funding coverage loop of app/orchestrator.py over the event table and the checkpoint, and its whole runs. */
module FundingRun {
  import opened Basics
  import opened Paging
  import opened Funding

  /** The log endpoint: one transport for every requested window. */
  type Exchange = (int, int) -> Transport<Record>

  type Listings = (int, int) -> Book<Record>

  function IdsOf(records: seq<Record>): set<string> {
    set r <- records :: r.id
  }

  ghost predicate DistinctRecords(records: seq<Record>) {
    forall i, j :: 0 <= i < j < |records| ==> records[i].id != records[j].id
  }

  /** The records whose id is neither known nor repeated earlier in the list. */
  function Unrecorded(known: set<string>, records: seq<Record>): seq<Record>
    decreases |records|
  {
    if records == [] then []
    else if records[0].id in known then Unrecorded(known, records[1..])
    else [records[0]] + Unrecorded(known + {records[0].id}, records[1..])
  }

  lemma {:induction false} UnrecordedAreNew(known: set<string>, records: seq<Record>)
    ensures var news := Unrecorded(known, records);
      && DistinctRecords(news)
      && (forall r <- news :: r in records && r.id !in known)
      && (forall r <- records :: r.id in known || r.id in IdsOf(news))
    decreases |records|
  {
    if records == [] {
    } else {
      var head, tail := records[0], records[1..];
      if head.id in known {
        UnrecordedAreNew(known, tail);
      } else {
        UnrecordedAreNew(known + {head.id}, tail);
        var rest := Unrecorded(known + {head.id}, tail);
        assert forall r :: r in [head] + rest <==> r == head || r in rest;
        assert IdsOf([head] + rest) == {head.id} + IdsOf(rest);
      }
    }
  }

  // ---- what the exchange settled ----

  ghost predicate UniqueIds(settlements: set<Record>) {
    forall a, b :: a in settlements && b in settlements && a.id == b.id ==> a == b
  }

  /** A listing of a window whose end has passed: its pages hold settlements of that window only, and all of
      them once it is walked to its end. */
  ghost predicate ListsWindow(book: Book<Record>, settlements: set<Record>, start: int, end: int) {
    && (forall c :: forall r <- book(c).0 :: r in settlements && start <= r.time <= end)
    && (forall n: nat :: Walk(book, "", n).Some? ==>
          forall r <- settlements :: start <= r.time <= end ==> r in Walk(book, "", n).value)
  }

  ghost predicate Truthful(exchange: Exchange, books: Listings, settlements: set<Record>, now: int) {
    forall start, end :: end <= now ==>
      Faithful(exchange(start, end), books(start, end)) && ListsWindow(books(start, end), settlements, start, end)
  }

  ghost predicate Covered(events: seq<Record>, settlements: set<Record>, from: int, to: int) {
    forall r <- settlements :: from <= r.time <= to ==> r in events
  }

  // ---- the persisted state ----

  datatype Coverage = Coverage(events: seq<Record>, checkpoint: Option<int>)

  /** Where a collection cycle at `now` starts. */
  function From(checkpoint: Option<int>, now: int): int {
    match checkpoint case Some(t) => t case None => now - WINDOW
  }

  ghost predicate Recorded(c: Coverage, settlements: set<Record>) {
    DistinctRecords(c.events) && forall r <- c.events :: r in settlements
  }

  /** What one cycle may do to the persisted state. */
  ghost predicate Cycle(c: Coverage, c': Coverage, now: int, settlements: set<Record>) {
    var from := From(c.checkpoint, now);
    && c.events <= c'.events
    && Recorded(c', settlements)
    && (forall r <- c'.events :: r in c.events || from <= r.time)
    && (c'.checkpoint == c.checkpoint
        || (c'.checkpoint.Some? && from < c'.checkpoint.value <= now
            && Covered(c'.events, settlements, from, c'.checkpoint.value)))
  }

  lemma {:induction false} RecordingAddsTheMissing(events: seq<Record>, records: seq<Record>, settlements: set<Record>)
    requires UniqueIds(settlements) && Recorded(Coverage(events, None), settlements)
    requires forall r <- records :: r in settlements
    ensures var after := events + Unrecorded(IdsOf(events), records);
      && Recorded(Coverage(after, None), settlements)
      && (forall r :: r in after <==> r in events || r in records)
  {
    var news := Unrecorded(IdsOf(events), records);
    UnrecordedAreNew(IdsOf(events), records);
    var after := events + news;
    forall i, j | 0 <= i < j < |after|
      ensures after[i].id != after[j].id
    {
      if i < |events| <= j {
        assert after[j] in news && after[i].id in IdsOf(events);
      }
    }
    forall r | r in records
      ensures r in after
    {
      if r.id in IdsOf(events) {
        var e :| e in events && e.id == r.id;
        assert e == r;
      } else {
        var e :| e in news && e.id == r.id;
        assert e == r;
      }
    }
  }

  class Collector {
    const pollInterval: int
    const maxPages: nat
    var events: seq<Record>
    var checkpoint: Option<int>
    var lastPollAt: Option<int>

    constructor (pollInterval: int, maxPages: nat)
      requires maxPages > 0
      ensures this.pollInterval == pollInterval && this.maxPages == maxPages
      ensures View() == Coverage([], None) && lastPollAt == None
    {
      this.pollInterval, this.maxPages := pollInterval, maxPages;
      events, checkpoint, lastPollAt := [], None, None;
    }

    function View(): Coverage
      reads this
    {
      Coverage(events, checkpoint)
    }

    /** record_new_funding_events: appends each record whose id is not there yet, once. */
    method RecordNew(records: seq<Record>)
      modifies `events
      ensures events == old(events) + Unrecorded(IdsOf(old(events)), records)
    {
      var known := IdsOf(events);
      var news: seq<Record> := [];
      for i := 0 to |records|
        invariant Unrecorded(IdsOf(events), records) == news + Unrecorded(known, records[i..])
      {
        var record := records[i];
        assert records[i..][1..] == records[i + 1..];
        if record.id !in known {
          news := news + [record];
          known := known + {record.id};
        }
      }
      events := events + news;
    }

    /** advance_funding_checkpoint: never backwards. */
    method Advance(coveredUntil: int)
      modifies `checkpoint
      ensures checkpoint.Some? && coveredUntil <= checkpoint.value
      ensures old(checkpoint).Some? ==> old(checkpoint).value <= checkpoint.value
      ensures checkpoint == old(checkpoint) || checkpoint == Some(coveredUntil)
    {
      if checkpoint.None? || coveredUntil > checkpoint.value {
        checkpoint := Some(coveredUntil);
      }
    }

    /** One window: collect, persist whatever was validated, and say whether it was complete. */
    method CollectWindow(exchange: Exchange, start: int, end: int, ghost books: Listings,
                         ghost settlements: set<Record>)
      returns (complete: bool, raised: bool)
      requires maxPages > 0
      modifies `events
      ensures old(events) <= events
      ensures raised ==> events == old(events) && !complete
      ensures WindowOutcome(old(events), events, complete, exchange(start, end), books(start, end), settlements, start, end)
    {
      ghost var before := events;
      ghost var read: nat;
      var records: seq<Record>;
      records, complete, raised, read := ListFunding(exchange(start, end), maxPages, books(start, end));
      if raised {
        WindowSettled(before, records, complete, exchange(start, end), books(start, end), settlements, start, end, maxPages, 0);
        return;
      }
      if records != [] {
        RecordNew(records);
      }
      WindowSettled(before, records, complete, exchange(start, end), books(start, end), settlements, start, end, maxPages, read);
    }

    /** _maybe_collect_funding: chronological windows from the checkpoint to now, stopping at the first one that is
        not complete; the checkpoint follows complete windows only. */
    method Collect(exchange: Exchange, now: int, ghost books: Listings, ghost settlements: set<Record>)
      returns (failed: bool)
      requires maxPages > 0
      modifies `events, `checkpoint, `lastPollAt
      ensures old(lastPollAt).Some? && now - old(lastPollAt).value < pollInterval ==> View() == old(View()) && !failed
      ensures old(events) <= events
      ensures old(checkpoint).Some? ==> checkpoint.Some? && old(checkpoint).value <= checkpoint.value
      ensures UniqueIds(settlements) && Truthful(exchange, books, settlements, now) && Recorded(old(View()), settlements) ==>
        Cycle(old(View()), View(), now, settlements)
      ensures !failed && (old(lastPollAt).None? || now - old(lastPollAt).value >= pollInterval) ==>
        checkpoint.Some? && now <= checkpoint.value
    {
      failed := false;
      if lastPollAt.Some? && now - lastPollAt.value < pollInterval {
        return;
      }
      lastPollAt := Some(now);
      ghost var before := View();
      ghost var honest := UniqueIds(settlements) && Truthful(exchange, books, settlements, now) && Recorded(before, settlements);
      var from := From(checkpoint, now);
      var start := from;
      while start < now
        invariant from <= start && (start <= now || start == from)
        invariant checkpoint == if start == from then before.checkpoint else Some(start)
        invariant before.events <= events
        invariant honest ==> Progress(before, events, from, start, settlements)
        decreases now - start
      {
        var end := if start + WINDOW < now then start + WINDOW else now;
        ghost var had := events;
        var complete, raised := CollectWindow(exchange, start, end, books, settlements);
        if honest {
          WindowExtends(before, had, events, complete, from, start, end, exchange, books, settlements, now);
        }
        if raised || !complete {
          failed := true;
          return;
        }
        Advance(end);
        start := end;
      }
    }
  }

  /** What one window leaves behind when the exchange is truthful about it. */
  ghost predicate WindowOutcome(had: seq<Record>, have: seq<Record>, complete: bool, get: Transport<Record>,
                                book: Book<Record>,
                                settlements: set<Record>, start: int, end: int) {
    UniqueIds(settlements) && Recorded(Coverage(had, None), settlements)
    && Faithful(get, book) && ListsWindow(book, settlements, start, end) ==>
      && Recorded(Coverage(have, None), settlements)
      && (forall r <- have :: r in had || start <= r.time <= end)
      && (complete ==> Covered(have, settlements, start, end))
  }

  lemma {:induction false} WindowSettled(had: seq<Record>, records: seq<Record>, complete: bool, get: Transport<Record>,
                                         book: Book<Record>,
                      settlements: set<Record>, start: int, end: int, maxPages: nat, read: nat)
    requires records == [] || records == Gathered(get, read)
    requires Faithful(get, book) && complete ==> Walk(book, "", maxPages) == Some(records)
    ensures WindowOutcome(had, had + Unrecorded(IdsOf(had), records), complete, get, book, settlements, start, end)
  {
    if UniqueIds(settlements) && Recorded(Coverage(had, None), settlements)
       && Faithful(get, book) && ListsWindow(book, settlements, start, end) {
      forall r | r in records
        ensures r in settlements && start <= r.time <= end
      {
        GatheredRowsAreGenuine(get, book, read, r);
      }
      RecordingAddsTheMissing(had, records, settlements);
    }
  }

  /** The loop so far: everything from the cycle's start up to `start` is recorded. */
  ghost predicate Progress(before: Coverage, events: seq<Record>, from: int, start: int, settlements: set<Record>) {
    && Recorded(Coverage(events, None), settlements)
    && (forall r <- events :: r in before.events || from <= r.time)
    && (start != from ==> from < start && Covered(events, settlements, from, start))
  }

  lemma {:induction false} WindowExtends(before: Coverage, had: seq<Record>, have: seq<Record>, complete: bool,
                                         from: int, start: int, end: int,
                      exchange: Exchange, books: Listings, settlements: set<Record>, now: int)
    requires UniqueIds(settlements) && Truthful(exchange, books, settlements, now) && from <= start < end <= now
    requires Progress(before, had, from, start, settlements) && had <= have
    requires WindowOutcome(had, have, complete, exchange(start, end), books(start, end), settlements, start, end)
    ensures Progress(before, have, from, start, settlements)
    ensures complete ==> Progress(before, have, from, end, settlements)
  {
  }

  // ---- whole runs ----

  /** States of the tables and the instants of the cycles between them, from an empty database. Restarts leave the
      tables alone, so they need no step of their own. */
  ghost predicate Run(cs: seq<Coverage>, nows: seq<int>, settlements: set<Record>) {
    && |cs| == |nows| + 1
    && cs[0] == Coverage([], None)
    && forall i, j :: 0 <= i < |nows| && j == i + 1 ==> Cycle(cs[i], cs[j], nows[i], settlements)
  }

  /** The cycle that completed the very first window. */
  ghost predicate Anchored(cs: seq<Coverage>, nows: seq<int>, k: nat) {
    k < |nows| && k + 1 < |cs| && cs[k].checkpoint.None? && cs[k + 1].checkpoint.Some?
  }

  lemma {:induction false} RecordsStayDistinct(cs: seq<Coverage>, nows: seq<int>, settlements: set<Record>, j: nat)
    requires Run(cs, nows, settlements) && j < |cs|
    ensures Recorded(cs[j], settlements)
    decreases j
  {
    if j == 0 {
    } else {
      RecordsStayDistinct(cs, nows, settlements, j - 1);
      assert Cycle(cs[j - 1], cs[j], nows[j - 1], settlements);
    }
  }

  lemma {:induction false} CheckpointNeverMovesBack(cs: seq<Coverage>, nows: seq<int>, settlements: set<Record>, i: nat,
                                                    j: nat)
    requires Run(cs, nows, settlements) && i <= j < |cs| && cs[i].checkpoint.Some?
    ensures cs[j].checkpoint.Some? && cs[i].checkpoint.value <= cs[j].checkpoint.value
    decreases j
  {
    if i == j {
    } else {
      CheckpointNeverMovesBack(cs, nows, settlements, i, j - 1);
      assert Cycle(cs[j - 1], cs[j], nows[j - 1], settlements);
    }
  }

  lemma {:induction false} CoverageFromTheAnchor(cs: seq<Coverage>, nows: seq<int>, settlements: set<Record>, k: nat,
                                                 j: nat)
    requires Run(cs, nows, settlements) && Anchored(cs, nows, k) && k < j < |cs|
    ensures cs[j].checkpoint.Some? && nows[k] - WINDOW < cs[j].checkpoint.value
    ensures Covered(cs[j].events, settlements, nows[k] - WINDOW, cs[j].checkpoint.value)
    ensures forall r <- cs[j].events :: r in cs[k].events || nows[k] - WINDOW <= r.time
    decreases j
  {
    assert Cycle(cs[j - 1], cs[j], nows[j - 1], settlements);
    if j == k + 1 {
    } else {
      CoverageFromTheAnchor(cs, nows, settlements, k, j - 1);
      CheckpointNeverMovesBack(cs, nows, settlements, j - 1, j);
    }
  }

  /** Funding coverage, exactly. Once a first window has completed, in cycle k, a settlement up to the checkpoint is
      recorded if and only if it is not older than the start of that window or had been collected before it; and
      nothing is recorded twice or invented. Before that first completion a failed cycle therefore moves the start
      of what will ever be covered. */
  lemma {:induction false} FundingIsRecordedExactlyOnce(cs: seq<Coverage>, nows: seq<int>, settlements: set<Record>,
                                                        k: nat, j: nat, r: Record)
    requires Run(cs, nows, settlements) && Anchored(cs, nows, k) && k < j < |cs|
    requires r in settlements
    ensures cs[j].checkpoint.Some?
    ensures r.time <= cs[j].checkpoint.value ==>
      (r in cs[j].events <==> nows[k] - WINDOW <= r.time || r in cs[k].events)
    ensures r in cs[j].events ==> multiset(cs[j].events)[r] == 1
  {
    CoverageFromTheAnchor(cs, nows, settlements, k, j);
    RecordsStayDistinct(cs, nows, settlements, j);
    KeptBetween(cs, nows, settlements, k, j);
    if r in cs[j].events {
      DistinctMeansOnce(cs[j].events, r);
    }
  }

  lemma {:induction false} KeptBetween(cs: seq<Coverage>, nows: seq<int>, settlements: set<Record>, i: nat, j: nat)
    requires Run(cs, nows, settlements) && i <= j < |cs|
    ensures cs[i].events <= cs[j].events
    decreases j
  {
    if i == j {
    } else {
      KeptBetween(cs, nows, settlements, i, j - 1);
      assert Cycle(cs[j - 1], cs[j], nows[j - 1], settlements);
    }
  }

  lemma {:induction false} DistinctMeansOnce(records: seq<Record>, r: Record)
    requires DistinctRecords(records) && r in records
    ensures multiset(records)[r] == 1
  {
    var i :| 0 <= i < |records| && records[i] == r;
    assert records == records[..i] + [r] + records[i + 1..];
    assert r !in records[..i] && r !in records[i + 1..];
  }
}
