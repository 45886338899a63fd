/** The provider object itself: its fields, its refill loop and one poll of it. */
module MarketProvider {
  import opened Basics
  import opened MarketFeed

  /** The provider's state as a value. */
  datatype Feed = Feed(cursor: Option<int>, queue: seq<Candle>, gap: Option<(int, int)>)

  /** Candles waiting in the queue follow the cursor. */
  ghost predicate QueueFollows(f: Feed, d: int) {
    f.queue != [] ==> f.cursor.Some? && Follows(f.cursor.value, f.queue, d)
  }

  /** The cursor a refill starts from: the provider's own, or the configured first candle's predecessor. */
  function Base(cursor: Option<int>, initialStart: Option<int>, d: int): Option<int> {
    if cursor.Some? then cursor else if initialStart.Some? then Some(initialStart.value - d) else None
  }

  /** What one poll may do, whatever the exchange answers: deliver the candle right after the cursor and
      keep the rest of a contiguous closed batch queued, or deliver nothing and leave the queue empty. */
  ghost predicate PollStep(f: Feed, f': Feed, r: FetchResult, initialStart: Option<int>, d: int, now: int) {
    var base := Base(f.cursor, initialStart, d);
    match r
    case Available(candle) =>
      && f'.cursor == Some(candle.openTime)
      && Follows(candle.openTime, f'.queue, d)
      && (base.Some? ==> candle.openTime == base.value + d)
      && (if f.queue != [] then candle == f.queue[0].(receivedAt := now) && f'.queue == f.queue[1..] && f'.gap == f.gap
          else candle.openTime + d <= now && AllClosed(f'.queue, d, now))
    case _ =>
      && f.queue == [] && f'.queue == []
      && (f'.cursor == f.cursor || f'.cursor == base)
  }

  /** A first window was queued and the cursor stands at its end. */
  ghost predicate Bootstrapped(f: Feed, d: int, now: int) {
    && f.queue != [] && f.cursor == Some(Last(0, f.queue))
    && Follows(f.queue[0].openTime - d, f.queue, d) && AllClosed(f.queue, d, now)
  }

  class Provider {
    const interval: int
    const pageSize: nat
    const maxPages: nat
    const initialStart: Option<int>
    var cursor: Option<int>
    var queue: seq<Candle>
    var gap: Option<(int, int)>
    var consecutiveFailures: nat
    var formingPrice: Option<real>

    function View(): Feed
      reads this
    {
      Feed(cursor, queue, gap)
    }

    ghost predicate Valid()
      reads this
    {
      interval > 0 && pageSize > 0 && maxPages > 0 && QueueFollows(View(), interval)
    }

    constructor (interval: int, pageSize: nat, maxPages: nat, initialStart: Option<int>)
      requires interval > 0 && pageSize > 0 && maxPages > 0
      ensures Valid() && View() == Feed(None, [], None)
      ensures this.interval == interval && this.pageSize == pageSize
      ensures this.maxPages == maxPages && this.initialStart == initialStart
    {
      this.interval, this.pageSize, this.maxPages, this.initialStart := interval, pageSize, maxPages, initialStart;
      cursor, queue, gap, consecutiveFailures, formingPrice := None, [], None, 0, None;
    }

    /** Adopts the last persisted candle, only ever moving the cursor forward. */
    method SyncCursor(persisted: Option<int>)
      modifies `cursor
      ensures cursor == Synced(old(cursor), persisted)
    {
      if persisted.Some? && (cursor.None? || persisted.value > cursor.value) {
        cursor := persisted;
      }
    }

    /** One bounded request: nothing on a transport failure, and an exception when the request fails otherwise or a row
        does not parse. */
    method FetchWindow(serve: Server, n: nat, start: int, end: int) returns (candidates: Option<seq<Row>>, raised: bool)
      modifies `consecutiveFailures
      ensures candidates == if serve(n, start, end).Rows? then Some(Candidates(serve(n, start, end).rows, start, end)) else None
      ensures raised <==> Breaks(serve(n, start, end))
      ensures consecutiveFailures == match serve(n, start, end)
                                     case TransportFailed => old(consecutiveFailures) + 1
                                     case RequestRaised => old(consecutiveFailures)
                                     case Unreadable => 0
                                     case Rows(_) => 0
    {
      match serve(n, start, end)
      case TransportFailed =>
        consecutiveFailures := consecutiveFailures + 1;
        candidates, raised := None, false;
      case RequestRaised =>
        candidates, raised := None, true;
      case Unreadable =>
        consecutiveFailures := 0;
        candidates, raised := None, true;
      case Rows(rows) =>
        consecutiveFailures := 0;
        candidates, raised := Some(Candidates(rows, start, end)), false;
    }

    /** Walks the candidates after cursor c and keeps the contiguous closed prefix. */
    method Accept(c: int, candidates: seq<Row>, now: int) returns (usable: seq<Candle>, found: Option<(int, int)>)
      requires interval > 0
      modifies `formingPrice
      ensures Accepts(c, candidates, interval, now, usable, found)
    {
      usable, found := [], None;
      var prev := c;
      for i := 0 to |candidates|
        invariant |usable| == i && prev == Last(c, usable) && found == None
        invariant Accepts(c, candidates[..i], interval, now, usable, None)
      {
        var row := candidates[i];
        var expected := prev + interval;
        if row.openTime != expected {
          found := Some((expected, row.openTime));
          WalkEnds(c, candidates, interval, now, usable);
          return;
        }
        if now < row.openTime + interval {
          formingPrice := Some(row.close);
          WalkEnds(c, candidates, interval, now, usable);
          return;
        }
        WalkGoesOn(c, candidates, interval, now, usable);
        usable := usable + [Candle(row.openTime, row.close, now)];
        prev := row.openTime;
      }
      assert candidates[..|candidates|] == candidates;
    }

    /** The first walk, with no cursor to follow: from the oldest candidate on, the contiguous closed prefix.
        A candle still forming ends the walk before its continuity is looked at. */
    method AcceptFirst(candidates: seq<Row>, now: int) returns (usable: seq<Candle>, found: Option<(int, int)>)
      requires interval > 0
      modifies `formingPrice
      ensures |usable| <= |candidates|
      ensures forall i :: 0 <= i < |usable| ==> usable[i] == Candle(candidates[i].openTime, candidates[i].close, now)
      ensures usable != [] ==> Follows(usable[0].openTime - interval, usable, interval)
      ensures AllClosed(usable, interval, now)
      ensures |usable| < |candidates| ==>
        var next := candidates[|usable|].openTime;
        if found.Some? then
          usable != [] && found == Some((Last(0, usable) + interval, next)) && next != Last(0, usable) + interval
        else now < next + interval
      ensures |usable| == |candidates| ==> found == None
    {
      usable, found := [], None;
      for i := 0 to |candidates|
        invariant |usable| == i && found == None
        invariant forall k :: 0 <= k < i ==> usable[k] == Candle(candidates[k].openTime, candidates[k].close, now)
        invariant usable != [] ==> Follows(usable[0].openTime - interval, usable, interval)
        invariant AllClosed(usable, interval, now)
      {
        var row := candidates[i];
        if now < row.openTime + interval {
          formingPrice := Some(row.close);
          return;
        }
        if usable != [] && row.openTime != Last(0, usable) + interval {
          found := Some((Last(0, usable) + interval, row.openTime));
          return;
        }
        usable := usable + [Candle(row.openTime, row.close, now)];
      }
    }

    /** First boot without a configured start: one bounded lookback window ending now, from whose oldest
        candle the contiguous closed prefix is queued. */
    method Bootstrap(serve: Server, now: int, ghost book: set<Row>) returns (err: Option<FetchResult>)
      requires Valid() && queue == [] && cursor.None?
      modifies `cursor, `queue, `gap, `consecutiveFailures, `formingPrice
      ensures err.Some? ==> err.value in {RetryableError, NoNewCandle, Raised} && View() == old(View())
      ensures err.None? ==> Bootstrapped(View(), interval, now)
      ensures err == Some(RetryableError) <==> serve(0, now - pageSize * interval, now).TransportFailed?
      ensures err == Some(Raised) <==> Breaks(serve(0, now - pageSize * interval, now))
      ensures Draws(serve, book) ==> AllFrom(book, queue, now)
    {
      var window, raised := FetchWindow(serve, 0, now - pageSize * interval, now);
      if raised {
        return Some(Raised);
      }
      if window.None? {
        return Some(RetryableError);
      }
      var usable, found := AcceptFirst(window.value, now);
      if usable == [] {
        return Some(NoNewCandle);
      }
      if Draws(serve, book) {
        PrefixIsServed(book, serve(0, now - pageSize * interval, now).rows, now - pageSize * interval, now, usable, now);
      }
      queue := usable;
      cursor := Some(Last(0, usable));
      if found.Some? {
        gap := found;
      }
      return None;
    }

    /** What the caller of a poll may claim about the exchange: that it serves rows of a book, that it serves honestly
        candles spaced by the interval beyond the cursor, and that no slot of them is missing. */
    ghost predicate Claims(serve: Server, history: set<int>, book: set<Row>, base: Option<int>, now: int, claim: Claim)
      reads this
    {
      && (claim.draws ==> Draws(serve, book))
      && (claim.readable ==> Readable(serve))
      && (claim.spaced ==> base.Some? && Honest(serve, history, pageSize) && Spaced(history, base.value, interval))
      && (claim.full ==> claim.spaced && HoleFree(history, base.value, interval, now))
    }

    /** Paginates forward from the cursor through bounded windows of exactly pageSize slots. */
    method RefillQueue(serve: Server, now: int, ghost history: set<int>, ghost book: set<Row>, ghost claim: Claim)
      returns (err: Option<FetchResult>)
      requires Valid() && queue == [] && Claims(serve, history, book, Base(cursor, initialStart, interval), now, claim)
      modifies `cursor, `queue, `gap, `consecutiveFailures, `formingPrice
      ensures var base := Base(old(cursor), initialStart, interval);
        if base.Some? then
          && cursor == base && Batch(base.value, queue, interval, now) && |queue| <= maxPages * pageSize
          && (err.Some? ==> queue == [] && gap == old(gap))
        else
          && (err.Some? ==> queue == [] && cursor.None?)
          && (err.None? ==> Bootstrapped(View(), interval, now))
      ensures err.Some? ==> !err.value.Available?
      ensures claim.readable ==> err != Some(Raised)
      ensures claim.draws ==> AllFrom(book, queue, now)
      // Gaps are real, and nothing closed is passed over.
      ensures claim.spaced ==>
        var base := Base(old(cursor), initialStart, interval).value;
        Sincere(history, base, interval, now, pageSize, old(gap), View(), err)
      // A hole-free exchange is drained up to the present or the page cap.
      ensures claim.full ==>
        && err.None? && gap == old(gap)
        && var base := Base(old(cursor), initialStart, interval).value;
           |queue| == AtMost(|Backlog(history, base, interval, now)|, maxPages * pageSize)
    {
      if cursor.None? {
        if initialStart.None? {
          err := Bootstrap(serve, now, book);
          return;
        }
        cursor := Some(initialStart.value - interval);
      }
      err := Drain(serve, now, history, book, cursor.value, claim);
      SlotsAreTheProduct(maxPages, pageSize);
      if claim.full {
        RefillIsComplete(history, cursor.value, interval, now, queue, maxPages * pageSize);
      }
    }

    method Drain(serve: Server, now: int, ghost history: set<int>, ghost book: set<Row>, base: int, ghost claim: Claim)
      returns (err: Option<FetchResult>)
      requires interval > 0 && pageSize > 0 && maxPages > 0 && queue == [] && cursor == Some(base)
      requires Claims(serve, history, book, cursor, now, claim)
      modifies `queue, `gap, `consecutiveFailures, `formingPrice
      ensures Batch(base, queue, interval, now) && |queue| <= Slots(maxPages, pageSize)
      ensures err.Some? ==> queue == [] && gap == old(gap) && !err.value.Available?
      ensures claim.readable ==> err != Some(Raised)
      ensures claim.draws ==> AllFrom(book, queue, now)
      ensures claim.spaced ==> Sincere(history, base, interval, now, pageSize, old(gap), View(), err)
      ensures claim.full ==>
        && err.None? && gap == old(gap)
        && (|queue| == Slots(maxPages, pageSize) || now < Last(base, queue) + 2 * interval)
    {
      var collected, found;
      collected, found, err := Collect(serve, now, history, book, base, claim);
      queue := collected;
      if found.Some? {
        gap := found;
      }
    }

    /** The page loop: what it gathered, the gap that ended it, if one did, or why there is nothing to deliver. */
    method Collect(serve: Server, now: int, ghost history: set<int>, ghost book: set<Row>, base: int, ghost claim: Claim)
      returns (collected: seq<Candle>, found: Option<(int, int)>, err: Option<FetchResult>)
      requires interval > 0 && pageSize > 0 && maxPages > 0 && Claims(serve, history, book, Some(base), now, claim)
      modifies `consecutiveFailures, `formingPrice
      ensures Batch(base, collected, interval, now) && |collected| <= Slots(maxPages, pageSize)
      ensures err.Some? ==> collected == [] && found == None && !err.value.Available?
      ensures claim.readable ==> err != Some(Raised)
      ensures claim.draws ==> AllFrom(book, collected, now)
      ensures claim.spaced ==>
        && (found.Some? ==> RealGap(history, found))
        && (err.Some? ==> err.value.GapDetected? && RealGap(history, Some((err.value.expected, err.value.found))))
        && (err.None? && collected == [] ==> NothingClosed(history, base, interval, now, pageSize))
      ensures claim.full ==>
        && err.None? && found == None
        && (|collected| == Slots(maxPages, pageSize) || now < Last(base, collected) + 2 * interval)
    {
      collected, found, err := [], None, None;
      var c := base;
      var pages := 0;
      while pages < maxPages
        invariant pages <= maxPages && |collected| == Slots(pages, pageSize)
        invariant c == Last(base, collected) && Batch(base, collected, interval, now)
        invariant claim.draws ==> AllFrom(book, collected, now)
        invariant found == None && err == None
        invariant claim.spaced ==> OnTrack(history, base, c)
        decreases maxPages - pages
      {
        var gapHere, usable, failed := NextWindow(serve, pages, c, now, history, book, base, claim);
        SlotsFit(pages, maxPages, pageSize);
        if failed.Some? {
          if collected == [] || failed.value.Raised? {
            return [], None, failed;
          }
          return;
        }
        if usable == [] {
          if gapHere.Some? && collected == [] {
            return [], None, Some(GapDetected(gapHere.value.0, gapHere.value.1));
          }
          return collected, gapHere, None;
        }
        BatchGrows(base, collected, usable, interval, now);
        collected := collected + usable;
        c := usable[|usable| - 1].openTime;
        if gapHere.Some? || |usable| < pageSize {
          return collected, gapHere, None;
        }
        pages := pages + 1;
      }
    }

    /** One window after cursor c: fetched, ordered, filtered and walked. */
    method NextWindow(serve: Server, n: nat, c: int, now: int, ghost history: set<int>, ghost book: set<Row>,
                      ghost base: int, ghost claim: Claim)
      returns (found: Option<(int, int)>, usable: seq<Candle>, failed: Option<FetchResult>)
      requires interval > 0 && pageSize > 0
      requires Claims(serve, history, book, Some(base), now, claim) && (claim.spaced ==> OnTrack(history, base, c))
      modifies `consecutiveFailures, `formingPrice
      ensures failed.Some? ==> found == None && usable == [] && !claim.spaced
      ensures failed == Some(Raised) ==> !claim.readable
      ensures failed in {None, Some(RetryableError), Some(Raised)}
      ensures Batch(c, usable, interval, now) && |usable| <= pageSize
      ensures claim.draws ==> AllFrom(book, usable, now)
      ensures claim.spaced ==> OnTrack(history, base, Last(c, usable)) && (found.Some? ==> RealGap(history, found))
      ensures claim.spaced && usable == [] && found == None ==> NothingClosed(history, c, interval, now, pageSize)
      ensures claim.full ==> found == None && (|usable| < pageSize ==> now < Last(c, usable) + 2 * interval)
    {
      var start, end := c + interval, c + interval + (pageSize - 1) * interval;
      var window, raised := FetchWindow(serve, n, start, end);
      if window.None? {
        return None, [], Some(if raised then Raised else RetryableError);
      }
      usable, found := Accept(c, window.value, now);
      failed := None;
      AcceptedWindow(history, book, base, c, interval, now, pageSize, serve(n, start, end).rows, usable, found, claim);
    }

    method PopFromQueue(now: int) returns (r: FetchResult)
      requires queue != []
      modifies `queue, `cursor
      ensures r == Available(old(queue[0]).(receivedAt := now))
      ensures cursor == Some(old(queue[0]).openTime) && queue == old(queue[1..])
    {
      var candle := queue[0];
      queue := queue[1..];
      cursor := Some(candle.openTime);
      r := Available(candle.(receivedAt := now));
    }

    /** One poll: drain the queue first, refill it when empty, and report a pending gap only after
        everything before it was delivered. */
    method NextCandle(serve: Server, now: int, ghost history: set<int>, ghost book: set<Row>, ghost claim: Claim)
      returns (r: FetchResult)
      requires Valid() && Claims(serve, history, book, Base(cursor, initialStart, interval), now, claim)
      modifies `cursor, `queue, `gap, `consecutiveFailures, `formingPrice
      ensures Valid()
      ensures PollStep(old(View()), View(), r, initialStart, interval, now)
      // The poll raises only when an answer does; what it had collected is then dropped, the cursor kept.
      ensures claim.readable ==> !r.Raised?
      // What is delivered or queued is what the exchange served in this very poll, unless it was queued before.
      ensures claim.draws && old(queue) == [] ==>
        AllFrom(book, queue, now) && (r.Available? ==> AllFrom(book, [r.candle], now))
      // No closed candle is passed over in silence: a poll that finds nothing new found nothing closed in its window.
      ensures claim.spaced && r.NoNewCandle? ==>
        NothingClosed(history, Base(old(cursor), initialStart, interval).value, interval, now, pageSize)
      // Over an exchange whose record does not change, a reported gap is a real one, even one kept pending.
      ensures claim.spaced && GapIsReal(history, old(gap)) ==>
        GapIsReal(history, gap) && (r.GapDetected? ==> RealGap(history, Some((r.expected, r.found))))
      // Against a hole-free exchange a closed candle is never left waiting and no poll reports a gap of its own.
      ensures claim.full && old(queue) == [] && old(gap) == None ==>
        (r.Available? <==> Backlog(history, Base(old(cursor), initialStart, interval).value, interval, now) != {})
    {
      if queue != [] {
        TailFollows(cursor.value, queue, interval);
        r := PopFromQueue(now);
      } else {
        r := PollAfresh(serve, now, history, book, claim);
      }
    }

    /** A poll with nothing queued. */
    method PollAfresh(serve: Server, now: int, ghost history: set<int>, ghost book: set<Row>, ghost claim: Claim)
      returns (r: FetchResult)
      requires Valid() && queue == [] && Claims(serve, history, book, Base(cursor, initialStart, interval), now, claim)
      modifies `cursor, `queue, `gap, `consecutiveFailures, `formingPrice
      ensures Valid()
      ensures PollStep(old(View()), View(), r, initialStart, interval, now)
      ensures claim.readable ==> !r.Raised?
      ensures claim.draws ==> AllFrom(book, queue, now) && (r.Available? ==> AllFrom(book, [r.candle], now))
      ensures claim.spaced && r.NoNewCandle? ==>
        NothingClosed(history, Base(old(cursor), initialStart, interval).value, interval, now, pageSize)
      ensures claim.spaced && GapIsReal(history, old(gap)) ==>
        GapIsReal(history, gap) && (r.GapDetected? ==> RealGap(history, Some((r.expected, r.found))))
      ensures claim.full && old(gap) == None ==>
        (r.Available? <==> Backlog(history, Base(old(cursor), initialStart, interval).value, interval, now) != {})
    {
      var err := RefillQueue(serve, now, history, book, claim);
      if err.Some? {
        return err.value;
      }
      if queue != [] {
        PollDelivers(old(View()), View(), initialStart, interval, now);
        r := PopFromQueue(now);
        return;
      }
      if gap.Some? {
        r := GapDetected(gap.value.0, gap.value.1);
        gap := None;
        return;
      }
      r := NoNewCandle;
    }
  }

  /** A claim about the exchange, so that each promise of a poll names what it needs. */
  datatype Claim = Claim(draws: bool, readable: bool, spaced: bool, full: bool)

  /** What a refill may do over spaced candles: set aside real gaps only, fail only by reporting one, and come back
      with nothing only when nothing closed is in its first window. */
  ghost predicate Sincere(history: set<int>, base: int, d: int, now: int, limit: nat, gap: Option<(int, int)>, f: Feed,
                          err: Option<FetchResult>) {
    && (f.gap != gap ==> RealGap(history, f.gap))
    && (err.Some? ==> err.value.GapDetected? && RealGap(history, Some((err.value.expected, err.value.found))))
    && (err.None? && f.queue == [] ==> NothingClosed(history, base, d, now, limit))
  }

  /** An answer on which fetching a window raises. */
  predicate Breaks(reply: Reply) {
    reply.RequestRaised? || reply.Unreadable?
  }

  ghost predicate Readable(serve: Server) {
    forall n, start, end :: !Breaks(serve(n, start, end))
  }

  /** Everything the exchange ever serves is a row of the book. */
  ghost predicate Draws(serve: Server, book: set<Row>) {
    forall n, start, end :: serve(n, start, end).Rows? ==> forall row <- serve(n, start, end).rows :: row in book
  }

  /** Candles received now, each with the time and price of a row of the book. */
  ghost predicate AllFrom(book: set<Row>, xs: seq<Candle>, now: int) {
    forall x <- xs :: x.receivedAt == now && Row(x.openTime, x.close) in book
  }

  lemma {:induction false} PrefixIsServed(book: set<Row>, rows: seq<Row>, start: int, end: int, usable: seq<Candle>,
                                          now: int)
    requires forall row <- rows :: row in book
    requires var cs := Candidates(rows, start, end);
      |usable| <= |cs| && forall i :: 0 <= i < |usable| ==> usable[i] == Candle(cs[i].openTime, cs[i].close, now)
    ensures AllFrom(book, usable, now)
  {
    var cs := Candidates(rows, start, end);
    CandidatesAreTheWindowRows(rows, start, end);
    forall i | 0 <= i < |usable|
      ensures usable[i].receivedAt == now && Row(usable[i].openTime, usable[i].close) in book
    {
      assert cs[i] in rows;
      assert cs[i] == Row(usable[i].openTime, usable[i].close);
    }
  }

  /** The walk accepts a candidate that is due and closed. */
  lemma {:induction false} WalkGoesOn(c: int, candidates: seq<Row>, d: int, now: int, usable: seq<Candle>)
    requires |usable| < |candidates| && Accepts(c, candidates[..|usable|], d, now, usable, None)
    requires candidates[|usable|].openTime == Last(c, usable) + d && candidates[|usable|].openTime + d <= now
    ensures var (i, row) := (|usable|, candidates[|usable|]);
      Accepts(c, candidates[..i + 1], d, now, usable + [Candle(row.openTime, row.close, now)], None)
  {
    var row := candidates[|usable|];
    var x := Candle(row.openTime, row.close, now);
    FollowsConcat(c, usable, [x], d);
    assert forall y <- usable + [x] :: y in usable || y == x;
  }

  /** The walk ends at a candidate that is not due, which is a gap, or still forming, which is none. */
  lemma {:induction false} WalkEnds(c: int, candidates: seq<Row>, d: int, now: int, usable: seq<Candle>)
    requires |usable| < |candidates| && Accepts(c, candidates[..|usable|], d, now, usable, None)
    requires candidates[|usable|].openTime != Last(c, usable) + d || now < candidates[|usable|].openTime + d
    ensures var (expected, t) := (Last(c, usable) + d, candidates[|usable|].openTime);
      Accepts(c, candidates, d, now, usable, if t != expected then Some((expected, t)) else None)
  {
  }

  /** Delivering the head of a freshly filled queue is a step of the poll. */
  lemma {:induction false} PollDelivers(f: Feed, g: Feed, initialStart: Option<int>, d: int, now: int)
    requires d > 0 && f.queue == [] && g.queue != []
    requires var base := Base(f.cursor, initialStart, d);
      if base.Some? then g.cursor == base && Batch(base.value, g.queue, d, now) else Bootstrapped(g, d, now)
    ensures var (head, tail) := (g.queue[0], g.queue[1..]);
      && Follows(head.openTime, tail, d)
      && PollStep(f, g.(cursor := Some(head.openTime), queue := tail), Available(head.(receivedAt := now)), initialStart, d, now)
  {
    TailFollows(g.queue[0].openTime - d, g.queue, d);
    assert g.queue[0] in g.queue;
  }

  /** What one walk over an answered window establishes, claim by claim. */
  lemma {:induction false} AcceptedWindow(history: set<int>, book: set<Row>, base: int, c: int, d: int, now: int,
                                          limit: nat, rows: seq<Row>, usable: seq<Candle>,
                                          found: Option<(int, int)>, claim: Claim)
    requires d > 0 && limit > 0
    requires Accepts(c, Candidates(rows, c + d, WindowEnd(c, d, limit)), d, now, usable, found)
    requires claim.draws ==> forall row <- rows :: row in book
    requires claim.spaced ==>
      && Spaced(history, base, d) && OnTrack(history, base, c)
      && ServedBy(rows, history, c + d, WindowEnd(c, d, limit), limit)
    requires claim.full ==> claim.spaced && HoleFree(history, base, d, now)
    ensures |usable| <= limit
    ensures claim.draws ==> AllFrom(book, usable, now)
    ensures claim.spaced ==> OnTrack(history, base, Last(c, usable)) && (found.Some? ==> RealGap(history, found))
    ensures claim.spaced && usable == [] && found == None ==> NothingClosed(history, c, d, now, limit)
    ensures claim.full ==> found == None && (|usable| < limit ==> now < Last(c, usable) + 2 * d)
  {
    if claim.draws {
      PrefixIsServed(book, rows, c + d, WindowEnd(c, d, limit), usable, now);
    }
    UsableFitsTheWindow(c, d, now, limit, rows, usable, found);
    if claim.spaced {
      HonestWindowFacts(history, base, c, d, now, limit, rows, usable, found);
      if usable == [] && found == None {
        EmptyWalkSkipsNothing(history, base, c, d, now, limit, rows);
      }
    }
  }

  /** Every candle of the record in the window after the cursor is still forming. */
  ghost predicate NothingClosed(history: set<int>, c: int, d: int, now: int, limit: nat) {
    forall h <- history :: c < h <= WindowEnd(c, d, limit) ==> now < h + d
  }

  lemma {:induction false} EmptyWalkSkipsNothing(history: set<int>, base: int, c: int, d: int, now: int, limit: nat,
                                                 rows: seq<Row>)
    requires d > 0 && limit > 0 && Spaced(history, base, d) && OnTrack(history, base, c)
    requires ServedBy(rows, history, c + d, WindowEnd(c, d, limit), limit)
    requires Accepts(c, Candidates(rows, c + d, WindowEnd(c, d, limit)), d, now, [], None)
    ensures NothingClosed(history, c, d, now, limit)
  {
    assert forall t :: OnTrack(history, c, t) ==> OnTrack(history, base, t);
    forall h | h in history && c < h <= WindowEnd(c, d, limit)
      ensures now < h + d
    {
      NothingWasSkipped(history, c, d, now, limit, rows, [], None, h);
    }
  }

  lemma {:induction false} TailFollows(c: int, xs: seq<Candle>, d: int)
    requires xs != [] && Follows(c, xs, d)
    ensures Follows(xs[0].openTime, xs[1..], d)
  {
  }

  /** The closed candles of the exchange beyond the cursor. */
  function Backlog(history: set<int>, c: int, d: int, now: int): set<int> {
    set h <- history | h > c && h + d <= now
  }

  function AtMost(n: nat, cap: nat): nat {
    if n <= cap then n else cap
  }

  function Times(xs: seq<Candle>): set<int> {
    set x <- xs :: x.openTime
  }

  lemma {:induction false} TimesOfMore(xs: seq<Candle>, x: Candle)
    ensures Times(xs + [x]) == Times(xs) + {x.openTime}
  {
    forall t | t in Times(xs) + {x.openTime}
      ensures t in Times(xs + [x])
    {
      if t == x.openTime {
        assert x in xs + [x];
      } else {
        var y :| y in xs && y.openTime == t;
        assert y in xs + [x];
      }
    }
  }

  lemma {:induction false} TimesAreBounded(c: int, xs: seq<Candle>, d: int, i: nat)
    requires d > 0 && Follows(c, xs, d) && i < |xs|
    ensures c < xs[i].openTime <= Last(c, xs)
    decreases |xs|
  {
    var n := |xs| - 1;
    assert xs[n].openTime == Last(c, xs[..n]) + d;
    if i < n {
      TimesAreBounded(c, xs[..n], d, i);
    } else if n > 0 {
      TimesAreBounded(c, xs[..n], d, n - 1);
    }
  }

  lemma {:induction false} TimesAreDistinct(c: int, xs: seq<Candle>, d: int)
    requires d > 0 && Follows(c, xs, d)
    ensures |Times(xs)| == |xs|
    decreases |xs|
  {
    if xs == [] {
    } else {
      var n := |xs| - 1;
      var front := xs[..n];
      TimesAreDistinct(c, front, d);
      assert xs == front + [xs[n]];
      TimesOfMore(front, xs[n]);
      forall i | 0 <= i < n
        ensures front[i].openTime < xs[n].openTime
      {
        TimesAreBounded(c, front, d, i);
      }
      assert xs[n].openTime !in Times(front);
    }
  }

  /** No real candle opens between the last two of a batch. */
  lemma {:induction false} NoneBeforeTheLast(history: set<int>, c: int, d: int, xs: seq<Candle>, h: int)
    requires d > 0 && Spaced(history, c, d) && Follows(c, xs, d) && xs != []
    requires |xs| > 1 ==> xs[|xs| - 2].openTime in history
    requires h in history && Last(c, xs[..|xs| - 1]) < h <= Last(c, xs)
    ensures h == Last(c, xs)
  {
    var n := |xs| - 1;
    var front := xs[..n];
    if n > 0 {
      TimesAreBounded(c, front, d, n - 1);
    }
    assert OnTrack(history, c, Last(c, front));
  }

  /** A real candle after the cursor and up to the batch's last one is in the batch. */
  lemma {:induction false} NothingBetween(history: set<int>, c: int, d: int, xs: seq<Candle>, h: int)
    requires d > 0 && Spaced(history, c, d) && Follows(c, xs, d)
    requires forall i :: 0 <= i < |xs| ==> xs[i].openTime in history
    requires h in history && c < h <= Last(c, xs)
    ensures h in Times(xs)
    decreases |xs|
  {
    var n := |xs| - 1;
    var front := xs[..n];
    assert xs == front + [xs[n]];
    TimesOfMore(front, xs[n]);
    if h <= Last(c, front) {
      NothingBetween(history, c, d, front, h);
    } else {
      NoneBeforeTheLast(history, c, d, xs, h);
    }
  }

  /** Refill completeness: a batch that follows the cursor and stopped only at the page cap or at the
      present is exactly as long as the closed backlog, up to the cap. */
  lemma {:induction false} RefillIsComplete(history: set<int>, c: int, d: int, now: int, xs: seq<Candle>, cap: nat)
    requires d > 0 && HoleFree(history, c, d, now)
    requires Follows(c, xs, d) && AllClosed(xs, d, now) && |xs| <= cap
    requires |xs| == cap || now < Last(c, xs) + 2 * d
    ensures |xs| == AtMost(|Backlog(history, c, d, now)|, cap)
    ensures |xs| < cap ==> Times(xs) == Backlog(history, c, d, now)
  {
    TimesAreDistinct(c, xs, d);
    LastQueuedIsReal(history, c, d, now, xs);
    var backlog := Backlog(history, c, d, now);
    forall i | 0 <= i < |xs|
      ensures xs[i].openTime in backlog
    {
      assert xs[i] in xs;
      TimesAreBounded(c, xs, d, i);
    }
    assert Times(xs) <= backlog;
    SubsetIsSmaller(Times(xs), backlog);
    if now < Last(c, xs) + 2 * d {
      forall h | h in backlog
        ensures h in Times(xs)
      {
        NothingBetween(history, c, d, xs, h);
      }
      assert Times(xs) == backlog;
    }
  }

  /** The candle after an on-track one is real when it has closed. */
  lemma {:induction false} NextIsReal(history: set<int>, c: int, d: int, now: int, t: int)
    requires d > 0 && HoleFree(history, c, d, now) && OnTrack(history, c, t) && t + d + d <= now
    ensures t + d in history && OnTrack(history, c, t + d)
  {
  }

  lemma {:induction false} QueuedIsReal(history: set<int>, c: int, d: int, now: int, xs: seq<Candle>, i: nat)
    requires d > 0 && HoleFree(history, c, d, now) && Follows(c, xs, d) && AllClosed(xs, d, now) && i < |xs|
    ensures OnTrack(history, c, xs[i].openTime) && xs[i].openTime in history
    decreases i
  {
    assert xs[i] in xs;
    if i == 0 {
      NextIsReal(history, c, d, now, c);
    } else {
      QueuedIsReal(history, c, d, now, xs, i - 1);
      assert xs[i].openTime == xs[i - 1].openTime + d;
      NextIsReal(history, c, d, now, xs[i - 1].openTime);
    }
  }

  lemma {:induction false} LastQueuedIsReal(history: set<int>, c: int, d: int, now: int, xs: seq<Candle>)
    requires d > 0 && HoleFree(history, c, d, now) && Follows(c, xs, d) && AllClosed(xs, d, now)
    ensures OnTrack(history, c, Last(c, xs))
    ensures forall x <- xs :: x.openTime in history
  {
    forall i | 0 <= i < |xs|
      ensures OnTrack(history, c, xs[i].openTime) && xs[i].openTime in history
    {
      QueuedIsReal(history, c, d, now, xs, i);
    }
  }

  lemma {:induction false} SubsetIsSmaller(a: set<int>, b: set<int>)
    requires a <= b
    ensures |a| <= |b|
  {
    assert b == a + (b - a);
    assert |a + (b - a)| == |a| + |b - a|;
  }

  lemma {:induction false} HonestWindowFacts(history: set<int>, base: int, c: int, d: int, now: int, limit: nat,
                                             rows: seq<Row>,
                          usable: seq<Candle>, found: Option<(int, int)>)
    requires d > 0 && limit > 0 && Spaced(history, base, d) && OnTrack(history, base, c)
    requires ServedBy(rows, history, c + d, WindowEnd(c, d, limit), limit)
    requires Accepts(c, Candidates(rows, c + d, WindowEnd(c, d, limit)), d, now, usable, found)
    ensures OnTrack(history, base, Last(c, usable))
    ensures found.Some? ==> RealGap(history, found)
    ensures HoleFree(history, base, d, now) ==> found == None && (|usable| < limit ==> now < Last(c, usable) + 2 * d)
  {
    assert forall t :: OnTrack(history, c, t) ==> OnTrack(history, base, t);
    LastIsOnTrack(history, c, d, now, limit, rows, usable, found);
    ReportedGapsAreReal(history, c, d, now, limit, rows, usable, found);
    if HoleFree(history, base, d, now) {
      HoleFreeFromHere(history, base, c, d, now);
      WindowIsFullOrCaughtUp(history, c, d, now, limit, rows, usable, found);
    }
  }

  function Synced(cursor: Option<int>, persisted: Option<int>): Option<int> {
    if persisted.Some? && (cursor.None? || persisted.value > cursor.value) then persisted else cursor
  }

  /** The expected candle is not in the history, the found one is. */
  ghost predicate RealGap(history: set<int>, gap: Option<(int, int)>) {
    gap.Some? && gap.value.0 !in history && gap.value.1 in history && gap.value.0 < gap.value.1
  }

  ghost predicate GapIsReal(history: set<int>, gap: Option<(int, int)>) {
    gap == None || RealGap(history, gap)
  }

  /** A contiguous closed batch after the cursor. */
  ghost predicate Batch(c: int, xs: seq<Candle>, d: int, now: int) {
    Follows(c, xs, d) && AllClosed(xs, d, now)
  }

  lemma {:induction false} BatchGrows(c: int, xs: seq<Candle>, ys: seq<Candle>, d: int, now: int)
    requires Batch(c, xs, d, now) && Batch(Last(c, xs), ys, d, now) && ys != []
    ensures Batch(c, xs + ys, d, now) && Last(c, xs + ys) == Last(Last(c, xs), ys) == ys[|ys| - 1].openTime
  {
    FollowsConcat(c, xs, ys, d);
  }

  /** The slots of n pages. */
  function Slots(n: nat, pageSize: nat): nat {
    if n == 0 then 0 else Slots(n - 1, pageSize) + pageSize
  }

  lemma {:induction false} SlotsFit(pages: nat, maxPages: nat, pageSize: nat)
    requires pages < maxPages
    ensures Slots(pages, pageSize) + pageSize == Slots(pages + 1, pageSize) <= Slots(maxPages, pageSize)
    decreases maxPages
  {
    if pages == maxPages - 1 {
    } else {
      SlotsFit(pages, maxPages - 1, pageSize);
    }
  }

  lemma {:induction false} SlotsAreTheProduct(n: nat, pageSize: nat)
    ensures Slots(n, pageSize) == n * pageSize
    decreases n
  {
    if n == 0 {
    } else {
      SlotsAreTheProduct(n - 1, pageSize);
      assert n * pageSize == (n - 1) * pageSize + pageSize;
    }
  }
}
