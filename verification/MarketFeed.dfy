/** The backlog drainer of app/market_data/bybit_provider.py: a cursor, a queue and bounded windows
    over an exchange that truncates and reorders its rows. Times are milliseconds. */
module MarketFeed {
  import opened Basics
  import opened Sorting

  datatype Row = Row(openTime: int, close: real)

  datatype Candle = Candle(openTime: int, close: real, receivedAt: int)

  /** The exchange's answer: a timeout or rate limit, any other failure of the request, rows of which one does not
      parse, or rows. */
  datatype Reply = TransportFailed | RequestRaised | Unreadable | Rows(rows: seq<Row>)

  /** The exchange: its answer to the n-th request of one poll, for a window [start, end]. */
  type Server = (nat, int, int) -> Reply

  datatype FetchResult =
    | Available(candle: Candle)
    | NoNewCandle
    | RetryableError
    | GapDetected(expected: int, found: int)
    | Raised

  // ---- rows in chronological order ----

  function OpenTimeOf(r: Row): int {
    r.openTime
  }

  /** The stable sort by open time. */
  function Sorted(rows: seq<Row>): seq<Row> {
    SortedBy(rows, OpenTimeOf)
  }

  ghost predicate Ascending(rows: seq<Row>) {
    forall i, j :: 0 <= i < j < |rows| ==> rows[i].openTime <= rows[j].openTime
  }

  lemma {:induction false} SortingRows(rows: seq<Row>)
    ensures Ascending(Sorted(rows)) && multiset(Sorted(rows)) == multiset(rows)
  {
    SortingSorts(rows, OpenTimeOf);
    var sorted := Sorted(rows);
    forall i, j | 0 <= i < j < |sorted|
      ensures sorted[i].openTime <= sorted[j].openTime
    {
      assert OpenTimeOf(sorted[i]) <= OpenTimeOf(sorted[j]);
    }
  }

  function InWindow(rows: seq<Row>, start: int, end: int): seq<Row> {
    if rows == [] then []
    else if start <= rows[0].openTime <= end then [rows[0]] + InWindow(rows[1..], start, end)
    else InWindow(rows[1..], start, end)
  }

  lemma {:induction false} WindowKeepsOrder(rows: seq<Row>, start: int, end: int)
    requires Ascending(rows)
    ensures Ascending(InWindow(rows, start, end))
    ensures forall r :: r in InWindow(rows, start, end) <==> r in rows && start <= r.openTime <= end
    decreases |rows|
  {
    if rows == [] {
    } else {
      WindowKeepsOrder(rows[1..], start, end);
      assert rows == [rows[0]] + rows[1..];
    }
  }

  function Candidates(rows: seq<Row>, start: int, end: int): seq<Row> {
    InWindow(Sorted(rows), start, end)
  }

  lemma {:induction false} CandidatesAreTheWindowRows(rows: seq<Row>, start: int, end: int)
    ensures Ascending(Candidates(rows, start, end))
    ensures forall r :: r in Candidates(rows, start, end) <==> r in rows && start <= r.openTime <= end
  {
    SortingRows(rows);
    WindowKeepsOrder(Sorted(rows), start, end);
    assert forall r :: r in Sorted(rows) <==> r in multiset(Sorted(rows));
    assert forall r :: r in rows <==> r in multiset(rows);
  }

  // ---- contiguous, closed candles ----

  /** The open time of the last candle, or the cursor c when there is none. */
  function Last(c: int, xs: seq<Candle>): int {
    if xs == [] then c else xs[|xs| - 1].openTime
  }

  /** Every candle opens exactly one interval d after the one before it, starting from cursor c. */
  ghost predicate Follows(c: int, xs: seq<Candle>, d: int) {
    && (xs != [] ==> xs[0].openTime == c + d)
    && forall i, j :: 0 <= i < |xs| && j == i + 1 < |xs| ==> xs[j].openTime == xs[i].openTime + d
  }

  ghost predicate AllClosed(xs: seq<Candle>, d: int, now: int) {
    forall x <- xs :: x.openTime + d <= now
  }

  lemma {:induction false} FollowsConcat(c: int, xs: seq<Candle>, ys: seq<Candle>, d: int)
    requires Follows(c, xs, d) && Follows(Last(c, xs), ys, d)
    ensures Follows(c, xs + ys, d) && Last(c, xs + ys) == Last(Last(c, xs), ys)
  {
  }

  /** What one walk over the candidates of a window yields: the longest contiguous closed prefix, and
      the gap, if that is what ended it. */
  ghost predicate Accepts(c: int, candidates: seq<Row>, d: int, now: int, usable: seq<Candle>,
                          gap: Option<(int, int)>) {
    var k := |usable|;
    && k <= |candidates|
    && (forall i :: 0 <= i < k ==> usable[i] == Candle(candidates[i].openTime, candidates[i].close, now))
    && Follows(c, usable, d) && AllClosed(usable, d, now)
    && (k == |candidates| ==> gap == None)
    && (k < |candidates| ==>
          var expected := Last(c, usable) + d;
          if candidates[k].openTime != expected then gap == Some((expected, candidates[k].openTime))
          else gap == None && now < expected + d)
  }

  // ---- what an honest exchange serves ----

  /** A reply with the newest `limit` rows of the window, in any order. */
  ghost predicate ServedBy(rows: seq<Row>, history: set<int>, start: int, end: int, limit: nat) {
    && (forall r <- rows :: r.openTime in history && start <= r.openTime <= end)
    && DistinctTimes(rows)
    && |rows| <= limit
    && (forall h <- history :: start <= h <= end && (forall r <- rows :: r.openTime != h) ==>
          |rows| == limit && forall r <- rows :: h < r.openTime)
  }

  ghost predicate Honest(serve: Server, history: set<int>, limit: nat) {
    forall n, start, end :: serve(n, start, end).Rows? && ServedBy(serve(n, start, end).rows, history, start, end, limit)
  }

  /** The cursor itself, or a candle beyond it. */
  predicate OnTrack(history: set<int>, c: int, t: int) {
    t == c || (t in history && t > c)
  }

  /** Beyond the cursor c, candles open at least one interval apart. */
  ghost predicate Spaced(history: set<int>, c: int, d: int) {
    forall t, u :: OnTrack(history, c, t) && u in history && u > t ==> u >= t + d
  }

  /** Beyond the cursor c, every slot up to now has its candle. */
  ghost predicate HoleFree(history: set<int>, c: int, d: int, now: int) {
    && Spaced(history, c, d)
    && (forall t <- history :: t > c ==> t <= now)
    && (forall t :: OnTrack(history, c, t) && t + d <= now ==> t + d in history)
  }

  ghost predicate DistinctTimes(rows: seq<Row>) {
    forall i, j :: 0 <= i < j < |rows| ==> rows[i].openTime != rows[j].openTime
  }

  ghost predicate StrictlyAscending(rows: seq<Row>) {
    forall i, j :: 0 <= i < j < |rows| ==> rows[i].openTime < rows[j].openTime
  }

  lemma {:induction false} SpacedRowsSpread(rows: seq<Row>, history: set<int>, c: int, d: int, i: nat)
    requires d > 0 && Spaced(history, c, d) && i < |rows|
    requires StrictlyAscending(rows)
    requires forall r <- rows :: r.openTime in history && r.openTime > c
    ensures rows[i].openTime >= c + (i + 1) * d
    decreases i
  {
    assert rows[i] in rows;
    if i > 0 {
      SpacedRowsSpread(rows, history, c, d, i - 1);
      assert rows[i - 1] in rows;
      assert OnTrack(history, c, rows[i - 1].openTime);
      assert (i + 1) * d == i * d + d;
    } else {
      assert OnTrack(history, c, c);
    }
  }

  lemma {:induction false} CandidatesAreStrict(rows: seq<Row>, start: int, end: int)
    requires DistinctTimes(rows)
    ensures StrictlyAscending(Candidates(rows, start, end))
  {
    SortingRows(rows);
    StrictWhenDistinct(rows, Sorted(rows));
    WindowKeepsStrictOrder(Sorted(rows), start, end);
  }

  lemma {:induction false} StrictWhenDistinct(rows: seq<Row>, sorted: seq<Row>)
    requires DistinctTimes(rows)
    requires Ascending(sorted) && multiset(sorted) == multiset(rows)
    ensures StrictlyAscending(sorted)
  {
    forall i, j | 0 <= i < j < |sorted|
      ensures sorted[i].openTime < sorted[j].openTime
    {
      if sorted[i].openTime == sorted[j].openTime {
        assert sorted[i] in multiset(rows) && sorted[j] in multiset(rows);
        var k, l :| 0 <= k < |rows| && 0 <= l < |rows| && rows[k] == sorted[i] && rows[l] == sorted[j];
        assert k == l;
        TwiceInSequence(sorted, i, j);
        OnceInDistinct(rows, k);
      }
    }
  }

  lemma {:induction false} TwiceInSequence(xs: seq<Row>, i: nat, j: nat)
    requires i < j < |xs| && xs[i] == xs[j]
    ensures multiset(xs)[xs[i]] >= 2
  {
    assert xs == xs[..j] + [xs[j]] + xs[j + 1..];
    assert xs[i] in xs[..j];
  }

  lemma {:induction false} OnceInDistinct(xs: seq<Row>, k: nat)
    requires k < |xs| && DistinctTimes(xs)
    ensures multiset(xs)[xs[k]] == 1
  {
    assert xs == xs[..k] + [xs[k]] + xs[k + 1..];
    assert xs[k] !in xs[..k] && xs[k] !in xs[k + 1..];
  }

  lemma {:induction false} WindowKeepsStrictOrder(rows: seq<Row>, start: int, end: int)
    requires StrictlyAscending(rows)
    ensures StrictlyAscending(InWindow(rows, start, end))
    ensures forall r <- InWindow(rows, start, end) :: r in rows
    decreases |rows|
  {
    if rows == [] {
    } else {
      WindowKeepsStrictOrder(rows[1..], start, end);
      assert rows == [rows[0]] + rows[1..];
      assert forall r <- rows[1..] :: rows[0].openTime < r.openTime;
    }
  }

  /** Candles strictly above an unserved one in a full window would spread beyond the window's end. */
  lemma {:induction false} FullWindowSpreads(rows: seq<Row>, history: set<int>, c: int, d: int, limit: nat, h: int)
    requires d > 0 && limit > 0 && Spaced(history, c, d) && h in history && h > c
    requires StrictlyAscending(rows) && |rows| == limit
    requires forall r <- rows :: r.openTime in history && h < r.openTime
    ensures rows[limit - 1].openTime >= c + (limit + 1) * d
  {
    var extended := [Row(h, 0.0)] + rows;
    assert extended[limit] == rows[limit - 1];
    SpacedRowsSpread(extended, history, c, d, limit);
  }

  /** A window of exactly `limit` slots can never be truncated: whatever order and subset preference
      the exchange has, every candle of the window is in its reply. */
  lemma {:induction false} WindowsAreNeverTruncated(rows: seq<Row>, history: set<int>, c: int, d: int, limit: nat,
                                                    h: int)
    requires d > 0 && limit > 0 && Spaced(history, c, d)
    requires ServedBy(rows, history, c + d, WindowEnd(c, d, limit), limit) && h in history && c + d <= h <= WindowEnd(c, d, limit)
    ensures exists r <- rows :: r.openTime == h
  {
    var sorted := Sorted(rows);
    SortingRows(rows);
    StrictWhenDistinct(rows, sorted);
    assert |sorted| == |multiset(sorted)| == |multiset(rows)| == |rows|;
    assert (limit + 1) * d == d + (limit - 1) * d + d;
    assert forall r :: r in sorted ==> r in multiset(sorted);
    assert forall r <- sorted :: r in rows && r.openTime <= WindowEnd(c, d, limit);
    if forall r <- rows :: r.openTime != h {
      FullWindowSpreads(sorted, history, c, d, limit, h);
    }
  }

  function WindowEnd(c: int, d: int, limit: nat): int {
    c + d + (limit - 1) * d
  }

  lemma {:induction false} LastIsOnTrack(history: set<int>, c: int, d: int, now: int, limit: nat, rows: seq<Row>,
                                         usable: seq<Candle>, gap: Option<(int, int)>)
    requires d > 0 && ServedBy(rows, history, c + d, WindowEnd(c, d, limit), limit)
    requires Accepts(c, Candidates(rows, c + d, WindowEnd(c, d, limit)), d, now, usable, gap)
    ensures OnTrack(history, c, Last(c, usable))
  {
    var cs := Candidates(rows, c + d, WindowEnd(c, d, limit));
    CandidatesAreTheWindowRows(rows, c + d, WindowEnd(c, d, limit));
    if usable != [] {
      var k := |usable| - 1;
      assert cs[k] in rows;
    }
  }

  /** Any history candle strictly after the accepted prefix and before the next candidate would have
      been served, and therefore would itself be the next candidate. */
  lemma {:induction false} NothingWasSkipped(history: set<int>, c: int, d: int, now: int, limit: nat, rows: seq<Row>,
                                             usable: seq<Candle>,
                          gap: Option<(int, int)>, h: int)
    requires d > 0 && limit > 0 && Spaced(history, c, d)
    requires ServedBy(rows, history, c + d, WindowEnd(c, d, limit), limit)
    requires Accepts(c, Candidates(rows, c + d, WindowEnd(c, d, limit)), d, now, usable, gap)
    requires h in history && Last(c, usable) < h <= WindowEnd(c, d, limit)
    ensures var cs := Candidates(rows, c + d, WindowEnd(c, d, limit));
      |usable| < |cs| && cs[|usable|].openTime <= h
  {
    var end := WindowEnd(c, d, limit);
    var cs := Candidates(rows, c + d, end);
    CandidatesAreTheWindowRows(rows, c + d, end);
    NotBeforeCursor(history, c, d, now, limit, rows, usable, gap, h);
    WindowsAreNeverTruncated(rows, history, c, d, limit, h);
    var r: Row :| r in rows && r.openTime == h;
    LaterCandidate(c, cs, d, now, usable, gap, r);
  }

  lemma {:induction false} NotBeforeCursor(history: set<int>, c: int, d: int, now: int, limit: nat, rows: seq<Row>,
                                           usable: seq<Candle>,
                        gap: Option<(int, int)>, h: int)
    requires d > 0 && limit > 0 && Spaced(history, c, d)
    requires ServedBy(rows, history, c + d, WindowEnd(c, d, limit), limit)
    requires Accepts(c, Candidates(rows, c + d, WindowEnd(c, d, limit)), d, now, usable, gap)
    requires h in history && Last(c, usable) < h
    ensures h >= c + d
  {
    var cs := Candidates(rows, c + d, WindowEnd(c, d, limit));
    CandidatesAreTheWindowRows(rows, c + d, WindowEnd(c, d, limit));
    assert OnTrack(history, c, c);
    if usable != [] {
      assert cs[|usable| - 1] in rows;
    }
  }

  lemma {:induction false} LaterCandidate(c: int, cs: seq<Row>, d: int, now: int, usable: seq<Candle>,
                                          gap: Option<(int, int)>, r: Row)
    requires Ascending(cs) && Accepts(c, cs, d, now, usable, gap) && r in cs && r.openTime > Last(c, usable)
    ensures |usable| < |cs| && cs[|usable|].openTime <= r.openTime
  {
    var j :| 0 <= j < |cs| && cs[j] == r;
    assert forall i :: 0 <= i < |usable| ==> cs[i].openTime <= Last(c, usable);
  }

  lemma {:induction false} NextCandidateIsLater(c: int, d: int, now: int, cs: seq<Row>, usable: seq<Candle>,
                                                gap: Option<(int, int)>)
    requires d > 0 && Accepts(c, cs, d, now, usable, gap) && |usable| < |cs|
    requires StrictlyAscending(cs) && forall r <- cs :: c < r.openTime
    ensures Last(c, usable) < cs[|usable|].openTime
  {
    var k := |usable|;
    if k == 0 {
      assert cs[0] in cs;
    } else {
      assert usable[k - 1].openTime == cs[k - 1].openTime;
    }
  }

  lemma {:induction false} CandidatesAreReal(history: set<int>, c: int, d: int, limit: nat, rows: seq<Row>)
    requires ServedBy(rows, history, c + d, WindowEnd(c, d, limit), limit) && d > 0
    ensures var cs := Candidates(rows, c + d, WindowEnd(c, d, limit));
      && StrictlyAscending(cs)
      && forall r <- cs :: c < r.openTime <= WindowEnd(c, d, limit) && r.openTime in history
  {
    CandidatesAreTheWindowRows(rows, c + d, WindowEnd(c, d, limit));
    CandidatesAreStrict(rows, c + d, WindowEnd(c, d, limit));
  }

  lemma {:induction false} FoundCandleIsReal(history: set<int>, c: int, d: int, now: int, limit: nat, rows: seq<Row>,
                                             usable: seq<Candle>, gap: Option<(int, int)>)
    requires d > 0 && gap.Some? && ServedBy(rows, history, c + d, WindowEnd(c, d, limit), limit)
    requires Accepts(c, Candidates(rows, c + d, WindowEnd(c, d, limit)), d, now, usable, gap)
    ensures gap.value.1 in history && Last(c, usable) < gap.value.1 <= WindowEnd(c, d, limit)
  {
    var cs := Candidates(rows, c + d, WindowEnd(c, d, limit));
    CandidatesAreReal(history, c, d, limit, rows);
    NextCandidateIsLater(c, d, now, cs, usable, gap);
    FoundIsNext(c, cs, d, now, usable, gap);
  }

  lemma {:induction false} FoundIsNext(c: int, cs: seq<Row>, d: int, now: int, usable: seq<Candle>, gap: Option<(int, int)>)
    requires Accepts(c, cs, d, now, usable, gap) && gap.Some?
    ensures |usable| < |cs| && cs[|usable|] in cs && gap.value.1 == cs[|usable|].openTime
  {
  }

  lemma {:induction false} FoundCandleIsNotExpected(history: set<int>, c: int, d: int, now: int, limit: nat, rows: seq<Row>,
                                                    usable: seq<Candle>, gap: Option<(int, int)>)
    requires d > 0 && limit > 0 && Spaced(history, c, d) && gap.Some?
    requires ServedBy(rows, history, c + d, WindowEnd(c, d, limit), limit)
    requires Accepts(c, Candidates(rows, c + d, WindowEnd(c, d, limit)), d, now, usable, gap)
    ensures gap.value.1 in history && gap.value.0 == Last(c, usable) + d < gap.value.1 <= WindowEnd(c, d, limit)
  {
    FoundCandleIsReal(history, c, d, now, limit, rows, usable, gap);
    LastIsOnTrack(history, c, d, now, limit, rows, usable, gap);
  }

  /** A reported gap is real: its expected candle is not in the history, its found one is. */
  lemma {:induction false} ReportedGapsAreReal(history: set<int>, c: int, d: int, now: int, limit: nat, rows: seq<Row>,
                                               usable: seq<Candle>, gap: Option<(int, int)>)
    requires d > 0 && limit > 0 && Spaced(history, c, d)
    requires ServedBy(rows, history, c + d, WindowEnd(c, d, limit), limit)
    requires Accepts(c, Candidates(rows, c + d, WindowEnd(c, d, limit)), d, now, usable, gap)
    ensures gap.Some? ==>
      gap.value.0 !in history && gap.value.1 in history && gap.value.0 == Last(c, usable) + d < gap.value.1
  {
    if gap.Some? {
      FoundCandleIsNotExpected(history, c, d, now, limit, rows, usable, gap);
      if gap.value.0 in history {
        NothingWasSkipped(history, c, d, now, limit, rows, usable, gap, gap.value.0);
      }
    }
  }

  lemma {:induction false} FollowingTimes(c: int, xs: seq<Candle>, d: int)
    requires Follows(c, xs, d)
    ensures Last(c, xs) == c + |xs| * d
    decreases |xs|
  {
    if xs == [] {
    } else {
      var n := |xs| - 1;
      FollowingTimes(c, xs[..n], d);
      assert Last(c, xs) == Last(c, xs[..n]) + d;
      assert |xs| * d == n * d + d;
    }
  }

  lemma {:induction false} NoGapWithoutHoles(history: set<int>, c: int, d: int, now: int, limit: nat, rows: seq<Row>,
                                             usable: seq<Candle>, gap: Option<(int, int)>)
    requires d > 0 && limit > 0 && HoleFree(history, c, d, now)
    requires ServedBy(rows, history, c + d, WindowEnd(c, d, limit), limit)
    requires Accepts(c, Candidates(rows, c + d, WindowEnd(c, d, limit)), d, now, usable, gap)
    ensures gap == None
  {
    LastIsOnTrack(history, c, d, now, limit, rows, usable, gap);
    var last := Last(c, usable);
    assert forall t :: t in history && t > last + d ==> last + d in history;
    ReportedGapsAreReal(history, c, d, now, limit, rows, usable, gap);
  }

  /** Whatever the exchange sends, a window of pageSize slots yields at most pageSize candles. */
  lemma {:induction false} UsableFitsTheWindow(c: int, d: int, now: int, limit: nat, rows: seq<Row>,
                                               usable: seq<Candle>, found: Option<(int, int)>)
    requires d > 0 && limit > 0
    requires Accepts(c, Candidates(rows, c + d, WindowEnd(c, d, limit)), d, now, usable, found)
    ensures |usable| <= limit
  {
    CandidatesAreTheWindowRows(rows, c + d, WindowEnd(c, d, limit));
    FollowingTimes(c, usable, d);
    if usable != [] {
      var cs := Candidates(rows, c + d, WindowEnd(c, d, limit));
      assert cs[|usable| - 1] in cs;
      SlotCount(|usable|, limit, d);
    }
  }

  /** A walk without a gap that has a next candidate stopped because that candidate is still forming. */
  lemma {:induction false} StoppedByForming(c: int, cs: seq<Row>, d: int, now: int, usable: seq<Candle>)
    requires Accepts(c, cs, d, now, usable, None) && |usable| < |cs|
    ensures now < Last(c, usable) + 2 * d
  {
  }

  lemma {:induction false} ShortWindowIsCaughtUp(history: set<int>, c: int, d: int, now: int, limit: nat,
                                                 rows: seq<Row>, usable: seq<Candle>)
    requires d > 0 && limit > 0 && HoleFree(history, c, d, now) && |usable| < limit
    requires ServedBy(rows, history, c + d, WindowEnd(c, d, limit), limit)
    requires Accepts(c, Candidates(rows, c + d, WindowEnd(c, d, limit)), d, now, usable, None)
    ensures now < Last(c, usable) + 2 * d
  {
    var cs := Candidates(rows, c + d, WindowEnd(c, d, limit));
    if |usable| < |cs| {
      StoppedByForming(c, cs, d, now, usable);
    } else {
      LastIsOnTrack(history, c, d, now, limit, rows, usable, None);
      NextSlotIsInTheWindow(c, d, limit, usable);
      var next := Last(c, usable) + d;
      if next in history {
        NothingWasSkipped(history, c, d, now, limit, rows, usable, None, next);
      }
    }
  }

  /** On a hole-free exchange one window is either consumed whole or caught up with the present. */
  lemma {:induction false} WindowIsFullOrCaughtUp(history: set<int>, c: int, d: int, now: int, limit: nat,
                                                  rows: seq<Row>, usable: seq<Candle>, gap: Option<(int, int)>)
    requires d > 0 && limit > 0 && HoleFree(history, c, d, now)
    requires ServedBy(rows, history, c + d, WindowEnd(c, d, limit), limit)
    requires Accepts(c, Candidates(rows, c + d, WindowEnd(c, d, limit)), d, now, usable, gap)
    ensures gap == None && |usable| <= limit
    ensures |usable| < limit ==> now < Last(c, usable) + 2 * d
  {
    UsableFitsTheWindow(c, d, now, limit, rows, usable, gap);
    NoGapWithoutHoles(history, c, d, now, limit, rows, usable, gap);
    if |usable| < limit {
      ShortWindowIsCaughtUp(history, c, d, now, limit, rows, usable);
    }
  }

  lemma {:induction false} NextSlotIsInTheWindow(c: int, d: int, limit: nat, usable: seq<Candle>)
    requires d > 0 && Follows(c, usable, d) && |usable| < limit
    ensures Last(c, usable) + d <= WindowEnd(c, d, limit)
  {
    FollowingTimes(c, usable, d);
    SlotFits(|usable|, limit, d);
  }

  lemma {:induction false} SlotCount(k: nat, limit: nat, d: int)
    requires d > 0 && k * d <= d + (limit - 1) * d
    ensures k <= limit
  {
    assert k * d == limit * d + (k - limit) * d;
    assert k > limit ==> (k - limit) * d > 0;
  }

  lemma {:induction false} SlotFits(k: nat, limit: nat, d: int)
    requires d > 0 && k < limit
    ensures k * d + d <= d + (limit - 1) * d
  {
    assert (limit - 1 - k) * d >= 0;
    assert (limit - 1) * d == k * d + (limit - 1 - k) * d;
  }

  lemma {:induction false} HoleFreeFromHere(history: set<int>, c: int, here: int, d: int, now: int)
    requires HoleFree(history, c, d, now) && OnTrack(history, c, here)
    ensures HoleFree(history, here, d, now)
  {
    assert forall t :: OnTrack(history, here, t) ==> OnTrack(history, c, t);
  }
}
