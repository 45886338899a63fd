/** Whole runs of the market-data drainer: ticks that poll and persist, exchange failures of every kind, ticks whose
    transaction is rolled back while the process lives on, and process restarts resynchronised from the last
    persisted candle. */
module MarketRun {
  import opened Basics
  import opened MarketFeed
  import opened MarketProvider

  /** The provider's memory, the persisted open times in insertion order, and the clock. */
  datatype World = World(feed: Feed, table: seq<int>, clock: int)

  /** A committed tick, a tick that raises or fails to commit, and a new process over the same database. */
  datatype Step = Ticked(r: FetchResult) | RolledBack(r: FetchResult) | Restarted

  const FRESH := Feed(None, [], None)

  /** The newest persisted open time, as the query orders it. */
  function Newest(table: seq<int>): (m: Option<int>)
    ensures m.None? <==> table == []
    ensures m.Some? ==> m.value in table && forall t <- table :: t <= m.value
  {
    if table == [] then None
    else
      var rest := Newest(table[..|table| - 1]);
      var last := table[|table| - 1];
      assert table == table[..|table| - 1] + [last];
      if rest.Some? && rest.value > last then rest else Some(last)
  }

  /** A candle is stored unless one with its open time already is. */
  function Saved(table: seq<int>, t: int): seq<int> {
    if t in table then table else table + [t]
  }

  /** The provider's half of a tick: resynchronise from the table and poll once. */
  ghost predicate Polled(w: World, w': World, r: FetchResult, initialStart: Option<int>, d: int) {
    && w.clock <= w'.clock
    && PollStep(w.feed.(cursor := Synced(w.feed.cursor, Newest(w.table))), w'.feed, r, initialStart, d, w'.clock)
  }

  ghost predicate Taken(w: World, w': World, step: Step, initialStart: Option<int>, d: int) {
    match step
    case Ticked(r) =>
      && Polled(w, w', r, initialStart, d) && !r.Raised?
      && w'.table == if r.Available? then Saved(w.table, r.candle.openTime) else w.table
    case RolledBack(r) => Polled(w, w', r, initialStart, d) && w'.table == w.table
    case Restarted => w' == World(FRESH, w.table, w'.clock) && w.clock <= w'.clock
  }

  ghost predicate Run(ws: seq<World>, steps: seq<Step>, initialStart: Option<int>, d: int) {
    && |ws| == |steps| + 1
    && ws[0].feed == FRESH && ws[0].table == []
    && forall i, j :: 0 <= i < |steps| && j == i + 1 ==> Taken(ws[i], ws[j], steps[i], initialStart, d)
  }

  lemma {:induction false} RunStep(ws: seq<World>, steps: seq<Step>, initialStart: Option<int>, d: int, k: nat)
    requires Run(ws, steps, initialStart, d) && k < |steps|
    ensures Taken(ws[k], ws[k + 1], steps[k], initialStart, d)
  {
    var next := ws[k + 1];
  }

  function LastOf(table: seq<int>): int
    requires table != []
  {
    table[|table| - 1]
  }

  /** The open time after which the next candle must come, where the table or the configuration fixes one. */
  function Due(table: seq<int>, initialStart: Option<int>, d: int): Option<int> {
    if table != [] then Some(LastOf(table)) else Base(None, initialStart, d)
  }

  /** Consecutive open times, one interval apart, from a configured start on. */
  ghost predicate Gapless(table: seq<int>, initialStart: Option<int>, d: int) {
    && (forall i, j :: 0 <= i < |table| && j == i + 1 < |table| ==> table[j] == table[i] + d)
    && (table != [] && initialStart.Some? ==> table[0] == initialStart.value)
  }

  /** Consecutive open times, at least one interval apart. */
  ghost predicate Spread(table: seq<int>, d: int) {
    forall i, j :: 0 <= i < |table| && j == i + 1 < |table| ==> table[i] + d <= table[j]
  }

  // ---- what every run keeps ----

  /** Stored candles advance and had closed; the provider never stands before the last stored one. */
  ghost predicate Ordered(w: World, initialStart: Option<int>, d: int) {
    && Spread(w.table, d)
    && (forall t <- w.table :: t + d <= w.clock)
    && QueueFollows(w.feed, d) && AllClosed(w.feed.queue, d, w.clock)
    && (w.feed.cursor.Some? && Due(w.table, initialStart, d).Some? ==>
      Due(w.table, initialStart, d).value <= w.feed.cursor.value)
  }

  /** The provider has moved past a candle the table does not hold. */
  predicate Ahead(w: World, initialStart: Option<int>, d: int) {
    && w.feed.cursor.Some? && Due(w.table, initialStart, d).Some?
    && Due(w.table, initialStart, d).value < w.feed.cursor.value
  }

  lemma {:induction false} LastIsLargest(table: seq<int>, d: int, i: nat)
    requires d > 0 && Spread(table, d) && i < |table|
    ensures table[i] <= LastOf(table)
    decreases |table|
  {
    var n := |table| - 1;
    if i == n {
    } else {
      LastIsLargest(table[..n], d, i);
      assert table[n - 1] + d <= table[n];
    }
  }

  lemma {:induction false} NewestIsLast(table: seq<int>, d: int)
    requires d > 0 && Spread(table, d) && table != []
    ensures Newest(table) == Some(LastOf(table))
    ensures forall t <- table :: t <= LastOf(table)
  {
    forall i | 0 <= i < |table|
      ensures table[i] <= LastOf(table)
    {
      LastIsLargest(table, d, i);
    }
    assert LastOf(table) in table;
  }

  /** A tick, committed or not, resumes where the provider stands or, after a restart, at the last stored candle; what
      it delivers is the candle after that. */
  lemma {:induction false} PollResumes(w: World, w': World, r: FetchResult, initialStart: Option<int>, d: int)
    requires d > 0 && Ordered(w, initialStart, d) && Polled(w, w', r, initialStart, d)
    ensures var from := if w.feed.cursor.Some? then w.feed.cursor else Due(w.table, initialStart, d);
      if r.Available? then
        && (from.Some? ==> r.candle.openTime == from.value + d)
        && w'.feed.cursor == Some(r.candle.openTime) && r.candle.openTime + d <= w'.clock
      else w'.feed.cursor == w.feed.cursor || w'.feed.cursor == from
    ensures QueueFollows(w'.feed, d) && AllClosed(w'.feed.queue, d, w'.clock)
  {
    if w.table != [] {
      NewestIsLast(w.table, d);
    }
    assert w.feed.queue != [] ==> w.feed.queue[0] in w.feed.queue;
  }

  lemma {:induction false} StoringAppends(w: World, w': World, r: FetchResult, initialStart: Option<int>, d: int)
    requires d > 0 && Ordered(w, initialStart, d) && Taken(w, w', Ticked(r), initialStart, d) && r.Available?
    ensures w'.table == w.table + [r.candle.openTime] && Spread(w'.table, d)
    ensures Due(w.table, initialStart, d).Some? ==> Due(w.table, initialStart, d).value + d <= r.candle.openTime
  {
    PollResumes(w, w', r, initialStart, d);
    if w.table != [] {
      NewestIsLast(w.table, d);
    }
  }

  lemma {:induction false} EveryStepKeepsOrder(w: World, w': World, step: Step, initialStart: Option<int>, d: int)
    requires d > 0 && Ordered(w, initialStart, d) && Taken(w, w', step, initialStart, d)
    ensures Ordered(w', initialStart, d) && w.table <= w'.table
  {
    match step
    case Ticked(r) =>
      PollResumes(w, w', r, initialStart, d);
      if r.Available? {
        StoringAppends(w, w', r, initialStart, d);
      }
    case RolledBack(r) => PollResumes(w, w', r, initialStart, d);
    case Restarted =>
  }

  /** Exactly-once delivery in order, rolled-back ticks and restarts included: stored candles had closed and advance
      by at least one interval, so none is stored twice. */
  lemma {:induction false} EveryRunIsOrdered(ws: seq<World>, steps: seq<Step>, initialStart: Option<int>, d: int,
                                             k: nat)
    requires d > 0 && Run(ws, steps, initialStart, d) && k < |ws|
    ensures Ordered(ws[k], initialStart, d)
    ensures forall i, j :: 0 <= i < j < |ws[k].table| ==> ws[k].table[i] < ws[k].table[j]
    decreases k
  {
    if k == 0 {
    } else {
      EveryRunIsOrdered(ws, steps, initialStart, d, k - 1);
      RunStep(ws, steps, initialStart, d, k - 1);
      EveryStepKeepsOrder(ws[k - 1], ws[k], steps[k - 1], initialStart, d);
      var table := ws[k].table;
      forall i, j | 0 <= i < j < |table|
        ensures table[i] < table[j]
      {
        LaterIsGreater(table, d, i, j);
      }
    }
  }

  lemma {:induction false} LaterIsGreater(table: seq<int>, d: int, i: nat, j: nat)
    requires d > 0 && Spread(table, d) && i < j < |table|
    ensures table[i] < table[j]
    decreases j
  {
    assert table[j - 1] + d <= table[j];
    if i == j - 1 {
    } else {
      LaterIsGreater(table, d, i, j - 1);
    }
  }

  /** Nothing stored is ever lost or reordered: a step only ever appends. */
  lemma {:induction false} TheTableOnlyGrows(ws: seq<World>, steps: seq<Step>, initialStart: Option<int>, d: int,
                                             i: nat, k: nat)
    requires d > 0 && Run(ws, steps, initialStart, d) && i <= k < |ws|
    ensures ws[i].table <= ws[k].table
    decreases k
  {
    if i == k {
    } else {
      TheTableOnlyGrows(ws, steps, initialStart, d, i, k - 1);
      OneStepOnlyAppends(ws, steps, initialStart, d, k - 1);
    }
  }

  lemma {:induction false} OneStepOnlyAppends(ws: seq<World>, steps: seq<Step>, initialStart: Option<int>, d: int,
                                              k: nat)
    requires d > 0 && Run(ws, steps, initialStart, d) && k < |steps|
    ensures ws[k].table <= ws[k + 1].table
  {
    EveryRunIsOrdered(ws, steps, initialStart, d, k);
    RunStep(ws, steps, initialStart, d, k);
    EveryStepKeepsOrder(ws[k], ws[k + 1], steps[k], initialStart, d);
  }

  // ---- exactly when a candle is skipped ----

  /** A tick that stores a candle. */
  predicate Stores(step: Step) {
    step.Ticked? && step.r.Available?
  }

  /** A rolled-back delivery, where the table or the configuration says which candle is due. */
  predicate Forgets(w: World, step: Step, initialStart: Option<int>) {
    step.RolledBack? && step.r.Available? && (w.table != [] || initialStart.Some?)
  }

  /** Before step k the same process has delivered a candle in a tick that was rolled back. */
  ghost predicate Behind(ws: seq<World>, steps: seq<Step>, initialStart: Option<int>, k: nat)
    requires |ws| == |steps| + 1 && k <= |steps|
  {
    exists i :: 0 <= i < k && Forgets(ws[i], steps[i], initialStart) && forall m :: i < m < k ==> steps[m] != Restarted
  }

  /** Some process has stored a candle after one of its deliveries was rolled back. */
  ghost predicate Skipped(ws: seq<World>, steps: seq<Step>, initialStart: Option<int>, k: nat)
    requires |ws| == |steps| + 1 && k <= |steps|
  {
    exists j :: 0 <= j < k && Stores(steps[j]) && Behind(ws, steps, initialStart, j)
  }

  lemma {:induction false} BehindOneMore(ws: seq<World>, steps: seq<Step>, initialStart: Option<int>, k: nat)
    requires |ws| == |steps| + 1 && k < |steps|
    ensures Behind(ws, steps, initialStart, k + 1) <==>
      Forgets(ws[k], steps[k], initialStart) || (Behind(ws, steps, initialStart, k) && steps[k] != Restarted)
  {
    if Behind(ws, steps, initialStart, k) && steps[k] != Restarted {
      var i :| 0 <= i < k && Forgets(ws[i], steps[i], initialStart) && forall m :: i < m < k ==> steps[m] != Restarted;
      assert forall m :: i < m < k + 1 ==> steps[m] != Restarted;
    }
  }

  /** One step from a state that is not ahead, or one that stores nothing: the table stays gapless, and afterwards the
      provider is ahead exactly when a delivery was forgotten now or before, in this process. */
  lemma {:induction false} HarmlessStep(w: World, w': World, step: Step, initialStart: Option<int>, d: int)
    requires d > 0 && Ordered(w, initialStart, d) && Taken(w, w', step, initialStart, d)
    requires !(Stores(step) && Ahead(w, initialStart, d))
    ensures Gapless(w.table, initialStart, d) ==> Gapless(w'.table, initialStart, d)
    ensures Ahead(w', initialStart, d) <==>
      Forgets(w, step, initialStart) || (Ahead(w, initialStart, d) && step != Restarted)
  {
    match step
    case Ticked(r) =>
      PollResumes(w, w', r, initialStart, d);
      if r.Available? {
        StoringAppends(w, w', r, initialStart, d);
      }
    case RolledBack(r) => PollResumes(w, w', r, initialStart, d);
    case Restarted =>
  }

  lemma {:induction false} HarmfulStep(w: World, w': World, step: Step, initialStart: Option<int>, d: int)
    requires d > 0 && Ordered(w, initialStart, d) && Taken(w, w', step, initialStart, d)
    requires Stores(step) && Ahead(w, initialStart, d)
    ensures !Gapless(w'.table, initialStart, d)
  {
    PollResumes(w, w', step.r, initialStart, d);
    StoringAppends(w, w', step.r, initialStart, d);
    var n := |w.table|;
    assert n > 0 ==> w'.table[n - 1] == w.table[n - 1] && w'.table[n] != w'.table[n - 1] + d;
  }

  lemma {:induction false} HolesStay(table: seq<int>, more: seq<int>, initialStart: Option<int>, d: int)
    requires table <= more && Gapless(more, initialStart, d)
    ensures Gapless(table, initialStart, d)
  {
    assert forall i :: 0 <= i < |table| ==> more[i] == table[i];
  }

  lemma {:induction false} GaplessUntilSkipped(ws: seq<World>, steps: seq<Step>, initialStart: Option<int>, d: int,
                                               k: nat)
    requires d > 0 && Run(ws, steps, initialStart, d) && k <= |steps|
    ensures if Skipped(ws, steps, initialStart, k) then !Gapless(ws[k].table, initialStart, d)
            else Gapless(ws[k].table, initialStart, d) && (Ahead(ws[k], initialStart, d) <==> Behind(ws, steps, initialStart, k))
    decreases k
  {
    if k == 0 {
    } else {
      var n := k - 1;
      GaplessUntilSkipped(ws, steps, initialStart, d, n);
      EveryRunIsOrdered(ws, steps, initialStart, d, n);
      RunStep(ws, steps, initialStart, d, n);
      BehindOneMore(ws, steps, initialStart, n);
      SkippedOneMore(ws, steps, initialStart, n);
      EveryStepKeepsOrder(ws[n], ws[k], steps[n], initialStart, d);
      if Skipped(ws, steps, initialStart, n) {
        if Gapless(ws[k].table, initialStart, d) {
          HolesStay(ws[n].table, ws[k].table, initialStart, d);
        }
      } else if Stores(steps[n]) && Ahead(ws[n], initialStart, d) {
        HarmfulStep(ws[n], ws[k], steps[n], initialStart, d);
      } else {
        HarmlessStep(ws[n], ws[k], steps[n], initialStart, d);
      }
    }
  }

  lemma {:induction false} SkippedOneMore(ws: seq<World>, steps: seq<Step>, initialStart: Option<int>, k: nat)
    requires |ws| == |steps| + 1 && k < |steps|
    ensures Skipped(ws, steps, initialStart, k + 1) <==>
      Skipped(ws, steps, initialStart, k) || (Stores(steps[k]) && Behind(ws, steps, initialStart, k))
  {
  }

  /** Gap-free delivery and its exact condition: after any run stored open times are one interval apart, from a
      configured start on, if and only if no process stored a candle after one of its deliveries was rolled back while
      the table or the configuration said which candle was due. */
  lemma {:induction false} GaplessExactlyWhen(ws: seq<World>, steps: seq<Step>, initialStart: Option<int>, d: int)
    requires d > 0 && Run(ws, steps, initialStart, d)
    ensures Gapless(ws[|steps|].table, initialStart, d) <==>
      !exists i, j :: 0 <= i < j < |steps| && Forgets(ws[i], steps[i], initialStart) && Stores(steps[j]) &&
        forall m :: i < m < j ==> steps[m] != Restarted
  {
    GaplessUntilSkipped(ws, steps, initialStart, d, |steps|);
    if Skipped(ws, steps, initialStart, |steps|) {
      var j :| 0 <= j < |steps| && Stores(steps[j]) && Behind(ws, steps, initialStart, j);
      var i :| 0 <= i < j && Forgets(ws[i], steps[i], initialStart) && forall m :: i < m < j ==> steps[m] != Restarted;
    } else {
      forall i, j | 0 <= i < j < |steps| && Forgets(ws[i], steps[i], initialStart) && Stores(steps[j])
        ensures !forall m :: i < m < j ==> steps[m] != Restarted
      {
        assert !Behind(ws, steps, initialStart, j);
      }
    }
  }

  /** Runs of committed ticks and restarts: every stored open time is exactly one interval after the one before it,
      every stored candle had closed, and a configured start is the first. */
  lemma {:induction false} EveryCommittedRunIsGapless(ws: seq<World>, steps: seq<Step>, initialStart: Option<int>,
                                                      d: int)
    requires d > 0 && Run(ws, steps, initialStart, d)
    requires forall step <- steps :: step.RolledBack? ==> !step.r.Available?
    ensures var w := ws[|steps|];
      Gapless(w.table, initialStart, d) && forall t <- w.table :: t + d <= w.clock
  {
    GaplessExactlyWhen(ws, steps, initialStart, d);
    EveryRunIsOrdered(ws, steps, initialStart, d, |steps|);
  }

  /** The smallest such loss: one rolled-back delivery and then a stored one, by the same process, leave out exactly one
      candle. */
  lemma {:induction false} RolledBackTickSkipsACandle(w: World, w1: World, r1: FetchResult, w2: World, r2: FetchResult,
                                                      initialStart: Option<int>, d: int)
    requires d > 0 && Ordered(w, initialStart, d) && !Ahead(w, initialStart, d) && Due(w.table, initialStart, d).Some?
    requires Taken(w, w1, RolledBack(r1), initialStart, d) && r1.Available?
    requires Taken(w1, w2, Ticked(r2), initialStart, d) && r2.Available?
    ensures w2.table == w.table + [Due(w.table, initialStart, d).value + 2 * d]
  {
    PollResumes(w, w1, r1, initialStart, d);
    EveryStepKeepsOrder(w, w1, RolledBack(r1), initialStart, d);
    PollResumes(w1, w2, r2, initialStart, d);
    StoringAppends(w1, w2, r2, initialStart, d);
  }

  /** The market-data part of the orchestrator's tick, over the provider object and the candle table: a committed step,
      or, when the provider raises, a rolled-back one. */
  method CollectTick(p: Provider, serve: Server, table: seq<int>, ghost clock: int, now: int)
    returns (stored: seq<int>, r: FetchResult)
    requires p.Valid() && clock <= now
    requires Ordered(World(p.View(), table, clock), p.initialStart, p.interval)
    modifies p
    ensures Taken(World(old(p.View()), table, clock), World(p.View(), stored, now),
                  if r.Raised? then RolledBack(r) else Ticked(r), p.initialStart, p.interval)
    ensures Ordered(World(p.View(), stored, now), p.initialStart, p.interval)
  {
    ghost var before := World(p.View(), table, clock);
    if table != [] {
      NewestIsLast(table, p.interval);
    }
    p.SyncCursor(Newest(table));
    r := p.NextCandle(serve, now, {}, {}, Claim(false, false, false, false));
    stored := if r.Available? then Saved(table, r.candle.openTime) else table;
    EveryStepKeepsOrder(before, World(p.View(), stored, now), if r.Raised? then RolledBack(r) else Ticked(r),
                        p.initialStart, p.interval);
  }
}
