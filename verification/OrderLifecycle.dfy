/** Orders, the exchange that executes them and the applier that learns about it, over whole runs:
    app/execution/bybit_demo.py and app/orchestrator.py around the fill applier. */
module OrderLifecycle {
  import opened Basics
  import opened OrderState
  import opened FillLedger
  import opened FillService

  /** What the exchange has executed for one order; once final, nothing more is executed. */
  datatype Remote = Remote(fills: seq<Fill>, final: bool)

  /** An exchange order without a local row: the process died between the create request and the commit. */
  datatype Stray = Stray(spec: OrderSpec, remote: Remote)

  datatype World = World(books: Books, remotes: seq<Remote>, strays: seq<Stray>, maxApiFailures: nat)

  /** The answer to the create request. */
  datatype Ack = Accepted(exchangeId: string) | Refused | CreateTimedOut

  datatype Event =
    | Placed(spec: OrderSpec, ack: Ack)
    | PlacedThenDied(spec: OrderSpec)
    | StrayExecuted(k: nat, fill: Fill)
    | Executed(k: nat, fill: Fill)
    | Finished(k: nat)
    | Polled(k: nat, snapshot: Snapshot)
    | CancelRequested(k: nat, snapshot: Snapshot)
    | Restarted

  /** What the periodic poller selects: live and known to the exchange. */
  predicate Pollable(o: Order) {
    !IsTerminal(o.status) && o.exchangeId != ""
  }

  function AckStatus(ack: Ack): OrderStatus {
    match ack
    case Accepted(_) => Submitted
    case Refused => Rejected
    case CreateTimedOut => Unknown
  }

  /** The create request's answer, as submit-and-track persists it. */
  function Acknowledged(o: Order, ack: Ack): Order {
    o.(status := AckStatus(ack), exchangeId := if ack.Accepted? then ack.exchangeId else o.exchangeId)
  }

  /** A snapshot is honest when it reveals some of the exchange's fills, and when it claims a complete
      history for a filled or cancelled order it reveals all of them and the order is final. */
  ghost predicate Honest(r: Remote, s: Snapshot) {
    && (forall f <- s.fills :: f in r.fills)
    && (s.status in {Filled, Cancelled} && s.complete ==> r.final && forall f <- r.fills :: f in s.fills)
    && (s.status == Rejected && s.complete ==> r.final && r.fills == [])
  }

  /** What the environment may do in a given state of the world. */
  ghost predicate Possible(w: World, ev: Event) {
    match ev
    case Placed(spec, ack) => spec.id == |w.books.orders| && (ack.Accepted? ==> ack.exchangeId != "")
    case PlacedThenDied(spec) => true
    case StrayExecuted(k, fill) =>
      k < |w.strays| && !w.strays[k].remote.final && fill.id !in FillIds(w.strays[k].remote.fills)
    case Executed(k, fill) => k < |w.remotes| && !w.remotes[k].final && fill.id !in FillIds(w.remotes[k].fills)
    case Finished(k) => k < |w.remotes|
    case Polled(k, s) => k < |w.remotes| && Honest(w.remotes[k], s)
    case CancelRequested(k, s) => k < |w.remotes| && Honest(w.remotes[k], s)
    case Restarted => true
  }

  function Settled(w: World, k: nat, s: Snapshot): World
    requires k < |w.books.orders|
  {
    w.(books := SnapshotApplied(w.books, k, s, w.maxApiFailures).0)
  }

  function MarkedCancelling(b: Books, k: nat): Books
    requires k < |b.orders|
  {
    b.(orders := b.orders[k := b.orders[k].(status := CancelPending)],
       events := b.events + [OrderEvent(b.orders[k].spec.id, b.orders[k].status, CancelPending)])
  }

  /** Saving, submitting and acknowledging in one tick, with the audit row of the acknowledgement. */
  function OrderPlaced(b: Books, spec: OrderSpec, ack: Ack): Books {
    b.(orders := b.orders + [Acknowledged(SavedOrder(spec), ack)],
       events := b.events + [OrderEvent(spec.id, PendingSubmit, AckStatus(ack))])
  }

  function StrayAfter(stray: Stray, fill: Fill): Stray {
    stray.(remote := stray.remote.(fills := stray.remote.fills + [fill]))
  }

  function Next(w: World, ev: Event): World {
    match ev
    case Placed(spec, ack) =>
      w.(books := OrderPlaced(w.books, spec, ack), remotes := w.remotes + [Remote([], ack.Refused?)])
    case PlacedThenDied(spec) => w.(strays := w.strays + [Stray(spec, Remote([], false))])
    case StrayExecuted(k, fill) =>
      if k < |w.strays| then w.(strays := w.strays[k := StrayAfter(w.strays[k], fill)]) else w
    case Executed(k, fill) =>
      if k < |w.remotes| then w.(remotes := w.remotes[k := w.remotes[k].(fills := w.remotes[k].fills + [fill])]) else w
    case Finished(k) =>
      if k < |w.remotes| then w.(remotes := w.remotes[k := w.remotes[k].(final := true)]) else w
    case Polled(k, s) =>
      if k < |w.books.orders| && Pollable(w.books.orders[k]) then Settled(w, k, s) else w
    case CancelRequested(k, s) =>
      // An order already in CANCEL_PENDING makes the transition raise and the whole request roll back.
      if k < |w.books.orders| && Pollable(w.books.orders[k]) && CanMove(w.books.orders[k].status, CancelPending)
      then Settled(w.(books := MarkedCancelling(w.books, k)), k, s) else w
    case Restarted => w
  }

  /** The cancellation request raises exactly for a live order that is already being cancelled. */
  lemma {:induction false} CancelRaisesOnlyWhileCancelling(o: Order)
    requires Pollable(o) && o.status != PendingSubmit
    ensures !CanMove(o.status, CancelPending) <==> o.status == CancelPending
  {
  }

  // ---- the invariant ----

  ghost predicate OrderInvariant(o: Order, ledger: seq<Fill>, r: Remote) {
    && DistinctIds(r.fills)
    && (forall f <- ledger :: f in r.fills)
    && (o.status in {Filled, Cancelled} ==> r.final && forall f <- r.fills :: f in ledger)
    && (o.status == Rejected ==> r.final && r.fills == [])
    && (o.exchangeId == "" ==> o.status in {Unknown, Rejected})
    && o.status != PendingSubmit
  }

  ghost predicate Invariant(w: World) {
    && Consistent(w.books)
    && |w.remotes| == |w.books.orders|
    && (forall k :: 0 <= k < |w.remotes| ==>
          OrderInvariant(w.books.orders[k], RowsOf(w.books.executions, k), w.remotes[k]))
    && forall k :: 0 <= k < |w.strays| ==> DistinctIds(w.strays[k].remote.fills)
  }

  lemma {:induction false} SameIdSameFill(fills: seq<Fill>, f: Fill, g: Fill)
    requires DistinctIds(fills) && f in fills && g in fills && f.id == g.id
    ensures f == g
  {
  }

  /** After recording an honest report the ledger still holds only exchange fills, and holds every
      fill of the report. */
  lemma {:induction false} RecordingAnHonestReport(ledger: seq<Fill>, report: seq<Fill>, remote: seq<Fill>)
    requires DistinctIds(remote)
    requires forall f <- ledger :: f in remote
    requires forall f <- report :: f in remote
    ensures forall f <- Recorded(ledger, report) :: f in remote
    ensures forall f <- report :: f in Recorded(ledger, report)
    ensures forall f <- ledger :: f in Recorded(ledger, report)
  {
    NewFillsAreExactlyTheUnknownOnes(FillIds(ledger), report);
    var all := Recorded(ledger, report);
    assert forall f :: f in all <==> f in ledger || f in NewFills(FillIds(ledger), report);
    forall f | f in report
      ensures f in all
    {
      var g: Fill :| g in all && g.id == f.id;
      SameIdSameFill(remote, f, g);
    }
  }

  lemma {:induction false} SettlingKeepsTheOrderInvariant(o: Order, ledger: seq<Fill>, r: Remote, s: Snapshot)
    requires OrderInvariant(o, ledger, r) && Honest(r, s) && Pollable(o)
    ensures SyncedStatus(o, s).Some?
    ensures OrderInvariant(SyncedStatus(o, s).value, Recorded(ledger, s.fills), r)
  {
    ApplyingAStatusNeverRaises(o, s);
    RecordingAnHonestReport(ledger, s.fills, r.fills);
  }

  lemma {:induction false} InvariantIgnoresTotals(o: Order, rows: seq<Execution>, ledger: seq<Fill>, r: Remote)
    ensures OrderInvariant(Retotalled(o, rows), ledger, r) == OrderInvariant(o, ledger, r)
  {
  }

  lemma {:induction false} SettlingKeepsTheInvariant(w: World, k: nat, s: Snapshot)
    requires Invariant(w) && k < |w.remotes| && Honest(w.remotes[k], s) && Pollable(w.books.orders[k])
    ensures Invariant(Settled(w, k, s))
  {
    var b := w.books;
    SnapshotKeepsConsistency(b, k, s, w.maxApiFailures);
    ApplyingAStatusNeverRaises(b.orders[k], s);
    SettlingKeepsTheOrderInvariant(b.orders[k], RowsOf(b.executions, k), w.remotes[k], s);
    var after := Settled(w, k, s).books;
    forall j | 0 <= j < |w.remotes|
      ensures OrderInvariant(after.orders[j], RowsOf(after.executions, j), w.remotes[j])
    {
      LedgerAfterNewRows(b.executions, b.orders[k].spec, s.fills, j);
      InvariantIgnoresTotals(SyncedStatus(b.orders[k], s).value, after.executions, RowsOf(after.executions, k), w.remotes[k]);
    }
  }

  lemma {:induction false} PlacingKeepsTheInvariant(w: World, spec: OrderSpec, ack: Ack)
    requires Invariant(w) && Possible(w, Placed(spec, ack))
    ensures Invariant(Next(w, Placed(spec, ack)))
  {
    SavingKeepsConsistency(w.books, spec);
  }

  lemma {:induction false} MarkingKeepsTheInvariant(w: World, k: nat)
    requires Invariant(w) && k < |w.remotes| && Pollable(w.books.orders[k]) && CanMove(w.books.orders[k].status, CancelPending)
    ensures Invariant(w.(books := MarkedCancelling(w.books, k)))
    ensures Pollable(MarkedCancelling(w.books, k).orders[k])
  {
  }

  lemma {:induction false} CancellingKeepsTheInvariant(w: World, k: nat, s: Snapshot)
    requires Invariant(w) && Possible(w, CancelRequested(k, s))
    ensures Invariant(Next(w, CancelRequested(k, s)))
  {
    if Pollable(w.books.orders[k]) && CanMove(w.books.orders[k].status, CancelPending) {
      MarkingKeepsTheInvariant(w, k);
      SettlingKeepsTheInvariant(w.(books := MarkedCancelling(w.books, k)), k, s);
    }
  }

  lemma {:induction false} ExecutingKeepsTheInvariant(w: World, k: nat, fill: Fill)
    requires Invariant(w) && Possible(w, Executed(k, fill))
    ensures Invariant(Next(w, Executed(k, fill)))
  {
    assert forall f :: f in w.remotes[k].fills ==> f.id in FillIds(w.remotes[k].fills);
  }

  lemma {:induction false} EveryEventKeepsTheInvariant(w: World, ev: Event)
    requires Invariant(w) && Possible(w, ev)
    ensures Invariant(Next(w, ev))
  {
    match ev
    case Placed(spec, ack) => PlacingKeepsTheInvariant(w, spec, ack);
    case PlacedThenDied(spec) =>
    case StrayExecuted(k, fill) =>
      assert forall f :: f in w.strays[k].remote.fills ==> f.id in FillIds(w.strays[k].remote.fills);
    case Executed(k, fill) => ExecutingKeepsTheInvariant(w, k, fill);
    case Finished(k) =>
    case Polled(k, s) =>
      if Pollable(w.books.orders[k]) {
        SettlingKeepsTheInvariant(w, k, s);
      }
    case CancelRequested(k, s) => CancellingKeepsTheInvariant(w, k, s);
    case Restarted =>
  }

  // ---- whole runs ----

  function RunFrom(w: World, events: seq<Event>): World {
    if events == [] then w else Next(RunFrom(w, events[..|events| - 1]), events[|events| - 1])
  }

  ghost predicate PossibleRun(w: World, events: seq<Event>) {
    events == [] ||
    var n := |events| - 1;
    PossibleRun(w, events[..n]) && Possible(RunFrom(w, events[..n]), events[n])
  }

  const NO_BOOKS := Books([], [], [], [], SystemState(false, false, false, 0, false, false, false, Starting), 0, 0)

  function Empty(maxApiFailures: nat): World {
    World(NO_BOOKS, [], [], maxApiFailures)
  }

  lemma {:induction false} EveryRunKeepsTheInvariant(w: World, events: seq<Event>)
    requires Invariant(w) && PossibleRun(w, events)
    ensures Invariant(RunFrom(w, events))
    decreases |events|
  {
    if events == [] {
    } else {
      var n := |events| - 1;
      EveryRunKeepsTheInvariant(w, events[..n]);
      EveryEventKeepsTheInvariant(RunFrom(w, events[..n]), events[n]);
    }
  }

  /** No fill is ever lost or invented: after any run, an order's ledger is a duplicate-free subset of
      what the exchange executed; once the order is FILLED or CANCELLED it is all of it, forever. */
  lemma {:induction false} NoFillIsEverLost(maxApiFailures: nat, events: seq<Event>, k: nat)
    requires PossibleRun(Empty(maxApiFailures), events)
    requires k < |RunFrom(Empty(maxApiFailures), events).remotes|
    ensures var w := RunFrom(Empty(maxApiFailures), events);
      |w.books.orders| == |w.remotes| &&
      var o, ledger, r := w.books.orders[k], RowsOf(w.books.executions, k), w.remotes[k];
      && DistinctIds(ledger)
      && (set f <- ledger) <= (set f <- r.fills)
      && (o.status in {Filled, Cancelled} ==> r.final && (set f <- ledger) == (set f <- r.fills))
      && (o.status == Rejected ==> ledger == [] == r.fills)
      && (o.exchangeId == "" ==> o.status in {Unknown, Rejected})
      && o.totals == TotalsOf(ledger)
  {
    EveryRunKeepsTheInvariant(Empty(maxApiFailures), events);
    var w := RunFrom(Empty(maxApiFailures), events);
    var o, ledger, r := w.books.orders[k], RowsOf(w.books.executions, k), w.remotes[k];
    assert ledger != [] ==> ledger[0] in r.fills;
  }

  /** An exchange id, once stored, is never lost, and orders are never removed. */
  lemma {:induction false} IdsAreKept(w: World, ev: Event, k: nat)
    requires Invariant(w) && Possible(w, ev) && k < |w.books.orders| && w.books.orders[k].exchangeId != ""
    ensures var after := Next(w, ev).books;
      k < |after.orders| && after.orders[k].exchangeId == w.books.orders[k].exchangeId
  {
    match ev
    case Polled(j, s) => ApplyingAStatusNeverRaises(w.books.orders[j], s);
    case CancelRequested(j, s) =>
      if CanMove(w.books.orders[j].status, CancelPending) {
        ApplyingAStatusNeverRaises(MarkedCancelling(w.books, j).orders[j], s);
      }
    case _ =>
  }

  /** What an accepted order is at any later time: known to the exchange under the id it was given, and either still
      selected by the poller or terminal with a proven history. */
  ghost predicate KeptInSight(w: World, k: nat, exchangeId: string) {
    && k < |w.books.orders| && k < |w.remotes| && w.books.orders[k].exchangeId == exchangeId
    && var o, ledger, r := w.books.orders[k], RowsOf(w.books.executions, k), w.remotes[k];
    || Pollable(o)
    || (o.status in {Filled, Cancelled} && r.final && (set f <- ledger) == (set f <- r.fills))
    || (o.status == Rejected && r.final && ledger == [] == r.fills)
  }

  lemma {:induction false} IdsAreKeptOnRuns(w: World, events: seq<Event>, k: nat)
    requires Invariant(w) && PossibleRun(w, events) && k < |w.books.orders| && w.books.orders[k].exchangeId != ""
    ensures var after := RunFrom(w, events);
      k < |after.books.orders| && after.books.orders[k].exchangeId == w.books.orders[k].exchangeId
    decreases |events|
  {
    if events == [] {
    } else {
      var n := |events| - 1;
      IdsAreKeptOnRuns(w, events[..n], k);
      EveryRunKeepsTheInvariant(w, events[..n]);
      IdsAreKept(RunFrom(w, events[..n]), events[n], k);
    }
  }

  /** An accepted order is never lost sight of: after every continuation it still has its exchange id and is
      re-pollable, or terminal with everything the exchange executed on file. */
  lemma {:induction false} AcceptedOrdersStayInSight(w: World, spec: OrderSpec, exchangeId: string, events: seq<Event>)
    requires Invariant(w) && Possible(w, Placed(spec, Accepted(exchangeId)))
    requires PossibleRun(Next(w, Placed(spec, Accepted(exchangeId))), events)
    ensures KeptInSight(RunFrom(Next(w, Placed(spec, Accepted(exchangeId))), events), |w.books.orders|, exchangeId)
  {
    var placed, k := Next(w, Placed(spec, Accepted(exchangeId))), |w.books.orders|;
    PlacingKeepsTheInvariant(w, spec, Accepted(exchangeId));
    IdsAreKeptOnRuns(placed, events, k);
    EveryRunKeepsTheInvariant(placed, events);
    var after := RunFrom(placed, events);
    var ledger := RowsOf(after.books.executions, k);
    assert OrderInvariant(after.books.orders[k], ledger, after.remotes[k]);
    assert ledger != [] ==> ledger[0] in ledger;
  }

  lemma {:induction false} SnapshotIsLocal(b: Books, j: nat, s: Snapshot, maxApiFailures: nat, k: nat)
    requires j < |b.orders| && k < |b.orders| && j != k && b.orders[j].spec.id == j
    ensures var after := SnapshotApplied(b, j, s, maxApiFailures).0;
      && |after.orders| == |b.orders| && after.orders[k] == b.orders[k]
      && RowsOf(after.executions, k) == RowsOf(b.executions, k)
  {
    ApplyingAStatusNeverRaises(b.orders[j], s);
    LedgerAfterNewRows(b.executions, b.orders[j].spec, s.fills, k);
  }

  /** Settling one pollable order leaves every other order and its ledger alone. */
  lemma {:induction false} SettlingIsLocal(w: World, j: nat, s: Snapshot, k: nat)
    requires Invariant(w) && j < |w.books.orders| && k < |w.books.orders| && j != k && Pollable(w.books.orders[j])
    ensures var after := Settled(w, j, s).books;
      && k < |after.orders| && after.orders[k] == w.books.orders[k]
      && RowsOf(after.executions, k) == RowsOf(w.books.executions, k)
  {
    SnapshotIsLocal(w.books, j, s, w.maxApiFailures, k);
  }

  /** An order the poller does not select keeps its status and its ledger whatever happens next. */
  lemma {:induction false} UnpollableOrdersAreFrozen(w: World, ev: Event, k: nat)
    requires Invariant(w) && Possible(w, ev)
    requires k < |w.books.orders| && !Pollable(w.books.orders[k])
    ensures var after := Next(w, ev).books;
      && k < |after.orders| && after.orders[k] == w.books.orders[k]
      && RowsOf(after.executions, k) == RowsOf(w.books.executions, k)
  {
    match ev
    case Polled(j, s) =>
      if Pollable(w.books.orders[j]) {
        SettlingIsLocal(w, j, s, k);
      }
    case CancelRequested(j, s) =>
      if Pollable(w.books.orders[j]) && CanMove(w.books.orders[j].status, CancelPending) {
        MarkingKeepsTheInvariant(w, j);
        SettlingIsLocal(w.(books := MarkedCancelling(w.books, j)), j, s, k);
      }
    case _ =>
  }

  /** Terminal orders stay as they are on every continuation of every run; so do orders whose create
      request timed out, which keep status UNKNOWN and are never asked about again. */
  lemma {:induction false} TerminalAndUnacknowledgedOrdersAreFrozenForever(w: World, events: seq<Event>, k: nat)
    requires Invariant(w) && PossibleRun(w, events)
    requires k < |w.books.orders| && !Pollable(w.books.orders[k])
    ensures var after := RunFrom(w, events).books;
      && k < |after.orders| && after.orders[k] == w.books.orders[k]
      && RowsOf(after.executions, k) == RowsOf(w.books.executions, k)
    decreases |events|
  {
    if events == [] {
    } else {
      var n := |events| - 1;
      TerminalAndUnacknowledgedOrdersAreFrozenForever(w, events[..n], k);
      EveryRunKeepsTheInvariant(w, events[..n]);
      UnpollableOrdersAreFrozen(RunFrom(w, events[..n]), events[n], k);
    }
  }

  /** A create request that timed out leaves an order without an exchange id. The exchange may have
      accepted it and may execute it, but on no continuation is any of its fills ever recorded: the
      order stays UNKNOWN with an empty ledger. */
  lemma {:induction false} TimedOutCreateLosesItsFills(w: World, spec: OrderSpec, fill: Fill, events: seq<Event>)
    requires Invariant(w) && Possible(w, Placed(spec, CreateTimedOut))
    requires PossibleRun(Next(w, Placed(spec, CreateTimedOut)), events)
    ensures var k := |w.books.orders|;
      var placed := Next(w, Placed(spec, CreateTimedOut));
      var after := RunFrom(placed, events).books;
      && k < |placed.remotes|
      && Possible(placed, Executed(k, fill)) && fill in Next(placed, Executed(k, fill)).remotes[k].fills
      && k < |after.orders| && after.orders[k].status == Unknown && RowsOf(after.executions, k) == []
  {
    var k := |w.books.orders|;
    var placed := Next(w, Placed(spec, CreateTimedOut));
    PlacingKeepsTheInvariant(w, spec, CreateTimedOut);
    SavingKeepsConsistency(w.books, spec);
    TerminalAndUnacknowledgedOrdersAreFrozenForever(placed, events, k);
  }

  // ---- the kill switch ----

  /** One order of the request: nothing to do, marked and asked about, or a raise. */
  function CancelTried(v: World, k: nat, s: Snapshot): (r: Option<World>)
    requires k < |v.books.orders|
    ensures r.Some? ==> |r.value.books.orders| == |v.books.orders|
  {
    var o := v.books.orders[k];
    if !Pollable(o) then Some(v)
    else if CanMove(o.status, CancelPending) then Some(Settled(v.(books := MarkedCancelling(v.books, k)), k, s))
    else None
  }

  /** The request up to order n - 1: each live order known to the exchange is marked and asked about in turn; the first
      one that is already being cancelled makes the request raise. */
  function CancelledUpTo(w: World, n: nat, snapshots: seq<Snapshot>): (r: Option<World>)
    requires n <= |w.books.orders| && n <= |snapshots|
    ensures r.Some? ==> |r.value.books.orders| == |w.books.orders|
  {
    if n == 0 then Some(w)
    else
      match CancelledUpTo(w, n - 1, snapshots)
      case None => None
      case Some(v) => CancelTried(v, n - 1, snapshots[n - 1])
  }

  function SwitchSet(w: World): World {
    w.(books := w.books.(system := Recomputed(w.books.system.(killSwitch := true), w.maxApiFailures)))
  }

  /** Engaging the kill switch: one transaction, so that a raise takes the switch itself back. */
  function KillSwitchRequested(w: World, snapshots: seq<Snapshot>): World
    requires |snapshots| == |w.books.orders|
  {
    match CancelledUpTo(SwitchSet(w), |w.books.orders|, snapshots)
    case Some(v) => v
    case None => w
  }

  /** An order that keeps a kill-switch request from taking effect. */
  predicate AlreadyCancelling(o: Order) {
    o.status == CancelPending && o.exchangeId != ""
  }

  ghost predicate AllHonest(w: World, snapshots: seq<Snapshot>) {
    |w.remotes| == |snapshots| == |w.books.orders| && forall k :: 0 <= k < |snapshots| ==> Honest(w.remotes[k], snapshots[k])
  }

  /** What a request leaves alone before it reaches order n: the exchange, the switch, and every order from n on. */
  ghost predicate SameBeyond(w: World, v: World, n: nat) {
    && n <= |v.books.orders| == |w.books.orders| && v.remotes == w.remotes
    && v.books.system.killSwitch == w.books.system.killSwitch
    && v.books.orders[n..] == w.books.orders[n..]
  }

  lemma {:induction false} OneOrderIsTouched(v: World, k: nat, s: Snapshot)
    requires k < |v.books.orders|
    ensures var r := CancelTried(v, k, s);
      r.Some? ==> SameBeyond(v, r.value, k + 1)
  {
  }

  lemma {:induction false} SameBeyondBoth(w: World, v: World, u: World, n: nat)
    requires SameBeyond(w, v, n) && n < |w.books.orders| && SameBeyond(v, u, n + 1)
    ensures SameBeyond(w, u, n + 1)
  {
    assert v.books.orders[n + 1..] == v.books.orders[n..][1..] && w.books.orders[n + 1..] == w.books.orders[n..][1..];
  }

  /** Nothing an order's own cancellation does concerns the later orders, the exchange or the switch. */
  lemma {:induction false} CancellingIsLocal(w: World, n: nat, snapshots: seq<Snapshot>)
    requires n <= |w.books.orders| && n <= |snapshots|
    ensures var r := CancelledUpTo(w, n, snapshots);
      r.Some? ==> SameBeyond(w, r.value, n)
    decreases n
  {
    if n == 0 {
    } else {
      CancellingIsLocal(w, n - 1, snapshots);
      var before := CancelledUpTo(w, n - 1, snapshots);
      var after := CancelledUpTo(w, n, snapshots);
      if after.Some? {
        OneOrderIsTouched(before.value, n - 1, snapshots[n - 1]);
        SameBeyondBoth(w, before.value, after.value, n - 1);
      }
    }
  }

  lemma {:induction false} ExchangeStays(w: World, n: nat, snapshots: seq<Snapshot>)
    requires n <= |w.books.orders| && n <= |snapshots|
    ensures var r := CancelledUpTo(w, n, snapshots); r.Some? ==> r.value.remotes == w.remotes
  {
    CancellingIsLocal(w, n, snapshots);
  }

  /** The cancellations a request consists of. */
  function Cancellations(snapshots: seq<Snapshot>, n: nat): seq<Event>
    requires n <= |snapshots|
  {
    seq(n, k requires 0 <= k < n => CancelRequested(k, snapshots[k]))
  }

  lemma {:induction false} TryingIsTheEvent(v: World, k: nat, s: Snapshot)
    requires k < |v.books.orders|
    ensures var r := CancelTried(v, k, s); r.Some? ==> r.value == Next(v, CancelRequested(k, s))
  {
  }

  /** A request that does not raise is the run of its cancellations. */
  lemma {:induction false} RequestIsARun(w: World, n: nat, snapshots: seq<Snapshot>)
    requires n <= |w.books.orders| && AllHonest(w, snapshots) && CancelledUpTo(w, n, snapshots).Some?
    ensures PossibleRun(w, Cancellations(snapshots, n))
    ensures CancelledUpTo(w, n, snapshots).value == RunFrom(w, Cancellations(snapshots, n))
    decreases n
  {
    if n == 0 {
    } else {
      var before := CancelledUpTo(w, n - 1, snapshots).value;
      var events := Cancellations(snapshots, n);
      RequestIsARun(w, n - 1, snapshots);
      assert events[..n - 1] == Cancellations(snapshots, n - 1);
      ExchangeStays(w, n - 1, snapshots);
      TryingIsTheEvent(before, n - 1, snapshots[n - 1]);
      assert Honest(w.remotes[n - 1], snapshots[n - 1]);
    }
  }

  /** None of the first n orders keeps the request from taking effect. */
  predicate NoneCancelling(orders: seq<Order>, n: nat)
    requires n <= |orders|
  {
    n == 0 || (NoneCancelling(orders, n - 1) && !AlreadyCancelling(orders[n - 1]))
  }

  lemma {:induction false} NoneCancellingMeansNone(orders: seq<Order>, n: nat)
    requires n <= |orders|
    ensures NoneCancelling(orders, n) <==> forall k :: 0 <= k < n ==> !AlreadyCancelling(orders[k])
    decreases n
  {
    if n == 0 {
    } else {
      NoneCancellingMeansNone(orders, n - 1);
    }
  }

  /** No order is one the request has not been built for: a live one has left its initial status. */
  ghost predicate AllSubmitted(orders: seq<Order>) {
    forall k :: 0 <= k < |orders| ==> orders[k].status != PendingSubmit
  }

  lemma {:induction false} TriedExactlyWhen(w: World, v: World, k: nat, s: Snapshot)
    requires SameBeyond(w, v, k) && k < |w.books.orders| && w.books.orders[k].status != PendingSubmit
    ensures CancelTried(v, k, s).Some? <==> !AlreadyCancelling(w.books.orders[k])
  {
    assert v.books.orders[k..][0] == w.books.orders[k..][0];
    var o := w.books.orders[k];
    if Pollable(o) {
      CancelRaisesOnlyWhileCancelling(o);
    }
  }

  lemma {:induction false} CancelsUpToExactlyWhen(w: World, n: nat, snapshots: seq<Snapshot>)
    requires AllSubmitted(w.books.orders) && n <= |w.books.orders| && n <= |snapshots|
    ensures CancelledUpTo(w, n, snapshots).Some? <==> NoneCancelling(w.books.orders, n)
    decreases n
  {
    if n == 0 {
    } else {
      CancelsUpToExactlyWhen(w, n - 1, snapshots);
      CancellingIsLocal(w, n - 1, snapshots);
      var before := CancelledUpTo(w, n - 1, snapshots);
      if before.Some? {
        TriedExactlyWhen(w, before.value, n - 1, snapshots[n - 1]);
      }
    }
  }

  lemma {:induction false} InvariantMeansSubmitted(w: World)
    requires Invariant(w)
    ensures AllSubmitted(w.books.orders)
  {
    forall k | 0 <= k < |w.books.orders|
      ensures w.books.orders[k].status != PendingSubmit
    {
      assert OrderInvariant(w.books.orders[k], RowsOf(w.books.executions, k), w.remotes[k]);
    }
  }

  lemma {:induction false} SettingKeepsTheInvariant(w: World)
    requires Invariant(w)
    ensures Invariant(SwitchSet(w)) && SwitchSet(w).books.orders == w.books.orders
    ensures SwitchSet(w).books.system.killSwitch
  {
  }

  /** Exactly when engaging the kill switch takes effect: when no live order known to the exchange is already being
      cancelled. A single such order rolls the whole request back, the switch included. */
  lemma {:induction false} KillSwitchEngagesExactlyWhen(w: World, snapshots: seq<Snapshot>)
    requires Invariant(w) && AllHonest(w, snapshots)
    ensures var after := KillSwitchRequested(w, snapshots);
      && Invariant(after)
      && if forall o <- w.books.orders :: !AlreadyCancelling(o) then after.books.system.killSwitch else after == w
  {
    var n := |w.books.orders|;
    var engaged := SwitchSet(w);
    SettingKeepsTheInvariant(w);
    InvariantMeansSubmitted(w);
    CancellingIsLocal(engaged, n, snapshots);
    CancelsUpToExactlyWhen(engaged, n, snapshots);
    if CancelledUpTo(engaged, n, snapshots).Some? {
      RequestIsARun(engaged, n, snapshots);
      EveryRunKeepsTheInvariant(engaged, Cancellations(snapshots, n));
    }
    NoneCancellingMeansNone(w.books.orders, n);
    assert (forall o <- w.books.orders :: !AlreadyCancelling(o)) <==>
      forall k :: 0 <= k < n ==> !AlreadyCancelling(w.books.orders[k]);
  }

  /** Two polls that prove the same terminal status settle any pollable order, whatever status it
      was in: an illegal first move lands in UNKNOWN, from which the second is legal. */
  lemma {:induction false} TwoProofsSettleAnOrder(o: Order, s: Snapshot)
    requires Pollable(o) && IsTerminal(s.status) && s.complete
    ensures SyncedStatus(o, s).Some? && SyncedStatus(SyncedStatus(o, s).value, s).Some?
    ensures SyncedStatus(SyncedStatus(o, s).value, s).value.status == s.status
  {
    ApplyingAStatusNeverRaises(o, s);
    ApplyingAStatusNeverRaises(SyncedStatus(o, s).value, s);
  }

  /** The events that concern an exchange order without a local row. */
  predicate Unseen(ev: Event) {
    ev.PlacedThenDied? || ev.StrayExecuted?
  }

  function WithoutStrays(events: seq<Event>): seq<Event> {
    if events == [] then []
    else
      var n := |events| - 1;
      if Unseen(events[n]) then WithoutStrays(events[..n]) else WithoutStrays(events[..n]) + [events[n]]
  }

  /** The exact consequence of dying between the create request and the commit: the tables are those of the same run
      without the order, so nothing the exchange does to it is ever recorded, and no other order is affected. */
  lemma {:induction false} StraysLeaveNoTrace(w: World, events: seq<Event>)
    ensures var after, seen := RunFrom(w, events), RunFrom(w, WithoutStrays(events));
      after.books == seen.books && after.remotes == seen.remotes && after.maxApiFailures == seen.maxApiFailures
    decreases |events|
  {
    if events == [] {
    } else {
      var n := |events| - 1;
      StraysLeaveNoTrace(w, events[..n]);
      if !Unseen(events[n]) {
        var before := WithoutStrays(events[..n]);
        assert (before + [events[n]])[..|before|] == before;
        SameTablesSameStep(RunFrom(w, events[..n]), RunFrom(w, before), events[n]);
      }
    }
  }

  lemma {:induction false} SameTablesSameStep(w: World, v: World, ev: Event)
    requires w.books == v.books && w.remotes == v.remotes && w.maxApiFailures == v.maxApiFailures && !Unseen(ev)
    ensures Next(w, ev).books == Next(v, ev).books && Next(w, ev).remotes == Next(v, ev).remotes
    ensures Next(w, ev).maxApiFailures == Next(v, ev).maxApiFailures
  {
  }
}
