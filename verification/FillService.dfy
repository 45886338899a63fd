/** The trading tables and the single fill applier: app/execution/fill_service.py over the order,
    execution, position and system-state helpers of app/persistence/repo.py. */
module FillService {
  import opened Basics
  import opened OrderState
  import opened FillLedger
  import opened PositionBook

  datatype Order = Order(
    spec: OrderSpec, status: OrderStatus, exchangeId: string, totals: Totals,
    pendingStatus: Option<OrderStatus>, fillsInSync: bool)

  /** The exchange's current view of one order, as poll_order() reports it. */
  datatype Snapshot = Snapshot(exchangeId: string, status: OrderStatus, fills: seq<Fill>, complete: bool)

  datatype OrderEvent = OrderEvent(orderId: nat, from: OrderStatus, to: OrderStatus)

  datatype OperationalState = Starting | Observing | Active | Paused | Blocked | Stopping

  datatype SystemState = SystemState(
    killSwitch: bool, ambiguous: bool, clockOutOfSync: bool, apiFailures: nat,
    diverged: bool, unknownOrders: bool, tradingBlocked: bool, operational: OperationalState)

  datatype Outcome = Outcome(status: OrderStatus, newFills: nat, realized: real, closedFully: Option<bool>)

  /** The persisted tables. */
  datatype Books = Books(
    orders: seq<Order>, executions: seq<Execution>, positions: seq<Position>,
    events: seq<OrderEvent>, system: SystemState, fillsCount: nat, blockedFills: nat)

  /** Blocking is derived from its causes every time, and entering again after a block always
      goes through observation. */
  function Recomputed(st: SystemState, maxApiFailures: nat): SystemState {
    var blocked := st.killSwitch || st.ambiguous || st.clockOutOfSync || st.apiFailures >= maxApiFailures
                   || st.diverged || st.unknownOrders;
    var operational :=
      if st.operational.Stopping? then Stopping
      else if blocked then Blocked
      else if st.operational.Blocked? then Observing
      else st.operational;
    st.(tradingBlocked := blocked, operational := operational)
  }

  /** Deriving the block again changes nothing; it never activates trading, never leaves a shutdown, and while a cause
      remains nothing but a shutdown hides it. */
  lemma {:induction false} BlocksFollowTheirCauses(st: SystemState, maxApiFailures: nat)
    ensures var r := Recomputed(st, maxApiFailures);
      && Recomputed(r, maxApiFailures) == r
      && (r.operational.Active? ==> st.operational.Active? && !r.tradingBlocked)
      && (r.operational.Stopping? <==> st.operational.Stopping?)
      && (r.operational.Blocked? ==> r.tradingBlocked)
      && (st.killSwitch || st.ambiguous || st.diverged || st.unknownOrders ==>
        r.tradingBlocked && r.operational in {Blocked, Stopping})
  {
  }

  predicate HasUnknown(orders: seq<Order>) {
    exists o <- orders :: o.status == Unknown
  }

  /** transition_order_status: the new order, or nothing when the table forbids the move. */
  function Transition(o: Order, to: OrderStatus): Option<Order> {
    if CanMove(o.status, to) then Some(o.(status := to)) else None
  }

  function WithExchangeId(o: Order, s: Snapshot): Order {
    if s.exchangeId != "" && o.exchangeId == "" then o.(exchangeId := s.exchangeId) else o
  }

  /** The status half of applying a snapshot; nothing would mean that the applier raises. */
  function SyncedStatus(o: Order, s: Snapshot): Option<Order> {
    if IsTerminal(s.status) && !s.complete then
      Some(WithExchangeId(o, s).(pendingStatus := Some(s.status), fillsInSync := false))
    else if s.status != o.status then
      var o' := WithExchangeId(o, s);
      match Transition(o', s.status)
      case Some(moved) =>
        Some(if IsTerminal(s.status) then moved.(fillsInSync := true, pendingStatus := None) else moved)
      case None =>
        if IsTerminal(o'.status) then Some(o') else Transition(o', Unknown)
    else
      Some(o)
  }

  /** No snapshot makes the applier raise, a terminal status is never left, and a terminal status
      with an unproven fill history is never adopted. */
  lemma {:induction false} ApplyingAStatusNeverRaises(o: Order, s: Snapshot)
    ensures SyncedStatus(o, s).Some?
    ensures var o' := SyncedStatus(o, s).value;
      && o'.spec == o.spec && o'.totals == o.totals
      && (o.exchangeId != "" ==> o'.exchangeId == o.exchangeId)
      && (o'.status == o.status || CanMove(o.status, o'.status))
      && (IsTerminal(o.status) ==> o'.status == o.status)
      && (IsTerminal(o'.status) && o'.status != o.status ==> o'.status == s.status && s.complete)
      && (!IsTerminal(o.status) && IsTerminal(s.status) && s.complete ==> o'.status == s.status || o'.status == Unknown)
      && (IsTerminal(s.status) && !s.complete ==> o'.status == o.status && o'.pendingStatus == Some(s.status))
  {
    UnknownReconnectsEveryLiveStatus(o.status, s.status);
  }

  /** The audit row an applied snapshot leaves, when it moves the order. */
  function EventOf(before: Order, s: Snapshot): seq<OrderEvent> {
    if (IsTerminal(s.status) && !s.complete) || s.status == before.status then []
    else if CanMove(before.status, s.status) then [OrderEvent(before.spec.id, before.status, s.status)]
    else if IsTerminal(before.status) then []
    else [OrderEvent(before.spec.id, before.status, Unknown)]
  }

  predicate StillPartial(spec: OrderSpec, totals: Totals) {
    totals.filledQty < spec.qty - QTY_TOLERANCE
  }

  /** The rows a report adds to the ledger of one order. */
  function NewRows(rows: seq<Execution>, spec: OrderSpec, fills: seq<Fill>): seq<Execution> {
    var ledger := RowsOf(rows, spec.id);
    var news := NewFills(FillIds(ledger), fills);
    Tagged(spec, news, StillPartial(spec, TotalsOf(ledger + news)))
  }

  /** Order k with its totals derived again from every row on file. */
  function Retotalled(o: Order, rows: seq<Execution>): Order {
    o.(totals := TotalsOf(RowsOf(rows, o.spec.id)))
  }

  /** Applying a snapshot to order k: status, ledger, positions, block causes. */
  function SnapshotApplied(b: Books, k: nat, s: Snapshot, maxApiFailures: nat): (r: (Books, Outcome))
    requires k < |b.orders|
  {
    ApplyingAStatusNeverRaises(b.orders[k], s);
    var o := SyncedStatus(b.orders[k], s).value;
    var news := NewRows(b.executions, o.spec, s.fills);
    var executions := b.executions + news;
    var orders := b.orders[k := Retotalled(o, executions)];
    var applied := ApplyFills(b.positions, news);
    var system := b.system.(ambiguous := b.system.ambiguous || applied.blocked > 0, unknownOrders := HasUnknown(orders));
    (Books(orders, executions, applied.positions, b.events + EventOf(b.orders[k], s),
           Recomputed(system, maxApiFailures), b.fillsCount + |news|, b.blockedFills + applied.blocked),
     Outcome(o.status, |news|, applied.delta, applied.closed))
  }

  /** What every committed state of the tables satisfies. */
  ghost predicate Consistent(b: Books) {
    && (forall k :: 0 <= k < |b.orders| ==>
          b.orders[k].spec.id == k && b.orders[k].totals == TotalsOf(RowsOf(b.executions, k)))
    && (forall k :: 0 <= k < |b.orders| ==> DistinctIds(RowsOf(b.executions, k)))
    && (forall e <- b.executions :: e.order.id < |b.orders| && e.order == b.orders[e.order.id].spec)
    && OneOpenPerSymbol(b.positions)
  }

  lemma {:induction false} NoRowsOfUnsavedOrder(rows: seq<Execution>, k: nat)
    requires forall e <- rows :: e.order.id != k
    ensures RowsOf(rows, k) == []
    decreases |rows|
  {
    if rows == [] {
    } else {
      NoRowsOfUnsavedOrder(rows[..|rows| - 1], k);
    }
  }

  function SavedOrder(spec: OrderSpec): Order {
    Order(spec, PendingSubmit, "", NO_FILLS, None, true)
  }

  function OrderSaved(b: Books, spec: OrderSpec): Books {
    b.(orders := b.orders + [SavedOrder(spec)])
  }

  lemma {:induction false} SavingKeepsConsistency(b: Books, spec: OrderSpec)
    requires Consistent(b) && spec.id == |b.orders|
    ensures Consistent(OrderSaved(b, spec))
    ensures RowsOf(b.executions, spec.id) == []
  {
    NoRowsOfUnsavedOrder(b.executions, spec.id);
  }

  lemma {:induction false} LedgerAfterNewRows(rows: seq<Execution>, spec: OrderSpec, fills: seq<Fill>, k: nat)
    ensures RowsOf(rows + NewRows(rows, spec, fills), k) ==
      if k == spec.id then Recorded(RowsOf(rows, k), fills) else RowsOf(rows, k)
  {
    var news := NewFills(FillIds(RowsOf(rows, spec.id)), fills);
    var partial := StillPartial(spec, TotalsOf(RowsOf(rows, spec.id) + news));
    RowsOfConcat(rows, Tagged(spec, news, partial), k);
    RowsOfTagged(spec, news, partial, k);
    assert RowsOf(rows, k) + [] == RowsOf(rows, k);
  }

  lemma {:induction false} NewRowsRetotal(o: Order, rows: seq<Execution>, fills: seq<Fill>)
    ensures var ledger := RowsOf(rows, o.spec.id);
      Retotalled(o, rows + NewRows(rows, o.spec, fills)) == o.(totals := TotalsOf(Recorded(ledger, fills)))
  {
    LedgerAfterNewRows(rows, o.spec, fills, o.spec.id);
  }

  lemma {:induction false} NothingNew(b: Books, k: nat, fills: seq<Fill>)
    requires Consistent(b) && k < |b.orders| && NewFills(FillIds(RowsOf(b.executions, k)), fills) == []
    ensures NewRows(b.executions, b.orders[k].spec, fills) == []
    ensures Retotalled(b.orders[k], b.executions) == b.orders[k]
  {
  }

  /** Every snapshot, whatever it reports, keeps the tables consistent: totals stay derived, fill
      ids stay distinct per order, and a symbol never gets a second open position. */
  lemma {:induction false} SnapshotKeepsConsistency(b: Books, k: nat, s: Snapshot, maxApiFailures: nat)
    requires Consistent(b) && k < |b.orders|
    ensures Consistent(SnapshotApplied(b, k, s, maxApiFailures).0)
  {
    ApplyingAStatusNeverRaises(b.orders[k], s);
    var o := SyncedStatus(b.orders[k], s).value;
    var news := NewRows(b.executions, o.spec, s.fills);
    forall j | 0 <= j < |b.orders|
      ensures RowsOf(b.executions + news, j) ==
        if j == k then Recorded(RowsOf(b.executions, k), s.fills) else RowsOf(b.executions, j)
    {
      LedgerAfterNewRows(b.executions, o.spec, s.fills, j);
    }
    RecordingKeepsIdsDistinct(RowsOf(b.executions, k), s.fills);
    OneOpenIsKeptByAll(b.positions, news);
  }

  /** Applying the same snapshot twice changes the ledger and the positions once. */
  lemma {:induction false} SecondApplicationAddsNothing(b: Books, k: nat, s: Snapshot, maxApiFailures: nat)
    requires Consistent(b) && k < |b.orders|
    ensures var (once, _) := SnapshotApplied(b, k, s, maxApiFailures);
      var (twice, outcome) := SnapshotApplied(once, k, s, maxApiFailures);
      && outcome.newFills == 0
      && twice.executions == once.executions && twice.positions == once.positions
      && twice.orders[k].totals == once.orders[k].totals
  {
    ApplyingAStatusNeverRaises(b.orders[k], s);
    var (once, _) := SnapshotApplied(b, k, s, maxApiFailures);
    ApplyingAStatusNeverRaises(once.orders[k], s);
    SnapshotKeepsConsistency(b, k, s, maxApiFailures);
    LedgerAfterNewRows(b.executions, b.orders[k].spec, s.fills, k);
    NothingIsNewTwice(RowsOf(b.executions, k), s.fills);
    assert NewRows(once.executions, once.orders[k].spec, s.fills) == [];
    assert once.executions + [] == once.executions;
  }

  lemma {:induction false} NothingIsNewTwice(ledger: seq<Fill>, report: seq<Fill>)
    ensures NewFills(FillIds(Recorded(ledger, report)), report) == []
  {
    var known := FillIds(Recorded(ledger, report));
    var again := NewFills(known, report);
    assert again != [] ==> again[0] in again;
    NewFillsAreExactlyTheUnknownOnes(FillIds(ledger), report);
    NewFillsAreExactlyTheUnknownOnes(known, report);
    var news := NewFills(FillIds(ledger), report);
    forall f | f in report
      ensures f.id in known
    {
      assert forall g :: g in ledger || g in news ==> g in ledger + news;
    }
  }

  // ---- the first report of an order filled at once ----

  lemma {:induction false} OneFillOrder(rows: seq<Execution>, spec: OrderSpec, fill: Fill)
    requires RowsOf(rows, spec.id) == []
    ensures NewRows(rows, spec, [fill]) == [Execution(spec, fill, fill.qty < spec.qty - QTY_TOLERANCE)]
    ensures TotalsOf(Recorded(RowsOf(rows, spec.id), [fill])) == Totals(fill.qty, fill.price, fill.fee)
  {
    var ledger := RowsOf(rows, spec.id);
    assert FillIds(ledger) == {};
    assert NewFills({}, [fill]) == [fill] + NewFills({fill.id}, [fill][1..]);
    assert ledger + [fill] == [fill] == [] + [fill];
    TotalsGrow([], fill);
    QuotientOfProduct(fill.price, fill.qty);
    assert Tagged(spec, [fill], fill.qty < spec.qty - QTY_TOLERANCE) ==
      [Execution(spec, fill, fill.qty < spec.qty - QTY_TOLERANCE)];
  }

  lemma {:induction false} OneRowApplied(ps: seq<Position>, e: Execution)
    ensures var (one, all) := (ApplyFill(ps, e), ApplyFills(ps, [e]));
      all.positions == one.positions && all.blocked == one.blocked
  {
    assert [e][..0] == [];
  }

  /** A submitted order, after its first snapshot. */
  function FirstFilled(o: Order, status: OrderStatus, fill: Fill): Order {
    o.(status := status, totals := Totals(fill.qty, fill.price, fill.fee),
       pendingStatus := if status.Filled? then None else o.pendingStatus,
       fillsInSync := status.Filled? || o.fillsInSync)
  }

  lemma {:induction false} FirstStatus(o: Order, s: Snapshot)
    requires o.status == Submitted && o.exchangeId != "" && s.complete && s.status in {Filled, PartiallyFilled}
    ensures SyncedStatus(o, s).Some?
    ensures SyncedStatus(o, s).value == o.(status := s.status,
                                           pendingStatus := if s.status.Filled? then None else o.pendingStatus,
                                           fillsInSync := s.status.Filled? || o.fillsInSync)
  {
  }

  /** A complete report of one fill, applied to a submitted order without fills: one execution row, one step of the
      positions table, and an order with exactly the fill's totals. */
  lemma {:induction false} FirstReport(b: Books, k: nat, s: Snapshot, fill: Fill, maxApiFailures: nat)
    requires Consistent(b) && k < |b.orders| && RowsOf(b.executions, k) == []
    requires b.orders[k].status == Submitted && b.orders[k].exchangeId != ""
    requires s.status in {Filled, PartiallyFilled} && s.complete && s.fills == [fill]
    ensures var (after, r) := SnapshotApplied(b, k, s, maxApiFailures);
      var spec := b.orders[k].spec;
      var e := Execution(spec, fill, fill.qty < spec.qty - QTY_TOLERANCE);
      && after.positions == ApplyFill(b.positions, e).positions && after.executions == b.executions + [e]
      && after.orders == b.orders[k := FirstFilled(b.orders[k], s.status, fill)]
      && after.system == Recomputed(b.system.(ambiguous := b.system.ambiguous || ApplyFill(b.positions, e).blocked > 0,
                                              unknownOrders := HasUnknown(after.orders)), maxApiFailures)
      && r.newFills == 1
  {
    var o := b.orders[k];
    FirstStatus(o, s);
    OneFillOrder(b.executions, o.spec, fill);
    OneRowApplied(b.positions, Execution(o.spec, fill, fill.qty < o.spec.qty - QTY_TOLERANCE));
    LedgerAfterNewRows(b.executions, o.spec, s.fills, k);
  }
}
