/** The submit, poll and apply sequence of app/orchestrator.py run on the tables and the simulator
    together: it is exactly one Traded step of a paper run. */
module PaperDesk {
  import opened Basics
  import opened OrderState
  import opened FillLedger
  import opened CostGate
  import opened RiskEngine
  import opened FillService
  import opened Desk
  import opened PaperEngine
  import Orders = OrderLifecycle
  import PaperRun

  /** The tables and the simulator hold the tables and the simulator state of a paper run. */
  ghost predicate Shows(t: Tables, x: PaperExchange, w: PaperRun.World)
    reads t, x
  {
    && t.View() == w.books
    && x.positions == w.book && x.snapshots == w.snapshots && x.nextFill == w.nextFill
  }

  /** The simulator is the configured one. */
  ghost predicate Configured(x: PaperExchange, cfg: PaperRun.Config) {
    cfg.model.feeRate == x.feeRate && cfg.model.slippageBps == x.slippageBps && cfg.partialRatio == x.partialRatio
  }

  /** The order and its exchange: submitted, acknowledged with its audit row, not yet polled. */
  method SubmitAndRecord(t: Tables, x: PaperExchange, order: ApprovedOrder, spec: OrderSpec, key: string, price: real,
                         ghost before: Books)
    returns (exchangeId: string)
    requires spec.id == |before.orders| && Consistent(before) && t.View() == OrderSaved(before, spec)
    requires order.qty > 0.0
    modifies t`orders, t`events, x
    ensures exchangeId == PaperOrderId(key)
    ensures t.View() == Orders.OrderPlaced(before, spec, Orders.Accepted(exchangeId)) && t.Valid()
    ensures var qty := FilledPart(order.qty, x.partialRatio);
      var fill := PaperFill(FillId(old(x.nextFill)), order.side, qty, price, x.feeRate, x.slippageBps);
      && x.positions == Booked(old(x.positions), order.symbol, order.side, fill.qty, fill.price)
      && x.snapshots == old(x.snapshots)[exchangeId := FilledSnapshot(exchangeId, fill, x.partialRatio)]
    ensures x.nextFill == old(x.nextFill) + 1
  {
    exchangeId := x.Submit(order, key, price);
    assert |exchangeId| >= 6;
    var ok := t.Acknowledge(spec.id, exchangeId, Submitted);
    PaperRun.PlacingKeepsConsistency(before, spec, exchangeId);
    PaperRun.LastReplaced(before.orders, SavedOrder(spec), Orders.Acknowledged(SavedOrder(spec), Orders.Accepted(exchangeId)));
  }

  /** What applying the simulator's snapshot to the acknowledged order leaves. */
  lemma {:induction false} TrackingIsTrading(cfg: PaperRun.Config, w: PaperRun.World, key: string, spec: OrderSpec,
                                             qty: Qty, price: real)
    requires Consistent(w.books) && spec.id == |w.books.orders|
    ensures var exchangeId := PaperOrderId(key);
      var fill := PaperRun.FillOf(cfg, w, spec.side, qty, price);
      var placed := Orders.OrderPlaced(w.books, spec, Orders.Accepted(exchangeId));
      var snapshot := FilledSnapshot(exchangeId, fill, cfg.partialRatio);
      var (after, r) := SnapshotApplied(placed, spec.id, snapshot, cfg.limits.maxApiFailures);
      && after == PaperRun.Traded(cfg, w, key, spec, qty, price).books
      && |after.orders| == |w.books.orders| + 1
      && after.orders[spec.id].status == (if cfg.partialRatio.Some? then PartiallyFilled else Filled)
      && after.orders[spec.id].totals == Totals(fill.qty, fill.price, fill.fee) && r.newFills == 1
  {
    var exchangeId := PaperOrderId(key);
    assert |exchangeId| >= 6;
    var fill := PaperRun.FillOf(cfg, w, spec.side, qty, price);
    PaperRun.PlacingKeepsConsistency(w.books, spec, exchangeId);
    var placed := Orders.OrderPlaced(w.books, spec, Orders.Accepted(exchangeId));
    FirstReport(placed, spec.id, FilledSnapshot(exchangeId, fill, cfg.partialRatio), fill, cfg.limits.maxApiFailures);
  }

  /** Submitting a freshly saved order to the simulator fills, records and applies it in one go, with any fill ratio:
      the order ends FILLED or PARTIALLY_FILLED with the totals of its single fill, and tables and simulator move by
      one and the same step of the run. */
  method SubmitAndTrack(t: Tables, x: PaperExchange, order: ApprovedOrder, spec: OrderSpec, key: string, price: real,
                        maxApiFailures: nat, ghost cfg: PaperRun.Config, ghost w: PaperRun.World) returns (r: Outcome)
    requires spec.id == |w.books.orders| && Consistent(w.books) && t.View() == OrderSaved(w.books, spec)
    requires x.positions == w.book && x.snapshots == w.snapshots && x.nextFill == w.nextFill
    requires order.qty > 0.0 && order.qty == spec.qty && order.symbol == spec.symbol && order.side == spec.side
    requires Configured(x, cfg) && cfg.limits.maxApiFailures == maxApiFailures
    modifies t, x
    ensures t.Valid() && Shows(t, x, PaperRun.Traded(cfg, w, key, spec, order.qty, price))
    ensures var fill := PaperRun.FillOf(cfg, w, order.side, order.qty, price);
      && |t.orders| == |w.books.orders| + 1
      && t.orders[spec.id].status == (if x.partialRatio.Some? then PartiallyFilled else Filled)
      && t.orders[spec.id].totals == Totals(fill.qty, fill.price, fill.fee) && r.newFills == 1
  {
    var exchangeId := SubmitAndRecord(t, x, order, spec, key, price, w.books);
    var snapshot := x.PollOrder(exchangeId);
    TrackingIsTrading(cfg, w, key, spec, order.qty, price);
    r := t.ApplyOrderSnapshot(spec.id, snapshot, maxApiFailures);
  }
}
