/** The tables as one object that the helpers of app/persistence/repo.py, the ledger and the fill
    applier update in place. Every method is proved against the functions of FillService. */
module Desk {
  import opened Basics
  import opened OrderState
  import opened FillLedger
  import opened PositionBook
  import opened FillService

  class Tables {
    var orders: seq<Order>
    var executions: seq<Execution>
    var positions: seq<Position>
    var events: seq<OrderEvent>
    var system: SystemState
    var fillsCount: nat
    var blockedFills: nat

    function View(): Books
      reads this
    {
      Books(orders, executions, positions, events, system, fillsCount, blockedFills)
    }

    ghost predicate Valid()
      reads this
    {
      Consistent(View())
    }

    constructor ()
      ensures Valid()
      ensures View() == Books([], [], [], [], SystemState(false, false, false, 0, false, false, false, Starting), 0, 0)
    {
      orders, executions, positions, events := [], [], [], [];
      system := SystemState(false, false, false, 0, false, false, false, Starting);
      fillsCount, blockedFills := 0, 0;
    }

    method SaveOrder(symbol: string, side: Side, qty: real, isClose: bool, stopLoss: Option<real>,
                     takeProfit: Option<real>, snapshot: Option<Distances>) returns (k: nat)
      requires Valid()
      modifies `orders
      ensures Valid() && k == old(|orders|)
      ensures View() == OrderSaved(old(View()), OrderSpec(k, symbol, side, qty, isClose, stopLoss, takeProfit, snapshot))
    {
      k := |orders|;
      var spec := OrderSpec(k, symbol, side, qty, isClose, stopLoss, takeProfit, snapshot);
      SavingKeepsConsistency(View(), spec);
      orders := orders + [Order(spec, PendingSubmit, "", Totals(0.0, 0.0, 0.0), None, true)];
    }

    /** The only sanctioned way to change a status; refuses what the table forbids. */
    method TransitionOrderStatus(k: nat, to: OrderStatus) returns (ok: bool)
      requires k < |orders|
      modifies `orders, `events
      ensures ok == Transition(old(orders)[k], to).Some?
      ensures ok ==> orders == old(orders)[k := Transition(old(orders)[k], to).value]
      ensures ok ==> events == old(events) + [OrderEvent(orders[k].spec.id, old(orders)[k].status, to)]
      ensures !ok ==> orders == old(orders) && events == old(events)
    {
      ok := CanMove(orders[k].status, to);
      if ok {
        events := events + [OrderEvent(orders[k].spec.id, orders[k].status, to)];
        orders := orders[k := orders[k].(status := to)];
      }
    }

    /** The answer to a submitted order: its exchange id, when there is one, and its status. */
    method Acknowledge(k: nat, exchangeId: string, status: OrderStatus) returns (ok: bool)
      requires k < |orders|
      modifies `orders, `events
      ensures ok == CanMove(old(orders)[k].status, status)
      ensures orders == old(orders)[k := old(orders)[k].(
        status := if ok then status else old(orders)[k].status,
        exchangeId := if exchangeId != "" then exchangeId else old(orders)[k].exchangeId)]
      ensures events == old(events) + if ok then [OrderEvent(old(orders)[k].spec.id, old(orders)[k].status, status)] else []
    {
      if exchangeId != "" {
        orders := orders[k := orders[k].(exchangeId := exchangeId)];
      }
      ok := TransitionOrderStatus(k, status);
    }

    method FindOpen(symbol: string) returns (i: nat)
      ensures i == OpenAt(positions, symbol)
    {
      i := 0;
      while i < |positions| && !(positions[i].open && positions[i].symbol == symbol)
        invariant i <= |positions|
        invariant OpenAt(positions, symbol) == i + OpenAt(positions[i..], symbol)
      {
        assert positions[i..][1..] == positions[i + 1..];
        i := i + 1;
      }
    }

    method OpenPosition(order: OrderSpec, fill: Fill)
      modifies `positions
      ensures positions == old(positions) + [NewPosition(order, fill)]
    {
      positions := positions + [Position(order.symbol, order.side, fill.qty, fill.price,
                                         order.stopLoss, order.takeProfit, true, 0.0, fill.fee)];
    }

    method AddToPosition(i: nat, fill: Fill)
      requires i < |positions|
      modifies `positions
      ensures positions == old(positions)[i := Increased(old(positions)[i], fill)]
    {
      var total: Qty := positions[i].qty + fill.qty;
      var avg := (positions[i].avg * positions[i].qty + fill.price * fill.qty) / total;
      assert avg == WeightedAverage(positions[i].avg, positions[i].qty, fill.price, fill.qty);
      positions := positions[i := positions[i].(avg := avg, qty := total, fees := positions[i].fees + fill.fee)];
    }

    method ReanchorProtection(i: nat, protection: Option<Distances>)
      requires i < |positions|
      modifies `positions
      ensures positions == old(positions)[i := Reanchored(old(positions)[i], protection)]
    {
      if protection.Some? {
        var p, d := positions[i], protection.value;
        if p.side == Buy {
          positions := positions[i := p.(stopLoss := Some(p.avg - d.stop), takeProfit := Some(p.avg + d.target))];
        } else {
          positions := positions[i := p.(stopLoss := Some(p.avg + d.stop), takeProfit := Some(p.avg - d.target))];
        }
      }
    }

    method RealizedDelta(p: Position, fill: Fill) returns (delta: real)
      ensures delta == ClosingDelta(p, fill)
    {
      var gain := fill.qty * (fill.price - p.avg);
      delta := if p.side == Buy then gain else -gain;
    }

    method ClosePosition(i: nat, delta: real, fee: real)
      requires i < |positions|
      modifies `positions
      ensures positions == old(positions)[i := old(positions)[i].(
        open := false, realized := old(positions)[i].realized + delta, fees := old(positions)[i].fees + fee)]
    {
      var p := positions[i];
      positions := positions[i := p.(open := false, realized := p.realized + delta, fees := p.fees + fee)];
    }

    method ReducePosition(i: nat, qty: real, delta: real, fee: real)
      requires i < |positions| && qty < positions[i].qty
      modifies `positions
      ensures positions == old(positions)[i := old(positions)[i].(
        qty := old(positions)[i].qty - qty, realized := old(positions)[i].realized + delta, fees := old(positions)[i].fees + fee)]
    {
      var p := positions[i];
      positions := positions[i := p.(qty := p.qty - qty, realized := p.realized + delta, fees := p.fees + fee)];
    }

    /** Deduplication: the reported fills whose id is not on file yet, each once, in order. */
    method Unseen(ledger: seq<Fill>, fills: seq<Fill>) returns (unseen: seq<Fill>)
      ensures unseen == NewFills(FillIds(ledger), fills)
    {
      var existing := set f <- ledger :: f.id;
      unseen := [];
      for i := 0 to |fills|
        invariant unseen + NewFills(existing, fills[i..]) == NewFills(FillIds(ledger), fills)
      {
        var rest := fills[i..];
        assert rest[0] == fills[i] && rest[1..] == fills[i + 1..];
        if fills[i].id !in existing {
          unseen := unseen + [fills[i]];
          existing := existing + {fills[i].id};
        }
      }
    }

    method TagRows(spec: OrderSpec, fills: seq<Fill>, partial: bool) returns (rows: seq<Execution>)
      ensures rows == Tagged(spec, fills, partial)
    {
      rows := [];
      for i := 0 to |fills|
        invariant rows == Tagged(spec, fills[..i], partial)
      {
        rows := rows + [Execution(spec, fills[i], partial)];
      }
      assert fills[..|fills|] == fills;
    }

    /** record_new_fills: appends only unseen fills, then derives the order's totals again from all
        of its rows and flags the new rows. */
    method RecordNewFills(k: nat, fills: seq<Fill>) returns (news: seq<Execution>)
      requires Valid() && k < |orders|
      modifies `orders, `executions
      ensures news == NewRows(old(executions), old(orders)[k].spec, fills)
      ensures executions == old(executions) + news
      ensures orders == old(orders)[k := Retotalled(old(orders)[k], executions)]
    {
      var spec := orders[k].spec;
      var ledger := RowsOf(executions, spec.id);
      NewRowsRetotal(orders[k], executions, fills);
      var unseen := Unseen(ledger, fills);
      if unseen == [] {
        NothingNew(View(), k, fills);
        news := [];
      } else {
        var totals := TotalsOf(ledger + unseen);
        news := TagRows(spec, unseen, totals.filledQty < spec.qty - QTY_TOLERANCE);
        executions := executions + news;
        orders := orders[k := orders[k].(totals := totals)];
      }
    }

    /** One execution row applied to the positions table, given the open row of its symbol (or the
        table's length); returns the row that is open afterwards. */
    method ApplyRow(e: Execution, at: nat) returns (next: nat, delta: real, closed: Option<bool>)
      requires OneOpenPerSymbol(positions) && at == OpenAt(positions, e.order.symbol)
      modifies `positions, `blockedFills, `system
      ensures var step := ApplyFill(old(positions), e);
        && positions == step.positions && delta == step.delta && closed == step.closed
        && blockedFills == old(blockedFills) + step.blocked
        && system == old(system).(ambiguous := old(system).ambiguous || step.blocked > 0)
      ensures OneOpenPerSymbol(positions) && next == OpenAt(positions, e.order.symbol)
    {
      OneOpenIsKept(positions, e);
      OpenRowAfter(positions, e);
      var protection := FrozenDistances(e.order);
      next, delta, closed := at, 0.0, None;
      if !e.order.isClose {
        if at == |positions| {
          OpenPosition(e.order, e.fill);
          ReanchorProtection(at, protection);
          assert positions == old(positions) + [Reanchored(NewPosition(e.order, e.fill), protection)];
        } else if positions[at].side != e.order.side {
          system := system.(ambiguous := true);
          blockedFills := blockedFills + 1;
        } else {
          AddToPosition(at, e.fill);
          ReanchorProtection(at, protection);
        }
      } else if at < |positions| {
        var p := positions[at];
        delta := RealizedDelta(p, e.fill);
        if e.fill.qty >= p.qty - QTY_TOLERANCE {
          ClosePosition(at, delta, e.fill.fee);
          closed := Some(true);
          next := |positions|;
        } else {
          ReducePosition(at, e.fill.qty, delta, e.fill.fee);
          closed := Some(false);
        }
      }
    }

    method RecomputeTradingBlocked(maxApiFailures: nat)
      modifies `system
      ensures system == Recomputed(old(system), maxApiFailures)
    {
      var blocked := system.killSwitch || system.ambiguous || system.clockOutOfSync
                     || system.apiFailures >= maxApiFailures || system.diverged || system.unknownOrders;
      system := system.(tradingBlocked := blocked);
      if system.operational != Stopping {
        if blocked {
          system := system.(operational := Blocked);
        } else if system.operational == Blocked {
          system := system.(operational := Observing);
        }
      }
    }

    /** The status half of the applier; it never raises. */
    method SyncStatus(k: nat, s: Snapshot)
      requires k < |orders|
      modifies `orders, `events
      ensures SyncedStatus(old(orders)[k], s).Some?
      ensures orders == old(orders)[k := SyncedStatus(old(orders)[k], s).value]
      ensures events == old(events) + EventOf(old(orders)[k], s)
    {
      ApplyingAStatusNeverRaises(orders[k], s);
      var current := orders[k].status;
      if IsTerminal(s.status) && !s.complete {
        AdoptExchangeId(k, s);
        orders := orders[k := orders[k].(pendingStatus := Some(s.status), fillsInSync := false)];
      } else if s.status != current {
        AdoptExchangeId(k, s);
        var ok := TransitionOrderStatus(k, s.status);
        if ok {
          if IsTerminal(s.status) {
            orders := orders[k := orders[k].(fillsInSync := true, pendingStatus := None)];
          }
        } else if !IsTerminal(orders[k].status) {
          ok := TransitionOrderStatus(k, Unknown);
          assert ok;
        }
      }
    }

    method AdoptExchangeId(k: nat, s: Snapshot)
      requires k < |orders|
      modifies `orders
      ensures orders == old(orders)[k := WithExchangeId(old(orders)[k], s)]
    {
      if s.exchangeId != "" && orders[k].exchangeId == "" {
        orders := orders[k := orders[k].(exchangeId := s.exchangeId)];
      }
    }

    /** The position half of the applier: looks the symbol's position up once and follows it through
        the new rows. */
    method ApplyRows(symbol: string, news: seq<Execution>) returns (realized: real, closedFully: Option<bool>)
      requires OneOpenPerSymbol(positions)
      requires forall e <- news :: e.order.symbol == symbol
      modifies `positions, `blockedFills, `system
      ensures var done := ApplyFills(old(positions), news);
        && positions == done.positions && realized == done.delta && closedFully == done.closed
        && blockedFills == old(blockedFills) + done.blocked
        && system == old(system).(ambiguous := old(system).ambiguous || done.blocked > 0)
    {
      realized, closedFully := 0.0, None;
      var at := FindOpen(symbol);
      for i := 0 to |news|
        invariant OneOpenPerSymbol(positions)
        invariant at == OpenAt(positions, symbol)
        invariant var done := ApplyFills(old(positions), news[..i]);
          && positions == done.positions && realized == done.delta && closedFully == done.closed
          && blockedFills == old(blockedFills) + done.blocked
          && system == old(system).(ambiguous := old(system).ambiguous || done.blocked > 0)
      {
        OneMoreRow(old(positions), news, i);
        var delta, closed;
        at, delta, closed := ApplyRow(news[i], at);
        realized := realized + delta;
        if closed.Some? {
          closedFully := closed;
        }
      }
      assert news[..|news|] == news;
    }

    /** The order half of the applier: status, then ledger and totals. */
    method SyncAndRecord(k: nat, s: Snapshot) returns (news: seq<Execution>)
      requires Valid() && k < |orders|
      modifies `orders, `executions, `events, `fillsCount
      ensures SyncedStatus(old(orders)[k], s).Some?
      ensures var o := SyncedStatus(old(orders)[k], s).value;
        && news == NewRows(old(executions), o.spec, s.fills)
        && (forall e <- news :: e.order.symbol == o.spec.symbol)
        && executions == old(executions) + news
        && orders == old(orders)[k := Retotalled(o, executions)]
        && events == old(events) + EventOf(old(orders)[k], s)
        && fillsCount == old(fillsCount) + |news|
    {
      ApplyingAStatusNeverRaises(orders[k], s);
      ghost var o := SyncedStatus(orders[k], s).value;
      SyncStatus(k, s);
      assert orders[k] == o;
      news := RecordNewFills(k, s.fills);
      fillsCount := fillsCount + |news|;
    }

    /** The position half with the causes of a block derived again. */
    method ApplyNews(symbol: string, news: seq<Execution>, maxApiFailures: nat)
      returns (realized: real, closedFully: Option<bool>)
      requires OneOpenPerSymbol(positions)
      requires forall e <- news :: e.order.symbol == symbol
      modifies `positions, `blockedFills, `system
      ensures var done := ApplyFills(old(positions), news);
        && positions == done.positions && realized == done.delta && closedFully == done.closed
        && blockedFills == old(blockedFills) + done.blocked
        && system == Recomputed(old(system).(ambiguous := old(system).ambiguous || done.blocked > 0,
                                             unknownOrders := HasUnknown(orders)), maxApiFailures)
    {
      realized, closedFully := ApplyRows(symbol, news);
      system := system.(unknownOrders := HasUnknown(orders));
      RecomputeTradingBlocked(maxApiFailures);
    }

    /** apply_order_snapshot: the single place a fill is ever applied. */
    method ApplyOrderSnapshot(k: nat, s: Snapshot, maxApiFailures: nat) returns (r: Outcome)
      requires Valid() && k < |orders|
      modifies this
      ensures Valid()
      ensures (View(), r) == SnapshotApplied(old(View()), k, s, maxApiFailures)
    {
      SnapshotKeepsConsistency(View(), k, s, maxApiFailures);
      ghost var expected := SnapshotApplied(View(), k, s, maxApiFailures).0;
      var news := SyncAndRecord(k, s);
      var realized, closedFully := ApplyNews(orders[k].spec.symbol, news, maxApiFailures);
      assert View() == expected;
      r := Outcome(orders[k].status, |news|, realized, closedFully);
    }
  }
}
