/** Average-cost position bookkeeping: the position helpers of app/persistence/repo.py and the
    per-fill branch of app/execution/fill_service.py that chooses between them. */
module PositionBook {
  import opened Basics
  import opened FillLedger

  datatype Position = Position(
    symbol: string, side: Side, qty: Qty, avg: real,
    stopLoss: Option<real>, takeProfit: Option<real>,
    open: bool, realized: real, fees: real)

  /** The result of applying one execution row to the positions table. */
  datatype Applied = Applied(positions: seq<Position>, delta: real, closed: Option<bool>, blocked: nat)

  /** The first open row of a symbol, or the length of the table when there is none. */
  function OpenAt(ps: seq<Position>, symbol: string): (i: nat)
    ensures i <= |ps|
    ensures i < |ps| ==> ps[i].open && ps[i].symbol == symbol
    ensures forall j :: 0 <= j < i ==> !(ps[j].open && ps[j].symbol == symbol)
  {
    if ps == [] then 0
    else if ps[0].open && ps[0].symbol == symbol then 0
    else 1 + OpenAt(ps[1..], symbol)
  }

  /** The partial unique index of the positions table. */
  ghost predicate OneOpenPerSymbol(ps: seq<Position>) {
    forall i, j :: 0 <= i < j < |ps| && ps[i].open && ps[j].open ==> ps[i].symbol != ps[j].symbol
  }

  function NewPosition(order: OrderSpec, fill: Fill): Position {
    Position(order.symbol, order.side, fill.qty, fill.price,
             order.stopLoss, order.takeProfit, true, 0.0, fill.fee)
  }

  function WeightedAverage(avg: real, qty: Qty, price: real, more: Qty): real {
    (avg * qty + price * more) / (qty + more)
  }

  function Increased(p: Position, fill: Fill): Position {
    p.(avg := WeightedAverage(p.avg, p.qty, fill.price, fill.qty),
       qty := p.qty + fill.qty,
       fees := p.fees + fill.fee)
  }

  /** The frozen distances of the order's decision, when both are usable. */
  function FrozenDistances(order: OrderSpec): Option<Distances> {
    match order.snapshot
    case Some(d) => if d.stop > 0.0 && d.target > 0.0 then Some(d) else None
    case None => None
  }

  /** Moves stop and target to the frozen distances from the average price. */
  function Reanchored(p: Position, protection: Option<Distances>): Position {
    match protection
    case None => p
    case Some(d) =>
      if p.side.Buy? then p.(stopLoss := Some(p.avg - d.stop), takeProfit := Some(p.avg + d.target))
      else p.(stopLoss := Some(p.avg + d.stop), takeProfit := Some(p.avg - d.target))
  }

  function ClosingDelta(p: Position, fill: Fill): real {
    p.side.Signed(fill.qty * (fill.price - p.avg))
  }

  predicate ClosesFully(p: Position, fill: Fill) {
    fill.qty >= p.qty - QTY_TOLERANCE
  }

  /** Closing keeps the row's quantity and only stamps it CLOSED. */
  function Closed(p: Position, fill: Fill): Position {
    p.(open := false, realized := p.realized + ClosingDelta(p, fill), fees := p.fees + fill.fee)
  }

  function Reduced(p: Position, fill: Fill): Position
    requires !ClosesFully(p, fill)
  {
    p.(qty := p.qty - fill.qty, realized := p.realized + ClosingDelta(p, fill), fees := p.fees + fill.fee)
  }

  function ApplyFill(ps: seq<Position>, e: Execution): Applied {
    var i := OpenAt(ps, e.order.symbol);
    if !e.order.isClose then
      if i == |ps| then
        Applied(ps + [Reanchored(NewPosition(e.order, e.fill), FrozenDistances(e.order))], 0.0, None, 0)
      else if ps[i].side != e.order.side then
        Applied(ps, 0.0, None, 1)
      else
        Applied(ps[i := Reanchored(Increased(ps[i], e.fill), FrozenDistances(e.order))], 0.0, None, 0)
    else if i == |ps| then
      Applied(ps, 0.0, None, 0)
    else if ClosesFully(ps[i], e.fill) then
      Applied(ps[i := Closed(ps[i], e.fill)], ClosingDelta(ps[i], e.fill), Some(true), 0)
    else
      Applied(ps[i := Reduced(ps[i], e.fill)], ClosingDelta(ps[i], e.fill), Some(false), 0)
  }

  /** The result of applying several rows in order; a later row's verdict on closing replaces
      an earlier one's. */
  function ApplyFills(ps: seq<Position>, rows: seq<Execution>): Applied {
    if rows == [] then Applied(ps, 0.0, None, 0)
    else
      var before := ApplyFills(ps, rows[..|rows| - 1]);
      var last := ApplyFill(before.positions, rows[|rows| - 1]);
      Applied(last.positions, before.delta + last.delta,
              if last.closed.Some? then last.closed else before.closed,
              before.blocked + last.blocked)
  }

  lemma {:induction false} OneMoreRow(ps: seq<Position>, rows: seq<Execution>, i: nat)
    requires i < |rows|
    ensures var (before, after) := (ApplyFills(ps, rows[..i]), ApplyFills(ps, rows[..i + 1]));
      var last := ApplyFill(before.positions, rows[i]);
      && after.positions == last.positions && after.delta == before.delta + last.delta
      && after.closed == (if last.closed.Some? then last.closed else before.closed)
      && after.blocked == before.blocked + last.blocked
  {
    assert rows[..i + 1][..i] == rows[..i];
  }

  /** Applying two batches one after the other is applying them as one. */
  lemma {:induction false} ApplyFillsConcat(ps: seq<Position>, xs: seq<Execution>, ys: seq<Execution>)
    ensures ApplyFills(ps, xs + ys).positions == ApplyFills(ApplyFills(ps, xs).positions, ys).positions
    decreases |ys|
  {
    if ys == [] {
      assert xs + ys == xs;
    } else {
      var n := |ys| - 1;
      assert (xs + ys)[..|xs| + n] == xs + ys[..n];
      ApplyFillsConcat(ps, xs, ys[..n]);
    }
  }

  lemma {:induction false} OneOpenIsKept(ps: seq<Position>, e: Execution)
    requires OneOpenPerSymbol(ps)
    ensures OneOpenPerSymbol(ApplyFill(ps, e).positions)
  {
    var i := OpenAt(ps, e.order.symbol);
    var after := ApplyFill(ps, e).positions;
    assert forall j :: 0 <= j < |ps| && j != i ==> after[j] == ps[j];
  }

  lemma {:induction false} OneOpenIsKeptByAll(ps: seq<Position>, rows: seq<Execution>)
    requires OneOpenPerSymbol(ps)
    ensures OneOpenPerSymbol(ApplyFills(ps, rows).positions)
    decreases |rows|
  {
    if rows == [] {
    } else {
      var n := |rows| - 1;
      OneOpenIsKeptByAll(ps, rows[..n]);
      OneOpenIsKept(ApplyFills(ps, rows[..n]).positions, rows[n]);
    }
  }

  /** Rows of other symbols, and rows already closed, are never touched. */
  lemma {:induction false} OtherRowsAreUntouched(ps: seq<Position>, e: Execution, j: nat)
    requires j < |ps| && (!ps[j].open || ps[j].symbol != e.order.symbol)
    ensures j < |ApplyFill(ps, e).positions| && ApplyFill(ps, e).positions[j] == ps[j]
  {
    assert OpenAt(ps, e.order.symbol) != j;
  }

  lemma {:induction false} AverageTimesQuantity(avg: real, qty: Qty, price: real, more: Qty)
    ensures WeightedAverage(avg, qty, price, more) * (qty + more) == avg * qty + price * more
  {
  }

  lemma {:induction false} QuotientOfProduct(x: real, y: real)
    requires y != 0.0
    ensures x * y / y == x
  {
  }

  /** Position p is what the fills of one entry order alone amount to: the order's re-derived
      ledger totals, with stop and target at the frozen distances from the average. */
  ghost predicate BuiltBy(p: Position, order: OrderSpec, fills: seq<Fill>) {
    && p.open && p.symbol == order.symbol && p.side == order.side && p.realized == 0.0
    && TotalsOf(fills) == Totals(p.qty, p.avg, p.fees)
    && match FrozenDistances(order)
       case Some(d) =>
         && p.stopLoss == Some(p.avg - p.side.Signed(d.stop))
         && p.takeProfit == Some(p.avg + p.side.Signed(d.target))
       case None => p.stopLoss == order.stopLoss && p.takeProfit == order.takeProfit
  }

  lemma {:induction false} FirstFillBuilds(order: OrderSpec, fill: Fill)
    ensures BuiltBy(Reanchored(NewPosition(order, fill), FrozenDistances(order)), order, [fill])
  {
    assert [] + [fill] == [fill];
    TotalsGrow([], fill);
    QuotientOfProduct(fill.price, fill.qty);
  }

  lemma {:induction false} AverageOfTotals(fills: seq<Fill>, fill: Fill, avg: real, qty: Qty)
    requires TotalsOf(fills).filledQty == qty && TotalsOf(fills).avgFillPrice == avg
    ensures var all := TotalsOf(fills + [fill]);
      all.filledQty == qty + fill.qty && all.avgFillPrice == WeightedAverage(avg, qty, fill.price, fill.qty)
  {
    TotalsGrow(fills, fill);
    assert NotionalOf(fills) == avg * qty;
  }

  lemma {:induction false} NextFillBuilds(p: Position, order: OrderSpec, fills: seq<Fill>, fill: Fill)
    requires BuiltBy(p, order, fills)
    ensures BuiltBy(Reanchored(Increased(p, fill), FrozenDistances(order)), order, fills + [fill])
  {
    AverageOfTotals(fills, fill, p.avg, p.qty);
    TotalsGrow(fills, fill);
  }

  /** The table ps with one more row, built by the given fills. */
  ghost predicate ExtendsBy(after: seq<Position>, ps: seq<Position>, order: OrderSpec, fills: seq<Fill>) {
    |after| == |ps| + 1 && after[..|ps|] == ps && BuiltBy(after[|ps|], order, fills)
  }

  lemma {:induction false} EntryFillExtends(ps: seq<Position>, mid: seq<Position>, fills: seq<Fill>, e: Execution)
    requires !e.order.isClose && OpenAt(ps, e.order.symbol) == |ps|
    requires if fills == [] then mid == ps else ExtendsBy(mid, ps, e.order, fills)
    ensures ExtendsBy(ApplyFill(mid, e).positions, ps, e.order, fills + [e.fill])
  {
    if fills == [] {
      assert fills + [e.fill] == [e.fill];
      FirstFillBuilds(e.order, e.fill);
    } else {
      assert forall j :: 0 <= j < |ps| ==> mid[j] == mid[..|ps|][j];
      NextFillBuilds(mid[|ps|], e.order, fills, e.fill);
    }
  }

  function FillsOf(rows: seq<Execution>): seq<Fill> {
    seq(|rows|, i requires 0 <= i < |rows| => rows[i].fill)
  }

  /** Applying all fills of one entry order to a symbol without an open position appends one position, built by exactly
      those fills, and touches nothing else; over how many polls the rows arrived, and so which of them are flagged
      partial, makes no difference. */
  lemma {:induction false} EntryOrderBuildsItsOwnTotals(ps: seq<Position>, order: OrderSpec, rows: seq<Execution>)
    requires !order.isClose && rows != []
    requires OpenAt(ps, order.symbol) == |ps|
    requires forall e <- rows :: e.order == order
    ensures ExtendsBy(ApplyFills(ps, rows).positions, ps, order, FillsOf(rows))
    decreases |rows|
  {
    var n := |rows| - 1;
    var mid := ApplyFills(ps, rows[..n]).positions;
    if n == 0 {
    } else {
      EntryOrderBuildsItsOwnTotals(ps, order, rows[..n]);
    }
    EntryFillExtends(ps, mid, FillsOf(rows[..n]), rows[n]);
    assert FillsOf(rows) == FillsOf(rows[..n]) + [rows[n].fill];
  }

  /** A fill leaves the open row of every other symbol where and as it was. */
  lemma {:induction false} OpenAtElsewhere(ps: seq<Position>, e: Execution, symbol: string)
    requires OneOpenPerSymbol(ps) && symbol != e.order.symbol
    ensures var after := ApplyFill(ps, e).positions;
      var k, k' := OpenAt(ps, symbol), OpenAt(after, symbol);
      (k < |ps| <==> k' < |after|) && (k < |ps| ==> k' == k && after[k] == ps[k])
  {
    var i := OpenAt(ps, e.order.symbol);
    var after := ApplyFill(ps, e).positions;
    assert forall j :: 0 <= j < |ps| && j != i ==> after[j] == ps[j];
    var k := OpenAt(ps, symbol);
    if k < |ps| {
      assert after[k] == ps[k];
    }
  }

  /** What a fill does to the open row of its own symbol: after a full close there is none. */
  lemma {:induction false} OpenRowAfter(ps: seq<Position>, e: Execution)
    requires OneOpenPerSymbol(ps)
    ensures var i := OpenAt(ps, e.order.symbol);
      var after := ApplyFill(ps, e).positions;
      OpenAt(after, e.order.symbol) == if e.order.isClose && i < |ps| && ClosesFully(ps[i], e.fill) then |after| else i
  {
    var i := OpenAt(ps, e.order.symbol);
    var after := ApplyFill(ps, e).positions;
    assert forall j :: 0 <= j < |ps| && j != i ==> after[j] == ps[j] && !(ps[j].open && ps[j].symbol == e.order.symbol);
    assert i < |after| ==> after[i].symbol == e.order.symbol;
  }

  /** The open row of the order's symbol is what the given fills built; without fills there is none. */
  ghost predicate OpenRowBuiltBy(ps: seq<Position>, order: OrderSpec, fills: seq<Fill>) {
    var i := OpenAt(ps, order.symbol);
    if fills == [] then i == |ps| else i < |ps| && BuiltBy(ps[i], order, fills)
  }

  lemma {:induction false} OwnFillBuilds(ps: seq<Position>, e: Execution, fills: seq<Fill>)
    requires OneOpenPerSymbol(ps) && !e.order.isClose && OpenRowBuiltBy(ps, e.order, fills)
    ensures OpenRowBuiltBy(ApplyFill(ps, e).positions, e.order, fills + [e.fill])
  {
    var i := OpenAt(ps, e.order.symbol);
    var after := ApplyFill(ps, e).positions;
    assert forall j :: 0 <= j < i ==> after[j] == ps[j];
    if fills == [] {
      assert fills + [e.fill] == [e.fill];
      FirstFillBuilds(e.order, e.fill);
    } else {
      NextFillBuilds(ps[i], e.order, fills, e.fill);
    }
    assert after[i].open && after[i].symbol == e.order.symbol;
  }

  /** As long as every row of a flat symbol belongs to one entry order, its open position is what that order's rows
      built, however rows of other symbols are interleaved with them and however they were split over polls. */
  lemma {:induction false} OneOrderBuildsTheOpenRow(ps: seq<Position>, rows: seq<Execution>, order: OrderSpec)
    requires OneOpenPerSymbol(ps) && !order.isClose && OpenAt(ps, order.symbol) == |ps|
    requires forall e <- rows :: e.order.symbol == order.symbol || e.order.id == order.id ==> e.order == order
    ensures OpenRowBuiltBy(ApplyFills(ps, rows).positions, order, RowsOf(rows, order.id))
    decreases |rows|
  {
    if rows == [] {
    } else {
      var n := |rows| - 1;
      var mid := ApplyFills(ps, rows[..n]).positions;
      OneOrderBuildsTheOpenRow(ps, rows[..n], order);
      OneOpenIsKeptByAll(ps, rows[..n]);
      if rows[n].order == order {
        OwnFillBuilds(mid, rows[n], RowsOf(rows[..n], order.id));
      } else {
        OpenAtElsewhere(mid, rows[n], order.symbol);
      }
    }
  }
}
