/** Whole paper-trading runs over all symbols: signals, stops, targets, order polls, reconciliations and restarts, as
    app/orchestrator.py drives the risk engine, the simulator and the fill applier. */
module PaperRun {
  import opened Basics
  import opened OrderState
  import opened FillLedger
  import opened PositionBook
  import opened FillService
  import opened CashLedger
  import opened CostGate
  import opened RiskEngine
  import opened PaperEngine
  import opened Reconciliation
  import Orders = OrderLifecycle

  /** Configuration of a run; the cost model is built from the simulator's own fee and slippage. */
  datatype Config = Config(limits: RiskLimits, model: CostModel, partialRatio: Option<Ratio>)

  /** The persisted tables and used idempotency keys; the simulator's book, its memory of orders and its fill counter,
      both of which start again with every process. */
  datatype World = World(books: Books, keys: set<string>, book: Book, snapshots: map<string, Snapshot>, nextFill: nat)

  /** What a tick brings: a strategic signal at the closing price of its candle, a stop or target hit at its trigger
      price, the periodic poll of live orders, a reconciliation with the simulator over a configured symbol, or a
      restart that hydrates the simulator from the positions table. The context carries the state of every gate;
      position count and exposure are read from the tables. */
  datatype Event =
    | SignalGiven(signal: Signal, snapshot: Option<Distances>, key: string, context: RiskContext)
    | TriggerHit(symbol: string, price: real, key: string, context: RiskContext)
    | OrdersPolled
    | Reconciled(symbol: string)
    | Restarted

  /** A tick that commits, or one whose transaction is rolled back while the process lives on. */
  datatype Step = Committed(ev: Event) | RolledBack(ev: Event)

  const EMPTY := World(Orders.NO_BOOKS, {}, map[], map[], 1)

  /** What a fill is worth at its own price. */
  function Worth(fill: Fill): real {
    fill.qty * fill.price
  }

  function Notional(p: Position): real {
    if p.open then p.qty * p.avg else 0.0
  }

  /** Open exposure over all symbols. */
  function Exposure(ps: seq<Position>): real {
    Sum(ps, (p: Position) => Notional(p))
  }

  function HydrationRows(ps: seq<Position>): seq<HydrationRow> {
    if ps == [] then []
    else
      var n := |ps| - 1;
      var p := ps[n];
      if p.open then HydrationRows(ps[..n]) + [HydrationRow(p.symbol, p.side, p.qty, p.avg)] else HydrationRows(ps[..n])
  }

  function FillOf(cfg: Config, w: World, side: Side, qty: Qty, price: real): Fill {
    PaperFill(FillId(w.nextFill), side, FilledPart(qty, cfg.partialRatio), price, cfg.model.feeRate, cfg.model.slippageBps)
  }

  /** An order saved, submitted to the simulator, acknowledged, polled and applied, all in one tick. */
  function Traded(cfg: Config, w: World, key: string, order: OrderSpec, qty: Qty, price: real): World {
    var fill := FillOf(cfg, w, order.side, qty, price);
    var exchangeId := PaperOrderId(key);
    var snapshot := FilledSnapshot(exchangeId, fill, cfg.partialRatio);
    var placed := Orders.OrderPlaced(w.books, order, Orders.Accepted(exchangeId));
    World(SnapshotApplied(placed, |w.books.orders|, snapshot, cfg.limits.maxApiFailures).0, w.keys + {key},
          Booked(w.book, order.symbol, order.side, fill.qty, fill.price), w.snapshots[exchangeId := snapshot], w.nextFill + 1)
  }

  /** A key already on file suppresses the order. */
  function TradedOnce(cfg: Config, w: World, key: string, order: OrderSpec, qty: Qty, price: real): World {
    if key in w.keys then w else Traded(cfg, w, key, order, qty, price)
  }

  /** Closing the whole open row i through the risk engine's close gates. */
  function CloseTried(cfg: Config, w: World, i: nat, price: real, key: string, c: RiskContext): World
    requires i < |w.books.positions|
  {
    var p := w.books.positions[i];
    match EvaluateClose(cfg.limits, c, p.symbol, p.side.Opposite(), p.qty, true, p.qty, p.side)
    case Approve(o) =>
      TradedOnce(cfg, w, key, OrderSpec(|w.books.orders|, p.symbol, o.side, o.qty, true, None, None, None), p.qty, price)
    case _ => w
  }

  function OpenCount(ps: seq<Position>, symbol: string): nat {
    if OpenAt(ps, symbol) < |ps| then 1 else 0
  }

  /** An entry or same-side increase through the risk engine's sizing and cost gate. */
  function EntryTried(cfg: Config, w: World, s: Signal, snapshot: Option<Distances>, key: string,
                      context: RiskContext): World {
    match Evaluate(cfg.limits, Some(cfg.model), context, s)
    case Approve(o) =>
      ApprovedEntryFitsTheRoom(cfg.limits, cfg.model, context, s);
      var order := OrderSpec(|w.books.orders|, o.symbol, o.side, o.qty, false, o.stopLoss, o.takeProfit, snapshot);
      TradedOnce(cfg, w, key, order, o.qty, s.observedPrice)
    case _ => w
  }

  /** The gates' context, with position count and exposure read from the tables. */
  function ContextOf(w: World, s: Signal, c: RiskContext): RiskContext {
    c.(openPositions := OpenCount(w.books.positions, s.symbol), openExposureUsd := Exposure(w.books.positions))
  }

  predicate Reverses(w: World, s: Signal) {
    var ps := w.books.positions;
    var i := OpenAt(ps, s.symbol);
    s.direction.Some? && i < |ps| && ps[i].side != s.direction.value
  }

  /** A signal against the open position only closes it; any other one may enter or increase. */
  function SignalTried(cfg: Config, w: World, s: Signal, snapshot: Option<Distances>, key: string,
                       c: RiskContext): World {
    if Reverses(w, s) then CloseTried(cfg, w, OpenAt(w.books.positions, s.symbol), s.observedPrice, key, c)
    else EntryTried(cfg, w, s, snapshot, key, ContextOf(w, s, c))
  }

  // ---- polling and reconciling ----

  /** The first n orders asked about again and brought up to date, those that are live and known to the exchange. */
  function Repolled(b: Books, snapshots: map<string, Snapshot>, n: nat, maxApiFailures: nat): (r: Books)
    requires n <= |b.orders|
    ensures |r.orders| == |b.orders|
  {
    if n == 0 then b
    else
      var before := Repolled(b, snapshots, n - 1, maxApiFailures);
      var o := before.orders[n - 1];
      if Orders.Pollable(o) then SnapshotApplied(before, n - 1, Served(snapshots, o.exchangeId), maxApiFailures).0 else before
  }

  function LocalView(ps: seq<Position>): seq<LocalPosition> {
    if ps == [] then []
    else
      var n := |ps| - 1;
      var p := ps[n];
      if p.open then LocalView(ps[..n]) + [LocalPosition(p.symbol, p.side, p.qty, p.avg)] else LocalView(ps[..n])
  }

  /** The symbols a reconciliation asks about: those of the open positions and the configured one. */
  function Queried(local: seq<LocalPosition>, symbol: string): seq<string> {
    var symbols := seq(|local|, i requires 0 <= i < |local| => local[i].symbol);
    if symbol in symbols then symbols else symbols + [symbol]
  }

  function RemoteView(book: Book, symbols: seq<string>): map<string, Option<RemotePosition>> {
    map s <- symbols :: if s in book then Some(RemotePosition(book[s].side, book[s].qty, Some(book[s].avg))) else None
  }

  function PositionReport(ps: seq<Position>, book: Book, symbol: string): seq<Mismatch> {
    var local := LocalView(ps);
    var symbols := Queried(local, symbol);
    LocalReport(local, RemoteView(book, symbols)) + RemoteReport(SymbolsOf(local), RemoteView(book, symbols), symbols)
  }

  /** The orders still open locally, as reconciliation compares them. */
  function OpenOrders(orders: seq<Order>): seq<OpenOrder> {
    if orders == [] then []
    else
      var n := |orders| - 1;
      var o := orders[n];
      if Orders.Pollable(o) then OpenOrders(orders[..n]) + [OpenOrder(o.exchangeId, o.spec.side, o.spec.qty)]
      else OpenOrders(orders[..n])
  }

  /** The simulator never lists an order as open. */
  function OrderMismatchesOf(orders: seq<Order>): seq<OrderMismatch> {
    OrderReport(OpenOrders(orders), [])
  }

  /** Positions are compared first, then live orders are polled and compared; either half blocks trading. */
  function AfterReconciling(cfg: Config, w: World, symbol: string): World {
    var positionsOk := PositionReport(w.books.positions, w.book, symbol) == [];
    var b := Repolled(w.books, w.snapshots, |w.books.orders|, cfg.limits.maxApiFailures);
    var diverged := !(positionsOk && OrderMismatchesOf(b.orders) == []);
    w.(books := b.(system := Recomputed(b.system.(diverged := diverged, ambiguous := diverged), cfg.limits.maxApiFailures)))
  }

  function Next(cfg: Config, w: World, ev: Event): World {
    match ev
    case SignalGiven(s, snapshot, key, c) => SignalTried(cfg, w, s, snapshot, key, c)
    case TriggerHit(symbol, price, key, c) =>
      var i := OpenAt(w.books.positions, symbol);
      if i < |w.books.positions| then CloseTried(cfg, w, i, price, key, c) else w
    case OrdersPolled => w.(books := Repolled(w.books, w.snapshots, |w.books.orders|, cfg.limits.maxApiFailures))
    case Reconciled(symbol) => AfterReconciling(cfg, w, symbol)
    case Restarted => AfterRestart(w)
  }

  /** A new process: the simulator starts from the open positions and remembers no order. */
  function AfterRestart(w: World): World {
    w.(book := Hydrated(HydrationRows(w.books.positions)), snapshots := map[], nextFill := 1)
  }

  /** The event leads to an order: the gates approve it and its key is not on file. */
  predicate Trades(cfg: Config, w: World, ev: Event) {
    match ev
    case SignalGiven(s, snapshot, key, c) =>
      && key !in w.keys
      && if Reverses(w, s) then Closes(cfg, w, OpenAt(w.books.positions, s.symbol), c)
         else Evaluate(cfg.limits, Some(cfg.model), ContextOf(w, s, c), s).Approve?
    case TriggerHit(symbol, price, key, c) =>
      key !in w.keys && Closes(cfg, w, OpenAt(w.books.positions, symbol), c)
    case _ => false
  }

  /** Closing row i passes the close gates. */
  predicate Closes(cfg: Config, w: World, i: nat, c: RiskContext) {
    i < |w.books.positions| &&
    var p := w.books.positions[i];
    EvaluateClose(cfg.limits, c, p.symbol, p.side.Opposite(), p.qty, true, p.qty, p.side).Approve?
  }

  /** A rolled-back tick leaves the tables and the used keys as they were; the simulator is process memory and keeps what
      it did. */
  function NextStep(cfg: Config, w: World, step: Step): World {
    match step
    case Committed(ev) => Next(cfg, w, ev)
    case RolledBack(ev) => Next(cfg, w, ev).(books := w.books, keys := w.keys)
  }

  function Run(cfg: Config, steps: seq<Step>): World {
    if steps == [] then EMPTY else NextStep(cfg, Run(cfg, steps[..|steps| - 1]), steps[|steps| - 1])
  }

  // ---- lockstep ----

  function HoldingOf(p: Position): Holding {
    Holding(p.side, p.qty, p.avg)
  }

  /** Position and holding of one symbol agree. */
  ghost predicate InStep(ps: seq<Position>, book: Book, symbol: string) {
    (symbol in book <==> OpenAt(ps, symbol) < |ps|) &&
    (symbol in book ==> book[symbol] == HoldingOf(ps[OpenAt(ps, symbol)]))
  }

  /** Each symbol's persisted open position is the simulator's holding, and neither has more. */
  ghost predicate Lockstep(ps: seq<Position>, book: Book) {
    forall symbol :: InStep(ps, book, symbol)
  }

  /** The fills both books take alike: entries onto nothing or their own side, and closes of the opposite side that
      either leave more than the table's cut-off or miss the position by no more than the simulator's. */
  predicate CutsAlike(ps: seq<Position>, e: Execution) {
    var i := OpenAt(ps, e.order.symbol);
    if !e.order.isClose then i == |ps| || ps[i].side == e.order.side
    else
      && i < |ps| && ps[i].side != e.order.side
      && (!ClosesFully(ps[i], e.fill) || Abs(e.fill.qty - ps[i].qty) <= BOOK_TOLERANCE)
  }

  lemma {:induction false} OwnSymbolInStepExactlyWhen(ps: seq<Position>, book: Book, e: Execution)
    requires OneOpenPerSymbol(ps) && InStep(ps, book, e.order.symbol)
    ensures var book' := Booked(book, e.order.symbol, e.order.side, e.fill.qty, e.fill.price);
      InStep(ApplyFill(ps, e).positions, book', e.order.symbol) <==> CutsAlike(ps, e)
  {
    OpenRowAfter(ps, e);
  }

  lemma {:induction false} OtherSymbolsStayInStep(ps: seq<Position>, book: Book, e: Execution, symbol: string)
    requires OneOpenPerSymbol(ps) && InStep(ps, book, symbol) && symbol != e.order.symbol
    ensures InStep(ApplyFill(ps, e).positions, Booked(book, e.order.symbol, e.order.side, e.fill.qty, e.fill.price), symbol)
  {
    OpenAtElsewhere(ps, e, symbol);
  }

  /** One fill keeps both books in lockstep, the same side, quantity and average or both empty, if and only if both take
      it alike: the two cut-offs differ, so a close that leaves between 1e-12 and 1e-9 parts them. */
  lemma {:induction false} LockstepIsKeptExactlyWhen(ps: seq<Position>, book: Book, e: Execution)
    requires OneOpenPerSymbol(ps) && Lockstep(ps, book)
    ensures Lockstep(ApplyFill(ps, e).positions, Booked(book, e.order.symbol, e.order.side, e.fill.qty, e.fill.price))
      <==> CutsAlike(ps, e)
  {
    var after, book' := ApplyFill(ps, e).positions, Booked(book, e.order.symbol, e.order.side, e.fill.qty, e.fill.price);
    OwnSymbolInStepExactlyWhen(ps, book, e);
    forall symbol | symbol != e.order.symbol
      ensures InStep(after, book', symbol)
    {
      assert InStep(ps, book, symbol);
      OtherSymbolsStayInStep(ps, book, e, symbol);
    }
    assert Lockstep(after, book') ==> InStep(after, book', e.order.symbol);
  }

  /** The fills of a run without a partial ratio: entries onto nothing or their own side, and closes of exactly the
      whole opposite position. */
  predicate WholeFill(ps: seq<Position>, e: Execution) {
    CutsAlike(ps, e) && (e.order.isClose ==> e.fill.qty == ps[OpenAt(ps, e.order.symbol)].qty)
  }

  lemma {:induction false} OneMoreRowInStep(front: seq<Position>, p: Position, before: Book, symbol: string)
    requires OneOpenPerSymbol(front + [p]) && InStep(front, before, symbol)
    ensures InStep(front + [p], if p.open then before[p.symbol := HoldingOf(p)] else before, symbol)
  {
    OpenAtSnoc(front, p, symbol);
    var i, all := OpenAt(front, symbol), front + [p];
    assert all[|front|] == p && (i < |front| ==> all[i] == front[i]);
    assert p.open && p.symbol == symbol ==> i == |front|;
  }

  /** Hydration rebuilds a book in lockstep from the positions table alone. */
  lemma {:induction false} HydrationRestoresLockstep(ps: seq<Position>)
    requires OneOpenPerSymbol(ps)
    ensures Lockstep(ps, Hydrated(HydrationRows(ps)))
    decreases |ps|
  {
    if ps == [] {
    } else {
      var front, p := ps[..|ps| - 1], ps[|ps| - 1];
      assert ps == front + [p];
      HydrationRestoresLockstep(front);
      forall symbol
        ensures InStep(ps, Hydrated(HydrationRows(ps)), symbol)
      {
        assert InStep(front, Hydrated(HydrationRows(front)), symbol);
        OneMoreRowInStep(front, p, Hydrated(HydrationRows(front)), symbol);
      }
    }
  }

  lemma {:induction false} OpenAtSnoc(front: seq<Position>, p: Position, symbol: string)
    ensures OpenAt(front + [p], symbol) ==
      if OpenAt(front, symbol) < |front| then OpenAt(front, symbol)
      else if p.open && p.symbol == symbol then |front| else |front| + 1
  {
    var all := front + [p];
    var k := OpenAt(front, symbol);
    assert forall j :: 0 <= j < |front| ==> all[j] == front[j];
    assert all[|front|] == p;
  }

  // ---- exposure ----

  ghost predicate PositiveAverages(ps: seq<Position>) {
    forall p <- ps :: p.open ==> p.avg > 0.0
  }

  lemma {:induction false} IncreaseAddsNotional(p: Position, fill: Fill)
    requires p.open && p.avg > 0.0 && fill.price > 0.0
    ensures Notional(Increased(p, fill)) == Notional(p) + Worth(fill)
    ensures Increased(p, fill).avg > 0.0
  {
    AverageTimesQuantity(p.avg, p.qty, fill.price, fill.qty);
    NonNegativeProduct(p.avg, p.qty);
    assert fill.price * fill.qty > 0.0;
    var after := Increased(p, fill);
    if after.avg <= 0.0 {
      NonNegativeProduct(-after.avg, after.qty);
    }
  }

  lemma {:induction false} ExposureOfUpdate(ps: seq<Position>, i: nat, p: Position)
    requires i < |ps|
    ensures Exposure(ps[i := p]) == Exposure(ps) - Notional(ps[i]) + Notional(p)
  {
    SumOfUpdate(ps, i, p, (p: Position) => Notional(p));
  }

  lemma {:induction false} OpeningAddsItsNotional(ps: seq<Position>, e: Execution)
    requires PositiveAverages(ps) && e.fill.price > 0.0
    ensures var after := ps + [Reanchored(NewPosition(e.order, e.fill), FrozenDistances(e.order))];
      Exposure(after) == Exposure(ps) + Worth(e.fill) && PositiveAverages(after)
  {
    var p := Reanchored(NewPosition(e.order, e.fill), FrozenDistances(e.order));
    assert (ps + [p])[..|ps|] == ps;
    assert forall q <- ps + [p] :: q in ps || q == p;
  }

  lemma {:induction false} IncreasingAddsItsNotional(ps: seq<Position>, i: nat, e: Execution)
    requires PositiveAverages(ps) && e.fill.price > 0.0 && i < |ps| && ps[i].open
    ensures var after := ps[i := Reanchored(Increased(ps[i], e.fill), FrozenDistances(e.order))];
      Exposure(after) == Exposure(ps) + Worth(e.fill) && PositiveAverages(after)
  {
    assert ps[i] in ps;
    IncreaseAddsNotional(ps[i], e.fill);
    var p := Reanchored(Increased(ps[i], e.fill), FrozenDistances(e.order));
    assert Notional(p) == Notional(Increased(ps[i], e.fill));
    ExposureOfUpdate(ps, i, p);
    assert forall q <- ps[i := p] :: q in ps || q == p;
  }

  /** An entry adds exactly its notional to the exposure. */
  lemma {:induction false} EntryAddsItsNotional(ps: seq<Position>, e: Execution)
    requires PositiveAverages(ps) && WholeFill(ps, e) && !e.order.isClose && e.fill.price > 0.0
    ensures Exposure(ApplyFill(ps, e).positions) == Exposure(ps) + Worth(e.fill)
    ensures PositiveAverages(ApplyFill(ps, e).positions)
  {
    if OpenAt(ps, e.order.symbol) == |ps| {
      OpeningAddsItsNotional(ps, e);
    } else {
      IncreasingAddsItsNotional(ps, OpenAt(ps, e.order.symbol), e);
    }
  }

  /** A full close only releases exposure. */
  lemma {:induction false} CloseReleasesExposure(ps: seq<Position>, e: Execution)
    requires PositiveAverages(ps) && WholeFill(ps, e) && e.order.isClose
    ensures Exposure(ApplyFill(ps, e).positions) <= Exposure(ps)
    ensures PositiveAverages(ApplyFill(ps, e).positions)
  {
    var i := OpenAt(ps, e.order.symbol);
    NonNegativeProduct(ps[i].qty, ps[i].avg);
    ExposureOfUpdate(ps, i, Closed(ps[i], e.fill));
  }

  // ---- the invariant of every run ----

  /** Positions and executions agree, and exposure is within the cap. */
  ghost predicate MoneySound(cfg: Config, ps: seq<Position>, rows: seq<Execution>) {
    && OneOpenPerSymbol(ps)
    && PositiveAverages(ps)
    && Exposure(ps) <= Max(cfg.limits.maxTotalExposureUsd, 0.0)
    && ps == PositionsAfter(rows)
    && FaithfulRun(rows)
  }

  /** Every order went all the way. */
  ghost predicate AllFilled(orders: seq<Order>) {
    forall o <- orders :: o.status == Filled && o.totals.filledQty == o.spec.qty
  }

  /** No cause of a block comes from orders, fills or reconciliation. */
  predicate Undisturbed(st: SystemState) {
    !st.diverged && !st.ambiguous && !st.unknownOrders
  }

  /** What the tables satisfy whatever the simulator holds. */
  ghost predicate TablesSound(cfg: Config, b: Books) {
    MoneySound(cfg, b.positions, b.executions) && Consistent(b) && AllFilled(b.orders)
  }

  /** Tables and simulator agree, and nothing has ever disturbed them. */
  ghost predicate Agreed(w: World) {
    Lockstep(w.books.positions, w.book) && Undisturbed(w.books.system)
  }

  ghost predicate Sound(cfg: Config, w: World) {
    TablesSound(cfg, w.books) && Agreed(w)
  }

  /** A step keeps the tables sound, and table and simulator agreed if they were. */
  ghost predicate Keeps(cfg: Config, w: World, w': World) {
    TablesSound(cfg, w'.books) && (Agreed(w) ==> Agreed(w'))
  }

  /** One whole fill keeps everything but the exposure cap, which is the entry's own business. */
  lemma {:induction false} TradingStaysSound(cfg: Config, ps: seq<Position>, rows: seq<Execution>, e: Execution)
    requires MoneySound(cfg, ps, rows) && WholeFill(ps, e)
    requires !e.order.isClose ==> e.fill.price > 0.0 && Exposure(ps) + Worth(e.fill) <= cfg.limits.maxTotalExposureUsd
    ensures MoneySound(cfg, ApplyFill(ps, e).positions, rows + [e])
  {
    OneOpenIsKept(ps, e);
    assert (rows + [e])[..|rows|] == rows;
    if e.order.isClose {
      CloseReleasesExposure(ps, e);
    } else {
      EntryAddsItsNotional(ps, e);
    }
  }

  lemma {:induction false} PlacingKeepsConsistency(b: Books, order: OrderSpec, exchangeId: string)
    requires Consistent(b) && order.id == |b.orders|
    ensures var placed := Orders.OrderPlaced(b, order, Orders.Accepted(exchangeId));
      Consistent(placed) && RowsOf(placed.executions, |b.orders|) == []
  {
    SavingKeepsConsistency(b, order);
  }

  /** The row a trade writes. */
  function RowOf(cfg: Config, w: World, order: OrderSpec, qty: Qty, price: real): Execution {
    var fill := FillOf(cfg, w, order.side, qty, price);
    Execution(order, fill, fill.qty < order.qty - QTY_TOLERANCE)
  }

  lemma {:induction false} PaperIdsAreNotEmpty(key: string)
    ensures PaperOrderId(key) != ""
  {
    assert |PaperOrderId(key)| >= 6;
  }

  /** An order placed and reported filled at once: one order with the totals of its fill, one row, one step of the
      positions table. */
  lemma {:induction false} PlacedAndReported(b: Books, order: OrderSpec, exchangeId: string, s: Snapshot, fill: Fill,
                                             maxApiFailures: nat)
    requires Consistent(b) && order.id == |b.orders| && exchangeId != ""
    requires s.status in {Filled, PartiallyFilled} && s.complete && s.fills == [fill]
    ensures var placed := Orders.OrderPlaced(b, order, Orders.Accepted(exchangeId));
      var after := SnapshotApplied(placed, |b.orders|, s, maxApiFailures).0;
      var e := Execution(order, fill, fill.qty < order.qty - QTY_TOLERANCE);
      && Consistent(after)
      && after.positions == ApplyFill(b.positions, e).positions && after.executions == b.executions + [e]
      && after.orders == b.orders +
           [Order(order, s.status, exchangeId, Totals(fill.qty, fill.price, fill.fee), None, true)]
      && after.system == Recomputed(b.system.(ambiguous := b.system.ambiguous || ApplyFill(b.positions, e).blocked > 0,
                                              unknownOrders := HasUnknown(after.orders)), maxApiFailures)
  {
    var k := |b.orders|;
    var placed := Orders.OrderPlaced(b, order, Orders.Accepted(exchangeId));
    PlacingKeepsConsistency(b, order, exchangeId);
    SnapshotKeepsConsistency(placed, k, s, maxApiFailures);
    FirstReport(placed, k, s, fill, maxApiFailures);
    LastReplaced(b.orders, placed.orders[k], FirstFilled(placed.orders[k], s.status, fill));
  }

  /** What one trade writes, whatever the simulator's fill ratio: one order with the totals of its fill, one row, one
      step of the positions table. */
  lemma {:induction false} TradeWritesOneFill(cfg: Config, w: World, key: string, order: OrderSpec, qty: Qty,
                                              price: real)
    requires Consistent(w.books) && order.id == |w.books.orders|
    ensures var after := Traded(cfg, w, key, order, qty, price).books;
      var e := RowOf(cfg, w, order, qty, price);
      var status := if cfg.partialRatio.Some? then PartiallyFilled else Filled;
      && Consistent(after)
      && after.positions == ApplyFill(w.books.positions, e).positions && after.executions == w.books.executions + [e]
      && after.orders == w.books.orders +
           [Order(order, status, PaperOrderId(key), Totals(e.fill.qty, e.fill.price, e.fill.fee), None, true)]
      && after.system == Recomputed(w.books.system.(
           ambiguous := w.books.system.ambiguous || ApplyFill(w.books.positions, e).blocked > 0,
           unknownOrders := HasUnknown(after.orders)), cfg.limits.maxApiFailures)
  {
    var fill := FillOf(cfg, w, order.side, qty, price);
    PaperIdsAreNotEmpty(key);
    PlacedAndReported(w.books, order, PaperOrderId(key), FilledSnapshot(PaperOrderId(key), fill, cfg.partialRatio), fill,
                      cfg.limits.maxApiFailures);
  }

  lemma {:induction false} LastReplaced(orders: seq<Order>, o: Order, o': Order)
    ensures (orders + [o])[|orders| := o'] == orders + [o']
  {
  }

  lemma {:induction false} OneMoreFilled(orders: seq<Order>, o: Order)
    requires AllFilled(orders) && o.status == Filled && o.totals.filledQty == o.spec.qty
    ensures AllFilled(orders + [o]) && !HasUnknown(orders + [o])
  {
    forall p | p in orders + [o]
      ensures p.status == Filled && p.totals.filledQty == p.spec.qty
    {
      assert p in orders || p == o;
    }
  }

  lemma {:induction false} WholeFillsAreNotBlocked(ps: seq<Position>, e: Execution)
    requires CutsAlike(ps, e)
    ensures ApplyFill(ps, e).blocked == 0
  {
  }

  lemma {:induction false} RecomputingKeepsCauses(st: SystemState, maxApiFailures: nat)
    ensures Undisturbed(Recomputed(st, maxApiFailures)) == Undisturbed(st)
  {
  }

  lemma {:induction false} TradeStaysSound(cfg: Config, w: World, key: string, order: OrderSpec, price: real)
    requires TablesSound(cfg, w.books) && cfg.partialRatio.None? && order.id == |w.books.orders| && order.qty > 0.0
    requires var e := RowOf(cfg, w, order, order.qty, price);
      && WholeFill(w.books.positions, e)
      && (!order.isClose ==>
            e.fill.price > 0.0 && Exposure(w.books.positions) + Worth(e.fill) <= cfg.limits.maxTotalExposureUsd)
    ensures Keeps(cfg, w, TradedOnce(cfg, w, key, order, order.qty, price))
  {
    if key !in w.keys {
      var e := RowOf(cfg, w, order, order.qty, price);
      TradeWritesOneFill(cfg, w, key, order, order.qty, price);
      TradingStaysSound(cfg, w.books.positions, w.books.executions, e);
      var totals := Totals(e.fill.qty, e.fill.price, e.fill.fee);
      OneMoreFilled(w.books.orders, Order(order, Filled, PaperOrderId(key), totals, None, true));
      WholeFillsAreNotBlocked(w.books.positions, e);
      if Agreed(w) {
        LockstepIsKeptExactlyWhen(w.books.positions, w.book, e);
        RecomputingKeepsCauses(w.books.system.(ambiguous := false, unknownOrders := false), cfg.limits.maxApiFailures);
      }
    }
  }

  lemma {:induction false} ClosingStaysSound(cfg: Config, w: World, i: nat, price: real, key: string, c: RiskContext)
    requires TablesSound(cfg, w.books) && cfg.partialRatio.None?
    requires i < |w.books.positions| && OpenAt(w.books.positions, w.books.positions[i].symbol) == i
    ensures Keeps(cfg, w, CloseTried(cfg, w, i, price, key, c))
  {
    var p := w.books.positions[i];
    match EvaluateClose(cfg.limits, c, p.symbol, p.side.Opposite(), p.qty, true, p.qty, p.side)
    case Approve(o) =>
      TradeStaysSound(cfg, w, key, OrderSpec(|w.books.orders|, p.symbol, o.side, o.qty, true, None, None, None), price);
    case _ =>
  }

  lemma {:induction false} WorthOfPaperFill(id: string, m: CostModel, side: Side, qty: Qty, price: real)
    ensures var fill := PaperFill(id, side, qty, price, m.feeRate, m.slippageBps);
      Worth(fill) == AdverseNotional(m, side, qty, price) && fill.price == AdverseFillPrice(price, side, m.Slippage())
  {
    PaperFillsAtTheAdversePrice(price, side, m);
  }

  /** A full-fill paper entry is worth between the economic floor and the position limit, and never
      more than the exposure left. */
  lemma {:induction false} PaperEntryFitsTheRoom(cfg: Config, w: World, c: RiskContext, s: Signal)
    requires Evaluate(cfg.limits, Some(cfg.model), c, s).Approve? && cfg.partialRatio.None?
    ensures var o := Evaluate(cfg.limits, Some(cfg.model), c, s).order;
      && o.qty > 0.0
      && var fill := FillOf(cfg, w, o.side, o.qty, s.observedPrice);
      && fill.price > 0.0
      && c.openExposureUsd + Worth(fill) <= cfg.limits.maxTotalExposureUsd
      && Worth(fill) <= cfg.limits.maxPositionUsd
      && Worth(fill) >= cfg.limits.minOrderNotionalUsd - NOTIONAL_TOLERANCE_USD
  {
    ApprovedEntryFitsTheRoom(cfg.limits, cfg.model, c, s);
    var o := Evaluate(cfg.limits, Some(cfg.model), c, s).order;
    WorthOfPaperFill(FillId(w.nextFill), cfg.model, o.side, o.qty, s.observedPrice);
  }

  lemma {:induction false} EntryStaysSound(cfg: Config, w: World, order: OrderSpec, key: string, price: real)
    requires TablesSound(cfg, w.books) && cfg.partialRatio.None?
    requires order.id == |w.books.orders| && order.qty > 0.0 && !order.isClose
    requires var (ps, i) := (w.books.positions, OpenAt(w.books.positions, order.symbol)); i < |ps| ==>
      ps[i].side == order.side
    requires var fill := FillOf(cfg, w, order.side, order.qty, price);
      fill.price > 0.0 && Exposure(w.books.positions) + Worth(fill) <= cfg.limits.maxTotalExposureUsd
    ensures Keeps(cfg, w, TradedOnce(cfg, w, key, order, order.qty, price))
  {
    TradeStaysSound(cfg, w, key, order, price);
  }

  lemma {:induction false} ApprovedOrderFollowsTheSignal(cfg: Config, c: RiskContext, s: Signal, o: ApprovedOrder)
    requires Evaluate(cfg.limits, Some(cfg.model), c, s) == Approve(o)
    ensures o.symbol == s.symbol && s.direction == Some(o.side)
  {
  }

  lemma {:induction false} EntriesStaySound(cfg: Config, w: World, s: Signal, snapshot: Option<Distances>, key: string,
                                            context: RiskContext)
    requires TablesSound(cfg, w.books) && cfg.partialRatio.None?
    requires context.openExposureUsd == Exposure(w.books.positions) && !Reverses(w, s)
    ensures Keeps(cfg, w, EntryTried(cfg, w, s, snapshot, key, context))
  {
    match Evaluate(cfg.limits, Some(cfg.model), context, s)
    case Approve(o) =>
      PaperEntryFitsTheRoom(cfg, w, context, s);
      ApprovedOrderFollowsTheSignal(cfg, context, s, o);
      EntryStaysSound(cfg, w, OrderSpec(|w.books.orders|, o.symbol, o.side, o.qty, false, o.stopLoss, o.takeProfit, snapshot),
                      key, s.observedPrice);
    case _ =>
  }

  lemma {:induction false} SignalsStaySound(cfg: Config, w: World, s: Signal, snapshot: Option<Distances>, key: string,
                                            c: RiskContext)
    requires TablesSound(cfg, w.books) && cfg.partialRatio.None?
    ensures Keeps(cfg, w, SignalTried(cfg, w, s, snapshot, key, c))
  {
    if Reverses(w, s) {
      ClosingStaysSound(cfg, w, OpenAt(w.books.positions, s.symbol), s.observedPrice, key, c);
    } else {
      EntriesStaySound(cfg, w, s, snapshot, key, ContextOf(w, s, c));
    }
  }

  /** With every order filled there is nothing to poll again. */
  lemma {:induction false} NothingToPoll(b: Books, snapshots: map<string, Snapshot>, n: nat, maxApiFailures: nat)
    requires n <= |b.orders| && AllFilled(b.orders)
    ensures Repolled(b, snapshots, n, maxApiFailures) == b
    decreases n
  {
    if n == 0 {
    } else {
      NothingToPoll(b, snapshots, n - 1, maxApiFailures);
      assert b.orders[n - 1] in b.orders;
    }
  }

  lemma {:induction false} NoOpenOrders(orders: seq<Order>)
    requires AllFilled(orders)
    ensures OpenOrders(orders) == [] && OrderMismatchesOf(orders) == []
    decreases |orders|
  {
    if orders == [] {
    } else {
      var n := |orders| - 1;
      assert orders[n] in orders;
      NoOpenOrders(orders[..n]);
    }
  }

  /** A sound state reconciles cleanly in both halves, and reconciling leaves it sound. */
  lemma {:induction false} SoundStatesReconcile(cfg: Config, w: World, symbol: string)
    requires Sound(cfg, w)
    ensures PositionReport(w.books.positions, w.book, symbol) == [] && OrderMismatchesOf(w.books.orders) == []
    ensures Sound(cfg, AfterReconciling(cfg, w, symbol))
  {
    NoOpenOrders(w.books.orders);
    NothingToPoll(w.books, w.snapshots, |w.books.orders|, cfg.limits.maxApiFailures);
    LockstepReconciles(w.books.positions, w.book, symbol);
    RecomputingKeepsCauses(w.books.system.(diverged := false, ambiguous := false), cfg.limits.maxApiFailures);
  }

  lemma {:induction false} ReconcilingKeepsTheTables(cfg: Config, w: World, symbol: string)
    requires TablesSound(cfg, w.books)
    ensures Keeps(cfg, w, AfterReconciling(cfg, w, symbol))
  {
    NothingToPoll(w.books, w.snapshots, |w.books.orders|, cfg.limits.maxApiFailures);
    if Agreed(w) {
      SoundStatesReconcile(cfg, w, symbol);
    }
  }

  /** A restart restores lockstep from the tables alone. */
  lemma {:induction false} RestartingRestoresLockstep(cfg: Config, w: World)
    requires TablesSound(cfg, w.books)
    ensures Keeps(cfg, w, AfterRestart(w)) && Lockstep(w.books.positions, AfterRestart(w).book)
  {
    HydrationRestoresLockstep(w.books.positions);
  }

  lemma {:induction false} TriggersStaySound(cfg: Config, w: World, symbol: string, price: real, key: string,
                                             c: RiskContext)
    requires TablesSound(cfg, w.books) && cfg.partialRatio.None?
    ensures Keeps(cfg, w, Next(cfg, w, TriggerHit(symbol, price, key, c)))
  {
    var i := OpenAt(w.books.positions, symbol);
    if i < |w.books.positions| {
      ClosingStaysSound(cfg, w, i, price, key, c);
    }
  }

  lemma {:induction false} EveryEventStaysSound(cfg: Config, w: World, ev: Event)
    requires TablesSound(cfg, w.books) && cfg.partialRatio.None?
    ensures Keeps(cfg, w, Next(cfg, w, ev))
  {
    match ev
    case SignalGiven(s, snapshot, key, c) => SignalsStaySound(cfg, w, s, snapshot, key, c);
    case TriggerHit(symbol, price, key, c) => TriggersStaySound(cfg, w, symbol, price, key, c);
    case OrdersPolled => NothingToPoll(w.books, w.snapshots, |w.books.orders|, cfg.limits.maxApiFailures);
    case Reconciled(symbol) => ReconcilingKeepsTheTables(cfg, w, symbol);
    case Restarted => RestartingRestoresLockstep(cfg, w);
  }

  // ---- ticks rolled back in a process that lives on ----

  lemma {:induction false} OneSidedBookingPartsThem(ps: seq<Position>, book: Book, symbol: string, side: Side, qty: Qty,
                                                    price: real)
    requires Lockstep(ps, book)
    ensures !Lockstep(ps, Booked(book, symbol, side, qty, price))
  {
    assert InStep(ps, book, symbol);
    assert !InStep(ps, Booked(book, symbol, side, qty, price), symbol);
  }

  /** An event that trades is one trade. */
  lemma {:induction false} TheTrade(cfg: Config, w: World, ev: Event)
    returns (key: string, order: OrderSpec, qty: Qty, price: real)
    requires Trades(cfg, w, ev)
    ensures Next(cfg, w, ev) == Traded(cfg, w, key, order, qty, price)
  {
    match ev
    case SignalGiven(s, snapshot, k, c) =>
      key, price := k, s.observedPrice;
      if Reverses(w, s) {
        order, qty := TheClose(cfg, w, OpenAt(w.books.positions, s.symbol), price, key, c);
      } else {
        var context := ContextOf(w, s, c);
        ApprovedEntryFitsTheRoom(cfg.limits, cfg.model, context, s);
        var o := Evaluate(cfg.limits, Some(cfg.model), context, s).order;
        order := OrderSpec(|w.books.orders|, o.symbol, o.side, o.qty, false, o.stopLoss, o.takeProfit, snapshot);
        qty := o.qty;
      }
    case TriggerHit(symbol, p, k, c) =>
      key, price := k, p;
      order, qty := TheClose(cfg, w, OpenAt(w.books.positions, symbol), price, key, c);
  }

  lemma {:induction false} TheClose(cfg: Config, w: World, i: nat, price: real, key: string, c: RiskContext)
    returns (order: OrderSpec, qty: Qty)
    requires key !in w.keys && Closes(cfg, w, i, c)
    ensures CloseTried(cfg, w, i, price, key, c) == Traded(cfg, w, key, order, qty, price)
  {
    var p := w.books.positions[i];
    var o := EvaluateClose(cfg.limits, c, p.symbol, p.side.Opposite(), p.qty, true, p.qty, p.side).order;
    order, qty := OrderSpec(|w.books.orders|, p.symbol, o.side, o.qty, true, None, None, None), p.qty;
  }

  lemma {:induction false} NoTradeNoBooking(cfg: Config, w: World, ev: Event)
    requires !Trades(cfg, w, ev)
    ensures Next(cfg, w, ev).book == if ev.Restarted? then AfterRestart(w).book else w.book
  {
  }

  /** A rolled-back tick keeps table and simulator agreed if it trades nothing, and always parts them if it does. */
  lemma {:induction false} RolledBackStep(cfg: Config, w: World, ev: Event)
    requires TablesSound(cfg, w.books) && Lockstep(w.books.positions, w.book)
    ensures var after := NextStep(cfg, w, RolledBack(ev));
      after.books == w.books && (Lockstep(after.books.positions, after.book) <==> !Trades(cfg, w, ev))
  {
    if Trades(cfg, w, ev) {
      var key, order, qty, price := TheTrade(cfg, w, ev);
      var fill := FillOf(cfg, w, order.side, qty, price);
      OneSidedBookingPartsThem(w.books.positions, w.book, order.symbol, order.side, fill.qty, fill.price);
    } else {
      NoTradeNoBooking(cfg, w, ev);
      RestartingRestoresLockstep(cfg, w);
    }
  }

  /** No tick that traded was rolled back. */
  ghost predicate LosesNoTrade(cfg: Config, steps: seq<Step>) {
    steps == [] ||
    var n := |steps| - 1;
    LosesNoTrade(cfg, steps[..n]) && (steps[n].RolledBack? ==> !Trades(cfg, Run(cfg, steps[..n]), steps[n].ev))
  }

  lemma {:induction false} EmptyIsSound(cfg: Config)
    ensures Sound(cfg, EMPTY)
  {
  }

  /** Rolled-back ticks or not, the tables of every run without a partial ratio stay sound. */
  lemma {:induction false} EveryRunKeepsTheTables(cfg: Config, steps: seq<Step>)
    requires cfg.partialRatio.None?
    ensures TablesSound(cfg, Run(cfg, steps).books)
    decreases |steps|
  {
    if steps == [] {
      EmptyIsSound(cfg);
    } else {
      var n := |steps| - 1;
      EveryRunKeepsTheTables(cfg, steps[..n]);
      EveryEventStaysSound(cfg, Run(cfg, steps[..n]), steps[n].ev);
    }
  }

  lemma {:induction false} EveryRunIsSound(cfg: Config, steps: seq<Step>)
    requires cfg.partialRatio.None? && LosesNoTrade(cfg, steps)
    ensures Sound(cfg, Run(cfg, steps))
    decreases |steps|
  {
    if steps == [] {
      EmptyIsSound(cfg);
    } else {
      var n := |steps| - 1;
      var w := Run(cfg, steps[..n]);
      EveryRunIsSound(cfg, steps[..n]);
      match steps[n]
      case Committed(ev) => EveryEventStaysSound(cfg, w, ev);
      case RolledBack(ev) => RolledBackStep(cfg, w, ev);
    }
  }

  /** The tables and the simulator of a run agree. */
  ghost predicate EndsInLockstep(cfg: Config, steps: seq<Step>) {
    Lockstep(Run(cfg, steps).books.positions, Run(cfg, steps).book)
  }

  ghost predicate AlwaysInLockstep(cfg: Config, steps: seq<Step>) {
    forall k :: 0 <= k <= |steps| ==> EndsInLockstep(cfg, steps[..k])
  }

  lemma {:induction false} AlwaysOneMore(cfg: Config, steps: seq<Step>)
    requires steps != []
    ensures AlwaysInLockstep(cfg, steps) <==>
      AlwaysInLockstep(cfg, steps[..|steps| - 1]) && EndsInLockstep(cfg, steps)
  {
    var before := steps[..|steps| - 1];
    assert forall k :: 0 <= k < |steps| ==> steps[..k] == before[..k];
    assert steps[..|steps|] == steps;
    if AlwaysInLockstep(cfg, steps) {
      forall k | 0 <= k <= |before|
        ensures EndsInLockstep(cfg, before[..k])
      {
        assert EndsInLockstep(cfg, steps[..k]);
      }
      assert EndsInLockstep(cfg, steps[..|steps|]);
    } else {
      var k :| 0 <= k <= |steps| && !EndsInLockstep(cfg, steps[..k]);
      assert k < |steps| ==> !EndsInLockstep(cfg, before[..k]);
    }
  }

  lemma {:induction false} LockstepOneMore(cfg: Config, steps: seq<Step>)
    requires cfg.partialRatio.None? && steps != [] && LosesNoTrade(cfg, steps[..|steps| - 1])
    ensures EndsInLockstep(cfg, steps) <==> LosesNoTrade(cfg, steps)
  {
    var n := |steps| - 1;
    EveryRunIsSound(cfg, steps[..n]);
    match steps[n]
    case Committed(ev) => EveryEventStaysSound(cfg, Run(cfg, steps[..n]), ev);
    case RolledBack(ev) => RolledBackStep(cfg, Run(cfg, steps[..n]), ev);
  }

  /** Exactly when a run is in lockstep throughout: when no tick that traded was rolled back. */
  lemma {:induction false} LockstepThroughoutExactlyWhen(cfg: Config, steps: seq<Step>)
    requires cfg.partialRatio.None?
    ensures AlwaysInLockstep(cfg, steps) <==> LosesNoTrade(cfg, steps)
    decreases |steps|
  {
    if steps == [] {
      EmptyIsSound(cfg);
      assert EndsInLockstep(cfg, []);
    } else {
      var before := steps[..|steps| - 1];
      LockstepThroughoutExactlyWhen(cfg, before);
      AlwaysOneMore(cfg, steps);
      if LosesNoTrade(cfg, before) {
        LockstepOneMore(cfg, steps);
      }
    }
  }

  /** And whatever was rolled back before, a restart brings the two books together and the next reconciliation of
      positions is clean. */
  lemma {:induction false} RestartsRestoreLockstep(cfg: Config, steps: seq<Step>, symbol: string)
    requires cfg.partialRatio.None?
    ensures PositionsAgree(AfterRestart(Run(cfg, steps)), symbol)
  {
    EveryRunKeepsTheTables(cfg, steps);
    RestartedReport(cfg, Run(cfg, steps), symbol);
  }

  /** Both books agree, and a reconciliation finds that they do. */
  ghost predicate PositionsAgree(w: World, symbol: string) {
    Lockstep(w.books.positions, w.book) && PositionReport(w.books.positions, w.book, symbol) == []
  }

  lemma {:induction false} RestartedReport(cfg: Config, w: World, symbol: string)
    requires TablesSound(cfg, w.books)
    ensures PositionsAgree(AfterRestart(w), symbol)
  {
    RestartingRestoresLockstep(cfg, w);
    LockstepReconciles(w.books.positions, AfterRestart(w).book, symbol);
  }

  // ---- what a run promises ----

  lemma {:induction false} ListedRowsAreOpen(ps: seq<Position>)
    requires OneOpenPerSymbol(ps)
    ensures forall l <- LocalView(ps) :: var i := OpenAt(ps, l.symbol);
      i < |ps| && l == LocalPosition(l.symbol, ps[i].side, ps[i].qty, ps[i].avg)
    decreases |ps|
  {
    if ps == [] {
    } else {
      var n := |ps| - 1;
      var front, p := ps[..n], ps[n];
      ListedRowsAreOpen(front);
      assert ps == front + [p];
      forall l: LocalPosition | l in LocalView(ps)
        ensures var i := OpenAt(ps, l.symbol); i < |ps| && l == LocalPosition(l.symbol, ps[i].side, ps[i].qty, ps[i].avg)
      {
        OpenAtSnoc(front, p, l.symbol);
      }
    }
  }

  lemma {:induction false} OpenRowsAreListed(ps: seq<Position>)
    ensures forall i :: 0 <= i < |ps| && ps[i].open ==> HasLocal(LocalView(ps), ps[i].symbol)
    decreases |ps|
  {
    if ps == [] {
    } else {
      var n := |ps| - 1;
      var front, p := ps[..n], ps[n];
      OpenRowsAreListed(front);
      forall i | 0 <= i < |ps| && ps[i].open
        ensures HasLocal(LocalView(ps), ps[i].symbol)
      {
        if i < n {
          assert front[i] == ps[i];
          var l: LocalPosition :| l in LocalView(front) && l.symbol == ps[i].symbol;
          assert l in LocalView(ps);
        } else {
          assert LocalPosition(p.symbol, p.side, p.qty, p.avg) in LocalView(ps);
        }
      }
    }
  }

  lemma {:induction false} ListedSymbolsAreDistinct(ps: seq<Position>)
    requires OneOpenPerSymbol(ps)
    ensures DistinctSymbols(LocalView(ps))
    decreases |ps|
  {
    if ps == [] {
    } else {
      var n := |ps| - 1;
      var front := ps[..n];
      ListedSymbolsAreDistinct(front);
      ListedRowsAreOpen(front);
      forall i | 0 <= i < |LocalView(front)| && ps[n].open
        ensures LocalView(front)[i].symbol != ps[n].symbol
      {
        var l := LocalView(front)[i];
        assert l in LocalView(front);
        assert front[OpenAt(front, l.symbol)] == ps[OpenAt(front, l.symbol)];
      }
    }
  }

  lemma {:induction false} QueriedCovers(local: seq<LocalPosition>, symbol: string)
    ensures forall l <- local :: l.symbol in Queried(local, symbol)
  {
    var symbols := seq(|local|, i requires 0 <= i < |local| => local[i].symbol);
    forall l | l in local
      ensures l.symbol in Queried(local, symbol)
    {
      var i :| 0 <= i < |local| && local[i] == l;
      assert symbols[i] == l.symbol;
    }
  }

  /** Both books in lockstep reconcile cleanly, whatever symbol is configured. */
  lemma {:induction false} LockstepReconciles(ps: seq<Position>, book: Book, symbol: string)
    requires OneOpenPerSymbol(ps) && Lockstep(ps, book)
    ensures DistinctSymbols(LocalView(ps))
    ensures PositionReport(ps, book, symbol) == []
  {
    var local := LocalView(ps);
    var symbols := Queried(local, symbol);
    ListedRowsAreOpen(ps);
    OpenRowsAreListed(ps);
    ListedSymbolsAreDistinct(ps);
    QueriedCovers(local, symbol);
    forall l: LocalPosition | l in local
      ensures Agrees(l, RemoteOf(RemoteView(book, symbols), l.symbol))
    {
      assert InStep(ps, book, l.symbol);
    }
    forall s | s in symbols && RemoteOf(RemoteView(book, symbols), s).Some?
      ensures s in SymbolsOf(local)
    {
      assert InStep(ps, book, s);
      assert ps[OpenAt(ps, s)].open;
      assert HasLocal(local, s);
    }
    CleanLocalReport(local, RemoteView(book, symbols));
    CleanRemoteReport(SymbolsOf(local), RemoteView(book, symbols), symbols);
  }

  /** Every paper run without a partial ratio, over any symbols, any mixture of signals, stops, targets, polls,
      reconciliations, rolled-back ticks and restarts and any state of the gates: every order is filled in full, exposure
      stays within the cap, equity is cash plus holdings at every mark, and each position is its net traded units. */
  lemma {:induction false} EveryPaperRunKeepsItsBooks(cfg: Config, steps: seq<Step>, starting: real, marks: Marks,
                                                      symbol: string)
    requires cfg.partialRatio.None? && cfg.limits.maxTotalExposureUsd >= 0.0
    ensures var w := Run(cfg, steps);
      var (ps, rows) := (w.books.positions, w.books.executions);
      && OneOpenPerSymbol(ps) && Consistent(w.books) && AllFilled(w.books.orders)
      && OrderMismatchesOf(w.books.orders) == []
      && Exposure(ps) <= cfg.limits.maxTotalExposureUsd
      && Equity(starting, RealizedOf(ps), FeesPaid(rows), None, UnrealizedOf(ps, marks)) ==
           starting + Cash(rows) + Holdings(rows, marks)
      && SignedQty(ps, symbol) == NetUnits(rows, symbol)
  {
    EveryRunKeepsTheTables(cfg, steps);
    var rows := Run(cfg, steps).books.executions;
    NoOpenOrders(Run(cfg, steps).books.orders);
    EquityRefinesThePlainLedger(starting, rows, None, marks);
    PositionIsNetUnits(rows, symbol);
  }

  /** When moreover no tick that traded was rolled back, both books agree, both halves of a reconciliation are clean and
      none ever blocked trading. */
  lemma {:induction false} EveryPaperRun(cfg: Config, steps: seq<Step>, symbol: string)
    requires cfg.partialRatio.None? && LosesNoTrade(cfg, steps)
    ensures var w := Run(cfg, steps);
      && PositionsAgree(w, symbol) && OrderMismatchesOf(w.books.orders) == []
      && Undisturbed(w.books.system) && Undisturbed(AfterReconciling(cfg, w, symbol).books.system)
  {
    EveryRunIsSound(cfg, steps);
    SoundStatesReconcile(cfg, Run(cfg, steps), symbol);
  }

  // ---- a simulator that fills partially ----

  /** What becomes of orders that never fill in full: PARTIALLY_FILLED, or UNKNOWN once a restart has made the simulator
      forget them. */
  ghost predicate StillOpen(orders: seq<Order>) {
    forall o <- orders :: o.status in {PartiallyFilled, Unknown} && o.exchangeId != ""
  }

  ghost predicate Partial(snapshots: map<string, Snapshot>) {
    forall id :: id in snapshots ==> snapshots[id].status == PartiallyFilled
  }

  lemma {:induction false} PolledOrdersStayOpen(o: Order, s: Snapshot)
    requires o.status in {PartiallyFilled, Unknown} && s.status in {PartiallyFilled, Unknown} && o.exchangeId != ""
    ensures SyncedStatus(o, s).Some?
    ensures var o' := SyncedStatus(o, s).value; o'.status in {PartiallyFilled, Unknown} && o'.exchangeId == o.exchangeId
  {
  }

  lemma {:induction false} RepollingLeavesOrdersOpen(b: Books, snapshots: map<string, Snapshot>, n: nat,
                                                     maxApiFailures: nat)
    requires n <= |b.orders| && StillOpen(b.orders) && Partial(snapshots)
    ensures StillOpen(Repolled(b, snapshots, n, maxApiFailures).orders)
    decreases n
  {
    if n == 0 {
    } else {
      RepollingLeavesOrdersOpen(b, snapshots, n - 1, maxApiFailures);
      var before := Repolled(b, snapshots, n - 1, maxApiFailures);
      var o := before.orders[n - 1];
      assert o in before.orders;
      PolledOrdersStayOpen(o, Served(snapshots, o.exchangeId));
      var after := Repolled(b, snapshots, n, maxApiFailures);
      forall p | p in after.orders
        ensures p.status in {PartiallyFilled, Unknown} && p.exchangeId != ""
      {
        var i :| 0 <= i < |after.orders| && after.orders[i] == p;
        assert before.orders[i] in before.orders;
      }
    }
  }

  lemma {:induction false} PartialTradeStaysOpen(cfg: Config, w: World, key: string, order: OrderSpec, qty: Qty,
                                                 price: real)
    requires cfg.partialRatio.Some? && StillOpen(w.books.orders) && Partial(w.snapshots)
    ensures var after := TradedOnce(cfg, w, key, order, qty, price);
      StillOpen(after.books.orders) && Partial(after.snapshots) && |after.books.orders| >= |w.books.orders|
  {
    if key !in w.keys {
      var exchangeId := PaperOrderId(key);
      var placed := Orders.OrderPlaced(w.books, order, Orders.Accepted(exchangeId));
      assert |exchangeId| >= 6;
      var fill := FillOf(cfg, w, order.side, qty, price);
      var s := FilledSnapshot(exchangeId, fill, cfg.partialRatio);
      var k := |w.books.orders|;
      FirstStatus(placed.orders[k], s);
      var after := Traded(cfg, w, key, order, qty, price).books.orders;
      assert forall i :: 0 <= i < k ==> after[i] == w.books.orders[i];
      forall p | p in after
        ensures p.status in {PartiallyFilled, Unknown} && p.exchangeId != ""
      {
        var i :| 0 <= i < |after| && after[i] == p;
        assert i < k ==> w.books.orders[i] in w.books.orders;
      }
    }
  }

  lemma {:induction false} PartialStep(cfg: Config, w: World, ev: Event)
    requires cfg.partialRatio.Some? && StillOpen(w.books.orders) && Partial(w.snapshots)
    ensures var after := Next(cfg, w, ev);
      StillOpen(after.books.orders) && Partial(after.snapshots)
  {
    match ev
    case SignalGiven(s, snapshot, key, c) =>
      if Reverses(w, s) {
        PartialClose(cfg, w, OpenAt(w.books.positions, s.symbol), s.observedPrice, key, c);
      } else {
        match Evaluate(cfg.limits, Some(cfg.model), ContextOf(w, s, c), s)
        case Approve(o) =>
          ApprovedEntryFitsTheRoom(cfg.limits, cfg.model, ContextOf(w, s, c), s);
          var order := OrderSpec(|w.books.orders|, o.symbol, o.side, o.qty, false, o.stopLoss, o.takeProfit, snapshot);
          PartialTradeStaysOpen(cfg, w, key, order, o.qty, s.observedPrice);
        case _ =>
      }
    case TriggerHit(symbol, price, key, c) =>
      var i := OpenAt(w.books.positions, symbol);
      if i < |w.books.positions| {
        PartialClose(cfg, w, i, price, key, c);
      }
    case OrdersPolled => RepollingLeavesOrdersOpen(w.books, w.snapshots, |w.books.orders|, cfg.limits.maxApiFailures);
    case Reconciled(symbol) => RepollingLeavesOrdersOpen(w.books, w.snapshots, |w.books.orders|, cfg.limits.maxApiFailures);
    case Restarted =>
  }

  lemma {:induction false} PartialClose(cfg: Config, w: World, i: nat, price: real, key: string, c: RiskContext)
    requires cfg.partialRatio.Some? && StillOpen(w.books.orders) && Partial(w.snapshots) && i < |w.books.positions|
    ensures var after := CloseTried(cfg, w, i, price, key, c);
      StillOpen(after.books.orders) && Partial(after.snapshots)
  {
    var p := w.books.positions[i];
    match EvaluateClose(cfg.limits, c, p.symbol, p.side.Opposite(), p.qty, true, p.qty, p.side)
    case Approve(o) =>
      var order := OrderSpec(|w.books.orders|, p.symbol, o.side, o.qty, true, None, None, None);
      PartialTradeStaysOpen(cfg, w, key, order, p.qty, price);
    case _ =>
  }

  lemma {:induction false} EveryPartialRun(cfg: Config, steps: seq<Step>)
    requires cfg.partialRatio.Some?
    ensures StillOpen(Run(cfg, steps).books.orders) && Partial(Run(cfg, steps).snapshots)
    decreases |steps|
  {
    if steps == [] {
    } else {
      EveryPartialRun(cfg, steps[..|steps| - 1]);
      PartialStep(cfg, Run(cfg, steps[..|steps| - 1]), steps[|steps| - 1].ev);
    }
  }

  lemma {:induction false} OpenOrdersAreMissed(orders: seq<Order>)
    requires StillOpen(orders)
    ensures OrderMismatchesOf(orders) == [] <==> orders == []
  {
    CleanOrderReport(OpenOrders(orders), []);
    if orders != [] {
      var n := |orders| - 1;
      assert orders[n] in orders;
      assert orders[n].exchangeId in ById(OpenOrders(orders));
    }
  }

  /** The order half of reconciliation is clean on exactly the runs whose simulator fills in full or that have no order on
      file: a partial fill leaves its order live for good, while the simulator never lists it as open. */
  lemma {:induction false} OrdersReconcileExactlyWhen(cfg: Config, steps: seq<Step>)
    ensures OrderMismatchesOf(Run(cfg, steps).books.orders) == [] <==>
      cfg.partialRatio.None? || Run(cfg, steps).books.orders == []
  {
    if cfg.partialRatio.None? {
      EveryRunKeepsTheTables(cfg, steps);
      NoOpenOrders(Run(cfg, steps).books.orders);
    } else {
      EveryPartialRun(cfg, steps);
      OpenOrdersAreMissed(Run(cfg, steps).books.orders);
    }
  }
}
