/** The money of whole order runs: what the exchange executed, what the ledger recorded, the average-cost positions
    and the dashboard's equity, over every sequence of polls, cancellations, executions and process deaths. */
module MoneyRun {
  import opened Basics
  import opened OrderState
  import opened FillLedger
  import opened PositionBook
  import opened FillService
  import opened CashLedger
  import Orders = OrderLifecycle

  // ---- tables against ledger ----

  lemma {:induction false} SettlingKeepsThemTogether(b: Books, k: nat, s: Snapshot, maxApiFailures: nat)
    requires k < |b.orders| && b.positions == PositionsAfter(b.executions)
    ensures var after := SnapshotApplied(b, k, s, maxApiFailures).0;
      after.positions == PositionsAfter(after.executions)
  {
    ApplyingAStatusNeverRaises(b.orders[k], s);
    ApplyFillsConcat([], b.executions, NewRows(b.executions, SyncedStatus(b.orders[k], s).value.spec, s.fills));
  }

  lemma {:induction false} EveryStepKeepsThemTogether(w: Orders.World, ev: Orders.Event)
    requires w.books.positions == PositionsAfter(w.books.executions)
    ensures var after := Orders.Next(w, ev).books;
      after.positions == PositionsAfter(after.executions)
  {
    match ev
    case Polled(k, s) =>
      if k < |w.books.orders| && Orders.Pollable(w.books.orders[k]) {
        SettlingKeepsThemTogether(w.books, k, s, w.maxApiFailures);
      }
    case CancelRequested(k, s) =>
      if k < |w.books.orders| && Orders.Pollable(w.books.orders[k]) && CanMove(w.books.orders[k].status, CancelPending) {
        SettlingKeepsThemTogether(Orders.MarkedCancelling(w.books, k), k, s, w.maxApiFailures);
      }
    case _ =>
  }

  /** However the fills were split over polls, the positions table is that of all execution rows applied in order. */
  lemma {:induction false} PositionsFollowTheLedger(maxApiFailures: nat, events: seq<Orders.Event>)
    ensures var b := Orders.RunFrom(Orders.Empty(maxApiFailures), events).books;
      b.positions == PositionsAfter(b.executions)
    decreases |events|
  {
    if events == [] {
    } else {
      var n := |events| - 1;
      PositionsFollowTheLedger(maxApiFailures, events[..n]);
      EveryStepKeepsThemTogether(Orders.RunFrom(Orders.Empty(maxApiFailures), events[..n]), events[n]);
    }
  }

  /** The dashboard's equity on every run: cash and holdings of the rows on file, and their residuals. */
  lemma {:induction false} EquityOnEveryRun(maxApiFailures: nat, events: seq<Orders.Event>, starting: real,
                                            funding: Option<real>, marks: Marks)
    ensures var b := Orders.RunFrom(Orders.Empty(maxApiFailures), events).books;
      Equity(starting, RealizedOf(b.positions), FeesPaid(b.executions), funding, UnrealizedOf(b.positions, marks)) ==
      starting + (if funding.Some? then funding.value else 0.0)
      + Cash(b.executions) + Holdings(b.executions, marks) + Residuals(b.executions, marks)
  {
    PositionsFollowTheLedger(maxApiFailures, events);
    var rows := Orders.RunFrom(Orders.Empty(maxApiFailures), events).books.executions;
    EquityIsCashPlusHoldingsPlusResiduals(starting, rows, funding, marks);
  }

  // ---- ledger against exchange ----

  /** What one fill of an order counts for; the partial flag of its row plays no part. */
  type Worth = (OrderSpec, Fill) -> real

  function ValueOf(rows: seq<Execution>, v: Worth): real {
    Sum(rows, (e: Execution) => v(e.order, e.fill))
  }

  function FillsValue(order: OrderSpec, fills: seq<Fill>, v: Worth): real {
    Sum(fills, (f: Fill) => v(order, f))
  }

  /** The rows of all orders, order by order. */
  function ByOrder(specs: seq<OrderSpec>, fills: seq<seq<Fill>>): seq<Execution>
    requires |specs| == |fills|
  {
    if specs == [] then []
    else
      var n := |specs| - 1;
      ByOrder(specs[..n], fills[..n]) + Tagged(specs[n], fills[n], false)
  }

  lemma {:induction false} ValueOfTagged(order: OrderSpec, fills: seq<Fill>, v: Worth)
    ensures ValueOf(Tagged(order, fills, false), v) == FillsValue(order, fills, v)
    decreases |fills|
  {
    if fills == [] {
    } else {
      var n := |fills| - 1;
      assert Tagged(order, fills, false)[..n] == Tagged(order, fills[..n], false);
      ValueOfTagged(order, fills[..n], v);
    }
  }

  lemma {:induction false} ValueByOrder(specs: seq<OrderSpec>, fills: seq<seq<Fill>>, v: Worth)
    requires |specs| == |fills| > 0
    ensures var n := |specs| - 1;
      ValueOf(ByOrder(specs, fills), v) ==
        ValueOf(ByOrder(specs[..n], fills[..n]), v) + FillsValue(specs[n], fills[n], v)
  {
    var n := |specs| - 1;
    SumOfConcat(ByOrder(specs[..n], fills[..n]), Tagged(specs[n], fills[n], false), (e: Execution) => v(e.order, e.fill));
    ValueOfTagged(specs[n], fills[n], v);
  }

  lemma {:induction false} NothingByOrder(specs: seq<OrderSpec>, fills: seq<seq<Fill>>)
    requires |specs| == |fills| && forall k :: 0 <= k < |fills| ==> fills[k] == []
    ensures ByOrder(specs, fills) == []
    decreases |specs|
  {
    if specs == [] {
    } else {
      NothingByOrder(specs[..|specs| - 1], fills[..|specs| - 1]);
    }
  }

  lemma {:induction false} OneFillMore(specs: seq<OrderSpec>, fills: seq<seq<Fill>>, j: nat, fill: Fill, v: Worth)
    requires |specs| == |fills| && j < |specs|
    ensures ValueOf(ByOrder(specs, fills[j := fills[j] + [fill]]), v) ==
      ValueOf(ByOrder(specs, fills), v) + v(specs[j], fill)
    decreases |specs|
  {
    var n := |specs| - 1;
    var after := fills[j := fills[j] + [fill]];
    ValueByOrder(specs, fills, v);
    ValueByOrder(specs, after, v);
    if j == n {
      assert after[..n] == fills[..n];
      assert (fills[n] + [fill])[..|fills[n]|] == fills[n];
    } else {
      assert after[..n] == fills[..n][j := fills[j] + [fill]];
      OneFillMore(specs[..n], fills[..n], j, fill, v);
    }
  }

  /** The ledgers of orders 0 to n - 1. */
  function Ledgers(rows: seq<Execution>, n: nat): seq<seq<Fill>> {
    seq(n, k requires 0 <= k < n => RowsOf(rows, k))
  }

  /** The execution rows, taken order by order, are worth what they are worth in the order of their arrival. */
  lemma {:induction false} LedgersPartitionTheRows(specs: seq<OrderSpec>, rows: seq<Execution>, v: Worth)
    requires forall e <- rows :: e.order.id < |specs| && e.order == specs[e.order.id]
    ensures ValueOf(ByOrder(specs, Ledgers(rows, |specs|)), v) == ValueOf(rows, v)
    decreases |rows|
  {
    if rows == [] {
      NothingByOrder(specs, Ledgers(rows, |specs|));
    } else {
      var n := |rows| - 1;
      var j := rows[n].order.id;
      var before := Ledgers(rows[..n], |specs|);
      LedgersPartitionTheRows(specs, rows[..n], v);
      assert rows[n] in rows;
      assert Ledgers(rows, |specs|) == before[j := before[j] + [rows[n].fill]];
      OneFillMore(specs, before, j, rows[n].fill, v);
    }
  }

  lemma {:induction false} SplitByOrder(specs: seq<OrderSpec>, whole: seq<seq<Fill>>, part: seq<seq<Fill>>,
                                        rest: seq<seq<Fill>>, v: Worth)
    requires |specs| == |whole| == |part| == |rest|
    requires forall k :: 0 <= k < |specs| ==> multiset(whole[k]) == multiset(part[k] + rest[k])
    ensures ValueOf(ByOrder(specs, whole), v) == ValueOf(ByOrder(specs, part), v) + ValueOf(ByOrder(specs, rest), v)
    decreases |specs|
  {
    if specs == [] {
    } else {
      var n := |specs| - 1;
      SplitByOrder(specs[..n], whole[..n], part[..n], rest[..n], v);
      ValueByOrder(specs, whole, v);
      ValueByOrder(specs, part, v);
      ValueByOrder(specs, rest, v);
      SumOfPermutation(whole[n], part[n] + rest[n], (f: Fill) => v(specs[n], f));
      SumOfConcat(part[n], rest[n], (f: Fill) => v(specs[n], f));
    }
  }

  /** The exchange's fills that the ledger does not hold. */
  function Missing(fills: seq<Fill>, ledger: seq<Fill>): seq<Fill> {
    if fills == [] then []
    else
      var n := |fills| - 1;
      if fills[n] in ledger then Missing(fills[..n], ledger) else Missing(fills[..n], ledger) + [fills[n]]
  }

  lemma {:induction false} CountOfOneMore(fills: seq<Fill>, more: Fill, f: Fill)
    ensures multiset(fills + [more])[f] == multiset(fills)[f] + if more == f then 1 else 0
  {
  }

  lemma {:induction false} CountOfMissing(fills: seq<Fill>, ledger: seq<Fill>, f: Fill)
    ensures multiset(Missing(fills, ledger))[f] == if f in ledger then 0 else multiset(fills)[f]
    decreases |fills|
  {
    if fills == [] {
    } else {
      var n := |fills| - 1;
      CountOfMissing(fills[..n], ledger, f);
      CountOfOneMore(fills[..n], fills[n], f);
      if fills[n] !in ledger {
        CountOfOneMore(Missing(fills[..n], ledger), fills[n], f);
      }
      assert fills == fills[..n] + [fills[n]];
    }
  }

  lemma {:induction false} LedgerAndMissingAreAll(fills: seq<Fill>, ledger: seq<Fill>)
    requires DistinctIds(fills) && DistinctIds(ledger) && forall f <- ledger :: f in fills
    ensures multiset(fills) == multiset(ledger + Missing(fills, ledger))
  {
    forall f: Fill
      ensures multiset(fills)[f] == multiset(ledger + Missing(fills, ledger))[f]
    {
      CountInDistinct(fills, f);
      CountInDistinct(ledger, f);
      CountOfMissing(fills, ledger, f);
    }
  }

  lemma {:induction false} NothingMissing(fills: seq<Fill>, ledger: seq<Fill>)
    requires forall f <- fills :: f in ledger
    ensures Missing(fills, ledger) == []
    decreases |fills|
  {
    if fills == [] {
    } else {
      NothingMissing(fills[..|fills| - 1], ledger);
    }
  }

  function Specs(orders: seq<Order>): seq<OrderSpec> {
    seq(|orders|, k requires 0 <= k < |orders| => orders[k].spec)
  }

  function Executed(remotes: seq<Orders.Remote>): seq<seq<Fill>> {
    seq(|remotes|, k requires 0 <= k < |remotes| => remotes[k].fills)
  }

  function Unrecorded(remotes: seq<Orders.Remote>, rows: seq<Execution>): seq<seq<Fill>> {
    seq(|remotes|, k requires 0 <= k < |remotes| => Missing(remotes[k].fills, RowsOf(rows, k)))
  }

  /** The rows of exchange orders that have no local row. */
  function StrayRows(strays: seq<Orders.Stray>): seq<Execution> {
    if strays == [] then []
    else
      var n := |strays| - 1;
      StrayRows(strays[..n]) + Tagged(strays[n].spec, strays[n].remote.fills, false)
  }

  /** Everything the exchange executed for this account. */
  function ExchangeRows(w: Orders.World): seq<Execution>
    requires |w.remotes| == |w.books.orders|
  {
    ByOrder(Specs(w.books.orders), Executed(w.remotes)) + StrayRows(w.strays)
  }

  /** What the exchange executed and the ledger does not hold. */
  function UnseenRows(w: Orders.World): seq<Execution>
    requires |w.remotes| == |w.books.orders|
  {
    ByOrder(Specs(w.books.orders), Unrecorded(w.remotes, w.books.executions)) + StrayRows(w.strays)
  }

  /** Conservation: by any measure that adds up over fills, the exchange's executions are the recorded ones and the
      unseen ones, none counted twice. */
  lemma {:induction false} ExchangeIsLedgerPlusUnseen(w: Orders.World, v: Worth)
    requires Orders.Invariant(w)
    ensures ValueOf(ExchangeRows(w), v) == ValueOf(w.books.executions, v) + ValueOf(UnseenRows(w), v)
  {
    var specs, rows := Specs(w.books.orders), w.books.executions;
    var whole, part, rest := Executed(w.remotes), Ledgers(rows, |specs|), Unrecorded(w.remotes, rows);
    forall k | 0 <= k < |specs|
      ensures multiset(whole[k]) == multiset(part[k] + rest[k])
    {
      assert Orders.OrderInvariant(w.books.orders[k], RowsOf(rows, k), w.remotes[k]);
      LedgerAndMissingAreAll(w.remotes[k].fills, RowsOf(rows, k));
    }
    SplitByOrder(specs, whole, part, rest, v);
    LedgersPartitionTheRows(specs, rows, v);
    var f := (e: Execution) => v(e.order, e.fill);
    SumOfConcat(ByOrder(specs, whole), StrayRows(w.strays), f);
    SumOfConcat(ByOrder(specs, rest), StrayRows(w.strays), f);
  }

  ghost predicate AllTerminal(orders: seq<Order>) {
    forall o <- orders :: IsTerminal(o.status)
  }

  /** Once every order is terminal, only orders without a local row are left unseen. */
  lemma {:induction false} TerminalOrdersHideNothing(w: Orders.World)
    requires Orders.Invariant(w) && AllTerminal(w.books.orders)
    ensures UnseenRows(w) == StrayRows(w.strays)
  {
    var rest := Unrecorded(w.remotes, w.books.executions);
    forall k | 0 <= k < |rest|
      ensures rest[k] == []
    {
      assert w.books.orders[k] in w.books.orders;
      assert Orders.OrderInvariant(w.books.orders[k], RowsOf(w.books.executions, k), w.remotes[k]);
      NothingMissing(w.remotes[k].fills, RowsOf(w.books.executions, k));
    }
    NothingByOrder(Specs(w.books.orders), rest);
  }

  // ---- equity against exchange ----

  lemma {:induction false} SameSum<T>(xs: seq<T>, f: T -> real, g: T -> real)
    requires forall x :: f(x) == g(x)
    ensures Sum(xs, f) == Sum(xs, g)
    decreases |xs|
  {
    if xs == [] {
    } else {
      SameSum(xs[..|xs| - 1], f, g);
    }
  }

  function CashWorth(): Worth {
    (o: OrderSpec, f: Fill) => CashFlow(Execution(o, f, false)) - f.fee
  }

  function HoldingWorth(marks: Marks): Worth {
    (o: OrderSpec, f: Fill) => UnitsValue(Execution(o, f, false), marks(o.symbol))
  }

  function UnitWorth(symbol: string): Worth {
    (o: OrderSpec, f: Fill) => if o.symbol == symbol then Units(Execution(o, f, false)) else 0.0
  }

  lemma {:induction false} MoneyIsAValue(rows: seq<Execution>, marks: Marks, symbol: string)
    ensures Cash(rows) == ValueOf(rows, CashWorth())
    ensures Holdings(rows, marks) == ValueOf(rows, HoldingWorth(marks))
    ensures NetUnits(rows, symbol) == ValueOf(rows, UnitWorth(symbol))
  {
    var cash, holding, unit := CashWorth(), HoldingWorth(marks), UnitWorth(symbol);
    SameSum(rows, (e: Execution) => CashFlow(e) - e.fill.fee, (e: Execution) => cash(e.order, e.fill));
    HoldingsAreAValue(rows, marks);
    SameSum(rows, (e: Execution) => if e.order.symbol ==
      symbol then Units(e) else 0.0, (e: Execution) => unit(e.order, e.fill));
  }

  lemma {:induction false} FlagPlaysNoPart(e: Execution, mark: real)
    ensures UnitsValue(Execution(e.order, e.fill, false), mark) == UnitsValue(e, mark)
  {
  }

  lemma {:induction false} HoldingsAreAValue(rows: seq<Execution>, marks: Marks)
    ensures Holdings(rows, marks) == ValueOf(rows, HoldingWorth(marks))
  {
    var holding := HoldingWorth(marks);
    var f := (e: Execution) => UnitsValue(e, marks(e.order.symbol));
    var g := (e: Execution) => holding(e.order, e.fill);
    forall e: Execution
      ensures f(e) == g(e)
    {
      FlagPlaysNoPart(e, marks(e.order.symbol));
    }
    SameSum(rows, f, g);
  }

  lemma {:induction false} ExchangeMoney(w: Orders.World, marks: Marks, symbol: string)
    requires Orders.Invariant(w)
    ensures Cash(ExchangeRows(w)) == Cash(w.books.executions) + Cash(UnseenRows(w))
    ensures Holdings(ExchangeRows(w), marks) == Holdings(w.books.executions, marks) + Holdings(UnseenRows(w), marks)
    ensures NetUnits(ExchangeRows(w), symbol) == NetUnits(w.books.executions, symbol) + NetUnits(UnseenRows(w), symbol)
  {
    ExchangeIsLedgerPlusUnseen(w, CashWorth());
    ExchangeIsLedgerPlusUnseen(w, HoldingWorth(marks));
    ExchangeIsLedgerPlusUnseen(w, UnitWorth(symbol));
    MoneyIsAValue(ExchangeRows(w), marks, symbol);
    MoneyIsAValue(w.books.executions, marks, symbol);
    MoneyIsAValue(UnseenRows(w), marks, symbol);
  }

  /** The hardest agreement: after any run with partial, repeated and interrupted polls, cancellations and process
      deaths, equity is the starting balance and funding, plus the cash and units of everything the exchange executed,
      less those of the fills not yet seen, plus the residuals of unfaithful fills; and of orders all terminal nothing
      is unseen but what has no local row. */
  lemma {:induction false} EquityIsWhatTheExchangeExecuted(maxApiFailures: nat, events: seq<Orders.Event>,
                                                           starting: real,
                                                           funding: Option<real>, marks: Marks)
    requires Orders.PossibleRun(Orders.Empty(maxApiFailures), events)
    ensures var w := Orders.RunFrom(Orders.Empty(maxApiFailures), events);
      var b := w.books;
      && |w.remotes| == |b.orders|
      && Equity(starting, RealizedOf(b.positions), FeesPaid(b.executions), funding, UnrealizedOf(b.positions, marks)) ==
           starting + (if funding.Some? then funding.value else 0.0)
           + Cash(ExchangeRows(w)) + Holdings(ExchangeRows(w), marks)
           - (Cash(UnseenRows(w)) + Holdings(UnseenRows(w), marks))
           + Residuals(b.executions, marks)
      && (AllTerminal(b.orders) ==> UnseenRows(w) == StrayRows(w.strays))
  {
    Orders.EveryRunKeepsTheInvariant(Orders.Empty(maxApiFailures), events);
    EquityOnEveryRun(maxApiFailures, events, starting, funding, marks);
    var w := Orders.RunFrom(Orders.Empty(maxApiFailures), events);
    ExchangeMoney(w, marks, "");
    if AllTerminal(w.books.orders) {
      TerminalOrdersHideNothing(w);
    }
  }

  /** With every order terminal, none unknown locally and every recorded fill faithful, equity is exactly the cash and
      units of what the exchange executed, and each open position is the exchange's net units. */
  lemma {:induction false} SettledRunsAgreeWithTheExchange(maxApiFailures: nat, events: seq<Orders.Event>,
                                                           starting: real,
                                                           funding: Option<real>, marks: Marks, symbol: string)
    requires Orders.PossibleRun(Orders.Empty(maxApiFailures), events)
    requires var w := Orders.RunFrom(Orders.Empty(maxApiFailures), events);
      AllTerminal(w.books.orders) && w.strays == [] && FaithfulRun(w.books.executions)
    ensures var w := Orders.RunFrom(Orders.Empty(maxApiFailures), events);
      var b := w.books;
      && |w.remotes| == |b.orders|
      && Equity(starting, RealizedOf(b.positions), FeesPaid(b.executions), funding, UnrealizedOf(b.positions, marks)) ==
           starting + (if funding.Some? then funding.value else 0.0) + Cash(ExchangeRows(w)) + Holdings(ExchangeRows(w), marks)
      && SignedQty(b.positions, symbol) == NetUnits(ExchangeRows(w), symbol)
  {
    EquityIsWhatTheExchangeExecuted(maxApiFailures, events, starting, funding, marks);
    Orders.EveryRunKeepsTheInvariant(Orders.Empty(maxApiFailures), events);
    PositionsFollowTheLedger(maxApiFailures, events);
    var w := Orders.RunFrom(Orders.Empty(maxApiFailures), events);
    ExchangeMoney(w, marks, symbol);
    FaithfulRunsLeaveNoResidual(w.books.executions, marks);
    PositionIsNetUnits(w.books.executions, symbol);
  }

  // ---- positions against orders ----

  lemma {:induction false} OrderOfARow(b: Books, e: Execution, k: nat)
    requires Consistent(b) && e in b.executions && e.order.id == k && k < |b.orders|
    ensures e.order == b.orders[k].spec
  {
  }

  lemma {:induction false} RowsOfTheOrder(b: Books, before: seq<Execution>, since: seq<Execution>, k: nat)
    requires Consistent(b) && b.executions == before + since && k < |b.orders|
    requires forall e <- since :: e.order.symbol == b.orders[k].spec.symbol ==> e.order.id == k
    ensures b.orders[k].spec.id == k
    ensures forall e <- since :: e.order.symbol == b.orders[k].spec.symbol || e.order.id == k ==> e.order == b.orders[k].spec
  {
    forall e | e in since && (e.order.symbol == b.orders[k].spec.symbol || e.order.id == k)
      ensures e.order == b.orders[k].spec
    {
      assert e in b.executions;
      OrderOfARow(b, e, k);
    }
  }

  lemma {:induction false} TablesCarryTheTotals(b: Books, before: seq<Execution>, since: seq<Execution>, k: nat)
    requires Consistent(b) && b.positions == PositionsAfter(b.executions)
    requires b.executions == before + since && k < |b.orders| && !b.orders[k].spec.isClose
    requires OpenAt(PositionsAfter(before), b.orders[k].spec.symbol) == |PositionsAfter(before)|
    requires forall e <- since :: e.order.symbol == b.orders[k].spec.symbol ==> e.order.id == k
    ensures var (o, ps) := (b.orders[k], b.positions);
      var i := OpenAt(ps, o.spec.symbol);
      && OpenRowBuiltBy(ps, o.spec, RowsOf(since, k))
      && (RowsOf(before, k) == [] != RowsOf(since, k) ==>
            i < |ps| && o.totals == Totals(ps[i].qty, ps[i].avg, ps[i].fees))
  {
    RowsOfTheOrder(b, before, since, k);
    ApplyFillsConcat([], before, since);
    OneOpenAfter(before);
    OneOrderBuildsTheOpenRow(PositionsAfter(before), since, b.orders[k].spec);
    RowsOfConcat(before, since, k);
    assert [] + RowsOf(since, k) == RowsOf(since, k);
  }

  /** Whatever a symbol's rows have been while it was flat, its open position is what the rows of one entry order amount
      to as long as no other order of that symbol has filled since: the polls that brought the rows, and rows of
      other symbols between them, make no difference. When all of the order's rows came since then, position and order
      carry the same quantity, average price and fees. */
  lemma {:induction false} OpenPositionCarriesItsOrdersTotals(maxApiFailures: nat, events: seq<Orders.Event>,
                                                              before: seq<Execution>,
                                                              since: seq<Execution>, k: nat)
    requires Orders.PossibleRun(Orders.Empty(maxApiFailures), events)
    requires var b := Orders.RunFrom(Orders.Empty(maxApiFailures), events).books;
      && b.executions == before + since && k < |b.orders| && !b.orders[k].spec.isClose
      && OpenAt(PositionsAfter(before), b.orders[k].spec.symbol) == |PositionsAfter(before)|
      && forall e <- since :: e.order.symbol == b.orders[k].spec.symbol ==> e.order.id == k
    ensures var b := Orders.RunFrom(Orders.Empty(maxApiFailures), events).books;
      var (o, ps) := (b.orders[k], b.positions);
      var i := OpenAt(ps, o.spec.symbol);
      && OpenRowBuiltBy(ps, o.spec, RowsOf(since, k))
      && (RowsOf(before, k) == [] != RowsOf(since, k) ==>
            i < |ps| && o.totals == Totals(ps[i].qty, ps[i].avg, ps[i].fees))
  {
    Orders.EveryRunKeepsTheInvariant(Orders.Empty(maxApiFailures), events);
    PositionsFollowTheLedger(maxApiFailures, events);
    TablesCarryTheTotals(Orders.RunFrom(Orders.Empty(maxApiFailures), events).books, before, since, k);
  }

  /** On every run a FILLED or CANCELLED order carries the totals of everything the exchange executed for it, whatever the
      order and batching in which the polls reported it. */
  lemma {:induction false} TerminalTotalsAreTheExchanges(maxApiFailures: nat, events: seq<Orders.Event>, k: nat)
    requires Orders.PossibleRun(Orders.Empty(maxApiFailures), events)
    requires var w := Orders.RunFrom(Orders.Empty(maxApiFailures), events);
      k < |w.remotes| && k < |w.books.orders| && w.books.orders[k].status in {Filled, Cancelled}
    ensures var w := Orders.RunFrom(Orders.Empty(maxApiFailures), events);
      w.books.orders[k].totals == TotalsOf(w.remotes[k].fills)
  {
    Orders.NoFillIsEverLost(maxApiFailures, events, k);
    Orders.EveryRunKeepsTheInvariant(Orders.Empty(maxApiFailures), events);
    var w := Orders.RunFrom(Orders.Empty(maxApiFailures), events);
    assert Orders.OrderInvariant(w.books.orders[k], RowsOf(w.books.executions, k), w.remotes[k]);
    SameFillsSameTotals(RowsOf(w.books.executions, k), w.remotes[k].fills);
  }
}
