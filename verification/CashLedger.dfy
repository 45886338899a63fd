/** Equity as the dashboard computes it from average-cost positions, against a plain ledger that
    knows only the executions: cash paid and received, and the signed units held. */
module CashLedger {
  import opened Basics
  import opened FillLedger
  import opened PositionBook

  /** A mark price for every symbol. */
  type Marks = string -> real

  // ---- the average-cost side: positions and executions as app/metrics/engine.py sums them ----

  /** The signed quantity of a position row. */
  function Held(p: Position): real {
    p.side.Signed(p.qty)
  }

  function Unrealized(p: Position, mark: real): real {
    p.side.Signed(p.qty * (mark - p.avg))
  }

  function RealizedOf(ps: seq<Position>): real {
    Sum(ps, (p: Position) => p.realized)
  }

  function UnrealizedOf(ps: seq<Position>, marks: Marks): real {
    Sum(ps, (p: Position) => if p.open then Unrealized(p, marks(p.symbol)) else 0.0)
  }

  /** The fees of every execution row, blocked and orphan fills included. */
  function FeesPaid(rows: seq<Execution>): real {
    Sum(rows, (e: Execution) => e.fill.fee)
  }

  function Equity(starting: real, realized: real, fees: real, funding: Option<real>, unrealized: real): real {
    starting + (realized - fees + (if funding.Some? then funding.value else 0.0)) + unrealized
  }

  // ---- the plain side: executions only ----

  /** The signed units an execution trades. */
  function Units(e: Execution): real {
    e.order.side.Signed(e.fill.qty)
  }

  function UnitsValue(e: Execution, mark: real): real {
    e.order.side.Signed(e.fill.qty * mark)
  }

  function CashFlow(e: Execution): real {
    -e.order.side.Signed(e.fill.qty * e.fill.price)
  }

  function Cash(rows: seq<Execution>): real {
    Sum(rows, (e: Execution) => CashFlow(e) - e.fill.fee)
  }

  /** Every signed unit ever bought or sold, valued at the mark. */
  function Holdings(rows: seq<Execution>, marks: Marks): real {
    Sum(rows, (e: Execution) => UnitsValue(e, marks(e.order.symbol)))
  }

  function NetUnits(rows: seq<Execution>, symbol: string): real {
    Sum(rows, (e: Execution) => if e.order.symbol == symbol then Units(e) else 0.0)
  }

  // ---- the difference, and how one fill moves it ----

  function BookValue(ps: seq<Position>, marks: Marks): real {
    RealizedOf(ps) + UnrealizedOf(ps, marks)
  }

  function Gap(ps: seq<Position>, rows: seq<Execution>, marks: Marks): real {
    BookValue(ps, marks) - FeesPaid(rows) - Cash(rows) - Holdings(rows, marks)
  }

  /** The fills for which average-cost bookkeeping is exact: an entry onto nothing or onto its own
      side, and a close of an opposite-side position that reduces it or consumes it exactly. */
  predicate Faithful(ps: seq<Position>, e: Execution) {
    var i := OpenAt(ps, e.order.symbol);
    if !e.order.isClose then
      i == |ps| || ps[i].side == e.order.side
    else
      i < |ps| && ps[i].side != e.order.side && (ClosesFully(ps[i], e.fill) ==> e.fill.qty == ps[i].qty)
  }

  /** What a close leaves between the books: after a full close the units traded but not dropped,
      and after a close on the position's own side, units that moved the books in opposite
      directions. */
  function CloseResidual(p: Position, e: Execution, mark: real): real {
    var unseen := e.order.side.Signed(e.fill.qty * (e.fill.price - mark));
    if p.side != e.order.side then
      if ClosesFully(p, e.fill) then e.order.side.Signed((e.fill.qty - p.qty) * (p.avg - mark)) else 0.0
    else
      if ClosesFully(p, e.fill) then unseen + ClosingDelta(p, e.fill) - Unrealized(p, mark) else 2.0 * unseen
  }

  /** By how much one fill moves the gap; a blocked or orphan fill trades units the book never sees. */
  function Residual(ps: seq<Position>, e: Execution, marks: Marks): real {
    var i := OpenAt(ps, e.order.symbol);
    var mark := marks(e.order.symbol);
    var unseen := e.order.side.Signed(e.fill.qty * (e.fill.price - mark));
    if i == |ps| then
      if e.order.isClose then unseen else 0.0
    else if !e.order.isClose then
      if ps[i].side == e.order.side then 0.0 else unseen
    else
      CloseResidual(ps[i], e, mark)
  }

  lemma {:induction false} BookValueOfUpdate(ps: seq<Position>, i: nat, p: Position, marks: Marks)
    requires i < |ps|
    ensures RealizedOf(ps[i := p]) == RealizedOf(ps) - ps[i].realized + p.realized
    ensures UnrealizedOf(ps[i := p], marks) == UnrealizedOf(ps, marks)
      - (if ps[i].open then Unrealized(ps[i], marks(ps[i].symbol)) else 0.0)
      + (if p.open then Unrealized(p, marks(p.symbol)) else 0.0)
  {
    SumOfUpdate(ps, i, p, (p: Position) => p.realized);
    SumOfUpdate(ps, i, p, (p: Position) => if p.open then Unrealized(p, marks(p.symbol)) else 0.0);
  }

  lemma {:induction false} BookValueOfAppend(ps: seq<Position>, p: Position, marks: Marks)
    ensures RealizedOf(ps + [p]) == RealizedOf(ps) + p.realized
    ensures UnrealizedOf(ps + [p], marks) ==
      UnrealizedOf(ps, marks) + (if p.open then Unrealized(p, marks(p.symbol)) else 0.0)
  {
    assert (ps + [p])[..|ps|] == ps;
  }

  lemma {:induction false} LedgerOfAppend(rows: seq<Execution>, e: Execution, marks: Marks)
    ensures FeesPaid(rows + [e]) == FeesPaid(rows) + e.fill.fee
    ensures Cash(rows + [e]) == Cash(rows) + CashFlow(e) - e.fill.fee
    ensures Holdings(rows + [e], marks) == Holdings(rows, marks) + UnitsValue(e, marks(e.order.symbol))
  {
    assert (rows + [e])[..|rows|] == rows;
  }

  lemma {:induction false} IncreaseMovesUnrealized(p: Position, fill: Fill, mark: real)
    ensures var after := Increased(p, fill);
      Unrealized(after, mark) == Unrealized(p, mark) + p.side.Signed(fill.qty * (mark - fill.price))
  {
    AverageTimesQuantity(p.avg, p.qty, fill.price, fill.qty);
    var after := Increased(p, fill);
    assert (mark - after.avg) * after.qty == mark * after.qty - after.avg * after.qty;
  }

  /** What one fill is worth to the plain ledger: its cash and its units at the mark. */
  function LedgerStep(e: Execution, marks: Marks): real {
    CashFlow(e) + UnitsValue(e, marks(e.order.symbol))
  }

  lemma {:induction false} OpenedRowValue(e: Execution, mark: real)
    ensures var p := Reanchored(NewPosition(e.order, e.fill), FrozenDistances(e.order));
      p.open && p.symbol == e.order.symbol && p.realized == 0.0 && Unrealized(p, mark) == CashFlow(e) + UnitsValue(e, mark)
  {
  }

  lemma {:induction false} OneMoreRowValue(ps: seq<Position>, after: seq<Position>, p: Position, symbol: string,
                                           step: real, marks: Marks)
    requires after == ps + [p] && p.open && p.symbol == symbol && p.realized == 0.0 && Unrealized(p, marks(symbol)) == step
    ensures BookValue(after, marks) == BookValue(ps, marks) + step
  {
    BookValueOfAppend(ps, p, marks);
  }

  lemma {:induction false} IncreasedRowValue(p: Position, e: Execution, mark: real)
    requires p.side == e.order.side
    ensures Unrealized(Reanchored(Increased(p, e.fill), FrozenDistances(e.order)), mark) ==
      Unrealized(p, mark) + CashFlow(e) + UnitsValue(e, mark)
  {
    IncreaseMovesUnrealized(p, e.fill, mark);
  }

  lemma {:induction false} OneRowValue(ps: seq<Position>, after: seq<Position>, i: nat, symbol: string, step: real,
                                       marks: Marks)
    requires i < |ps| == |after| && after == ps[i := after[i]] && ps[i].symbol == after[i].symbol == symbol
    requires ps[i].open && after[i].open && after[i].realized == ps[i].realized
    requires Unrealized(after[i], marks(symbol)) == Unrealized(ps[i], marks(symbol)) + step
    ensures BookValue(after, marks) == BookValue(ps, marks) + step
  {
    BookValueOfUpdate(ps, i, after[i], marks);
  }

  lemma {:induction false} EntryBookValueStep(ps: seq<Position>, e: Execution, marks: Marks)
    requires !e.order.isClose
    ensures BookValue(ApplyFill(ps, e).positions, marks) ==
      BookValue(ps, marks) + LedgerStep(e, marks) + Residual(ps, e, marks)
  {
    var i, symbol := OpenAt(ps, e.order.symbol), e.order.symbol;
    var after := ApplyFill(ps, e).positions;
    var step := CashFlow(e) + UnitsValue(e, marks(symbol));
    if i == |ps| {
      OpenedRowValue(e, marks(symbol));
      OneMoreRowValue(ps, after, after[i], symbol, step, marks);
    } else if ps[i].side == e.order.side {
      IncreasedRowValue(ps[i], e, marks(symbol));
      OneRowValue(ps, after, i, symbol, step, marks);
    }
  }

  lemma {:induction false} FullCloseAlgebra(p: Position, e: Execution, mark: real)
    requires ClosesFully(p, e.fill)
    ensures ClosingDelta(p, e.fill) - Unrealized(p, mark) ==
      CashFlow(e) + UnitsValue(e, mark) + CloseResidual(p, e, mark)
  {
  }

  lemma {:induction false} ReductionAlgebra(p: Position, e: Execution, mark: real)
    requires !ClosesFully(p, e.fill)
    ensures ClosingDelta(p, e.fill) + Unrealized(Reduced(p, e.fill), mark) - Unrealized(p, mark) ==
      CashFlow(e) + UnitsValue(e, mark) + CloseResidual(p, e, mark)
  {
  }

  lemma {:induction false} CloseBookValueStep(ps: seq<Position>, e: Execution, marks: Marks)
    requires e.order.isClose && OpenAt(ps, e.order.symbol) < |ps|
    ensures var p := ps[OpenAt(ps, e.order.symbol)];
      BookValue(ApplyFill(ps, e).positions, marks) == BookValue(ps, marks) + ClosingDelta(p, e.fill)
      + (if ClosesFully(p, e.fill) then 0.0 else Unrealized(Reduced(p, e.fill), marks(e.order.symbol)))
      - Unrealized(p, marks(e.order.symbol))
  {
    var i := OpenAt(ps, e.order.symbol);
    if ClosesFully(ps[i], e.fill) {
      BookValueOfUpdate(ps, i, Closed(ps[i], e.fill), marks);
    } else {
      BookValueOfUpdate(ps, i, Reduced(ps[i], e.fill), marks);
    }
  }

  /** The change of book value caused by one fill. */
  lemma {:induction false} BookValueStep(ps: seq<Position>, e: Execution, marks: Marks)
    ensures BookValue(ApplyFill(ps, e).positions, marks) ==
      BookValue(ps, marks) + LedgerStep(e, marks) + Residual(ps, e, marks)
  {
    var i := OpenAt(ps, e.order.symbol);
    if !e.order.isClose {
      EntryBookValueStep(ps, e, marks);
    } else if i < |ps| {
      CloseBookValueStep(ps, e, marks);
      if ClosesFully(ps[i], e.fill) {
        FullCloseAlgebra(ps[i], e, marks(e.order.symbol));
      } else {
        ReductionAlgebra(ps[i], e, marks(e.order.symbol));
      }
    }
  }

  /** One fill moves the gap by exactly its residual. */
  lemma {:induction false} GapStep(ps: seq<Position>, rows: seq<Execution>, e: Execution, marks: Marks)
    ensures Gap(ApplyFill(ps, e).positions, rows + [e], marks) == Gap(ps, rows, marks) + Residual(ps, e, marks)
  {
    BookValueStep(ps, e, marks);
    LedgerOfAppend(rows, e, marks);
  }

  /** Average-cost bookkeeping agrees with the plain ledger at every mark price after a fill just as
      it did before it if and only if the fill is faithful. */
  lemma {:induction false} FaithfulFillsAreExactlyTheNeutralOnes(ps: seq<Position>, rows: seq<Execution>, e: Execution)
    ensures Faithful(ps, e) <==>
      forall marks: Marks :: Gap(ApplyFill(ps, e).positions, rows + [e], marks) == Gap(ps, rows, marks)
  {
    var after := ApplyFill(ps, e).positions;
    forall marks: Marks
      ensures Gap(after, rows + [e], marks) == Gap(ps, rows, marks) + Residual(ps, e, marks)
    {
      GapStep(ps, rows, e, marks);
    }
    if Faithful(ps, e) {
      assert forall marks: Marks :: Residual(ps, e, marks) == 0.0;
    } else {
      var c: real := UnfaithfulMark(ps, e);
      var marks: Marks := (_: string) => c;
      assert Residual(ps, e, marks) != 0.0;
      assert Gap(after, rows + [e], marks) != Gap(ps, rows, marks);
    }
  }

  lemma {:induction false} UnfaithfulCloseMark(p: Position, e: Execution) returns (c: real)
    requires p.side == e.order.side || (ClosesFully(p, e.fill) && e.fill.qty != p.qty)
    ensures CloseResidual(p, e, c) != 0.0
  {
    var f, q := e.fill.qty, p.qty;
    if p.side != e.order.side {
      c := p.avg + 1.0;
      assert (f - q) * (p.avg - c) == q - f;
      assert CloseResidual(p, e, c) == e.order.side.Signed(q - f);
    } else if !ClosesFully(p, e.fill) {
      c := e.fill.price + 1.0;
      assert f * (e.fill.price - c) == 0.0 - f;
      assert CloseResidual(p, e, c) == 2.0 * e.order.side.Signed(0.0 - f);
    } else {
      c := p.avg;
      var c' := p.avg + 1.0;
      assert f * (e.fill.price - c') == f * (e.fill.price - c) - f && q * (c' - p.avg) == q * (c - p.avg) + q;
      assert CloseResidual(p, e, c) - CloseResidual(p, e, c') == p.side.Signed(f + q);
      if CloseResidual(p, e, c) == 0.0 {
        c := c';
        assert p.side.Signed(f + q) != 0.0;
      }
    }
  }

  /** A mark price at which an unfaithful fill shows. */
  lemma {:induction false} UnfaithfulMark(ps: seq<Position>, e: Execution) returns (c: real)
    requires !Faithful(ps, e)
    ensures Residual(ps, e, (_: string) => c) != 0.0
  {
    var i := OpenAt(ps, e.order.symbol);
    if e.order.isClose && i < |ps| {
      c := UnfaithfulCloseMark(ps[i], e);
    } else {
      c := e.fill.price + 1.0;
    }
  }

  // ---- whole runs ----

  function PositionsAfter(rows: seq<Execution>): seq<Position> {
    ApplyFills([], rows).positions
  }

  ghost predicate FaithfulRun(rows: seq<Execution>) {
    rows == [] ||
    var n := |rows| - 1;
    FaithfulRun(rows[..n]) && Faithful(PositionsAfter(rows[..n]), rows[n])
  }

  /** The sum of the residuals of every fill of a run. */
  function Residuals(rows: seq<Execution>, marks: Marks): real {
    if rows == [] then 0.0
    else
      var n := |rows| - 1;
      Residuals(rows[..n], marks) + Residual(PositionsAfter(rows[..n]), rows[n], marks)
  }

  lemma {:induction false} PositionsAfterAppend(rows: seq<Execution>, e: Execution)
    ensures PositionsAfter(rows + [e]) == ApplyFill(PositionsAfter(rows), e).positions
  {
    assert (rows + [e])[..|rows|] == rows;
  }

  lemma {:induction false} GapOfOneMore(rows: seq<Execution>, e: Execution, all: seq<Execution>, marks: Marks)
    requires all == rows + [e]
    ensures Gap(PositionsAfter(all), all, marks) ==
      Gap(PositionsAfter(rows), rows, marks) + Residual(PositionsAfter(rows), e, marks)
  {
    PositionsAfterAppend(rows, e);
    GapStep(PositionsAfter(rows), rows, e, marks);
  }

  lemma {:induction false} GapIsTheResiduals(rows: seq<Execution>, marks: Marks)
    ensures Gap(PositionsAfter(rows), rows, marks) == Residuals(rows, marks)
    decreases |rows|
  {
    if rows == [] {
    } else {
      var n := |rows| - 1;
      GapIsTheResiduals(rows[..n], marks);
      GapOfOneMore(rows[..n], rows[n], rows, marks);
    }
  }

  /** The four records of money agree on every run up to the named residuals: starting balance plus
      realized profit less fees plus unrealized profit is the cash of every fill plus the signed
      holdings at the mark, plus exactly what blocked, orphan, same-side-closing and over-closing
      fills left behind. */
  lemma {:induction false} EquityIsCashPlusHoldingsPlusResiduals(starting: real, rows: seq<Execution>,
                                                                 funding: Option<real>, marks: Marks)
    ensures var ps := PositionsAfter(rows);
      Equity(starting, RealizedOf(ps), FeesPaid(rows), funding, UnrealizedOf(ps, marks)) ==
      starting + (if funding.Some? then funding.value else 0.0) + Cash(rows) + Holdings(rows, marks) + Residuals(rows, marks)
  {
    GapIsTheResiduals(rows, marks);
  }

  lemma {:induction false} FaithfulFillLeavesNoResidual(ps: seq<Position>, e: Execution, marks: Marks)
    requires Faithful(ps, e)
    ensures Residual(ps, e, marks) == 0.0
  {
  }

  lemma {:induction false} FaithfulRunsLeaveNoResidual(rows: seq<Execution>, marks: Marks)
    requires FaithfulRun(rows)
    ensures Residuals(rows, marks) == 0.0
    decreases |rows|
  {
    if rows == [] {
    } else {
      var n := |rows| - 1;
      FaithfulRunsLeaveNoResidual(rows[..n], marks);
      FaithfulFillLeavesNoResidual(PositionsAfter(rows[..n]), rows[n], marks);
    }
  }

  /** On a faithful run the average-cost equity refines the plain ledger exactly, at every mark. */
  lemma {:induction false} EquityRefinesThePlainLedger(starting: real, rows: seq<Execution>, funding: Option<real>,
                                                       marks: Marks)
    requires FaithfulRun(rows)
    ensures var ps := PositionsAfter(rows);
      Equity(starting, RealizedOf(ps), FeesPaid(rows), funding, UnrealizedOf(ps, marks)) ==
      starting + (if funding.Some? then funding.value else 0.0) + Cash(rows) + Holdings(rows, marks)
  {
    EquityIsCashPlusHoldingsPlusResiduals(starting, rows, funding, marks);
    FaithfulRunsLeaveNoResidual(rows, marks);
  }

  // ---- units ----

  /** The signed quantity of a symbol's open position. */
  function SignedQty(ps: seq<Position>, symbol: string): real {
    var i := OpenAt(ps, symbol);
    if i < |ps| then Held(ps[i]) else 0.0
  }

  lemma {:induction false} UnitsStep(ps: seq<Position>, e: Execution, symbol: string)
    requires OneOpenPerSymbol(ps) && Faithful(ps, e)
    ensures SignedQty(ApplyFill(ps, e).positions, symbol) ==
      SignedQty(ps, symbol) + if e.order.symbol == symbol then Units(e) else 0.0
  {
    OneOpenIsKept(ps, e);
    var i := OpenAt(ps, e.order.symbol);
    var after := ApplyFill(ps, e).positions;
    var k, k' := OpenAt(ps, symbol), OpenAt(after, symbol);
    assert forall j :: 0 <= j < |ps| && j != i ==> after[j] == ps[j];
    if e.order.symbol != symbol {
      assert k < |ps| ==> after[k] == ps[k] && k' == k;
    } else if i < |ps| && after[i].open {
      assert k' == i;
    } else if i == |ps| && !e.order.isClose {
      assert after[|ps|].open;
    }
  }

  lemma {:induction false} OneOpenAfter(rows: seq<Execution>)
    ensures OneOpenPerSymbol(PositionsAfter(rows))
  {
    OneOpenIsKeptByAll([], rows);
  }

  lemma {:induction false} NetUnitsOfAppend(rows: seq<Execution>, e: Execution, symbol: string)
    ensures NetUnits(rows + [e], symbol) ==
      NetUnits(rows, symbol) + if e.order.symbol == symbol then Units(e) else 0.0
  {
    assert (rows + [e])[..|rows|] == rows;
  }

  lemma {:induction false} UnitsOfOneMore(rows: seq<Execution>, e: Execution, all: seq<Execution>, symbol: string)
    requires all == rows + [e]
    requires Faithful(PositionsAfter(rows), e)
    requires SignedQty(PositionsAfter(rows), symbol) == NetUnits(rows, symbol)
    ensures SignedQty(PositionsAfter(all), symbol) == NetUnits(all, symbol)
  {
    var ps := PositionsAfter(rows);
    OneOpenAfter(rows);
    PositionsAfterAppend(rows, e);
    NetUnitsOfAppend(rows, e, symbol);
    UnitsStep(ps, e, symbol);
  }

  /** On a faithful run each symbol's open position is exactly its net traded units. */
  lemma {:induction false} PositionIsNetUnits(rows: seq<Execution>, symbol: string)
    requires FaithfulRun(rows)
    ensures SignedQty(PositionsAfter(rows), symbol) == NetUnits(rows, symbol)
    decreases |rows|
  {
    if rows == [] {
    } else {
      var n := |rows| - 1;
      PositionIsNetUnits(rows[..n], symbol);
      UnitsOfOneMore(rows[..n], rows[n], rows, symbol);
    }
  }

  // ---- closing within the tolerance ----

  /** Faithful up to the closing tolerance: a close may consume the position while missing its
      quantity by at most QTY_TOLERANCE either way. */
  predicate NearlyFaithful(ps: seq<Position>, e: Execution) {
    var i := OpenAt(ps, e.order.symbol);
    if !e.order.isClose then
      i == |ps| || ps[i].side == e.order.side
    else
      i < |ps| && ps[i].side != e.order.side && e.fill.qty <= ps[i].qty + QTY_TOLERANCE
  }

  /** The signed units the positions table holds, valued at the mark. */
  function HeldValue(p: Position, mark: real): real {
    if p.open then p.side.Signed(p.qty * mark) else 0.0
  }

  function BookHoldings(ps: seq<Position>, marks: Marks): real {
    Sum(ps, (p: Position) => HeldValue(p, marks(p.symbol)))
  }

  /** What one tolerance-closed fill may add to the error: the tolerance times the average price. */
  function Slack(ps: seq<Position>, e: Execution): real {
    var i := OpenAt(ps, e.order.symbol);
    if e.order.isClose && i < |ps| && ClosesFully(ps[i], e.fill) then QTY_TOLERANCE * Abs(ps[i].avg) else 0.0
  }

  /** The slacks of all fills of a run, in order, and their sum. */
  function SlackOf(rows: seq<Execution>): seq<real> {
    seq(|rows|, k requires 0 <= k < |rows| => Slack(PositionsAfter(rows[..k]), rows[k]))
  }

  function Slacks(rows: seq<Execution>): real {
    Sum(SlackOf(rows), (x: real) => x)
  }

  ghost predicate NearlyFaithfulRun(rows: seq<Execution>) {
    forall k :: 0 <= k < |rows| ==> NearlyFaithful(PositionsAfter(rows[..k]), rows[k])
  }

  lemma {:induction false} BookHoldingsOfUpdate(ps: seq<Position>, i: nat, p: Position, symbol: string, marks: Marks)
    requires i < |ps| && ps[i].symbol == p.symbol == symbol
    ensures BookHoldings(ps[i := p], marks) ==
      BookHoldings(ps, marks) - HeldValue(ps[i], marks(symbol)) + HeldValue(p, marks(symbol))
  {
    SumOfUpdate(ps, i, p, (p: Position) => HeldValue(p, marks(p.symbol)));
  }

  lemma {:induction false} BookHoldingsOfAppend(ps: seq<Position>, p: Position, marks: Marks)
    ensures BookHoldings(ps + [p], marks) == BookHoldings(ps, marks) + HeldValue(p, marks(p.symbol))
  {
    assert (ps + [p])[..|ps|] == ps;
  }

  /** By how much a closing fill misses the quantity it consumes. */
  function Missed(ps: seq<Position>, e: Execution): real {
    var i := OpenAt(ps, e.order.symbol);
    if e.order.isClose && i < |ps| && ClosesFully(ps[i], e.fill) then e.fill.qty - ps[i].qty else 0.0
  }

  /** The value of the units one nearly faithful fill adds to the positions table. */
  function HoldingsStep(ps: seq<Position>, e: Execution, mark: real): real {
    var i := OpenAt(ps, e.order.symbol);
    if e.order.isClose && i < |ps| && ClosesFully(ps[i], e.fill) then -HeldValue(ps[i], mark) else UnitsValue(e, mark)
  }

  lemma {:induction false} IncreaseMovesHeldValue(p: Position, e: Execution, mark: real)
    requires p.open && p.side == e.order.side
    ensures HeldValue(Reanchored(Increased(p, e.fill), FrozenDistances(e.order)), mark) ==
      HeldValue(p, mark) + UnitsValue(e, mark)
  {
  }

  lemma {:induction false} ReductionMovesHeldValue(p: Position, e: Execution, mark: real)
    requires p.open && p.side != e.order.side && !ClosesFully(p, e.fill)
    ensures HeldValue(Reduced(p, e.fill), mark) == HeldValue(p, mark) + UnitsValue(e, mark)
  {
  }

  lemma {:induction false} TouchedRowHoldings(ps: seq<Position>, e: Execution, mark: real)
    requires NearlyFaithful(ps, e) && OpenAt(ps, e.order.symbol) < |ps|
    ensures var i := OpenAt(ps, e.order.symbol);
      var after := ApplyFill(ps, e).positions;
      && after == ps[i := after[i]] && after[i].symbol == e.order.symbol
      && HeldValue(after[i], mark) == HeldValue(ps[i], mark) + HoldingsStep(ps, e, mark)
  {
    var i := OpenAt(ps, e.order.symbol);
    var after := ApplyFill(ps, e).positions;
    if !e.order.isClose {
      IncreaseMovesHeldValue(ps[i], e, mark);
    } else if !ClosesFully(ps[i], e.fill) {
      ReductionMovesHeldValue(ps[i], e, mark);
    } else {
      assert HeldValue(after[i], mark) == 0.0;
    }
  }

  lemma {:induction false} OpenedRow(e: Execution, mark: real)
    ensures var p := Reanchored(NewPosition(e.order, e.fill), FrozenDistances(e.order));
      p.symbol == e.order.symbol && HeldValue(p, mark) == UnitsValue(e, mark)
  {
  }

  lemma {:induction false} OneMoreRowHoldings(ps: seq<Position>, after: seq<Position>, p: Position, symbol: string,
                                              step: real, marks: Marks)
    requires after == ps + [p] && p.symbol == symbol && HeldValue(p, marks(symbol)) == step
    ensures BookHoldings(after, marks) == BookHoldings(ps, marks) + step
  {
    BookHoldingsOfAppend(ps, p, marks);
  }

  lemma {:induction false} OneRowHoldings(ps: seq<Position>, after: seq<Position>, i: nat, symbol: string, step: real,
                                          marks: Marks)
    requires i < |ps| == |after| && after == ps[i := after[i]] && ps[i].symbol == after[i].symbol == symbol
    requires HeldValue(after[i], marks(symbol)) == HeldValue(ps[i], marks(symbol)) + step
    ensures BookHoldings(after, marks) == BookHoldings(ps, marks) + step
  {
    BookHoldingsOfUpdate(ps, i, after[i], symbol, marks);
  }

  lemma {:induction false} BookHoldingsStep(ps: seq<Position>, e: Execution, marks: Marks)
    requires NearlyFaithful(ps, e)
    ensures BookHoldings(ApplyFill(ps, e).positions, marks) ==
      BookHoldings(ps, marks) + HoldingsStep(ps, e, marks(e.order.symbol))
  {
    var i, symbol := OpenAt(ps, e.order.symbol), e.order.symbol;
    if i == |ps| {
      OpenedRow(e, marks(symbol));
      OneMoreRowHoldings(ps, ApplyFill(ps, e).positions, Reanchored(NewPosition(e.order, e.fill), FrozenDistances(e.order)),
                         symbol, UnitsValue(e, marks(symbol)), marks);
    } else {
      TouchedRowHoldings(ps, e, marks(symbol));
      OneRowHoldings(ps, ApplyFill(ps, e).positions, i, symbol, HoldingsStep(ps, e, marks(symbol)), marks);
    }
  }

  lemma {:induction false} ProductBound(side: Side, a: real, x: real)
    requires -QTY_TOLERANCE <= x <= QTY_TOLERANCE
    ensures Abs(side.Signed(x * a)) <= QTY_TOLERANCE * Abs(a)
  {
    assert Abs(a * x) <= QTY_TOLERANCE * Abs(a) by {
      if a >= 0.0 {
        assert a * x <= a * QTY_TOLERANCE && a * -QTY_TOLERANCE <= a * x;
      } else {
        assert -a * x <= -a * QTY_TOLERANCE && -a * -QTY_TOLERANCE <= -a * x;
      }
    }
  }

  function BookGap(ps: seq<Position>, rows: seq<Execution>, marks: Marks): real {
    BookValue(ps, marks) - FeesPaid(rows) - Cash(rows) - BookHoldings(ps, marks)
  }

  /** The cash a closing fill moves for units the position did not have, at the average price. */
  function Drift(ps: seq<Position>, e: Execution): real {
    var i := OpenAt(ps, e.order.symbol);
    if i < |ps| then e.order.side.Signed(Missed(ps, e) * ps[i].avg) else 0.0
  }

  lemma {:induction false} FullCloseDrift(p: Position, e: Execution, mark: real)
    requires p.open && p.side != e.order.side && ClosesFully(p, e.fill)
    ensures UnitsValue(e, mark) + CloseResidual(p, e, mark) ==
      -HeldValue(p, mark) + e.order.side.Signed((e.fill.qty - p.qty) * p.avg)
  {
  }

  /** A nearly faithful fill moves book value by its cash, the units the book really gained or lost
      at the mark, and the drift. */
  lemma {:induction false} BookStepOfNearlyFaithful(ps: seq<Position>, e: Execution, marks: Marks)
    requires NearlyFaithful(ps, e)
    ensures LedgerStep(e, marks) + Residual(ps, e, marks) ==
      CashFlow(e) + HoldingsStep(ps, e, marks(e.order.symbol)) + Drift(ps, e)
  {
    var i := OpenAt(ps, e.order.symbol);
    if e.order.isClose && ClosesFully(ps[i], e.fill) {
      FullCloseDrift(ps[i], e, marks(e.order.symbol));
    }
  }

  lemma {:induction false} BookGapMoves(ps: seq<Position>, rows: seq<Execution>, e: Execution, marks: Marks)
    requires NearlyFaithful(ps, e)
    ensures BookGap(ApplyFill(ps, e).positions, rows + [e], marks) == BookGap(ps, rows, marks) + Drift(ps, e)
  {
    BookValueStep(ps, e, marks);
    LedgerOfAppend(rows, e, marks);
    BookHoldingsStep(ps, e, marks);
    BookStepOfNearlyFaithful(ps, e, marks);
  }

  lemma {:induction false} DriftStaysWithinTheSlack(ps: seq<Position>, e: Execution)
    requires NearlyFaithful(ps, e)
    ensures Abs(Drift(ps, e)) <= Slack(ps, e)
  {
    var i := OpenAt(ps, e.order.symbol);
    if i < |ps| {
      ProductBound(e.order.side, ps[i].avg, Missed(ps, e));
    }
  }

  lemma {:induction false} BookGapStep(ps: seq<Position>, rows: seq<Execution>, e: Execution, marks: Marks)
    requires NearlyFaithful(ps, e)
    ensures Abs(BookGap(ApplyFill(ps, e).positions, rows + [e], marks) - BookGap(ps, rows, marks)) <= Slack(ps, e)
  {
    BookGapMoves(ps, rows, e, marks);
    DriftStaysWithinTheSlack(ps, e);
  }

  lemma {:induction false} BookGapOfOneMore(rows: seq<Execution>, e: Execution, all: seq<Execution>, marks: Marks)
    requires all == rows + [e] && NearlyFaithful(PositionsAfter(rows), e)
    ensures Abs(BookGap(PositionsAfter(all), all, marks) - BookGap(PositionsAfter(rows), rows, marks))
      <= Slack(PositionsAfter(rows), e)
  {
    PositionsAfterAppend(rows, e);
    BookGapStep(PositionsAfter(rows), rows, e, marks);
  }

  /** A value that starts at zero and moves by at most the k-th slack in its k-th step ends within their sum. */
  lemma {:induction false} SmallStepsAddUp(values: seq<real>, slacks: seq<real>)
    requires |values| == |slacks| + 1 && values[0] == 0.0
    requires forall k, l :: 0 <= k < |slacks| && l == k + 1 ==> Abs(values[l] - values[k]) <= slacks[k]
    ensures Abs(values[|slacks|]) <= Sum(slacks, (x: real) => x)
    decreases |slacks|
  {
    if slacks == [] {
    } else {
      var n := |slacks| - 1;
      SmallStepsAddUp(values[..n + 1], slacks[..n]);
      var last := values[n + 1];
      assert Abs(last - values[n]) <= slacks[n];
    }
  }

  /** The difference between equity and the plain books after the first k fills. */
  function GapAt(rows: seq<Execution>, marks: Marks, k: nat): real
    requires k <= |rows|
  {
    BookGap(PositionsAfter(rows[..k]), rows[..k], marks)
  }

  lemma {:induction false} GapMovesWithinItsSlack(rows: seq<Execution>, marks: Marks, k: nat)
    requires k < |rows| && NearlyFaithful(PositionsAfter(rows[..k]), rows[k])
    ensures Abs(GapAt(rows, marks, k + 1) - GapAt(rows, marks, k)) <= SlackOf(rows)[k]
  {
    assert rows[..k + 1] == rows[..k] + [rows[k]];
    BookGapOfOneMore(rows[..k], rows[k], rows[..k + 1], marks);
  }

  lemma {:induction false} GapsWithinTheirSlacks(rows: seq<Execution>, marks: Marks) returns (gaps: seq<real>)
    requires NearlyFaithfulRun(rows)
    ensures |gaps| == |rows| + 1 && forall k :: 0 <= k <= |rows| ==> gaps[k] == GapAt(rows, marks, k)
    ensures forall k, l :: 0 <= k < |rows| && l == k + 1 ==> Abs(gaps[l] - gaps[k]) <= SlackOf(rows)[k]
  {
    gaps := seq(|rows| + 1, k requires 0 <= k <= |rows| => GapAt(rows, marks, k));
    forall k | 0 <= k < |rows|
      ensures Abs(GapAt(rows, marks, k + 1) - GapAt(rows, marks, k)) <= SlackOf(rows)[k]
    {
      GapMovesWithinItsSlack(rows, marks, k);
    }
  }

  /** With closes allowed to miss the position by the tolerance, equity stays within the sum of
      tolerance times average price of cash plus the held units, at every mark. */
  lemma {:induction false} EquityStaysWithinTheSlack(rows: seq<Execution>, marks: Marks)
    requires NearlyFaithfulRun(rows)
    ensures Abs(BookGap(PositionsAfter(rows), rows, marks)) <= Slacks(rows)
  {
    var gaps := GapsWithinTheirSlacks(rows, marks);
    NoRowsNoGap(rows, marks);
    SmallStepsAddUp(gaps, SlackOf(rows));
    AllRowsGap(rows, marks);
  }

  lemma {:induction false} NoRowsNoGap(rows: seq<Execution>, marks: Marks)
    ensures GapAt(rows, marks, 0) == 0.0
  {
    assert rows[..0] == [];
  }

  lemma {:induction false} AllRowsGap(rows: seq<Execution>, marks: Marks)
    ensures GapAt(rows, marks, |rows|) == BookGap(PositionsAfter(rows), rows, marks)
  {
    assert rows[..|rows|] == rows;
  }

  /** A closing fill that arrives after the position has flipped onto the fill's own side is applied
      all the same, and equity and the plain ledger part ways by twice its distance from the mark. */
  lemma {:induction false} SameSideCloseBreaksEquity()
    ensures var short := Position("BTCUSDT", Sell, 2.0, 100.0, None, None, true, 0.0, 0.0);
      var late := Execution(OrderSpec(1, "BTCUSDT", Sell, 1.0, true, None, None, None), Fill("f1", 1.0, 90.0, 0.0), false);
      var marks: Marks := (_: string) => 100.0;
      && !Faithful([short], late)
      && ApplyFill([short], late).closed == Some(false)
      && Gap(ApplyFill([short], late).positions, [late], marks) == Gap([short], [], marks) + 20.0
  {
    var short := Position("BTCUSDT", Sell, 2.0, 100.0, None, None, true, 0.0, 0.0);
    var late := Execution(OrderSpec(1, "BTCUSDT", Sell, 1.0, true, None, None, None), Fill("f1", 1.0, 90.0, 0.0), false);
    GapStep([short], [], late, (_: string) => 100.0);
    assert [] + [late] == [late];
  }
}
