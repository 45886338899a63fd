/** The sole authority over orders, app/risk/engine.py: the gates, the sizing of an entry at the
    adverse price, and the much shorter list of gates a close has to pass. */
module RiskEngine {
  import opened Basics
  import opened CostGate

  datatype RiskLimits = RiskLimits(
    maxPositionUsd: real, minOrderNotionalUsd: real, maxConcurrentPositions: nat, maxDailyLossUsd: real,
    maxTotalExposureUsd: real, maxApiFailures: nat, maxClockDriftSeconds: real, requireStopLoss: bool)

  datatype RiskContext = RiskContext(
    openPositions: nat, openExposureUsd: real, dailyLossUsd: real, dataIsStale: bool, apiFailures: nat,
    clockDriftSeconds: Option<real>, killSwitch: bool, tradingBlocked: bool, stateAmbiguous: bool,
    cooldownUntil: Option<int>, now: int, reconciliationStale: bool, operationallyActive: bool,
    engineDegraded: bool, signalIsFresh: Option<bool>)

  /** A signal; its direction is nothing when the strategy says HOLD. */
  datatype Signal = Signal(
    symbol: string, direction: Option<Side>, observedPrice: real, atr: Reading,
    stopLoss: Option<real>, takeProfit: Option<real>)

  datatype ApprovedOrder = ApprovedOrder(
    symbol: string, side: Side, qty: real, stopLoss: Option<real>, takeProfit: Option<real>, isClose: bool)

  datatype Reason =
    | KillSwitchEngaged | TradingIsBlocked | AmbiguousState | StaleData | ClockNotSynced | ApiFailureLimit
    | StaleReconciliation | NotActive | EngineDegraded | InCooldown | NotActionable | StaleSignal
    | NoStopLoss | DailyLossLimit | TooManyPositions | NoExposureRoom | NonPositiveSize | BelowMinimumNotional
    | CostGateRefused(failure: GateFailure)
    | NoPosition | InvalidCloseSide | NonPositiveQty | QtyExceedsPosition

  /** Raises stands for a division by a zero sizing price. */
  datatype Decision = Approve(order: ApprovedOrder) | Reject(reason: Reason) | Raises

  const NOTIONAL_TOLERANCE_USD := 0.0001
  const CLOSE_QTY_TOLERANCE := 0.000000000001

  /** The gates that bind openings and closings alike. */
  function CommonRefusal(l: RiskLimits, c: RiskContext): Option<Reason> {
    if c.killSwitch then Some(KillSwitchEngaged)
    else if c.tradingBlocked then Some(TradingIsBlocked)
    else if c.stateAmbiguous then Some(AmbiguousState)
    else if c.dataIsStale then Some(StaleData)
    else if c.clockDriftSeconds.None? || Abs(c.clockDriftSeconds.value) > l.maxClockDriftSeconds then Some(ClockNotSynced)
    else if c.apiFailures >= l.maxApiFailures then Some(ApiFailureLimit)
    else None
  }

  function ExposureRoom(l: RiskLimits, c: RiskContext): real {
    l.maxTotalExposureUsd - c.openExposureUsd
  }

  function PositionUsd(l: RiskLimits, c: RiskContext): real {
    Min(l.maxPositionUsd, ExposureRoom(l, c))
  }

  /** The entry-only gates that come before sizing. */
  function EntryRefusal(l: RiskLimits, c: RiskContext, s: Signal): Option<Reason> {
    if c.reconciliationStale then Some(StaleReconciliation)
    else if !c.operationallyActive then Some(NotActive)
    else if c.engineDegraded then Some(EngineDegraded)
    else if c.cooldownUntil.Some? && c.now < c.cooldownUntil.value then Some(InCooldown)
    else if s.direction.None? then Some(NotActionable)
    else if c.signalIsFresh == Some(false) then Some(StaleSignal)
    else if l.requireStopLoss && s.stopLoss.None? then Some(NoStopLoss)
    else if c.dailyLossUsd >= l.maxDailyLossUsd then Some(DailyLossLimit)
    else if c.openPositions >= l.maxConcurrentPositions then Some(TooManyPositions)
    else if ExposureRoom(l, c) <= 0.0 then Some(NoExposureRoom)
    else if PositionUsd(l, c) <= 0.0 then Some(NonPositiveSize)
    else if PositionUsd(l, c) < l.minOrderNotionalUsd - NOTIONAL_TOLERANCE_USD then Some(BelowMinimumNotional)
    else None
  }

  function SizingPrice(m: Option<CostModel>, price: real, side: Side): real {
    if m.Some? then AdverseFillPrice(price, side, m.value.Slippage()) else price
  }

  function Evaluate(l: RiskLimits, m: Option<CostModel>, c: RiskContext, s: Signal): Decision {
    var common := CommonRefusal(l, c);
    if common.Some? then Reject(common.value)
    else
      var entry := EntryRefusal(l, c, s);
      if entry.Some? then Reject(entry.value)
      else
        var side := s.direction.value;
        var sizing := SizingPrice(m, s.observedPrice, side);
        if sizing == 0.0 then Raises
        else
          var qty := PositionUsd(l, c) / sizing;
          var verdict :=
            if m.Some? then EvaluateCostGate(m.value, s.direction, Finite(qty), Finite(s.observedPrice), s.atr) else Approved;
          match verdict
          case Refused(failure) => Reject(CostGateRefused(failure))
          case Approved => Approve(ApprovedOrder(s.symbol, side, qty, s.stopLoss, s.takeProfit, false))
  }

  function EvaluateClose(l: RiskLimits, c: RiskContext, symbol: string, closeSide: Side, qty: real,
                         positionExists: bool, positionQty: real, positionSide: Side): Decision {
    var common := CommonRefusal(l, c);
    if common.Some? then Reject(common.value)
    else if !positionExists then Reject(NoPosition)
    else if closeSide == positionSide then Reject(InvalidCloseSide)
    else if qty <= 0.0 then Reject(NonPositiveQty)
    else if qty > positionQty + CLOSE_QTY_TOLERANCE then Reject(QtyExceedsPosition)
    else Approve(ApprovedOrder(symbol, closeSide, qty, None, None, true))
  }

  /** What a quantity is worth at the adverse price of a reference. */
  function AdverseNotional(m: CostModel, side: Side, qty: real, price: real): real {
    qty * AdverseFillPrice(price, side, m.Slippage())
  }

  /** What approval says about the order before any arithmetic. */
  lemma {:induction false} ApprovalMeansSized(l: RiskLimits, m: CostModel, c: RiskContext, s: Signal)
    requires Evaluate(l, Some(m), c, s).Approve?
    ensures var o := Evaluate(l, Some(m), c, s).order;
      var sizing := AdverseFillPrice(s.observedPrice, o.side, m.Slippage());
      && s.direction == Some(o.side) && o.symbol == s.symbol && !o.isClose
      && sizing != 0.0 && o.qty == PositionUsd(l, c) / sizing && o.qty > 0.0
      && PositionUsd(l, c) > 0.0 && PositionUsd(l, c) >= l.minOrderNotionalUsd - NOTIONAL_TOLERANCE_USD
      && c.openPositions < l.maxConcurrentPositions
  {
  }

  lemma {:induction false} SizedQuantity(usd: real, sizing: real, qty: real)
    requires usd > 0.0 && sizing != 0.0 && qty == usd / sizing && qty > 0.0
    ensures qty * sizing == usd && sizing > 0.0
  {
    assert qty * sizing == usd;
    assert sizing < 0.0 ==> qty * -sizing > 0.0;
  }

  lemma {:induction false} SizedEntryFitsTheRoom(l: RiskLimits, m: CostModel, c: RiskContext, price: real,
                                                 o: ApprovedOrder)
    requires var sizing := AdverseFillPrice(price, o.side, m.Slippage());
      sizing != 0.0 && o.qty == PositionUsd(l, c) / sizing && o.qty > 0.0 && PositionUsd(l, c) > 0.0
    ensures var notional := AdverseNotional(m, o.side, o.qty, price);
      && AdverseFillPrice(price, o.side, m.Slippage()) > 0.0 && notional == PositionUsd(l, c)
      && notional <= l.maxPositionUsd && c.openExposureUsd + notional <= l.maxTotalExposureUsd
  {
    SizedQuantity(PositionUsd(l, c), AdverseFillPrice(price, o.side, m.Slippage()), o.qty);
  }

  /** An approved entry, filled at the adverse price it was sized at, is worth exactly the room it was
      given: at most one position's limit, at most the exposure left, and at least the economic floor. */
  lemma {:induction false} ApprovedEntryFitsTheRoom(l: RiskLimits, m: CostModel, c: RiskContext, s: Signal)
    requires Evaluate(l, Some(m), c, s).Approve?
    ensures var o := Evaluate(l, Some(m), c, s).order;
      var notional := AdverseNotional(m, o.side, o.qty, s.observedPrice);
      && s.direction == Some(o.side) && o.symbol == s.symbol && !o.isClose
      && o.qty > 0.0 && AdverseFillPrice(s.observedPrice, o.side, m.Slippage()) > 0.0
      && notional == PositionUsd(l, c)
      && notional <= l.maxPositionUsd && c.openExposureUsd + notional <= l.maxTotalExposureUsd
      && notional >= l.minOrderNotionalUsd - NOTIONAL_TOLERANCE_USD
      && c.openPositions < l.maxConcurrentPositions
  {
    ApprovalMeansSized(l, m, c, s);
    SizedEntryFitsTheRoom(l, m, c, s.observedPrice, Evaluate(l, Some(m), c, s).order);
  }

  /** Without a cost model an entry is sized at the signal's price: it overshoots the room it was given
      exactly when it buys under positive slippage. */
  lemma {:induction false} UnmodelledEntryOvershootsExactlyWhenBuying(l: RiskLimits, c: RiskContext, s: Signal,
                                                                      slippage: real)
    requires Evaluate(l, None, c, s).Approve? && slippage >= 0.0 && s.observedPrice > 0.0
    ensures var o := Evaluate(l, None, c, s).order;
      o.qty * AdverseFillPrice(s.observedPrice, o.side, slippage) > PositionUsd(l, c) <==>
        o.side == Buy && slippage > 0.0
  {
    var o := Evaluate(l, None, c, s).order;
    var usd := PositionUsd(l, c);
    assert o.qty * s.observedPrice == usd;
    assert o.qty * (s.observedPrice * (1.0 + slippage)) == usd + usd * slippage;
    assert o.qty * (s.observedPrice * (1.0 - slippage)) == usd - usd * slippage;
    NonNegativeProduct(usd, slippage);
    if slippage > 0.0 {
      assert usd * slippage > 0.0;
    }
  }

  /** Whatever only gates openings never blocks a close: two contexts that agree on the common gates
      decide every close alike, and a full close of an open position passes exactly when they pass. */
  lemma {:induction false} ClosingIgnoresEntryGates(l: RiskLimits, c: RiskContext, d: RiskContext, symbol: string,
                                                    side: Side, qty: Qty)
    requires d == c.(openPositions := d.openPositions, openExposureUsd := d.openExposureUsd, dailyLossUsd := d.dailyLossUsd,
                     cooldownUntil := d.cooldownUntil, now := d.now, reconciliationStale := d.reconciliationStale,
                     operationallyActive := d.operationallyActive, engineDegraded := d.engineDegraded,
                     signalIsFresh := d.signalIsFresh)
    ensures EvaluateClose(l, c, symbol, side.Opposite(), qty, true, qty, side) ==
      EvaluateClose(l, d, symbol, side.Opposite(), qty, true, qty, side)
    ensures EvaluateClose(l, c, symbol, side.Opposite(), qty, true, qty, side).Approve? <==> CommonRefusal(l, c).None?
    ensures EvaluateClose(l, c, symbol, side.Opposite(), qty, true, qty, side).Approve? ==>
      EvaluateClose(l, c, symbol, side.Opposite(), qty, true, qty, side).order ==
      ApprovedOrder(symbol, side.Opposite(), qty, None, None, true)
  {
    assert CommonRefusal(l, c) == CommonRefusal(l, d);
  }
}
