/** One hypothetical portfolio of app/shadow/engine.py, run alone over candles, signals and restarts: the reference that
    the shared tables of both portfolios are compared with. Times are minutes of candle time. */
module Shadow {
  import opened Basics
  import opened CostGate

  datatype AnyLimits = AnyLimits(
    maxPositionUsd: real, maxTotalExposureUsd: real, minOrderNotionalUsd: real, maxDailyLossUsd: real,
    cooldownAfterLosses: nat, cooldownMinutes: int, feeRate: real, slippageBps: real,
    stopAtrMultiple: real, targetAtrMultiple: real)
  {
    function Slippage(): real { slippageBps / 10000.0 }
  }

  /** Slippage below 100 percent, so that no hypothetical fill price is zero, and room for a position at all. */
  type Limits = l: AnyLimits | 0.0 <= l.slippageBps < 10000.0 && l.maxPositionUsd > 0.0
    witness AnyLimits(50.0, 50.0, 5.0, 25.0, 3, 30, 0.0006, 5.0, 2.0, 3.0)

  /** What an experiment is about: the limits and costs, and everything else its fingerprint covers. */
  datatype Config = Config(limits: Limits, strategy: string)

  /** A hypothetical position; `experiment` is the one that opened it. */
  datatype Position = Position(
    experiment: nat, symbol: string, side: Side, qty: real, entryFill: real, notional: real, stopLoss: real, takeProfit: real,
    entryFee: real, entrySlippage: real, openedAt: int, open: bool)

  datatype Reason = StopLoss | TakeProfit | OppositeSignal

  /** A closed position's result; it belongs to the experiment that opened the position. */
  datatype Trade = Trade(
    experiment: nat, symbol: string, openedAt: int, closedAt: int, reason: Reason,
    gross: real, fees: real, slippage: real, net: real)

  /** Daily loss and cooldown, in process memory. */
  datatype Risk = Risk(consecutiveLosses: nat, cooldownUntil: Option<int>, dailyLoss: map<int, real>)

  const CALM := Risk(0, None, map[])

  /** An opportunity of an experiment: symbol and candle. */
  type Key = (nat, string, int)

  /** One model's rows and memory. `experiments` are the configurations of its experiments, the last one the active one;
      `seen` are the keys of its recorded opportunities, `since` the number of trades recorded before this process
      started. */
  datatype Portfolio = Portfolio(
    config: Config, experiments: seq<Config>, positions: seq<Position>, trades: seq<Trade>, seen: set<Key>,
    risk: Risk, exits: map<string, int>, since: nat)

  function Fresh(config: Config): Portfolio {
    Portfolio(config, [], [], [], {}, CALM, map[], 0)
  }

  datatype Signal = Signal(
    symbol: string, direction: Option<Side>, reference: real, atr: real, separation: real, sourceTime: int, tickTime: Option<int>)

  const MINUTES_PER_DAY := 1440
  const NOTIONAL_TOLERANCE_USD := 0.0001
  const H2_MIN_SEPARATION := 0.15

  /** The first open row of a symbol, or the number of rows. */
  function OpenAt(ps: seq<Position>, symbol: string): (i: nat)
    ensures i <= |ps|
    ensures i < |ps| ==> ps[i].open && ps[i].symbol == symbol
    ensures forall j :: 0 <= j < i ==> !(ps[j].open && ps[j].symbol == symbol)
  {
    if ps == [] then 0
    else if ps[0].open && ps[0].symbol == symbol then 0
    else 1 + OpenAt(ps[1..], symbol)
  }

  function Exposure(ps: seq<Position>): real {
    Sum(ps, (p: Position) => if p.open then p.notional else 0.0)
  }

  function LossOn(risk: Risk, day: int): real {
    if day in risk.dailyLoss then risk.dailyLoss[day] else 0.0
  }

  /** What one closed trade does to daily loss and cooldown. */
  function Registered(risk: Risk, net: real, time: int, lim: Limits): Risk {
    if net < 0.0 then
      var day := time / MINUTES_PER_DAY;
      var losses := risk.consecutiveLosses + 1;
      var more := risk.dailyLoss[day := LossOn(risk, day) - net];
      if losses >= lim.cooldownAfterLosses then Risk(0, Some(time + lim.cooldownMinutes), more)
      else Risk(losses, risk.cooldownUntil, more)
    else risk.(consecutiveLosses := 0)
  }

  function TradeOf(p: Position, exitReference: real, reason: Reason, time: int, lim: Limits): Trade {
    var exitFill := AdverseFillPrice(exitReference, p.side.Opposite(), lim.Slippage());
    var gross := if p.side.Buy? then (exitFill - p.entryFill) * p.qty else (p.entryFill - exitFill) * p.qty;
    var exitFee := p.qty * exitFill * lim.feeRate;
    var exitSlippage := Abs(exitFill - exitReference) * p.qty;
    Trade(p.experiment, p.symbol, p.openedAt, time, reason, gross, p.entryFee + exitFee, p.entrySlippage + exitSlippage,
          gross - exitFee - exitSlippage - p.entryFee - p.entrySlippage)
  }

  /** The key of the trade table's unique index. */
  predicate SameKey(t: Trade, u: Trade) {
    t.experiment == u.experiment && t.symbol == u.symbol && t.openedAt == u.openedAt && t.closedAt == u.closedAt
  }

  function Recorded(trades: seq<Trade>, t: Trade): seq<Trade> {
    if exists u <- trades :: SameKey(u, t) then trades else trades + [t]
  }

  /** Row i closed with the given result. */
  function Settled(pf: Portfolio, i: nat, t: Trade): Portfolio
    requires i < |pf.positions|
  {
    pf.(positions := pf.positions[i := pf.positions[i].(open := false)], trades := Recorded(pf.trades, t),
        risk := Registered(pf.risk, t.net, t.closedAt, pf.config.limits))
  }

  /** Closing row i. */
  function Closed(pf: Portfolio, i: nat, exitReference: real, reason: Reason, time: int): Portfolio
    requires i < |pf.positions|
  {
    Settled(pf, i, TradeOf(pf.positions[i], exitReference, reason, time, pf.config.limits))
  }

  /** What a candle hits of a position: the stop, the target, or nothing. A candle not later than the opening never
      closes, and a candle that hits both counts as the stop. */
  function Hit(p: Position, high: real, low: real, time: int): Option<Reason> {
    if time <= p.openedAt then None
    else if (if p.side.Buy? then low <= p.stopLoss else high >= p.stopLoss) then Some(StopLoss)
    else if (if p.side.Buy? then high >= p.takeProfit else low <= p.takeProfit) then Some(TakeProfit)
    else None
  }

  function TriggerPrice(p: Position, reason: Reason): real {
    if reason.StopLoss? then p.stopLoss else p.takeProfit
  }

  /** Stop and target against one candle. */
  function AfterCandle(pf: Portfolio, symbol: string, high: real, low: real, time: int): Portfolio {
    var i := OpenAt(pf.positions, symbol);
    if i == |pf.positions| then pf
    else
      match Hit(pf.positions[i], high, low, time)
      case None => pf
      case Some(reason) =>
        Closed(pf, i, TriggerPrice(pf.positions[i], reason), reason, time).(exits := pf.exits[symbol := time])
  }

  /** The room one entry may take, given the notional already open. */
  function Room(exposure: real, lim: Limits): real {
    Min(lim.maxPositionUsd, lim.maxTotalExposureUsd - exposure)
  }

  lemma {:induction false} PositiveProduct(x: real, y: real)
    requires x > 0.0 && y > 0.0
    ensures x * y > 0.0
  {
  }

  lemma {:induction false} FillPriceIsPositive(reference: real, side: Side, lim: Limits)
    requires reference > 0.0
    ensures AdverseFillPrice(reference, side, lim.Slippage()) > 0.0
  {
    AdversePriceIsPositive(reference, side, lim.Slippage());
  }

  lemma {:induction false} AdversePriceIsPositive(reference: real, side: Side, slippage: real)
    requires 0.0 <= slippage < 1.0 && reference > 0.0
    ensures AdverseFillPrice(reference, side, slippage) > 0.0
  {
    PositiveProduct(reference, 1.0 - slippage);
    PositiveProduct(reference, 1.0 + slippage);
  }

  function NewPosition(experiment: nat, usd: real, s: Signal, side: Side, lim: Limits): Position
    requires s.reference > 0.0
  {
    FillPriceIsPositive(s.reference, side, lim);
    var fill := AdverseFillPrice(s.reference, side, lim.Slippage());
    var qty := usd / fill;
    Position(experiment, s.symbol, side, qty, fill, qty * fill,
             fill - side.Signed(s.atr * lim.stopAtrMultiple), fill + side.Signed(s.atr * lim.targetAtrMultiple),
             qty * fill * lim.feeRate, Abs(fill - s.reference) * qty, s.sourceTime, true)
  }

  /** Whether a signal may open a position for a model without one in its symbol. */
  predicate Admitted(risk: Risk, exposure: real, s: Signal, threshold: Option<real>, lim: Limits) {
    && (threshold.Some? ==> s.separation >= threshold.value)
    && (risk.cooldownUntil.Some? ==> s.sourceTime >= risk.cooldownUntil.value)
    && LossOn(risk, s.sourceTime / MINUTES_PER_DAY) < lim.maxDailyLossUsd
    && lim.maxTotalExposureUsd - exposure > 0.0
    && Room(exposure, lim) >= lim.minOrderNotionalUsd - NOTIONAL_TOLERANCE_USD
  }

  /** A position was closed by stop or target in the very tick that delivers the signal. */
  predicate ExitedThisTick(exit: Option<int>, s: Signal) {
    s.tickTime.Some? && exit == s.tickTime
  }

  predicate Actionable(s: Signal) {
    s.direction.Some? && s.atr > 0.0 && s.reference > 0.0
  }

  function ExitOf(pf: Portfolio, symbol: string): Option<int> {
    if symbol in pf.exits then Some(pf.exits[symbol]) else None
  }

  /** The active experiment continues under its own configuration; any other configuration starts a new one, even
      one used before. */
  function WithExperiment(pf: Portfolio): Portfolio {
    if pf.experiments != [] && pf.experiments[|pf.experiments| - 1] == pf.config then pf
    else pf.(experiments := pf.experiments + [pf.config])
  }

  function Decided(pf: Portfolio, s: Signal, threshold: Option<real>, experiment: nat): Portfolio
    requires Actionable(s)
  {
    var i := OpenAt(pf.positions, s.symbol);
    if ExitedThisTick(ExitOf(pf, s.symbol), s) then pf
    else if i < |pf.positions| then
      if pf.positions[i].side != s.direction.value then Closed(pf, i, s.reference, OppositeSignal, s.sourceTime) else pf
    else if Admitted(pf.risk, Exposure(pf.positions), s, threshold, pf.config.limits) then
      var usd := Room(Exposure(pf.positions), pf.config.limits);
      pf.(positions := pf.positions + [NewPosition(experiment, usd, s, s.direction.value, pf.config.limits)])
    else pf
  }

  /** An actionable signal: resolve the experiment, skip what it has seen, record the opportunity, decide. */
  function AfterSignal(pf: Portfolio, s: Signal, threshold: Option<real>): Portfolio {
    if !Actionable(s) then pf
    else
      var resolved := WithExperiment(pf);
      var experiment := |resolved.experiments| - 1;
      var key := (experiment, s.symbol, s.sourceTime);
      if key in resolved.seen then resolved
      else Decided(resolved.(seen := resolved.seen + {key}), s, threshold, experiment)
  }

  datatype Event =
    | Candle(symbol: string, high: real, low: real, time: int)
    | Given(signal: Signal)

  function After(pf: Portfolio, ev: Event, threshold: Option<real>): Portfolio {
    match ev
    case Candle(symbol, high, low, time) => AfterCandle(pf, symbol, high, low, time)
    case Given(s) => AfterSignal(pf, s, threshold)
  }

  /** A new process, perhaps with another configuration. */
  function AfterRestart(pf: Portfolio, config: Config): Portfolio {
    pf.(config := config, risk := CALM, exits := map[], since := |pf.trades|)
  }

  // ---- the invariant ----

  /** Daily loss and cooldown derived again from trades in closing order. */
  function Folded(trades: seq<Trade>, lim: Limits): Risk {
    if trades == [] then CALM
    else
      var last := trades[|trades| - 1];
      Registered(Folded(trades[..|trades| - 1], lim), last.net, last.closedAt, lim)
  }

  function KeyOf(p: Position): Key {
    (p.experiment, p.symbol, p.openedAt)
  }

  function OpeningKey(t: Trade): Key {
    (t.experiment, t.symbol, t.openedAt)
  }

  ghost predicate OneOpen(ps: seq<Position>) {
    forall i, j :: 0 <= i < j < |ps| && ps[i].open && ps[j].open ==> ps[i].symbol != ps[j].symbol
  }

  /** Every position comes from its own opportunity, no trade belongs to a position still open, and every recorded
      opportunity belongs to an experiment on file. */
  ghost predicate Keyed(pf: Portfolio) {
    && (forall i, j :: 0 <= i < j < |pf.positions| ==> KeyOf(pf.positions[i]) != KeyOf(pf.positions[j]))
    && (forall i :: 0 <= i < |pf.positions| ==> KeyOf(pf.positions[i]) in pf.seen)
    && (forall t <- pf.trades :: OpeningKey(t) in pf.seen)
    && (forall t <- pf.trades :: forall i :: 0 <= i < |pf.positions| && pf.positions[i].open ==>
      KeyOf(pf.positions[i]) != OpeningKey(t))
    && (forall key <- pf.seen :: key.0 < |pf.experiments|)
  }

  ghost predicate PositiveNotionals(ps: seq<Position>) {
    forall p <- ps :: p.notional > 0.0
  }

  /** The largest exposure cap any of the experiments had. */
  function Cap(experiments: seq<Config>): real {
    if experiments == [] then 0.0
    else Max(Cap(experiments[..|experiments| - 1]), experiments[|experiments| - 1].limits.maxTotalExposureUsd)
  }

  /** The memory of daily loss and cooldown is a fold over the trades closed since the process started. */
  ghost predicate Remembers(pf: Portfolio) {
    pf.since <= |pf.trades| && pf.risk == Folded(pf.trades[pf.since..], pf.config.limits)
  }

  ghost predicate Sound(pf: Portfolio) {
    && OneOpen(pf.positions) && Keyed(pf) && PositiveNotionals(pf.positions)
    && Exposure(pf.positions) <= Cap(pf.experiments)
    && Remembers(pf)
  }

  lemma {:induction false} ExposureOfUpdate(ps: seq<Position>, i: nat, p: Position)
    requires i < |ps|
    ensures Exposure(ps[i := p]) ==
      Exposure(ps) - (if ps[i].open then ps[i].notional else 0.0) + (if p.open then p.notional else 0.0)
  {
    SumOfUpdate(ps, i, p, (p: Position) => if p.open then p.notional else 0.0);
  }

  lemma {:induction false} ExposureOfAppend(ps: seq<Position>, p: Position)
    ensures Exposure(ps + [p]) == Exposure(ps) + (if p.open then p.notional else 0.0)
  {
    assert (ps + [p])[..|ps|] == ps;
  }

  lemma {:induction false} FoldedOneMore(trades: seq<Trade>, t: Trade, lim: Limits)
    ensures Folded(trades + [t], lim) == Registered(Folded(trades, lim), t.net, t.closedAt, lim)
  {
    assert (trades + [t])[..|trades|] == trades;
  }

  lemma {:induction false} ClosingStaysKeyed(pf: Portfolio, i: nat, t: Trade)
    requires Keyed(pf) && OneOpen(pf.positions) && i < |pf.positions| && pf.positions[i].open
    requires OpeningKey(t) == KeyOf(pf.positions[i])
    ensures var after := pf.(positions := pf.positions[i := pf.positions[i].(open := false)], trades := pf.trades + [t]);
      Keyed(after) && OneOpen(after.positions)
    ensures Recorded(pf.trades, t) == pf.trades + [t]
  {
    assert forall u <- pf.trades :: OpeningKey(u) != KeyOf(pf.positions[i]);
    assert forall u <- pf.trades :: SameKey(u, t) ==> OpeningKey(u) == OpeningKey(t);
    var after := pf.positions[i := pf.positions[i].(open := false)];
    assert forall j :: 0 <= j < |after| ==> KeyOf(after[j]) == KeyOf(pf.positions[j]);
    assert forall j :: 0 <= j < |after| && after[j].open ==> j != i && pf.positions[j].open;
  }

  /** A close always records its trade: the unique index never has to suppress one. */
  lemma {:induction false} ClosingStaysSound(pf: Portfolio, i: nat, exitReference: real, reason: Reason, time: int)
    requires Sound(pf) && i < |pf.positions| && pf.positions[i].open
    ensures var after := Closed(pf, i, exitReference, reason, time);
      Sound(after) && after.trades == pf.trades + [TradeOf(pf.positions[i], exitReference, reason, time, pf.config.limits)]
  {
    var p := pf.positions[i];
    var t := TradeOf(p, exitReference, reason, time, pf.config.limits);
    ClosingStaysKeyed(pf, i, t);
    ClosingReleasesExposure(pf.positions, i);
    RememberingOneMore(pf, t, time);
  }

  lemma {:induction false} ClosingReleasesExposure(ps: seq<Position>, i: nat)
    requires PositiveNotionals(ps) && i < |ps| && ps[i].open
    ensures var after := ps[i := ps[i].(open := false)];
      PositiveNotionals(after) && Exposure(after) <= Exposure(ps)
  {
    var p := ps[i];
    ExposureOfUpdate(ps, i, p.(open := false));
    assert p in ps;
    assert forall q <- ps[i := p.(open := false)] :: q == p.(open := false) || q in ps;
  }

  lemma {:induction false} RememberingOneMore(pf: Portfolio, t: Trade, time: int)
    requires Remembers(pf) && t.closedAt == time
    ensures Remembers(pf.(trades := pf.trades + [t], risk := Registered(pf.risk, t.net, time, pf.config.limits)))
  {
    assert (pf.trades + [t])[pf.since..] == pf.trades[pf.since..] + [t];
    FoldedOneMore(pf.trades[pf.since..], t, pf.config.limits);
  }

  lemma {:induction false} EntryTakesItsRoom(experiment: nat, usd: real, s: Signal, side: Side, lim: Limits)
    requires s.reference > 0.0
    ensures NewPosition(experiment, usd, s, side, lim).notional == usd
  {
    FillPriceIsPositive(s.reference, side, lim);
  }

  lemma {:induction false} OpeningStaysKeyed(pf: Portfolio, p: Position)
    requires Keyed(pf) && OneOpen(pf.positions) && OpenAt(pf.positions, p.symbol) == |pf.positions|
    requires KeyOf(p) !in pf.seen && p.experiment < |pf.experiments|
    ensures Keyed(pf.(seen := pf.seen + {KeyOf(p)}, positions := pf.positions + [p])) && OneOpen(pf.positions + [p])
  {
    var after := pf.positions + [p];
    assert forall i :: 0 <= i < |pf.positions| ==> after[i] == pf.positions[i];
    assert forall i :: 0 <= i < |pf.positions| ==> KeyOf(pf.positions[i]) != KeyOf(p);
  }

  lemma {:induction false} OpeningStaysSound(pf: Portfolio, p: Position)
    requires Sound(pf) && OpenAt(pf.positions, p.symbol) == |pf.positions|
    requires KeyOf(p) !in pf.seen && p.experiment < |pf.experiments|
    requires p.open && 0.0 < p.notional <= Cap(pf.experiments) - Exposure(pf.positions)
    ensures Sound(pf.(seen := pf.seen + {KeyOf(p)}, positions := pf.positions + [p]))
  {
    OpeningStaysKeyed(pf, p);
    ExposureOfAppend(pf.positions, p);
    assert forall q <- pf.positions + [p] :: q == p || q in pf.positions;
  }

  lemma {:induction false} NotingStaysSound(pf: Portfolio, key: Key)
    requires Sound(pf) && key.0 < |pf.experiments|
    ensures Sound(pf.(seen := pf.seen + {key}))
  {
  }

  /** Resolving the experiment leaves the current configuration active and its cap covered. */
  lemma {:induction false} ResolvingStaysSound(pf: Portfolio)
    requires Sound(pf)
    ensures var r := WithExperiment(pf);
      && Sound(r) && r.experiments != [] && pf.config.limits.maxTotalExposureUsd <= Cap(r.experiments)
  {
    var more := pf.experiments + [pf.config];
    assert more[..|pf.experiments|] == pf.experiments;
  }

  lemma {:induction false} SignalStaysSound(pf: Portfolio, s: Signal, threshold: Option<real>)
    requires Sound(pf)
    ensures Sound(AfterSignal(pf, s, threshold))
  {
    if Actionable(s) {
      ResolvingStaysSound(pf);
      var r := WithExperiment(pf);
      var experiment := |r.experiments| - 1;
      var key := (experiment, s.symbol, s.sourceTime);
      if key !in r.seen {
        NotingStaysSound(r, key);
        DecidingStaysSound(r, s, threshold, experiment);
      }
    }
  }

  lemma {:induction false} DecidingStaysSound(pf: Portfolio, s: Signal, threshold: Option<real>, experiment: nat)
    requires Sound(pf) && Actionable(s) && experiment < |pf.experiments| && (experiment, s.symbol, s.sourceTime) !in pf.seen
    requires pf.config.limits.maxTotalExposureUsd <= Cap(pf.experiments)
    ensures Sound(Decided(pf.(seen := pf.seen + {(experiment, s.symbol, s.sourceTime)}), s, threshold, experiment))
  {
    var noted := pf.(seen := pf.seen + {(experiment, s.symbol, s.sourceTime)});
    NotingStaysSound(pf, (experiment, s.symbol, s.sourceTime));
    var i := OpenAt(pf.positions, s.symbol);
    if i < |pf.positions| {
      ClosingStaysSound(noted, i, s.reference, OppositeSignal, s.sourceTime);
    } else {
      var usd := Room(Exposure(pf.positions), pf.config.limits);
      var p := NewPosition(experiment, usd, s, s.direction.value, pf.config.limits);
      EntryTakesItsRoom(experiment, usd, s, s.direction.value, pf.config.limits);
      if Admitted(pf.risk, Exposure(pf.positions), s, threshold, pf.config.limits) {
        OpeningStaysSound(pf, p);
      }
    }
  }

  lemma {:induction false} CandleStaysSound(pf: Portfolio, symbol: string, high: real, low: real, time: int)
    requires Sound(pf)
    ensures Sound(AfterCandle(pf, symbol, high, low, time))
  {
    var i := OpenAt(pf.positions, symbol);
    if i < |pf.positions| {
      var p := pf.positions[i];
      ClosingStaysSound(pf, i, p.stopLoss, StopLoss, time);
      ClosingStaysSound(pf, i, p.takeProfit, TakeProfit, time);
    }
  }

  /** Every event keeps a model's open notional within the largest cap it was run under, at most one open position per
      symbol, and cooldown and daily loss those of the trades closed since the process started, in closing order. */
  lemma {:induction false} EveryEventStaysSound(pf: Portfolio, ev: Event, threshold: Option<real>)
    requires Sound(pf)
    ensures Sound(After(pf, ev, threshold))
  {
    match ev
    case Candle(symbol, high, low, time) => CandleStaysSound(pf, symbol, high, low, time);
    case Given(s) => SignalStaysSound(pf, s, threshold);
  }

  /** Once a loss is registered, its day stays on file. */
  lemma {:induction false} CalmExactlyWhen(trades: seq<Trade>, lim: Limits)
    ensures Folded(trades, lim).dailyLoss == map[] <==> forall t <- trades :: t.net >= 0.0
    ensures Folded(trades, lim) == CALM <==> forall t <- trades :: t.net >= 0.0
    decreases |trades|
  {
    if trades == [] {
    } else {
      var n := |trades| - 1;
      var before, last := Folded(trades[..n], lim), trades[n];
      CalmExactlyWhen(trades[..n], lim);
      assert trades == trades[..n] + [last];
      if last.net < 0.0 {
        assert last.closedAt / MINUTES_PER_DAY in Registered(before, last.net, last.closedAt, lim).dailyLoss;
      }
    }
  }

  /** A restart keeps the rows and forgets cooldown and daily loss: its memory is the fold over all recorded trades
      exactly when none of them lost. */
  lemma {:induction false} RestartForgets(pf: Portfolio, config: Config)
    ensures var after := AfterRestart(pf, config);
      && after.trades == pf.trades && (Sound(pf) ==> Sound(after))
      && (after.risk == Folded(after.trades, config.limits) <==> forall t <- pf.trades :: t.net >= 0.0)
  {
    assert pf.trades[|pf.trades|..] == [];
    CalmExactlyWhen(pf.trades, config.limits);
  }

  /** An entry never takes the open notional past the current cap. */
  lemma {:induction false} EntriesRespectTheCurrentCap(pf: Portfolio, s: Signal, threshold: Option<real>)
    requires |AfterSignal(pf, s, threshold).positions| > |pf.positions|
    ensures Exposure(AfterSignal(pf, s, threshold).positions) <= pf.config.limits.maxTotalExposureUsd
  {
    var usd := Room(Exposure(pf.positions), pf.config.limits);
    var experiment := |WithExperiment(pf).experiments| - 1;
    EntryTakesItsRoom(experiment, usd, s, s.direction.value, pf.config.limits);
    ExposureOfAppend(pf.positions, NewPosition(experiment, usd, s, s.direction.value, pf.config.limits));
  }

  /** Delivering a signal of an already recorded candle again, even with other contents, changes nothing. */
  lemma {:induction false} RedeliveryChangesNothing(pf: Portfolio, s: Signal, again: Signal, threshold: Option<real>)
    requires Actionable(s) && again.symbol == s.symbol && again.sourceTime == s.sourceTime
    ensures AfterSignal(AfterSignal(pf, s, threshold), again, threshold) == AfterSignal(pf, s, threshold)
  {
    var r := WithExperiment(pf);
    var experiment := |r.experiments| - 1;
    var key := (experiment, s.symbol, s.sourceTime);
    DecidingKeepsTheRest(r.(seen := r.seen + {key}), s, threshold, experiment);
    var after := AfterSignal(pf, s, threshold);
    assert after.experiments == r.experiments && after.config == pf.config && key in after.seen;
    assert r.experiments[experiment] == pf.config;
    assert WithExperiment(after) == after;
  }

  lemma {:induction false} DecidingKeepsTheRest(pf: Portfolio, s: Signal, threshold: Option<real>, experiment: nat)
    requires Actionable(s)
    ensures var after := Decided(pf, s, threshold, experiment);
      after.experiments == pf.experiments && after.config == pf.config && after.seen == pf.seen && after.since == pf.since
  {
  }

  /** An exit comes before any entry of its tick, and an opposite signal closes without reversing: in neither case is
      a position opened. */
  lemma {:induction false} NoEntryAfterAnExit(pf: Portfolio, s: Signal, threshold: Option<real>)
    requires var i := OpenAt(pf.positions, s.symbol);
      ExitedThisTick(ExitOf(pf, s.symbol), s) || (i < |pf.positions| && s.direction != Some(pf.positions[i].side))
    ensures var after := AfterSignal(pf, s, threshold);
      && |after.positions| == |pf.positions|
      && forall i :: 0 <= i < |pf.positions| && after.positions[i].open ==> after.positions[i] == pf.positions[i]
  {
    if Actionable(s) {
      var r := WithExperiment(pf);
      var experiment := |r.experiments| - 1;
      var noted := r.(seen := r.seen + {(experiment, s.symbol, s.sourceTime)});
      NoEntryAfterAnExitOnce(noted, s, threshold, experiment);
    }
  }

  lemma {:induction false} NoEntryAfterAnExitOnce(pf: Portfolio, s: Signal, threshold: Option<real>, experiment: nat)
    requires Actionable(s)
    requires var i := OpenAt(pf.positions, s.symbol);
      ExitedThisTick(ExitOf(pf, s.symbol), s) || (i < |pf.positions| && s.direction != Some(pf.positions[i].side))
    ensures var after := Decided(pf, s, threshold, experiment);
      && |after.positions| == |pf.positions|
      && forall i :: 0 <= i < |pf.positions| && after.positions[i].open ==> after.positions[i] == pf.positions[i]
  {
  }

  // ---- shadow and paper money ----

  /** What the paper engine would net on the same two fills: price difference less both fees. */
  function PaperNet(side: Side, qty: Qty, entryReference: real, exitReference: real, lim: Limits): real {
    var entry := PaperFill("in", side, qty, entryReference, lim.feeRate, lim.slippageBps);
    var exit := PaperFill("out", side.Opposite(), qty, exitReference, lim.feeRate, lim.slippageBps);
    side.Signed(qty * (exit.price - entry.price)) - entry.fee - exit.fee
  }

  lemma {:induction false} SamePrices(reference: real, side: Side, lim: Limits)
    ensures PaperFillPrice(reference, side, lim.slippageBps) == AdverseFillPrice(reference, side, lim.Slippage())
  {
    var s := lim.Slippage();
    assert reference * (1.0 + s) == reference + reference * s && reference * (1.0 - s) == reference - reference * s;
  }

  /** A shadow trade's net result is the paper engine's on the same fills less the slippage of both legs, which the
      fill prices had already paid. */
  lemma {:induction false} ShadowNetIsPaperNetLessSlippage(usd: real, s: Signal, side: Side, exitReference: real,
                                                           reason: Reason,
                                                           time: int, lim: Limits)
    requires s.reference > 0.0
    requires NewPosition(0, usd, s, side, lim).qty > 0.0
    ensures var p := NewPosition(0, usd, s, side, lim);
      var t := TradeOf(p, exitReference, reason, time, lim);
      t.net == PaperNet(side, p.qty, s.reference, exitReference, lim) - t.slippage
  {
    var p := NewPosition(0, usd, s, side, lim);
    SamePrices(s.reference, side, lim);
    SamePrices(exitReference, side.Opposite(), lim);
    var exitFill := AdverseFillPrice(exitReference, side.Opposite(), lim.Slippage());
    NetAlgebra(p.qty, p.entryFill, exitFill, lim.feeRate);
  }

  lemma {:induction false} NetAlgebra(qty: real, entry: real, exit: real, fee: real)
    ensures (exit - entry) * qty == qty * (exit - entry)
    ensures (entry - exit) * qty == -(qty * (exit - entry))
  {
  }
}
