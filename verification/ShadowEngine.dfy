/** The engine object of app/shadow/engine.py over its tables: every method updates the shared fields in place and is
    proved against the functions of ShadowTables. */
module ShadowEngine {
  import opened Basics
  import opened Shadow
  import opened ShadowTables

  class Engine {
    const config: Config
    var experiments: seq<Experiment>
    var seen: set<Key>
    var rows: seq<Row>
    var trades: seq<TradeRow>
    var risks: map<Model, Risk>
    var exits: map<(Model, string), int>
    var ids: map<Model, nat>
    ghost const since: nat

    ghost function View(): World
      reads this
    {
      World(config, Tables(experiments, seen, rows, trades), Memory(risks, exits, ids, since))
    }

    /** A new process over the tables on file. */
    constructor (config: Config, tables: Tables)
      ensures View() == World(config, tables, Memory(map[], map[], map[], |tables.trades|)) && this.config == config
    {
      this.config := config;
      experiments, seen, rows, trades := tables.experiments, tables.seen, tables.rows, tables.trades;
      risks, exits, ids := map[], map[], map[];
      since := |tables.trades|;
    }

    method FindActive(m: Model) returns (i: nat)
      ensures i == ActiveOf(experiments, m)
    {
      i := 0;
      while i < |experiments| && !(experiments[i].model == m && experiments[i].active)
        invariant i <= |experiments|
        invariant ActiveOf(experiments, m) == i + ActiveOf(experiments[i..], m)
      {
        i := i + 1;
      }
    }

    method FindOpen(m: Model, symbol: string) returns (i: nat)
      ensures i == OpenRow(rows, m, symbol)
    {
      i := 0;
      while i < |rows| && !(rows[i].model == m && rows[i].position.open && rows[i].position.symbol == symbol)
        invariant i <= |rows|
        invariant OpenRow(rows, m, symbol) == i + OpenRow(rows[i..], m, symbol)
      {
        i := i + 1;
      }
    }

    method SumOpenNotional(m: Model) returns (total: real)
      ensures total == OpenExposure(rows, m)
    {
      total := 0.0;
      for i := 0 to |rows|
        invariant total == OpenExposure(rows[..i], m)
      {
        assert rows[..i + 1][..i] == rows[..i];
        if rows[i].model == m && rows[i].position.open {
          total := total + rows[i].position.notional;
        }
      }
      assert rows[..|rows|] == rows;
    }

    /** experiment_id: continue, or end and start anew. */
    method ExperimentId(m: Model) returns (id: nat)
      modifies `experiments, `ids
      ensures View() == Resolved(old(View()), m) && m in ids && id == ids[m]
    {
      if m in ids {
        return ids[m];
      }
      var active := FindActive(m);
      if active < |experiments| {
        if experiments[active].config == config {
          ids := ids[m := active];
          return active;
        }
        experiments := experiments[active := experiments[active].(active := false)];
      }
      id := |experiments|;
      experiments := experiments + [Experiment(m, config, true)];
      ids := ids[m := id];
    }

    /** _register_close: the trade, unless its key is on file, then the row, then daily loss and cooldown. */
    method RegisterClose(m: Model, i: nat, exitReference: real, reason: Reason, time: int)
      requires i < |rows|
      modifies `rows, `trades, `risks
      ensures View() == RowClosed(old(View()), m, i, exitReference, reason, time)
    {
      var t := TradeOf(rows[i].position, exitReference, reason, time, config.limits);
      var onFile := exists u <- trades :: SameKey(u.trade, t);
      if !onFile {
        trades := trades + [TradeRow(m, t)];
      }
      rows := rows[i := rows[i].(position := rows[i].position.(open := false))];
      var risk := if m in risks then risks[m] else CALM;
      if t.net < 0.0 {
        var day := time / MINUTES_PER_DAY;
        risk := risk.(dailyLoss := risk.dailyLoss[day := LossOn(risk, day) + -t.net],
                      consecutiveLosses := risk.consecutiveLosses + 1);
        if risk.consecutiveLosses >= config.limits.cooldownAfterLosses {
          risk := risk.(cooldownUntil := Some(time + config.limits.cooldownMinutes), consecutiveLosses := 0);
        }
      } else {
        risk := risk.(consecutiveLosses := 0);
      }
      risks := risks[m := risk];
    }

    method CandleFor(m: Model, symbol: string, high: real, low: real, time: int)
      modifies `rows, `trades, `risks, `exits
      ensures View() == ShadowTables.CandleFor(old(View()), m, symbol, high, low, time)
    {
      var i := FindOpen(m, symbol);
      if i == |rows| {
        return;
      }
      var p := rows[i].position;
      if time <= p.openedAt {
        return;
      }
      var stop := if p.side.Buy? then low <= p.stopLoss else high >= p.stopLoss;
      var target := if p.side.Buy? then high >= p.takeProfit else low <= p.takeProfit;
      if stop || target {
        RegisterClose(m, i, if stop then p.stopLoss else p.takeProfit, if stop then StopLoss else TakeProfit, time);
        exits := exits[(m, symbol) := time];
      }
    }

    /** Stop and target of every model's position, model by model. */
    method OnOperationalCandle(symbol: string, high: real, low: real, time: int)
      modifies `rows, `trades, `risks, `exits
      ensures View() == Processed(old(View()), MODELS, Candle(symbol, high, low, time))
    {
      for n := 0 to |MODELS|
        invariant View() == Processed(old(View()), MODELS[..n], Candle(symbol, high, low, time))
      {
        assert MODELS[..n + 1][..n] == MODELS[..n];
        CandleFor(MODELS[n], symbol, high, low, time);
      }
      assert MODELS[..|MODELS|] == MODELS;
    }

    /** An actionable opportunity, model by model: experiment, repetition, decision. */
    method OnStrategySignal(s: Signal)
      modifies `experiments, `ids, `seen, `rows, `trades, `risks
      ensures View() == Processed(old(View()), MODELS, Given(s))
    {
      for n := 0 to |MODELS|
        invariant View() == Processed(old(View()), MODELS[..n], Given(s))
      {
        assert MODELS[..n + 1][..n] == MODELS[..n];
        SignalFor(MODELS[n], s);
      }
      assert MODELS[..|MODELS|] == MODELS;
    }

    method SignalFor(m: Model, s: Signal)
      modifies `experiments, `ids, `seen, `rows, `trades, `risks
      ensures View() == ShadowTables.SignalFor(old(View()), m, s)
    {
      if !Actionable(s) {
        return;
      }
      var id := ExperimentId(m);
      if (id, s.symbol, s.sourceTime) !in seen {
        seen := seen + {(id, s.symbol, s.sourceTime)};
        Decide(m, s, id);
      }
    }

    /** _decide and _open: an exit of the same tick blocks, an opposite signal only closes, an admitted entry takes
        its room. */
    method Decide(m: Model, s: Signal, id: nat)
      requires Actionable(s)
      modifies `rows, `trades, `risks
      ensures View() == DecidedFor(old(View()), m, s, id)
    {
      if s.tickTime.Some? && (m, s.symbol) in exits && exits[(m, s.symbol)] == s.tickTime.value {
        return;
      }
      var i := FindOpen(m, s.symbol);
      if i < |rows| {
        if rows[i].position.side != s.direction.value {
          RegisterClose(m, i, s.reference, OppositeSignal, s.sourceTime);
        }
        return;
      }
      var exposure := SumOpenNotional(m);
      if Admitted(if m in risks then risks[m] else CALM, exposure, s, m.Threshold(), config.limits) {
        rows := rows + [Row(m, NewPosition(id, Room(exposure, config.limits), s, s.direction.value, config.limits))];
      }
    }
  }
}
