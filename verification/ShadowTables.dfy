/** The counterfactual engine of app/shadow/engine.py as it really stores things: one set of tables for both models,
    rows told apart by a model column and an experiment id, and one process memory. */
module ShadowTables {
  import opened Basics
  import opened Shadow

  datatype Model = Baseline | H2 {
    function Threshold(): Option<real> {
      if H2? then Some(H2_MIN_SEPARATION) else None
    }
  }

  /** The models in the order in which every event is worked through. */
  const MODELS: seq<Model> := [Baseline, H2]

  /** An experiment's id is its place in the table, as the database numbers rows. */
  datatype Experiment = Experiment(model: Model, config: Config, active: bool)

  datatype Row = Row(model: Model, position: Position)

  datatype TradeRow = TradeRow(model: Model, trade: Trade)

  datatype Tables = Tables(experiments: seq<Experiment>, seen: set<Key>, rows: seq<Row>, trades: seq<TradeRow>)

  /** Process memory: risk state by model, the last exits by model and symbol, and the resolved experiment ids;
      `since` is the number of trades on file when the process started. */
  datatype Memory = Memory(risks: map<Model, Risk>, exits: map<(Model, string), int>, ids: map<Model, nat>, since: nat)

  datatype World = World(config: Config, tables: Tables, memory: Memory)

  function Empty(config: Config): World {
    World(config, Tables([], {}, [], []), Memory(map[], map[], map[], 0))
  }

  // ---- the queries ----

  /** The first open row of a model and symbol, or the number of rows. */
  function OpenRow(rows: seq<Row>, m: Model, symbol: string): (i: nat)
    ensures i <= |rows|
    ensures i < |rows| ==> rows[i].model == m && rows[i].position.open && rows[i].position.symbol == symbol
  {
    if rows == [] then 0
    else if rows[0].model == m && rows[0].position.open && rows[0].position.symbol == symbol then 0
    else 1 + OpenRow(rows[1..], m, symbol)
  }

  function OpenExposure(rows: seq<Row>, m: Model): real {
    Sum(rows, (r: Row) => if r.model == m && r.position.open then r.position.notional else 0.0)
  }

  /** The first active experiment of a model, or the number of experiments. */
  function ActiveOf(es: seq<Experiment>, m: Model): (i: nat)
    ensures i <= |es|
    ensures i < |es| ==> es[i].model == m && es[i].active
    ensures forall j :: 0 <= j < i ==> !(es[j].model == m && es[j].active)
  {
    if es == [] then 0
    else if es[0].model == m && es[0].active then 0
    else 1 + ActiveOf(es[1..], m)
  }

  function RiskOf(mem: Memory, m: Model): Risk {
    if m in mem.risks then mem.risks[m] else CALM
  }

  function ExitAt(mem: Memory, m: Model, symbol: string): Option<int> {
    if (m, symbol) in mem.exits then Some(mem.exits[(m, symbol)]) else None
  }

  // ---- one model's part of an event ----

  function Ended(es: seq<Experiment>, i: nat): seq<Experiment>
    requires i <= |es|
  {
    if i < |es| then es[i := es[i].(active := false)] else es
  }

  /** experiment_id: the id in memory, the active experiment of the same configuration, or a new one that ends it. */
  function Resolved(w: World, m: Model): World {
    var es := w.tables.experiments;
    var active := ActiveOf(es, m);
    if m in w.memory.ids then w
    else if active < |es| && es[active].config == w.config then w.(memory := w.memory.(ids := w.memory.ids[m := active]))
    else
      w.(tables := w.tables.(experiments := Ended(es, active) + [Experiment(m, w.config, true)]),
         memory := w.memory.(ids := w.memory.ids[m := |es|]))
  }

  function RecordedRow(trades: seq<TradeRow>, m: Model, t: Trade): seq<TradeRow> {
    if exists u <- trades :: SameKey(u.trade, t) then trades else trades + [TradeRow(m, t)]
  }

  /** Row i closed with the given result. */
  function RowSettled(w: World, m: Model, i: nat, t: Trade): World
    requires i < |w.tables.rows|
  {
    var row := w.tables.rows[i];
    w.(tables := w.tables.(rows := w.tables.rows[i := row.(position := row.position.(open := false))],
                           trades := RecordedRow(w.tables.trades, m, t)),
       memory := w.memory.(risks := w.memory.risks[m := Registered(RiskOf(w.memory, m), t.net, t.closedAt, w.config.limits)]))
  }

  /** _register_close for row i. */
  function RowClosed(w: World, m: Model, i: nat, exitReference: real, reason: Reason, time: int): World
    requires i < |w.tables.rows|
  {
    RowSettled(w, m, i, TradeOf(w.tables.rows[i].position, exitReference, reason, time, w.config.limits))
  }

  function ExitMarked(w: World, m: Model, symbol: string, time: int): World {
    w.(memory := w.memory.(exits := w.memory.exits[(m, symbol) := time]))
  }

  function CandleFor(w: World, m: Model, symbol: string, high: real, low: real, time: int): World {
    var rows := w.tables.rows;
    var i := OpenRow(rows, m, symbol);
    if i == |rows| then w
    else
      match Hit(rows[i].position, high, low, time)
      case None => w
      case Some(reason) =>
        ExitMarked(RowClosed(w, m, i, TriggerPrice(rows[i].position, reason), reason, time), m, symbol, time)
  }

  function RowOpened(w: World, m: Model, p: Position): World {
    w.(tables := w.tables.(rows := w.tables.rows + [Row(m, p)]))
  }

  function Noted(w: World, key: Key): World {
    w.(tables := w.tables.(seen := w.tables.seen + {key}))
  }

  function DecidedFor(w: World, m: Model, s: Signal, experiment: nat): World
    requires Actionable(s)
  {
    var rows := w.tables.rows;
    var i := OpenRow(rows, m, s.symbol);
    if ExitedThisTick(ExitAt(w.memory, m, s.symbol), s) then w
    else if i < |rows| then
      if rows[i].position.side != s.direction.value then RowClosed(w, m, i, s.reference, OppositeSignal, s.sourceTime) else w
    else if Admitted(RiskOf(w.memory, m), OpenExposure(rows, m), s, m.Threshold(), w.config.limits) then
      var usd := Room(OpenExposure(rows, m), w.config.limits);
      RowOpened(w, m, NewPosition(experiment, usd, s, s.direction.value, w.config.limits))
    else w
  }

  function SignalFor(w: World, m: Model, s: Signal): World {
    if !Actionable(s) then w
    else
      var r := Resolved(w, m);
      var key := (r.memory.ids[m], s.symbol, s.sourceTime);
      if key in r.tables.seen then r else DecidedFor(Noted(r, key), m, s, key.0)
  }

  function EventFor(w: World, m: Model, ev: Event): World {
    match ev
    case Candle(symbol, high, low, time) => CandleFor(w, m, symbol, high, low, time)
    case Given(s) => SignalFor(w, m, s)
  }

  /** An event worked through model by model. */
  function Processed(w: World, models: seq<Model>, ev: Event): World {
    if models == [] then w else EventFor(Processed(w, models[..|models| - 1], ev), models[|models| - 1], ev)
  }

  // ---- one model's view of the shared tables ----

  /** The configurations of one model's experiments, in the order of their ids. */
  function Configs(es: seq<Experiment>, m: Model): seq<Config> {
    if es == [] then []
    else
      var n := |es| - 1;
      if es[n].model == m then Configs(es[..n], m) + [es[n].config] else Configs(es[..n], m)
  }

  /** How many experiments of a model come before id e. */
  function Rank(es: seq<Experiment>, e: nat, m: Model): nat {
    |Configs(if e <= |es| then es[..e] else es, m)|
  }

  function Mine(p: Position, es: seq<Experiment>, m: Model): Position {
    p.(experiment := Rank(es, p.experiment, m))
  }

  /** The position rows with the model's name, their experiments counted within the model. */
  function PositionsOf(rows: seq<Row>, es: seq<Experiment>, m: Model): seq<Position> {
    if rows == [] then []
    else if rows[0].model == m then [Mine(rows[0].position, es, m)] + PositionsOf(rows[1..], es, m)
    else PositionsOf(rows[1..], es, m)
  }

  function MyTrade(t: Trade, es: seq<Experiment>, m: Model): Trade {
    t.(experiment := Rank(es, t.experiment, m))
  }

  function TradesOf(trades: seq<TradeRow>, es: seq<Experiment>, m: Model): seq<Trade> {
    if trades == [] then []
    else
      var n := |trades| - 1;
      if trades[n].model == m then TradesOf(trades[..n], es, m) + [MyTrade(trades[n].trade, es, m)]
      else TradesOf(trades[..n], es, m)
  }

  predicate Owns(es: seq<Experiment>, e: nat, m: Model) {
    e < |es| && es[e].model == m
  }

  function MyKey(key: Key, es: seq<Experiment>, m: Model): Key {
    (Rank(es, key.0, m), key.1, key.2)
  }

  function SeenOf(seen: set<Key>, es: seq<Experiment>, m: Model): set<Key> {
    set key | key in seen && Owns(es, key.0, m) :: MyKey(key, es, m)
  }

  function ExitsOf(exits: map<(Model, string), int>, m: Model): map<string, int> {
    map symbol | symbol in (set k | k in exits && k.0 == m :: k.1) :: exits[(m, symbol)]
  }

  /** One model's portfolio, filtered out of the shared tables and memory. */
  function Projected(w: World, m: Model): Portfolio {
    var t := w.tables;
    Portfolio(w.config, Configs(t.experiments, m), PositionsOf(t.rows, t.experiments, m), TradesOf(t.trades, t.experiments, m),
              SeenOf(t.seen, t.experiments, m), RiskOf(w.memory, m), ExitsOf(w.memory.exits, m),
              |TradesOf(if w.memory.since <= |t.trades| then t.trades[..w.memory.since] else t.trades, t.experiments, m)|)
  }

  ghost predicate AllEnded(es: seq<Experiment>, m: Model) {
    forall e <- es :: e.model == m ==> !e.active
  }

  /** A model's active experiment is its newest one, and no other. */
  ghost predicate NewestIsActive(es: seq<Experiment>, m: Model) {
    es == [] ||
    var n := |es| - 1;
    if es[n].model == m then es[n].active && AllEnded(es[..n], m) else NewestIsActive(es[..n], m)
  }

  ghost predicate Owned(t: Tables) {
    && (forall r <- t.rows :: Owns(t.experiments, r.position.experiment, r.model))
    && (forall r <- t.trades :: Owns(t.experiments, r.trade.experiment, r.model))
    && (forall key <- t.seen :: key.0 < |t.experiments|)
  }

  /** Every row belongs to an experiment of its own model, and every id in memory is that of the active experiment of
      the current configuration. */
  ghost predicate Clean(w: World) {
    && Owned(w.tables) && w.memory.since <= |w.tables.trades|
    && (forall m :: NewestIsActive(w.tables.experiments, m))
    && forall m :: m in w.memory.ids ==> Current(w.tables.experiments, w.memory.ids[m], m, w.config)
  }

  /** Experiment e is the model's active one and has the given configuration. */
  predicate Current(es: seq<Experiment>, e: nat, m: Model, config: Config) {
    Owns(es, e, m) && es[e].active && es[e].config == config
  }
}
