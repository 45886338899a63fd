/** Whole runs of the counterfactual engine on shared tables: committed events, events whose SAVEPOINT is rolled back
    while the process lives on (app/orchestrator.py, _run_shadow), and restarts, perhaps with another configuration.
    */
module ShadowRun {
  import opened Basics
  import opened Shadow
  import opened ShadowTables
  import opened ShadowProjection

  /** How many models had been worked through when an exception struck. */
  type Reach = n: nat | n <= 2

  /** A rolled-back event leaves the tables as they were. The process memory keeps what the first `reach` models did,
      and where the next one had already looked up its experiment, the id it found. */
  datatype Step =
    | Committed(ev: Event)
    | RolledBack(ev: Event, reach: Reach, resolved: bool)
    | Restarted(config: Config)

  /** The models whose memory an exception leaves changed. */
  function Reached(reach: Reach): seq<Model> {
    MODELS[..reach]
  }

  /** An event for which experiments are looked up. */
  predicate Resolves(ev: Event) {
    ev.Given? && Actionable(ev.signal)
  }

  function Left(w: World, ev: Event, reach: Reach, resolved: bool): Memory {
    var through := Processed(w, Reached(reach), ev);
    if resolved && reach < |MODELS| && Resolves(ev) then Resolved(through, MODELS[reach]).memory else through.memory
  }

  function Next(w: World, step: Step): World {
    match step
    case Committed(ev) => Processed(w, MODELS, ev)
    case RolledBack(ev, reach, resolved) => w.(memory := Left(w, ev, reach, resolved))
    case Restarted(config) => World(config, w.tables, Memory(map[], map[], map[], |w.tables.trades|))
  }

  function RunFrom(w: World, steps: seq<Step>): World {
    if steps == [] then w else Next(RunFrom(w, steps[..|steps| - 1]), steps[|steps| - 1])
  }

  /** One model alone, to which a rolled-back event is one that never came. */
  function NextAlone(pf: Portfolio, step: Step, m: Model): Portfolio {
    match step
    case Committed(ev) => After(pf, ev, m.Threshold())
    case RolledBack(_, _, _) => pf
    case Restarted(config) => AfterRestart(pf, config)
  }

  function Alone(pf: Portfolio, steps: seq<Step>, m: Model): Portfolio {
    if steps == [] then pf else NextAlone(Alone(pf, steps[..|steps| - 1], m), steps[|steps| - 1], m)
  }

  // ---- committed events and restarts ----

  lemma {:induction false} ReachedOneMore(reach: Reach, k: Model)
    requires reach > 0
    ensures Reached(reach)[..reach - 1] == Reached(reach - 1) && Reached(reach)[reach - 1] == MODELS[reach - 1]
    ensures k in Reached(reach) <==> k in Reached(reach - 1) || k == MODELS[reach - 1]
    ensures MODELS[reach - 1] !in Reached(reach - 1)
  {
  }

  lemma {:induction false} WorkedStaysClean(w: World, reach: Reach, ev: Event)
    requires Clean(w)
    ensures Clean(Processed(w, Reached(reach), ev))
    decreases reach
  {
    if reach == 0 {
    } else {
      ReachedOneMore(reach, Baseline);
      WorkedStaysClean(w, reach - 1, ev);
      EventIsMine(Processed(w, Reached(reach - 1), ev), MODELS[reach - 1], ev, Baseline);
    }
  }

  lemma {:induction false} WorkedIsMine(w: World, reach: Reach, ev: Event, k: Model)
    requires Clean(w)
    ensures Projected(Processed(w, Reached(reach), ev), k) ==
      if k in Reached(reach) then After(Projected(w, k), ev, k.Threshold()) else Projected(w, k)
    decreases reach
  {
    if reach == 0 {
    } else {
      ReachedOneMore(reach, k);
      WorkedStaysClean(w, reach - 1, ev);
      WorkedIsMine(w, reach - 1, ev, k);
      var before, m := Processed(w, Reached(reach - 1), ev), MODELS[reach - 1];
      EventIsMine(before, m, ev, k);
      assert Processed(w, Reached(reach), ev) == EventFor(before, m, ev);
    }
  }

  lemma {:induction false} CommittedIsMine(w: World, ev: Event, k: Model)
    requires Clean(w)
    ensures Clean(Next(w, Committed(ev)))
    ensures Projected(Next(w, Committed(ev)), k) == After(Projected(w, k), ev, k.Threshold())
  {
    WorkedStaysClean(w, |MODELS|, ev);
    WorkedIsMine(w, |MODELS|, ev, k);
    assert Reached(|MODELS|) == MODELS;
    assert MODELS[0] == Baseline && MODELS[1] == H2;
  }

  lemma {:induction false} RestartIsMine(w: World, config: Config, k: Model)
    requires Clean(w)
    ensures Clean(Next(w, Restarted(config)))
    ensures Projected(Next(w, Restarted(config)), k) == AfterRestart(Projected(w, k), config)
  {
    assert w.tables.trades[..|w.tables.trades|] == w.tables.trades;
    assert ExitsOf(map[], k) == map[];
  }

  // ---- exactly when a rolled-back event does no harm ----

  /** The net result of the position a decision would close, if it would close one. */
  function DecidingNet(pf: Portfolio, s: Signal): Option<real>
    requires Actionable(s)
  {
    var i := OpenAt(pf.positions, s.symbol);
    if ExitedThisTick(ExitOf(pf, s.symbol), s) || i == |pf.positions| || pf.positions[i].side == s.direction.value then None
    else Some(TradeOf(pf.positions[i], s.reference, OppositeSignal, s.sourceTime, pf.config.limits).net)
  }

  /** The net result of the position an event would close, if it would close one. */
  function ClosingNet(pf: Portfolio, ev: Event): Option<real> {
    match ev
    case Candle(symbol, high, low, time) =>
      var i := OpenAt(pf.positions, symbol);
      if i == |pf.positions| then None
      else
        var hit := Hit(pf.positions[i], high, low, time);
        if hit.None? then None
        else Some(TradeOf(pf.positions[i], TriggerPrice(pf.positions[i], hit.value), hit.value, time, pf.config.limits).net)
    case Given(s) =>
      var r := WithExperiment(pf);
      if !Actionable(s) || (|r.experiments| - 1, s.symbol, s.sourceTime) in r.seen then None else DecidingNet(pf, s)
  }

  /** The event closes nothing whose result would move daily loss, streak or cooldown. */
  predicate MovesNoRisk(pf: Portfolio, ev: Event) {
    match ClosingNet(pf, ev)
    case None => true
    case Some(net) => net >= 0.0 && pf.risk.consecutiveLosses == 0
  }

  /** Nor does it mark an exit that was not marked. */
  predicate Forgettable(pf: Portfolio, ev: Event) {
    MovesNoRisk(pf, ev) && (ev.Candle? && ClosingNet(pf, ev).Some? ==> ExitOf(pf, ev.symbol) == Some(ev.time))
  }

  /** The model's newest experiment is one of the current configuration, so that none is written for it. */
  predicate Continuing(pf: Portfolio) {
    pf.experiments != [] && pf.experiments[|pf.experiments| - 1] == pf.config
  }

  lemma {:induction false} RegisteringMovesRisk(risk: Risk, net: real, time: int, lim: Limits)
    ensures Registered(risk, net, time, lim) == risk <==> net >= 0.0 && risk.consecutiveLosses == 0
  {
    if net < 0.0 {
      var day := time / MINUTES_PER_DAY;
      assert Registered(risk, net, time, lim).dailyLoss[day] == LossOn(risk, day) - net;
    }
  }

  lemma {:induction false} CandleMemory(pf: Portfolio, ev: Event, threshold: Option<real>)
    requires ev.Candle?
    ensures var after := After(pf, ev, threshold);
      && (after.risk == pf.risk <==> MovesNoRisk(pf, ev))
      && (after.exits == pf.exits <==> (ClosingNet(pf, ev).Some? ==> ExitOf(pf, ev.symbol) == Some(ev.time)))
  {
    var i := OpenAt(pf.positions, ev.symbol);
    if i < |pf.positions| {
      match Hit(pf.positions[i], ev.high, ev.low, ev.time)
      case None =>
      case Some(reason) =>
        RegisteringMovesRisk(pf.risk, ClosingNet(pf, ev).value, ev.time, pf.config.limits);
        assert After(pf, ev, threshold).exits == pf.exits[ev.symbol := ev.time];
        assert pf.exits[ev.symbol := ev.time] == pf.exits <==> ExitOf(pf, ev.symbol) == Some(ev.time) by {
          assert pf.exits[ev.symbol := ev.time][ev.symbol] == ev.time;
        }
    }
  }

  lemma {:induction false} DecidedMemory(pf: Portfolio, s: Signal, threshold: Option<real>, experiment: nat)
    requires Actionable(s)
    ensures var (net, after) := (DecidingNet(pf, s), Decided(pf, s, threshold, experiment));
      && after.exits == pf.exits
      && (after.risk == pf.risk <==> (net.Some? ==> net.value >= 0.0 && pf.risk.consecutiveLosses == 0))
  {
    var net := DecidingNet(pf, s);
    if net.Some? {
      RegisteringMovesRisk(pf.risk, net.value, s.sourceTime, pf.config.limits);
    }
  }

  lemma {:induction false} NewSignalMemory(pf: Portfolio, s: Signal, threshold: Option<real>, key: Key)
    requires Actionable(s)
    ensures var after := Decided(WithExperiment(pf).(seen := WithExperiment(pf).seen + {key}), s, threshold, key.0);
      && after.exits == pf.exits
      && (after.risk == pf.risk <==> (DecidingNet(pf, s).Some? ==>
        DecidingNet(pf, s).value >= 0.0 && pf.risk.consecutiveLosses == 0))
  {
    var noted := WithExperiment(pf).(seen := WithExperiment(pf).seen + {key});
    DecidedMemory(noted, s, threshold, key.0);
    assert DecidingNet(noted, s) == DecidingNet(pf, s);
  }

  lemma {:induction false} SignalMemory(pf: Portfolio, ev: Event, threshold: Option<real>)
    requires ev.Given?
    ensures var after := After(pf, ev, threshold);
      (after.risk == pf.risk <==> MovesNoRisk(pf, ev)) && after.exits == pf.exits
  {
    var s := ev.signal;
    if Actionable(s) {
      NewSignalMemory(pf, s, threshold, (|WithExperiment(pf).experiments| - 1, s.symbol, s.sourceTime));
    }
  }

  /** What an event does to one model's memory, whatever it does to the tables. */
  lemma {:induction false} MemoryMovesExactlyWhen(pf: Portfolio, ev: Event, threshold: Option<real>)
    ensures var after := After(pf, ev, threshold);
      && (after.risk == pf.risk <==> MovesNoRisk(pf, ev))
      && (after.risk == pf.risk && after.exits == pf.exits <==> Forgettable(pf, ev))
  {
    if ev.Candle? {
      CandleMemory(pf, ev, threshold);
    } else {
      SignalMemory(pf, ev, threshold);
    }
  }

  /** Looking an experiment up leaves risk, exits and the start of the process alone. */
  lemma {:induction false} LookingUpKeepsTheRest(w: World, m: Model)
    ensures var (before, after) := (w.memory, Resolved(w, m).memory);
      after.risks == before.risks && after.exits == before.exits && after.since == before.since
  {
  }

  lemma {:induction false} DecidingKeepsIds(w: World, m: Model, s: Signal, experiment: nat)
    requires Actionable(s)
    ensures var after := DecidedFor(w, m, s, experiment);
      && after.memory.ids == w.memory.ids && after.memory.since == w.memory.since
      && after.tables.experiments == w.tables.experiments && after.config == w.config
  {
  }

  /** The only thing one model's part of an event does to experiments is to look its own up. */
  lemma {:induction false} EventsOnlyResolve(w: World, m: Model, ev: Event)
    ensures var (after, r) := (EventFor(w, m, ev), if Resolves(ev) then Resolved(w, m) else w);
      && after.memory.ids == r.memory.ids && after.tables.experiments == r.tables.experiments
      && after.memory.since == w.memory.since && after.config == w.config
  {
    if Resolves(ev) {
      var r := Resolved(w, m);
      var key := (r.memory.ids[m], ev.signal.symbol, ev.signal.sourceTime);
      DecidingKeepsIds(Noted(r, key), m, ev.signal, key.0);
    }
  }

  lemma {:induction false} SinceIsKept(w: World, reach: Reach, ev: Event)
    ensures var after := Processed(w, Reached(reach), ev);
      after.memory.since == w.memory.since && after.config == w.config
    decreases reach
  {
    if reach == 0 {
    } else {
      ReachedOneMore(reach, Baseline);
      SinceIsKept(w, reach - 1, ev);
      EventsOnlyResolve(Processed(w, Reached(reach - 1), ev), MODELS[reach - 1], ev);
    }
  }

  lemma {:induction false} LeftMemory(w: World, ev: Event, reach: Reach, resolved: bool, k: Model)
    ensures var (left, through) := (Left(w, ev, reach, resolved), Processed(w, Reached(reach), ev));
      && RiskOf(left, k) == Projected(through, k).risk && ExitsOf(left.exits, k) == Projected(through, k).exits
      && left.since == w.memory.since
  {
    SinceIsKept(w, reach, ev);
    if reach < |MODELS| {
      LookingUpKeepsTheRest(Processed(w, Reached(reach), ev), MODELS[reach]);
    }
  }

  /** A model's view after a rolled-back event: its rows, with the memory of what was undone. */
  lemma {:induction false} RolledBackView(w: World, ev: Event, reach: Reach, resolved: bool, k: Model)
    requires Clean(w)
    ensures var (before, undone) := (Projected(w, k), After(Projected(w, k), ev, k.Threshold()));
      Projected(Next(w, RolledBack(ev, reach, resolved)), k) ==
      if k in Reached(reach) then before.(risk := undone.risk, exits := undone.exits) else before
  {
    WorkedIsMine(w, reach, ev, k);
    LeftMemory(w, ev, reach, resolved, k);
  }

  // ---- experiments written and forgotten ----

  lemma {:induction false} LookedUpExactlyWhen(w: World, m: Model)
    requires Clean(w)
    ensures var r := Resolved(w, m);
      && m in r.memory.ids
      && (Continuing(Projected(w, m)) ==> r.tables == w.tables && r.memory.ids[m] < |w.tables.experiments|)
      && (!Continuing(Projected(w, m)) ==> r.memory.ids[m] == |w.tables.experiments|)
  {
    var es := w.tables.experiments;
    NewestOf(es, m);
    if m in w.memory.ids {
      OneActive(es, m, w.memory.ids[m]);
    }
  }

  /** The ids the memory keeps: those of the models looked up, one after the other. */
  function LookedUpIn(w: World, n: Reach): World {
    if n == 0 then w else Resolved(LookedUpIn(w, n - 1), MODELS[n - 1])
  }

  lemma {:induction false} SameLookup(w: World, v: World, m: Model)
    requires w.tables.experiments == v.tables.experiments && w.memory.ids == v.memory.ids && w.config == v.config
    ensures Resolved(w, m).tables.experiments == Resolved(v, m).tables.experiments
    ensures Resolved(w, m).memory.ids == Resolved(v, m).memory.ids && Resolved(w, m).config == Resolved(v, m).config
  {
  }

  lemma {:induction false} WorkedLookups(w: World, n: Reach, ev: Event)
    requires Resolves(ev)
    ensures var (through, looked) := (Processed(w, Reached(n), ev), LookedUpIn(w, n));
      && through.tables.experiments == looked.tables.experiments && through.memory.ids == looked.memory.ids
      && through.config == looked.config
    decreases n
  {
    if n == 0 {
    } else {
      ReachedOneMore(n, Baseline);
      WorkedLookups(w, n - 1, ev);
      var through := Processed(w, Reached(n - 1), ev);
      EventsOnlyResolve(through, MODELS[n - 1], ev);
      SameLookup(through, LookedUpIn(w, n - 1), MODELS[n - 1]);
    }
  }

  lemma {:induction false} LookedUpStaysClean(w: World, n: Reach, k: Model)
    requires Clean(w)
    ensures Clean(LookedUpIn(w, n)) && LookedUpIn(w, n).config == w.config
    ensures k !in Reached(n) ==> Projected(LookedUpIn(w, n), k) == Projected(w, k)
    decreases n
  {
    if n == 0 {
    } else {
      ReachedOneMore(n, k);
      LookedUpStaysClean(w, n - 1, k);
      ResolvingStaysClean(LookedUpIn(w, n - 1), MODELS[n - 1]);
      ResolvingIsMine(LookedUpIn(w, n - 1), MODELS[n - 1], k);
    }
  }

  /** None of the first n models needs a new experiment. */
  predicate AllContinue(w: World, n: Reach) {
    n == 0 || (AllContinue(w, n - 1) && Continuing(Projected(w, MODELS[n - 1])))
  }

  /** An id in memory that no experiment on file has. */
  ghost predicate HoldsPhantom(ids: map<Model, nat>, es: seq<Experiment>) {
    exists m :: m in ids && ids[m] >= |es|
  }

  lemma {:induction false} PhantomsStay(w: World, m: Model, es: seq<Experiment>)
    requires HoldsPhantom(w.memory.ids, es)
    ensures HoldsPhantom(Resolved(w, m).memory.ids, es)
  {
    var k :| k in w.memory.ids && w.memory.ids[k] >= |es|;
    assert k in Resolved(w, m).memory.ids && Resolved(w, m).memory.ids[k] == w.memory.ids[k];
  }

  lemma {:induction false} NothingIsUnwritten(w: World, m: Model)
    ensures |Resolved(w, m).tables.experiments| >= |w.tables.experiments|
  {
  }

  lemma {:induction false} FilesOnlyGrow(w: World, n: Reach)
    ensures |LookedUpIn(w, n).tables.experiments| >= |w.tables.experiments|
    decreases n
  {
    if n == 0 {
    } else {
      FilesOnlyGrow(w, n - 1);
      NothingIsUnwritten(LookedUpIn(w, n - 1), MODELS[n - 1]);
    }
  }

  lemma {:induction false} ViewBeforeItsLookup(w: World, n: Reach)
    requires Clean(w) && n > 0
    ensures Clean(LookedUpIn(w, n - 1))
    ensures Projected(LookedUpIn(w, n - 1), MODELS[n - 1]) == Projected(w, MODELS[n - 1])
  {
    ReachedOneMore(n, MODELS[n - 1]);
    LookedUpStaysClean(w, n - 1, MODELS[n - 1]);
  }

  lemma {:induction false} ContinuingWritesNothing(w: World, n: Reach)
    requires Clean(w) && AllContinue(w, n)
    ensures LookedUpIn(w, n).tables == w.tables
    decreases n
  {
    if n == 0 {
    } else {
      ViewBeforeItsLookup(w, n);
      ContinuingWritesNothing(w, n - 1);
      LookedUpExactlyWhen(LookedUpIn(w, n - 1), MODELS[n - 1]);
    }
  }

  lemma {:induction false} WritingLeavesAPhantom(w: World, n: Reach)
    requires Clean(w) && !AllContinue(w, n)
    ensures HoldsPhantom(LookedUpIn(w, n).memory.ids, w.tables.experiments)
    decreases n
  {
    if !AllContinue(w, n - 1) {
      WritingLeavesAPhantom(w, n - 1);
      PhantomsStay(LookedUpIn(w, n - 1), MODELS[n - 1], w.tables.experiments);
    } else {
      ViewBeforeItsLookup(w, n);
      FilesOnlyGrow(w, n - 1);
      NewlyWritten(LookedUpIn(w, n - 1), MODELS[n - 1], w.tables.experiments);
    }
  }

  lemma {:induction false} NewlyWritten(w: World, m: Model, es: seq<Experiment>)
    requires Clean(w) && !Continuing(Projected(w, m)) && |es| <= |w.tables.experiments|
    ensures HoldsPhantom(Resolved(w, m).memory.ids, es)
  {
    LookedUpExactlyWhen(w, m);
    assert Resolved(w, m).memory.ids[m] >= |es|;
  }

  /** How many models' experiments had been looked up when the exception struck. */
  function LookedUp(ev: Event, reach: Reach, resolved: bool): Reach {
    if !Resolves(ev) then 0 else if resolved && reach < 2 then reach + 1 else reach
  }

  lemma {:induction false} LeftIds(w: World, ev: Event, reach: Reach, resolved: bool)
    ensures Left(w, ev, reach, resolved).ids == LookedUpIn(w, LookedUp(ev, reach, resolved)).memory.ids
  {
    if Resolves(ev) {
      WorkedLookups(w, reach, ev);
      if resolved && reach < 2 {
        SameLookup(Processed(w, Reached(reach), ev), LookedUpIn(w, reach), MODELS[reach]);
      }
    } else {
      NoLookups(w, reach, ev);
    }
  }

  lemma {:induction false} NoLookups(w: World, n: Reach, ev: Event)
    requires !Resolves(ev)
    ensures Processed(w, Reached(n), ev).memory.ids == w.memory.ids
    decreases n
  {
    if n == 0 {
    } else {
      ReachedOneMore(n, Baseline);
      NoLookups(w, n - 1, ev);
      EventsOnlyResolve(Processed(w, Reached(n - 1), ev), MODELS[n - 1], ev);
    }
  }

  lemma {:induction false} LeftClean(w: World, left: Memory)
    requires Clean(w) && left.since == w.memory.since
    requires forall m :: m in left.ids ==> Current(w.tables.experiments, left.ids[m], m, w.config)
    ensures Clean(w.(memory := left))
  {
  }

  lemma {:induction false} PhantomsAreNotClean(w: World)
    requires HoldsPhantom(w.memory.ids, w.tables.experiments)
    ensures !Clean(w)
  {
    var m :| m in w.memory.ids && w.memory.ids[m] >= |w.tables.experiments|;
    assert !Owns(w.tables.experiments, w.memory.ids[m], m);
  }

  lemma {:induction false} CleanExactlyWhen(w: World, ev: Event, reach: Reach, resolved: bool)
    requires Clean(w)
    ensures Clean(Next(w, RolledBack(ev, reach, resolved))) <==> AllContinue(w, LookedUp(ev, reach, resolved))
  {
    var n := LookedUp(ev, reach, resolved);
    LeftIds(w, ev, reach, resolved);
    LeftMemory(w, ev, reach, resolved, Baseline);
    if AllContinue(w, n) {
      ContinuingWritesNothing(w, n);
      LookedUpStaysClean(w, n, Baseline);
      LeftClean(w, Left(w, ev, reach, resolved));
    } else {
      WritingLeavesAPhantom(w, n);
      PhantomsAreNotClean(Next(w, RolledBack(ev, reach, resolved)));
    }
  }

  /** A rolled-back SAVEPOINT in a process that lives on, exactly. The tables stay clean if and only if no experiment
      had to be written for a model looked up; a model's view is as before if and only if it was not reached or the
      event would have moved nothing in its memory; its daily loss and cooldown are still the fold over its trades if
      and only if it was not reached or the event would have closed nothing that counts. */
  lemma {:induction false} RollbackIsHarmlessExactlyWhen(w: World, ev: Event, reach: Reach, resolved: bool, m: Model)
    requires Clean(w) && Sound(Projected(w, m))
    ensures var after := Next(w, RolledBack(ev, reach, resolved));
      && after.tables == w.tables
      && (Clean(after) <==> AllContinue(w, LookedUp(ev, reach, resolved)))
      && (Projected(after, m) == Projected(w, m) <==> (m in Reached(reach) ==> Forgettable(Projected(w, m), ev)))
      && (Remembers(Projected(after, m)) <==> (m in Reached(reach) ==> MovesNoRisk(Projected(w, m), ev)))
  {
    CleanExactlyWhen(w, ev, reach, resolved);
    RolledBackView(w, ev, reach, resolved, m);
    MemoryMovesExactlyWhen(Projected(w, m), ev, m.Threshold());
  }

  // ---- whole runs ----

  ghost predicate HarmlessStep(w: World, step: Step) {
    step.RolledBack? ==>
      && AllContinue(w, LookedUp(step.ev, step.reach, step.resolved))
      && forall m <- Reached(step.reach) :: Forgettable(Projected(w, m), step.ev)
  }

  ghost predicate HarmlessRun(w: World, steps: seq<Step>) {
    steps == [] ||
    var n := |steps| - 1;
    HarmlessRun(w, steps[..n]) && HarmlessStep(RunFrom(w, steps[..n]), steps[n])
  }

  lemma {:induction false} HarmlessStepIsMine(w: World, step: Step, m: Model)
    requires Clean(w) && Sound(Projected(w, m)) && HarmlessStep(w, step)
    ensures Clean(Next(w, step)) && Projected(Next(w, step), m) == NextAlone(Projected(w, m), step, m)
    ensures Sound(NextAlone(Projected(w, m), step, m))
  {
    match step
    case Committed(ev) =>
      CommittedIsMine(w, ev, m);
      EveryEventStaysSound(Projected(w, m), ev, m.Threshold());
    case RolledBack(ev, reach, resolved) => RollbackIsHarmlessExactlyWhen(w, ev, reach, resolved, m);
    case Restarted(config) =>
      RestartIsMine(w, config, m);
      RestartForgets(Projected(w, m), config);
  }

  lemma {:induction false} EmptyView(config: Config, m: Model)
    ensures Clean(Empty(config)) && Projected(Empty(config), m) == Fresh(config) && Sound(Fresh(config))
  {
    assert ExitsOf(map[], m) == map[];
    assert SeenOf({}, [], m) == {};
  }

  /** Two portfolios on one set of tables are two portfolios run alone: on every run of committed events, restarts
      under any configurations and rolled-back events that did no harm, one model's filtered view is that model's own
      run, to which nothing rolled back ever came; and each is sound: open notional within the cap, one open position
      per symbol, daily loss and cooldown a fold over its trades since the process started. */
  lemma {:induction false} ModelsDoNotInterfere(config: Config, steps: seq<Step>, m: Model)
    requires HarmlessRun(Empty(config), steps)
    ensures var w := RunFrom(Empty(config), steps);
      Clean(w) && Projected(w, m) == Alone(Fresh(config), steps, m) && Sound(Projected(w, m))
    decreases |steps|
  {
    EmptyView(config, m);
    if steps == [] {
    } else {
      var n := |steps| - 1;
      ModelsDoNotInterfere(config, steps[..n], m);
      HarmlessStepIsMine(RunFrom(Empty(config), steps[..n]), steps[n], m);
    }
  }

  // ---- the first signal, rolled back ----

  /** The baseline holds id 0 in memory, no experiment on file has it, and the other model has it too, or will. */
  ghost predicate Starved(w: World) {
    && Baseline in w.memory.ids && w.memory.ids[Baseline] == 0
    && (if H2 in w.memory.ids then w.memory.ids[H2] == 0 else w.tables.experiments == [])
    && (forall r <- w.tables.rows :: r.model == Baseline)
    && forall r <- w.tables.trades :: r.model == Baseline
  }

  lemma {:induction false} NoRowsOfTheOther(rows: seq<Row>, symbol: string)
    requires forall r <- rows :: r.model == Baseline
    ensures OpenRow(rows, H2, symbol) == |rows|
    decreases |rows|
  {
    if rows == [] {
    } else {
      assert rows[0] in rows;
      NoRowsOfTheOther(rows[1..], symbol);
    }
  }

  lemma {:induction false} BaselineAddsItsOwn(w: World, i: nat, exitReference: real, reason: Reason, time: int)
    requires Starved(w) && i < |w.tables.rows| && w.tables.rows[i].model == Baseline
    ensures Starved(RowClosed(w, Baseline, i, exitReference, reason, time))
  {
    var rows := RowClosed(w, Baseline, i, exitReference, reason, time).tables.rows;
    forall r | r in rows
      ensures r.model == Baseline
    {
      assert r in w.tables.rows || r == rows[i];
    }
  }

  lemma {:induction false} BaselineLeavesItStarved(w: World, ev: Event)
    requires Starved(w)
    ensures var after := EventFor(w, Baseline, ev);
      && Starved(after)
      && (Resolves(ev) ==> (0, ev.signal.symbol, ev.signal.sourceTime) in after.tables.seen)
  {
    match ev
    case Candle(symbol, high, low, time) =>
      var i := OpenRow(w.tables.rows, Baseline, symbol);
      if i < |w.tables.rows| && Hit(w.tables.rows[i].position, high, low, time).Some? {
        var reason := Hit(w.tables.rows[i].position, high, low, time).value;
        BaselineAddsItsOwn(w, i, TriggerPrice(w.tables.rows[i].position, reason), reason, time);
      }
    case Given(s) =>
      if Actionable(s) {
        var noted := Noted(w, (0, s.symbol, s.sourceTime));
        var i := OpenRow(w.tables.rows, Baseline, s.symbol);
        if i < |w.tables.rows| {
          BaselineAddsItsOwn(noted, i, s.reference, OppositeSignal, s.sourceTime);
        }
      }
  }

  lemma {:induction false} TheOtherNeverActs(w: World, ev: Event)
    requires Starved(w)
    requires Resolves(ev) ==> (0, ev.signal.symbol, ev.signal.sourceTime) in w.tables.seen
    ensures var after := EventFor(w, H2, ev);
      && Starved(after) && after.tables.seen == w.tables.seen
      && after.tables.rows == w.tables.rows && after.tables.trades == w.tables.trades
  {
    if ev.Candle? {
      NoRowsOfTheOther(w.tables.rows, ev.symbol);
    }
  }

  lemma {:induction false} FirstSignalLost(config: Config, s: Signal)
    requires Actionable(s)
    ensures Starved(Next(Empty(config), RolledBack(Given(s), 1, false)))
  {
    ReachedOneMore(1, Baseline);
    EventsOnlyResolve(Empty(config), Baseline, Given(s));
    assert Processed(Empty(config), Reached(0), Given(s)) == Empty(config);
    assert Resolved(Empty(config), Baseline).memory.ids == map[Baseline := 0];
  }

  /** When the SAVEPOINT of the very first actionable signal is rolled back after the baseline's part, its experiment
      is gone but its id stays in memory, and the second model's experiment is given the same one. From then on, until
      the process restarts, every opportunity of the second model is taken for a repetition of the baseline's: on no
      continuation of committed events does it ever open or close anything. */
  lemma {:induction false} SecondModelIsStarved(config: Config, s: Signal, steps: seq<Step>)
    requires Actionable(s) && forall step <- steps :: step.Committed?
    ensures var w := RunFrom(Next(Empty(config), RolledBack(Given(s), 1, false)), steps);
      Starved(w) && Projected(w, H2).positions == [] && Projected(w, H2).trades == []
    decreases |steps|
  {
    var first := Next(Empty(config), RolledBack(Given(s), 1, false));
    FirstSignalLost(config, s);
    if steps == [] {
    } else {
      var n := |steps| - 1;
      SecondModelIsStarved(config, s, steps[..n]);
      assert steps[n] in steps;
      StarvedStep(RunFrom(first, steps[..n]), steps[n].ev);
    }
    var w := RunFrom(first, steps);
    NothingToProject(w.tables.rows, w.tables.trades, w.tables.experiments);
  }

  lemma {:induction false} StarvedStep(w: World, ev: Event)
    requires Starved(w)
    ensures Starved(Next(w, Committed(ev)))
  {
    BothInTurn(w, ev);
    BaselineLeavesItStarved(w, ev);
    TheOtherNeverActs(EventFor(w, Baseline, ev), ev);
  }

  lemma {:induction false} BothInTurn(w: World, ev: Event)
    ensures Next(w, Committed(ev)) == EventFor(EventFor(w, Baseline, ev), H2, ev)
  {
    assert MODELS[..1] == [Baseline] && MODELS[1] == H2;
    assert [Baseline][..0] == [];
    assert Processed(w, [], ev) == w;
    assert Processed(w, [Baseline], ev) == EventFor(w, Baseline, ev);
  }

  lemma {:induction false} NothingToProject(rows: seq<Row>, trades: seq<TradeRow>, es: seq<Experiment>)
    requires (forall r <- rows :: r.model == Baseline) && forall r <- trades :: r.model == Baseline
    ensures PositionsOf(rows, es, H2) == [] && TradesOf(trades, es, H2) == []
    decreases |rows| + |trades|
  {
    if rows != [] {
      assert rows[0] in rows;
      NothingToProject(rows[1..], trades, es);
    } else if trades != [] {
      assert trades[|trades| - 1] in trades;
      NothingToProject(rows, trades[..|trades| - 1], es);
    }
  }
}
