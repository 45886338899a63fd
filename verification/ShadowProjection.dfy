/** Filtering the shared shadow tables by model commutes with everything the engine does: what one model's part of an
    event does to its own view is what it does to that model's portfolio alone, and every other model's view stays as
    it was. */
module ShadowProjection {
  import opened Basics
  import opened Shadow
  import opened ShadowTables

  // ---- experiments and ranks ----

  lemma {:induction false} ConfigsOfAppend(es: seq<Experiment>, e: Experiment, m: Model)
    ensures Configs(es + [e], m) == if e.model == m then Configs(es, m) + [e.config] else Configs(es, m)
  {
    assert (es + [e])[..|es|] == es;
  }

  /** es' holds the experiments of es, some of them perhaps ended, and perhaps more. */
  ghost predicate Continues(es: seq<Experiment>, es': seq<Experiment>) {
    |es| <= |es'| && forall i :: 0 <= i < |es| ==> es'[i].model == es[i].model && es'[i].config == es[i].config
  }

  lemma {:induction false} ConfigsOfPrefix(es: seq<Experiment>, es': seq<Experiment>, n: nat, m: Model)
    requires Continues(es, es') && n <= |es|
    ensures Configs(es'[..n], m) == Configs(es[..n], m)
    decreases n
  {
    if n == 0 {
    } else {
      ConfigsOfPrefix(es, es', n - 1, m);
      assert es[..n][..n - 1] == es[..n - 1] && es'[..n][..n - 1] == es'[..n - 1];
    }
  }

  lemma {:induction false} RanksStay(es: seq<Experiment>, es': seq<Experiment>, m: Model)
    requires Continues(es, es')
    ensures forall e: nat :: e < |es| ==> Rank(es', e, m) == Rank(es, e, m)
  {
    forall e: nat | e < |es|
      ensures Rank(es', e, m) == Rank(es, e, m)
    {
      ConfigsOfPrefix(es, es', e, m);
    }
  }

  lemma {:induction false} RankStep(es: seq<Experiment>, e: nat, m: Model)
    requires e < |es|
    ensures Rank(es, e + 1, m) == Rank(es, e, m) + if es[e].model == m then 1 else 0
  {
    assert es[..e + 1][..e] == es[..e];
  }

  lemma {:induction false} RanksGrow(es: seq<Experiment>, a: nat, b: nat, m: Model)
    requires Owns(es, a, m) && a < b <= |es|
    ensures Rank(es, a, m) < Rank(es, b, m)
    decreases b
  {
    RankStep(es, b - 1, m);
    if a == b - 1 {
    } else {
      RanksGrow(es, a, b - 1, m);
    }
  }

  /** Within one model, ranks tell experiments apart. */
  lemma {:induction false} RanksAreDistinct(es: seq<Experiment>, a: nat, b: nat, m: Model)
    requires Owns(es, a, m) && Owns(es, b, m)
    ensures Rank(es, a, m) == Rank(es, b, m) <==> a == b
  {
    if a < b {
      RanksGrow(es, a, b, m);
    } else if b < a {
      RanksGrow(es, b, a, m);
    }
  }

  // ---- rows ----

  lemma {:induction false} RowsSeeNoNewExperiments(rows: seq<Row>, es: seq<Experiment>, es': seq<Experiment>, m: Model)
    requires Continues(es, es') && forall r <- rows :: Owns(es, r.position.experiment, r.model)
    ensures PositionsOf(rows, es', m) == PositionsOf(rows, es, m)
    decreases |rows|
  {
    if rows == [] {
    } else {
      assert rows[0] in rows;
      RanksStay(es, es', m);
      RowsSeeNoNewExperiments(rows[1..], es, es', m);
    }
  }

  lemma {:induction false} PositionsOfAppend(rows: seq<Row>, r: Row, es: seq<Experiment>, m: Model)
    ensures PositionsOf(rows + [r], es, m) ==
      if r.model == m then PositionsOf(rows, es, m) + [Mine(r.position, es, m)] else PositionsOf(rows, es, m)
    decreases |rows|
  {
    if rows == [] {
      assert [r][1..] == [];
    } else {
      assert (rows + [r])[1..] == rows[1..] + [r];
      PositionsOfAppend(rows[1..], r, es, m);
    }
  }

  /** The place of row i among the rows of model m. */
  function Place(rows: seq<Row>, i: nat, m: Model): nat
    requires i <= |rows|
  {
    if i == 0 then 0 else (if rows[0].model == m then 1 else 0) + Place(rows[1..], i - 1, m)
  }

  lemma {:induction false} PositionsAt(rows: seq<Row>, i: nat, es: seq<Experiment>, m: Model)
    requires i < |rows| && rows[i].model == m
    ensures Place(rows, i, m) < |PositionsOf(rows, es, m)|
    ensures PositionsOf(rows, es, m)[Place(rows, i, m)] == Mine(rows[i].position, es, m)
    decreases |rows|
  {
    if i == 0 {
    } else {
      PositionsAt(rows[1..], i - 1, es, m);
    }
  }

  lemma {:induction false} PositionsOfUpdate(rows: seq<Row>, i: nat, r: Row, es: seq<Experiment>, m: Model)
    requires i < |rows| && rows[i].model == r.model
    ensures r.model == m ==> Place(rows, i, m) < |PositionsOf(rows, es, m)|
    ensures PositionsOf(rows[i := r], es, m) ==
      if r.model == m then PositionsOf(rows, es, m)[Place(rows, i, m) := Mine(r.position, es, m)] else PositionsOf(rows, es, m)
    decreases |rows|
  {
    if i == 0 {
      assert rows[i := r][1..] == rows[1..];
    } else {
      assert rows[i := r][1..] == rows[1..][i - 1 := r];
      PositionsOfUpdate(rows[1..], i - 1, r, es, m);
    }
  }

  /** The filtered query and the query over the filtered rows find the same position. */
  lemma {:induction false} OpenRowIsOpenAt(rows: seq<Row>, es: seq<Experiment>, m: Model, symbol: string)
    ensures var (i, ps) := (OpenRow(rows, m, symbol), PositionsOf(rows, es, m));
      OpenAt(ps, symbol) == if i < |rows| then Place(rows, i, m) else |ps|
    decreases |rows|
  {
    if rows == [] {
    } else {
      var ps := PositionsOf(rows, es, m);
      OpenRowIsOpenAt(rows[1..], es, m, symbol);
      if rows[0].model == m {
        assert ps[1..] == PositionsOf(rows[1..], es, m);
      }
    }
  }

  lemma {:induction false} SumOfFront<T>(x: T, xs: seq<T>, f: T -> real)
    ensures Sum([x] + xs, f) == f(x) + Sum(xs, f)
  {
    SumOfConcat([x], xs, f);
    assert [x][..0] == [];
  }

  lemma {:induction false} ExposureIsMine(rows: seq<Row>, es: seq<Experiment>, m: Model)
    ensures OpenExposure(rows, m) == Exposure(PositionsOf(rows, es, m))
    decreases |rows|
  {
    if rows == [] {
    } else {
      var rest := rows[1..];
      ExposureIsMine(rest, es, m);
      assert rows == [rows[0]] + rest;
      SumOfFront(rows[0], rest, (r: Row) => if r.model == m && r.position.open then r.position.notional else 0.0);
      if rows[0].model == m {
        SumOfFront(Mine(rows[0].position, es, m), PositionsOf(rest, es, m), (p: Position) => if p.open then p.notional else 0.0);
      }
    }
  }

  // ---- trades ----

  lemma {:induction false} TradesSeeNoNewExperiments(trades: seq<TradeRow>, es: seq<Experiment>, es': seq<Experiment>,
                                                     m: Model)
    requires Continues(es, es') && forall r <- trades :: Owns(es, r.trade.experiment, r.model)
    ensures TradesOf(trades, es', m) == TradesOf(trades, es, m)
    decreases |trades|
  {
    if trades == [] {
    } else {
      var n := |trades| - 1;
      assert trades[n] in trades;
      RanksStay(es, es', m);
      TradesSeeNoNewExperiments(trades[..n], es, es', m);
    }
  }

  lemma {:induction false} TradesOfAppend(trades: seq<TradeRow>, r: TradeRow, es: seq<Experiment>, m: Model)
    ensures TradesOf(trades + [r], es, m) ==
      if r.model == m then TradesOf(trades, es, m) + [MyTrade(r.trade, es, m)] else TradesOf(trades, es, m)
  {
    assert (trades + [r])[..|trades|] == trades;
  }

  /** A trade key on file is on file in the model's view, and the other way round: no other model's trade can
      suppress a trade, because it belongs to another experiment. */
  lemma {:induction false} SameTradeKeys(trades: seq<TradeRow>, t: Trade, es: seq<Experiment>, m: Model)
    requires Owns(es, t.experiment, m) && forall r <- trades :: Owns(es, r.trade.experiment, r.model)
    ensures (exists u <- trades :: SameKey(u.trade, t)) <==>
      exists u <- TradesOf(trades, es, m) :: SameKey(u, MyTrade(t, es, m))
    decreases |trades|
  {
    if trades == [] {
    } else {
      var n := |trades| - 1;
      var last := trades[n];
      assert last in trades;
      SameTradeKeys(trades[..n], t, es, m);
      assert trades == trades[..n] + [last];
      if last.model == m {
        RanksAreDistinct(es, last.trade.experiment, t.experiment, m);
        assert SameKey(last.trade, t) <==> SameKey(MyTrade(last.trade, es, m), MyTrade(t, es, m));
      }
    }
  }

  // ---- opportunities ----

  lemma {:induction false} SeenSeesNoNewExperiments(seen: set<Key>, es: seq<Experiment>, es': seq<Experiment>, m: Model)
    requires Continues(es, es') && forall key <- seen :: key.0 < |es|
    ensures SeenOf(seen, es', m) == SeenOf(seen, es, m)
  {
    RanksStay(es, es', m);
    forall key | key in seen
      ensures Owns(es', key.0, m) == Owns(es, key.0, m) && MyKey(key, es', m) == MyKey(key, es, m)
    {
    }
  }

  lemma {:induction false} SameOpportunities(seen: set<Key>, key: Key, es: seq<Experiment>, m: Model)
    requires Owns(es, key.0, m)
    ensures key in seen <==> MyKey(key, es, m) in SeenOf(seen, es, m)
  {
    if MyKey(key, es, m) in SeenOf(seen, es, m) {
      var other :| other in seen && Owns(es, other.0, m) && MyKey(other, es, m) == MyKey(key, es, m);
      RanksAreDistinct(es, other.0, key.0, m);
    }
  }

  lemma {:induction false} SeenOfMore(seen: set<Key>, key: Key, es: seq<Experiment>, m: Model)
    ensures SeenOf(seen + {key}, es, m) ==
      if Owns(es, key.0, m) then SeenOf(seen, es, m) + {MyKey(key, es, m)} else SeenOf(seen, es, m)
  {
  }

  // ---- exits ----

  lemma {:induction false} ExitIsMine(mem: Memory, m: Model, symbol: string)
    ensures symbol in ExitsOf(mem.exits, m) <==> (m, symbol) in mem.exits
    ensures (m, symbol) in mem.exits ==> ExitsOf(mem.exits, m)[symbol] == mem.exits[(m, symbol)]
  {
    if (m, symbol) in mem.exits {
      var k := (m, symbol);
      assert k in mem.exits && k.0 == m && k.1 == symbol;
    }
  }

  lemma {:induction false} ExitsOfMore(exits: map<(Model, string), int>, k: Model, symbol: string, time: int, m: Model)
    ensures ExitsOf(exits[(k, symbol) := time], m) ==
      if k == m then ExitsOf(exits, m)[symbol := time] else ExitsOf(exits, m)
  {
    var before := Memory(map[], exits, map[], 0);
    var after := Memory(map[], exits[(k, symbol) := time], map[], 0);
    var expected := if k == m then ExitsOf(exits, m)[symbol := time] else ExitsOf(exits, m);
    forall s: string
      ensures s in ExitsOf(after.exits, m) <==> s in expected
      ensures s in expected ==> ExitsOf(after.exits, m)[s] == expected[s]
    {
      ExitIsMine(before, m, s);
      ExitIsMine(after, m, s);
    }
    assert ExitsOf(after.exits, m) == expected;
  }

  // ---- resolving an experiment ----

  lemma {:induction false} ActiveOfFront(es: seq<Experiment>, m: Model)
    requires es != [] && es[|es| - 1].model != m
    ensures var (n, a) := (|es| - 1, ActiveOf(es[..|es| - 1], m));
      ActiveOf(es, m) == if a < n then a else |es|
    decreases |es|
  {
    if |es| == 1 || (es[0].model == m && es[0].active) {
    } else {
      assert es[1..][..|es| - 2] == es[..|es| - 1][1..];
      ActiveOfFront(es[1..], m);
    }
  }

  lemma {:induction false} NewestIsHere(es: seq<Experiment>, m: Model)
    requires NewestIsActive(es, m) && es != [] && es[|es| - 1].model == m
    ensures ActiveOf(es, m) == |es| - 1 && Rank(es, |es| - 1, m) == |Configs(es, m)| - 1
    ensures Configs(es, m) != [] && Configs(es, m)[|Configs(es, m)| - 1] == es[|es| - 1].config
  {
    OneActive(es, m, |es| - 1);
  }

  lemma {:induction false} NewestIsEarlier(es: seq<Experiment>, m: Model)
    requires es != [] && es[|es| - 1].model != m
    ensures var (n, a) := (|es| - 1, ActiveOf(es[..|es| - 1], m));
      && Configs(es, m) == Configs(es[..n], m) && ActiveOf(es, m) == (if a < n then a else |es|)
      && (a < n ==> es[a] == es[..n][a] && Rank(es, a, m) == Rank(es[..n], a, m))
  {
    ActiveOfFront(es, m);
    var n, a := |es| - 1, ActiveOf(es[..|es| - 1], m);
    assert a < n ==> es[..n][..a] == es[..a];
  }

  /** The active experiment is the last of the model's configurations. */
  ghost predicate ActiveIsLast(es: seq<Experiment>, m: Model) {
    var (a, configs) := (ActiveOf(es, m), Configs(es, m));
    && (a < |es| <==> configs != [])
    && (a < |es| ==> configs[|configs| - 1] == es[a].config && Rank(es, a, m) == |configs| - 1)
  }

  lemma {:induction false} LastIsStillLast(es: seq<Experiment>, m: Model)
    requires es != [] && es[|es| - 1].model != m && ActiveIsLast(es[..|es| - 1], m)
    ensures ActiveIsLast(es, m)
  {
    NewestIsEarlier(es, m);
  }

  lemma {:induction false} NewestOf(es: seq<Experiment>, m: Model)
    requires NewestIsActive(es, m)
    ensures ActiveIsLast(es, m)
    decreases |es|
  {
    if es == [] {
    } else if es[|es| - 1].model == m {
      NewestIsHere(es, m);
    } else {
      NewestOf(es[..|es| - 1], m);
      LastIsStillLast(es, m);
    }
  }

  lemma {:induction false} ActiveIsNoEarlier(es: seq<Experiment>, m: Model, n: nat, e: nat)
    requires e < |es| && es[e].model == m && es[e].active && n <= |es| && AllEnded(es[..n], m)
    ensures n <= e
  {
    forall i | 0 <= i < n
      ensures es[i].model == m ==> !es[i].active
    {
      assert es[..n][i] in es[..n];
    }
  }

  lemma {:induction false} OneActive(es: seq<Experiment>, m: Model, e: nat)
    requires NewestIsActive(es, m) && Owns(es, e, m) && es[e].active
    ensures ActiveOf(es, m) == e
    decreases |es|
  {
    var n, a := |es| - 1, ActiveOf(es, m);
    if es[n].model == m {
      ActiveIsNoEarlier(es, m, n, e);
      if a < |es| {
        ActiveIsNoEarlier(es, m, n, a);
      }
    } else {
      OneActive(es[..n], m, e);
      ActiveOfFront(es, m);
    }
  }

  /** The table after a new experiment of model m was written. */
  function NewExperiment(es: seq<Experiment>, m: Model, config: Config): seq<Experiment> {
    Ended(es, ActiveOf(es, m)) + [Experiment(m, config, true)]
  }

  lemma {:induction false} NewExperimentContinues(es: seq<Experiment>, m: Model, config: Config)
    requires NewestIsActive(es, m)
    ensures var es' := NewExperiment(es, m, config);
      && Continues(es, es') && |es'| == |es| + 1 && es'[|es|] == Experiment(m, config, true)
      && forall i :: 0 <= i < |es| && i != ActiveOf(es, m) ==> es'[i] == es[i]
  {
  }

  lemma {:induction false} EndingLeavesNoneActive(es: seq<Experiment>, m: Model)
    requires NewestIsActive(es, m)
    ensures AllEnded(Ended(es, ActiveOf(es, m)), m)
  {
    var ended := Ended(es, ActiveOf(es, m));
    forall i | 0 <= i < |ended| && ended[i].model == m
      ensures !ended[i].active
    {
      if es[i].active {
        OneActive(es, m, i);
      }
    }
  }

  lemma {:induction false} NewExperimentIsTheNewest(es: seq<Experiment>, m: Model, config: Config)
    requires NewestIsActive(es, m)
    ensures NewestIsActive(NewExperiment(es, m, config), m)
  {
    EndingLeavesNoneActive(es, m);
    var ended := Ended(es, ActiveOf(es, m));
    assert (ended + [Experiment(m, config, true)])[..|ended|] == ended;
  }

  lemma {:induction false} EndedElsewhere(es: seq<Experiment>, i: nat, k: Model)
    requires NewestIsActive(es, k) && (i < |es| ==> es[i].model != k) && i <= |es|
    ensures NewestIsActive(Ended(es, i), k)
    decreases |es|
  {
    if i < |es| {
      var n, ended := |es| - 1, Ended(es, i);
      if i == n {
        assert ended[..n] == es[..n];
      } else {
        assert ended[..n] == Ended(es[..n], i);
        if es[n].model != k {
          EndedElsewhere(es[..n], i, k);
        } else {
          assert forall e <- ended[..n] :: e in es[..n] || e.model != k;
        }
      }
    }
  }

  lemma {:induction false} OthersKeepTheirNewest(es: seq<Experiment>, m: Model, config: Config, k: Model)
    requires NewestIsActive(es, k) && k != m
    ensures NewestIsActive(NewExperiment(es, m, config), k)
  {
    var ended := Ended(es, ActiveOf(es, m));
    EndedElsewhere(es, ActiveOf(es, m), k);
    assert (ended + [Experiment(m, config, true)])[..|ended|] == ended;
  }

  lemma {:induction false} ConfigsOfNew(es: seq<Experiment>, m: Model, config: Config, k: Model)
    requires NewestIsActive(es, m)
    ensures Configs(NewExperiment(es, m, config), k) == if k == m then Configs(es, k) + [config] else Configs(es, k)
  {
    var ended := Ended(es, ActiveOf(es, m));
    ConfigsOfAppend(ended, Experiment(m, config, true), k);
    ConfigsOfEnded(es, ActiveOf(es, m), k);
  }

  lemma {:induction false} ConfigsOfEnded(es: seq<Experiment>, i: nat, k: Model)
    requires i <= |es|
    ensures Configs(Ended(es, i), k) == Configs(es, k)
  {
    var ended := Ended(es, i);
    assert ended[..|es|] == ended && es[..|es|] == es;
    ConfigsOfPrefix(es, ended, |es|, k);
  }

  /** New experiments of any model leave every other part of a view alone. */
  lemma {:induction false} ViewsSeeNoNewExperiments(t: Tables, es': seq<Experiment>, since: nat, m: Model)
    requires Owned(t) && Continues(t.experiments, es') && since <= |t.trades|
    ensures PositionsOf(t.rows, es', m) == PositionsOf(t.rows, t.experiments, m)
    ensures TradesOf(t.trades, es', m) == TradesOf(t.trades, t.experiments, m)
    ensures TradesOf(t.trades[..since], es', m) == TradesOf(t.trades[..since], t.experiments, m)
    ensures SeenOf(t.seen, es', m) == SeenOf(t.seen, t.experiments, m)
    ensures Owned(t.(experiments := es'))
  {
    RowsSeeNoNewExperiments(t.rows, t.experiments, es', m);
    TradesSeeNoNewExperiments(t.trades, t.experiments, es', m);
    TradesSeeNoNewExperiments(t.trades[..since], t.experiments, es', m);
    SeenSeesNoNewExperiments(t.seen, t.experiments, es', m);
  }

  lemma {:induction false} EveryNewestStays(es: seq<Experiment>, m: Model, config: Config)
    requires forall k :: NewestIsActive(es, k)
    ensures forall k :: NewestIsActive(NewExperiment(es, m, config), k)
  {
    forall k
      ensures NewestIsActive(NewExperiment(es, m, config), k)
    {
      if k == m {
        NewExperimentIsTheNewest(es, m, config);
      } else {
        OthersKeepTheirNewest(es, m, config, k);
      }
    }
  }

  lemma {:induction false} RankOfNew(es: seq<Experiment>, m: Model, config: Config)
    requires NewestIsActive(es, m)
    ensures var es' := NewExperiment(es, m, config);
      Rank(es', |es|, m) == |Configs(es', m)| - 1
  {
    NewExperimentContinues(es, m, config);
    ConfigsOfNew(es, m, config, m);
    ConfigsOfPrefix(es, NewExperiment(es, m, config), |es|, m);
    assert es[..|es|] == es;
  }

  lemma {:induction false} KnownIdsStay(es: seq<Experiment>, ids: map<Model, nat>, m: Model, config: Config, k: Model)
    requires NewestIsActive(es, m) && m !in ids && (k in ids ==> Current(es, ids[k], k, config))
    ensures k in ids[m := |es|] ==> Current(NewExperiment(es, m, config), ids[m := |es|][k], k, config)
  {
    NewExperimentContinues(es, m, config);
  }

  /** Resolving leaves an experiment of the current configuration active and known, whichever way it goes. */
  lemma {:induction false} ResolvingStaysClean(w: World, m: Model)
    requires Clean(w)
    ensures var r := Resolved(w, m);
      && Clean(r) && m in r.memory.ids && r.config == w.config
      && Rank(r.tables.experiments, r.memory.ids[m], m) == |Configs(r.tables.experiments, m)| - 1
  {
    var es := w.tables.experiments;
    var r := Resolved(w, m);
    NewestOf(es, m);
    if m in w.memory.ids {
      OneActive(es, m, w.memory.ids[m]);
    } else if !(ActiveOf(es, m) < |es| && es[ActiveOf(es, m)].config == w.config) {
      NewExperimentContinues(es, m, w.config);
      ViewsSeeNoNewExperiments(w.tables, r.tables.experiments, w.memory.since, m);
      EveryNewestStays(es, m, w.config);
      RankOfNew(es, m, w.config);
      forall k | k in r.memory.ids
        ensures Current(r.tables.experiments, r.memory.ids[k], k, w.config)
      {
        KnownIdsStay(es, w.memory.ids, m, w.config, k);
      }
    }
  }

  /** A new experiment of one model, in every model's view. */
  lemma {:induction false} NewExperimentIsMine(w: World, m: Model, k: Model)
    requires Clean(w)
    ensures var view := Projected(w.(tables := w.tables.(experiments := NewExperiment(w.tables.experiments, m, w.config))), k);
      view == if k == m then Projected(w, k).(experiments := Projected(w, k).experiments + [w.config]) else Projected(w, k)
  {
    var es := w.tables.experiments;
    NewExperimentContinues(es, m, w.config);
    ViewsSeeNoNewExperiments(w.tables, NewExperiment(es, m, w.config), w.memory.since, k);
    ConfigsOfNew(es, m, w.config, k);
  }

  lemma {:induction false} IdsAreNotInView(w: World, ids: map<Model, nat>, k: Model)
    ensures Projected(w.(memory := w.memory.(ids := ids)), k) == Projected(w, k)
  {
  }

  /** Resolving one model's experiment is resolving it in that model's view, and nothing in any other. */
  lemma {:induction false} ResolvingIsMine(w: World, m: Model, k: Model)
    requires Clean(w)
    ensures Projected(Resolved(w, m), k) == if k == m then WithExperiment(Projected(w, k)) else Projected(w, k)
  {
    var es := w.tables.experiments;
    var r := Resolved(w, m);
    NewestOf(es, m);
    if m in w.memory.ids {
      OneActive(es, m, w.memory.ids[m]);
    } else if ActiveOf(es, m) < |es| && es[ActiveOf(es, m)].config == w.config {
      IdsAreNotInView(w, r.memory.ids, k);
    } else {
      var written := w.(tables := w.tables.(experiments := NewExperiment(es, m, w.config)));
      NewExperimentIsMine(w, m, k);
      IdsAreNotInView(written, r.memory.ids, k);
    }
  }

  // ---- closing, noting and opening ----

  lemma {:induction false} RecordingIsMine(trades: seq<TradeRow>, m: Model, t: Trade, es: seq<Experiment>, k: Model)
    requires Owns(es, t.experiment, m) && forall r <- trades :: Owns(es, r.trade.experiment, r.model)
    ensures TradesOf(RecordedRow(trades, m, t), es, k) ==
      if k == m then Recorded(TradesOf(trades, es, k), MyTrade(t, es, k)) else TradesOf(trades, es, k)
    ensures forall r <- RecordedRow(trades, m, t) :: Owns(es, r.trade.experiment, r.model)
  {
    SameTradeKeys(trades, t, es, m);
    TradesOfAppend(trades, TradeRow(m, t), es, k);
  }

  /** The portfolio index of row i, seen from its own model. */
  lemma {:induction false} RowInView(w: World, i: nat, m: Model)
    requires i < |w.tables.rows| && w.tables.rows[i].model == m
    ensures var (pf, place) := (Projected(w, m), Place(w.tables.rows, i, m));
      place < |pf.positions| && pf.positions[place] == Mine(w.tables.rows[i].position, w.tables.experiments, m)
  {
    PositionsAt(w.tables.rows, i, w.tables.experiments, m);
  }

  lemma {:induction false} SinceStays(trades: seq<TradeRow>, m: Model, t: Trade, since: nat)
    requires since <= |trades|
    ensures since <= |RecordedRow(trades, m, t)| && RecordedRow(trades, m, t)[..since] == trades[..since]
  {
  }

  lemma {:induction false} TradeIsMine(p: Position, exitReference: real, reason: Reason, time: int, lim: Limits,
                                       es: seq<Experiment>, m: Model)
    ensures TradeOf(Mine(p, es, m), exitReference, reason, time, lim) ==
      MyTrade(TradeOf(p, exitReference, reason, time, lim), es, m)
  {
  }

  /** The rows and trades a close leaves, in every model's view. */
  lemma {:induction false} ClosedTablesAreMine(w: World, m: Model, i: nat, trade: Trade, k: Model)
    requires Clean(w) && i < |w.tables.rows| && w.tables.rows[i].model == m
    requires trade.experiment == w.tables.rows[i].position.experiment
    ensures var (t, pf, place) := (w.tables, Projected(w, k), Place(w.tables.rows, i, m));
      var row := t.rows[i];
      var (rows, trades) := (t.rows[i := row.(position := row.position.(open := false))], RecordedRow(t.trades, m, trade));
      && (k == m ==> place < |pf.positions|)
      && PositionsOf(rows, t.experiments, k) ==
           (if k == m then pf.positions[place := pf.positions[place].(open := false)] else pf.positions)
      && TradesOf(trades, t.experiments, k) ==
           (if k == m then Recorded(pf.trades, MyTrade(trade, t.experiments, k)) else pf.trades)
      && w.memory.since <= |trades| && trades[..w.memory.since] == t.trades[..w.memory.since]
  {
    var t := w.tables;
    var row := t.rows[i];
    RowInView(w, i, m);
    assert row in t.rows;
    PositionsOfUpdate(t.rows, i, row.(position := row.position.(open := false)), t.experiments, k);
    RecordingIsMine(t.trades, m, trade, t.experiments, k);
    SinceStays(t.trades, m, trade, w.memory.since);
  }

  lemma {:induction false} SettlingIsMine(w: World, m: Model, i: nat, trade: Trade, k: Model)
    requires Clean(w) && i < |w.tables.rows| && w.tables.rows[i].model == m
    requires trade.experiment == w.tables.rows[i].position.experiment
    ensures k == m ==> Place(w.tables.rows, i, m) < |Projected(w, k).positions|
    ensures Projected(RowSettled(w, m, i, trade), k) ==
      if k == m then Settled(Projected(w, k), Place(w.tables.rows, i, m), MyTrade(trade, w.tables.experiments, k))
      else Projected(w, k)
  {
    ClosedTablesAreMine(w, m, i, trade, k);
  }

  lemma {:induction false} ClosingIsMine(w: World, m: Model, i: nat, exitReference: real, reason: Reason, time: int,
                                         k: Model)
    requires Clean(w) && i < |w.tables.rows| && w.tables.rows[i].model == m
    ensures k == m ==> Place(w.tables.rows, i, m) < |Projected(w, k).positions|
    ensures Projected(RowClosed(w, m, i, exitReference, reason, time), k) ==
      if k == m then Closed(Projected(w, k), Place(w.tables.rows, i, m), exitReference, reason, time) else Projected(w, k)
  {
    var p := w.tables.rows[i].position;
    SettlingIsMine(w, m, i, TradeOf(p, exitReference, reason, time, w.config.limits), k);
    RowInView(w, i, m);
    TradeIsMine(p, exitReference, reason, time, w.config.limits, w.tables.experiments, m);
  }

  lemma {:induction false} ClosingStaysClean(w: World, m: Model, i: nat, exitReference: real, reason: Reason, time: int)
    requires Clean(w) && i < |w.tables.rows| && w.tables.rows[i].model == m
    ensures Clean(RowClosed(w, m, i, exitReference, reason, time))
  {
    var t := w.tables;
    var row := t.rows[i];
    var trade := TradeOf(row.position, exitReference, reason, time, w.config.limits);
    assert row in t.rows;
    RecordingIsMine(t.trades, m, trade, t.experiments, m);
    SinceStays(t.trades, m, trade, w.memory.since);
    var rows := t.rows[i := row.(position := row.position.(open := false))];
    forall r | r in rows
      ensures Owns(t.experiments, r.position.experiment, r.model)
    {
      assert r in t.rows || r == rows[i];
    }
  }

  lemma {:induction false} MarkingIsMine(w: World, m: Model, symbol: string, time: int, k: Model)
    ensures Projected(ExitMarked(w, m, symbol, time), k) ==
      if k == m then Projected(w, k).(exits := Projected(w, k).exits[symbol := time]) else Projected(w, k)
  {
    ExitsOfMore(w.memory.exits, m, symbol, time, k);
  }

  lemma {:induction false} NotingIsMine(w: World, m: Model, key: Key, k: Model)
    requires Clean(w) && Owns(w.tables.experiments, key.0, m)
    ensures Clean(Noted(w, key))
    ensures Projected(Noted(w, key), k) ==
      if k == m then Projected(w, k).(seen := Projected(w, k).seen + {MyKey(key, w.tables.experiments, k)}) else Projected(w, k)
  {
    SeenOfMore(w.tables.seen, key, w.tables.experiments, k);
  }

  lemma {:induction false} OpeningIsMine(w: World, m: Model, p: Position, k: Model)
    requires Clean(w) && Owns(w.tables.experiments, p.experiment, m)
    ensures Clean(RowOpened(w, m, p))
    ensures Projected(RowOpened(w, m, p), k) ==
      if k == m then Projected(w, k).(positions := Projected(w, k).positions + [Mine(p, w.tables.experiments, k)])
      else Projected(w, k)
  {
    PositionsOfAppend(w.tables.rows, Row(m, p), w.tables.experiments, k);
  }

  // ---- one model's part of an event ----

  /** What the engine's queries find is what the model's own portfolio holds. */
  lemma {:induction false} QueriesAreMine(w: World, m: Model, symbol: string)
    ensures var (i, pf) := (OpenRow(w.tables.rows, m, symbol), Projected(w, m));
      && OpenAt(pf.positions, symbol) == (if i < |w.tables.rows| then Place(w.tables.rows, i, m) else |pf.positions|)
      && (i < |w.tables.rows| ==>
            OpenAt(pf.positions, symbol) < |pf.positions| &&
            pf.positions[OpenAt(pf.positions, symbol)] == Mine(w.tables.rows[i].position, w.tables.experiments, m))
      && OpenExposure(w.tables.rows, m) == Exposure(pf.positions)
      && ExitAt(w.memory, m, symbol) == ExitOf(pf, symbol)
  {
    var i := OpenRow(w.tables.rows, m, symbol);
    OpenRowIsOpenAt(w.tables.rows, w.tables.experiments, m, symbol);
    if i < |w.tables.rows| {
      RowInView(w, i, m);
    }
    ExposureIsMine(w.tables.rows, w.tables.experiments, m);
    ExitIsMine(w.memory, m, symbol);
  }

  lemma {:induction false} CandleStaysClean(w: World, m: Model, symbol: string, high: real, low: real, time: int)
    requires Clean(w)
    ensures Clean(CandleFor(w, m, symbol, high, low, time))
  {
    var rows := w.tables.rows;
    var i := OpenRow(rows, m, symbol);
    if i < |rows| && Hit(rows[i].position, high, low, time).Some? {
      var reason := Hit(rows[i].position, high, low, time).value;
      ClosingStaysClean(w, m, i, TriggerPrice(rows[i].position, reason), reason, time);
    }
  }

  lemma {:induction false} HitIsMine(p: Position, high: real, low: real, time: int, es: seq<Experiment>, m: Model)
    ensures var (mine, hit) := (Mine(p, es, m), Hit(p, high, low, time));
      Hit(mine, high, low, time) == hit && (hit.Some? ==> TriggerPrice(mine, hit.value) == TriggerPrice(p, hit.value))
  {
  }

  lemma {:induction false} HitClosesMine(w: World, m: Model, i: nat, symbol: string, price: real, reason: Reason,
                                         time: int, k: Model)
    requires Clean(w) && i < |w.tables.rows| && w.tables.rows[i].model == m
    ensures var view := Projected(w, k);
      && (k == m ==> Place(w.tables.rows, i, m) < |view.positions|)
      && Projected(ExitMarked(RowClosed(w, m, i, price, reason, time), m, symbol, time), k) ==
           if k == m then Closed(view, Place(w.tables.rows, i, m), price, reason, time).(exits := view.exits[symbol := time])
           else view
  {
    MarkingIsMine(RowClosed(w, m, i, price, reason, time), m, symbol, time, k);
    ClosingIsMine(w, m, i, price, reason, time, k);
  }

  lemma {:induction false} CandleIsMine(w: World, m: Model, symbol: string, high: real, low: real, time: int, k: Model)
    requires Clean(w)
    ensures Projected(CandleFor(w, m, symbol, high, low, time), k) ==
      if k == m then AfterCandle(Projected(w, k), symbol, high, low, time) else Projected(w, k)
  {
    var rows := w.tables.rows;
    var i := OpenRow(rows, m, symbol);
    QueriesAreMine(w, m, symbol);
    if i < |rows| {
      var p := rows[i].position;
      var hit := Hit(p, high, low, time);
      HitIsMine(p, high, low, time, w.tables.experiments, m);
      if hit.Some? {
        var price := TriggerPrice(p, hit.value);
        HitClosesMine(w, m, i, symbol, price, hit.value, time, k);
      }
    }
  }

  lemma {:induction false} EntryUnderItsRank(experiment: nat, rank: nat, usd: real, s: Signal, side: Side, lim: Limits)
    requires s.reference > 0.0
    ensures NewPosition(experiment, usd, s, side, lim).experiment == experiment
    ensures NewPosition(experiment, usd, s, side, lim).(experiment := rank) == NewPosition(rank, usd, s, side, lim)
  {
  }

  lemma {:induction false} EntryIsMine(w: World, m: Model, s: Signal, experiment: nat, k: Model)
    requires Clean(w) && Actionable(s) && Owns(w.tables.experiments, experiment, m)
    ensures var usd := Room(OpenExposure(w.tables.rows, m), w.config.limits);
      var after := RowOpened(w, m, NewPosition(experiment, usd, s, s.direction.value, w.config.limits));
      var rank := Rank(w.tables.experiments, experiment, m);
      && Clean(after)
      && Projected(after, k) ==
           if k == m then
             var p := NewPosition(rank, usd, s, s.direction.value, w.config.limits);
             Projected(w, k).(positions := Projected(w, k).positions + [p])
           else Projected(w, k)
  {
    var usd := Room(OpenExposure(w.tables.rows, m), w.config.limits);
    EntryUnderItsRank(experiment, Rank(w.tables.experiments, experiment, m), usd, s, s.direction.value, w.config.limits);
    OpeningIsMine(w, m, NewPosition(experiment, usd, s, s.direction.value, w.config.limits), k);
  }

  lemma {:induction false} DecidingStaysClean(w: World, m: Model, s: Signal, experiment: nat)
    requires Clean(w) && Actionable(s) && Owns(w.tables.experiments, experiment, m)
    ensures Clean(DecidedFor(w, m, s, experiment))
  {
    var i := OpenRow(w.tables.rows, m, s.symbol);
    if i < |w.tables.rows| {
      ClosingStaysClean(w, m, i, s.reference, OppositeSignal, s.sourceTime);
    } else {
      EntryIsMine(w, m, s, experiment, m);
    }
  }

  lemma {:induction false} FreeDecisionIsMine(w: World, m: Model, s: Signal, experiment: nat, k: Model)
    requires Clean(w) && Actionable(s) && Owns(w.tables.experiments, experiment, m)
    requires OpenRow(w.tables.rows, m, s.symbol) == |w.tables.rows|
    ensures Projected(DecidedFor(w, m, s, experiment), k) ==
      if k == m then Decided(Projected(w, k), s, m.Threshold(), Rank(w.tables.experiments, experiment, m)) else Projected(w, k)
  {
    QueriesAreMine(w, m, s.symbol);
    EntryIsMine(w, m, s, experiment, k);
  }

  lemma {:induction false} HeldDecision(w: World, m: Model, s: Signal, experiment: nat)
    requires Actionable(s) && OpenRow(w.tables.rows, m, s.symbol) < |w.tables.rows|
    ensures var i := OpenRow(w.tables.rows, m, s.symbol);
      DecidedFor(w, m, s, experiment) ==
        if ExitedThisTick(ExitAt(w.memory, m, s.symbol), s) || w.tables.rows[i].position.side == s.direction.value then w
        else RowClosed(w, m, i, s.reference, OppositeSignal, s.sourceTime)
  {
  }

  lemma {:induction false} HeldDecisionAlone(pf: Portfolio, s: Signal, threshold: Option<real>, experiment: nat)
    requires Actionable(s) && OpenAt(pf.positions, s.symbol) < |pf.positions|
    ensures var i := OpenAt(pf.positions, s.symbol);
      Decided(pf, s, threshold, experiment) ==
        if ExitedThisTick(ExitOf(pf, s.symbol), s) || pf.positions[i].side == s.direction.value then pf
        else Closed(pf, i, s.reference, OppositeSignal, s.sourceTime)
  {
  }

  lemma {:induction false} HeldDecisionIsMine(w: World, m: Model, s: Signal, experiment: nat, k: Model)
    requires Clean(w) && Actionable(s) && Owns(w.tables.experiments, experiment, m)
    requires OpenRow(w.tables.rows, m, s.symbol) < |w.tables.rows|
    ensures Projected(DecidedFor(w, m, s, experiment), k) ==
      if k == m then Decided(Projected(w, k), s, m.Threshold(), Rank(w.tables.experiments, experiment, m)) else Projected(w, k)
  {
    QueriesAreMine(w, m, s.symbol);
    HeldDecision(w, m, s, experiment);
    HeldDecisionAlone(Projected(w, m), s, m.Threshold(), Rank(w.tables.experiments, experiment, m));
    ClosingIsMine(w, m, OpenRow(w.tables.rows, m, s.symbol), s.reference, OppositeSignal, s.sourceTime, k);
  }

  lemma {:induction false} DecisionIsMine(w: World, m: Model, s: Signal, experiment: nat, k: Model)
    requires Clean(w) && Actionable(s) && Owns(w.tables.experiments, experiment, m)
    ensures Projected(DecidedFor(w, m, s, experiment), k) ==
      if k == m then Decided(Projected(w, k), s, m.Threshold(), Rank(w.tables.experiments, experiment, m)) else Projected(w, k)
  {
    if OpenRow(w.tables.rows, m, s.symbol) < |w.tables.rows| {
      HeldDecisionIsMine(w, m, s, experiment, k);
    } else {
      FreeDecisionIsMine(w, m, s, experiment, k);
    }
  }

  /** The signal's opportunity noted and decided, once the experiment is looked up and nothing like it is on file. */
  lemma {:induction false} NewSignalIsMine(r: World, m: Model, s: Signal, k: Model)
    requires Clean(r) && Actionable(s) && m in r.memory.ids && Owns(r.tables.experiments, r.memory.ids[m], m)
    ensures var key := (r.memory.ids[m], s.symbol, s.sourceTime);
      var (after, view, rank) := (DecidedFor(Noted(r, key), m, s, key.0), Projected(r, k), Rank(r.tables.experiments, key.0, m));
      && Clean(after)
      && Projected(after, k) == if k == m
         then Decided(view.(seen := view.seen + {MyKey(key, r.tables.experiments, k)}), s, m.Threshold(), rank) else view
  {
    var key := (r.memory.ids[m], s.symbol, s.sourceTime);
    NotingIsMine(r, m, key, k);
    DecidingStaysClean(Noted(r, key), m, s, key.0);
    DecisionIsMine(Noted(r, key), m, s, key.0, k);
  }

  /** A signal, once the experiment is looked up. */
  lemma {:induction false} ResolvedSignalIsMine(r: World, m: Model, s: Signal, k: Model)
    requires Clean(r) && Actionable(s) && m in r.memory.ids && Owns(r.tables.experiments, r.memory.ids[m], m)
    ensures var key := (r.memory.ids[m], s.symbol, s.sourceTime);
      var after := if key in r.tables.seen then r else DecidedFor(Noted(r, key), m, s, key.0);
      var (view, rank) := (Projected(r, k), Rank(r.tables.experiments, key.0, m));
      var mine := (rank, s.symbol, s.sourceTime);
      && Clean(after)
      && Projected(after, k) == if k != m || mine in view.seen then view
         else Decided(view.(seen := view.seen + {mine}), s, m.Threshold(), rank)
  {
    var key := (r.memory.ids[m], s.symbol, s.sourceTime);
    SameOpportunities(r.tables.seen, key, r.tables.experiments, m);
    if key !in r.tables.seen {
      NewSignalIsMine(r, m, s, k);
    }
  }

  /** The same signal in the portfolio run alone, once its experiment is looked up. */
  lemma {:induction false} AloneOnceResolved(pf: Portfolio, s: Signal, threshold: Option<real>)
    requires Actionable(s)
    ensures var resolved := WithExperiment(pf);
      var mine := (|resolved.experiments| - 1, s.symbol, s.sourceTime);
      AfterSignal(pf, s, threshold) == if mine in resolved.seen then resolved
         else Decided(resolved.(seen := resolved.seen + {mine}), s, threshold, mine.0)
  {
  }

  lemma {:induction false} ResolvedView(w: World, m: Model, k: Model)
    requires Clean(w)
    ensures var r := Resolved(w, m);
      && Clean(r) && m in r.memory.ids && Owns(r.tables.experiments, r.memory.ids[m], m)
      && Projected(r, k) == (if k == m then WithExperiment(Projected(w, k)) else Projected(w, k))
      && (k == m ==> Rank(r.tables.experiments, r.memory.ids[m], m) == |Projected(r, k).experiments| - 1)
  {
    ResolvingStaysClean(w, m);
    ResolvingIsMine(w, m, k);
  }

  lemma {:induction false} SignalStaysClean(w: World, m: Model, s: Signal)
    requires Clean(w)
    ensures Clean(SignalFor(w, m, s))
  {
    if Actionable(s) {
      ResolvedView(w, m, m);
      ResolvedSignalIsMine(Resolved(w, m), m, s, m);
    }
  }

  lemma {:induction false} ActionableSignalIsMine(w: World, m: Model, s: Signal, k: Model)
    requires Clean(w) && Actionable(s)
    ensures Projected(SignalFor(w, m, s), k) ==
      if k == m then AfterSignal(Projected(w, k), s, m.Threshold()) else Projected(w, k)
  {
    ResolvedView(w, m, k);
    ResolvedSignalIsMine(Resolved(w, m), m, s, k);
    AloneOnceResolved(Projected(w, k), s, m.Threshold());
  }

  lemma {:induction false} SignalIsMine(w: World, m: Model, s: Signal, k: Model)
    requires Clean(w)
    ensures Clean(SignalFor(w, m, s))
    ensures Projected(SignalFor(w, m, s), k) ==
      if k == m then AfterSignal(Projected(w, k), s, m.Threshold()) else Projected(w, k)
  {
    SignalStaysClean(w, m, s);
    if Actionable(s) {
      ActionableSignalIsMine(w, m, s, k);
    }
  }

  /** The heart of the isolation: working one model's part of an event through the shared tables is, in that model's
      view, the event in its portfolio run alone, and in the other model's view nothing. */
  lemma {:induction false} EventIsMine(w: World, m: Model, ev: Event, k: Model)
    requires Clean(w)
    ensures Clean(EventFor(w, m, ev))
    ensures Projected(EventFor(w, m, ev), k) == if k ==
      m then After(Projected(w, k), ev, m.Threshold()) else Projected(w, k)
  {
    match ev
    case Candle(symbol, high, low, time) =>
      CandleStaysClean(w, m, symbol, high, low, time);
      CandleIsMine(w, m, symbol, high, low, time, k);
    case Given(s) => SignalIsMine(w, m, s, k);
  }
}
