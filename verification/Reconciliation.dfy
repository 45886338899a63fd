/** Comparing what is persisted with what the exchange reports: app/execution/reconciliation.py. */
module Reconciliation {
  import opened Basics
  import FillLedger

  datatype LocalPosition = LocalPosition(symbol: string, side: Side, qty: real, avg: real)
  datatype RemotePosition = RemotePosition(side: Side, qty: real, avg: Option<real>)

  datatype OpenOrder = OpenOrder(exchangeId: string, side: Side, qty: real)

  datatype Mismatch =
    | NotAtExchange(symbol: string)
    | QtyDiffers(symbol: string)
    | SideDiffers(symbol: string)
    | PriceDiffers(symbol: string)
    | NoLocalRecord(symbol: string)

  datatype OrderMismatch =
    | UnknownRemote(exchangeId: string)
    | MissingRemote(exchangeId: string)
    | OrderQtyDiffers(exchangeId: string)
    | OrderSideDiffers(exchangeId: string)

  const PRICE_RELATIVE_TOLERANCE := 0.001

  /** Every mismatch one local position gives rise to. */
  function LocalMismatches(local: LocalPosition, remote: Option<RemotePosition>): seq<Mismatch> {
    match remote
    case None => [NotAtExchange(local.symbol)]
    case Some(r) =>
      (if Abs(r.qty - local.qty) > FillLedger.QTY_TOLERANCE then [QtyDiffers(local.symbol)] else []) +
      (if r.side != local.side then [SideDiffers(local.symbol)] else []) +
      (if r.avg.Some? && local.avg > 0.0 && Abs(r.avg.value - local.avg) / local.avg > PRICE_RELATIVE_TOLERANCE
       then [PriceDiffers(local.symbol)] else [])
  }

  predicate Agrees(local: LocalPosition, remote: Option<RemotePosition>) {
    && remote.Some?
    && Abs(remote.value.qty - local.qty) <= FillLedger.QTY_TOLERANCE
    && remote.value.side == local.side
    && (remote.value.avg.Some? && local.avg > 0.0 ==>
          Abs(remote.value.avg.value - local.avg) <= PRICE_RELATIVE_TOLERANCE * local.avg)
  }

  /** A local position is free of mismatches exactly when it agrees with its remote one; the relative
      price difference is the absolute one measured in units of the local price. */
  lemma {:induction false} NoMismatchMeansAgreement(local: LocalPosition, remote: Option<RemotePosition>)
    ensures LocalMismatches(local, remote) == [] <==> Agrees(local, remote)
  {
    if remote.Some? && remote.value.avg.Some? && local.avg > 0.0 {
      var d := Abs(remote.value.avg.value - local.avg);
      assert d / local.avg * local.avg == d;
      if d / local.avg > PRICE_RELATIVE_TOLERANCE {
        assert (d / local.avg - PRICE_RELATIVE_TOLERANCE) * local.avg > 0.0;
      } else {
        assert (PRICE_RELATIVE_TOLERANCE - d / local.avg) * local.avg >= 0.0;
      }
    }
  }

  function RemoteOf(remote: map<string, Option<RemotePosition>>, symbol: string): Option<RemotePosition> {
    if symbol in remote then remote[symbol] else None
  }

  /** Distinct symbols locally, which the open-position index guarantees. */
  ghost predicate DistinctSymbols(local: seq<LocalPosition>) {
    forall i, j :: 0 <= i < j < |local| ==> local[i].symbol != local[j].symbol
  }

  ghost predicate HasLocal(local: seq<LocalPosition>, symbol: string) {
    exists p <- local :: p.symbol == symbol
  }

  /** Every local position agrees with the exchange's, and the exchange has none without a local record. */
  ghost predicate PositionsMatch(local: seq<LocalPosition>, remote: map<string, Option<RemotePosition>>,
                                 symbols: seq<string>)
    requires forall s <- symbols :: s in remote
  {
    && (forall p <- local :: Agrees(p, RemoteOf(remote, p.symbol)))
    && (forall s <- symbols :: remote[s].Some? ==> HasLocal(local, s))
  }

  /** The mismatches of the local positions, in order. */
  function LocalReport(local: seq<LocalPosition>, remote: map<string, Option<RemotePosition>>): seq<Mismatch> {
    if local == [] then []
    else
      var n := |local| - 1;
      LocalReport(local[..n], remote) + LocalMismatches(local[n], RemoteOf(remote, local[n].symbol))
  }

  /** The exchange's positions without a local record, in the order the answers are walked. */
  function RemoteReport(known: set<string>, remote: map<string, Option<RemotePosition>>,
                        symbols: seq<string>): seq<Mismatch> {
    if symbols == [] then []
    else
      var n := |symbols| - 1;
      RemoteReport(known, remote, symbols[..n]) +
      if RemoteOf(remote, symbols[n]).Some? && symbols[n] !in known then [NoLocalRecord(symbols[n])] else []
  }

  lemma {:induction false} CleanLocalReport(local: seq<LocalPosition>, remote: map<string, Option<RemotePosition>>)
    ensures LocalReport(local, remote) == [] <==> forall p <- local :: Agrees(p, RemoteOf(remote, p.symbol))
    decreases |local|
  {
    if local == [] {
    } else {
      var n := |local| - 1;
      CleanLocalReport(local[..n], remote);
      NoMismatchMeansAgreement(local[n], RemoteOf(remote, local[n].symbol));
      assert local == local[..n] + [local[n]];
    }
  }

  lemma {:induction false} CleanRemoteReport(known: set<string>, remote: map<string, Option<RemotePosition>>,
                                             symbols: seq<string>)
    ensures RemoteReport(known, remote, symbols) == [] <==>
      forall s <- symbols :: RemoteOf(remote, s).Some? ==> s in known
    decreases |symbols|
  {
    if symbols == [] {
    } else {
      var n := |symbols| - 1;
      CleanRemoteReport(known, remote, symbols[..n]);
      assert symbols == symbols[..n] + [symbols[n]];
    }
  }

  function SymbolsOf(local: seq<LocalPosition>): set<string> {
    set p <- local :: p.symbol
  }

  /** The exchange's positions without a local record. */
  method FindUnrecorded(known: set<string>, remote: map<string, Option<RemotePosition>>, symbols: seq<string>)
    returns (mismatches: seq<Mismatch>)
    ensures mismatches == RemoteReport(known, remote, symbols)
  {
    mismatches := [];
    for i := 0 to |symbols|
      invariant mismatches == RemoteReport(known, remote, symbols[..i])
    {
      assert symbols[..i + 1][..i] == symbols[..i];
      if RemoteOf(remote, symbols[i]).Some? && symbols[i] !in known {
        mismatches := mismatches + [NoLocalRecord(symbols[i])];
      }
    }
    assert symbols[..|symbols|] == symbols;
  }

  /** reconcile_positions: the report lists every mismatch, and it is clean if and only if every local position agrees
      with the exchange's and the exchange has no position without a local record. `symbols` lists the queried symbols
      in the order the remote answers are walked. */
  method ReconcilePositions(local: seq<LocalPosition>, remote: map<string, Option<RemotePosition>>,
                            symbols: seq<string>)
    returns (ok: bool, mismatches: seq<Mismatch>)
    requires DistinctSymbols(local)
    requires forall s :: s in remote <==> s in symbols
    ensures mismatches == LocalReport(local, remote) + RemoteReport(SymbolsOf(local), remote, symbols)
    ensures ok <==> PositionsMatch(local, remote, symbols)
  {
    mismatches := [];
    for i := 0 to |local|
      invariant mismatches == LocalReport(local[..i], remote)
    {
      assert local[..i + 1][..i] == local[..i];
      mismatches := mismatches + LocalMismatches(local[i], RemoteOf(remote, local[i].symbol));
    }
    assert local[..|local|] == local;
    var known := SymbolsOf(local);
    var unrecorded := FindUnrecorded(known, remote, symbols);
    mismatches := mismatches + unrecorded;
    ok := mismatches == [];
    CleanLocalReport(local, remote);
    CleanRemoteReport(known, remote, symbols);
  }

  predicate OrdersAgree(local: OpenOrder, remote: OpenOrder) {
    Abs(remote.qty - local.qty) <= FillLedger.QTY_TOLERANCE && remote.side == local.side
  }

  /** The last listed order of an exchange id, as a dictionary keyed by id keeps it; an order without an id is
      skipped. */
  function ById(orders: seq<OpenOrder>): map<string, OpenOrder> {
    if orders == [] then map[]
    else
      var n := |orders| - 1;
      if orders[n].exchangeId != "" then ById(orders[..n])[orders[n].exchangeId := orders[n]] else ById(orders[..n])
  }

  /** The dictionary's keys, in the order in which each was first listed. */
  function Ids(orders: seq<OpenOrder>): seq<string> {
    if orders == [] then []
    else
      var n := |orders| - 1;
      var before := Ids(orders[..n]);
      if orders[n].exchangeId == "" || orders[n].exchangeId in before then before else before + [orders[n].exchangeId]
  }

  lemma {:induction false} IdsAreTheKeys(orders: seq<OpenOrder>)
    ensures forall id :: id in Ids(orders) <==> id in ById(orders)
    ensures Distinct(Ids(orders))
    decreases |orders|
  {
    if orders == [] {
    } else {
      IdsAreTheKeys(orders[..|orders| - 1]);
    }
  }

  ghost predicate Distinct(ids: seq<string>) {
    forall i, j :: 0 <= i < j < |ids| ==> ids[i] != ids[j]
  }

  ghost predicate OrdersMatch(local: map<string, OpenOrder>, remote: map<string, OpenOrder>) {
    && local.Keys == remote.Keys
    && forall id :: id in local ==> OrdersAgree(local[id], remote[id])
  }

  /** The exchange's orders that are not open locally, in the order they are listed. */
  function UnknownIds(ids: seq<string>, local: map<string, OpenOrder>): seq<string> {
    if ids == [] then []
    else
      var n := |ids| - 1;
      if ids[n] in local then UnknownIds(ids[..n], local) else UnknownIds(ids[..n], local) + [ids[n]]
  }

  /** Every mismatch one local open order gives rise to. */
  function OrderMismatches(id: string, local: OpenOrder, remote: Option<OpenOrder>): seq<OrderMismatch> {
    match remote
    case None => [MissingRemote(id)]
    case Some(r) =>
      (if Abs(r.qty - local.qty) > FillLedger.QTY_TOLERANCE then [OrderQtyDiffers(id)] else []) +
      (if r.side != local.side then [OrderSideDiffers(id)] else [])
  }

  function OrderOf(orders: map<string, OpenOrder>, id: string): Option<OpenOrder> {
    if id in orders then Some(orders[id]) else None
  }

  function LocalOrderReport(ids: seq<string>, local: map<string, OpenOrder>,
                            remote: map<string, OpenOrder>): seq<OrderMismatch>
    requires forall id <- ids :: id in local
  {
    if ids == [] then []
    else
      var n := |ids| - 1;
      LocalOrderReport(ids[..n], local, remote) + OrderMismatches(ids[n], local[ids[n]], OrderOf(remote, ids[n]))
  }

  function UnknownReport(ids: seq<string>): seq<OrderMismatch> {
    seq(|ids|, i requires 0 <= i < |ids| => UnknownRemote(ids[i]))
  }

  /** All mismatches in the order they are reported: unknown orders of the exchange first, then local ones. */
  function OrderReport(local: seq<OpenOrder>, remote: seq<OpenOrder>): seq<OrderMismatch> {
    IdsAreTheKeys(local);
    UnknownReport(UnknownIds(Ids(remote), ById(local))) + LocalOrderReport(Ids(local), ById(local), ById(remote))
  }

  lemma {:induction false} UnknownIdsAreTheRest(ids: seq<string>, local: map<string, OpenOrder>)
    ensures forall id :: id in UnknownIds(ids, local) <==> id in ids && id !in local
    decreases |ids|
  {
    if ids == [] {
    } else {
      var n := |ids| - 1;
      UnknownIdsAreTheRest(ids[..n], local);
      assert ids == ids[..n] + [ids[n]];
    }
  }

  lemma {:induction false} CleanLocalOrders(ids: seq<string>, local: map<string, OpenOrder>,
                                            remote: map<string, OpenOrder>)
    requires forall id <- ids :: id in local
    ensures LocalOrderReport(ids, local, remote) == [] <==>
      forall id <- ids :: id in remote && OrdersAgree(local[id], remote[id])
    decreases |ids|
  {
    if ids == [] {
    } else {
      var n := |ids| - 1;
      CleanLocalOrders(ids[..n], local, remote);
      assert ids == ids[..n] + [ids[n]];
    }
  }

  lemma {:induction false} UnknownIdsAreDistinct(ids: seq<string>, local: map<string, OpenOrder>)
    requires Distinct(ids)
    ensures Distinct(UnknownIds(ids, local))
    decreases |ids|
  {
    if ids == [] {
    } else {
      var n := |ids| - 1;
      UnknownIdsAreDistinct(ids[..n], local);
      UnknownIdsAreTheRest(ids[..n], local);
      var before := UnknownIds(ids[..n], local);
      forall i | 0 <= i < |before|
        ensures before[i] != ids[n]
      {
        assert before[i] in before && before[i] in ids[..n];
      }
    }
  }

  lemma {:induction false} NothingUnknown(ids: seq<string>, local: map<string, OpenOrder>)
    ensures UnknownIds(ids, local) == [] <==> forall id <- ids :: id in local
  {
    var unknown := UnknownIds(ids, local);
    UnknownIdsAreTheRest(ids, local);
    assert unknown != [] ==> unknown[0] in unknown;
  }

  lemma {:induction false} MatchById(localIds: seq<string>, remoteIds: seq<string>, local: map<string, OpenOrder>,
                                     remote: map<string, OpenOrder>)
    requires forall id :: id in localIds <==> id in local
    requires forall id :: id in remoteIds <==> id in remote
    ensures OrdersMatch(local, remote) <==>
      (forall id <- remoteIds :: id in local) && forall id <- localIds :: id in remote && OrdersAgree(local[id], remote[id])
  {
    if (forall id <- remoteIds :: id in local) && forall id <- localIds :: id in remote && OrdersAgree(local[id], remote[id]) {
      forall id
        ensures id in local <==> id in remote
      {
      }
      assert local.Keys == remote.Keys;
    }
  }

  /** The report is empty exactly when both sides list the same ids with equal quantity and side. */
  lemma {:induction false} CleanOrderReport(local: seq<OpenOrder>, remote: seq<OpenOrder>)
    ensures OrderReport(local, remote) == [] <==> OrdersMatch(ById(local), ById(remote))
  {
    IdsAreTheKeys(local);
    IdsAreTheKeys(remote);
    NothingUnknown(Ids(remote), ById(local));
    CleanLocalOrders(Ids(local), ById(local), ById(remote));
    MatchById(Ids(local), Ids(remote), ById(local), ById(remote));
  }

  /** The dictionary of a list, with its keys in insertion order. */
  method IndexById(orders: seq<OpenOrder>) returns (ids: seq<string>, byId: map<string, OpenOrder>)
    ensures ids == Ids(orders) && byId == ById(orders)
  {
    ids, byId := [], map[];
    for i := 0 to |orders|
      invariant ids == Ids(orders[..i]) && byId == ById(orders[..i])
    {
      assert orders[..i + 1][..i] == orders[..i];
      IdsAreTheKeys(orders[..i]);
      var id := orders[i].exchangeId;
      if id != "" {
        if id !in byId {
          ids := ids + [id];
        }
        byId := byId[id := orders[i]];
      }
    }
    assert orders[..|orders|] == orders;
  }

  /** The exchange's orders that are not tracked locally. */
  method FindUnknown(ids: seq<string>, local: map<string, OpenOrder>)
    returns (unknown: seq<string>, mismatches: seq<OrderMismatch>)
    ensures unknown == UnknownIds(ids, local) && mismatches == UnknownReport(unknown)
  {
    unknown, mismatches := [], [];
    for i := 0 to |ids|
      invariant unknown == UnknownIds(ids[..i], local) && mismatches == UnknownReport(unknown)
    {
      assert ids[..i + 1][..i] == ids[..i];
      if ids[i] !in local {
        unknown := unknown + [ids[i]];
        mismatches := mismatches + [UnknownRemote(ids[i])];
      }
    }
    assert ids[..|ids|] == ids;
  }

  method CompareOrder(id: string, local: OpenOrder, remote: Option<OpenOrder>) returns (mismatches: seq<OrderMismatch>)
    ensures mismatches == OrderMismatches(id, local, remote)
  {
    if remote.None? {
      return [MissingRemote(id)];
    }
    mismatches := [];
    if Abs(remote.value.qty - local.qty) > FillLedger.QTY_TOLERANCE {
      mismatches := mismatches + [OrderQtyDiffers(id)];
    }
    if remote.value.side != local.side {
      mismatches := mismatches + [OrderSideDiffers(id)];
    }
  }

  method CompareOrders(ids: seq<string>, local: map<string, OpenOrder>, remote: map<string, OpenOrder>)
    returns (mismatches: seq<OrderMismatch>)
    requires forall id <- ids :: id in local
    ensures mismatches == LocalOrderReport(ids, local, remote)
  {
    mismatches := [];
    for i := 0 to |ids|
      invariant mismatches == LocalOrderReport(ids[..i], local, remote)
    {
      assert ids[..i + 1][..i] == ids[..i];
      var found := CompareOrder(ids[i], local[ids[i]], OrderOf(remote, ids[i]));
      mismatches := mismatches + found;
    }
    assert ids[..|ids|] == ids;
  }

  /** reconcile_orders: every mismatch in order, and clean exactly when both sides list the same ids with equal quantity
      and side; an exchange order without a local one is reported once and never adopted. */
  method ReconcileOrders(local: seq<OpenOrder>, remote: seq<OpenOrder>)
    returns (ok: bool, mismatches: seq<OrderMismatch>, unknownRemote: seq<string>)
    ensures mismatches == OrderReport(local, remote) && (ok <==> mismatches == [])
    ensures ok <==> OrdersMatch(ById(local), ById(remote))
    ensures unknownRemote == UnknownIds(Ids(remote), ById(local))
  {
    var localIds, localById := IndexById(local);
    var remoteIds, remoteById := IndexById(remote);
    IdsAreTheKeys(local);
    unknownRemote, mismatches := FindUnknown(remoteIds, localById);
    var differing := CompareOrders(localIds, localById, remoteById);
    mismatches := mismatches + differing;
    ok := mismatches == [];
    CleanOrderReport(local, remote);
  }

  /** The unknown orders reported are exactly those the exchange lists and the local side does not, each once. */
  lemma {:induction false} UnknownOrdersAreReportedOnce(local: seq<OpenOrder>, remote: seq<OpenOrder>)
    ensures var unknown := UnknownIds(Ids(remote), ById(local));
      && (forall id :: id in unknown <==> id in ById(remote) && id !in ById(local))
      && Distinct(unknown)
  {
    IdsAreTheKeys(remote);
    UnknownIdsAreTheRest(Ids(remote), ById(local));
    UnknownIdsAreDistinct(Ids(remote), ById(local));
  }
}
