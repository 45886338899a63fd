/** The idempotent fill ledger of app/execution/fill_ledger.py: every execution row of an order is
    recorded once, keyed by the exchange's own fill id, and the order's totals are derived again
    from all of its rows. */
module FillLedger {
  import opened Basics

  datatype Fill = Fill(id: string, qty: Qty, price: real, fee: real)

  /** Stop and target distances per unit, frozen when the decision was taken. */
  datatype Distances = Distances(stop: real, target: real)

  /** The columns of an order that never change once it is saved. */
  datatype OrderSpec = OrderSpec(
    id: nat, symbol: string, side: Side, qty: real, isClose: bool,
    stopLoss: Option<real>, takeProfit: Option<real>, snapshot: Option<Distances>)

  datatype Execution = Execution(order: OrderSpec, fill: Fill, partial: bool)

  datatype Totals = Totals(filledQty: real, avgFillPrice: real, feesTotal: real)

  const NO_FILLS := Totals(0.0, 0.0, 0.0)

  const QTY_TOLERANCE := 0.000000001

  function FillIds(fills: seq<Fill>): set<string> {
    set f <- fills :: f.id
  }

  /** The rows of one order, in ledger order. */
  function RowsOf(rows: seq<Execution>, orderId: nat): seq<Fill> {
    if rows == [] then []
    else
      var rest := RowsOf(rows[..|rows| - 1], orderId);
      var last := rows[|rows| - 1];
      if last.order.id == orderId then rest + [last.fill] else rest
  }

  /** The fills whose id is neither known nor repeated earlier in the list. */
  function NewFills(known: set<string>, fills: seq<Fill>): seq<Fill>
    decreases |fills|
  {
    if fills == [] then []
    else if fills[0].id in known then NewFills(known, fills[1..])
    else [fills[0]] + NewFills(known + {fills[0].id}, fills[1..])
  }

  function Tagged(order: OrderSpec, fills: seq<Fill>, partial: bool): seq<Execution> {
    seq(|fills|, i requires 0 <= i < |fills| => Execution(order, fills[i], partial))
  }

  function QtyOf(fills: seq<Fill>): real {
    Sum(fills, (f: Fill) => f.qty)
  }

  function NotionalOf(fills: seq<Fill>): real {
    Sum(fills, (f: Fill) => f.qty * f.price)
  }

  function FeesOf(fills: seq<Fill>): real {
    Sum(fills, (f: Fill) => f.fee)
  }

  function TotalsOf(fills: seq<Fill>): Totals {
    var qty := QtyOf(fills);
    Totals(qty, if qty > 0.0 then NotionalOf(fills) / qty else 0.0, FeesOf(fills))
  }

  /** No fill id occurs twice. */
  ghost predicate DistinctIds(fills: seq<Fill>) {
    forall i, j :: 0 <= i < j < |fills| ==> fills[i].id != fills[j].id
  }

  /** What deduplication keeps: only reported fills, each id once, none already known,
      and no reported id lost. */
  lemma {:induction false} NewFillsAreExactlyTheUnknownOnes(known: set<string>, fills: seq<Fill>)
    ensures var news := NewFills(known, fills);
      && DistinctIds(news)
      && (forall f :: f in news ==> f in fills && f.id !in known)
      && (forall f :: f in fills ==> f.id in known || f.id in FillIds(news))
    decreases |fills|
  {
    if fills == [] {
    } else {
      var head, tail := fills[0], fills[1..];
      if head.id in known {
        NewFillsAreExactlyTheUnknownOnes(known, tail);
      } else {
        NewFillsAreExactlyTheUnknownOnes(known + {head.id}, tail);
        UnknownHead(known, head, tail, NewFills(known + {head.id}, tail));
        assert fills == [head] + tail;
      }
    }
  }

  lemma {:induction false} UnknownHead(known: set<string>, head: Fill, tail: seq<Fill>, rest: seq<Fill>)
    requires head.id !in known && DistinctIds(rest)
    requires forall f :: f in rest ==> f in tail && f.id !in known + {head.id}
    requires forall f :: f in tail ==> f.id in known + {head.id} || f.id in FillIds(rest)
    ensures var (news, fills) := ([head] + rest, [head] + tail);
      && DistinctIds(news)
      && (forall f :: f in news ==> f in fills && f.id !in known)
      && (forall f :: f in fills ==> f.id in known || f.id in FillIds(news))
  {
    assert forall f :: f in [head] + rest <==> f == head || f in rest;
    assert FillIds([head] + rest) == {head.id} + FillIds(rest) by {
      assert head in [head] + rest;
      assert forall f :: f in rest ==> f in [head] + rest;
    }
    forall i, j | 0 <= i < j < |[head] + rest|
      ensures ([head] + rest)[i].id != ([head] + rest)[j].id
    {
      assert rest[j - 1] in rest;
    }
  }

  lemma {:induction false} RowsOfConcat(rows: seq<Execution>, more: seq<Execution>, orderId: nat)
    ensures RowsOf(rows + more, orderId) == RowsOf(rows, orderId) + RowsOf(more, orderId)
    decreases |more|
  {
    if more == [] {
      assert rows + more == rows;
    } else {
      var n := |more| - 1;
      assert (rows + more)[..|rows| + n] == rows + more[..n];
      RowsOfConcat(rows, more[..n], orderId);
    }
  }

  lemma {:induction false} RowsOfTagged(order: OrderSpec, fills: seq<Fill>, partial: bool, orderId: nat)
    ensures RowsOf(Tagged(order, fills, partial), orderId) == if orderId == order.id then fills else []
    decreases |fills|
  {
    if fills == [] {
    } else {
      var n := |fills| - 1;
      assert Tagged(order, fills, partial)[..n] == Tagged(order, fills[..n], partial);
      RowsOfTagged(order, fills[..n], partial, orderId);
      assert fills == fills[..n] + [fills[n]];
    }
  }

  lemma {:induction false} TotalsGrow(fills: seq<Fill>, fill: Fill)
    ensures QtyOf(fills + [fill]) == QtyOf(fills) + fill.qty
    ensures NotionalOf(fills + [fill]) == NotionalOf(fills) + fill.qty * fill.price
    ensures FeesOf(fills + [fill]) == FeesOf(fills) + fill.fee
  {
    assert (fills + [fill])[..|fills|] == fills;
  }

  lemma {:induction false} TotalQtyIsPositive(fills: seq<Fill>)
    ensures fills != [] ==> QtyOf(fills) > 0.0
    ensures fills == [] ==> QtyOf(fills) == 0.0
    decreases |fills|
  {
    if fills == [] {
    } else {
      TotalQtyIsPositive(fills[..|fills| - 1]);
    }
  }

  /** The ledger of one order after recording one report. */
  function Recorded(ledger: seq<Fill>, report: seq<Fill>): seq<Fill> {
    ledger + NewFills(FillIds(ledger), report)
  }

  /** The ledger of one order after a whole history of reports. */
  function RecordedAll(reports: seq<seq<Fill>>): seq<Fill> {
    if reports == [] then [] else Recorded(RecordedAll(reports[..|reports| - 1]), reports[|reports| - 1])
  }

  /** Every fill any report mentioned. */
  function Seen(reports: seq<seq<Fill>>): set<Fill> {
    set report <- reports, f <- report :: f
  }

  /** The exchange never reports the same fill id with two contents. */
  ghost predicate NeverContradicts(fills: set<Fill>) {
    forall f, g :: f in fills && g in fills && f.id == g.id ==> f == g
  }

  lemma {:induction false} RecordingKeepsIdsDistinct(ledger: seq<Fill>, report: seq<Fill>)
    requires DistinctIds(ledger)
    ensures DistinctIds(Recorded(ledger, report))
  {
    NewFillsAreExactlyTheUnknownOnes(FillIds(ledger), report);
    var news := NewFills(FillIds(ledger), report);
    assert forall f :: f in ledger ==> f.id in FillIds(ledger);
    forall i, j | 0 <= i < j < |ledger + news|
      ensures (ledger + news)[i].id != (ledger + news)[j].id
    {
      if i < |ledger| <= j {
        assert news[j - |ledger|] in news;
        assert ledger[i] in ledger;
      }
    }
  }

  /** One more report, which contradicts nothing on file, adds exactly its own fills. */
  lemma {:induction false} RecordingAddsTheReport(ledger: seq<Fill>, report: seq<Fill>)
    requires NeverContradicts((set f <- ledger) + set f <- report)
    ensures (set f <- Recorded(ledger, report)) == (set f <- ledger) + set f <- report
  {
    var news := NewFills(FillIds(ledger), report);
    NewFillsAreExactlyTheUnknownOnes(FillIds(ledger), report);
    assert forall f :: f in ledger + news <==> f in ledger || f in news;
    forall f | f in report
      ensures f in ledger + news
    {
      var g: Fill :| g in ledger + news && g.id == f.id;
      assert g in (set h <- ledger) + set h <- report;
    }
  }

  lemma {:induction false} LedgerHoldsWhatWasSeen(reports: seq<seq<Fill>>)
    requires NeverContradicts(Seen(reports))
    ensures DistinctIds(RecordedAll(reports))
    ensures (set f <- RecordedAll(reports)) == Seen(reports)
    decreases |reports|
  {
    if reports == [] {
    } else {
      var n := |reports| - 1;
      var before, report := reports[..n], reports[n];
      assert reports == before + [report];
      assert Seen(reports) == Seen(before) + set f <- report;
      LedgerHoldsWhatWasSeen(before);
      RecordingKeepsIdsDistinct(RecordedAll(before), report);
      RecordingAddsTheReport(RecordedAll(before), report);
    }
  }

  lemma {:induction false} DistinctSequencesOfOneSet(xs: seq<Fill>, ys: seq<Fill>)
    requires DistinctIds(xs) && DistinctIds(ys)
    requires (set f <- xs) == (set f <- ys)
    ensures multiset(xs) == multiset(ys)
  {
    var members := set f <- xs;
    forall f: Fill
      ensures multiset(xs)[f] == multiset(ys)[f]
    {
      CountInDistinct(xs, f);
      CountInDistinct(ys, f);
      assert f in xs <==> f in members;
      assert f in ys <==> f in members;
    }
  }

  lemma {:induction false} CountInDistinct(xs: seq<Fill>, f: Fill)
    requires DistinctIds(xs)
    ensures multiset(xs)[f] == if f in xs then 1 else 0
    decreases |xs|
  {
    if xs == [] {
    } else {
      var n := |xs| - 1;
      CountInDistinct(xs[..n], f);
      assert xs == xs[..n] + [xs[n]];
    }
  }

  /** Polling-schedule independence: however fills are batched, repeated or permuted across polls,
      an order's quantity, average and fees depend only on the union of the fills seen. */
  lemma {:induction false} TotalsDependOnlyOnTheUnionSeen(reports: seq<seq<Fill>>, others: seq<seq<Fill>>)
    requires NeverContradicts(Seen(reports)) && Seen(reports) == Seen(others)
    ensures TotalsOf(RecordedAll(reports)) == TotalsOf(RecordedAll(others))
  {
    LedgerHoldsWhatWasSeen(reports);
    LedgerHoldsWhatWasSeen(others);
    SameFillsSameTotals(RecordedAll(reports), RecordedAll(others));
  }

  lemma {:induction false} SameFillsSameTotals(xs: seq<Fill>, ys: seq<Fill>)
    requires DistinctIds(xs) && DistinctIds(ys) && (set f <- xs) == (set f <- ys)
    ensures TotalsOf(xs) == TotalsOf(ys)
  {
    DistinctSequencesOfOneSet(xs, ys);
    SumOfPermutation(xs, ys, (f: Fill) => f.qty);
    SumOfPermutation(xs, ys, (f: Fill) => f.qty * f.price);
    SumOfPermutation(xs, ys, (f: Fill) => f.fee);
    assert QtyOf(xs) == QtyOf(ys) && NotionalOf(xs) == NotionalOf(ys) && FeesOf(xs) == FeesOf(ys);
  }
}
