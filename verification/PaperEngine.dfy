/** The simulated exchange of app/execution/paper_local.py: instant fills with adverse slippage and
    its own position book. */
module PaperEngine {
  import opened Basics
  import opened OrderState
  import opened FillLedger
  import opened PositionBook
  import opened CostGate
  import opened RiskEngine
  import opened FillService

  datatype Holding = Holding(side: Side, qty: Qty, avg: real)

  type Book = map<string, Holding>

  const BOOK_TOLERANCE := 0.000000000001

  /** One fill applied to the simulator's own book: open, increase, reduce, close or flip. */
  function Booked(book: Book, symbol: string, side: Side, qty: Qty, price: real): Book {
    if symbol !in book then book[symbol := Holding(side, qty, price)]
    else
      var h := book[symbol];
      if h.side == side then
        book[symbol := Holding(side, h.qty + qty, WeightedAverage(h.avg, h.qty, price, qty))]
      else if qty < h.qty - BOOK_TOLERANCE then book[symbol := h.(qty := h.qty - qty)]
      else if Abs(qty - h.qty) <= BOOK_TOLERANCE then book - {symbol}
      else book[symbol := Holding(side, qty - h.qty, price)]
  }

  /** A position row as the boot sequence hands it to the simulator. */
  datatype HydrationRow = HydrationRow(symbol: string, side: Side, qty: real, avg: real)

  function Hydrated(rows: seq<HydrationRow>): Book {
    if rows == [] then map[]
    else
      var n := |rows| - 1;
      var last := rows[n];
      var before := Hydrated(rows[..n]);
      if last.qty > 0.0 then before[last.symbol := Holding(last.side, last.qty, last.avg)] else before
  }

  function Digits(n: nat): string {
    var digit := [['0', '1', '2', '3', '4', '5', '6', '7', '8', '9'][n % 10]];
    if n < 10 then digit else Digits(n / 10) + digit
  }

  function FillId(n: nat): string {
    "PAPER-FILL-" + Digits(n)
  }

  function PaperOrderId(key: string): string {
    "PAPER-" + key[..if |key| < 16 then |key| else 16]
  }

  /** A simulated partial fill. */
  type Ratio = r: real | 0.0 < r < 1.0 witness 0.5

  /** The quantity the simulator fills of an order. */
  function FilledPart(qty: Qty, partialRatio: Option<Ratio>): Qty {
    if partialRatio.Some? then NonZeroPart(qty, partialRatio.value) else qty
  }

  function NonZeroPart(qty: Qty, ratio: Ratio): Qty {
    qty * ratio
  }

  /** What the simulator remembers of an order it filled. */
  function FilledSnapshot(exchangeId: string, fill: Fill, partialRatio: Option<Ratio>): Snapshot {
    Snapshot(exchangeId, if partialRatio.Some? then PartiallyFilled else Filled, [fill], true)
  }

  /** What it answers when asked about an order: an order from before a restart is unknown to it. */
  function Served(snapshots: map<string, Snapshot>, exchangeId: string): Snapshot {
    if exchangeId in snapshots then snapshots[exchangeId] else Snapshot(exchangeId, Unknown, [], true)
  }

  class PaperExchange {
    const feeRate: real
    const slippageBps: real
    const partialRatio: Option<Ratio>
    var snapshots: map<string, Snapshot>
    var positions: Book
    var nextFill: nat

    constructor (feeRate: real, slippageBps: real, partialRatio: Option<Ratio>)
      ensures positions == map[] && snapshots == map[] && nextFill == 1
      ensures this.feeRate == feeRate && this.slippageBps == slippageBps && this.partialRatio == partialRatio
    {
      this.feeRate, this.slippageBps, this.partialRatio := feeRate, slippageBps, partialRatio;
      snapshots, positions, nextFill := map[], map[], 1;
    }

    /** Fills the order at once at the adverse price, remembers the snapshot and updates the book. */
    method Submit(order: ApprovedOrder, key: string, price: real) returns (exchangeId: string)
      requires order.qty > 0.0
      modifies `snapshots, `positions, `nextFill
      ensures exchangeId == PaperOrderId(key)
      ensures var qty := FilledPart(order.qty, partialRatio);
        var fill := PaperFill(FillId(old(nextFill)), order.side, qty, price, feeRate, slippageBps);
        && positions == Booked(old(positions), order.symbol, order.side, fill.qty, fill.price)
        && snapshots == old(snapshots)[exchangeId := FilledSnapshot(exchangeId, fill, partialRatio)]
      ensures nextFill == old(nextFill) + 1
    {
      exchangeId := PaperOrderId(key);
      var fill := FillAtAdversePrice(FillId(nextFill), order.side, FilledPart(order.qty, partialRatio), price);
      nextFill := nextFill + 1;
      var status := if partialRatio.Some? then PartiallyFilled else Filled;
      snapshots := snapshots[exchangeId := Snapshot(exchangeId, status, [fill], true)];
      ApplyToPosition(order, fill.qty, fill.price);
    }

    method FillAtAdversePrice(id: string, side: Side, qty: Qty, price: real) returns (fill: Fill)
      ensures fill == PaperFill(id, side, qty, price, feeRate, slippageBps)
    {
      var slip := price * (slippageBps / 10000.0);
      var fillPrice := if side == Buy then price + slip else price - slip;
      assert fillPrice == PaperFillPrice(price, side, slippageBps);
      fill := Fill(id, qty, fillPrice, qty * fillPrice * feeRate);
    }

    method PollOrder(exchangeId: string) returns (s: Snapshot)
      ensures s == Served(snapshots, exchangeId)
    {
      if exchangeId in snapshots {
        s := snapshots[exchangeId];
      } else {
        s := Snapshot(exchangeId, Unknown, [], true);
      }
    }

    method ApplyToPosition(order: ApprovedOrder, qty: Qty, price: real)
      modifies `positions
      ensures positions == Booked(old(positions), order.symbol, order.side, qty, price)
    {
      var symbol := order.symbol;
      if symbol !in positions {
        positions := positions[symbol := Holding(order.side, qty, price)];
        return;
      }
      var h := positions[symbol];
      if h.side == order.side {
        var total: Qty := h.qty + qty;
        var avg := (h.avg * h.qty + price * qty) / total;
        assert avg == WeightedAverage(h.avg, h.qty, price, qty);
        positions := positions[symbol := h.(avg := avg, qty := total)];
        return;
      }
      if qty < h.qty - BOOK_TOLERANCE {
        positions := positions[symbol := h.(qty := h.qty - qty)];
        return;
      }
      if Abs(qty - h.qty) <= BOOK_TOLERANCE {
        positions := positions - {symbol};
        return;
      }
      positions := positions[symbol := Holding(order.side, qty - h.qty, price)];
    }

    /** Replaces the whole book by the persisted rows; rows without quantity are never hydrated. */
    method HydratePositions(rows: seq<HydrationRow>)
      modifies `positions
      ensures positions == Hydrated(rows)
    {
      var book: Book := map[];
      for i := 0 to |rows|
        invariant book == Hydrated(rows[..i])
      {
        assert rows[..i + 1][..i] == rows[..i];
        if rows[i].qty > 0.0 {
          book := book[rows[i].symbol := Holding(rows[i].side, rows[i].qty, rows[i].avg)];
        }
      }
      assert rows[..|rows|] == rows;
      positions := book;
    }
  }
}
