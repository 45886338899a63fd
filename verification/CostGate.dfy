/** The net-viability gate of app/risk/cost_model.py, and what its verdict means for a paper trade. */
module CostGate {
  import opened Basics
  import opened FillLedger
  import opened PositionBook

  /** A number as the gate receives it. */
  datatype Reading = Finite(value: real) | NotFinite

  datatype CostModel = CostModel(feeRate: real, slippageBps: real, atrMultiple: real, minCoverage: real) {
    function Slippage(): real {
      slippageBps / 10000.0
    }

    /** What configuration validation enforces. */
    predicate Configured() {
      feeRate >= 0.0 && slippageBps >= 0.0 && atrMultiple > 0.0 && minCoverage > 0.0
    }
  }

  datatype GateFailure =
    | NonFiniteInput
    | QtyNotPositive
    | ReferencePriceNotPositive
    | AtrUnavailable
    | SideInvalid
    | ProjectedExitInvalid
    | InsufficientCoverage

  datatype Verdict = Approved | Refused(failure: GateFailure)

  const MIN_VALID_PRICE_FRACTION := 0.00000001

  /** Adverse slippage: a buyer pays more, a seller receives less. */
  function AdverseFillPrice(reference: real, side: Side, slippage: real): real {
    if side.Buy? then reference * (1.0 + slippage) else reference * (1.0 - slippage)
  }

  function ExpectedMovePerUnit(m: CostModel, atr: real): real {
    atr * m.atrMultiple
  }

  function RawExit(m: CostModel, side: Side, reference: real, atr: real): real {
    if side.Buy? then reference + ExpectedMovePerUnit(m, atr) else reference - ExpectedMovePerUnit(m, atr)
  }

  /** The projected exit would have to be lifted to the smallest valid price. */
  predicate Clamped(m: CostModel, side: Side, reference: real, atr: real) {
    RawExit(m, side, reference, atr) < reference * MIN_VALID_PRICE_FRACTION
  }

  /** Fee and slippage of one leg at its own notional. */
  function LegCost(m: CostModel, side: Side, qty: real, price: real): real {
    var fill := AdverseFillPrice(price, side, m.Slippage());
    fill * qty * m.feeRate + Abs(fill - price) * qty
  }

  function RoundTripCost(m: CostModel, side: Side, qty: real, reference: real, atr: real): real {
    LegCost(m, side, qty, reference) + LegCost(m, side.Opposite(), qty, RawExit(m, side, reference, atr))
  }

  function ExpectedMove(m: CostModel, qty: real, atr: real): real {
    ExpectedMovePerUnit(m, atr) * qty
  }

  function EvaluateCostGate(m: CostModel, side: Option<Side>, qty: Reading, reference: Reading, atr: Reading): Verdict {
    if qty.NotFinite? || reference.NotFinite? || atr.NotFinite? then Refused(NonFiniteInput)
    else if qty.value <= 0.0 then Refused(QtyNotPositive)
    else if reference.value <= 0.0 then Refused(ReferencePriceNotPositive)
    else if atr.value <= 0.0 then Refused(AtrUnavailable)
    else if side.None? then Refused(SideInvalid)
    else if Clamped(m, side.value, reference.value, atr.value) then Refused(ProjectedExitInvalid)
    else if ExpectedMove(m, qty.value, atr.value) >=
            RoundTripCost(m, side.value, qty.value, reference.value, atr.value) * m.minCoverage then Approved
    else Refused(InsufficientCoverage)
  }

  // ---- the verdict is one threshold ----

  /** Cost of a round trip per unit traded, as a straight line in the expected move. */
  function UnitCost(m: CostModel, side: Side, reference: real, move: real): real {
    var fee, s := m.feeRate, m.Slippage();
    2.0 * reference * (fee + s) +
    if side.Buy? then move * (fee * (1.0 - s) + s) else -(move * (fee * (1.0 + s) + s))
  }

  lemma {:induction false} LegCostClosedForm(m: CostModel, side: Side, qty: real, price: real)
    requires m.Configured() && price >= 0.0
    ensures LegCost(m, side, qty, price) ==
      qty * (price * (m.feeRate * (1.0 + side.Signed(m.Slippage())) + m.Slippage()))
  {
    var s, fill := m.Slippage(), AdverseFillPrice(price, side, m.Slippage());
    assert price * s >= 0.0;
    assert fill == price + side.Signed(price * s);
    assert Abs(fill - price) == price * s;
    calc {
      LegCost(m, side, qty, price);
      fill * qty * m.feeRate + price * s * qty;
      { assert fill == price * (1.0 + side.Signed(s)); }
      price * (1.0 + side.Signed(s)) * qty * m.feeRate + price * s * qty;
      qty * (price * (m.feeRate * (1.0 + side.Signed(s)) + s));
    }
  }

  lemma {:induction false} RoundTripCostClosedForm(m: CostModel, side: Side, qty: real, reference: real, atr: real)
    requires m.Configured() && reference >= 0.0 && RawExit(m, side, reference, atr) >= 0.0
    ensures RoundTripCost(m, side, qty, reference, atr) ==
      qty * UnitCost(m, side, reference, ExpectedMovePerUnit(m, atr))
  {
    var fee, s, move, exit := m.feeRate, m.Slippage(), ExpectedMovePerUnit(m, atr), RawExit(m, side, reference, atr);
    LegCostClosedForm(m, side, qty, reference);
    LegCostClosedForm(m, side.Opposite(), qty, exit);
    var into, out := fee * (1.0 + side.Signed(s)) + s, fee * (1.0 - side.Signed(s)) + s;
    assert side.Opposite().Signed(s) == -side.Signed(s);
    assert exit * out == reference * out + side.Signed(move) * out;
    assert reference * into + reference * out == 2.0 * reference * (fee + s);
    assert qty * (reference * into) + qty * (exit * out) == qty * (reference * into + exit * out);
  }

  /** The gate's approval of a well-formed entry, without mentioning the quantity: the expected move
      must reach the required multiple of the unit cost and leave a valid exit price. */
  predicate ClearsThreshold(m: CostModel, side: Side, reference: real, atr: real) {
    var move := ExpectedMovePerUnit(m, atr);
    !Clamped(m, side, reference, atr) && move >= UnitCost(m, side, reference, move) * m.minCoverage
  }

  lemma {:induction false} ScaledComparison(qty: real, x: real, y: real)
    requires qty > 0.0
    ensures x * qty >= y * qty <==> x >= y
  {
    if x >= y {
      assert (x - y) * qty >= 0.0;
    } else {
      assert (y - x) * qty > 0.0;
    }
  }

  /** The verdict is one closed-form threshold and does not depend on the quantity. */
  lemma {:induction false} GateIsOneThreshold(m: CostModel, side: Side, qty: real, reference: real, atr: real)
    requires m.Configured() && qty > 0.0 && reference > 0.0 && atr > 0.0
    ensures EvaluateCostGate(m, Some(side), Finite(qty), Finite(reference), Finite(atr)) == Approved
      <==> ClearsThreshold(m, side, reference, atr)
  {
    if !Clamped(m, side, reference, atr) {
      RoundTripCostClosedForm(m, side, qty, reference, atr);
      var move := ExpectedMovePerUnit(m, atr);
      var unit := UnitCost(m, side, reference, move);
      assert qty * unit * m.minCoverage == unit * m.minCoverage * qty;
      ScaledComparison(qty, move, unit * m.minCoverage);
    }
  }

  /** Slope of the coverage margin in the expected move. */
  function MarginSlope(m: CostModel, side: Side): real {
    var fee, s := m.feeRate, m.Slippage();
    if side.Buy? then 1.0 - m.minCoverage * (fee * (1.0 - s) + s) else 1.0 + m.minCoverage * (fee * (1.0 + s) + s)
  }

  /** What the expected move times the slope must reach: the required multiple of the cost of going
      in and out at an unmoved price. */
  function MarginTarget(m: CostModel, reference: real): real {
    2.0 * reference * (m.feeRate + m.Slippage()) * m.minCoverage
  }

  lemma {:induction false} ThresholdIsLinear(m: CostModel, side: Side, reference: real, atr: real)
    ensures ClearsThreshold(m, side, reference, atr) <==>
      !Clamped(m, side, reference, atr) && Margin(m, side, reference, atr)
  {
    var move, fee, s, r := ExpectedMovePerUnit(m, atr), m.feeRate, m.Slippage(), m.minCoverage;
    var base := 2.0 * reference * (fee + s);
    if side.Buy? {
      var c := fee * (1.0 - s) + s;
      assert (base + move * c) * r == base * r + move * (r * c);
      assert move * (1.0 - r * c) == move - move * (r * c);
    } else {
      var c := fee * (1.0 + s) + s;
      assert (base - move * c) * r == base * r - move * (r * c);
      assert move * (1.0 + r * c) == move + move * (r * c);
    }
  }

  lemma {:induction false} MarginTargetIsNonNegative(m: CostModel, reference: real)
    requires m.Configured() && reference > 0.0
    ensures MarginTarget(m, reference) >= 0.0
  {
    NonNegativeProduct(2.0 * reference, m.feeRate + m.Slippage());
    NonNegativeProduct(2.0 * reference * (m.feeRate + m.Slippage()), m.minCoverage);
  }

  lemma {:induction false} LargerMoveKeepsTheMargin(x: real, y: real, slope: real, target: real)
    requires 0.0 < x <= y && target >= 0.0 && x * slope >= target
    ensures y * slope >= target
  {
    assert slope < 0.0 ==> x * slope < 0.0;
    NonNegativeProduct(y - x, slope);
  }

  lemma {:induction false} MoveGrowsWithAtr(m: CostModel, atr: real, more: real)
    requires m.Configured() && 0.0 < atr <= more
    ensures 0.0 < ExpectedMovePerUnit(m, atr) <= ExpectedMovePerUnit(m, more)
  {
    NonNegativeProduct(more - atr, m.atrMultiple);
  }

  /** The coverage margin, as an inequality linear in the expected move. */
  predicate Margin(m: CostModel, side: Side, reference: real, atr: real) {
    ExpectedMovePerUnit(m, atr) * MarginSlope(m, side) >= MarginTarget(m, reference)
  }

  lemma {:induction false} MarginIsUpwardClosed(m: CostModel, side: Side, reference: real, atr: real, more: real)
    requires m.Configured() && reference > 0.0 && 0.0 < atr <= more && Margin(m, side, reference, atr)
    ensures Margin(m, side, reference, more)
  {
    MarginTargetIsNonNegative(m, reference);
    MoveGrowsWithAtr(m, atr, more);
    LargerMoveKeepsTheMargin(ExpectedMovePerUnit(m, atr), ExpectedMovePerUnit(m, more),
                             MarginSlope(m, side), MarginTarget(m, reference));
  }

  lemma {:induction false} BuyIsNeverClamped(m: CostModel, reference: real, atr: real)
    requires m.Configured() && reference > 0.0 && atr > 0.0
    ensures !Clamped(m, Buy, reference, atr)
  {
    MoveGrowsWithAtr(m, atr, atr);
  }

  /** Approval is upward closed in ATR; for a SELL, up to the clamp. */
  lemma {:induction false} ApprovalIsUpwardClosed(m: CostModel, side: Side, reference: real, atr: real, more: real)
    requires m.Configured() && reference > 0.0 && 0.0 < atr <= more
    requires ClearsThreshold(m, side, reference, atr)
    ensures ClearsThreshold(m, side, reference, more) <==> !Clamped(m, side, reference, more)
    ensures side.Buy? ==> !Clamped(m, side, reference, more)
  {
    ThresholdIsLinear(m, side, reference, atr);
    ThresholdIsLinear(m, side, reference, more);
    MarginIsUpwardClosed(m, side, reference, atr, more);
    BuyIsNeverClamped(m, reference, more);
  }

  /** The break-even ATR of a SELL never exceeds that of a BUY. */
  lemma {:induction false} SellNeedsNoMoreThanBuy(m: CostModel, reference: real, atr: real)
    requires m.Configured() && reference > 0.0 && atr > 0.0
    requires ClearsThreshold(m, Buy, reference, atr) && !Clamped(m, Sell, reference, atr)
    ensures ClearsThreshold(m, Sell, reference, atr)
  {
    ThresholdIsLinear(m, Buy, reference, atr);
    ThresholdIsLinear(m, Sell, reference, atr);
    var fee, s, r, move := m.feeRate, m.Slippage(), m.minCoverage, ExpectedMovePerUnit(m, atr);
    assert MarginSlope(m, Sell) - MarginSlope(m, Buy) == r * (2.0 * (fee + s));
    NonNegativeProduct(r, 2.0 * (fee + s));
    NonNegativeProduct(atr, m.atrMultiple);
    NonNegativeProduct(move, r * (2.0 * (fee + s)));
  }

  // ---- what an approval is worth ----

  /** The fill price of the paper engine. */
  function PaperFillPrice(price: real, side: Side, slippageBps: real): real {
    price + side.Signed(price * (slippageBps / 10000.0))
  }

  function PaperFill(id: string, side: Side, qty: Qty, price: real, feeRate: real, slippageBps: real): Fill {
    var fillPrice := PaperFillPrice(price, side, slippageBps);
    Fill(id, qty, fillPrice, qty * fillPrice * feeRate)
  }

  /** The paper engine fills at exactly the price the gate and the sizing estimate. */
  lemma {:induction false} PaperFillsAtTheAdversePrice(price: real, side: Side, m: CostModel)
    ensures PaperFillPrice(price, side, m.slippageBps) == AdverseFillPrice(price, side, m.Slippage())
  {
  }

  lemma {:induction false} LegCostOfPaperFill(m: CostModel, side: Side, qty: Qty, price: real, id: string)
    requires m.Configured() && price >= 0.0
    ensures var f := PaperFill(id, side, qty, price, m.feeRate, m.slippageBps);
      LegCost(m, side, qty, price) == f.fee + side.Signed(qty * (f.price - price))
  {
    PaperFillsAtTheAdversePrice(price, side, m);
    var fill := AdverseFillPrice(price, side, m.Slippage());
    assert price * m.Slippage() >= 0.0;
    assert fill - price == side.Signed(price * m.Slippage());
  }

  /** Realized profit less both fees of a paper trade that enters at one reference price and exits
      at another, through the same position bookkeeping the fill applier uses. */
  function RoundTripNet(order: OrderSpec, entry: Fill, exit: Fill): real {
    ClosingDelta(NewPosition(order, entry), exit) - entry.fee - exit.fee
  }

  lemma {:induction false} PaperRoundTripReals(side: Side, qty: real, entry: real, exit: real, reference: real,
                                               move: real)
    ensures var out := reference + side.Signed(move);
      side.Signed(qty * (exit - entry)) ==
      move * qty - side.Opposite().Signed(qty * (exit - out)) - side.Signed(qty * (entry - reference))
  {
  }

  /** The gate means what it says: a paper entry closed at the gate's projected exit nets exactly the
      expected move less the round-trip cost. */
  lemma {:induction false} PaperRoundTripNetsMoveLessCost(m: CostModel, order: OrderSpec, qty: Qty, reference: real,
                                                          atr: real)
    requires m.Configured() && reference >= 0.0 && RawExit(m, order.side, reference, atr) >= 0.0
    ensures var entry := PaperFill("in", order.side, qty, reference, m.feeRate, m.slippageBps);
      var exit := PaperFill("out", order.side.Opposite(), qty, RawExit(m, order.side, reference, atr), m.feeRate, m.slippageBps);
      RoundTripNet(order, entry, exit) == ExpectedMove(m, qty, atr) - RoundTripCost(m, order.side, qty, reference, atr)
  {
    var side, out := order.side, RawExit(m, order.side, reference, atr);
    LegCostOfPaperFill(m, side, qty, reference, "in");
    LegCostOfPaperFill(m, side.Opposite(), qty, out, "out");
    PaperRoundTripReals(side, qty, PaperFillPrice(reference, side, m.slippageBps),
                        PaperFillPrice(out, side.Opposite(), m.slippageBps), reference, ExpectedMovePerUnit(m, atr));
    assert out == reference + side.Signed(ExpectedMovePerUnit(m, atr));
  }

  /** An approval under coverage ratio r therefore nets at least (r - 1) times the cost. */
  lemma {:induction false} ApprovalNetsTheCoverage(m: CostModel, order: OrderSpec, qty: Qty, reference: real, atr: real)
    requires m.Configured()
    requires EvaluateCostGate(m, Some(order.side), Finite(qty), Finite(reference), Finite(atr)) == Approved
    ensures var entry := PaperFill("in", order.side, qty, reference, m.feeRate, m.slippageBps);
      var exit := PaperFill("out", order.side.Opposite(), qty, RawExit(m, order.side, reference, atr), m.feeRate, m.slippageBps);
      RoundTripNet(order, entry, exit) >= (m.minCoverage - 1.0) * RoundTripCost(m, order.side, qty, reference, atr)
  {
    PaperRoundTripNetsMoveLessCost(m, order, qty, reference, atr);
    var cost := RoundTripCost(m, order.side, qty, reference, atr);
    assert (m.minCoverage - 1.0) * cost == cost * m.minCoverage - cost;
  }
}
