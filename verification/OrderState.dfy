/** The order status machine of app/execution/order_state.py. */
module OrderState {

  datatype OrderStatus =
    | PendingSubmit
    | Submitted
    | PartiallyFilled
    | Filled
    | CancelPending
    | Cancelled
    | Rejected
    | Unknown

  const TERMINAL_STATUSES := {Filled, Cancelled, Rejected}

  const NON_TERMINAL_STATUSES := {PendingSubmit, Submitted, PartiallyFilled, CancelPending, Unknown}

  function AllowedFrom(s: OrderStatus): set<OrderStatus> {
    match s
    case PendingSubmit => {Submitted, Rejected, Unknown, Filled, PartiallyFilled}
    case Submitted => {PartiallyFilled, Filled, CancelPending, Cancelled, Rejected, Unknown}
    case PartiallyFilled => {PartiallyFilled, Filled, CancelPending, Cancelled, Unknown}
    case CancelPending => {Cancelled, Filled, PartiallyFilled, Unknown}
    case Unknown => {Submitted, PartiallyFilled, Filled, CancelPending, Cancelled, Rejected, Unknown}
    case Filled => {}
    case Cancelled => {}
    case Rejected => {}
  }

  predicate IsTerminal(s: OrderStatus) {
    s in TERMINAL_STATUSES
  }

  predicate CanMove(from: OrderStatus, to: OrderStatus) {
    to in AllowedFrom(from)
  }

  /** A history of statuses, each step of which the table allows. */
  ghost predicate LegalPath(path: seq<OrderStatus>) {
    forall i :: 0 < i < |path| ==> CanMove(path[i - 1], path[i])
  }

  /** Whatever legal history an order has, only its last status can be terminal,
      and the initial status is never entered again. */
  lemma {:induction false} TerminalEndsEveryPath(path: seq<OrderStatus>, i: nat, j: nat)
    requires LegalPath(path) && i < j < |path|
    ensures !IsTerminal(path[i])
    ensures path[j] != PendingSubmit
    ensures path[i] in NON_TERMINAL_STATUSES
  {
    assert CanMove(path[i], path[i + 1]);
    assert CanMove(path[j - 1], path[j]);
  }

  /** Unknown is the way out of every live status: through it, any status except the initial
      one is at most two legal moves away, and a terminal status has no way out at all. */
  lemma {:induction false} UnknownReconnectsEveryLiveStatus(from: OrderStatus, to: OrderStatus)
    ensures !IsTerminal(from) <==> CanMove(from, Unknown)
    ensures !IsTerminal(from) && to != PendingSubmit ==> LegalPath([from, Unknown, to])
    ensures IsTerminal(from) ==> !CanMove(from, to)
  {
    if !IsTerminal(from) && to != PendingSubmit {
      var p := [from, Unknown, to];
      assert CanMove(p[0], p[1]) && CanMove(p[1], p[2]);
    }
  }
}
