/** The pagination walks of app/execution/bybit_demo.py: the executions of one order, one poll of it, and the
    open orders of a symbol. */
module ExchangePolling {
  import opened Basics
  import opened OrderState
  import opened FillLedger
  import opened FillService
  import opened Paging
  import Orders = OrderLifecycle

  /** The rows of one page up to the first that does not parse. */
  method ReadRows(rows: seq<Option<Fill>>) returns (fills: seq<Fill>, clean: bool)
    ensures clean <==> Clean(rows)
    ensures |fills| <= |rows| && fills == Parsed(rows[..|fills|])
    ensures clean ==> fills == Parsed(rows)
    ensures !clean ==> |fills| < |rows| && rows[|fills|] == None
  {
    fills, clean := [], true;
    for j := 0 to |rows|
      invariant |fills| == j && clean && fills == Parsed(rows[..j])
      invariant forall i :: 0 <= i < j ==> rows[i].Some?
    {
      ParsedConcat(rows, j);
      match rows[j]
      case None =>
        clean := false;
        return;
      case Some(fill) => fills := fills + [fill];
    }
    assert rows[..|rows|] == rows;
  }

  /** The first `extra` rows of the k-th page, when there is such a page. */
  function Begun(get: Transport<Fill>, k: nat, extra: nat): seq<Fill> {
    match PageAt(get, k)
    case Served(page) => if extra <= |page.rows| then Parsed(page.rows[..extra]) else []
    case _ => []
  }

  /** _fetch_all_executions: nothing validated before an interruption is dropped, and only a walk that read every
      page cleanly is complete. */
  method FetchAllExecutions(get: Transport<Fill>, maxPages: nat, ghost book: Book<Fill>)
    returns (fills: seq<Fill>, complete: bool, raised: bool, ghost read: nat, ghost extra: nat)
    requires maxPages > 0
    ensures read <= maxPages && CleanAll(get, read) && Continuing(get, read)
    ensures raised ==> read < maxPages && PageAt(get, read).Broken?
    ensures fills == Gathered(get, read) + Begun(get, read, extra)
    ensures complete ==> read > 0 && extra == 0 && CursorAt(get, read) == ""
    ensures !complete && !raised ==>
      || read == maxPages
      || Repeats(get, read)
      || PageAt(get, read) in {Unreachable, Malformed}
      || (PageAt(get, read).Served? && extra < |PageAt(get, read).page.rows| && PageAt(get, read).page.rows[extra] == None)
    ensures Faithful(get, book) && complete ==> Walk(book, "", maxPages) == Some(fills)
    ensures WillEnd(get, book, maxPages) ==> complete
  {
    fills, complete, raised, read, extra := [], false, false, 0, 0;
    var cursor := "";
    var seen: set<string> := {};
    for i := 0 to maxPages
      invariant read == i && extra == 0 && !raised && !complete && fills == Gathered(get, i)
      invariant CleanAll(get, i) && Walking(get, i, cursor, seen)
      invariant WillEnd(get, book, maxPages) ==> i < maxPages
    {
      match get(i, cursor)
      case Unreachable => return;
      case Broken =>
        raised := true;
        return;
      case Malformed => return;
      case Served(page) =>
        var rows, clean := ReadRows(page.rows);
        fills := fills + rows;
        if !clean {
          extra := |rows|;
          return;
        }
        read := i + 1;
        CleanOn(get, i);
        WalkOn(get, i, cursor, seen, page.next);
        if page.next == "" {
          complete := true;
          CompleteWalk(get, book, read, maxPages);
          return;
        }
        WillNotRepeat(get, book, read, maxPages);
        if page.next in seen {
          return;
        }
        seen := seen + {page.next};
        cursor := page.next;
    }
  }

  /** Whatever was read, every fill is one the exchange lists. */
  lemma {:induction false} ReadFillsAreGenuine(get: Transport<Fill>, book: Book<Fill>, k: nat, extra: nat, f: Fill)
    requires Faithful(get, book) && f in Gathered(get, k) + Begun(get, k, extra)
    ensures exists c :: f in book(c).0
  {
    if f in Gathered(get, k) {
      GatheredRowsAreGenuine(get, book, k, f);
    } else {
      var rows := PageAt(get, k).page.rows;
      ParsedRowsAreThere(rows[..extra], f);
      assert Some(f) in rows;
      assert f in book(CursorAt(get, k)).0;
    }
  }

  // ---- one poll ----

  /** The raw order status of the exchange, as the status map reads it; None when the query failed or lists nothing. */
  datatype RawStatus = New | PartiallyFilledNow | FilledNow | CancelledNow | PartiallyFilledCanceled | RejectedNow | Unrecognised

  function Mapped(raw: RawStatus): OrderStatus {
    match raw
    case New => Submitted
    case PartiallyFilledNow => PartiallyFilled
    case FilledNow => Filled
    case CancelledNow => Cancelled
    case PartiallyFilledCanceled => Cancelled
    case RejectedNow => Rejected
    case Unrecognised => Unknown
  }

  /** The exchange's own status tells the truth: a filled, cancelled or rejected order executes no more, a rejected
      one never did. */
  ghost predicate TruthfulStatus(r: Orders.Remote, status: Option<RawStatus>) {
    status.Some? ==>
      && (Mapped(status.value) in {Filled, Cancelled, Rejected} ==> r.final)
      && (Mapped(status.value) == Rejected ==> r.fills == [])
  }

  /** The listing of an order's executions: its fills and nothing else. */
  ghost predicate ListsFills(book: Book<Fill>, r: Orders.Remote) {
    && (forall c :: forall f <- book(c).0 :: f in r.fills)
    && (forall n: nat :: Walk(book, "", n).Some? ==> forall f <- r.fills :: f in Walk(book, "", n).value)
  }

  /** poll_order: one status query, and the execution walk only for a status that can carry fills. Against a truthful
      exchange the snapshot is honest, whatever was interrupted. */
  method PollOrder(exchangeId: string, status: Option<RawStatus>, get: Transport<Fill>, maxPages: nat,
                   ghost book: Book<Fill>, ghost r: Orders.Remote)
    returns (snapshot: Snapshot, raised: bool)
    requires maxPages > 0
    ensures snapshot.exchangeId == exchangeId
    ensures snapshot.status == match status case Some(raw) => Mapped(raw) case None => Unknown
    ensures snapshot.status !in {PartiallyFilled, Filled, Cancelled} ==>
      snapshot.fills == [] && snapshot.complete && !raised
    ensures snapshot.status in {PartiallyFilled, Filled, Cancelled} && WillEnd(get, book, maxPages) ==>
      snapshot.complete && Walk(book, "", maxPages) == Some(snapshot.fills)
    ensures Faithful(get, book) && TruthfulStatus(r, status) && ListsFills(book, r) && !raised ==>
      Orders.Honest(r, snapshot)
  {
    raised := false;
    if status.None? {
      return Snapshot(exchangeId, Unknown, [], true), false;
    }
    var mapped := Mapped(status.value);
    var fills: seq<Fill>, complete := [], true;
    ghost var read: nat, extra: nat;
    if mapped in {PartiallyFilled, Filled, Cancelled} {
      fills, complete, raised, read, extra := FetchAllExecutions(get, maxPages, book);
      if Faithful(get, book) && ListsFills(book, r) {
        forall f | f in fills
          ensures f in r.fills
        {
          ReadFillsAreGenuine(get, book, read, extra, f);
        }
      }
    }
    snapshot := Snapshot(exchangeId, mapped, fills, complete);
  }

  // ---- the open orders of a symbol ----

  /** A row of the open-orders listing; `open` says its status is New or PartiallyFilled. */
  datatype OpenRow = OpenRow(id: string, side: string, qty: real, open: bool)

  function OnlyOpen(rows: seq<OpenRow>): seq<OpenRow> {
    if rows == [] then []
    else
      var rest := OnlyOpen(rows[..|rows| - 1]);
      if rows[|rows| - 1].open then rest + [rows[|rows| - 1]] else rest
  }

  lemma {:induction false} OnlyOpenConcat(xs: seq<OpenRow>, ys: seq<OpenRow>)
    ensures OnlyOpen(xs + ys) == OnlyOpen(xs) + OnlyOpen(ys)
    decreases |ys|
  {
    if ys == [] {
      assert xs + ys == xs;
    } else {
      var n := |ys| - 1;
      assert (xs + ys)[..|xs| + n] == xs + ys[..n];
      OnlyOpenConcat(xs, ys[..n]);
    }
  }

  lemma {:induction false} OpenAfterPage(get: Transport<OpenRow>, i: nat)
    requires PageAt(get, i).Served?
    ensures OnlyOpen(Gathered(get, i + 1)) == OnlyOpen(Gathered(get, i)) + OnlyOpen(Parsed(PageAt(get, i).page.rows))
  {
    OnlyOpenConcat(Gathered(get, i), Parsed(PageAt(get, i).page.rows));
  }

  /** list_open_orders: the open orders, or an exception (None). Only a complete, cleanly paginated listing may ever
      read as "no open orders". */
  method ListOpenOrders(get: Transport<OpenRow>, maxPages: nat, ghost book: Book<OpenRow>)
    returns (orders: Option<seq<OpenRow>>)
    requires maxPages > 0
    ensures Faithful(get, book) && orders.Some? ==>
      Walk(book, "", maxPages).Some? && orders.value == OnlyOpen(Walk(book, "", maxPages).value)
    ensures WillEnd(get, book, maxPages) ==> orders.Some?
  {
    var open: seq<OpenRow> := [];
    var cursor := "";
    var seen: set<string> := {};
    orders := None;
    for i := 0 to maxPages
      invariant open == OnlyOpen(Gathered(get, i)) && orders == None
      invariant CleanAll(get, i) && Walking(get, i, cursor, seen)
      invariant WillEnd(get, book, maxPages) ==> i < maxPages
    {
      var rows, next := OpenPage(get, i, cursor);
      if rows.None? {
        return;
      }
      OpenAfterPage(get, i);
      CleanOn(get, i);
      WalkOn(get, i, cursor, seen, next);
      open := open + rows.value;
      if next == "" {
        CompleteWalk(get, book, i + 1, maxPages);
        return Some(open);
      }
      WillNotRepeat(get, book, i + 1, maxPages);
      if next in seen {
        return;
      }
      seen := seen + {next};
      cursor := next;
    }
  }

  /** One request of the listing: its open rows and the next cursor, unless the request or a row raises. */
  method OpenPage(get: Transport<OpenRow>, i: nat, cursor: string) returns (open: Option<seq<OpenRow>>, next: string)
    ensures open.Some? <==> get(i, cursor).Served? && Clean(get(i, cursor).page.rows)
    ensures open.Some? ==> open.value == OnlyOpen(Parsed(get(i, cursor).page.rows)) && next == get(i, cursor).page.next
  {
    match get(i, cursor)
    case Served(page) =>
      open := OpenOnPage(page.rows);
      next := page.next;
    case _ =>
      open, next := None, "";
  }

  lemma {:induction false} OpenRowsOfMore(rows: seq<Option<OpenRow>>, j: nat)
    requires j < |rows| && rows[j].Some?
    ensures var (before, row) := (OnlyOpen(Parsed(rows[..j])), rows[j].value);
      OnlyOpen(Parsed(rows[..j + 1])) == if row.open then before + [row] else before
  {
    ParsedConcat(rows, j);
    var parsed := Parsed(rows[..j]);
    assert (parsed + [rows[j].value])[..|parsed|] == parsed;
  }

  /** The open rows of one page; a quantity that is not a number raises. */
  method OpenOnPage(rows: seq<Option<OpenRow>>) returns (open: Option<seq<OpenRow>>)
    ensures open.Some? <==> Clean(rows)
    ensures open.Some? ==> open.value == OnlyOpen(Parsed(rows))
  {
    var acc: seq<OpenRow> := [];
    for j := 0 to |rows|
      invariant forall i :: 0 <= i < j ==> rows[i].Some?
      invariant acc == OnlyOpen(Parsed(rows[..j]))
    {
      if rows[j].None? {
        return None;
      }
      OpenRowsOfMore(rows, j);
      if rows[j].value.open {
        acc := acc + [rows[j].value];
      }
    }
    assert rows[..|rows|] == rows;
    return Some(acc);
  }
}
