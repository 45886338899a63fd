/** Cursor pagination as app/execution/bybit_demo.py and app/execution/funding.py walk it: pages of rows, a
    repeated-cursor guard, a page cap, and answers that may fail, be malformed or hold rows that do not parse. */
module Paging {
  import opened Basics

  /** A page of rows, None where a row does not parse; the empty cursor ends the listing. */
  datatype Page<R> = Page(rows: seq<Option<R>>, next: string)

  /** Unreachable is a timeout or rate limit, Broken any other exception, Malformed a page without a row list. */
  datatype Answer<R> = Unreachable | Broken | Malformed | Served(page: Page<R>)

  /** The answer to the n-th request of one walk, for a cursor. */
  type Transport<R> = (nat, string) -> Answer<R>

  /** The cursor of the k-th request, and its answer. */
  function CursorAt<R>(get: Transport<R>, k: nat): string {
    if k == 0 then ""
    else match get(k - 1, CursorAt(get, k - 1))
      case Served(page) => page.next
      case _ => ""
  }

  function PageAt<R>(get: Transport<R>, k: nat): Answer<R> {
    get(k, CursorAt(get, k))
  }

  function Parsed<R>(rows: seq<Option<R>>): seq<R> {
    if rows == [] then []
    else
      var rest := Parsed(rows[..|rows| - 1]);
      match rows[|rows| - 1] case Some(r) => rest + [r] case None => rest
  }

  predicate Clean<R>(rows: seq<Option<R>>) {
    forall i :: 0 <= i < |rows| ==> rows[i].Some?
  }

  /** Every row that parses on the first k pages, in order. */
  function Gathered<R>(get: Transport<R>, k: nat): seq<R> {
    if k == 0 then []
    else match PageAt(get, k - 1)
      case Served(page) => Gathered(get, k - 1) + Parsed(page.rows)
      case _ => Gathered(get, k - 1)
  }

  /** The first k requests were all answered with a page. */
  predicate ServedAll<R>(get: Transport<R>, k: nat) {
    k == 0 || (ServedAll(get, k - 1) && PageAt(get, k - 1).Served?)
  }

  /** And every row of those pages parses. */
  predicate CleanAll<R>(get: Transport<R>, k: nat) {
    k == 0 || (CleanAll(get, k - 1) && PageAt(get, k - 1).Served? && Clean(PageAt(get, k - 1).page.rows))
  }

  /** Every page before the k-th pointed to a next one. */
  predicate Continuing<R>(get: Transport<R>, k: nat) {
    k <= 1 || (Continuing(get, k - 1) && CursorAt(get, k - 1) != "")
  }

  /** The cursors a walk has met after k pages. */
  function SeenCursors<R>(get: Transport<R>, k: nat): set<string> {
    if k == 0 then {} else SeenCursors(get, k - 1) + {CursorAt(get, k)}
  }

  predicate Repeats<R>(get: Transport<R>, k: nat) {
    k > 0 && CursorAt(get, k) in SeenCursors(get, k - 1)
  }

  lemma {:induction false} CleanAt<R>(get: Transport<R>, k: nat, i: nat)
    requires CleanAll(get, k) && i < k
    ensures PageAt(get, i).Served? && Clean(PageAt(get, i).page.rows)
    decreases k
  {
    if i == k - 1 {
    } else {
      CleanAt(get, k - 1, i);
    }
  }

  lemma {:induction false} ContinuesAt<R>(get: Transport<R>, k: nat, i: nat)
    requires Continuing(get, k) && 0 < i < k
    ensures CursorAt(get, i) != "" && Continuing(get, i)
    decreases k
  {
    if i == k - 1 {
    } else {
      ContinuesAt(get, k - 1, i);
    }
  }

  lemma {:induction false} SeenAt<R>(get: Transport<R>, k: nat, cursor: string) returns (i: nat)
    requires cursor in SeenCursors(get, k)
    ensures 0 < i <= k && CursorAt(get, i) == cursor
    decreases k
  {
    if CursorAt(get, k) == cursor {
      i := k;
    } else {
      i := SeenAt(get, k - 1, cursor);
    }
  }

  // ---- what the exchange really holds ----

  /** A listing: for every cursor the rows of its page and the next cursor. */
  type Book<R> = string -> (seq<R>, string)

  /** The whole listing from a cursor, if it ends within n pages. */
  function Walk<R>(book: Book<R>, cursor: string, n: nat): Option<seq<R>>
    decreases n
  {
    if n == 0 then None
    else if book(cursor).1 == "" then Some(book(cursor).0)
    else match Walk(book, book(cursor).1, n - 1)
      case Some(rest) => Some(book(cursor).0 + rest)
      case None => None
  }

  /** How many pages that takes. */
  function Steps<R>(book: Book<R>, cursor: string, n: nat): (k: nat)
    requires Walk(book, cursor, n).Some?
    ensures 0 < k <= n
    decreases n
  {
    if book(cursor).1 == "" then 1 else 1 + Steps(book, book(cursor).1, n - 1)
  }

  /** A page shows the rows of the listing, some of them perhaps unreadable, and its next cursor. */
  ghost predicate Shows<R>(page: Page<R>, entry: (seq<R>, string)) {
    && page.next == entry.1 && |page.rows| == |entry.0|
    && forall i :: 0 <= i < |page.rows| ==> page.rows[i] == None || page.rows[i] == Some(entry.0[i])
  }

  /** Whenever the exchange serves a page, it is a page of the listing. */
  ghost predicate Faithful<R(!new)>(get: Transport<R>, book: Book<R>) {
    forall n, c :: get(n, c).Served? ==> Shows(get(n, c).page, book(c))
  }

  ghost predicate Uninterrupted<R(!new)>(get: Transport<R>) {
    forall n, c :: get(n, c).Served? && Clean(get(n, c).page.rows)
  }

  lemma {:induction false} ParsedRow<R>(rows: seq<Option<R>>, entry: seq<R>)
    requires |rows| == |entry| && forall i :: 0 <= i < |rows| ==> rows[i] == Some(entry[i])
    ensures Parsed(rows) == entry
    decreases |rows|
  {
    if rows == [] {
    } else {
      ParsedRow(rows[..|rows| - 1], entry[..|rows| - 1]);
      assert entry == entry[..|rows| - 1] + [entry[|rows| - 1]];
    }
  }

  lemma {:induction false} ParsedConcat<R>(rows: seq<Option<R>>, i: nat)
    requires i < |rows|
    ensures Parsed(rows[..i + 1]) == match rows[i] case Some(r) => Parsed(rows[..i]) + [r] case None => Parsed(rows[..i])
  {
    assert rows[..i + 1][..i] == rows[..i];
  }

  /** Every gathered row is a row of the listing. */
  lemma {:induction false} GatheredRowsAreGenuine<R(!new)>(get: Transport<R>, book: Book<R>, k: nat, r: R)
    requires Faithful(get, book) && r in Gathered(get, k)
    ensures exists c :: r in book(c).0
    decreases k
  {
    match PageAt(get, k - 1)
    case Served(page) =>
      if r in Gathered(get, k - 1) {
        GatheredRowsAreGenuine(get, book, k - 1, r);
      } else {
        NewRowIsGenuine(get, book, k - 1, r);
      }
    case _ =>
      GatheredRowsAreGenuine(get, book, k - 1, r);
  }

  lemma {:induction false} NewRowIsGenuine<R(!new)>(get: Transport<R>, book: Book<R>, j: nat, r: R)
    requires Faithful(get, book) && PageAt(get, j).Served?
    requires r in Gathered(get, j + 1) && r !in Gathered(get, j)
    ensures r in book(CursorAt(get, j)).0
  {
    ParsedRowsAreThere(PageAt(get, j).page.rows, r);
  }

  lemma {:induction false} ParsedRowsAreThere<R>(rows: seq<Option<R>>, r: R)
    requires r in Parsed(rows)
    ensures Some(r) in rows
    decreases |rows|
  {
    var n := |rows| - 1;
    if r in Parsed(rows[..n]) {
      ParsedRowsAreThere(rows[..n], r);
    }
  }

  lemma {:induction false} CleanPage<R(!new)>(get: Transport<R>, book: Book<R>, j: nat)
    requires Faithful(get, book) && PageAt(get, j).Served? && Clean(PageAt(get, j).page.rows)
    ensures Gathered(get, j + 1) == Gathered(get, j) + book(CursorAt(get, j)).0
    ensures CursorAt(get, j + 1) == book(CursorAt(get, j)).1
  {
    ParsedRow(PageAt(get, j).page.rows, book(CursorAt(get, j)).0);
  }

  lemma {:induction false} WalkSplits<R>(book: Book<R>, cursor: string, cap: nat, rest: seq<R>)
    requires Walk(book, cursor, cap) == Some(rest)
    ensures cap > 0
    ensures book(cursor).1 == "" ==> rest == book(cursor).0
    ensures book(cursor).1 != "" ==>
      var later := Walk(book, book(cursor).1, cap - 1); later.Some? && rest == book(cursor).0 + later.value
  {
  }

  lemma {:induction false} Regrouped<R>(xs: seq<R>, ys: seq<R>, zs: seq<R>)
    ensures xs + ys + zs == xs + (ys + zs)
  {
  }

  lemma {:induction false} CleanLastPage<R(!new)>(get: Transport<R>, book: Book<R>, j: nat, cap: nat, rest: seq<R>)
    requires Faithful(get, book) && PageAt(get, j).Served? && Clean(PageAt(get, j).page.rows)
    requires CursorAt(get, j + 1) == "" && Walk(book, CursorAt(get, j), cap) == Some(rest)
    ensures Gathered(get, j + 1) == Gathered(get, j) + rest
  {
    CleanPage(get, book, j);
    WalkSplits(book, CursorAt(get, j), cap, rest);
  }

  /** What is left of the listing after page j, once its rows are gathered. */
  lemma {:induction false} CleanNextPage<R(!new)>(get: Transport<R>, book: Book<R>, j: nat, cap: nat, rest: seq<R>)
    returns (later: seq<R>)
    requires Faithful(get, book) && PageAt(get, j).Served? && Clean(PageAt(get, j).page.rows)
    requires CursorAt(get, j + 1) != "" && Walk(book, CursorAt(get, j), cap) == Some(rest)
    ensures cap > 0 && Walk(book, CursorAt(get, j + 1), cap - 1) == Some(later)
    ensures Gathered(get, j + 1) + later == Gathered(get, j) + rest
  {
    var c := CursorAt(get, j);
    CleanPage(get, book, j);
    WalkSplits(book, c, cap, rest);
    later := Walk(book, book(c).1, cap - 1).value;
    Regrouped(Gathered(get, j), book(c).0, later);
  }

  /** From page j to the end, a clean walk gathers exactly the rest of the listing. */
  lemma {:induction false} CleanSegment<R(!new)>(get: Transport<R>, book: Book<R>, j: nat, n: nat, cap: nat, rest: seq<R>)
    requires Faithful(get, book) && j < n && n - j <= cap
    requires CleanAll(get, n) && Continuing(get, n) && CursorAt(get, n) == ""
    requires Walk(book, CursorAt(get, j), cap) == Some(rest)
    ensures Gathered(get, n) == Gathered(get, j) + rest
    decreases n - j
  {
    CleanAt(get, n, j);
    if j + 1 == n {
      CleanLastPage(get, book, j, cap, rest);
    } else {
      ContinuesAt(get, n, j + 1);
      var later := CleanNextPage(get, book, j, cap, rest);
      CleanSegment(get, book, j + 1, n, cap - 1, later);
    }
  }

  lemma {:induction false} CleanWalkEnds<R(!new)>(get: Transport<R>, book: Book<R>, j: nat, n: nat, cap: nat)
    requires Faithful(get, book) && j < n && n - j <= cap
    requires CleanAll(get, n) && CursorAt(get, n) == ""
    ensures Walk(book, CursorAt(get, j), cap).Some?
    decreases n - j
  {
    CleanAt(get, n, j);
    CleanPage(get, book, j);
    if j + 1 == n {
    } else {
      CleanWalkEnds(get, book, j + 1, n, cap - 1);
    }
  }

  /** A walk that ends cleanly gathered the entire listing, and nothing else. */
  lemma {:induction false} CleanWalkIsEverything<R(!new)>(get: Transport<R>, book: Book<R>, n: nat, cap: nat)
    requires Faithful(get, book) && 0 < n <= cap
    requires CleanAll(get, n) && Continuing(get, n) && CursorAt(get, n) == ""
    ensures Walk(book, "", cap) == Some(Gathered(get, n))
  {
    CleanWalkEnds(get, book, 0, n, cap);
    var rest := Walk(book, "", cap).value;
    CleanSegment(get, book, 0, n, cap, rest);
    assert [] + rest == rest;
  }

  lemma {:induction false} WalkIsStable<R>(book: Book<R>, cursor: string, n: nat, m: nat)
    requires n <= m && Walk(book, cursor, n).Some?
    ensures Walk(book, cursor, m) == Walk(book, cursor, n)
    ensures Steps(book, cursor, m) == Steps(book, cursor, n)
    decreases n
  {
    if book(cursor).1 != "" {
      WalkIsStable(book, book(cursor).1, n - 1, m - 1);
    }
  }

  /** On an uninterrupted walk the k-th cursor is k pages further into the listing. */
  lemma {:induction false} StepsCountDown<R(!new)>(get: Transport<R>, book: Book<R>, k: nat, cap: nat)
    requires WillEnd(get, book, cap) && k < cap && Continuing(get, k + 1)
    ensures Walk(book, CursorAt(get, k), cap).Some?
    ensures Steps(book, CursorAt(get, k), cap) + k == Steps(book, "", cap)
    decreases k
  {
    if k == 0 {
    } else {
      StepsCountDown(get, book, k - 1, cap);
      var c := CursorAt(get, k - 1);
      assert get(k - 1, c).Served?;
      assert CursorAt(get, k) == book(c).1;
      WalkIsStable(book, book(c).1, cap - 1, cap);
    }
  }

  /** The exchange answers every request in full, and its listing fits the page cap. */
  ghost predicate WillEnd<R(!new)>(get: Transport<R>, book: Book<R>, cap: nat) {
    Faithful(get, book) && Uninterrupted(get) && Walk(book, "", cap).Some?
  }

  /** A listing that ends never repeats a cursor, and ends within its number of pages. */
  lemma {:induction false} EndingListingsDoNotRepeat<R(!new)>(get: Transport<R>, book: Book<R>, k: nat, cap: nat)
    requires WillEnd(get, book, cap)
    requires 0 < k <= cap && Continuing(get, k + 1)
    ensures k < cap && !Repeats(get, k)
  {
    StepsCountDown(get, book, k - 1, cap);
    var c := CursorAt(get, k - 1);
    assert get(k - 1, c).Served?;
    assert CursorAt(get, k) == book(c).1;
    if k < cap {
      StepsCountDown(get, book, k, cap);
      if Repeats(get, k) {
        var i := SeenAt(get, k - 1, CursorAt(get, k));
        if i + 1 < k + 1 {
          ContinuesAt(get, k + 1, i);
          ContinuesUpTo(get, k + 1, i + 1);
        }
        StepsCountDown(get, book, i, cap);
      }
    }
  }

  lemma {:induction false} ContinuesUpTo<R>(get: Transport<R>, k: nat, i: nat)
    requires Continuing(get, k) && i <= k
    ensures Continuing(get, i)
    decreases k
  {
    if i < k && k > 1 {
      ContinuesUpTo(get, k - 1, i);
    }
  }

  lemma {:induction false} CompleteWalk<R(!new)>(get: Transport<R>, book: Book<R>, n: nat, cap: nat)
    requires 0 < n <= cap && CleanAll(get, n) && Continuing(get, n) && CursorAt(get, n) == ""
    ensures Faithful(get, book) ==> Walk(book, "", cap) == Some(Gathered(get, n))
  {
    if Faithful(get, book) {
      CleanWalkIsEverything(get, book, n, cap);
    }
  }

  lemma {:induction false} WillNotRepeat<R(!new)>(get: Transport<R>, book: Book<R>, k: nat, cap: nat)
    requires 0 < k <= cap && Continuing(get, k + 1)
    ensures WillEnd(get, book, cap) ==> k < cap && !Repeats(get, k)
  {
    if WillEnd(get, book, cap) {
      EndingListingsDoNotRepeat(get, book, k, cap);
    }
  }

  /** The loop state of a walk after k pages: the cursor to ask for, and every cursor met. */
  ghost predicate Walking<R>(get: Transport<R>, k: nat, cursor: string, seen: set<string>) {
    cursor == CursorAt(get, k) && Continuing(get, k + 1) && seen == SeenCursors(get, k)
  }

  lemma {:induction false} WalkOn<R>(get: Transport<R>, k: nat, cursor: string, seen: set<string>, next: string)
    requires Walking(get, k, cursor, seen) && PageAt(get, k).Served? && next == PageAt(get, k).page.next
    ensures next == CursorAt(get, k + 1)
    ensures next in seen <==> Repeats(get, k + 1)
    ensures next != "" ==> Walking(get, k + 1, next, seen + {next})
  {
  }

  lemma {:induction false} CleanOn<R>(get: Transport<R>, k: nat)
    requires CleanAll(get, k) && PageAt(get, k).Served? && Clean(PageAt(get, k).page.rows)
    ensures CleanAll(get, k + 1)
    ensures Gathered(get, k + 1) == Gathered(get, k) + Parsed(PageAt(get, k).page.rows)
  {
  }
}
