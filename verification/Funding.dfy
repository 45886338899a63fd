/** Funding collection: the paginated window of app/execution/funding.py, the coverage loop of
    app/orchestrator.py and the checkpoint of app/persistence/repo.py. Times are seconds. */
module Funding {
  import opened Basics
  import opened Paging

  datatype Record = Record(id: string, symbol: string, amount: real, time: int)

  const WINDOW: int := 7 * 24 * 3600

  /** The rows of one page that parse, and whether all of them did. */
  method ParsePage(rows: seq<Option<Record>>) returns (parsed: seq<Record>, clean: bool)
    ensures parsed == Parsed(rows) && (clean <==> Clean(rows))
  {
    parsed, clean := [], true;
    for j := 0 to |rows|
      invariant parsed == Parsed(rows[..j])
      invariant clean <==> forall i :: 0 <= i < j ==> rows[i].Some?
    {
      ParsedConcat(rows, j);
      match rows[j]
      case None => clean := false;
      case Some(r) => parsed := parsed + [r];
    }
    assert rows[..|rows|] == rows;
  }

  /** list_funding: every page of one window. Rows that do not parse are skipped, and then the window is not
      complete; nothing already validated is dropped when the walk is interrupted. */
  method ListFunding(get: Transport<Record>, maxPages: nat, ghost book: Book<Record>)
    returns (records: seq<Record>, complete: bool, raised: bool, ghost read: nat)
    requires maxPages > 0
    ensures read <= maxPages && ServedAll(get, read) && Continuing(get, read)
    ensures raised ==> read < maxPages && PageAt(get, read).Broken? && records == [] && !complete
    ensures !raised ==> records == Gathered(get, read)
    ensures complete ==> read > 0 && CleanAll(get, read) && CursorAt(get, read) == ""
    ensures !complete && !raised ==>
      || read == maxPages
      || PageAt(get, read) in {Unreachable, Malformed}
      || !CleanAll(get, read)
      || Repeats(get, read)
    // Against a listing that does not change under the walk, complete means everything, exactly.
    ensures Faithful(get, book) && complete ==> Walk(book, "", maxPages) == Some(records)
    ensures WillEnd(get, book, maxPages) ==> complete
  {
    records, complete, raised, read := [], true, false, 0;
    var cursor := "";
    var seen: set<string> := {};
    for i := 0 to maxPages
      invariant read == i && !raised && records == Gathered(get, i)
      invariant ServedAll(get, i) && Walking(get, i, cursor, seen)
      invariant complete <==> CleanAll(get, i)
      invariant WillEnd(get, book, maxPages) ==> i < maxPages && complete
    {
      match get(i, cursor)
      case Unreachable =>
        return records, false, false, read;
      case Broken =>
        return [], false, true, read;
      case Malformed =>
        return records, false, false, read;
      case Served(page) =>
        var parsed, clean := ParsePage(page.rows);
        complete := complete && clean;
        records := records + parsed;
        read := i + 1;
        WalkOn(get, i, cursor, seen, page.next);
        if page.next == "" {
          if complete {
            CompleteWalk(get, book, read, maxPages);
          }
          return;
        }
        WillNotRepeat(get, book, read, maxPages);
        if page.next in seen {
          return records, false, false, read;
        }
        seen := seen + {page.next};
        cursor := page.next;
    }
    complete := false;
  }
}
