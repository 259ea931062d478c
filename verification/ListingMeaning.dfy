/** What an outcome of the listing says of the pages that were read, whatever the server does. */
module ListingMeaning {
  import opened Prelude
  import opened Listing

  /** Page `k` begins with the row that the page before it ended with. */
  predicate Overlaps(pages: seq<Page>, k: nat)
    requires k < |pages|
  {
    k == 0 || (
      var last, rows := pages[k - 1].rows, pages[k].rows;
      last != [] && rows != [] && rows[0] == last[|last| - 1])
  }

  /** The page is followed by another. */
  predicate GoesOn(page: Page) {
    page.hasMore && |page.rows| >= 2
  }

  /** Every page but the last is followed by one that overlaps the page before it. */
  ghost predicate Chained(pages: seq<Page>) {
    forall k :: 0 <= k < |pages| - 1 ==> Overlaps(pages, k) && GoesOn(pages[k])
  }

  /** Where the next request begins: at the last row of the last page. */
  function Offset(pages: seq<Page>): int {
    if pages == [] then 0 else Offset(pages[..|pages| - 1]) + |pages[|pages| - 1].rows| - 1
  }

  /** The pages are what the server answers, request by request. */
  ghost predicate Answered(s: Server, pages: seq<Page>) {
    pages == [] || (
      var before := pages[..|pages| - 1];
      Answered(s, before) && Offset(before) >= 0 && pages[|pages| - 1] == Serve(s, |before|, Offset(before)))
  }

  /** The rows on the pages. */
  function RowsRead(pages: seq<Page>): set<Id> {
    if pages == [] then {} else RowsRead(pages[..|pages| - 1]) + Ids(pages[|pages| - 1].rows)
  }

  /** What the listing makes of the pages it read. */
  ghost predicate Means(pages: seq<Page>, r: Outcome)
    requires pages != []
  {
    var n := |pages|;
    var page, count := pages[n - 1], |RowsRead(pages)|;
    match r
    case Listed(ids, requests) =>
      && requests == n <= 1000 && Overlaps(pages, n - 1) && !page.hasMore && count == page.total
      && Distinct(ids) && Ids(ids) == RowsRead(pages)
    case Failed(error) =>
      match error
      case Shifted => n <= 1000 && !Overlaps(pages, n - 1)
      case CountMismatch => n <= 1000 && Overlaps(pages, n - 1) && !page.hasMore && count != page.total
      case ShortPage => n <= 1000 && Overlaps(pages, n - 1) && page.hasMore && |page.rows| < 2
      case TooManyPages => n == 1000 && Overlaps(pages, n - 1) && GoesOn(page)
  }

  lemma {:induction false} AddAllIs(found: seq<Id>, rows: seq<Id>)
    requires Distinct(found)
    ensures Distinct(AddAll(found, rows)) && Ids(AddAll(found, rows)) == Ids(found) + Ids(rows)
    decreases |rows|
  {
    if rows != [] {
      var more := if rows[0] in found then found else found + [rows[0]];
      AddAllIs(more, rows[1..]);
      assert rows == [rows[0]] + rows[1..];
      assert Ids(more) == Ids(found) + {rows[0]};
      assert Ids(rows) == {rows[0]} + Ids(rows[1..]);
    }
  }

  lemma {:induction false} DistinctCount(ids: seq<Id>)
    requires Distinct(ids)
    ensures |Ids(ids)| == |ids|
    decreases |ids|
  {
    if ids != [] {
      var rest := ids[1..];
      DistinctCount(rest);
      assert ids == [ids[0]] + rest && Ids(ids) == {ids[0]} + Ids(rest) && ids[0] !in Ids(rest);
    }
  }

  /** Every page was followed by another. */
  ghost predicate Went(pages: seq<Page>) {
    forall k :: 0 <= k < |pages| ==> Overlaps(pages, k) && GoesOn(pages[k])
  }

  function LastRow(page: Page): Option<Id> {
    if page.rows == [] then None else Some(page.rows[|page.rows| - 1])
  }

  /** Where the listing stands before request `|pages|`. */
  ghost predicate StandsAt(pages: seq<Page>, overlap: Option<Id>, found: seq<Id>) {
    && Went(pages) && Distinct(found) && Ids(found) == RowsRead(pages)
    && overlap == if pages == [] then None else LastRow(pages[|pages| - 1])
  }

  lemma MoreAnswered(s: Server, pages: seq<Page>, page: Page)
    requires Answered(s, pages) && Offset(pages) >= 0 && page == Serve(s, |pages|, Offset(pages))
    ensures Answered(s, pages + [page]) && Offset(pages + [page]) == Offset(pages) + |page.rows| - 1
  {
    assert (pages + [page])[..|pages|] == pages;
  }

  lemma MoreRows(pages: seq<Page>, page: Page, found: seq<Id>)
    requires Distinct(found) && Ids(found) == RowsRead(pages)
    ensures var rows := AddAll(found, page.rows);
            Distinct(rows) && Ids(rows) == RowsRead(pages + [page]) && |rows| == |RowsRead(pages + [page])|
  {
    AddAllIs(found, page.rows);
    DistinctCount(AddAll(found, page.rows));
    assert (pages + [page])[..|pages|] == pages;
  }

  lemma MoreOverlaps(pages: seq<Page>, page: Page, overlap: Option<Id>)
    requires Went(pages) && overlap == if pages == [] then None else LastRow(pages[|pages| - 1])
    ensures Chained(pages + [page])
    ensures Overlaps(pages + [page], |pages|) <==>
              !(overlap.Some? && (page.rows == [] || page.rows[0] != overlap.value))
    ensures Overlaps(pages + [page], |pages|) && GoesOn(page) ==> Went(pages + [page])
  {
    var more := pages + [page];
    forall k | 0 <= k < |pages| ensures Overlaps(more, k) && GoesOn(more[k]) {
      assert Overlaps(pages, k) && GoesOn(pages[k]);
    }
    if pages != [] {
      assert more[|pages|] == page && more[|pages| - 1] == pages[|pages| - 1] && GoesOn(pages[|pages| - 1]);
    }
  }

  lemma MeansOf(pages: seq<Page>, rows: seq<Id>, shifted: bool)
    requires 0 < |pages| <= MAX_PAGES && (Overlaps(pages, |pages| - 1) <==> !shifted)
    requires Distinct(rows) && Ids(rows) == RowsRead(pages) && |rows| == |RowsRead(pages)|
    ensures var page := pages[|pages| - 1];
            if shifted then Means(pages, Failed(Shifted))
            else if !page.hasMore then
              Means(pages, if page.total != |rows| then Failed(CountMismatch) else Listed(rows, |pages|))
            else if |page.rows| < 2 then Means(pages, Failed(ShortPage))
            else |pages| == MAX_PAGES ==> Means(pages, Failed(TooManyPages))
  {}

  /** A page ends the listing as it means, or the listing goes on behind it. */
  lemma WeighMeans(pages: seq<Page>, page: Page, offset: nat, overlap: Option<Id>, found: seq<Id>)
    requires StandsAt(pages, overlap, found) && |pages| < MAX_PAGES
    ensures var more := pages + [page];
            && Chained(more)
            && match Weigh(page, |pages|, offset, overlap, found)
               case Stop(outcome) => Means(more, outcome)
               case Go(next, last, all) =>
                 && StandsAt(more, Some(last), all) && next == offset + |page.rows| - 1
                 && (|more| == MAX_PAGES ==> Means(more, Failed(TooManyPages)))
  {
    var more := pages + [page];
    MoreRows(pages, page, found);
    MoreOverlaps(pages, page, overlap);
    assert more[|more| - 1] == page;
    MeansOf(more, AddAll(found, page.rows), overlap.Some? && (page.rows == [] || page.rows[0] != overlap.value));
  }

  /** What one request comes to. */
  ghost predicate Comes(s: Server, all: seq<Page>, turn: Turn) {
    && all != [] && Answered(s, all) && Chained(all)
    && match turn
       case Stop(outcome) => Means(all, outcome)
       case Go(next, last, more) =>
         && StandsAt(all, Some(last), more) && next == Offset(all)
         && (|all| == MAX_PAGES ==> Means(all, Failed(TooManyPages)))
  }

  lemma LookComes(s: Server, pages: seq<Page>, offset: nat, overlap: Option<Id>, found: seq<Id>) returns (all: seq<Page>)
    requires StandsAt(pages, overlap, found) && |pages| < MAX_PAGES
    requires Answered(s, pages) && offset == Offset(pages)
    ensures |all| == |pages| + 1 && Comes(s, all, Look(s, |pages|, offset, overlap, found))
  {
    var page := Serve(s, |pages|, offset);
    all := pages + [page];
    WeighMeans(pages, page, offset, overlap, found);
    MoreAnswered(s, pages, page);
  }

  lemma {:induction false} ListFromMeans(s: Server, pages: seq<Page>, offset: nat, overlap: Option<Id>, found: seq<Id>)
    returns (all: seq<Page>)
    requires StandsAt(pages, overlap, found) && |pages| < MAX_PAGES
    requires Answered(s, pages) && offset == Offset(pages)
    ensures all != [] && Answered(s, all) && Chained(all) && Means(all, ListFrom(s, |pages|, offset, overlap, found))
    decreases MAX_PAGES - |pages|
  {
    var turn := Look(s, |pages|, offset, overlap, found);
    ListFromTurn(s, |pages|, offset, overlap, found, turn);
    all := LookComes(s, pages, offset, overlap, found);
    if turn.Go? {
      if |all| < MAX_PAGES {
        all := ListFromMeans(s, all, turn.offset, Some(turn.overlap), turn.found);
      } else {
        assert ListFrom(s, MAX_PAGES, turn.offset, Some(turn.overlap), turn.found) == Failed(TooManyPages);
      }
    }
  }

  /**
   Whatever the server does, each outcome comes from pages read one after the other: every one begins with
   the row its predecessor ended with; a listing holds the rows of all its pages once, and there are as many
   as the last page says; and each failure has its reason.
   */
  lemma ListingMeans(s: Server) returns (pages: seq<Page>)
    ensures pages != [] && Answered(s, pages) && Chained(pages) && Means(pages, ListFrom(s, 0, 0, None, []))
  {
    assert Ids([]) == {};
    pages := ListFromMeans(s, [], 0, None, []);
  }
}
