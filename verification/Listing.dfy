/**
 Offset paging over a list that changes while it is read (`issue_delta.list_issues`). Each page re-reads
 the last row of the page before it, so that a shifted page is noticed.
 */
module Listing {
  import opened Prelude

  type Id = string

  const MAX_PAGES := 1000

  /** The server: the list as request `k` finds it, and how many rows it is willing to return then. */
  datatype Server = Server(list: nat -> seq<Id>, cap: nat -> nat)

  datatype Page = Page(rows: seq<Id>, hasMore: bool, total: nat)

  function Serve(s: Server, k: nat, offset: nat): Page {
    var list := s.list(k);
    var lo := if offset <= |list| then offset else |list|;
    var hi := if lo + s.cap(k) <= |list| then lo + s.cap(k) else |list|;
    Page(list[lo..hi], hi < |list|, |list|)
  }

  datatype Error = Shifted | CountMismatch | ShortPage | TooManyPages

  datatype Outcome = Listed(ids: seq<Id>, pages: nat) | Failed(error: Error)

  /** `issues[row["id"]] = row` for each row: a dict keeps the order of first insertion. */
  function AddAll(found: seq<Id>, rows: seq<Id>): seq<Id>
    decreases |rows|
  {
    if rows == [] then found
    else AddAll(if rows[0] in found then found else found + [rows[0]], rows[1..])
  }

  datatype Turn = Stop(outcome: Outcome) | Go(offset: nat, overlap: Id, found: seq<Id>)

  /** What becomes of the page of request `k`. */
  function Weigh(page: Page, k: nat, offset: nat, overlap: Option<Id>, found: seq<Id>): Turn {
    if overlap.Some? && (page.rows == [] || page.rows[0] != overlap.value) then Stop(Failed(Shifted))
    else
      var more := AddAll(found, page.rows);
      if !page.hasMore then Stop(if page.total != |more| then Failed(CountMismatch) else Listed(more, k + 1))
      else if |page.rows| < 2 then Stop(Failed(ShortPage))
      else Go(offset + |page.rows| - 1, page.rows[|page.rows| - 1], more)
  }

  /** One request. */
  function Look(s: Server, k: nat, offset: nat, overlap: Option<Id>, found: seq<Id>): Turn {
    Weigh(Serve(s, k, offset), k, offset, overlap, found)
  }

  /** The rest of the listing, from request `k` on. */
  function ListFrom(s: Server, k: nat, offset: nat, overlap: Option<Id>, found: seq<Id>): Outcome
    decreases MAX_PAGES - k
  {
    if k >= MAX_PAGES then Failed(TooManyPages)
    else
      match Look(s, k, offset, overlap, found)
      case Stop(outcome) => outcome
      case Go(next, last, more) => ListFrom(s, k + 1, next, Some(last), more)
  }

  method ListIssues(s: Server) returns (r: Outcome)
    ensures r == ListFrom(s, 0, 0, None, [])
  {
    var found: seq<Id> := [];
    var offset: nat := 0;
    var overlap: Option<Id> := None;
    for k := 0 to MAX_PAGES
      invariant ListFrom(s, k, offset, overlap, found) == ListFrom(s, 0, 0, None, [])
    {
      var page := Serve(s, k, offset);
      if overlap.Some? && (page.rows == [] || page.rows[0] != overlap.value) {
        return Failed(Shifted);
      }
      found := AddAll(found, page.rows);
      if !page.hasMore {
        if page.total != |found| {
          return Failed(CountMismatch);
        }
        return Listed(found, k + 1);
      }
      if |page.rows| < 2 {
        return Failed(ShortPage);
      }
      offset, overlap := offset + |page.rows| - 1, Some(page.rows[|page.rows| - 1]);
    }
    r := Failed(TooManyPages);
  }

  // ----- how the list may change -----------------------------------------------------------

  /** `b` is what is left of `a` after deletions, followed by rows with ids that are not in `seen`. */
  ghost predicate Grown(a: seq<Id>, b: seq<Id>, seen: set<Id>) {
    if a == [] then forall x :: x in b ==> x !in seen
    else (b != [] && b[0] == a[0] && Grown(a[1..], b[1..], seen)) || Grown(a[1..], b, seen)
  }

  function Ids(a: seq<Id>): set<Id> {
    set x | x in a
  }

  /** Where the listing stands before request `k`, if it gets there. */
  datatype Standing = Standing(offset: nat, overlap: Option<Id>, found: seq<Id>)

  function Before(s: Server, k: nat): Option<Standing> {
    if k == 0 then Some(Standing(0, None, []))
    else
      var last := Before(s, k - 1);
      if last == None then None
      else
        match Look(s, k - 1, last.value.offset, last.value.overlap, last.value.found)
        case Stop(_) => None
        case Go(next, overlap, more) => Some(Standing(next, Some(overlap), more))
  }

  /** The row of request `k` that the next request reads again. */
  function ReadAgain(s: Server, k: nat): set<Id> {
    var next := Before(s, k + 1);
    if next.Some? && next.value.overlap.Some? then {next.value.overlap.value} else {}
  }

  ghost predicate OrderlyAt(s: Server, k: nat) {
    Distinct(s.list(k)) && Grown(s.list(k), s.list(k + 1), ReadAgain(s, k))
  }

  /**
   Rows are only deleted, or appended, between one request and the next; and the row that is to be read
   again is not among the appended ones, so it does not go and come back.
   */
  ghost predicate Orderly(s: Server) {
    forall k: nat :: OrderlyAt(s, k)
  }

  lemma {:induction false} GrownOrigin(a: seq<Id>, b: seq<Id>, seen: set<Id>, x: Id)
    requires Grown(a, b, seen) && x in b
    ensures x in a || x !in seen
    decreases |a|
  {
    if a != [] {
      if b != [] && b[0] == a[0] && Grown(a[1..], b[1..], seen) {
        if x != b[0] { GrownOrigin(a[1..], b[1..], seen, x); }
      } else {
        GrownOrigin(a[1..], b, seen, x);
      }
    }
  }

  /** A row that kept its position proves that nothing before it moved. */
  lemma {:induction false} SamePlaceSamePrefix(a: seq<Id>, b: seq<Id>, seen: set<Id>, p: nat, o: nat)
    requires Grown(a, b, seen) && Distinct(a) && Distinct(b)
    requires p < |a| && o < |b| && a[p] == b[o] && a[p] in seen
    ensures o <= p
    ensures o == p ==> a[..p + 1] == b[..o + 1]
    decreases |a|
  {
    if b != [] && b[0] == a[0] && Grown(a[1..], b[1..], seen) {
      if p > 0 && o > 0 {
        SamePlaceSamePrefix(a[1..], b[1..], seen, p - 1, o - 1);
        if o == p {
          assert a[..p + 1] == [a[0]] + a[1..][..p];
          assert b[..o + 1] == [b[0]] + b[1..][..o];
        }
      }
    } else if p == 0 {
      GrownOrigin(a[1..], b, seen, b[o]);
      assert false;
    } else {
      SamePlaceSamePrefix(a[1..], b, seen, p - 1, o);
    }
  }

  lemma {:induction false} AddAllPrefix(list: seq<Id>, from: nat, m: nat, to: nat)
    requires Distinct(list) && from <= m <= to <= |list|
    ensures AddAll(list[..m], list[from..to]) == list[..to]
    decreases (to as int) - from
  {
    if from == to {
      assert list[from..to] == [] && list[..m] == list[..to];
    } else {
      assert list[from..to][1..] == list[from + 1..to] && list[from..to][0] == list[from];
      if from < m {
        assert list[..m][from] == list[from];
        AddAllPrefix(list, from + 1, m, to);
      } else {
        assert list[from] !in list[..m];
        assert list[..m] + [list[from]] == list[..m + 1];
        AddAllPrefix(list, from + 1, m + 1, to);
      }
    }
  }

  /** The rows read so far are a prefix of the list as the last request found it. */
  ghost predicate UpTo(s: Server, k: nat, offset: nat, overlap: Option<Id>, found: seq<Id>) {
    if k == 0 then offset == 0 && overlap == None && found == []
    else
      var list := s.list(k - 1);
      offset < |list| && overlap == Some(list[offset]) && found == list[..offset + 1]
  }

  /** And this is where the listing stands. */
  ghost predicate Stands(s: Server, k: nat, offset: nat, overlap: Option<Id>, found: seq<Id>) {
    UpTo(s, k, offset, overlap, found) && Before(s, k) == Some(Standing(offset, overlap, found))
  }

  /** What one accepted page adds. */
  lemma PageAdds(s: Server, k: nat, offset: nat, found: seq<Id>)
    requires Distinct(s.list(k))
    requires (offset == 0 && found == []) || (offset < |s.list(k)| && found == s.list(k)[..offset + 1])
    ensures var list, page := s.list(k), Serve(s, k, offset);
            var to := offset + |page.rows|;
            && to <= |list| && page.total == |list|
            && AddAll(found, page.rows) == (if page.rows == [] then found else list[..to])
            && (page.rows == [] && found == [] ==> AddAll(found, page.rows) == list[..to])
            && (page.hasMore <==> to < |list|)
            && (page.rows != [] ==> UpTo(s, k + 1, to - 1, Some(page.rows[|page.rows| - 1]), list[..to]))
  {
    var list, page := s.list(k), Serve(s, k, offset);
    var to := offset + |page.rows|;
    assert page.rows == list[offset..to];
    if page.rows != [] {
      assert page.rows[|page.rows| - 1] == list[to - 1];
      if found == [] && offset == 0 {
        assert list[..0] == [];
        AddAllPrefix(list, 0, 0, to);
      } else {
        AddAllPrefix(list, offset, offset + 1, to);
      }
    }
  }

  /** An accepted overlap means that what was found is a prefix of the list as it is now. */
  lemma OverlapHolds(s: Server, k: nat, offset: nat, overlap: Option<Id>, found: seq<Id>)
    requires Orderly(s) && Stands(s, k, offset, overlap, found)
    requires var page := Serve(s, k, offset);
             !(overlap.Some? && (page.rows == [] || page.rows[0] != overlap.value))
    ensures (offset == 0 && found == []) || (offset < |s.list(k)| && found == s.list(k)[..offset + 1])
  {
    assert OrderlyAt(s, k);
    if k > 0 {
      assert OrderlyAt(s, k - 1);
      assert s.list(k)[offset] == overlap.value;
      SamePlaceSamePrefix(s.list(k - 1), s.list(k), ReadAgain(s, k - 1), offset, offset);
    }
  }

  lemma LookGoesOn(s: Server, k: nat, offset: nat, overlap: Option<Id>, found: seq<Id>)
    requires Before(s, k) == Some(Standing(offset, overlap, found))
    ensures match Look(s, k, offset, overlap, found)
            case Stop(_) => Before(s, k + 1) == None
            case Go(next, last, more) => Before(s, k + 1) == Some(Standing(next, Some(last), more))
  {}

  lemma AcceptedPage(s: Server, k: nat, offset: nat, overlap: Option<Id>, found: seq<Id>)
    requires Distinct(s.list(k))
    requires (offset == 0 && found == []) || (offset < |s.list(k)| && found == s.list(k)[..offset + 1])
    ensures match Look(s, k, offset, overlap, found)
            case Stop(outcome) => outcome.Listed? ==> outcome == Listed(s.list(k), k + 1)
            case Go(next, last, more) => UpTo(s, k + 1, next, Some(last), more)
  {
    PageAdds(s, k, offset, found);
    assert s.list(k)[..|s.list(k)|] == s.list(k);
  }

  /** A request either ends the listing with the whole list, or fails it, or keeps the prefix growing. */
  lemma LookIsExact(s: Server, k: nat, offset: nat, overlap: Option<Id>, found: seq<Id>)
    requires Orderly(s) && Stands(s, k, offset, overlap, found)
    ensures match Look(s, k, offset, overlap, found)
            case Stop(outcome) => outcome.Listed? ==> outcome == Listed(s.list(k), k + 1)
            case Go(next, last, more) => Stands(s, k + 1, next, Some(last), more)
  {
    var page := Serve(s, k, offset);
    if !(overlap.Some? && (page.rows == [] || page.rows[0] != overlap.value)) {
      assert OrderlyAt(s, k);
      OverlapHolds(s, k, offset, overlap, found);
      AcceptedPage(s, k, offset, overlap, found);
      LookGoesOn(s, k, offset, overlap, found);
    }
  }

  lemma ListFromTurn(s: Server, k: nat, offset: nat, overlap: Option<Id>, found: seq<Id>, turn: Turn)
    requires k < MAX_PAGES && turn == Look(s, k, offset, overlap, found)
    ensures ListFrom(s, k, offset, overlap, found) ==
            if turn.Stop? then turn.outcome else ListFrom(s, k + 1, turn.offset, Some(turn.overlap), turn.found)
  {}

  lemma {:induction false} ListFromIsExact(s: Server, k: nat, offset: nat, overlap: Option<Id>, found: seq<Id>)
    requires Orderly(s) && Stands(s, k, offset, overlap, found)
    ensures var r := ListFrom(s, k, offset, overlap, found);
            r.Listed? ==> r.pages > k && r.ids == s.list(r.pages - 1)
    decreases MAX_PAGES - k
  {
    if k < MAX_PAGES {
      var turn := Look(s, k, offset, overlap, found);
      LookIsExact(s, k, offset, overlap, found);
      ListFromTurn(s, k, offset, overlap, found, turn);
      if turn.Go? { ListFromIsExact(s, k + 1, turn.offset, Some(turn.overlap), turn.found); }
    }
  }

  /**
   Whenever the listing succeeds, it returns exactly the server's list, in order, as the last request
   found it. Every history in which a row was skipped fails instead.
   */
  lemma ListingIsExact(s: Server)
    requires Orderly(s)
    ensures var r := ListFrom(s, 0, 0, None, []);
            r.Listed? ==> r.pages > 0 && r.ids == s.list(r.pages - 1)
  {
    ListFromIsExact(s, 0, 0, None, []);
  }

  /** The list does not change, and a page has room for `least` rows. */
  ghost predicate QuietAt(s: Server, least: nat, k: nat) {
    s.list(k) == s.list(0) && s.cap(k) >= least
  }

  /** Where the listing of a quiet list stands before request `k`. */
  ghost predicate QuietSoFar(s: Server, least: nat, k: nat, offset: nat, overlap: Option<Id>, found: seq<Id>) {
    && UpTo(s, k, offset, overlap, found) && offset >= k * (least - 1)
    && (k > 0 ==> offset + 1 < |s.list(0)|)
  }

  lemma QuietLook(s: Server, least: nat, k: nat, offset: nat, overlap: Option<Id>, found: seq<Id>)
    requires least >= 2 && Distinct(s.list(0)) && QuietSoFar(s, least, k, offset, overlap, found)
    requires QuietAt(s, least, k) && (k > 0 ==> QuietAt(s, least, k - 1))
    ensures match Look(s, k, offset, overlap, found)
            case Stop(outcome) => outcome == Listed(s.list(0), k + 1)
            case Go(next, last, more) => QuietSoFar(s, least, k + 1, next, Some(last), more)
  {
    var list, page := s.list(k), Serve(s, k, offset);
    PageAdds(s, k, offset, found);
    assert list[..|list|] == list;
    MoreRowsPerPage(k, k + 1, least - 1);
    if page.hasMore {
      assert |page.rows| == s.cap(k);
    }
  }

  /** A quiet list is always returned, unless it needs more pages than are allowed. */
  lemma {:induction false} QuietListFrom(s: Server, least: nat, k: nat, offset: nat, overlap: Option<Id>, found: seq<Id>)
    requires forall j: nat :: QuietAt(s, least, j)
    requires least >= 2 && Distinct(s.list(0)) && |s.list(0)| <= MAX_PAGES * (least - 1) + 1
    requires k <= MAX_PAGES && QuietSoFar(s, least, k, offset, overlap, found)
    ensures var r := ListFrom(s, k, offset, overlap, found); r.Listed? && r.ids == s.list(0)
    decreases MAX_PAGES - k
  {
    if k == MAX_PAGES {
      assert false;
    } else {
      assert QuietAt(s, least, k) && (k > 0 ==> QuietAt(s, least, k - 1));
      QuietLook(s, least, k, offset, overlap, found);
      match Look(s, k, offset, overlap, found)
      case Stop(_) =>
      case Go(next, last, more) => QuietListFrom(s, least, k + 1, next, Some(last), more);
    }
  }

  lemma MoreRowsPerPage(a: int, b: int, per: nat)
    ensures a >= b ==> a * per >= b * per
    ensures b == a + 1 ==> b * per == a * per + per
  {}

  lemma QuietListIsListed(s: Server, least: nat)
    requires forall j: nat :: QuietAt(s, least, j)
    requires least >= 2 && Distinct(s.list(0)) && |s.list(0)| <= MAX_PAGES * (least - 1) + 1
    ensures var r := ListFrom(s, 0, 0, None, []); r.Listed? && r.ids == s.list(0)
  {
    QuietListFrom(s, least, 0, 0, None, []);
  }

  /** The row to be read again must not go and come back: under its old id it hides another row. */
  lemma ReusedIdHidesARow()
    ensures exists s: Server ::
              && (forall k :: Distinct(s.list(k)))
              && (var r := ListFrom(s, 0, 0, None, []);
                  r.Listed? && r.pages == 2 && Ids(r.ids) != Ids(s.list(1)))
  {
    var s := Server(k => if k == 0 then ["a", "b", "c"] else ["c", "b"], k => 2);
    assert "a" != "b" && "b" != "c" && "a" != "c" by {
      assert "a"[0] == 'a' && "b"[0] == 'b' && "c"[0] == 'c';
    }
    var first, second := Serve(s, 0, 0), Serve(s, 1, 1);
    assert first == Page(["a", "b"], true, 3);
    assert second == Page(["b"], false, 2);
    assert AddAll([], ["a", "b"]) == ["a", "b"] by {
      assert ["a", "b"][1..] == ["b"] && ["b"][1..] == [];
    }
    assert AddAll(["a", "b"], ["b"]) == ["a", "b"] by {
      assert ["b"][1..] == [];
    }
    assert ListFrom(s, 1, 1, Some("b"), ["a", "b"]) == Listed(["a", "b"], 2);
    assert ListFrom(s, 0, 0, None, []) == Listed(["a", "b"], 2);
    assert "a" in Ids(["a", "b"]) && "a" !in Ids(s.list(1));
  }
}
