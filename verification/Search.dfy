/** Search: the validated request, one page of results, and the walk over all pages. */
module Search {
  import opened Wrappers
  import opened Keyset

  const MAX_PAGE_SIZE := 100
  const DEFAULT_RADIUS_M := 1000
  const RADIUS_OPTIONS_M := [250, 500, 1000, 2000, 5000]

  datatype Sort = Recommended | Distance | Security | Rating | RecentlyVerified

  /** A row's place in the results: its ascending sort key, then its id. */
  datatype RowKey = RowKey(sortKey: int, id: int)

  datatype Cursor = Cursor(sort: Sort, v: int, id: int)

  datatype Request = Request(radiusM: nat, sort: Sort, pageSize: nat, cursor: Option<Cursor>)

  predicate Precedes(a: RowKey, b: RowKey) {
    a.sortKey < b.sortKey || (a.sortKey == b.sortKey && a.id < b.id)
  }

  lemma RowsAreOrdered()
    ensures StrictOrder(Precedes)
  {
  }

  function Clamp(n: nat, low: nat, high: nat): nat {
    if n < low then low else if n > high then high else n
  }

  /** `decoded` is the cursor parameter, if it could be decoded.  A cursor minted for
      another sort is dropped, which means page 1. */
  function NewRequest(radiusM: nat, sort: Sort, pageSize: nat, decoded: Option<Cursor>): (r: Request)
    ensures 1 <= r.pageSize <= 100
    ensures r.radiusM in {250, 500, 1000, 2000, 5000}
    ensures r.cursor.Some? ==> r.cursor.value.sort == r.sort
    ensures r.sort == sort && (1 <= pageSize <= 100 ==> r.pageSize == pageSize)
    ensures pageSize == 0 ==> r.pageSize == 1
    ensures pageSize > 100 ==> r.pageSize == 100
    ensures r.radiusM == if radiusM in {250, 500, 1000, 2000, 5000} then radiusM else 1000
    ensures decoded.Some? && decoded.value.sort == sort ==> r.cursor == decoded
  {
    Request(if radiusM in RADIUS_OPTIONS_M then radiusM else DEFAULT_RADIUS_M,
            sort,
            Clamp(pageSize, 1, MAX_PAGE_SIZE),
            if decoded.Some? && decoded.value.sort == sort then decoded else None)
  }

  function After(cursor: Option<Cursor>): Option<RowKey> {
    if cursor.Some? then Some(RowKey(cursor.value.v, cursor.value.id)) else None
  }

  datatype Page = Page(items: seq<RowKey>, nextCursor: Option<Cursor>)

  /** What the reader promises: the first `limit` matching rows above the cursor, in
      ascending order. */
  ghost predicate FirstRows(matching: set<RowKey>, after: Option<RowKey>, limit: nat, rows: seq<RowKey>) {
    && Ascending(Precedes, rows)
    && |rows| <= limit
    && (forall k | k in rows :: k in matching && Above(Precedes, after, k))
    && (forall k | k in matching && Above(Precedes, after, k) && k !in rows ::
          |rows| == limit && forall r | r in rows :: Precedes(r, k))
  }

  /** One page: `fetched` is what the reader answered when asked for one row more than
      fits. */
  method NextPage(request: Request, ghost matching: set<RowKey>, fetched: seq<RowKey>) returns (page: Page)
    requires request.pageSize >= 1
    requires FirstRows(matching, After(request.cursor), request.pageSize + 1, fetched)
    ensures IsExactPage(Precedes, matching, After(request.cursor), page.items, After(page.nextCursor))
    ensures |page.items| <= request.pageSize
    ensures page.nextCursor.Some? ==>
      && |page.items| == request.pageSize
      && var last := page.items[|page.items| - 1];
         page.nextCursor == Some(Cursor(request.sort, last.sortKey, last.id))
    ensures page.items <= fetched && (page.nextCursor.None? ==> page.items == fetched)
  {
    var items := fetched;
    if |items| > request.pageSize {
      items := items[..request.pageSize];
      var last := items[|items| - 1];
      page := Page(items, Some(Cursor(request.sort, last.sortKey, last.id)));
      ExtraRowMeansMore(matching, After(request.cursor), request.pageSize, fetched);
    } else {
      page := Page(items, None);
    }
  }

  lemma ExtraRowMeansMore(matching: set<RowKey>, after: Option<RowKey>, n: nat, fetched: seq<RowKey>)
    requires n >= 1 && |fetched| == n + 1
    requires FirstRows(matching, after, n + 1, fetched)
    ensures IsExactPage(Precedes, matching, after, fetched[..n], Some(fetched[n - 1]))
  {
    var kept := fetched[..n];
    forall k | k in matching && Above(Precedes, after, k) ensures k in kept || Precedes(fetched[n - 1], k) {
      if k in fetched && k !in kept {
        assert k == fetched[n];
      }
    }
    assert fetched[n] in matching && Precedes(fetched[n - 1], fetched[n]);
  }

  /** A walk over search pages: the matching rows stay the same, and a page that is not the
      last one ends in its cursor. */
  ghost predicate SearchWalk(matching: set<RowKey>, after: Option<RowKey>, fetches: seq<Fetch<RowKey>>) {
    && Walk(Precedes, after, fetches)
    && forall f | f in fetches :: f.present == matching && (f.next.Some? ==> f.next.value in f.page)
  }

  /** Following the cursors from page 1 to the end visits every matching row once, in
      (sort key, id) order, ties on the sort key included. */
  lemma CursorsVisitEveryRowOnce(matching: set<RowKey>, fetches: seq<Fetch<RowKey>>)
    requires SearchWalk(matching, None, fetches) && Complete(fetches)
    ensures Ascending(Precedes, Listed(fetches))
    ensures forall row :: row in Listed(fetches) <==> row in matching
    ensures |Listed(fetches)| == |matching|
  {
    RowsAreOrdered();
    CompleteWalkListsAll(Precedes, matching, fetches);
  }

  /** And it ends: no walk is longer than one page per row and one more. */
  lemma CursorsEnd(matching: set<RowKey>, fetches: seq<Fetch<RowKey>>)
    requires SearchWalk(matching, None, fetches)
    ensures |fetches| <= |matching| + 1
  {
    RowsAreOrdered();
    WalkIsShort(Precedes, None, matching, fetches);
    assert Remaining(Precedes, None, matching) == matching;
  }

  /** Every page from a cursor on: each minted cursor goes back through the validation of the
      next request. */
  method FollowCursors(reader: (Option<RowKey>, nat) -> seq<RowKey>, ghost matching: set<RowKey>,
                       radiusM: nat, sort: Sort, pageSize: nat, cursor: Option<Cursor>)
    returns (listed: seq<RowKey>, ghost fetches: seq<Fetch<RowKey>>)
    requires forall after, limit :: FirstRows(matching, after, limit, reader(after, limit))
    requires cursor.Some? ==> cursor.value.sort == sort
    ensures SearchWalk(matching, After(cursor), fetches) && Complete(fetches)
    ensures listed == Listed(fetches)
    ensures forall f | f in fetches :: |f.page| <= Clamp(pageSize, 1, MAX_PAGE_SIZE)
    decreases Remaining(Precedes, After(cursor), matching)
  {
    var request := NewRequest(radiusM, sort, pageSize, cursor);
    var page := NextPage(request, matching, reader(After(cursor), request.pageSize + 1));
    ghost var fetch := Fetch(matching, page.items, After(page.nextCursor));
    if page.nextCursor.None? {
      listed, fetches := page.items, [fetch];
      return;
    }
    CursorAdvances(matching, After(cursor), page.items, After(page.nextCursor));
    var rest;
    ghost var later;
    rest, later := FollowCursors(reader, matching, radiusM, sort, pageSize, page.nextCursor);
    listed, fetches := page.items + rest, [fetch] + later;
    assert fetches[1..] == later;
  }

  lemma CursorAdvances(matching: set<RowKey>, after: Option<RowKey>, page: seq<RowKey>, next: Option<RowKey>)
    requires IsExactPage(Precedes, matching, after, page, next) && next.Some?
    ensures next.value in page
    ensures Remaining(Precedes, next, matching) < Remaining(Precedes, after, matching)
  {
    assert next.value in Remaining(Precedes, after, matching);
  }

  /** All pages from page 1: every matching row once, in order, in at most one request per
      row and one more. */
  method ListAllPages(reader: (Option<RowKey>, nat) -> seq<RowKey>, ghost matching: set<RowKey>,
                      radiusM: nat, sort: Sort, pageSize: nat)
    returns (listed: seq<RowKey>, ghost requests: nat)
    requires forall after, limit :: FirstRows(matching, after, limit, reader(after, limit))
    ensures forall i, j | 0 <= i < j < |listed| ::
              listed[i].sortKey < listed[j].sortKey || (listed[i].sortKey == listed[j].sortKey && listed[i].id < listed[j].id)
    ensures forall row :: row in listed <==> row in matching
    ensures |listed| == |matching| && requests <= |matching| + 1
  {
    ghost var fetches;
    listed, fetches := FollowCursors(reader, matching, radiusM, sort, pageSize, None);
    CursorsVisitEveryRowOnce(matching, fetches);
    CursorsEnd(matching, fetches);
    requests := |fetches|;
  }
}
