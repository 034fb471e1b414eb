/**
 * `GET /api/occurrences`: the session-guarded listing of occurrences, as
 * a pure function of the session, the query string, the table, the
 * errors of the count and page queries, and the result of the statistics
 * procedure.
 */
module OccurrencesRoute {
  import opened Options
  import opened Store
  import opened Request

  datatype Occurrence = Occurrence(
    id: string,
    status: string,
    severity: string,
    occurrenceDate: Date,
    createdAt: Date)

  /** The query string: `status`, `severity`, `startDate`, `endDate`, `limit`, `offset`. */
  datatype Query = Query(
    status: Option<string>,
    severity: Option<string>,
    startDate: Option<Date>,
    endDate: Option<Date>,
    limit: Option<int>,
    offset: Option<int>)

  /** The statistics object; the procedure that computes it is not part of this model. */
  datatype Stats = Stats(total: nat, pending: nat, inProgress: nat, completed: nat, thisWeek: nat, thisMonth: nat)

  /**
   * What the store does: the error of the count query and of the page
   * query, if any, and what `get_occurrence_statistics` returns (`None`
   * when it fails or returns nothing).
   */
  datatype Outcomes = Outcomes(countError: Option<string>, pageError: Option<string>, statistics: Option<Stats>)

  datatype Pagination = Pagination(total: nat, limit: int, offset: int)

  datatype Response =
    | Unauthorized
    | ServerError(message: string)
    | Listed(occurrences: seq<Occurrence>, pagination: Pagination, stats: Stats)

  function StatusCode(r: Response): int {
    match r
    case Unauthorized => 401
    case ServerError(_) => 500
    case Listed(_, _, _) => 200
  }

  const DefaultLimit: int := 50
  const DefaultOffset: int := 0

  /** The four filters, applied alike to the count query and the page query. */
  predicate MatchesFilters(q: Query, row: Occurrence) {
    (Given(q.status) ==> row.status == q.status.value)
    && (Given(q.severity) ==> row.severity == q.severity.value)
    && (q.startDate.Some? ==> row.occurrenceDate >= q.startDate.value)
    && (q.endDate.Some? ==> row.occurrenceDate <= q.endDate.value)
  }

  function Filters(q: Query): Occurrence -> bool {
    (row: Occurrence) => MatchesFilters(q, row)
  }

  function CreatedAt(row: Occurrence): int { row.createdAt }

  /** The rows passing the filters, newest first: what the pages are cut from. */
  function Listing(q: Query, table: seq<Occurrence>): seq<Occurrence> {
    SortDesc(Filter(table, Filters(q)), CreatedAt)
  }

  /** The statistics used when the procedure gives none: the count as total, all else 0. */
  function FallbackStats(count: nat): (s: Stats)
    ensures s.total == count
    ensures s.pending == 0 && s.inProgress == 0 && s.completed == 0 && s.thisWeek == 0 && s.thisMonth == 0
  {
    Stats(count, 0, 0, 0, 0, 0)
  }

  /** The handler. */
  function ListOccurrences(session: bool, q: Query, table: seq<Occurrence>, out: Outcomes): (r: Response)
    ensures r.Unauthorized? <==> !session
    ensures r.ServerError? <==> session && (out.countError.Some? || out.pageError.Some?)
    ensures r.ServerError? ==> r.message == (if out.countError.Some? then out.countError else out.pageError).value
    ensures r.Listed? ==> (r.pagination.limit == IntParam(q.limit, DefaultLimit)
                           && r.pagination.offset == IntParam(q.offset, DefaultOffset))
    ensures r.Listed? ==> r.pagination.total == CountWhere(table, Filters(q))
    ensures r.Listed? ==> |r.occurrences| <= Max(0, r.pagination.limit)
    ensures r.Listed? ==> IsWindow(r.occurrences, Listing(q, table), r.pagination.offset, r.pagination.limit)
    ensures r.Listed? ==> forall i :: 0 <= i < |r.occurrences| ==>
      MatchesFilters(q, r.occurrences[i]) && r.occurrences[i] in table
    ensures r.Listed? ==> SortedDesc(r.occurrences, CreatedAt)
    ensures r.Listed? ==> r.stats == (if out.statistics.Some? then out.statistics.value
                                      else FallbackStats(r.pagination.total))
  {
    if !session then Unauthorized
    else
      var limit := IntParam(q.limit, DefaultLimit);
      var offset := IntParam(q.offset, DefaultOffset);
      if out.countError.Some? then ServerError(out.countError.value)
      else
        var count := CountWhere(table, Filters(q));
        if out.pageError.Some? then ServerError(out.pageError.value)
        else
          var matching := Filter(table, Filters(q));
          var rows := Page(matching, CreatedAt, offset, limit);
          assert forall x :: x in rows ==> x in matching && MatchesFilters(q, x);
          Listed(rows, Pagination(count, limit, offset),
                 if out.statistics.Some? then out.statistics.value else FallbackStats(count))
  }

  /** Without a session the answer is 401 whatever the query, the table and the store would do. */
  lemma UnauthorizedBeforeAnyQuery(q: Query, table: seq<Occurrence>, out: Outcomes,
                                   q': Query, table': seq<Occurrence>, out': Outcomes)
    ensures ListOccurrences(false, q, table, out) == ListOccurrences(false, q', table', out')
    ensures StatusCode(ListOccurrences(false, q, table, out)) == 401
  {
  }

  /**
   * With neither `limit` nor `offset` given, the response reports limit 50
   * and offset 0 and lists the first fifty rows in creation order, or all
   * of them when fewer pass the filters.
   */
  lemma DefaultPage(q: Query, table: seq<Occurrence>, out: Outcomes)
    requires q.limit.None? && q.offset.None? && out.countError.None? && out.pageError.None?
    ensures var r := ListOccurrences(true, q, table, out);
      r.pagination.limit == 50 && r.pagination.offset == 0
      && |r.occurrences| == Min(50, |Listing(q, table)|)
      && forall i :: 0 <= i < |r.occurrences| ==> r.occurrences[i] == Listing(q, table)[i]
  {
    var r := ListOccurrences(true, q, table, out);
    assert r.Listed? && r.pagination.limit == 50 && r.pagination.offset == 0;
    WindowFromStart(r.occurrences, Listing(q, table), 50);
  }

  /**
   * Count and page agree: the total is the size of the filtered set, and
   * every listed row belongs to it, so a page never holds more rows than
   * the total.
   */
  lemma TotalMatchesListing(q: Query, table: seq<Occurrence>, out: Outcomes)
    requires out.countError.None? && out.pageError.None?
    ensures var r := ListOccurrences(true, q, table, out);
      multiset(r.occurrences) <= multiset(Filter(table, Filters(q)))
      && |r.occurrences| <= r.pagination.total
  {
    var matching := Filter(table, Filters(q));
    var r := ListOccurrences(true, q, table, out);
    assert r.occurrences == Page(matching, CreatedAt, IntParam(q.offset, DefaultOffset), IntParam(q.limit, DefaultLimit));
    assert |multiset(r.occurrences)| <= |multiset(matching)|;
  }

  /** When the page is full-length, its rows are the ones at `offset..offset+limit-1`. */
  lemma FullPage(q: Query, table: seq<Occurrence>, out: Outcomes)
    requires out.countError.None? && out.pageError.None?
    requires var offset := IntParam(q.offset, DefaultOffset);
      var limit := IntParam(q.limit, DefaultLimit);
      0 <= offset && 0 < limit && offset + limit <= CountWhere(table, Filters(q))
    ensures |ListOccurrences(true, q, table, out).occurrences| == ListOccurrences(true, q, table, out).pagination.limit
  {
  }

  /** The date range is inclusive at both ends. */
  lemma DateRangeInclusive(q: Query, row: Occurrence)
    requires !Given(q.status) && !Given(q.severity)
    requires q.startDate.Some? && q.endDate.Some?
    ensures MatchesFilters(q, row) <==> q.startDate.value <= row.occurrenceDate <= q.endDate.value
  {
  }

  /** Occurrences dated exactly on the start and on the end date are both counted. */
  lemma BoundaryDatesIncluded()
    ensures var q := Query(None, None, Some(5), Some(9), None, None);
      var t := [Occurrence("a", "reported", "low", 5, 1), Occurrence("b", "closed", "high", 9, 2)];
      var r := ListOccurrences(true, q, t, Outcomes(None, None, None));
      r.pagination.total == 2 && r.stats == Stats(2, 0, 0, 0, 0, 0)
  {
    var q := Query(None, None, Some(5), Some(9), None, None);
    var t := [Occurrence("a", "reported", "low", 5, 1), Occurrence("b", "closed", "high", 9, 2)];
    assert MatchesFilters(q, t[0]) && MatchesFilters(q, t[1]);
    assert t[1..] == [t[1]] && t[1..][1..] == [];
    assert Filter(t, Filters(q)) == t;
    var r := ListOccurrences(true, q, t, Outcomes(None, None, None));
    assert r.pagination.total == 2;
  }

  /** A failed count query answers 500 with its message, before the page query is looked at. */
  lemma CountErrorFirst(q: Query, table: seq<Occurrence>, out: Outcomes)
    requires out.countError.Some?
    ensures ListOccurrences(true, q, table, out) == ServerError(out.countError.value)
    ensures StatusCode(ListOccurrences(true, q, table, out)) == 500
  {
  }

  /** A failed page query after a good count answers 500 with its message. */
  lemma PageErrorIsServerError(q: Query, table: seq<Occurrence>, out: Outcomes)
    requires out.countError.None? && out.pageError.Some?
    ensures ListOccurrences(true, q, table, out) == ServerError(out.pageError.value)
  {
  }

  /** Without statistics from the procedure, the response carries the fallback built from the count. */
  lemma FallbackWhenStatisticsFail(q: Query, table: seq<Occurrence>, out: Outcomes)
    requires out.countError.None? && out.pageError.None? && out.statistics.None?
    ensures ListOccurrences(true, q, table, out).stats == FallbackStats(CountWhere(table, Filters(q)))
    ensures ListOccurrences(true, q, table, out).stats.total == ListOccurrences(true, q, table, out).pagination.total
  {
  }
}
