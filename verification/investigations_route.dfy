/**
 * `GET /api/investigations`: the authenticated listing of investigations,
 * as a pure function of the caller, the query string, the table and the
 * outcome of each of the handler's three store queries (the total count,
 * the page of rows, and the statistics scan).
 */
module InvestigationsRoute {
  import opened Options
  import opened Store
  import opened Request

  datatype Investigation = Investigation(
    id: string,
    stage: string,
    createdAt: Date,
    updatedAt: Date,
    deletedAt: Option<Date>)

  /** The query string: `limit`, `offset`, `stage`, `startDate`, `endDate`. */
  datatype Query = Query(
    limit: Option<int>,
    offset: Option<int>,
    stage: Option<string>,
    startDate: Option<Date>,
    endDate: Option<Date>)

  /**
   * What the store does with each query: whether the count query yields
   * no number, the error the page query returns if any, and whether the
   * statistics scan fails.
   */
  datatype Outcomes = Outcomes(countFails: bool, pageError: Option<string>, statsFails: bool)

  datatype Pagination = Pagination(total: nat, limit: int, offset: int)

  datatype Stats = Stats(
    total: nat,
    notStarted: nat,
    dataCollection: nat,
    analysis: nat,
    recommendations: nat,
    review: nat,
    completed: nat,
    thisWeek: nat,
    thisMonth: nat)

  datatype Response =
    | Unauthorized
    | ServerError(message: string)
    | Listed(investigations: seq<Investigation>, pagination: Pagination, stats: Stats)

  function StatusCode(r: Response): int {
    match r
    case Unauthorized => 401
    case ServerError(_) => 500
    case Listed(_, _, _) => 200
  }

  const DefaultLimit: int := 10
  const DefaultOffset: int := 0

  /** The three filters the page query applies. */
  predicate MatchesFilters(q: Query, row: Investigation) {
    (Given(q.stage) ==> row.stage == q.stage.value)
    && (q.startDate.Some? ==> row.createdAt >= q.startDate.value)
    && (q.endDate.Some? ==> row.createdAt < NextDay(q.endDate.value))
  }

  /**
   * The filter of the total-count query: `eq('stage', stage)` when a stage
   * is given, else `eq('id', 'id')`.
   */
  predicate MatchesCountFilter(q: Query, row: Investigation) {
    if Given(q.stage) then row.stage == q.stage.value else row.id == "id"
  }

  function PageFilter(q: Query): Investigation -> bool {
    (row: Investigation) => MatchesFilters(q, row)
  }

  function CountFilter(q: Query): Investigation -> bool {
    (row: Investigation) => MatchesCountFilter(q, row)
  }

  function UpdatedAt(row: Investigation): int { row.updatedAt }

  /** The rows passing the filters, most recently updated first: what the pages are cut from. */
  function Listing(q: Query, table: seq<Investigation>): seq<Investigation> {
    SortDesc(Filter(table, PageFilter(q)), UpdatedAt)
  }

  predicate IsLive(row: Investigation) { row.deletedAt.None? }

  function HasStage(id: string): Investigation -> bool {
    (row: Investigation) => row.stage == id
  }

  const ZeroStats: Stats := Stats(0, 0, 0, 0, 0, 0, 0, 0, 0)

  /** The `stage` column of the scanned rows. */
  function StageColumn(live: seq<Investigation>): (col: seq<string>)
    ensures |col| == |live|
    ensures forall i :: 0 <= i < |live| ==> col[i] == live[i].stage
  {
    seq(|live|, i requires 0 <= i < |live| => live[i].stage)
  }

  /**
   * The statistics computed from the rows of the `deleted_at is null` scan:
   * the number of rows, and for each of the six stages the number of rows
   * at that stage, that is how often it occurs in the `stage` column.
   */
  function StatsOf(live: seq<Investigation>): (s: Stats)
    ensures s.total == |live|
    ensures s.notStarted == multiset(StageColumn(live))["not_started"]
    ensures s.dataCollection == multiset(StageColumn(live))["data_collection"]
    ensures s.analysis == multiset(StageColumn(live))["analysis"]
    ensures s.recommendations == multiset(StageColumn(live))["recommendations"]
    ensures s.review == multiset(StageColumn(live))["review"]
    ensures s.completed == multiset(StageColumn(live))["completed"]
    ensures s.thisWeek == 0 && s.thisMonth == 0
  {
    CountIsStageMultiplicity(live, "not_started");
    CountIsStageMultiplicity(live, "data_collection");
    CountIsStageMultiplicity(live, "analysis");
    CountIsStageMultiplicity(live, "recommendations");
    CountIsStageMultiplicity(live, "review");
    CountIsStageMultiplicity(live, "completed");
    Stats(|live|,
          CountWhere(live, HasStage("not_started")),
          CountWhere(live, HasStage("data_collection")),
          CountWhere(live, HasStage("analysis")),
          CountWhere(live, HasStage("recommendations")),
          CountWhere(live, HasStage("review")),
          CountWhere(live, HasStage("completed")),
          0, 0)
  }

  /** Counting the rows at a stage gives how often that stage occurs in the `stage` column. */
  lemma {:induction false} CountIsStageMultiplicity(live: seq<Investigation>, id: string)
    ensures CountWhere(live, HasStage(id)) == multiset(StageColumn(live))[id]
    decreases |live|
  {
    if |live| > 0 {
      CountIsStageMultiplicity(live[1..], id);
      CountStep(live, id);
      assert StageColumn(live) == [live[0].stage] + StageColumn(live[1..]);
    }
  }

  /** The handler. */
  function ListInvestigations(user: Option<string>, q: Query, table: seq<Investigation>, out: Outcomes): (r: Response)
    ensures r.Unauthorized? <==> user.None?
    ensures r.ServerError? <==> user.Some? && out.pageError.Some?
    ensures r.ServerError? ==> r.message == out.pageError.value
    ensures r.Listed? ==> (r.pagination.limit == IntParam(q.limit, DefaultLimit)
                           && r.pagination.offset == IntParam(q.offset, DefaultOffset))
    ensures r.Listed? ==> |r.investigations| <= Max(0, r.pagination.limit)
    ensures r.Listed? ==> IsWindow(r.investigations, Listing(q, table), r.pagination.offset, r.pagination.limit)
    ensures r.Listed? ==> forall i :: 0 <= i < |r.investigations| ==>
      MatchesFilters(q, r.investigations[i]) && r.investigations[i] in table
    ensures r.Listed? ==> SortedDesc(r.investigations, UpdatedAt)
    ensures r.Listed? ==> r.stats.thisWeek == 0 && r.stats.thisMonth == 0
  {
    if user.None? then Unauthorized
    else
      var limit := IntParam(q.limit, DefaultLimit);
      var offset := IntParam(q.offset, DefaultOffset);
      var total := if out.countFails then 0 else CountWhere(table, CountFilter(q));
      if out.pageError.Some? then ServerError(out.pageError.value)
      else
        var rows := ListedRows(q, table, offset, limit);
        var stats := if out.statsFails then ZeroStats else StatsOf(Filter(table, IsLive));
        Listed(rows, Pagination(total, limit, offset), stats)
  }

  /**
   * The page query: the rows passing the filters, newest update first,
   * `range(offset, offset + limit - 1)`.
   */
  function ListedRows(q: Query, table: seq<Investigation>, offset: int, limit: int): (rows: seq<Investigation>)
    ensures |rows| <= Max(0, limit)
    ensures IsWindow(rows, Listing(q, table), offset, limit)
    ensures SortedDesc(rows, UpdatedAt)
    ensures forall i :: 0 <= i < |rows| ==> MatchesFilters(q, rows[i]) && rows[i] in table
  {
    var rows := Page(Filter(table, PageFilter(q)), UpdatedAt, offset, limit);
    assert forall i :: 0 <= i < |rows| ==> MatchesFilters(q, rows[i]) && rows[i] in table by {
      PageOfFilter(table, PageFilter(q), UpdatedAt, offset, limit);
      forall i | 0 <= i < |rows|
        ensures MatchesFilters(q, rows[i])
      {
        assert PageFilter(q)(rows[i]);
      }
    }
    rows
  }

  /** Without a user the answer is 401 whatever the query, the table and the store would do. */
  lemma UnauthorizedBeforeAnyQuery(q: Query, table: seq<Investigation>, out: Outcomes,
                                   q': Query, table': seq<Investigation>, out': Outcomes)
    ensures ListInvestigations(None, q, table, out) == ListInvestigations(None, q', table', out')
    ensures StatusCode(ListInvestigations(None, q, table, out)) == 401
  {
  }

  /**
   * With neither `limit` nor `offset` given, the response reports limit 10
   * and offset 0 and lists the first ten rows in update order, or all of
   * them when fewer pass the filters.
   */
  lemma DefaultPage(user: string, q: Query, table: seq<Investigation>, out: Outcomes)
    requires q.limit.None? && q.offset.None? && out.pageError.None?
    ensures var r := ListInvestigations(Some(user), q, table, out);
      r.pagination == Pagination(r.pagination.total, 10, 0)
      && |r.investigations| == Min(10, |Listing(q, table)|)
      && forall i :: 0 <= i < |r.investigations| ==> r.investigations[i] == Listing(q, table)[i]
  {
    var r := ListInvestigations(Some(user), q, table, out);
    assert r.Listed? && r.pagination.limit == 10 && r.pagination.offset == 0;
    WindowFromStart(r.investigations, Listing(q, table), 10);
  }

  /**
   * The pagination total: the number of rows the count filter selects, or
   * 0 when the count query yields no number.
   */
  lemma PaginationTotal(user: string, q: Query, table: seq<Investigation>, out: Outcomes)
    requires out.pageError.None?
    ensures ListInvestigations(Some(user), q, table, out).pagination.total
         == if out.countFails then 0 else CountWhere(table, CountFilter(q))
  {
  }

  /** The count filter never looks at the dates: changing them leaves the total as it was. */
  lemma TotalIgnoresDates(user: string, q: Query, table: seq<Investigation>, out: Outcomes,
                          start: Option<Date>, end: Option<Date>)
    requires out.pageError.None?
    ensures var q' := q.(startDate := start, endDate := end);
      ListInvestigations(Some(user), q', table, out).pagination.total
      == ListInvestigations(Some(user), q, table, out).pagination.total
  {
    var q' := q.(startDate := start, endDate := end);
    assert CountWhere(table, CountFilter(q')) == CountWhere(table, CountFilter(q)) by {
      FilterExtensional(table, CountFilter(q), CountFilter(q'));
    }
  }

  /**
   * So the total can disagree with the listing: an investigation at the
   * requested stage but created before the requested start date is counted
   * and not listed.
   */
  lemma TotalCountsRowsOutsideDateRange(user: string, q: Query, row: Investigation, out: Outcomes)
    requires out.pageError.None? && !out.countFails
    requires Given(q.stage) && row.stage == q.stage.value
    requires q.startDate.Some? && row.createdAt < q.startDate.value
    ensures var r := ListInvestigations(Some(user), q, [row], out);
      r.pagination.total == 1 && r.investigations == []
  {
    assert Filter([row], CountFilter(q)) == [row] by {
      assert CountFilter(q)(row);
    }
    var r := ListInvestigations(Some(user), q, [row], out);
    var offset := IntParam(q.offset, DefaultOffset);
    var limit := IntParam(q.limit, DefaultLimit);
    assert r.investigations == ListedRows(q, [row], offset, limit);
    assert !MatchesFilters(q, row);
  }

  /** Without a stage the count filter is `id = 'id'`; no real identifier is "id", so the total is 0. */
  lemma TotalWithoutStage(user: string, q: Query, table: seq<Investigation>, out: Outcomes)
    requires out.pageError.None? && !Given(q.stage)
    requires forall i :: 0 <= i < |table| ==> table[i].id != "id"
    ensures ListInvestigations(Some(user), q, table, out).pagination.total == 0
  {
    FilterNone(table, CountFilter(q));
  }

  /** With a stage the total is the number of investigations at that stage, deleted ones included. */
  lemma TotalWithStage(user: string, q: Query, table: seq<Investigation>, out: Outcomes)
    requires out.pageError.None? && !out.countFails && Given(q.stage)
    ensures ListInvestigations(Some(user), q, table, out).pagination.total
         == CountWhere(table, HasStage(q.stage.value))
  {
    FilterExtensional(table, CountFilter(q), HasStage(q.stage.value));
  }

  /** A failed page query answers 500 with the store's message. */
  lemma PageErrorIsServerError(user: string, q: Query, table: seq<Investigation>, out: Outcomes)
    requires out.pageError.Some?
    ensures ListInvestigations(Some(user), q, table, out) == ServerError(out.pageError.value)
    ensures StatusCode(ListInvestigations(Some(user), q, table, out)) == 500
  {
  }

  /** A failed statistics scan still lists the page, with every statistic 0. */
  lemma StatsFailureGivesZeros(user: string, q: Query, table: seq<Investigation>, out: Outcomes)
    requires out.pageError.None? && out.statsFails
    ensures ListInvestigations(Some(user), q, table, out).Listed?
    ensures ListInvestigations(Some(user), q, table, out).stats == ZeroStats
  {
  }

  /** The statistics count the non-deleted investigations, per stage and in total. */
  lemma StatsCountLiveRows(user: string, q: Query, table: seq<Investigation>, out: Outcomes)
    requires out.pageError.None? && !out.statsFails
    ensures var s := ListInvestigations(Some(user), q, table, out).stats;
      var live := Filter(table, IsLive);
      s.total == |live|
      && s.notStarted == CountWhere(live, HasStage("not_started"))
      && s.dataCollection == CountWhere(live, HasStage("data_collection"))
      && s.analysis == CountWhere(live, HasStage("analysis"))
      && s.recommendations == CountWhere(live, HasStage("recommendations"))
      && s.review == CountWhere(live, HasStage("review"))
      && s.completed == CountWhere(live, HasStage("completed"))
      && (forall row :: row in live <==> row in table && row.deletedAt.None?)
  {
  }

  /** The six stage identifiers. */
  predicate KnownStage(id: string) {
    id == "not_started" || id == "data_collection" || id == "analysis"
    || id == "recommendations" || id == "review" || id == "completed"
  }

  function StageSum(s: Stats): nat {
    s.notStarted + s.dataCollection + s.analysis + s.recommendations + s.review + s.completed
  }

  /** When every investigation is at one of the six stages, the per-stage counts add up to the total. */
  lemma {:induction false} StageCountsSumToTotal(live: seq<Investigation>)
    requires forall i :: 0 <= i < |live| ==> KnownStage(live[i].stage)
    ensures StageSum(StatsOf(live)) == StatsOf(live).total
    decreases |live|
  {
    if |live| > 0 {
      StageCountsSumToTotal(live[1..]);
      StageSumStep(live);
    }
  }

  /** Dropping the first row of a known stage lowers the stage sum by one. */
  lemma StageSumStep(live: seq<Investigation>)
    requires |live| > 0 && KnownStage(live[0].stage)
    ensures StageSum(StatsOf(live)) == StageSum(StatsOf(live[1..])) + 1
  {
    CountStep(live, "not_started");
    CountStep(live, "data_collection");
    CountStep(live, "analysis");
    CountStep(live, "recommendations");
    CountStep(live, "review");
    CountStep(live, "completed");
    OneStageMatches(live[0].stage);
  }

  /** A known stage identifier equals exactly one of the six. */
  lemma OneStageMatches(id: string)
    requires KnownStage(id)
    ensures (if id == "not_started" then 1 else 0) + (if id == "data_collection" then 1 else 0)
          + (if id == "analysis" then 1 else 0) + (if id == "recommendations" then 1 else 0)
          + (if id == "review" then 1 else 0) + (if id == "completed" then 1 else 0) == 1
  {
  }

  /** Counting one stage: the first row's contribution plus the count over the rest. */
  lemma CountStep(live: seq<Investigation>, id: string)
    requires |live| > 0
    ensures CountWhere(live, HasStage(id))
         == (if live[0].stage == id then 1 else 0) + CountWhere(live[1..], HasStage(id))
  {
  }

  /** The same, for the statistics of a successful listing. */
  lemma ListedStageCountsSum(user: string, q: Query, table: seq<Investigation>, out: Outcomes)
    requires out.pageError.None? && !out.statsFails
    requires forall i :: 0 <= i < |table| ==> KnownStage(table[i].stage)
    ensures var s := ListInvestigations(Some(user), q, table, out).stats;
      StageSum(s) == s.total
  {
    var live := Filter(table, IsLive);
    forall i | 0 <= i < |live|
      ensures KnownStage(live[i].stage)
    {
      assert live[i] in table;
    }
    StageCountsSumToTotal(live);
  }

  /** The end date is inclusive: a row created during that day, up to its last millisecond, passes. */
  lemma EndDateCoversWholeDay(q: Query, row: Investigation)
    requires q.endDate.Some? && !Given(q.stage) && q.startDate.None?
    ensures MatchesFilters(q, row) <==> row.createdAt < q.endDate.value + DayMs
  {
  }
}
