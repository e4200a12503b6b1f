/**
 * `getConsolidatedRecords` of `src/services/procedureDetailService.server.ts`
 * once the attentions and the sales are fetched: consolidate them, compute
 * the statistics over every record, and return one page of the records.
 */
module ProcedureDetail {
  import opened Conciliation
  import opened ConciliationProperties
  import opened Stats
  import opened Pagination

  datatype ConsolidatedResponse = ConsolidatedResponse(
    records: seq<ConsolidatedRecord>, stats: ConciliationStats, pagination: PaginationInfo)

  /** The number of consolidated records: one per attention, one per sale no attention took. */
  function TotalRecords(attentions: seq<AttentionRecord>, sales: seq<SaleRecord>): nat {
    |attentions| + |Without(SaleIds(sales), MatchAttentions(attentions, sales).matched)|
  }

  /**
   * The response: statistics over all the consolidated records whatever the
   * page; the page `page` of `limit` records cut from the consolidated list
   * `all` (a reordering of the records the two loops push, newest first when
   * every date is valid); and the page's position among them.
   */
  method GetConsolidatedRecords(attentions: seq<AttentionRecord>, sales: seq<SaleRecord>, page: int, limit: int)
    returns (response: ConsolidatedResponse, ghost all: seq<ConsolidatedRecord>)
    ensures multiset(all) == multiset(Unsorted(attentions, sales))
    ensures AllDatesValid(all) ==> SortedByDateDescending(all)
    ensures response.records == Paginate(all, page, limit).records
    ensures response.stats == CalculateStats(Unsorted(attentions, sales))
    ensures var total := TotalRecords(attentions, sales);
      response.pagination == PaginationInfo(page, limit, total, page * limit < total)
    ensures multiset(response.records) <= multiset(Unsorted(attentions, sales))
    ensures page >= 1 && limit >= 0 ==> |response.records| <= limit
    ensures AllDatesValid(Unsorted(attentions, sales)) ==> SortedByDateDescending(response.records)
  {
    var allRecords := ConsolidateRecords(attentions, sales);
    var stats := CalculateStats(allRecords);
    ConsolidatedStats(attentions, sales, allRecords);
    var paged := Paginate(allRecords, page, limit);
    response := ConsolidatedResponse(paged.records, stats, paged.pagination);
    all := allRecords;
    PageOfReordering(allRecords, Unsorted(attentions, sales), page, limit);
  }

  /**
   * A page cut from a reordering `all` of the records `pushed` is drawn from
   * those records, at most `limit` long from page 1 on, and newest first when
   * every date is valid.
   */
  lemma PageOfReordering(all: seq<ConsolidatedRecord>, pushed: seq<ConsolidatedRecord>, page: int, limit: int)
    requires multiset(all) == multiset(pushed)
    requires AllDatesValid(all) ==> SortedByDateDescending(all)
    ensures var records := Paginate(all, page, limit).records;
      && multiset(records) <= multiset(pushed)
      && (page >= 1 && limit >= 0 ==> |records| <= limit)
      && (AllDatesValid(pushed) ==> SortedByDateDescending(records))
  {
    var startIndex := (page - 1) * limit;
    PageIsSlice(all, page, limit);
    SliceWithin(all, startIndex, startIndex + limit);
    if page >= 1 && limit >= 0 {
      PageWindow(all, page, limit);
    }
    AllDatesValidPermutation(all, pushed);
    if AllDatesValid(all) {
      SortedSlice(all, startIndex, startIndex + limit);
    }
  }

  /** The records of a page are the slice from `(page - 1) * limit` to `limit` past it. */
  lemma PageIsSlice<T>(all: seq<T>, page: int, limit: int)
    ensures Paginate(all, page, limit).records == Slice(all, (page - 1) * limit, (page - 1) * limit + limit)
  {
  }

  /** A slice of a list sorted newest first is sorted newest first. */
  lemma SortedSlice(s: seq<ConsolidatedRecord>, start: int, end: int)
    requires SortedByDateDescending(s)
    ensures SortedByDateDescending(Slice(s, start, end))
  {
    var r, from := Slice(s, start, end), ClampIndex(start, |s|);
    forall i, j | 0 <= i < j < |r| ensures DateKey(r[i]) >= DateKey(r[j]) {
      assert r[i] == s[from + i];
      assert r[j] == s[from + j];
    }
  }
}
