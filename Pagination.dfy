/**
 * The page arithmetic of `getConsolidatedRecords`: page `page` of `limit`
 * records is `allRecords.slice((page - 1) * limit, page * limit)`, with
 * JavaScript's `Array.prototype.slice` reading a negative index from the
 * end of the array and clamping every index into it.
 */
module Pagination {

  function Min(a: int, b: int): int {
    if a <= b then a else b
  }

  /**
   * The index `slice` starts (or stops) at for a relative index `i` into an
   * array of length `len`: counted from the end when negative, clamped to
   * `[0, len]` either way (ECMA-262, section 23.1.3.28).
   */
  function ClampIndex(i: int, len: nat): (k: nat)
    ensures k <= len
    ensures 0 <= i ==> k == Min(i, len)
    ensures i < 0 && len + i >= 0 ==> k == len + i
    ensures len + i < 0 ==> k == 0
  {
    if i < 0 then (if len + i < 0 then 0 else len + i)
    else if i > len then len
    else i
  }

  /**
   * `s.slice(start, end)`: the elements from the clamped start index up to,
   * and not including, the clamped end index; none when the end does not
   * come after the start.
   */
  function Slice<T>(s: seq<T>, start: int, end: int): (r: seq<T>)
    ensures var from, to := ClampIndex(start, |s|), ClampIndex(end, |s|);
      && (from < to ==> |r| == to - from)
      && (to <= from ==> r == [])
      && forall k :: 0 <= k < |r| ==> r[k] == s[from + k]
  {
    var from, to := ClampIndex(start, |s|), ClampIndex(end, |s|);
    if from < to then s[from..to] else []
  }

  /** A slice holds only elements of the list it is cut from. */
  lemma SliceWithin<T>(s: seq<T>, start: int, end: int)
    ensures multiset(Slice(s, start, end)) <= multiset(s)
  {
    var from, to := ClampIndex(start, |s|), ClampIndex(end, |s|);
    if from < to {
      assert s == s[..from] + Slice(s, start, end) + s[to..];
    }
  }

  /** The `pagination` object of the response. */
  datatype PaginationInfo = PaginationInfo(currentPage: int, pageSize: int, totalRecords: nat, hasMore: bool)

  datatype Page<T> = Page(records: seq<T>, pagination: PaginationInfo)

  /**
   * Page `page` of `limit` records: `startIndex = (page - 1) * limit`,
   * `endIndex = startIndex + limit`, and more records follow exactly when
   * `endIndex` is below the total.
   */
  function Paginate<T>(all: seq<T>, page: int, limit: int): (p: Page<T>)
    ensures p.pagination.currentPage == page && p.pagination.pageSize == limit
    ensures p.pagination.totalRecords == |all|
    ensures p.pagination.hasMore <==> page * limit < |all|
    ensures |p.records| <= |all|
  {
    var startIndex := (page - 1) * limit;
    var endIndex := startIndex + limit;
    Page(Slice(all, startIndex, endIndex), PaginationInfo(page, limit, |all|, endIndex < |all|))
  }

  // ------------------------------------------------------------------ lemmas

  lemma PageBounds(page: int, limit: int)
    requires page >= 1 && limit >= 0
    ensures 0 <= (page - 1) * limit <= (page - 1) * limit + limit == page * limit
  {
  }

  /**
   * From page 1 on, a page is the run of records from `(page - 1) * limit`
   * to `page * limit`, cut off at the end of the list: at most `limit`
   * records, and exactly `limit` whenever more follow.
   */
  lemma PageWindow<T>(all: seq<T>, page: int, limit: int)
    requires page >= 1 && limit >= 0
    ensures var p := Paginate(all, page, limit);
      && p.records == all[Min((page - 1) * limit, |all|)..Min(page * limit, |all|)]
      && |p.records| <= limit
      && (p.pagination.hasMore ==> |p.records| == limit)
  {
    PageBounds(page, limit);
  }

  /** Record `i` is on page `i / limit + 1`, at position `i % limit`. */
  lemma PageOfIndex<T>(all: seq<T>, limit: int, i: int)
    requires limit >= 1 && 0 <= i < |all|
    ensures var p := Paginate(all, i / limit + 1, limit);
      i % limit < |p.records| && p.records[i % limit] == all[i]
  {
    var q, r := i / limit, i % limit;
    assert i == q * limit + r;
    PagePosition(all, q + 1, limit, r);
  }

  /** Position `r` of page `page` holds the record `(page - 1) * limit + r`. */
  lemma PagePosition<T>(all: seq<T>, page: int, limit: int, r: int)
    requires page >= 1 && 0 <= r < limit && (page - 1) * limit + r < |all|
    ensures var p := Paginate(all, page, limit);
      r < |p.records| && p.records[r] == all[(page - 1) * limit + r]
  {
    PageWindow(all, page, limit);
    PageBounds(page, limit);
  }

  /** From page 1 on, `hasMore` is true exactly when the next page holds records. */
  lemma HasMoreIffNextPageNonEmpty<T>(all: seq<T>, page: int, limit: int)
    requires page >= 1 && limit >= 1
    ensures Paginate(all, page, limit).pagination.hasMore <==> Paginate(all, page + 1, limit).records != []
  {
    PageWindow(all, page + 1, limit);
    assert (page + 1 - 1) * limit == page * limit;
  }

  /** Page 0 is empty: it ends where the list starts. */
  lemma PageZeroEmpty<T>(all: seq<T>, limit: int)
    requires limit >= 0
    ensures Paginate(all, 0, limit).records == []
  {
  }

  /**
   * A negative page counts back from the end of the list, as `slice` does
   * with negative indices: page -1 of 20 records is the records 40 to 20
   * places from the end.
   */
  lemma NegativePageCountsFromEnd<T>(all: seq<T>, page: int, limit: int)
    requires page < 0 && limit >= 1 && |all| + (page - 1) * limit >= 0
    ensures Paginate(all, page, limit).records ==
      all[|all| + (page - 1) * limit..|all| + page * limit]
  {
    assert (page - 1) * limit + limit == page * limit;
    assert page * limit < 0;
  }

  /** The records of pages 1 to `n`, one page after the other. */
  function FirstPages<T>(all: seq<T>, limit: int, n: nat): seq<T> {
    if n == 0 then [] else FirstPages(all, limit, n - 1) + Paginate(all, n, limit).records
  }

  /** Pages 1 to `n` together are the first `n * limit` records: no record is skipped or repeated. */
  lemma {:induction false} FirstPagesPrefix<T>(all: seq<T>, limit: int, n: nat)
    requires limit >= 0
    ensures FirstPages(all, limit, n) == all[..Min(n * limit, |all|)]
  {
    if n > 0 {
      FirstPagesPrefix(all, limit, n - 1);
      PageWindow(all, n, limit);
      PageBounds(n, limit);
      PrefixThenRun(all, Min((n - 1) * limit, |all|), Min(n * limit, |all|));
    }
  }

  lemma PrefixThenRun<T>(s: seq<T>, a: int, b: int)
    requires 0 <= a <= b <= |s|
    ensures s[..a] + s[a..b] == s[..b]
  {
  }

  /** Enough pages, together, are the whole list. */
  lemma AllPagesCover<T>(all: seq<T>, limit: int, n: nat)
    requires limit >= 1 && n * limit >= |all|
    ensures FirstPages(all, limit, n) == all
  {
    FirstPagesPrefix(all, limit, n);
  }
}
