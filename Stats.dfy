/**
 * `calculateStats` of `src/services/procedureDetailService.server.ts`: the
 * counts, the conciliation rate and the averages shown above the
 * reconciliation table. Amounts and averages are exact reals here.
 */
module Stats {
  import opened Conciliation
  import opened ConciliationProperties
  import opened DateUtils

  datatype ConciliationStats = ConciliationStats(
    totalRecords: nat, perfectMatches: nat, likelyMatches: nat, attentionOnly: nat, saleOnly: nat,
    conciliationRate: real, totalSalesAmount: real, avgSaleAmount: real, avgTimeDifferenceMinutes: real)

  /** `records.filter(p).length`. */
  function CountWhere(records: seq<ConsolidatedRecord>, p: ConsolidatedRecord -> bool): (n: nat)
    ensures n <= |records|
    decreases |records|
  {
    if records == [] then 0
    else (if p(records[0]) then 1 else 0) + CountWhere(records[1..], p)
  }

  /** `records.reduce((sum, r) => sum + f(r), 0)`. */
  function SumOf(records: seq<ConsolidatedRecord>, f: ConsolidatedRecord -> real): real
    decreases |records|
  {
    if records == [] then 0.0 else f(records[0]) + SumOf(records[1..], f)
  }

  function HasStatus(status: ConciliationStatus): ConsolidatedRecord -> bool {
    (r: ConsolidatedRecord) => r.conciliationStatus == status
  }

  predicate HasAttention(r: ConsolidatedRecord) {
    r.attention.Some?
  }

  predicate HasSale(r: ConsolidatedRecord) {
    r.sale.Some?
  }

  predicate HasTimeDifference(r: ConsolidatedRecord) {
    r.timeDifferenceMinutes.Some?
  }

  /** `record.sale?.amount || 0`. */
  function SaleAmount(r: ConsolidatedRecord): real {
    if r.sale.Some? then r.sale.value.amount else 0.0
  }

  /** `r.timeDifferenceMinutes || 0`. */
  function TimeDifference(r: ConsolidatedRecord): real {
    if r.timeDifferenceMinutes.Some? then r.timeDifferenceMinutes.value as real else 0.0
  }

  /** A total over a count, or 0 when there is nothing to average. */
  function Average(total: real, count: nat): (avg: real)
    ensures count == 0 ==> avg == 0.0
    ensures count > 0 ==> avg * count as real == total
    ensures total >= 0.0 ==> avg >= 0.0
  {
    if count > 0 then total / count as real else 0.0
  }

  /** `(matched / total) * 100`, or 0 for no records. */
  function ConciliationRate(matched: nat, total: nat): (rate: real)
    ensures total == 0 ==> rate == 0.0
    ensures total > 0 ==> rate * total as real == matched as real * 100.0
    ensures rate >= 0.0
    ensures matched <= total ==> rate <= 100.0
    ensures total > 0 ==> (rate == 100.0 <==> matched == total)
  {
    if total > 0 then (matched as real / total as real) * 100.0 else 0.0
  }

  /** `calculateStats`. */
  function CalculateStats(records: seq<ConsolidatedRecord>): (s: ConciliationStats)
    ensures s.totalRecords == |records|
    ensures s.perfectMatches == CountWhere(records, HasStatus(PerfectMatch))
    ensures s.likelyMatches == CountWhere(records, HasStatus(LikelyMatch))
    ensures s.attentionOnly == CountWhere(records, HasStatus(AttentionOnly))
    ensures s.saleOnly == CountWhere(records, HasStatus(SaleOnly))
    ensures s.perfectMatches + s.likelyMatches + s.attentionOnly + s.saleOnly == s.totalRecords
    ensures s.conciliationRate == ConciliationRate(s.perfectMatches + s.likelyMatches, s.totalRecords)
    ensures 0.0 <= s.conciliationRate <= 100.0
    ensures s.totalSalesAmount == SumOf(records, SaleAmount) && s.totalSalesAmount >= 0.0
    ensures s.avgSaleAmount == Average(s.totalSalesAmount, CountWhere(records, HasSale)) && s.avgSaleAmount >= 0.0
    ensures s.avgTimeDifferenceMinutes == Average(SumOf(records, TimeDifference), CountWhere(records, HasTimeDifference))
  {
    var perfect := CountWhere(records, HasStatus(PerfectMatch));
    var likely := CountWhere(records, HasStatus(LikelyMatch));
    var attentionOnly := CountWhere(records, HasStatus(AttentionOnly));
    var saleOnly := CountWhere(records, HasStatus(SaleOnly));
    StatusCountsSum(records);
    var totalSales := SumOf(records, SaleAmount);
    SalesTotalNonNegative(records);
    ConciliationStats(
      |records|, perfect, likely, attentionOnly, saleOnly,
      ConciliationRate(perfect + likely, |records|),
      totalSales, Average(totalSales, CountWhere(records, HasSale)),
      Average(SumOf(records, TimeDifference), CountWhere(records, HasTimeDifference)))
  }

  // ------------------------------------------------------------------ lemmas

  /** Every record has exactly one of the four statuses, so the four counts add up to the total. */
  lemma {:induction false} StatusCountsSum(records: seq<ConsolidatedRecord>)
    ensures CountWhere(records, HasStatus(PerfectMatch)) + CountWhere(records, HasStatus(LikelyMatch))
          + CountWhere(records, HasStatus(AttentionOnly)) + CountWhere(records, HasStatus(SaleOnly)) == |records|
    decreases |records|
  {
    if records != [] {
      StatusCountsSum(records[1..]);
    }
  }

  lemma {:induction false} SalesTotalNonNegative(records: seq<ConsolidatedRecord>)
    ensures SumOf(records, SaleAmount) >= 0.0
    decreases |records|
  {
    if records != [] {
      SalesTotalNonNegative(records[1..]);
    }
  }

  lemma {:induction false} CountWhereAppend(a: seq<ConsolidatedRecord>, b: seq<ConsolidatedRecord>, p: ConsolidatedRecord -> bool)
    ensures CountWhere(a + b, p) == CountWhere(a, p) + CountWhere(b, p)
    decreases |a|
  {
    if a != [] {
      assert (a + b)[0] == a[0] && (a + b)[1..] == a[1..] + b;
      CountWhereAppend(a[1..], b, p);
    } else {
      assert a + b == b;
    }
  }

  lemma {:induction false} SumOfAppend(a: seq<ConsolidatedRecord>, b: seq<ConsolidatedRecord>, f: ConsolidatedRecord -> real)
    ensures SumOf(a + b, f) == SumOf(a, f) + SumOf(b, f)
    decreases |a|
  {
    if a != [] {
      assert (a + b)[0] == a[0] && (a + b)[1..] == a[1..] + b;
      SumOfAppend(a[1..], b, f);
    } else {
      assert a + b == b;
    }
  }

  /** Taking record `k` out of a list takes its share out of a count. */
  lemma CountAround(t: seq<ConsolidatedRecord>, k: int, p: ConsolidatedRecord -> bool)
    requires 0 <= k < |t|
    ensures CountWhere(t, p) == (if p(t[k]) then 1 else 0) + CountWhere(t[..k] + t[k + 1..], p)
  {
    var front, back := t[..k], t[k + 1..];
    SplitAround(t, k);
    CountWhereAppend(front, [t[k]] + back, p);
    CountCons(t[k], back, p);
    CountWhereAppend(front, back, p);
  }

  lemma SplitAround<T>(t: seq<T>, k: int)
    requires 0 <= k < |t|
    ensures t == t[..k] + ([t[k]] + t[k + 1..])
  {
  }

  lemma CountCons(x: ConsolidatedRecord, back: seq<ConsolidatedRecord>, p: ConsolidatedRecord -> bool)
    ensures CountWhere([x] + back, p) == (if p(x) then 1 else 0) + CountWhere(back, p)
  {
    assert ([x] + back)[0] == x && ([x] + back)[1..] == back;
  }

  /** Taking record `k` out of a list takes its share out of a sum. */
  lemma SumAround(t: seq<ConsolidatedRecord>, k: int, f: ConsolidatedRecord -> real)
    requires 0 <= k < |t|
    ensures SumOf(t, f) == f(t[k]) + SumOf(t[..k] + t[k + 1..], f)
  {
    var front, back := t[..k], t[k + 1..];
    var rest := [t[k]] + back;
    SplitAround(t, k);
    assert SumOf(rest, f) == f(t[k]) + SumOf(back, f) by {
      assert rest[0] == t[k] && rest[1..] == back;
    }
    SumOfAppend(front, rest, f);
    SumOfAppend(front, back, f);
  }

  /** A count and a sum over the records do not depend on their order. */
  lemma {:induction false} OrderIrrelevant(s: seq<ConsolidatedRecord>, t: seq<ConsolidatedRecord>,
                                           p: ConsolidatedRecord -> bool, f: ConsolidatedRecord -> real)
    requires multiset(s) == multiset(t)
    ensures CountWhere(s, p) == CountWhere(t, p)
    ensures SumOf(s, f) == SumOf(t, f)
    decreases |s|
  {
    if s == [] {
      assert |t| == |multiset(t)| == 0;
    } else {
      var x := s[0];
      assert s == [x] + s[1..];
      assert x in multiset(t);
      var k :| 0 <= k < |t| && t[k] == x;
      var others := t[..k] + t[k + 1..];
      MultisetAround(t, k);
      assert multiset(s[1..]) == multiset(s) - multiset{x};
      assert multiset(others) == multiset(t) - multiset{x};
      OrderIrrelevant(s[1..], others, p, f);
      CountAround(t, k, p);
      SumAround(t, k, f);
    }
  }

  /**
   * The statistics do not depend on the order of the records, so computing
   * them after the date sort gives what they were before it.
   */
  lemma StatsIgnoreOrder(s: seq<ConsolidatedRecord>, t: seq<ConsolidatedRecord>)
    requires multiset(s) == multiset(t)
    ensures CalculateStats(s) == CalculateStats(t)
  {
    assert |s| == |multiset(s)| == |t|;
    forall status: ConciliationStatus
      ensures CountWhere(s, HasStatus(status)) == CountWhere(t, HasStatus(status))
    {
      OrderIrrelevant(s, t, HasStatus(status), SaleAmount);
    }
    OrderIrrelevant(s, t, HasSale, SaleAmount);
    OrderIrrelevant(s, t, HasTimeDifference, TimeDifference);
  }

  /** What the statistics need of a well-formed record: its status tells which sides it has. */
  predicate Shaped(r: ConsolidatedRecord) {
    && (HasTimeDifference(r) <==> r.conciliationStatus == PerfectMatch || r.conciliationStatus == LikelyMatch)
    && (HasSale(r) <==> r.conciliationStatus != AttentionOnly)
    && (HasAttention(r) <==> r.conciliationStatus != SaleOnly)
    && 0.0 <= TimeDifference(r) <= 1439.0
  }

  lemma WellFormedIsShaped(r: ConsolidatedRecord)
    requires WellFormedRecord(r)
    ensures Shaped(r)
  {
  }

  /**
   * Over well-formed records: the two kinds of match are the records with a
   * time difference, the records with a sale are the matches and the
   * sale-only ones, the records with an attention are the matches and the
   * attention-only ones, and each time difference is under a day.
   */
  lemma WellFormedCounts(records: seq<ConsolidatedRecord>)
    requires forall r :: r in records ==> WellFormedRecord(r)
    ensures var matches := CountWhere(records, HasStatus(PerfectMatch)) + CountWhere(records, HasStatus(LikelyMatch));
      && CountWhere(records, HasTimeDifference) == matches
      && CountWhere(records, HasSale) == matches + CountWhere(records, HasStatus(SaleOnly))
      && CountWhere(records, HasAttention) == matches + CountWhere(records, HasStatus(AttentionOnly))
      && 0.0 <= SumOf(records, TimeDifference) <= 1439.0 * matches as real
  {
    forall r | r in records ensures Shaped(r) {
      WellFormedIsShaped(r);
    }
    ShapedCounts(records);
    ShapedTimeTotal(records);
  }

  lemma {:induction false} ShapedCounts(records: seq<ConsolidatedRecord>)
    requires forall r :: r in records ==> Shaped(r)
    ensures var matches := CountWhere(records, HasStatus(PerfectMatch)) + CountWhere(records, HasStatus(LikelyMatch));
      && CountWhere(records, HasTimeDifference) == matches
      && CountWhere(records, HasSale) == matches + CountWhere(records, HasStatus(SaleOnly))
      && CountWhere(records, HasAttention) == matches + CountWhere(records, HasStatus(AttentionOnly))
    decreases |records|
  {
    if records != [] {
      assert Shaped(records[0]) by { assert records[0] in records; }
      assert forall r :: r in records[1..] ==> r in records;
      ShapedCounts(records[1..]);
    }
  }

  lemma {:induction false} ShapedTimeTotal(records: seq<ConsolidatedRecord>)
    requires forall r :: r in records ==> Shaped(r)
    ensures 0.0 <= SumOf(records, TimeDifference) <= 1439.0 * CountWhere(records, HasTimeDifference) as real
    decreases |records|
  {
    if records != [] {
      assert Shaped(records[0]) by { assert records[0] in records; }
      assert forall r :: r in records[1..] ==> r in records;
      ShapedTimeTotal(records[1..]);
    }
  }

  /** The records that carry an attention are as many as the attention ids they refer to. */
  lemma {:induction false} AttentionRefsCount(records: seq<ConsolidatedRecord>)
    ensures |SideRefs(records, AttentionSide)| == CountWhere(records, HasAttention)
    decreases |records|
  {
    if records != [] {
      AttentionRefsCount(records[1..]);
    }
  }

  /**
   * The statistics of the consolidated records: one record per attention
   * (a match or attention-only) plus one per sale left over, as many records
   * with a time difference as matches, and an average time difference under
   * a day. They are those of the records before the sort.
   */
  lemma ConsolidatedStats(attentions: seq<AttentionRecord>, sales: seq<SaleRecord>, result: seq<ConsolidatedRecord>)
    requires multiset(result) == multiset(Unsorted(attentions, sales))
    ensures var s := CalculateStats(result);
      && s == CalculateStats(Unsorted(attentions, sales))
      && s.totalRecords == |attentions| + |Without(SaleIds(sales), MatchAttentions(attentions, sales).matched)|
      && s.perfectMatches + s.likelyMatches + s.attentionOnly == |attentions|
      && s.saleOnly == |Without(SaleIds(sales), MatchAttentions(attentions, sales).matched)|
      && CountWhere(result, HasTimeDifference) == s.perfectMatches + s.likelyMatches
      && CountWhere(result, HasSale) == s.perfectMatches + s.likelyMatches + s.saleOnly
      && 0.0 <= s.avgTimeDifferenceMinutes < 1440.0
  {
    ConsolidatedSides(attentions, sales, result);
    StatsIgnoreOrder(result, Unsorted(attentions, sales));
    ShapedCounts(result);
    ShapedTimeTotal(result);
    AverageBelow(SumOf(result, TimeDifference), CountWhere(result, HasTimeDifference));
  }

  /** The consolidated records: one per attention and one per sale left over, each shaped by its status. */
  lemma ConsolidatedSides(attentions: seq<AttentionRecord>, sales: seq<SaleRecord>, result: seq<ConsolidatedRecord>)
    requires multiset(result) == multiset(Unsorted(attentions, sales))
    ensures |result| == |attentions| + |Without(SaleIds(sales), MatchAttentions(attentions, sales).matched)|
    ensures CountWhere(result, HasAttention) == |attentions|
    ensures forall r :: r in result ==> Shaped(r)
  {
    ConsolidatedCoverage(attentions, sales, result);
    AttentionRefsCount(result);
    var attentionRefs := SideRefs(result, AttentionSide);
    assert |attentionRefs| == |multiset(attentionRefs)| == |multiset(AttentionIds(attentions))| == |AttentionIds(attentions)|;
    forall r | r in result ensures Shaped(r) {
      WellFormedIsShaped(r);
    }
  }

  lemma AverageBelow(total: real, count: nat)
    requires 0.0 <= total <= 1439.0 * count as real
    ensures 0.0 <= Average(total, count) < 1440.0
  {
    if count > 0 {
      var c := count as real;
      var avg := Average(total, count);
      assert avg * c == total;
      if avg >= 1440.0 {
        assert (avg - 1440.0) * c >= 0.0;
      }
    }
  }

  // ------------------------------------------------------------ sales totals

  /** The amounts of all the sales fetched, added up. */
  function SalesTotal(sales: seq<SaleRecord>): real
    decreases |sales|
  {
    if sales == [] then 0.0 else sales[0].amount + SalesTotal(sales[1..])
  }

  /** The amounts of the sales whose id is (`taken`) or is not (`!taken`) in `matched`. */
  function TotalWhere(sales: seq<SaleRecord>, matched: set<string>, taken: bool): real
    decreases |sales|
  {
    if sales == [] then 0.0
    else (if (sales[0].id in matched) == taken then sales[0].amount else 0.0) + TotalWhere(sales[1..], matched, taken)
  }

  /**
   * With distinct sale ids, `totalSalesAmount` of the consolidated records is
   * the sum of every fetched sale's amount: each sale contributes once, from
   * its pair record or from its sale-only record.
   */
  lemma ConsolidatedSalesTotal(attentions: seq<AttentionRecord>, sales: seq<SaleRecord>, result: seq<ConsolidatedRecord>)
    requires Distinct(SaleIds(sales))
    requires multiset(result) == multiset(Unsorted(attentions, sales))
    ensures CalculateStats(result).totalSalesAmount == SalesTotal(sales)
  {
    var pushed := Unsorted(attentions, sales);
    StatsIgnoreOrder(result, pushed);
    UnsortedSalesTotal(attentions, sales);
    assert CalculateStats(pushed).totalSalesAmount == SumOf(pushed, SaleAmount);
  }

  /** The records in the order they are pushed carry every sale's amount once. */
  lemma UnsortedSalesTotal(attentions: seq<AttentionRecord>, sales: seq<SaleRecord>)
    requires Distinct(SaleIds(sales))
    ensures SumOf(Unsorted(attentions, sales), SaleAmount) == SalesTotal(sales)
  {
    var state := MatchAttentions(attentions, sales);
    var left := UnmatchedSales(sales, state.matched);
    assert Unsorted(attentions, sales) == state.records + left;
    SumOfAppend(state.records, left, SaleAmount);
    NothingTaken(sales);
    MatchFromTotal(attentions, sales, MatchState([], {}));
    assert SumOf(state.records, SaleAmount) == TotalWhere(sales, state.matched, true);
    LeftoverTotal(sales, state.matched);
    SplitTotal(sales, state.matched);
  }

  /** Before the first loop nothing is taken. */
  lemma {:induction false} NothingTaken(sales: seq<SaleRecord>)
    ensures TotalWhere(sales, {}, true) == 0.0
    decreases |sales|
  {
    if sales != [] {
      NothingTaken(sales[1..]);
    }
  }

  /** The first loop adds to the sales total exactly the amounts of the sales it takes. */
  lemma {:induction false} MatchFromTotal(attentions: seq<AttentionRecord>, sales: seq<SaleRecord>, state: MatchState)
    requires Distinct(SaleIds(sales))
    requires SumOf(state.records, SaleAmount) == TotalWhere(sales, state.matched, true)
    ensures var r := MatchFrom(attentions, sales, state);
      SumOf(r.records, SaleAmount) == TotalWhere(sales, r.matched, true)
    decreases |attentions|
  {
    if attentions != [] {
      var next := Step(state, attentions[0], sales);
      StepTotal(state, attentions[0], sales);
      MatchFromTotal(attentions[1..], sales, next);
    }
  }

  /** One attention adds the amount of the sale it takes, or nothing. */
  lemma StepTotal(state: MatchState, attention: AttentionRecord, sales: seq<SaleRecord>)
    requires Distinct(SaleIds(sales))
    requires SumOf(state.records, SaleAmount) == TotalWhere(sales, state.matched, true)
    ensures var next := Step(state, attention, sales);
      SumOf(next.records, SaleAmount) == TotalWhere(sales, next.matched, true)
  {
    var (record, matched) := Emit(attention, sales, state.matched);
    SumOfAppend(state.records, [record], SaleAmount);
    assert SumOf([record], SaleAmount) == SaleAmount(record);
    match FirstEligible(attention, sales, state.matched)
    case Some(k) =>
      TakeOne(sales, state.matched, k);
    case None =>
  }

  /** Adding the id of a sale not yet taken adds that sale's amount, once, to the taken total. */
  lemma {:induction false} TakeOne(sales: seq<SaleRecord>, matched: set<string>, k: nat)
    requires Distinct(SaleIds(sales))
    requires k < |sales| && sales[k].id !in matched
    ensures TotalWhere(sales, matched + {sales[k].id}, true) == TotalWhere(sales, matched, true) + sales[k].amount
    decreases |sales|
  {
    var rest := sales[1..];
    DistinctTail(sales);
    if k == 0 {
      NotAmong(rest, matched, sales[0].id);
    } else {
      assert sales[0].id != sales[k].id by {
        assert SaleIds(sales)[0] != SaleIds(sales)[k];
      }
      assert rest[k - 1] == sales[k];
      TakeOne(rest, matched, k - 1);
    }
  }

  /** An id no sale has does not change the taken total. */
  lemma {:induction false} NotAmong(sales: seq<SaleRecord>, matched: set<string>, x: string)
    requires forall j :: 0 <= j < |sales| ==> sales[j].id != x
    ensures TotalWhere(sales, matched + {x}, true) == TotalWhere(sales, matched, true)
    decreases |sales|
  {
    if sales != [] {
      NotAmong(sales[1..], matched, x);
    }
  }

  /** The sales after the first have distinct ids too, none of them the first one's. */
  lemma DistinctTail(sales: seq<SaleRecord>)
    requires Distinct(SaleIds(sales)) && sales != []
    ensures Distinct(SaleIds(sales[1..]))
    ensures forall j :: 0 <= j < |sales[1..]| ==> sales[1..][j].id != sales[0].id
  {
    var ids, rest := SaleIds(sales), SaleIds(sales[1..]);
    forall p, q | 0 <= p < q < |rest| ensures rest[p] != rest[q] {
      assert rest[p] == ids[p + 1] && rest[q] == ids[q + 1];
    }
    forall j | 0 <= j < |sales[1..]| ensures sales[1..][j].id != sales[0].id {
      assert ids[0] != ids[j + 1];
    }
  }

  /** The second loop's records add up to the amounts of the sales not taken. */
  lemma {:induction false} LeftoverTotal(sales: seq<SaleRecord>, matched: set<string>)
    ensures SumOf(UnmatchedSales(sales, matched), SaleAmount) == TotalWhere(sales, matched, false)
    decreases |sales|
  {
    if sales != [] {
      var head := Leftover(sales[0], matched);
      SumOfAppend(head, UnmatchedSales(sales[1..], matched), SaleAmount);
      if sales[0].id !in matched {
        assert SumOf(head, SaleAmount) == sales[0].amount;
      }
      LeftoverTotal(sales[1..], matched);
    }
  }

  /** The taken and the untaken amounts together are all the amounts. */
  lemma {:induction false} SplitTotal(sales: seq<SaleRecord>, matched: set<string>)
    ensures TotalWhere(sales, matched, true) + TotalWhere(sales, matched, false) == SalesTotal(sales)
    decreases |sales|
  {
    if sales != [] {
      SplitTotal(sales[1..], matched);
    }
  }
}
