/**
 * The encounter/sale reconciliation of `src/services/procedureDetailService.server.ts`:
 * every attention (clinical encounter) is paired with the first sale of the same
 * patient on the same day that no earlier attention took; the leftover sales
 * follow on their own, and the whole list is sorted by date, newest first.
 */
module Conciliation {
  import opened Wrappers
  import opened Calendar
  import opened DateUtils
  import opened PatientUtils

  /** A sale amount: the absolute value of the ledger entry. */
  type Amount = r: real | r >= 0.0

  datatype AttentionRecord = AttentionRecord(
    id: string, patientId: string, startDate: JsDate,
    procedureCode: string, procedureDescription: string,
    reason: string, note: string, patientAge: Age)

  datatype SaleRecord = SaleRecord(
    id: string, patientId: string, date: JsDate,
    procedureCode: string, procedureDescription: string,
    amount: Amount, patientAge: Age)

  datatype ConciliationStatus = PerfectMatch | LikelyMatch | AttentionOnly | SaleOnly

  datatype AttentionSummary = AttentionSummary(
    id: string, time: string, procedureCode: string, procedureDescription: string,
    reason: string, note: string)

  datatype SaleSummary = SaleSummary(
    id: string, time: string, procedureCode: string, procedureDescription: string,
    amount: Amount)

  datatype ConsolidatedRecord = ConsolidatedRecord(
    id: string, patientId: string, patientAge: Age, date: JsDate,
    attention: Option<AttentionSummary>, sale: Option<SaleSummary>,
    conciliationStatus: ConciliationStatus, timeDifferenceMinutes: Option<int>)

  /** Pairs at most three hours apart are perfect matches. */
  const PerfectMatchThresholdMinutes: int := 3 * 60

  /** `determineConciliationStatus`. */
  function DetermineConciliationStatus(hasAttention: bool, hasSale: bool, timeDiffMinutes: Option<int>)
    : (status: ConciliationStatus)
    ensures status == SaleOnly <==> !hasAttention
    ensures status == AttentionOnly <==> hasAttention && !hasSale
    ensures status == PerfectMatch <==>
      hasAttention && hasSale && timeDiffMinutes.Some? && timeDiffMinutes.value <= PerfectMatchThresholdMinutes
  {
    if !hasAttention then SaleOnly
    else if !hasSale then AttentionOnly
    else if timeDiffMinutes.None? then LikelyMatch
    else if timeDiffMinutes.value <= PerfectMatchThresholdMinutes then PerfectMatch
    else LikelyMatch
  }

  // ------------------------------------------------------- emitted records

  /** The `attention` object of a record: the attention's id, its time of day, codes, reason and note. */
  function SummarizeAttention(attention: AttentionRecord): AttentionSummary {
    AttentionSummary(attention.id, FormatTime(attention.startDate), attention.procedureCode,
                     attention.procedureDescription, attention.reason, attention.note)
  }

  /** The `sale` object of a record: the sale's id, its time of day, codes and amount. */
  function SummarizeSale(sale: SaleRecord): SaleSummary {
    SaleSummary(sale.id, FormatTime(sale.date), sale.procedureCode, sale.procedureDescription, sale.amount)
  }

  /**
   * The record pushed for an attention and the sale it matched: both sides
   * under the id `attentionId_saleId`, the attention's patient (anonymized),
   * age and date, the sale's amount, and the minutes between the two dates,
   * which decide between the two match statuses and are below one day for a
   * sale on the attention's day.
   */
  function PairRecord(attention: AttentionRecord, sale: SaleRecord): (r: ConsolidatedRecord)
    ensures r.id == attention.id + "_" + sale.id
    ensures r.patientId == AnonymizePatientId(attention.patientId) && r.patientAge == attention.patientAge
    ensures r.date == attention.startDate
    ensures r.attention == Some(SummarizeAttention(attention)) && r.attention.value.id == attention.id
    ensures r.sale == Some(SummarizeSale(sale)) && r.sale.value.id == sale.id && r.sale.value.amount == sale.amount
    ensures r.timeDifferenceMinutes == Some(CalculateTimeDifference(attention.startDate, sale.date))
    ensures r.timeDifferenceMinutes.value >= 0
    ensures r.conciliationStatus == DetermineConciliationStatus(true, true, r.timeDifferenceMinutes)
    ensures r.conciliationStatus in {PerfectMatch, LikelyMatch}
    ensures r.conciliationStatus == PerfectMatch <==> r.timeDifferenceMinutes.value <= PerfectMatchThresholdMinutes
    ensures IsSameDay(sale.date, attention.startDate) ==> r.timeDifferenceMinutes.value < MinutesPerDay
    ensures AnonymizePatientId(r.patientId) == r.patientId
  {
    var timeDiff := CalculateTimeDifference(attention.startDate, sale.date);
    AnonymizeIdempotent(attention.patientId);
    assert IsSameDay(sale.date, attention.startDate) ==> timeDiff < MinutesPerDay by {
      if IsSameDay(sale.date, attention.startDate) {
        SameDayWithinADay(attention.startDate, sale.date);
      }
    }
    ConsolidatedRecord(
      attention.id + "_" + sale.id, AnonymizePatientId(attention.patientId), attention.patientAge,
      attention.startDate, Some(SummarizeAttention(attention)), Some(SummarizeSale(sale)),
      DetermineConciliationStatus(true, true, Some(timeDiff)), Some(timeDiff))
  }

  /**
   * The record pushed for an attention no sale matched: the attention alone
   * under its own id, with its patient (anonymized), age and date, no time
   * difference and the status the classifier gives an attention without a sale.
   */
  function AttentionOnlyRecord(attention: AttentionRecord): (r: ConsolidatedRecord)
    ensures r.id == attention.id
    ensures r.patientId == AnonymizePatientId(attention.patientId) && r.patientAge == attention.patientAge
    ensures r.attention == Some(SummarizeAttention(attention)) && r.attention.value.id == attention.id
    ensures r.sale.None? && r.timeDifferenceMinutes.None?
    ensures r.date == attention.startDate
    ensures r.conciliationStatus == DetermineConciliationStatus(true, false, None)
    ensures AnonymizePatientId(r.patientId) == r.patientId
  {
    AnonymizeIdempotent(attention.patientId);
    ConsolidatedRecord(
      attention.id, AnonymizePatientId(attention.patientId), attention.patientAge,
      attention.startDate, Some(SummarizeAttention(attention)), None, AttentionOnly, None)
  }

  /**
   * The record pushed for a sale no attention took: the sale alone under its
   * own id, with its patient (anonymized), age, date and amount, no time
   * difference and the status the classifier gives a record without an
   * attention.
   */
  function SaleOnlyRecord(sale: SaleRecord): (r: ConsolidatedRecord)
    ensures r.id == sale.id
    ensures r.patientId == AnonymizePatientId(sale.patientId) && r.patientAge == sale.patientAge
    ensures r.sale == Some(SummarizeSale(sale)) && r.sale.value.id == sale.id && r.sale.value.amount == sale.amount
    ensures r.attention.None? && r.timeDifferenceMinutes.None?
    ensures r.date == sale.date
    ensures r.conciliationStatus == DetermineConciliationStatus(false, true, None)
    ensures AnonymizePatientId(r.patientId) == r.patientId
  {
    AnonymizeIdempotent(sale.patientId);
    ConsolidatedRecord(
      sale.id, AnonymizePatientId(sale.patientId), sale.patientAge,
      sale.date, None, Some(SummarizeSale(sale)), SaleOnly, None)
  }

  // ------------------------------------------------ the matching, specified

  /** A sale the scan for `attention` accepts: not yet matched, same patient, same day. */
  predicate Eligible(attention: AttentionRecord, sale: SaleRecord, matched: set<string>) {
    sale.id !in matched && sale.patientId == attention.patientId && IsSameDay(sale.date, attention.startDate)
  }

  /** The position of the first eligible sale, in the sales' own order. */
  function FirstEligible(attention: AttentionRecord, sales: seq<SaleRecord>, matched: set<string>)
    : (k: Option<nat>)
    ensures k.Some? ==>
      && k.value < |sales| && Eligible(attention, sales[k.value], matched)
      && forall j :: 0 <= j < k.value ==> !Eligible(attention, sales[j], matched)
    ensures k.None? ==> forall j :: 0 <= j < |sales| ==> !Eligible(attention, sales[j], matched)
    decreases |sales|
  {
    if sales == [] then None
    else if Eligible(attention, sales[0], matched) then Some(0)
    else match FirstEligible(attention, sales[1..], matched)
      case None => None
      case Some(k) => Some(k + 1)
  }

  /** What one attention contributes: its record, and the matched set afterwards. */
  function Emit(attention: AttentionRecord, sales: seq<SaleRecord>, matched: set<string>)
    : (e: (ConsolidatedRecord, set<string>))
    ensures e.0.attention.Some? && matched <= e.1
  {
    match FirstEligible(attention, sales, matched)
    case Some(k) => (PairRecord(attention, sales[k]), matched + {sales[k].id})
    case None => (AttentionOnlyRecord(attention), matched)
  }

  datatype MatchState = MatchState(records: seq<ConsolidatedRecord>, matched: set<string>)

  /** One turn of the first loop: push the attention's record and note the sale it took. */
  function Step(state: MatchState, attention: AttentionRecord, sales: seq<SaleRecord>): (next: MatchState)
    ensures |next.records| == |state.records| + 1
    ensures forall i :: 0 <= i < |state.records| ==> next.records[i] == state.records[i]
    ensures next.records[|state.records|].attention.Some? && state.matched <= next.matched
  {
    var (record, matched) := Emit(attention, sales, state.matched);
    MatchState(state.records + [record], matched)
  }

  /**
   * The first loop run over `attentions`, in their order, from `state`: it
   * keeps the records already pushed, pushes one record with an attention per
   * attention, and only adds to the matched set.
   */
  function MatchFrom(attentions: seq<AttentionRecord>, sales: seq<SaleRecord>, state: MatchState): (r: MatchState)
    ensures |r.records| == |state.records| + |attentions|
    ensures forall i :: 0 <= i < |state.records| ==> r.records[i] == state.records[i]
    ensures forall i :: |state.records| <= i < |r.records| ==> r.records[i].attention.Some?
    ensures state.matched <= r.matched
    decreases |attentions|
  {
    if attentions == [] then state
    else
      var next := Step(state, attentions[0], sales);
      var r := MatchFrom(attentions[1..], sales, next);
      r
  }

  /**
   * The first loop: each attention against the sales not matched before it,
   * one record per attention, each record carrying its attention.
   */
  function MatchAttentions(attentions: seq<AttentionRecord>, sales: seq<SaleRecord>): (r: MatchState)
    ensures |r.records| == |attentions|
    ensures forall i :: 0 <= i < |r.records| ==> r.records[i].attention.Some?
  {
    MatchFrom(attentions, sales, MatchState([], {}))
  }

  /** The record the second loop pushes for one sale: one when its id was not matched, else none. */
  function Leftover(sale: SaleRecord, matched: set<string>): seq<ConsolidatedRecord> {
    if sale.id in matched then [] else [SaleOnlyRecord(sale)]
  }

  /**
   * The second loop: a sale-only record for each sale whose id was not
   * matched, in the sales' order; at most one per sale, none with an attention.
   */
  function UnmatchedSales(sales: seq<SaleRecord>, matched: set<string>): (r: seq<ConsolidatedRecord>)
    ensures |r| <= |sales|
    ensures forall i :: 0 <= i < |r| ==> r[i].attention.None? && r[i].conciliationStatus == SaleOnly
    decreases |sales|
  {
    if sales == [] then []
    else Leftover(sales[0], matched) + UnmatchedSales(sales[1..], matched)
  }

  /** The second loop from sale `j` on: sale `j`'s record, then those of the sales after it. */
  lemma UnmatchedSalesFrom(sales: seq<SaleRecord>, matched: set<string>, j: nat)
    requires j < |sales|
    ensures UnmatchedSales(sales[j..], matched)
         == Leftover(sales[j], matched) + UnmatchedSales(sales[j + 1..], matched)
  {
    assert sales[j..][1..] == sales[j + 1..];
  }

  lemma AppendRegroup(a: seq<ConsolidatedRecord>, b: seq<ConsolidatedRecord>, c: seq<ConsolidatedRecord>)
    ensures a + b + c == a + (b + c)
  {
  }

  /** The records in the order they are pushed, before the final sort. */
  function Unsorted(attentions: seq<AttentionRecord>, sales: seq<SaleRecord>): seq<ConsolidatedRecord> {
    var state := MatchAttentions(attentions, sales);
    state.records + UnmatchedSales(sales, state.matched)
  }

  // --------------------------------------------------------------- ordering

  /** `b.date.getTime() - a.date.getTime()`, where `Array.prototype.sort` reads a `NaN` result as 0. */
  function CompareByDateDescending(a: ConsolidatedRecord, b: ConsolidatedRecord): (c: int)
    ensures a.date.None? || b.date.None? ==> c == 0
    ensures a.date.Some? && b.date.Some? ==>
      && (c > 0 <==> DateKey(a) < DateKey(b))
      && (c == 0 <==> DateKey(a) == DateKey(b))
  {
    if a.date.Some? && b.date.Some? then TimeValue(b.date.value) - TimeValue(a.date.value) else 0
  }

  function DateKey(record: ConsolidatedRecord): int {
    if record.date.Some? then TimeValue(record.date.value) else 0
  }

  predicate AllDatesValid(records: seq<ConsolidatedRecord>) {
    forall i :: 0 <= i < |records| ==> records[i].date.Some?
  }

  predicate SortedByDateDescending(records: seq<ConsolidatedRecord>) {
    forall i, j :: 0 <= i < j < |records| ==> DateKey(records[i]) >= DateKey(records[j])
  }

  // ---------------------------------------------------------- the program

  /** `sales.find(...)` in `consolidateRecords`: a linear scan for the first eligible sale. */
  method FindMatchingSale(attention: AttentionRecord, sales: seq<SaleRecord>, matchedSaleIds: set<string>)
    returns (k: Option<nat>)
    ensures k.Some? ==>
      && k.value < |sales| && Eligible(attention, sales[k.value], matchedSaleIds)
      && forall j :: 0 <= j < k.value ==> !Eligible(attention, sales[j], matchedSaleIds)
    ensures k.None? ==> forall j :: 0 <= j < |sales| ==> !Eligible(attention, sales[j], matchedSaleIds)
    ensures k == FirstEligible(attention, sales, matchedSaleIds)
  {
    var i := 0;
    while i < |sales|
      invariant 0 <= i <= |sales|
      invariant forall j :: 0 <= j < i ==> !Eligible(attention, sales[j], matchedSaleIds)
    {
      var sale := sales[i];
      if sale.id !in matchedSaleIds && sale.patientId == attention.patientId
         && IsSameDay(sale.date, attention.startDate) {
        return Some(i);
      }
      i := i + 1;
    }
    return None;
  }

  /** The first loop of `consolidateRecords`: one record per attention, and the sale ids taken. */
  method PairAttentions(attentions: seq<AttentionRecord>, sales: seq<SaleRecord>)
    returns (records: seq<ConsolidatedRecord>, matchedSaleIds: set<string>)
    ensures MatchState(records, matchedSaleIds) == MatchAttentions(attentions, sales)
  {
    records, matchedSaleIds := [], {};
    for i := 0 to |attentions|
      invariant MatchFrom(attentions[i..], sales, MatchState(records, matchedSaleIds)) == MatchAttentions(attentions, sales)
    {
      var attention := attentions[i];
      ghost var next := Step(MatchState(records, matchedSaleIds), attention, sales);
      assert attentions[i..][1..] == attentions[i + 1..];
      var k := FindMatchingSale(attention, sales, matchedSaleIds);
      if k.Some? {
        var matchingSale := sales[k.value];
        matchedSaleIds := matchedSaleIds + {matchingSale.id};
        records := records + [PairRecord(attention, matchingSale)];
      } else {
        records := records + [AttentionOnlyRecord(attention)];
      }
      assert MatchState(records, matchedSaleIds) == next;
    }
  }

  /** The second loop of `consolidateRecords`: a sale-only record for each sale not taken. */
  method PushUnmatchedSales(records: seq<ConsolidatedRecord>, sales: seq<SaleRecord>, matchedSaleIds: set<string>)
    returns (all: seq<ConsolidatedRecord>)
    ensures all == records + UnmatchedSales(sales, matchedSaleIds)
  {
    all := records;
    for j := 0 to |sales|
      invariant all + UnmatchedSales(sales[j..], matchedSaleIds) == records + UnmatchedSales(sales, matchedSaleIds)
    {
      var sale := sales[j];
      ghost var before := all;
      if sale.id !in matchedSaleIds {
        all := all + [SaleOnlyRecord(sale)];
      }
      PushStep(records, sales, matchedSaleIds, j, before, all);
    }
    assert sales[|sales|..] == [];
  }

  /** One turn of the second loop keeps the records pushed so far plus those still to come. */
  lemma PushStep(records: seq<ConsolidatedRecord>, sales: seq<SaleRecord>, matched: set<string>, j: nat,
                 before: seq<ConsolidatedRecord>, after: seq<ConsolidatedRecord>)
    requires j < |sales|
    requires before + UnmatchedSales(sales[j..], matched) == records + UnmatchedSales(sales, matched)
    requires after == before + Leftover(sales[j], matched)
    ensures after + UnmatchedSales(sales[j + 1..], matched) == records + UnmatchedSales(sales, matched)
  {
    UnmatchedSalesFrom(sales, matched, j);
    AppendRegroup(before, Leftover(sales[j], matched), UnmatchedSales(sales[j + 1..], matched));
  }

  /**
   * `consolidateRecords`: the records pushed by the two loops, sorted in place
   * newest first (the order is only promised when every date is valid).
   */
  method ConsolidateRecords(attentions: seq<AttentionRecord>, sales: seq<SaleRecord>)
    returns (consolidated: seq<ConsolidatedRecord>)
    ensures multiset(consolidated) == multiset(Unsorted(attentions, sales))
    ensures AllDatesValid(consolidated) ==> SortedByDateDescending(consolidated)
  {
    var paired, matchedSaleIds := PairAttentions(attentions, sales);
    var records := PushUnmatchedSales(paired, sales, matchedSaleIds);
    var a := new ConsolidatedRecord[|records|](i requires 0 <= i < |records| => records[i]);
    assert a[..] == records;
    SortByDateDescending(a);
    consolidated := a[..];
    AllDatesValidPermutation(consolidated, records);
  }

  /** Each of the first `n` records is not older than its successor. */
  ghost predicate ChainedPrefix(s: seq<ConsolidatedRecord>, n: int)
    requires n <= |s|
  {
    forall k, l :: 0 <= k < n && l == k + 1 && l < n ==> DateKey(s[k]) >= DateKey(s[l])
  }

  lemma {:induction false} ChainedApart(s: seq<ConsolidatedRecord>, p: int, q: int)
    requires ChainedPrefix(s, |s|)
    requires 0 <= p <= q < |s|
    ensures DateKey(s[p]) >= DateKey(s[q])
    decreases q - p
  {
    if p < q {
      ChainedApart(s, p + 1, q);
      assert DateKey(s[p]) >= DateKey(s[p + 1]);
    }
  }

  /** Order between neighbours is order between any two records. */
  lemma ChainedIsSorted(s: seq<ConsolidatedRecord>)
    requires ChainedPrefix(s, |s|)
    ensures SortedByDateDescending(s)
  {
    forall p, q | 0 <= p < q < |s| ensures DateKey(s[p]) >= DateKey(s[q]) {
      ChainedApart(s, p, q);
    }
  }

  /** Validity of every date depends only on which records there are. */
  lemma AllDatesValidPermutation(s: seq<ConsolidatedRecord>, t: seq<ConsolidatedRecord>)
    requires multiset(s) == multiset(t)
    ensures AllDatesValid(s) <==> AllDatesValid(t)
  {
    if AllDatesValid(s) {
      forall i | 0 <= i < |t| ensures t[i].date.Some? {
        assert t[i] in multiset(s);
      }
    }
    if AllDatesValid(t) {
      forall i | 0 <= i < |s| ensures s[i].date.Some? {
        assert s[i] in multiset(t);
      }
    }
  }

  /**
   * `consolidated.sort((a, b) => b.date.getTime() - a.date.getTime())`, as an
   * in-place insertion sort driven by that comparator alone. The order is only
   * promised when every date is valid: with an invalid date the comparator
   * answers 0 and the result depends on the algorithm.
   */
  method SortByDateDescending(a: array<ConsolidatedRecord>)
    modifies a
    ensures multiset(a[..]) == old(multiset(a[..]))
    ensures AllDatesValid(old(a[..])) ==> SortedByDateDescending(a[..])
  {
    ghost var valid := AllDatesValid(a[..]);
    for i := 0 to a.Length
      invariant multiset(a[..]) == old(multiset(a[..]))
      invariant AllDatesValid(a[..]) == valid
      invariant valid ==> ChainedPrefix(a[..], i)
    {
      InsertBackward(a, i);
      AllDatesValidPermutation(a[..], old(a[..]));
    }
    if valid {
      ChainedIsSorted(a[..]);
    }
  }

  /**
   * The state of one pass of the insertion sort over `s[..i + 1]`, with the
   * moving record at `j`: neighbours away from it are in order, so are the two
   * records around it, and it is newer than the record after it.
   */
  ghost predicate Sinking(s: seq<ConsolidatedRecord>, i: int, j: int)
    requires 0 <= j <= i < |s|
  {
    && (forall k, l :: 0 <= k < i && l == k + 1 && l <= i && k != j && l != j ==> DateKey(s[k]) >= DateKey(s[l]))
    && (0 < j < i ==> DateKey(s[j - 1]) >= DateKey(s[j + 1]))
    && (j < i ==> DateKey(s[j]) > DateKey(s[j + 1]))
  }

  lemma SinkingStart(s: seq<ConsolidatedRecord>, i: int)
    requires 0 <= i < |s| && ChainedPrefix(s, i)
    ensures Sinking(s, i, i)
  {
  }

  /** Swapping the moving record with an older predecessor keeps the pass's state. */
  lemma SinkingStep(s: seq<ConsolidatedRecord>, i: int, j: int)
    requires 0 < j <= i < |s| && Sinking(s, i, j)
    requires DateKey(s[j]) > DateKey(s[j - 1])
    ensures Sinking(s[j - 1 := s[j]][j := s[j - 1]], i, j - 1)
  {
    var t := s[j - 1 := s[j]][j := s[j - 1]];
    forall k, l | 0 <= k < i && l == k + 1 && l <= i && k != j - 1 && l != j - 1
      ensures DateKey(t[k]) >= DateKey(t[l])
    {
      if k == j {
        assert t[k] == s[j - 1] && t[l] == s[j + 1];
      } else {
        assert t[k] == s[k] && t[l] == s[l];
      }
    }
    if 0 < j - 1 {
      assert t[j - 2] == s[j - 2] && t[j] == s[j - 1];
    }
  }

  /** Once the moving record is not newer than its predecessor, the pass is done. */
  lemma SinkingDone(s: seq<ConsolidatedRecord>, i: int, j: int)
    requires 0 <= j <= i < |s| && Sinking(s, i, j)
    requires j > 0 ==> DateKey(s[j - 1]) >= DateKey(s[j])
    ensures ChainedPrefix(s, i + 1)
  {
  }

  /** One pass: `a[i]` moves towards the front while the comparator puts its predecessor after it. */
  method InsertBackward(a: array<ConsolidatedRecord>, i: int)
    requires 0 <= i < a.Length
    requires AllDatesValid(a[..]) ==> ChainedPrefix(a[..], i)
    modifies a
    ensures multiset(a[..]) == old(multiset(a[..]))
    ensures AllDatesValid(old(a[..])) ==> AllDatesValid(a[..]) && ChainedPrefix(a[..], i + 1)
  {
    ghost var valid := AllDatesValid(a[..]);
    if valid {
      SinkingStart(a[..], i);
    }
    var j := i;
    while j > 0 && CompareByDateDescending(a[j - 1], a[j]) > 0
      invariant 0 <= j <= i
      invariant multiset(a[..]) == old(multiset(a[..]))
      invariant valid ==> AllDatesValid(a[..]) && Sinking(a[..], i, j)
    {
      ghost var before := a[..];
      if valid {
        assert before[j - 1].date.Some? && before[j].date.Some?;
        SinkingStep(before, i, j);
      }
      Swap(a, j - 1, j);
      j := j - 1;
    }
    if valid {
      if j > 0 {
        assert a[..][j - 1].date.Some? && a[..][j].date.Some?;
      }
      SinkingDone(a[..], i, j);
    }
  }

  method Swap(a: array<ConsolidatedRecord>, i: int, j: int)
    requires 0 <= i < a.Length && 0 <= j < a.Length
    modifies a
    ensures a[..] == old(a[..])[i := old(a[j])][j := old(a[i])]
    ensures multiset(a[..]) == old(multiset(a[..]))
    ensures AllDatesValid(old(a[..])) ==> AllDatesValid(a[..])
  {
    a[i], a[j] := a[j], a[i];
  }
}
