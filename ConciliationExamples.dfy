/**
 * Worked cases of `consolidateRecords` on one patient's day (any calendar
 * date a `Date` can hold from midnight to midnight): the two pairing
 * outcomes, the three-hour boundary, the one-sided records and the
 * scan-order tie-break.
 */
module ConciliationExamples {
  import opened Wrappers
  import opened Calendar
  import opened DateUtils
  import opened Conciliation
  import opened Stats

  /** A calendar date whose every moment is a valid `Date`. */
  datatype Day = Day(year: int, month: int, day: int)
  {
    predicate Whole() {
      && 1 <= month <= 12 && 1 <= day <= DaysInMonth(year, month)
      && -MaxTimeValue <= DayNumber(year, month, day) * MsPerDay
      && (DayNumber(year, month, day) + 1) * MsPerDay <= MaxTimeValue
    }
  }

  /** `hour:minute` local time on `d`. */
  function At(d: Day, hour: int, minute: int): JsDate
    requires d.Whole() && 0 <= hour < 24 && 0 <= minute < 60
  {
    Some(DateTime(d.year, d.month, d.day, hour, minute, 0, 0))
  }

  /** An attention at 09:30 and a sale at 09:45, same patient, same day: one perfect match 15 minutes apart. */
  lemma ScenarioPerfectMatch(d: Day, a: AttentionRecord, s: SaleRecord)
    requires d.Whole() && a.patientId == s.patientId
    requires a.startDate == At(d, 9, 30) && s.date == At(d, 9, 45)
    ensures Unsorted([a], [s]) == [PairRecord(a, s)]
    ensures PairRecord(a, s).timeDifferenceMinutes == Some(15)
    ensures PairRecord(a, s).conciliationStatus == PerfectMatch
  {
    SameDayPair(d, a, s, 9, 30, 9, 45);
    FifteenMinutesApart(d, a, s);
  }

  /** An attention at 09:00 and a sale at 14:00, same patient, same day: a likely match 300 minutes apart. */
  lemma ScenarioLikelyMatch(d: Day, a: AttentionRecord, s: SaleRecord)
    requires d.Whole() && a.patientId == s.patientId
    requires a.startDate == At(d, 9, 0) && s.date == At(d, 14, 0)
    ensures Unsorted([a], [s]) == [PairRecord(a, s)]
    ensures PairRecord(a, s).timeDifferenceMinutes == Some(300)
    ensures PairRecord(a, s).conciliationStatus == LikelyMatch
  {
    SameDayPair(d, a, s, 9, 0, 14, 0);
    FiveHoursApart(d, a, s);
  }

  /** 09:30 and 09:45: 15 minutes, a perfect match. */
  lemma FifteenMinutesApart(d: Day, a: AttentionRecord, s: SaleRecord)
    requires d.Whole() && a.startDate == At(d, 9, 30) && s.date == At(d, 9, 45)
    ensures PairRecord(a, s).timeDifferenceMinutes == Some(15)
    ensures PairRecord(a, s).conciliationStatus == PerfectMatch
  {
    PairAt(d, a, s, 9, 30, 9, 45, 15);
  }

  /** 09:00 and 14:00: 300 minutes, a likely match. */
  lemma FiveHoursApart(d: Day, a: AttentionRecord, s: SaleRecord)
    requires d.Whole() && a.startDate == At(d, 9, 0) && s.date == At(d, 14, 0)
    ensures PairRecord(a, s).timeDifferenceMinutes == Some(300)
    ensures PairRecord(a, s).conciliationStatus == LikelyMatch
  {
    PairAt(d, a, s, 9, 0, 14, 0, 300);
  }

  /** Exactly three hours apart is still a perfect match. */
  lemma ThreeHoursApart(d: Day, a: AttentionRecord, s: SaleRecord)
    requires d.Whole() && a.startDate == At(d, 9, 0) && s.date == At(d, 12, 0)
    ensures PairRecord(a, s).timeDifferenceMinutes == Some(180)
    ensures PairRecord(a, s).conciliationStatus == PerfectMatch
  {
    PairAt(d, a, s, 9, 0, 12, 0, 180);
  }

  /** One minute past three hours is a likely match. */
  lemma PastThreeHoursApart(d: Day, a: AttentionRecord, s: SaleRecord)
    requires d.Whole() && a.startDate == At(d, 9, 0) && s.date == At(d, 12, 1)
    ensures PairRecord(a, s).timeDifferenceMinutes == Some(181)
    ensures PairRecord(a, s).conciliationStatus == LikelyMatch
  {
    PairAt(d, a, s, 9, 0, 12, 1, 181);
  }

  /** An attention and a sale of two different patients: an attention-only record, then a sale-only record. */
  lemma ScenarioOneSided(a: AttentionRecord, s: SaleRecord)
    requires a.patientId != s.patientId
    ensures Unsorted([a], [s]) == [AttentionOnlyRecord(a), SaleOnlyRecord(s)]
    ensures AttentionOnlyRecord(a).conciliationStatus == AttentionOnly && AttentionOnlyRecord(a).sale.None?
    ensures SaleOnlyRecord(s).conciliationStatus == SaleOnly && SaleOnlyRecord(s).attention.None?
  {
    SingleSaleLeft(a, s);
  }

  /** One attention and one sale: the sale's amount is the whole sales total, whether it was paired or not. */
  lemma SingleSaleTotal(a: AttentionRecord, s: SaleRecord)
    ensures CalculateStats(Unsorted([a], [s])).totalSalesAmount == s.amount
  {
    if Eligible(a, s, {}) {
      SingleSaleTaken(a, s);
      OnePairStats(PairRecord(a, s));
    } else {
      SingleSaleLeft(a, s);
      SaleAfterAttentionStats(AttentionOnlyRecord(a), SaleOnlyRecord(s));
    }
  }

  /**
   * Two attentions of one patient (09:00, 10:00) and two of their sales
   * listed 10:05 then 09:05: the first attention takes the first sale
   * listed, 65 minutes away, not the one 5 minutes away that pairing by
   * closeness would give it.
   */
  lemma ScenarioScanOrder(d: Day, a1: AttentionRecord, a2: AttentionRecord, s1: SaleRecord, s2: SaleRecord)
    requires d.Whole() && s1.id != s2.id
    requires a1.patientId == a2.patientId == s1.patientId == s2.patientId
    requires a1.startDate == At(d, 9, 0) && a2.startDate == At(d, 10, 0)
    requires s1.date == At(d, 10, 5) && s2.date == At(d, 9, 5)
    ensures var records := Unsorted([a1, a2], [s1, s2]);
      && records == [PairRecord(a1, s1), PairRecord(a2, s2)]
      && records[0].timeDifferenceMinutes == Some(65)
      && records[1].timeDifferenceMinutes == Some(55)
  {
    ScanOrderPairs(d, a1, a2, s1, s2);
    SixtyFiveMinutesApart(d, a1, s1);
    FiftyFiveMinutesApart(d, a2, s2);
  }

  /** The pairs the scan-order case ends with, in the attentions' order. */
  lemma ScanOrderPairs(d: Day, a1: AttentionRecord, a2: AttentionRecord, s1: SaleRecord, s2: SaleRecord)
    requires d.Whole() && s1.id != s2.id
    requires a1.patientId == a2.patientId == s1.patientId == s2.patientId
    requires a1.startDate == At(d, 9, 0) && a2.startDate == At(d, 10, 0)
    requires s1.date == At(d, 10, 5) && s2.date == At(d, 9, 5)
    ensures Unsorted([a1, a2], [s1, s2]) == [PairRecord(a1, s1), PairRecord(a2, s2)]
  {
    EligibleAt(d, a1, s1, {}, 9, 0, 10, 5);
    EligibleAt(d, a2, s2, {s1.id}, 10, 0, 9, 5);
    FirstTakesFirst(a1, a2, s1, s2);
  }

  /** 09:00 and 10:05: 65 minutes. */
  lemma SixtyFiveMinutesApart(d: Day, a: AttentionRecord, s: SaleRecord)
    requires d.Whole() && a.startDate == At(d, 9, 0) && s.date == At(d, 10, 5)
    ensures PairRecord(a, s).timeDifferenceMinutes == Some(65)
  {
    PairAt(d, a, s, 9, 0, 10, 5, 65);
  }

  /** 10:00 and 09:05: 55 minutes, whichever comes first. */
  lemma FiftyFiveMinutesApart(d: Day, a: AttentionRecord, s: SaleRecord)
    requires d.Whole() && a.startDate == At(d, 10, 0) && s.date == At(d, 9, 5)
    ensures PairRecord(a, s).timeDifferenceMinutes == Some(55)
  {
    PairAt(d, a, s, 10, 0, 9, 5, 55);
  }


  /** One attention against some sales: its record, then a sale-only record for each sale it left. */
  lemma OneAttention(a: AttentionRecord, sales: seq<SaleRecord>)
    ensures var e := Emit(a, sales, {});
      Unsorted([a], sales) == [e.0] + UnmatchedSales(sales, e.1)
  {
    var e := Emit(a, sales, {});
    var next := Step(MatchState([], {}), a, sales);
    assert next == MatchState([e.0], e.1);
    assert MatchFrom([a], sales, MatchState([], {})) == MatchFrom([], sales, next);
  }

  /** An attention that takes the only sale: one pair record. */
  lemma SingleSaleTaken(a: AttentionRecord, s: SaleRecord)
    requires Eligible(a, s, {})
    ensures Unsorted([a], [s]) == [PairRecord(a, s)]
  {
    OneAttention(a, [s]);
    assert [s][1..] == [];
    assert UnmatchedSales([s], {s.id}) == [];
  }

  /** An attention that cannot take the only sale: an attention-only record, then a sale-only one. */
  lemma SingleSaleLeft(a: AttentionRecord, s: SaleRecord)
    requires !Eligible(a, s, {})
    ensures Unsorted([a], [s]) == [AttentionOnlyRecord(a), SaleOnlyRecord(s)]
  {
    OneAttention(a, [s]);
    assert [s][1..] == [];
    assert FirstEligible(a, [s], {}) == None;
    assert UnmatchedSales([s], {}) == [SaleOnlyRecord(s)] + [];
  }

  /** Two attentions against some sales: their records in order, then the sales neither took. */
  lemma TwoAttentions(a1: AttentionRecord, a2: AttentionRecord, sales: seq<SaleRecord>)
    ensures var e1 := Emit(a1, sales, {});
      var e2 := Emit(a2, sales, e1.1);
      Unsorted([a1, a2], sales) == [e1.0, e2.0] + UnmatchedSales(sales, e2.1)
  {
    var e1 := Emit(a1, sales, {});
    var e2 := Emit(a2, sales, e1.1);
    var first := Step(MatchState([], {}), a1, sales);
    assert first == MatchState([e1.0], e1.1);
    var second := Step(first, a2, sales);
    assert second.records == [e1.0, e2.0];
    assert MatchFrom([a1, a2], sales, MatchState([], {})) == MatchFrom([a2], sales, first);
    assert [a1, a2][1..] == [a2];
    assert MatchFrom([a2], sales, first) == MatchFrom([], sales, second);
  }

  /** Each attention takes the first sale still free: the first sale goes to the first attention. */
  lemma FirstTakesFirst(a1: AttentionRecord, a2: AttentionRecord, s1: SaleRecord, s2: SaleRecord)
    requires Eligible(a1, s1, {}) && Eligible(a2, s2, {s1.id})
    ensures Unsorted([a1, a2], [s1, s2]) == [PairRecord(a1, s1), PairRecord(a2, s2)]
  {
    FirstSaleTaken(a1, s1, s2);
    SecondSaleTaken(a2, s1, s2);
    BothSalesTaken(s1, s2);
    TwoAttentions(a1, a2, [s1, s2]);
  }

  /** The first attention takes the first sale when it is eligible. */
  lemma FirstSaleTaken(a: AttentionRecord, s1: SaleRecord, s2: SaleRecord)
    requires Eligible(a, s1, {})
    ensures Emit(a, [s1, s2], {}).0 == PairRecord(a, s1)
    ensures Emit(a, [s1, s2], {}).1 == {s1.id}
  {
    assert FirstEligible(a, [s1, s2], {}) == Some(0);
    EmitTakes(a, [s1, s2], {}, 0);
  }

  /** With the first sale taken, the second attention takes the second one when it is eligible. */
  lemma SecondSaleTaken(a: AttentionRecord, s1: SaleRecord, s2: SaleRecord)
    requires Eligible(a, s2, {s1.id})
    ensures Emit(a, [s1, s2], {s1.id}).0 == PairRecord(a, s2)
    ensures Emit(a, [s1, s2], {s1.id}).1 == {s1.id, s2.id}
  {
    var sales := [s1, s2];
    assert FirstEligible(a, sales[1..], {s1.id}) == Some(0);
    EmitTakes(a, sales, {s1.id}, 1);
  }

  /** With both sales taken, the second loop pushes nothing. */
  lemma BothSalesTaken(s1: SaleRecord, s2: SaleRecord)
    ensures UnmatchedSales([s1, s2], {s1.id, s2.id}) == []
  {
    assert [s1, s2][1..][1..] == [];
  }

  /** An attention whose first eligible sale is sale `k` pairs with it and marks it matched. */
  lemma EmitTakes(a: AttentionRecord, sales: seq<SaleRecord>, matched: set<string>, k: nat)
    requires FirstEligible(a, sales, matched) == Some(k)
    ensures k < |sales|
    ensures Emit(a, sales, matched).0 == PairRecord(a, sales[k])
    ensures Emit(a, sales, matched).1 == matched + {sales[k].id}
  {
  }

  /** A pair whose two dates are clock readings of the same day: their minutes apart, and the status that gives. */
  lemma PairAt(d: Day, a: AttentionRecord, s: SaleRecord, h1: int, m1: int, h2: int, m2: int, minutes: int)
    requires d.Whole() && 0 <= h1 < 24 && 0 <= m1 < 60 && 0 <= h2 < 24 && 0 <= m2 < 60
    requires a.startDate == At(d, h1, m1) && s.date == At(d, h2, m2)
    requires var gap := (h2 * 60 + m2) - (h1 * 60 + m1);
      minutes == if gap < 0 then -gap else gap
    ensures PairRecord(a, s).timeDifferenceMinutes == Some(minutes)
    ensures PairRecord(a, s).conciliationStatus == PerfectMatch <==> minutes <= 180
    ensures PairRecord(a, s).conciliationStatus == LikelyMatch <==> minutes > 180
  {
    PairedMinutes(d, h1, m1, h2, m2);
  }

  /** An attention and a sale of its patient timed on its day: one pair record. */
  lemma SameDayPair(d: Day, a: AttentionRecord, s: SaleRecord, h1: int, m1: int, h2: int, m2: int)
    requires d.Whole() && 0 <= h1 < 24 && 0 <= m1 < 60 && 0 <= h2 < 24 && 0 <= m2 < 60
    requires a.patientId == s.patientId
    requires a.startDate == At(d, h1, m1) && s.date == At(d, h2, m2)
    ensures Unsorted([a], [s]) == [PairRecord(a, s)]
  {
    EligibleAt(d, a, s, {}, h1, m1, h2, m2);
    SingleSaleTaken(a, s);
  }

  /** A sale not yet matched, of the attention's patient and timed on the attention's day, is eligible for it. */
  lemma EligibleAt(d: Day, a: AttentionRecord, s: SaleRecord, matched: set<string>, h1: int, m1: int, h2: int, m2: int)
    requires d.Whole() && 0 <= h1 < 24 && 0 <= m1 < 60 && 0 <= h2 < 24 && 0 <= m2 < 60
    requires a.patientId == s.patientId && s.id !in matched
    requires a.startDate == At(d, h1, m1) && s.date == At(d, h2, m2)
    ensures Eligible(a, s, matched)
  {
  }

  /** Two times of the same day lie as many whole minutes apart as their clock readings say. */
  lemma PairedMinutes(d: Day, h1: int, m1: int, h2: int, m2: int)
    requires d.Whole() && 0 <= h1 < 24 && 0 <= m1 < 60 && 0 <= h2 < 24 && 0 <= m2 < 60
    ensures var gap := (h2 * 60 + m2) - (h1 * 60 + m1);
      CalculateTimeDifference(At(d, h1, m1), At(d, h2, m2)) == if gap < 0 then -gap else gap
  {
    var t1, t2 := TimeValue(At(d, h1, m1).value), TimeValue(At(d, h2, m2).value);
    assert t2 - t1 == ((h2 * 60 + m2) - (h1 * 60 + m1)) * MsPerMinute;
  }

  /** The statistics of a record without a sale followed by one with a sale: that sale's amount is the total. */
  lemma SaleAfterAttentionStats(first: ConsolidatedRecord, second: ConsolidatedRecord)
    requires first.sale.None? && second.sale.Some?
    ensures CalculateStats([first, second]).totalSalesAmount == second.sale.value.amount
  {
    SumOfAppend([first], [second], SaleAmount);
    assert SumOf([first], SaleAmount) == 0.0 + SumOf([], SaleAmount);
    assert SumOf([second], SaleAmount) == SaleAmount(second) + SumOf([], SaleAmount);
    assert [first] + [second] == [first, second];
  }

  /** The statistics of a single pair record: its sale's amount is the total. */
  lemma OnePairStats(r: ConsolidatedRecord)
    requires r.sale.Some?
    ensures CalculateStats([r]).totalSalesAmount == r.sale.value.amount
  {
    assert SumOf([r], SaleAmount) == SaleAmount(r) + SumOf([], SaleAmount);
  }
}
