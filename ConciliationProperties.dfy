/**
 * What `consolidateRecords` promises about its output: every attention and
 * every sale is accounted for exactly once, no sale is paired twice, each
 * attention takes the first eligible sale left, and every record is shaped
 * consistently (two sides or one, a time difference exactly on pairs, a
 * status that agrees with it).
 */
module ConciliationProperties {
  import opened Wrappers
  import opened DateUtils
  import opened PatientUtils
  import opened Conciliation

  // ---------------------------------------------------------- id bookkeeping

  datatype Side = AttentionSide | SaleSide

  /** The id a record refers to on one side: one id, or none when that side is absent. */
  function SideRef(record: ConsolidatedRecord, side: Side): seq<string> {
    match side
    case AttentionSide => if record.attention.Some? then [record.attention.value.id] else []
    case SaleSide => if record.sale.Some? then [record.sale.value.id] else []
  }

  /** The ids a list of records refers to on one side, in order. */
  function SideRefs(records: seq<ConsolidatedRecord>, side: Side): seq<string>
    decreases |records|
  {
    if records == [] then []
    else SideRef(records[0], side) + SideRefs(records[1..], side)
  }

  function AttentionIds(attentions: seq<AttentionRecord>): (ids: seq<string>)
    ensures |ids| == |attentions| && forall i :: 0 <= i < |attentions| ==> ids[i] == attentions[i].id
  {
    seq(|attentions|, i requires 0 <= i < |attentions| => attentions[i].id)
  }

  function SaleIds(sales: seq<SaleRecord>): (ids: seq<string>)
    ensures |ids| == |sales| && forall j :: 0 <= j < |sales| ==> ids[j] == sales[j].id
  {
    seq(|sales|, j requires 0 <= j < |sales| => sales[j].id)
  }

  predicate Distinct(ids: seq<string>) {
    forall p, q :: 0 <= p < q < |ids| ==> ids[p] != ids[q]
  }

  /** The ids not in `removed`, in order. */
  function Without(ids: seq<string>, removed: set<string>): seq<string>
    decreases |ids|
  {
    if ids == [] then []
    else (if ids[0] in removed then [] else [ids[0]]) + Without(ids[1..], removed)
  }

  /** The ids in `kept`, in order. */
  function Within(ids: seq<string>, kept: set<string>): seq<string>
    decreases |ids|
  {
    if ids == [] then []
    else (if ids[0] in kept then [ids[0]] else []) + Within(ids[1..], kept)
  }

  // --------------------------------------------------------- sequence facts

  lemma {:induction false} SideRefsAppend(r1: seq<ConsolidatedRecord>, r2: seq<ConsolidatedRecord>, side: Side)
    ensures SideRefs(r1 + r2, side) == SideRefs(r1, side) + SideRefs(r2, side)
    decreases |r1|
  {
    if r1 == [] {
      assert r1 + r2 == r2;
    } else {
      assert (r1 + r2)[1..] == r1[1..] + r2;
      SideRefsAppend(r1[1..], r2, side);
    }
  }

  /** The ids of a list are those of one record in it and those of the others. */
  lemma SideRefsAround(t: seq<ConsolidatedRecord>, k: int, side: Side)
    requires 0 <= k < |t|
    ensures multiset(SideRefs(t, side)) == multiset(SideRef(t[k], side)) + multiset(SideRefs(t[..k] + t[k + 1..], side))
  {
    var front, back := t[..k], t[k + 1..];
    assert t == front + ([t[k]] + back);
    assert ([t[k]] + back)[1..] == back;
    SideRefsAppend(front, [t[k]] + back, side);
    SideRefsAppend(front, back, side);
  }

  lemma MultisetAround(t: seq<ConsolidatedRecord>, k: int)
    requires 0 <= k < |t|
    ensures multiset(t) == multiset{t[k]} + multiset(t[..k] + t[k + 1..])
  {
    assert t == t[..k] + [t[k]] + t[k + 1..];
  }

  /** Reordering the records reorders the ids they refer to, and nothing more. */
  lemma {:induction false} SideRefsPermutation(s: seq<ConsolidatedRecord>, t: seq<ConsolidatedRecord>, side: Side)
    requires multiset(s) == multiset(t)
    ensures multiset(SideRefs(s, side)) == multiset(SideRefs(t, side))
    decreases |s|
  {
    if s == [] {
      assert |t| == |multiset(t)| == 0;
    } else {
      var x := s[0];
      assert s == [x] + s[1..];
      assert x in multiset(t);
      var k :| 0 <= k < |t| && t[k] == x;
      var others := t[..k] + t[k + 1..];
      MultisetAround(t, k);
      assert multiset(s) == multiset{x} + multiset(s[1..]);
      assert multiset(s[1..]) == multiset(s) - multiset{x};
      assert multiset(others) == multiset(t) - multiset{x};
      SideRefsPermutation(s[1..], others, side);
      SideRefsAround(t, k, side);
    }
  }

  lemma {:induction false} FilterPartition(ids: seq<string>, chosen: set<string>)
    ensures multiset(ids) == multiset(Within(ids, chosen)) + multiset(Without(ids, chosen))
    ensures |ids| == |Within(ids, chosen)| + |Without(ids, chosen)|
    decreases |ids|
  {
    if ids != [] {
      FilterPartition(ids[1..], chosen);
      assert ids == [ids[0]] + ids[1..];
    }
  }

  lemma {:induction false} WithinElements(ids: seq<string>, kept: set<string>)
    ensures forall x :: x in Within(ids, kept) <==> x in ids && x in kept
    ensures Distinct(ids) ==> Distinct(Within(ids, kept))
    decreases |ids|
  {
    if ids != [] {
      var first, rest := ids[0], ids[1..];
      WithinElements(rest, kept);
      assert ids == [first] + rest;
      if Distinct(ids) {
        forall p | 0 <= p < |rest| ensures rest[p] != first {
          assert rest[p] == ids[p + 1];
        }
      }
    }
  }

  /** In a list without repeats every id occurs once. */
  lemma {:induction false} DistinctMultiset(ids: seq<string>)
    requires Distinct(ids)
    ensures forall x :: multiset(ids)[x] == if x in ids then 1 else 0
    decreases |ids|
  {
    if ids != [] {
      var first, rest := ids[0], ids[1..];
      assert ids == [first] + rest;
      DistinctMultiset(rest);
      forall p | 0 <= p < |rest| ensures rest[p] != first {
        assert rest[p] == ids[p + 1];
      }
    }
  }

  lemma {:induction false} DistinctCardinality(ids: seq<string>)
    requires Distinct(ids)
    ensures |set x | x in ids| == |ids|
    decreases |ids|
  {
    if ids != [] {
      var first, rest := ids[0], ids[1..];
      assert ids == [first] + rest;
      DistinctCardinality(rest);
      forall p | 0 <= p < |rest| ensures rest[p] != first {
        assert rest[p] == ids[p + 1];
      }
      assert (set x | x in ids) == (set x | x in rest) + {first};
    }
  }

  /** Two lists without repeats and with the same ids are permutations of each other. */
  lemma SameIdsSameMultiset(s: seq<string>, t: seq<string>)
    requires Distinct(s) && Distinct(t)
    requires forall x :: x in s <==> x in t
    ensures multiset(s) == multiset(t)
  {
    DistinctMultiset(s);
    DistinctMultiset(t);
    assert forall x :: multiset(s)[x] == multiset(t)[x];
  }

  /** A permutation of a list without repeats has none either. */
  lemma DistinctPermutation(s: seq<string>, t: seq<string>)
    requires Distinct(t) && multiset(s) == multiset(t)
    ensures Distinct(s)
  {
    DistinctMultiset(t);
    forall p, q | 0 <= p < q < |s| ensures s[p] != s[q] {
      // s[q] occurs once in all of s, and already once in s[q..]
      assert s == s[..q] + s[q..];
      assert s[q..][0] == s[q];
      assert multiset(s)[s[q]] == multiset(s[..q])[s[q]] + multiset(s[q..])[s[q]];
      assert s[q] in multiset(t);
      assert s[..q][p] == s[p];
    }
  }

  // ----------------------------------------------------- the matching loop

  /** Running the loop only appends records and only adds matched ids. */
  lemma {:induction false} MatchFromExtends(attentions: seq<AttentionRecord>, sales: seq<SaleRecord>, state: MatchState)
    ensures var after := MatchFrom(attentions, sales, state);
      && |after.records| == |state.records| + |attentions|
      && after.records[..|state.records|] == state.records
      && state.matched <= after.matched
    decreases |attentions|
  {
    if attentions != [] {
      var next := Step(state, attentions[0], sales);
      MatchFromExtends(attentions[1..], sales, next);
      assert next.records[..|state.records|] == state.records;
    }
  }

  /** Running the loop over two lists in turn is running it over both. */
  lemma {:induction false} MatchFromAppend(a: seq<AttentionRecord>, b: seq<AttentionRecord>, sales: seq<SaleRecord>, state: MatchState)
    ensures MatchFrom(a + b, sales, state) == MatchFrom(b, sales, MatchFrom(a, sales, state))
    decreases |a|
  {
    if a == [] {
      assert a + b == b;
    } else {
      assert (a + b)[1..] == a[1..] + b;
      MatchFromAppend(a[1..], b, sales, Step(state, a[0], sales));
    }
  }

  /** The loop after `i + 1` attentions is one more step after `i` of them. */
  lemma MatchAttentionsNext(attentions: seq<AttentionRecord>, sales: seq<SaleRecord>, i: nat)
    requires i < |attentions|
    ensures MatchAttentions(attentions[..i + 1], sales)
         == Step(MatchAttentions(attentions[..i], sales), attentions[i], sales)
  {
    assert attentions[..i + 1] == attentions[..i] + [attentions[i]];
    MatchFromAppend(attentions[..i], [attentions[i]], sales, MatchState([], {}));
  }

  /** The records after the first `n` attentions are the first `n` records. */
  lemma PrefixRecords(attentions: seq<AttentionRecord>, sales: seq<SaleRecord>, n: nat)
    requires n <= |attentions|
    ensures var all := MatchAttentions(attentions, sales).records;
            var part := MatchAttentions(attentions[..n], sales).records;
      |all| == |attentions| && |part| == n && all[..n] == part
  {
    var part := MatchAttentions(attentions[..n], sales);
    assert attentions == attentions[..n] + attentions[n..];
    MatchFromAppend(attentions[..n], attentions[n..], sales, MatchState([], {}));
    MatchFromExtends(attentions[..n], sales, MatchState([], {}));
    MatchFromExtends(attentions[n..], sales, part);
  }

  /** Attention `i` pushes the record it yields against the sales matched before it. */
  lemma StepRecords(attentions: seq<AttentionRecord>, sales: seq<SaleRecord>, i: nat)
    requires i < |attentions|
    ensures var before := MatchAttentions(attentions[..i], sales);
      MatchAttentions(attentions[..i + 1], sales).records
        == before.records + [Emit(attentions[i], sales, before.matched).0]
  {
    MatchAttentionsNext(attentions, sales, i);
  }

  /** Record `i` is what attention `i` yields against the sales matched before it. */
  lemma RecordAt(attentions: seq<AttentionRecord>, sales: seq<SaleRecord>, i: nat)
    requires i < |attentions|
    ensures |MatchAttentions(attentions, sales).records| == |attentions|
    ensures MatchAttentions(attentions, sales).records[i]
         == Emit(attentions[i], sales, MatchAttentions(attentions[..i], sales).matched).0
  {
    var all := MatchAttentions(attentions, sales).records;
    var upto := MatchAttentions(attentions[..i + 1], sales).records;
    PrefixRecords(attentions, sales, i + 1);
    PrefixRecords(attentions[..i + 1], sales, i);
    assert attentions[..i + 1][..i] == attentions[..i];
    StepRecords(attentions, sales, i);
    assert all[i] == all[..i + 1][i] == upto[i];
  }

  /**
   * The attentions are handled in input order: record `i` is what attention `i`
   * yields against the sales matched by the attentions before it.
   */
  lemma MatchAttentionsInOrder(attentions: seq<AttentionRecord>, sales: seq<SaleRecord>)
    ensures |MatchAttentions(attentions, sales).records| == |attentions|
    ensures forall i :: 0 <= i < |attentions| ==>
      MatchAttentions(attentions, sales).records[i]
        == Emit(attentions[i], sales, MatchAttentions(attentions[..i], sales).matched).0
  {
    PrefixRecords(attentions, sales, 0);
    forall i | 0 <= i < |attentions|
      ensures MatchAttentions(attentions, sales).records[i]
           == Emit(attentions[i], sales, MatchAttentions(attentions[..i], sales).matched).0
    {
      RecordAt(attentions, sales, i);
    }
  }

  /**
   * Record `i` of the first loop, read against the inputs. When attention `i`
   * found its first eligible sale, the record carries that sale's amount and
   * the minutes between the two dates. It is a perfect match exactly when
   * those minutes are at most 180, and a likely match otherwise, and the
   * minutes are below one day. When no sale was eligible, the record is
   * attention-only.
   */
  lemma PairedRecordFromDates(attentions: seq<AttentionRecord>, sales: seq<SaleRecord>, i: nat)
    requires i < |attentions|
    ensures var found := FirstEligible(attentions[i], sales, MatchAttentions(attentions[..i], sales).matched);
            var record := MatchAttentions(attentions, sales).records[i];
      && (found.Some? ==>
            var diff := CalculateTimeDifference(attentions[i].startDate, sales[found.value].date);
            && record.timeDifferenceMinutes == Some(diff)
            && diff < MinutesPerDay
            && (record.conciliationStatus == PerfectMatch <==> diff <= PerfectMatchThresholdMinutes)
            && (record.conciliationStatus == LikelyMatch <==> diff > PerfectMatchThresholdMinutes)
            && record.sale.Some? && record.sale.value.amount == sales[found.value].amount
            && record.patientId == AnonymizePatientId(attentions[i].patientId))
      && (found.None? ==>
            record == AttentionOnlyRecord(attentions[i]) && record.conciliationStatus == AttentionOnly)
  {
    var before := MatchAttentions(attentions[..i], sales).matched;
    var found := FirstEligible(attentions[i], sales, before);
    MatchAttentionsInOrder(attentions, sales);
    var record := MatchAttentions(attentions, sales).records[i];
    assert record == Emit(attentions[i], sales, before).0;
    if found.Some? {
      PairOfEligible(attentions[i], sales[found.value], before);
    }
  }

  /** The pair record of an eligible sale: its minutes are below one day and decide its status. */
  lemma PairOfEligible(attention: AttentionRecord, sale: SaleRecord, matched: set<string>)
    requires Eligible(attention, sale, matched)
    ensures var record, diff := PairRecord(attention, sale), CalculateTimeDifference(attention.startDate, sale.date);
      && record.timeDifferenceMinutes == Some(diff)
      && diff < MinutesPerDay
      && (record.conciliationStatus == PerfectMatch <==> diff <= PerfectMatchThresholdMinutes)
      && (record.conciliationStatus == LikelyMatch <==> diff > PerfectMatchThresholdMinutes)
  {
  }

  /** `matchedSaleIds` only grows, by at most one id per attention. */
  lemma MatchedGrowsByAtMostOne(attentions: seq<AttentionRecord>, sales: seq<SaleRecord>, i: nat)
    requires i < |attentions|
    ensures var before := MatchAttentions(attentions[..i], sales).matched;
            var after := MatchAttentions(attentions[..i + 1], sales).matched;
            before <= after && |after| <= |before| + 1
  {
    MatchAttentionsNext(attentions, sales, i);
  }

  /**
   * First-eligible tie-break: attention `i` is paired with the first sale, in
   * input order, that is still unmatched, of the same patient and on the same
   * day; with no such sale it stands alone.
   */
  lemma FirstEligibleTieBreak(attentions: seq<AttentionRecord>, sales: seq<SaleRecord>, i: nat)
    requires i < |attentions|
    ensures |MatchAttentions(attentions, sales).records| == |attentions|
    ensures var before := MatchAttentions(attentions[..i], sales).matched;
            var record := MatchAttentions(attentions, sales).records[i];
      && (record.sale.Some? ==>
            exists k :: 0 <= k < |sales| && record == PairRecord(attentions[i], sales[k])
              && Eligible(attentions[i], sales[k], before)
              && forall j :: 0 <= j < k ==> !Eligible(attentions[i], sales[j], before))
      && (record.sale.None? ==>
            record == AttentionOnlyRecord(attentions[i])
              && forall j :: 0 <= j < |sales| ==> !Eligible(attentions[i], sales[j], before))
  {
    MatchAttentionsInOrder(attentions, sales);
    var before := MatchAttentions(attentions[..i], sales).matched;
    var found := FirstEligible(attentions[i], sales, before);
    if found.Some? {
      var k := found.value;
      assert MatchAttentions(attentions, sales).records[i] == PairRecord(attentions[i], sales[k]);
    }
  }

  /**
   * What the first loop keeps true of its state: the sales the records refer
   * to are pairwise distinct and are exactly the matched ids, every matched id
   * is a sale's, and there are no more of them than records.
   */
  ghost predicate SalesTakenOnce(state: MatchState, sales: seq<SaleRecord>) {
    && Distinct(SideRefs(state.records, SaleSide))
    && (forall x :: x in SideRefs(state.records, SaleSide) <==> x in state.matched)
    && (forall x :: x in state.matched ==> x in SaleIds(sales))
    && |state.matched| <= |state.records|
  }

  lemma SideRefsOne(record: ConsolidatedRecord, side: Side)
    ensures SideRefs([record], side) == SideRef(record, side)
  {
    assert [record][1..] == [];
  }

  lemma DistinctAppend(ids: seq<string>, id: string)
    requires Distinct(ids) && id !in ids
    ensures Distinct(ids + [id])
  {
    forall p | 0 <= p < |ids| ensures ids[p] != id {
      assert ids[p] in ids;
    }
  }

  /** One step pushes one record; its sale side is the sale taken, if any, which joins the matched ids. */
  lemma StepShape(state: MatchState, attention: AttentionRecord, sales: seq<SaleRecord>)
    ensures var next := Step(state, attention, sales);
            var found := FirstEligible(attention, sales, state.matched);
      && |next.records| == |state.records| + 1 && next.records[..|state.records|] == state.records
      && SideRef(next.records[|state.records|], AttentionSide) == [attention.id]
      && (found.Some? ==>
            && SideRef(next.records[|state.records|], SaleSide) == [sales[found.value].id]
            && next.matched == state.matched + {sales[found.value].id})
      && (found.None? ==>
            SideRef(next.records[|state.records|], SaleSide) == [] && next.matched == state.matched)
  {
    var (record, matched) := Emit(attention, sales, state.matched);
    EmitShape(attention, sales, state.matched);
    var next := Step(state, attention, sales);
    assert next == MatchState(state.records + [record], matched);
    assert next.records[|state.records|] == record;
    assert next.records[..|state.records|] == state.records;
  }

  /** The record `Emit` pushes refers to the attention, and to the sale it takes, if any. */
  lemma EmitShape(attention: AttentionRecord, sales: seq<SaleRecord>, matched: set<string>)
    ensures var e := Emit(attention, sales, matched);
            var found := FirstEligible(attention, sales, matched);
      && SideRef(e.0, AttentionSide) == [attention.id]
      && (found.Some? ==> SideRef(e.0, SaleSide) == [sales[found.value].id] && e.1 == matched + {sales[found.value].id})
      && (found.None? ==> SideRef(e.0, SaleSide) == [] && e.1 == matched)
  {
    match FirstEligible(attention, sales, matched)
    case Some(k) => PairRefs(attention, sales[k]);
    case None => AttentionOnlyRefs(attention);
  }

  lemma PairRefs(attention: AttentionRecord, sale: SaleRecord)
    ensures SideRef(PairRecord(attention, sale), AttentionSide) == [attention.id]
    ensures SideRef(PairRecord(attention, sale), SaleSide) == [sale.id]
  {
  }

  lemma AttentionOnlyRefs(attention: AttentionRecord)
    ensures SideRef(AttentionOnlyRecord(attention), AttentionSide) == [attention.id]
    ensures SideRef(AttentionOnlyRecord(attention), SaleSide) == []
  {
  }

  /** Pushing a record that refers to no sale, or to one sale not matched yet, keeps `SalesTakenOnce`. */
  lemma ExtendTakenOnce(state: MatchState, next: MatchState, sales: seq<SaleRecord>, taken: Option<string>)
    requires SalesTakenOnce(state, sales)
    requires |next.records| == |state.records| + 1 && next.records[..|state.records|] == state.records
    requires taken.None? ==>
      SideRef(next.records[|state.records|], SaleSide) == [] && next.matched == state.matched
    requires taken.Some? ==>
      && SideRef(next.records[|state.records|], SaleSide) == [taken.value]
      && next.matched == state.matched + {taken.value}
      && taken.value !in state.matched && taken.value in SaleIds(sales)
    ensures SalesTakenOnce(next, sales)
  {
    var record := next.records[|state.records|];
    var refs := SideRefs(state.records, SaleSide);
    assert next.records == state.records + [record];
    SideRefsAppend(state.records, [record], SaleSide);
    SideRefsOne(record, SaleSide);
    if taken.Some? {
      DistinctAppend(refs, taken.value);
    }
  }

  lemma StepKeepsSalesTakenOnce(state: MatchState, attention: AttentionRecord, sales: seq<SaleRecord>)
    requires SalesTakenOnce(state, sales)
    ensures SalesTakenOnce(Step(state, attention, sales), sales)
  {
    StepShape(state, attention, sales);
    var found := FirstEligible(attention, sales, state.matched);
    if found.Some? {
      assert SaleIds(sales)[found.value] == sales[found.value].id;
      ExtendTakenOnce(state, Step(state, attention, sales), sales, Some(sales[found.value].id));
    } else {
      ExtendTakenOnce(state, Step(state, attention, sales), sales, None);
    }
  }

  lemma {:induction false} MatchFromKeepsSalesTakenOnce(attentions: seq<AttentionRecord>, sales: seq<SaleRecord>, state: MatchState)
    requires SalesTakenOnce(state, sales)
    ensures SalesTakenOnce(MatchFrom(attentions, sales, state), sales)
    decreases |attentions|
  {
    if attentions != [] {
      StepKeepsSalesTakenOnce(state, attentions[0], sales);
      MatchFromKeepsSalesTakenOnce(attentions[1..], sales, Step(state, attentions[0], sales));
    }
  }

  /**
   * No sale is consumed twice: the sales referred to by the paired records
   * are pairwise distinct and are exactly the matched ids, and there are no
   * more of them than attentions.
   */
  lemma MatchedSales(attentions: seq<AttentionRecord>, sales: seq<SaleRecord>)
    ensures var state := MatchAttentions(attentions, sales);
      && Distinct(SideRefs(state.records, SaleSide))
      && (forall x :: x in SideRefs(state.records, SaleSide) <==> x in state.matched)
      && (forall x :: x in state.matched ==> x in SaleIds(sales))
      && |state.matched| <= |attentions|
  {
    MatchFromKeepsSalesTakenOnce(attentions, sales, MatchState([], {}));
    MatchFromExtends(attentions, sales, MatchState([], {}));
  }

  /** Records that each carry an attention refer, on that side, to those attentions' ids. */
  lemma {:induction false} AttentionRefsOf(records: seq<ConsolidatedRecord>, ids: seq<string>)
    requires |records| == |ids|
    requires forall i :: 0 <= i < |records| ==> records[i].attention.Some? && records[i].attention.value.id == ids[i]
    ensures SideRefs(records, AttentionSide) == ids
    decreases |records|
  {
    if records != [] {
      AttentionRefsOf(records[1..], ids[1..]);
      assert ids == [ids[0]] + ids[1..];
    }
  }

  /** The attention side of the paired records lists the attentions, in order. */
  lemma MatchedAttentions(attentions: seq<AttentionRecord>, sales: seq<SaleRecord>)
    ensures SideRefs(MatchAttentions(attentions, sales).records, AttentionSide) == AttentionIds(attentions)
  {
    var records := MatchAttentions(attentions, sales).records;
    MatchAttentionsInOrder(attentions, sales);
    forall i | 0 <= i < |records|
      ensures records[i].attention.Some? && records[i].attention.value.id == AttentionIds(attentions)[i]
    {
      var before := MatchAttentions(attentions[..i], sales).matched;
      assert records[i] == Emit(attentions[i], sales, before).0;
    }
    AttentionRefsOf(records, AttentionIds(attentions));
  }

  /** The second loop emits one sale-only record per unmatched sale, in input order. */
  lemma {:induction false} UnmatchedSalesRefs(sales: seq<SaleRecord>, matched: set<string>)
    ensures SideRefs(UnmatchedSales(sales, matched), SaleSide) == Without(SaleIds(sales), matched)
    ensures SideRefs(UnmatchedSales(sales, matched), AttentionSide) == []
    ensures |UnmatchedSales(sales, matched)| == |Without(SaleIds(sales), matched)|
    decreases |sales|
  {
    if sales != [] {
      var rest := sales[1..];
      UnmatchedSalesRefs(rest, matched);
      var pushed := Leftover(sales[0], matched);
      var others := UnmatchedSales(rest, matched);
      assert SaleIds(sales) == [sales[0].id] + SaleIds(rest);
      SideRefsAppend(pushed, others, SaleSide);
      SideRefsAppend(pushed, others, AttentionSide);
      if pushed != [] {
        SideRefsOne(SaleOnlyRecord(sales[0]), SaleSide);
        SideRefsOne(SaleOnlyRecord(sales[0]), AttentionSide);
      }
    }
  }

  /** Every record of the second loop is the sale-only record of a sale whose id was not matched. */
  lemma {:induction false} UnmatchedSalesAreSaleOnly(sales: seq<SaleRecord>, matched: set<string>)
    ensures forall r :: r in UnmatchedSales(sales, matched) ==>
      exists j :: 0 <= j < |sales| && sales[j].id !in matched && r == SaleOnlyRecord(sales[j])
    decreases |sales|
  {
    if sales != [] {
      var rest := sales[1..];
      UnmatchedSalesAreSaleOnly(rest, matched);
      var others := UnmatchedSales(rest, matched);
      forall r | r in UnmatchedSales(sales, matched)
        ensures exists j :: 0 <= j < |sales| && sales[j].id !in matched && r == SaleOnlyRecord(sales[j])
      {
        if r in others {
          var j :| 0 <= j < |rest| && rest[j].id !in matched && r == SaleOnlyRecord(rest[j]);
          assert sales[j + 1] == rest[j];
        } else {
          assert r == SaleOnlyRecord(sales[0]);
        }
      }
    }
  }

  // ---------------------------------------------------------------- coverage

  /** Before the sort: one record per attention, in order, then one per unmatched sale. */
  lemma UnsortedAttentions(attentions: seq<AttentionRecord>, sales: seq<SaleRecord>)
    ensures var matched := MatchAttentions(attentions, sales).matched;
      && |Unsorted(attentions, sales)| == |attentions| + |Without(SaleIds(sales), matched)|
      && SideRefs(Unsorted(attentions, sales), AttentionSide) == AttentionIds(attentions)
  {
    var state := MatchAttentions(attentions, sales);
    var unmatched := UnmatchedSales(sales, state.matched);
    MatchAttentionsInOrder(attentions, sales);
    MatchedAttentions(attentions, sales);
    UnmatchedSalesRefs(sales, state.matched);
    SideRefsAppend(state.records, unmatched, AttentionSide);
  }

  /**
   * Distinct ids taken once each, followed by the ids that were not taken,
   * are the ids themselves, reordered.
   */
  lemma TakenThenLeft(refs: seq<string>, matched: set<string>, ids: seq<string>)
    requires Distinct(ids) && Distinct(refs)
    requires forall x :: x in refs <==> x in matched
    requires forall x :: x in matched ==> x in ids
    ensures multiset(refs + Without(ids, matched)) == multiset(ids)
    ensures |Without(ids, matched)| == |ids| - |matched|
  {
    var taken := Within(ids, matched);
    FilterPartition(ids, matched);
    WithinElements(ids, matched);
    SameIdsSameMultiset(refs, taken);
    DistinctCardinality(taken);
    assert (set x | x in taken) == matched;
  }

  /** Before the sort, with distinct sale ids: every sale appears exactly once. */
  lemma UnsortedSales(attentions: seq<AttentionRecord>, sales: seq<SaleRecord>)
    requires Distinct(SaleIds(sales))
    ensures var matched := MatchAttentions(attentions, sales).matched;
      && multiset(SideRefs(Unsorted(attentions, sales), SaleSide)) == multiset(SaleIds(sales))
      && |Without(SaleIds(sales), matched)| == |sales| - |matched|
  {
    var state := MatchAttentions(attentions, sales);
    var unmatched := UnmatchedSales(sales, state.matched);
    MatchedSales(attentions, sales);
    UnmatchedSalesRefs(sales, state.matched);
    SideRefsAppend(state.records, unmatched, SaleSide);
    TakenThenLeft(SideRefs(state.records, SaleSide), state.matched, SaleIds(sales));
  }

  /**
   * Coverage before the sort: one record per attention plus one per unmatched
   * sale; the attentions appear in order, and with distinct sale ids every sale
   * appears exactly once.
   */
  lemma UnsortedCoverage(attentions: seq<AttentionRecord>, sales: seq<SaleRecord>)
    ensures var matched := MatchAttentions(attentions, sales).matched;
      && |Unsorted(attentions, sales)| == |attentions| + |Without(SaleIds(sales), matched)|
      && SideRefs(Unsorted(attentions, sales), AttentionSide) == AttentionIds(attentions)
      && (Distinct(SaleIds(sales)) ==>
            && multiset(SideRefs(Unsorted(attentions, sales), SaleSide)) == multiset(SaleIds(sales))
            && |Unsorted(attentions, sales)| == |attentions| + |sales| - |matched|)
  {
    UnsortedAttentions(attentions, sales);
    if Distinct(SaleIds(sales)) {
      UnsortedSales(attentions, sales);
    }
  }

  /** The shape every consolidated record has. */
  predicate WellFormedRecord(r: ConsolidatedRecord) {
    && (r.attention.Some? || r.sale.Some?)
    && (r.conciliationStatus == SaleOnly <==> r.attention.None?)
    && (r.conciliationStatus == AttentionOnly <==> r.attention.Some? && r.sale.None?)
    && (r.timeDifferenceMinutes.Some? <==> r.attention.Some? && r.sale.Some?)
    && (r.timeDifferenceMinutes.Some? ==>
          && 0 <= r.timeDifferenceMinutes.value < MinutesPerDay
          && (r.conciliationStatus == PerfectMatch <==> r.timeDifferenceMinutes.value <= PerfectMatchThresholdMinutes))
    && (r.attention.Some? && r.sale.Some? ==>
          r.date.Some? && r.id == r.attention.value.id + "_" + r.sale.value.id)
    && (r.attention.Some? && r.sale.None? ==> r.id == r.attention.value.id)
    && (r.attention.Some? ==> r.attention.value.time == FormatTime(r.date))
    && (r.attention.None? ==> r.id == r.sale.value.id && r.sale.value.time == FormatTime(r.date))
    && AnonymizePatientId(r.patientId) == r.patientId
  }

  lemma PairWellFormed(attention: AttentionRecord, sale: SaleRecord)
    requires IsSameDay(sale.date, attention.startDate)
    ensures WellFormedRecord(PairRecord(attention, sale))
  {
    SameDayWithinADay(attention.startDate, sale.date);
    AnonymizeIdempotent(attention.patientId);
  }

  lemma AttentionOnlyWellFormed(attention: AttentionRecord)
    ensures WellFormedRecord(AttentionOnlyRecord(attention))
  {
    AnonymizeIdempotent(attention.patientId);
  }

  lemma SaleOnlyWellFormed(sale: SaleRecord)
    ensures WellFormedRecord(SaleOnlyRecord(sale))
  {
    AnonymizeIdempotent(sale.patientId);
  }

  lemma UnsortedWellFormed(attentions: seq<AttentionRecord>, sales: seq<SaleRecord>)
    ensures forall r :: r in Unsorted(attentions, sales) ==> WellFormedRecord(r)
  {
    var state := MatchAttentions(attentions, sales);
    MatchAttentionsInOrder(attentions, sales);
    UnmatchedSalesAreSaleOnly(sales, state.matched);
    forall r | r in Unsorted(attentions, sales) ensures WellFormedRecord(r) {
      if r in state.records {
        var i :| 0 <= i < |state.records| && state.records[i] == r;
        var before := MatchAttentions(attentions[..i], sales).matched;
        var found := FirstEligible(attentions[i], sales, before);
        if found.Some? {
          PairWellFormed(attentions[i], sales[found.value]);
        } else {
          AttentionOnlyWellFormed(attentions[i]);
        }
      } else {
        var j :| 0 <= j < |sales| && sales[j].id !in state.matched && r == SaleOnlyRecord(sales[j]);
        SaleOnlyWellFormed(sales[j]);
      }
    }
  }

  /**
   * What `consolidateRecords` returns, whatever order the sort leaves: one
   * record per attention plus one per unmatched sale, every attention exactly
   * as often as it was given, every sale exactly once when sale ids are
   * distinct (so none is paired twice), and every record well formed.
   */
  lemma ConsolidatedCoverage(attentions: seq<AttentionRecord>, sales: seq<SaleRecord>, result: seq<ConsolidatedRecord>)
    requires multiset(result) == multiset(Unsorted(attentions, sales))
    ensures |result| == |attentions| + |Without(SaleIds(sales), MatchAttentions(attentions, sales).matched)|
    ensures multiset(SideRefs(result, AttentionSide)) == multiset(AttentionIds(attentions))
    ensures Distinct(SaleIds(sales)) ==>
      && multiset(SideRefs(result, SaleSide)) == multiset(SaleIds(sales))
      && Distinct(SideRefs(result, SaleSide))
      && forall j :: 0 <= j < |sales| ==> multiset(SideRefs(result, SaleSide))[sales[j].id] == 1
    ensures forall r :: r in result ==> WellFormedRecord(r)
  {
    var unsorted := Unsorted(attentions, sales);
    assert |result| == |multiset(result)| == |unsorted|;
    UnsortedCoverage(attentions, sales);
    UnsortedWellFormed(attentions, sales);
    SideRefsPermutation(result, unsorted, AttentionSide);
    SideRefsPermutation(result, unsorted, SaleSide);
    if Distinct(SaleIds(sales)) {
      DistinctPermutation(SideRefs(result, SaleSide), SaleIds(sales));
      DistinctMultiset(SaleIds(sales));
      forall j | 0 <= j < |sales| ensures multiset(SideRefs(result, SaleSide))[sales[j].id] == 1 {
        assert SaleIds(sales)[j] == sales[j].id;
      }
    }
    forall r | r in result ensures WellFormedRecord(r) {
      assert r in multiset(unsorted);
    }
  }
}
