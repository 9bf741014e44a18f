/** The record reconciler (scripts/dataStructureManager.tsx): pruning old records,
    gap-filling missing days from the cached template, the completion snapshot and
    the cache itself. `now` is the clock reading in milliseconds. */
module DataStructureManager {
  import opened Types
  import opened Seqs
  import opened Records
  import opened Goals
  import opened Storage

  const RetentionDays: int := 7

  /** `recordDate >= cutoffDate`, with the cutoff seven days before now. */
  predicate Retained(nowMs: int, rec: DailyRecord) {
    DayStart(rec.date) >= nowMs - RetentionDays * MsPerDay
  }

  /** cleanupOldRecords' filter. */
  function CleanupOldRecords(records: seq<DailyRecord>, nowMs: int): (r: seq<DailyRecord>)
    ensures IsSubsequence(r, records)
    ensures forall rec :: rec in r <==> rec in records && Retained(nowMs, rec)
    ensures forall rec :: multiset(r)[rec] == if Retained(nowMs, rec) then multiset(records)[rec] else 0
  {
    var p := (rec: DailyRecord) => Retained(nowMs, rec);
    FilterIsSubsequence(records, p);
    FilterMultiset(records, p);
    Filter(records, p)
  }

  /** In day terms: the records of the last seven days are kept at an exact midnight,
      those of the last six days plus today at any later moment. */
  lemma RetainedDays(nowMs: int, rec: DailyRecord)
    ensures Retained(nowMs, rec) <==>
      rec.date >= DayOf(nowMs) - RetentionDays + (if nowMs % MsPerDay == 0 then 0 else 1)
  {
    var t, f := DayOf(nowMs), nowMs % MsPerDay;
    assert nowMs == t * MsPerDay + f;
  }

  /** Cleaning up twice at the same moment removes nothing more. */
  lemma CleanupIdempotent(records: seq<DailyRecord>, nowMs: int)
    ensures CleanupOldRecords(CleanupOldRecords(records, nowMs), nowMs) == CleanupOldRecords(records, nowMs)
  {
    FilterIdempotent(records, (rec: DailyRecord) => Retained(nowMs, rec));
  }

  /** createRecordForDate: every section and goal field kept, every goal uncompleted. */
  function CreateRecordForDate(date: Day, sections: seq<SectionData>): (r: DailyRecord)
    ensures r.date == date && |r.sections| == |sections|
    ensures forall i :: 0 <= i < |sections| ==>
      r.sections[i].(goals := sections[i].goals) == sections[i] && r.sections[i].goals == ResetGoals(sections[i].goals)
  {
    DailyRecord(date, seq(|sections|, i requires 0 <= i < |sections| =>
      sections[i].(goals := ResetGoals(sections[i].goals))))
  }

  /** The largest date among the records (`Math.max` over their timestamps). */
  function MaxDate(records: seq<DailyRecord>): (m: Day)
    requires records != []
    ensures forall k :: 0 <= k < |records| ==> records[k].date <= m
    ensures HasRecord(records, m)
  {
    if |records| == 1 then records[0].date
    else
      var m' := MaxDate(records[1..]);
      if records[0].date >= m' then records[0].date else m'
  }

  /** One fresh record for each day from `first` through `last`. */
  function FillDays(first: Day, last: Day, template: seq<SectionData>): (r: seq<DailyRecord>)
    decreases last - first
  {
    if first > last then [] else [CreateRecordForDate(first, template)] + FillDays(first + 1, last, template)
  }

  lemma {:induction false} FillDaysExtend(first: Day, last: Day, template: seq<SectionData>)
    requires first <= last + 1
    ensures FillDays(first, last + 1, template) == FillDays(first, last, template) + [CreateRecordForDate(last + 1, template)]
    decreases last - first
  {
    if first <= last {
      FillDaysExtend(first + 1, last, template);
    }
  }

  lemma {:induction false} FillDaysAt(first: Day, last: Day, template: seq<SectionData>)
    ensures |FillDays(first, last, template)| == if first > last then 0 else last - first + 1
    ensures forall k :: 0 <= k < |FillDays(first, last, template)| ==>
      FillDays(first, last, template)[k] == CreateRecordForDate(first + k, template)
    decreases last - first
  {
    if first <= last {
      FillDaysAt(first + 1, last, template);
    }
  }

  /** What populateMissingDailyRecords stores: with no records, one record for today;
      otherwise the records followed by one record per day after the latest through today. */
  function Populated(records: seq<DailyRecord>, template: seq<SectionData>, nowMs: int): seq<DailyRecord> {
    if records == [] then [CreateRecordForDate(DayOf(nowMs), template)]
    else records + FillDays(MaxDate(records) + 1, DayOf(nowMs), template)
  }

  lemma DayOfStart(d: Day)
    ensures DayOf(DayStart(d)) == d
  {
  }

  /** populateMissingDailyRecords' in-memory step: the `while` loop stepping the start date
      a day at a time and pushing a record for each date that has none. */
  method PopulateMissingDailyRecords(records: seq<DailyRecord>, template: seq<SectionData>, nowMs: int)
    returns (r: seq<DailyRecord>)
    ensures r == Populated(records, template, nowMs)
  {
    r := records;
    if |records| == 0 {
      r := r + [CreateRecordForDate(DayOf(nowMs), template)];
      return;
    }
    var last := MaxDate(records);
    var start := DayStart(last) + MsPerDay;
    ghost var next: Day := last + 1;
    while start <= nowMs
      invariant start == DayStart(next) && last < next
      invariant next == last + 1 || start - MsPerDay <= nowMs
      invariant r == records + FillDays(last + 1, next - 1, template)
      invariant forall k :: 0 <= k < |r| ==> r[k].date < next
      decreases nowMs - start
    {
      var day := DayOf(start);
      DayOfStart(next);
      PopulateStep(records, r, last, next, template);
      if !HasRecord(r, day) {
        r := r + [CreateRecordForDate(day, template)];
      } else {
        assert false;
      }
      start := start + MsPerDay;
      next := next + 1;
    }
    assert DayOf(nowMs) == next - 1 || DayOf(nowMs) < last + 1 by {
      DayOfStart(next);
    }
  }

  /** One turn of the gap-fill loop: the next day has no record yet, and pushing its
      record extends the fill by that day. */
  lemma PopulateStep(records: seq<DailyRecord>, r: seq<DailyRecord>, last: Day, next: Day, template: seq<SectionData>)
    requires last < next && r == records + FillDays(last + 1, next - 1, template)
    requires forall k :: 0 <= k < |r| ==> r[k].date < next
    ensures !HasRecord(r, next)
    ensures r + [CreateRecordForDate(next, template)] == records + FillDays(last + 1, next, template)
    ensures var r' := r + [CreateRecordForDate(next, template)];
      forall k :: 0 <= k < |r'| ==> r'[k].date < next + 1
  {
    FillDaysExtend(last + 1, next - 1, template);
    var rec := CreateRecordForDate(next, template);
    var r' := r + [rec];
    assert r' == records + (FillDays(last + 1, next - 1, template) + [rec]);
    assert forall k :: 0 <= k < |r| ==> r'[k] == r[k];
    assert r'[|r|] == rec;
  }

  /** With no records at all, exactly one record is made, for today. */
  lemma PopulatedFromNothing(template: seq<SectionData>, nowMs: int)
    ensures Populated([], template, nowMs) == [CreateRecordForDate(DayOf(nowMs), template)]
  {
  }

  /** Gap-fill only appends, appends only dates no record had, and after it every day from
      the latest record's day + 1 through today has a record. */
  lemma PopulatedContiguous(records: seq<DailyRecord>, template: seq<SectionData>, nowMs: int)
    requires records != []
    ensures var r := Populated(records, template, nowMs);
      && |r| >= |records| && r[..|records|] == records
      && (forall k :: |records| <= k < |r| ==> !HasRecord(records, r[k].date))
      && (forall k, j :: |records| <= k < j < |r| ==> r[k].date < r[j].date)
      && (forall d :: MaxDate(records) < d <= DayOf(nowMs) ==> HasRecord(r, d))
  {
    var r := Populated(records, template, nowMs);
    var first := MaxDate(records) + 1;
    var fill := FillDays(first, DayOf(nowMs), template);
    FillDaysAt(first, DayOf(nowMs), template);
    assert r == records + fill;
    forall d | first <= d <= DayOf(nowMs) ensures HasRecord(r, d) {
      assert r[|records| + (d - first)] == fill[d - first];
    }
  }

  /** The largest date of records whose dates all lie at or before one of them. */
  lemma MaxDateIs(records: seq<DailyRecord>, d: Day)
    requires HasRecord(records, d) && forall k :: 0 <= k < |records| ==> records[k].date <= d
    ensures MaxDate(records) == d
  {
  }

  /** A gap-filled list reaches today: its latest date is today whenever it was not later. */
  lemma PopulatedLatest(records: seq<DailyRecord>, template: seq<SectionData>, nowMs: int)
    requires records != [] && MaxDate(records) < DayOf(nowMs)
    ensures MaxDate(Populated(records, template, nowMs)) == DayOf(nowMs)
  {
    var today := DayOf(nowMs);
    var r := Populated(records, template, nowMs);
    var fill := FillDays(MaxDate(records) + 1, today, template);
    FillDaysAt(MaxDate(records) + 1, today, template);
    assert r == records + fill;
    forall k | 0 <= k < |r| ensures r[k].date <= today {
      if k >= |records| { assert r[k] == fill[k - |records|]; }
    }
    assert r[|r| - 1] == fill[|fill| - 1];
    MaxDateIs(r, today);
  }

  /** A second run at the same moment adds nothing. */
  lemma PopulatedIdempotent(records: seq<DailyRecord>, template: seq<SectionData>, nowMs: int)
    ensures Populated(Populated(records, template, nowMs), template, nowMs) == Populated(records, template, nowMs)
  {
    var r := Populated(records, template, nowMs);
    var today := DayOf(nowMs);
    assert FillDays(today + 1, today, template) == [];
    if records == [] {
      assert r[0].date == today;
      MaxDateIs(r, today);
    } else if MaxDate(records) >= today {
      assert FillDays(MaxDate(records) + 1, today, template) == [];
      assert r == records;
    } else {
      PopulatedLatest(records, template, nowMs);
    }
    assert r + [] == r;
  }

  /** The snapshot saveDailyCompletion writes: section titles and goal order kept, each
      goal stamped with its owning section's title. */
  function DailyCompletionData(sections: seq<SectionData>, today: Day): (r: CompletionData)
    ensures r.date == today && |r.sections| == |sections|
    ensures forall i :: 0 <= i < |sections| ==>
      r.sections[i].title == sections[i].title && |r.sections[i].goals| == |sections[i].goals|
    ensures forall i, j :: 0 <= i < |sections| && 0 <= j < |sections[i].goals| ==>
      r.sections[i].goals[j] == sections[i].goals[j].(sectionTitle := sections[i].title)
  {
    CompletionData(today, seq(|sections|, i requires 0 <= i < |sections| =>
      CompletionSection(sections[i].title,
        seq(|sections[i].goals|, j requires 0 <= j < |sections[i].goals| =>
          sections[i].goals[j].(sectionTitle := sections[i].title)))))
  }

  /** deepCopySections: as values, the copy is the same sections with the same goals. */
  function DeepCopySections(sections: seq<SectionData>): (r: seq<SectionData>)
    ensures r == sections
  {
    seq(|sections|, i requires 0 <= i < |sections| => sections[i].(goals := sections[i].goals[..]))
  }

  /** The goal copy updateExistingData makes, keeping each completion flag. */
  function CopyGoals(goals: seq<Goal>): (r: seq<Goal>)
    ensures r == goals
  {
    seq(|goals|, j requires 0 <= j < |goals| => goals[j].(completed := goals[j].completed))
  }

  /** The value updateExistingData caches: the record's date and sections, completion kept. */
  function ExistingDataOf(record: DailyRecord): (r: ExistingData)
    ensures r.date == record.date && r.sections == record.sections
  {
    ExistingData(record.date, seq(|record.sections|, i requires 0 <= i < |record.sections| =>
      record.sections[i].(goals := CopyGoals(record.sections[i].goals))))
  }

  /** The module-level `existingData` variable and the handlers that use it. */
  class Reconciler {
    var existingData: Option<ExistingData>

    /** `let existingData = null` at module load. */
    constructor ()
      ensures existingData == None
    {
      existingData := None;
    }

    /** `existingData?.sections || []`. */
    function Template(): seq<SectionData>
      reads this
    {
      match existingData
      case Some(e) => e.sections
      case None => []
    }

    /** loadExistingData: adopt the stored cache when the key is present. */
    method LoadExistingData(store: AppStorage)
      modifies this
      ensures existingData == if store.existingData.Some? then store.existingData else old(existingData)
    {
      if store.existingData.Some? {
        existingData := store.existingData;
      }
    }

    /** saveExistingData. */
    method SaveExistingData(store: AppStorage)
      modifies store`existingData
      ensures store.existingData == existingData
    {
      store.existingData := existingData;
    }

    /** updateExistingData: cache a copy of the record and save it. */
    method UpdateExistingData(store: AppStorage, record: DailyRecord)
      modifies this, store`existingData
      ensures existingData == Some(ExistingDataOf(record)) && store.existingData == existingData
    {
      existingData := Some(ExistingDataOf(record));
      SaveExistingData(store);
    }

    /** cleanupOldRecords: read, filter, write back. */
    method CleanupOldRecordsIn(store: AppStorage, nowMs: int)
      modifies store`dailyRecords
      ensures store.dailyRecords == Some(CleanupOldRecords(old(store.Records()), nowMs))
    {
      store.dailyRecords := Some(CleanupOldRecords(store.Records(), nowMs));
    }

    /** populateMissingDailyRecords: read, gap-fill from the cached template, write back. */
    method PopulateMissingDailyRecordsIn(store: AppStorage, nowMs: int)
      modifies store`dailyRecords
      ensures store.dailyRecords == Some(Populated(old(store.Records()), Template(), nowMs))
    {
      var filled := PopulateMissingDailyRecords(store.Records(), Template(), nowMs);
      store.dailyRecords := Some(filled);
    }

    /** saveDailyCompletion: write the snapshot under "dailyCompletion". */
    method SaveDailyCompletion(store: AppStorage, sections: seq<SectionData>, nowMs: int)
      modifies store`dailyCompletion
      ensures store.dailyCompletion == Some(DailyCompletionData(sections, DayOf(nowMs)))
    {
      store.dailyCompletion := Some(DailyCompletionData(sections, DayOf(nowMs)));
    }
  }
}
