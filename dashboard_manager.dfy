/** The dashboard manager of app/DashboardComp/DashboardManager.tsx: section and record
    lookups, the in-place goal replacement, and the rollover and weekly statistics over
    the flat "goals" and "sections" keys and the "completionHistory" log. */
module DashboardManager {
  import opened Types
  import opened Seqs
  import opened Records
  import opened Goals
  import opened Stats
  import opened Storage
  import GetFromStorage

  /** `history.slice(-7)`: the log keeps the last seven entries. */
  const HistoryLimit: nat := 7

  /** loadSectionData: the titled section of the date's first record, or null when the
      key, the record or the section is missing. */
  function LoadSectionData(stored: Option<seq<DailyRecord>>, date: Day, title: string): (r: Option<SectionData>)
    ensures stored.None? ==> r.None?
    ensures stored.Some? ==>
      (r.None? <==> !HasRecord(stored.value, date) || !HasSection(stored.value[RecordIndex(stored.value, date)].sections, title))
    ensures r.Some? ==> stored.Some? && HasRecord(stored.value, date)
    ensures r.Some? ==>
      var sections := stored.value[RecordIndex(stored.value, date)].sections;
      r.value == sections[SectionIndex(sections, title)] && r.value.title == title
  {
    match stored
    case None => None
    case Some(records) =>
      match RecordFor(records, date)
      case None => None
      case Some(rec) => SectionFor(rec.sections, title)
  }

  /** getDailyRecord: the first record of the date, or null. */
  function GetDailyRecord(stored: Option<seq<DailyRecord>>, date: Day): (r: Option<DailyRecord>)
    ensures r.None? <==> stored.None? || !HasRecord(stored.value, date)
    ensures r.Some? ==> stored.Some? && r.value == stored.value[RecordIndex(stored.value, date)] && r.value.date == date
  {
    match stored
    case None => None
    case Some(records) => RecordFor(records, date)
  }

  /** The dashboard's record lookup and the storage helper's agree on every input. */
  lemma GetDailyRecordAgrees(stored: Option<seq<DailyRecord>>, date: Day)
    ensures GetDailyRecord(stored, date) == GetFromStorage.GetDailyRecordByDate(stored, date)
  {
  }

  /** updateSectionGoals' in-memory step: the records with one section's goals replaced,
      or None (the `return false` paths) when the date or the section is missing. */
  function WithSectionGoals(records: seq<DailyRecord>, date: Day, title: string, goals: seq<Goal>): (r: Option<seq<DailyRecord>>)
    ensures r.None? <==> !HasRecord(records, date) || !HasSection(records[RecordIndex(records, date)].sections, title)
    ensures r.Some? ==> |r.value| == |records|
    ensures r.Some? ==>
      var ri := RecordIndex(records, date);
      var prior := records[ri];
      var si := SectionIndex(prior.sections, title);
      var updated := r.value[ri];
      && (forall k :: 0 <= k < |records| && k != ri ==> r.value[k] == records[k])
      && updated.date == prior.date
      && |updated.sections| == |prior.sections|
      && (forall j :: 0 <= j < |prior.sections| && j != si ==> updated.sections[j] == prior.sections[j])
      && updated.sections[si] == prior.sections[si].(goals := goals)
  {
    var ri := RecordIndex(records, date);
    if ri == -1 then None
    else
      var rec := records[ri];
      var si := SectionIndex(rec.sections, title);
      if si == -1 then None
      else Some(records[ri := rec.(sections := rec.sections[si := rec.sections[si].(goals := goals)])])
  }

  /** After a successful update, loading the section gives the old one with the new goals:
      title, colour and both scores as they were, not recomputed. */
  lemma UpdateThenLoad(records: seq<DailyRecord>, date: Day, title: string, goals: seq<Goal>)
    requires WithSectionGoals(records, date, title, goals).Some?
    ensures var prior := LoadSectionData(Some(records), date, title);
      prior.Some? && LoadSectionData(WithSectionGoals(records, date, title, goals), date, title) == Some(prior.value.(goals := goals))
  {
    var ri := RecordIndex(records, date);
    var rec := records[ri];
    var si := SectionIndex(rec.sections, title);
    var section := rec.sections[si].(goals := goals);
    RecordIndexReplace(records, ri, rec.(sections := rec.sections[si := section]), date);
    SectionIndexReplace(rec.sections, si, section, title);
  }

  /** updateSectionGoals: writes the updated records and reports true, or reports false
      and writes nothing. */
  method UpdateSectionGoals(store: AppStorage, date: Day, title: string, goals: seq<Goal>) returns (ok: bool)
    modifies store`dailyRecords
    ensures old(store.dailyRecords).None? ==> !ok
    ensures old(store.dailyRecords).Some? ==>
      var updated := WithSectionGoals(old(store.dailyRecords).value, date, title, goals);
      ok == updated.Some? && (ok ==> store.dailyRecords == updated)
    ensures !ok ==> store.dailyRecords == old(store.dailyRecords)
  {
    if store.dailyRecords.None? {
      return false;
    }
    var updated := WithSectionGoals(store.dailyRecords.value, date, title, goals);
    if updated.None? {
      return false;
    }
    store.dailyRecords := updated;
    ok := true;
  }

  /** resetDailyGoals: clears every completed flag of the stored "goals", when present. */
  method ResetDailyGoals(store: AppStorage)
    modifies store`goals
    ensures old(store.goals).None? ==> store.goals.None?
    ensures old(store.goals).Some? ==> store.goals == Some(ResetGoals(old(store.goals).value))
  {
    if store.goals.Some? {
      store.goals := Some(ResetGoals(store.goals.value));
    }
  }

  predicate IsCompleted(g: Goal) {
    g.completed
  }

  /** The snapshot sections of one entry: each section's goals, total, and the total of
      those the test counts as done. */
  function Rollups(sections: seq<Section>, goals: seq<Goal>, done: Goal -> bool): (r: seq<SectionData>)
    ensures |r| == |sections|
    ensures forall i :: 0 <= i < |r| ==> r[i] == SectionRollup(sections[i], goals, done)
  {
    seq(|sections|, i requires 0 <= i < |sections| => SectionRollup(sections[i], goals, done))
  }

  /** The entry storeCompletedGoals appends for `today`. */
  function CompletionEntry(goals: seq<Goal>, sections: seq<Section>, today: Day): (r: DailyCompletion)
    ensures r.date == today
    ensures r.completedGoals == CompletedGoalIds(goals)
    ensures forall id :: id in r.completedGoals <==> exists g :: g in goals && g.completed && g.id == id
    ensures |r.sectionData| == |sections|
    ensures forall i :: 0 <= i < |sections| ==>
      && r.sectionData[i].title == sections[i].title
      && r.sectionData[i].color == sections[i].color
      && (forall g :: g in r.sectionData[i].goals <==> g in goals && g.sectionTitle == sections[i].title)
      && r.sectionData[i].totalScore == TotalScore(r.sectionData[i].goals)
      && r.sectionData[i].completedScore == CompletedScore(r.sectionData[i].goals)
    ensures forall i :: 0 <= i < |sections| ==> r.sectionData[i] == SectionRollup(sections[i], goals, IsCompleted)
  {
    var data := Rollups(sections, goals, IsCompleted);
    forall i | 0 <= i < |sections|
      ensures data[i].completedScore == CompletedScore(data[i].goals)
    {
      assert Filter(data[i].goals, IsCompleted) == Filter(data[i].goals, (g: Goal) => g.completed) by {
        FilterSame(data[i].goals);
      }
      CompletedScoreIsTotalOfCompleted(data[i].goals);
    }
    DailyCompletion(today, CompletedGoalIds(goals), data)
  }

  lemma {:induction false} FilterSame(goals: seq<Goal>)
    ensures Filter(goals, IsCompleted) == Filter(goals, (g: Goal) => g.completed)
  {
    if goals != [] {
      FilterSame(goals[1..]);
    }
  }

  /** storeCompletedGoals: with both "goals" and "sections" present, appends today's entry
      and keeps the last seven; otherwise leaves the log as it is. */
  method StoreCompletedGoals(store: AppStorage, nowMs: int)
    modifies store`completionHistory
    ensures old(store.goals).Some? && old(store.sections).Some? ==>
      store.completionHistory == Some(BoundedAppend(old(store.completionHistory).GetOr([]),
        CompletionEntry(store.goals.value, store.sections.value, DayOf(nowMs)), HistoryLimit))
    ensures !(old(store.goals).Some? && old(store.sections).Some?) ==>
      store.completionHistory == old(store.completionHistory)
  {
    if store.goals.Some? && store.sections.Some? {
      var goals, sections := store.goals.value, store.sections.value;
      var history := store.completionHistory.GetOr([]);
      var entry := CompletionEntry(goals, sections, DayOf(nowMs));
      store.completionHistory := Some(BoundedAppend(history, entry, HistoryLimit));
    }
  }

  /** The entry's completed-goal lists, in history order. */
  function CompletedLists(history: seq<DailyCompletion>): (r: seq<seq<GoalId>>)
    ensures |r| == |history|
    ensures forall i :: 0 <= i < |r| ==> r[i] == history[i].completedGoals
  {
    seq(|history|, i requires 0 <= i < |history| => history[i].completedGoals)
  }

  /** One history entry's section summary: the listed ids count as completed. */
  function DayRollup(sections: seq<Section>, goals: seq<Goal>, day: DailyCompletion): seq<SectionData> {
    Rollups(sections, goals, (g: Goal) => g.id in day.completedGoals)
  }

  function CompletionDate(day: DailyCompletion): Day {
    day.date
  }

  /** `dailyCompletions`: each entry's summary under its date, the later entry winning. */
  function DailyCompletionsOf(history: seq<DailyCompletion>, sections: seq<Section>, goals: seq<Goal>): map<Day, seq<SectionData>> {
    LastWins(history, CompletionDate, (day: DailyCompletion) => DayRollup(sections, goals, day))
  }

  /** What getWeeklyStats returns when all three keys are present. */
  function WeeklyStatsOf(history: seq<DailyCompletion>, goals: seq<Goal>, sections: seq<Section>): WeeklyStats {
    var lists := CompletedLists(history);
    WeeklyStats(MostCompleted(lists, goals), LeastCompleted(lists, goals), DailyCompletionsOf(history, sections, goals))
  }

  const EmptyStats := WeeklyStats([], [], map[])

  /** getWeeklyStats: the history `forEach` counts the ids and rolls up each entry's
      sections; the ranking, the tie sets and the names follow. */
  method GetWeeklyStats(store: AppStorage) returns (stats: WeeklyStats)
    ensures store.completionHistory.None? || store.goals.None? || store.sections.None? ==> stats == EmptyStats
    ensures store.completionHistory.Some? && store.goals.Some? && store.sections.Some? ==>
      stats == WeeklyStatsOf(store.completionHistory.value, store.goals.value, store.sections.value)
  {
    if store.completionHistory.None? || store.goals.None? || store.sections.None? {
      return EmptyStats;
    }
    var history, goals, sections := store.completionHistory.value, store.goals.value, store.sections.value;
    ghost var lists := CompletedLists(history);
    var order: seq<GoalId>, counts: map<GoalId, nat> := [], map[];
    var daily: map<Day, seq<SectionData>> := map[];
    var i := 0;
    while i < |history|
      invariant 0 <= i <= |history|
      invariant order == FirstOccurrences(Flatten(lists[..i]))
      invariant counts == Tally(Flatten(lists[..i]))
      invariant daily == DailyCompletionsOf(history[..i], sections, goals)
    {
      var day := history[i];
      order, counts := CountDay(Flatten(lists[..i]), order, counts, day.completedGoals);
      FlattenStep(lists, i);
      assert history[..i + 1][..i] == history[..i];
      daily := daily[day.date := DayRollup(sections, goals, day)];
      i := i + 1;
    }
    assert lists[..i] == lists;
    assert history[..i] == history;
    TallyCounts(Flatten(lists));
    FirstOccurrencesMembers(Flatten(lists));
    var ranked := SortByCount(Entries(order, counts));
    stats := WeeklyStats(GoalRefs(goals, TopOf(ranked)), GoalRefs(goals, BottomOf(ranked)), daily);
  }

  /** The weekly statistics state what the dashboard shows: the goals tied at the top and
      at the bottom of the completion counts, and per date the section summary of the
      last entry of that date, whose completed score never exceeds its total. */
  lemma WeeklyStatsExact(history: seq<DailyCompletion>, goals: seq<Goal>, sections: seq<Section>)
    ensures var stats := WeeklyStatsOf(history, goals, sections);
      var lists := CompletedLists(history);
      && (forall id :: (exists k :: 0 <= k < |stats.mostCompletedGoals| && stats.mostCompletedGoals[k].id == id)
            <==> IsMostCompleted(lists, id))
      && (forall id :: (exists k :: 0 <= k < |stats.leastCompletedGoals| && stats.leastCompletedGoals[k].id == id)
            <==> IsLeastCompleted(lists, id))
      && (forall k :: 0 <= k < |stats.mostCompletedGoals| ==>
            stats.mostCompletedGoals[k].name == GoalName(goals, stats.mostCompletedGoals[k].id))
      && (forall k :: 0 <= k < |stats.leastCompletedGoals| ==>
            stats.leastCompletedGoals[k].name == GoalName(goals, stats.leastCompletedGoals[k].id))
      && (forall d :: d in stats.dailyCompletions <==> exists k :: 0 <= k < |history| && history[k].date == d)
  {
    var stats := WeeklyStatsOf(history, goals, sections);
    var lists := CompletedLists(history);
    assert stats.mostCompletedGoals == MostCompleted(lists, goals);
    assert stats.leastCompletedGoals == LeastCompleted(lists, goals);
    assert stats.dailyCompletions == DailyCompletionsOf(history, sections, goals);
    MostCompletedExact(lists, goals);
    LeastCompletedExact(lists, goals);
    DailyCompletionDates(history, goals, sections);
  }

  /** The per-day summaries are keyed by exactly the dates of the history. */
  lemma DailyCompletionDates(history: seq<DailyCompletion>, goals: seq<Goal>, sections: seq<Section>)
    ensures forall d :: d in DailyCompletionsOf(history, sections, goals) <==> exists k :: 0 <= k < |history| && history[k].date == d
  {
    forall d ensures d in DailyCompletionsOf(history, sections, goals) <==> exists k :: 0 <= k < |history| && history[k].date == d {
      LastWinsAt(history, CompletionDate, (day: DailyCompletion) => DayRollup(sections, goals, day), d);
    }
  }

  /** The summary stored under a date is the one of the last entry of that date; with
      non-negative scores every completed score lies between 0 and its total. */
  lemma DailyCompletionAt(history: seq<DailyCompletion>, goals: seq<Goal>, sections: seq<Section>, d: Day)
    requires d in DailyCompletionsOf(history, sections, goals)
    ensures exists k :: (0 <= k < |history| && history[k].date == d
      && DailyCompletionsOf(history, sections, goals)[d] == DayRollup(sections, goals, history[k])
      && (forall j :: k < j < |history| ==> history[j].date != d))
    ensures NonNegativeScores(goals) ==> forall s | s in DailyCompletionsOf(history, sections, goals)[d] ::
      0 <= s.completedScore <= s.totalScore
  {
    LastWinsAt(history, CompletionDate, (day: DailyCompletion) => DayRollup(sections, goals, day), d);
  }

  /** An id's count is its number of occurrences over the entries' completed lists. */
  lemma CountIsOccurrences(history: seq<DailyCompletion>, id: GoalId)
    ensures id in Tally(Flatten(CompletedLists(history))) <==> Occurrences(CompletedLists(history), id) > 0
    ensures id in Tally(Flatten(CompletedLists(history))) ==>
      Tally(Flatten(CompletedLists(history)))[id] == Occurrences(CompletedLists(history), id)
  {
    TallyIsOccurrences(CompletedLists(history), id);
  }
}
