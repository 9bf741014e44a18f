/** The earlier dashboard manager of app/DashboardManager.tsx. Its history entries carry
    only a date and the completed ids, and its per-day summary has no goal lists. It is
    modelled over the values it reads from the "goals", "sections" and
    "completionHistory" keys. */
module LegacyDashboardManager {
  import opened Types
  import opened Seqs
  import opened Goals
  import opened Stats

  const HistoryLimit: nat := 7

  /** The entry shape of this file's own `DailyCompletion` interface. */
  datatype LegacyCompletion = LegacyCompletion(date: Day, completedGoals: seq<GoalId>)

  /** A section summary as this file builds it: `{...section, totalScore, completedScore}`. */
  datatype SectionScore = SectionScore(title: string, color: string, totalScore: int, completedScore: int)

  datatype LegacyWeeklyStats = LegacyWeeklyStats(
    mostCompletedGoals: seq<GoalRef>,
    leastCompletedGoals: seq<GoalRef>,
    dailyCompletions: map<Day, seq<SectionScore>>)

  /** resetDailyGoals: the value written back to "goals", or None when the key is
      missing and nothing is written. */
  function ResetStoredGoals(stored: Option<seq<Goal>>): (r: Option<seq<Goal>>)
    ensures r.None? <==> stored.None?
    ensures r.Some? ==> |r.value| == |stored.value|
    ensures r.Some? ==> forall i :: 0 <= i < |r.value| ==>
      !r.value[i].completed && r.value[i].(completed := stored.value[i].completed) == stored.value[i]
  {
    match stored
    case None => None
    case Some(goals) => Some(ResetGoals(goals))
  }

  /** Resetting a second time writes the same goals again. */
  lemma ResetStoredGoalsIdempotent(stored: Option<seq<Goal>>)
    ensures ResetStoredGoals(ResetStoredGoals(stored)) == ResetStoredGoals(stored)
  {
    if stored.Some? {
      ResetGoalsIdempotent(stored.value);
    }
  }

  /** storeCompletedGoals: the history written back (with "goals" present), or None when
      "goals" is missing and nothing is written. */
  function StoreCompletedGoals(goals: Option<seq<Goal>>, history: Option<seq<LegacyCompletion>>, today: Day): (r: Option<seq<LegacyCompletion>>)
    ensures r.None? <==> goals.None?
    ensures r.Some? ==> var prior := history.GetOr([]);
      |r.value| == if |prior| < HistoryLimit then |prior| + 1 else HistoryLimit
    ensures r.Some? ==> var prior := history.GetOr([]);
      && r.value[|r.value| - 1] == LegacyCompletion(today, CompletedGoalIds(goals.value))
      && r.value[..|r.value| - 1] == prior[|prior| + 1 - |r.value|..]
  {
    match goals
    case None => None
    case Some(gs) => Some(BoundedAppend(history.GetOr([]), LegacyCompletion(today, CompletedGoalIds(gs)), HistoryLimit))
  }

  function CompletedLists(history: seq<LegacyCompletion>): (r: seq<seq<GoalId>>)
    ensures |r| == |history|
    ensures forall i :: 0 <= i < |r| ==> r[i] == history[i].completedGoals
  {
    seq(|history|, i requires 0 <= i < |history| => history[i].completedGoals)
  }

  function ScoreOf(s: SectionData): SectionScore {
    SectionScore(s.title, s.color, s.totalScore, s.completedScore)
  }

  /** One entry's summary: per section the total score of its goals and the total of
      those whose id the entry lists. */
  function DayRollup(sections: seq<Section>, goals: seq<Goal>, day: LegacyCompletion): (r: seq<SectionScore>)
    ensures |r| == |sections|
    ensures forall i :: 0 <= i < |r| ==> r[i].title == sections[i].title && r[i].color == sections[i].color
    ensures forall i :: 0 <= i < |r| ==>
      var own := Filter(goals, (g: Goal) => g.sectionTitle == sections[i].title);
      r[i].totalScore == TotalScore(own)
      && r[i].completedScore == TotalScore(Filter(own, (g: Goal) => g.id in day.completedGoals))
    ensures NonNegativeScores(goals) ==> forall i :: 0 <= i < |r| ==> 0 <= r[i].completedScore <= r[i].totalScore
  {
    seq(|sections|, i requires 0 <= i < |sections| =>
      ScoreOf(SectionRollup(sections[i], goals, (g: Goal) => g.id in day.completedGoals)))
  }

  function CompletionDate(day: LegacyCompletion): Day {
    day.date
  }

  function DailyCompletionsOf(history: seq<LegacyCompletion>, sections: seq<Section>, goals: seq<Goal>): map<Day, seq<SectionScore>> {
    LastWins(history, CompletionDate, (day: LegacyCompletion) => DayRollup(sections, goals, day))
  }

  /** This file's least rule: the entries whose count equals the last one's, with no
      nonzero test. */
  function BottomOfAll(ranked: seq<Entry>): seq<Entry> {
    if |ranked| > 0 then Filter(ranked, (e: Entry) => e.count == ranked[|ranked| - 1].count) else []
  }

  /** What getWeeklyStats returns when all three keys are present. */
  function WeeklyStatsOf(history: seq<LegacyCompletion>, goals: seq<Goal>, sections: seq<Section>): LegacyWeeklyStats {
    var lists := CompletedLists(history);
    LegacyWeeklyStats(
      MostCompleted(lists, goals),
      GoalRefs(goals, BottomOfAll(Ranked(lists))),
      DailyCompletionsOf(history, sections, goals))
  }

  const EmptyStats := LegacyWeeklyStats([], [], map[])

  /** getWeeklyStats over the three stored values. */
  method GetWeeklyStats(history: Option<seq<LegacyCompletion>>, goals: Option<seq<Goal>>, sections: Option<seq<Section>>)
    returns (stats: LegacyWeeklyStats)
    ensures history.None? || goals.None? || sections.None? ==> stats == EmptyStats
    ensures history.Some? && goals.Some? && sections.Some? ==>
      stats == WeeklyStatsOf(history.value, goals.value, sections.value)
  {
    if history.None? || goals.None? || sections.None? {
      return EmptyStats;
    }
    var entries, gs, ss := history.value, goals.value, sections.value;
    ghost var lists := CompletedLists(entries);
    var order: seq<GoalId>, counts: map<GoalId, nat> := [], map[];
    var daily: map<Day, seq<SectionScore>> := map[];
    var i := 0;
    while i < |entries|
      invariant 0 <= i <= |entries|
      invariant order == FirstOccurrences(Flatten(lists[..i]))
      invariant counts == Tally(Flatten(lists[..i]))
      invariant daily == DailyCompletionsOf(entries[..i], ss, gs)
    {
      var day := entries[i];
      order, counts := CountDay(Flatten(lists[..i]), order, counts, day.completedGoals);
      FlattenStep(lists, i);
      assert entries[..i + 1][..i] == entries[..i];
      daily := daily[day.date := DayRollup(ss, gs, day)];
      i := i + 1;
    }
    assert lists[..i] == lists;
    assert entries[..i] == entries;
    TallyCounts(Flatten(lists));
    FirstOccurrencesMembers(Flatten(lists));
    var ranked := SortByCount(Entries(order, counts));
    stats := LegacyWeeklyStats(GoalRefs(gs, TopOf(ranked)), GoalRefs(gs, BottomOfAll(ranked)), daily);
  }

  /** Every counted id was completed at least once, so dropping the nonzero test changes
      nothing: this file's least list equals the other manager's. */
  lemma LeastAgreesWithNonzeroRule(lists: seq<seq<GoalId>>, goals: seq<Goal>)
    ensures GoalRefs(goals, BottomOfAll(Ranked(lists))) == LeastCompleted(lists, goals)
  {
    var ranked := Ranked(lists);
    if |ranked| > 0 {
      var last := ranked[|ranked| - 1].count;
      forall i | 0 <= i < |ranked| ensures ranked[i].count > 0 {
        RankedAreCounts(lists, ranked[i]);
      }
      FilterCongruent(ranked, (e: Entry) => e.count == last, (e: Entry) => e.count == last && e.count > 0);
    }
  }

  /** The legacy statistics list exactly the goals tied at the maximum and at the minimum
      count, and hold a summary for exactly the dates of the history. */
  lemma WeeklyStatsExact(history: seq<LegacyCompletion>, goals: seq<Goal>, sections: seq<Section>)
    ensures var stats := WeeklyStatsOf(history, goals, sections);
      var lists := CompletedLists(history);
      && (forall id :: (exists k :: 0 <= k < |stats.mostCompletedGoals| && stats.mostCompletedGoals[k].id == id)
            <==> IsMostCompleted(lists, id))
      && (forall id :: (exists k :: 0 <= k < |stats.leastCompletedGoals| && stats.leastCompletedGoals[k].id == id)
            <==> IsLeastCompleted(lists, id))
      && (forall d :: d in stats.dailyCompletions <==> exists k :: 0 <= k < |history| && history[k].date == d)
  {
    var stats := WeeklyStatsOf(history, goals, sections);
    var lists := CompletedLists(history);
    assert stats.mostCompletedGoals == MostCompleted(lists, goals);
    assert stats.leastCompletedGoals == GoalRefs(goals, BottomOfAll(Ranked(lists)));
    assert stats.dailyCompletions == DailyCompletionsOf(history, sections, goals);
    MostCompletedExact(lists, goals);
    LeastAgreesWithNonzeroRule(lists, goals);
    LeastCompletedExact(lists, goals);
    DailyCompletionDates(history, goals, sections);
  }

  /** The per-day summaries are keyed by exactly the dates of the history. */
  lemma DailyCompletionDates(history: seq<LegacyCompletion>, goals: seq<Goal>, sections: seq<Section>)
    ensures forall d :: d in DailyCompletionsOf(history, sections, goals) <==> exists k :: 0 <= k < |history| && history[k].date == d
  {
    forall d ensures d in DailyCompletionsOf(history, sections, goals) <==> exists k :: 0 <= k < |history| && history[k].date == d {
      LastWinsAt(history, CompletionDate, (day: LegacyCompletion) => DayRollup(sections, goals, day), d);
    }
  }
}
