/** The summary of the past week that the feedback screen
    (app/FeebackScreen/FeedbackModal.tsx) serialises for the feedback service: per
    record its date, per section its scores, goal counts and colour, and per goal its
    title, completion and score. */
module FeedbackSummary {
  import opened Types
  import opened Seqs

  datatype GoalSummary = GoalSummary(title: string, completed: bool, score: int)

  datatype SectionSummary = SectionSummary(
    title: string,
    totalScore: int,
    completedScore: int,
    goalsCompleted: nat,
    totalGoals: nat,
    color: string,
    goals: seq<GoalSummary>)

  datatype RecordSummary = RecordSummary(date: Day, sections: seq<SectionSummary>)

  function SummariseGoal(g: Goal): (r: GoalSummary)
    ensures r.title == g.title && r.completed == g.completed && r.score == g.score
  {
    GoalSummary(g.title, g.completed, g.score)
  }

  predicate GoalDone(g: Goal) {
    g.completed
  }

  predicate SummaryDone(g: GoalSummary) {
    g.completed
  }

  /** Projecting the goals keeps their number and order. */
  function SummariseGoals(goals: seq<Goal>): (r: seq<GoalSummary>)
    ensures |r| == |goals|
    ensures forall i :: 0 <= i < |r| ==> r[i] == SummariseGoal(goals[i])
  {
    seq(|goals|, i requires 0 <= i < |goals| => SummariseGoal(goals[i]))
  }

  /** One section's summary: its fields copied, the number of completed goals, the number
      of goals, and the projected goal list. */
  function SummariseSection(s: SectionData): (r: SectionSummary)
    ensures r.title == s.title && r.totalScore == s.totalScore && r.completedScore == s.completedScore
    ensures r.color == s.color
    ensures r.totalGoals == |s.goals| && r.goals == SummariseGoals(s.goals)
    ensures r.goalsCompleted == |Filter(s.goals, GoalDone)| <= r.totalGoals
  {
    SectionSummary(s.title, s.totalScore, s.completedScore,
      |Filter(s.goals, GoalDone)|, |s.goals|, s.color, SummariseGoals(s.goals))
  }

  /** formattedData: one summary per record with the same date, and its sections
      summarised in the same order. */
  function FormatWeeklyData(records: seq<DailyRecord>): (r: seq<RecordSummary>)
    ensures |r| == |records|
    ensures forall i :: 0 <= i < |r| ==> r[i].date == records[i].date && |r[i].sections| == |records[i].sections|
    ensures forall i, j :: 0 <= i < |r| && 0 <= j < |r[i].sections| ==>
      r[i].sections[j] == SummariseSection(records[i].sections[j])
  {
    seq(|records|, i requires 0 <= i < |records| =>
      RecordSummary(records[i].date,
        seq(|records[i].sections|, j requires 0 <= j < |records[i].sections| => SummariseSection(records[i].sections[j]))))
  }

  /** Projecting keeps completion: the completed goals of a list and of its summary are
      equally many. */
  lemma {:induction false} SummariseKeepsDone(goals: seq<Goal>)
    ensures |Filter(SummariseGoals(goals), SummaryDone)| == |Filter(goals, GoalDone)|
  {
    if goals != [] {
      SummariseKeepsDone(goals[1..]);
      assert SummariseGoals(goals)[1..] == SummariseGoals(goals[1..]);
    }
  }

  /** A section summary is self-consistent: its counts are those of its own goal list. */
  lemma SectionSummaryConsistent(s: SectionData)
    ensures var r := SummariseSection(s);
      r.totalGoals == |r.goals| && r.goalsCompleted == |Filter(r.goals, SummaryDone)|
  {
    SummariseKeepsDone(s.goals);
  }
}
