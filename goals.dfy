/** The score calculator and the goal-list computations shared by the screens and
    the dashboard managers. */
module Goals {
  import opened Types
  import opened Seqs

  predicate NonNegativeScores(goals: seq<Goal>) {
    forall g | g in goals :: g.score >= 0
  }

  /** `goals.reduce((total, goal) => total + goal.score, 0)`: a left fold. */
  function TotalScore(goals: seq<Goal>): (r: int)
    ensures NonNegativeScores(goals) ==> r >= 0
  {
    if goals == [] then 0
    else
      assert forall g | g in goals[..|goals| - 1] :: g in goals;
      TotalScore(goals[..|goals| - 1]) + goals[|goals| - 1].score
  }

  /** `goals.reduce((total, goal) => goal.completed ? total + goal.score : total, 0)`. */
  function CompletedScore(goals: seq<Goal>): (r: int)
    ensures NonNegativeScores(goals) ==> 0 <= r <= TotalScore(goals)
  {
    if goals == [] then 0
    else
      assert forall g | g in goals[..|goals| - 1] :: g in goals;
      var prev := CompletedScore(goals[..|goals| - 1]);
      var g := goals[|goals| - 1];
      if g.completed then prev + g.score else prev
  }

  lemma {:induction false} TotalScoreAppend(a: seq<Goal>, b: seq<Goal>)
    ensures TotalScore(a + b) == TotalScore(a) + TotalScore(b)
  {
    if b == [] {
      assert a + b == a;
    } else {
      var b' := b[..|b| - 1];
      assert (a + b)[..|a + b| - 1] == a + b';
      TotalScoreAppend(a, b');
    }
  }

  lemma {:induction false} CompletedScoreAppend(a: seq<Goal>, b: seq<Goal>)
    ensures CompletedScore(a + b) == CompletedScore(a) + CompletedScore(b)
  {
    if b == [] {
      assert a + b == a;
    } else {
      var b' := b[..|b| - 1];
      assert (a + b)[..|a + b| - 1] == a + b';
      CompletedScoreAppend(a, b');
    }
  }

  lemma TotalScoreOne(g: Goal)
    ensures TotalScore([g]) == g.score
    ensures CompletedScore([g]) == if g.completed then g.score else 0
  {
    assert [g][..0] == [];
  }

  /** The total of the goals kept by any filter is at most the whole total. */
  lemma {:induction false} FilteredTotalAtMost(goals: seq<Goal>, p: Goal -> bool)
    ensures NonNegativeScores(goals) ==> 0 <= TotalScore(Filter(goals, p)) <= TotalScore(goals)
  {
    if goals != [] && NonNegativeScores(goals) {
      var rest := goals[1..];
      assert goals == [goals[0]] + rest;
      assert NonNegativeScores(rest) by {
        assert forall g | g in rest :: g in goals;
      }
      FilteredTotalAtMost(rest, p);
      TotalScoreAppend([goals[0]], rest);
      TotalScoreOne(goals[0]);
      var head := if p(goals[0]) then [goals[0]] else [];
      assert Filter(goals, p) == head + Filter(rest, p);
      TotalScoreAppend(head, Filter(rest, p));
      if p(goals[0]) { TotalScoreOne(goals[0]); } else { assert TotalScore(head) == 0; }
    }
  }

  /** The completed score is the total of the completed goals. */
  lemma {:induction false} CompletedScoreIsTotalOfCompleted(goals: seq<Goal>)
    ensures CompletedScore(goals) == TotalScore(Filter(goals, (g: Goal) => g.completed))
  {
    var p := (g: Goal) => g.completed;
    if goals != [] {
      var rest := goals[1..];
      assert goals == [goals[0]] + rest;
      CompletedScoreIsTotalOfCompleted(rest);
      CompletedScoreAppend([goals[0]], rest);
      TotalScoreOne(goals[0]);
      var head := if goals[0].completed then [goals[0]] else [];
      assert Filter(goals, p) == head + Filter(rest, p);
      TotalScoreAppend(head, Filter(rest, p));
      if goals[0].completed { TotalScoreOne(goals[0]); } else { assert TotalScore(head) == 0; }
    }
  }

  /** `goals.map((goal) => ({ ...goal, completed: false }))`. */
  function ResetGoals(goals: seq<Goal>): (r: seq<Goal>)
    ensures |r| == |goals|
    ensures forall i :: 0 <= i < |r| ==> !r[i].completed && r[i].(completed := goals[i].completed) == goals[i]
  {
    seq(|goals|, i requires 0 <= i < |goals| => goals[i].(completed := false))
  }

  /** Resetting a second time changes nothing more. */
  lemma ResetGoalsIdempotent(goals: seq<Goal>)
    ensures ResetGoals(ResetGoals(goals)) == ResetGoals(goals)
  {
  }

  /** After a reset nothing is completed and the total is unchanged. */
  lemma {:induction false} ResetGoalsScores(goals: seq<Goal>)
    ensures CompletedScore(ResetGoals(goals)) == 0
    ensures TotalScore(ResetGoals(goals)) == TotalScore(goals)
  {
    if goals != [] {
      var n := |goals| - 1;
      ResetGoalsScores(goals[..n]);
      assert ResetGoals(goals)[..n] == ResetGoals(goals[..n]);
    }
  }

  /** `goals.filter((goal) => goal.completed).map((goal) => goal.id)`. */
  function CompletedGoalIds(goals: seq<Goal>): (r: seq<GoalId>)
    ensures var done := Filter(goals, (g: Goal) => g.completed);
      |r| == |done| && forall i :: 0 <= i < |r| ==> r[i] == done[i].id
    ensures forall id :: id in r <==> exists g :: g in goals && g.completed && g.id == id
  {
    if goals == [] then []
    else
      assert forall g :: g in goals <==> g == goals[0] || g in goals[1..];
      (if goals[0].completed then [goals[0].id] else []) + CompletedGoalIds(goals[1..])
  }

  /** One section's summary over a flat goal list: the goals whose `sectionTitle` names it,
      their total, and the total of those `done` counts as completed. */
  function SectionRollup(section: Section, goals: seq<Goal>, done: Goal -> bool): (r: SectionData)
    ensures r.title == section.title && r.color == section.color
    ensures forall g :: g in r.goals <==> g in goals && g.sectionTitle == section.title
    ensures IsSubsequence(r.goals, goals)
    ensures forall g ::
      multiset(r.goals)[g] == if g.sectionTitle == section.title then multiset(goals)[g] else 0
    ensures r.totalScore == TotalScore(r.goals)
    ensures r.completedScore == TotalScore(Filter(r.goals, done))
    ensures NonNegativeScores(goals) ==> 0 <= r.completedScore <= r.totalScore
  {
    var sectionGoals := Filter(goals, (g: Goal) => g.sectionTitle == section.title);
    FilterIsSubsequence(goals, (g: Goal) => g.sectionTitle == section.title);
    FilterMultiset(goals, (g: Goal) => g.sectionTitle == section.title);
    FilteredTotalAtMost(sectionGoals, done);
    SectionData(section.title, section.color, TotalScore(sectionGoals),
                TotalScore(Filter(sectionGoals, done)), sectionGoals)
  }
}
