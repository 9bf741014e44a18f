/** The goal editor of app/SectionScreen.tsx: one section of one day, its goals held in
    the screen state and written back into the stored daily records. */
module SectionScreen {
  import opened Types
  import opened Seqs
  import opened Records
  import opened Goals
  import opened Text
  import opened Storage

  /** The section saveGoals writes: the title and colour given, the goals, and both
      scores recomputed from those goals. */
  function Summary(title: string, color: string, goals: seq<Goal>): SectionData {
    SectionData(title, color, TotalScore(goals), CompletedScore(goals), goals)
  }

  /** saveGoals' in-memory step: the section of the date's first record is replaced;
      a missing section is appended to that record; a missing record is appended with
      the section as its only one. */
  function SaveGoalsInto(records: seq<DailyRecord>, date: Day, title: string, color: string, goals: seq<Goal>): (r: seq<DailyRecord>)
    ensures !HasRecord(records, date) ==> r == records + [DailyRecord(date, [Summary(title, color, goals)])]
    ensures HasRecord(records, date) ==> |r| == |records|
    ensures HasRecord(records, date) ==>
      var ri := RecordIndex(records, date);
      && (forall k :: 0 <= k < |records| && k != ri ==> r[k] == records[k])
      && r[ri].date == date
    ensures HasRecord(records, date) && !HasSection(records[RecordIndex(records, date)].sections, title) ==>
      var ri := RecordIndex(records, date);
      r[ri].sections == records[ri].sections + [Summary(title, color, goals)]
    ensures HasRecord(records, date) && HasSection(records[RecordIndex(records, date)].sections, title) ==>
      var ri := RecordIndex(records, date);
      var si := SectionIndex(records[ri].sections, title);
      && |r[ri].sections| == |records[ri].sections|
      && (forall j :: 0 <= j < |records[ri].sections| && j != si ==> r[ri].sections[j] == records[ri].sections[j])
      && r[ri].sections[si] == Summary(title, color, goals)
  {
    var ri := RecordIndex(records, date);
    var section := Summary(title, color, goals);
    if ri == -1 then records + [DailyRecord(date, [section])]
    else
      var rec := records[ri];
      var si := SectionIndex(rec.sections, title);
      if si == -1 then records[ri := rec.(sections := rec.sections + [section])]
      else records[ri := rec.(sections := rec.sections[si := section])]
  }

  /** loadGoals: the goals of the titled section of the date's first record, or none. */
  function LoadedGoals(stored: Option<seq<DailyRecord>>, date: Day, title: string): (r: seq<Goal>)
    ensures stored.None? ==> r == []
    ensures stored.Some? && !HasRecord(stored.value, date) ==> r == []
    ensures stored.Some? && HasRecord(stored.value, date) ==>
      var sections := stored.value[RecordIndex(stored.value, date)].sections;
      r == if HasSection(sections, title) then sections[SectionIndex(sections, title)].goals else []
  {
    match stored
    case None => []
    case Some(records) =>
      match RecordFor(records, date)
      case None => []
      case Some(rec) =>
        match SectionFor(rec.sections, title)
        case None => []
        case Some(s) => s.goals
  }

  /** After saving, loading the same date and section gives back the saved goals, and
      the stored section's scores are the sums over them. */
  lemma SaveThenLoad(records: seq<DailyRecord>, date: Day, title: string, color: string, goals: seq<Goal>)
    ensures LoadedGoals(Some(SaveGoalsInto(records, date, title, color, goals)), date, title) == goals
    ensures var saved := SaveGoalsInto(records, date, title, color, goals);
      HasRecord(saved, date) &&
      var sections := saved[RecordIndex(saved, date)].sections;
      HasSection(sections, title) &&
      sections[SectionIndex(sections, title)] == Summary(title, color, goals)
  {
    var saved := SaveGoalsInto(records, date, title, color, goals);
    var ri := SavedSectionFound(records, date, title, color, goals);
    assert HasRecord(saved, date);
    assert HasSection(saved[ri].sections, title);
  }

  /** The index the saved date is found at, where the saved section is the first of
      its title. */
  lemma SavedSectionFound(records: seq<DailyRecord>, date: Day, title: string, color: string, goals: seq<Goal>) returns (ri: int)
    ensures var saved := SaveGoalsInto(records, date, title, color, goals);
      && 0 <= ri < |saved| && RecordIndex(saved, date) == ri
      && var si := SectionIndex(saved[ri].sections, title);
      && 0 <= si && saved[ri].sections[si] == Summary(title, color, goals)
  {
    var section := Summary(title, color, goals);
    ri := RecordIndex(records, date);
    if ri == -1 {
      RecordIndexAppend(records, DailyRecord(date, [section]), date);
      assert [section][0].title == title;
      ri := |records|;
    } else {
      var rec := records[ri];
      var si := SectionIndex(rec.sections, title);
      if si == -1 {
        RecordIndexReplace(records, ri, rec.(sections := rec.sections + [section]), date);
        SectionIndexAppend(rec.sections, section, title);
      } else {
        RecordIndexReplace(records, ri, rec.(sections := rec.sections[si := section]), date);
        SectionIndexReplace(rec.sections, si, section, title);
      }
    }
  }

  /** Saving leaves the record of every other date as the lookups see it. */
  lemma SaveKeepsOtherDates(records: seq<DailyRecord>, date: Day, title: string, color: string, goals: seq<Goal>, other: Day)
    requires other != date
    ensures RecordFor(SaveGoalsInto(records, date, title, color, goals), other) == RecordFor(records, other)
  {
    var section := Summary(title, color, goals);
    var ri := RecordIndex(records, date);
    if ri == -1 {
      RecordIndexAppend(records, DailyRecord(date, [section]), other);
    } else {
      var rec := records[ri];
      var si := SectionIndex(rec.sections, title);
      var rec' := if si == -1 then rec.(sections := rec.sections + [section]) else rec.(sections := rec.sections[si := section]);
      RecordIndexReplace(records, ri, rec', other);
    }
  }

  /** handleAddGoal's list: the goals followed by one new, uncompleted goal whose title is
      the trimmed name. */
  function AddGoal(goals: seq<Goal>, id: GoalId, name: string, score: int, sectionTitle: string, nowMs: int): (r: seq<Goal>)
    ensures |r| == |goals| + 1 && r[..|goals|] == goals
    ensures r[|goals|] == Goal(id, Trim(name), score, false, sectionTitle, nowMs)
  {
    var g := Goal(id, Trim(name), score, false, sectionTitle, nowMs);
    assert (goals + [g])[..|goals|] == goals;
    goals + [g]
  }

  /** Adding a goal raises the section's total by its score and leaves the completed
      score alone, the new goal being uncompleted. */
  lemma AddGoalScores(goals: seq<Goal>, id: GoalId, name: string, score: int, sectionTitle: string, nowMs: int)
    ensures var r := AddGoal(goals, id, name, score, sectionTitle, nowMs);
      TotalScore(r) == TotalScore(goals) + score && CompletedScore(r) == CompletedScore(goals)
  {
    var g := Goal(id, Trim(name), score, false, sectionTitle, nowMs);
    TotalScoreAppend(goals, [g]);
    CompletedScoreAppend(goals, [g]);
    TotalScoreOne(g);
  }

  /** handleUpdateGoal's list: the goal whose id is the edited one gets the name and the
      score (the name untrimmed); nothing else changes. With no goal being edited
      (`editGoalId` null) nothing matches. */
  function UpdateGoal(goals: seq<Goal>, editId: Option<GoalId>, name: string, score: int): (r: seq<Goal>)
    ensures |r| == |goals|
    ensures forall i :: 0 <= i < |r| ==> r[i].(title := goals[i].title, score := goals[i].score) == goals[i]
    ensures forall i :: 0 <= i < |r| ==>
      if editId == Some(goals[i].id) then r[i].title == name && r[i].score == score else r[i] == goals[i]
  {
    seq(|goals|, i requires 0 <= i < |goals| =>
      if editId == Some(goals[i].id) then goals[i].(title := name, score := score) else goals[i])
  }

  /** handleDeleteGoal's list: the goals with another id, in order. */
  function DeleteGoal(goals: seq<Goal>, id: GoalId): (r: seq<Goal>)
    ensures IsSubsequence(r, goals)
    ensures forall i :: 0 <= i < |r| ==> r[i].id != id
    ensures forall g :: g in goals && g.id != id ==> g in r
    ensures forall g :: multiset(r)[g] == if g.id != id then multiset(goals)[g] else 0
  {
    FilterIsSubsequence(goals, (g: Goal) => g.id != id);
    FilterMultiset(goals, (g: Goal) => g.id != id);
    Filter(goals, (g: Goal) => g.id != id)
  }

  /** handleToggleGoal's list: the goals of that id are flipped, the others kept. */
  function ToggleGoal(goals: seq<Goal>, id: GoalId): (r: seq<Goal>)
    ensures |r| == |goals|
    ensures forall i :: 0 <= i < |r| ==> r[i].(completed := goals[i].completed) == goals[i]
    ensures forall i :: 0 <= i < |r| ==> (r[i].completed != goals[i].completed <==> goals[i].id == id)
  {
    seq(|goals|, i requires 0 <= i < |goals| =>
      if goals[i].id == id then goals[i].(completed := !goals[i].completed) else goals[i])
  }

  /** Toggling the same goal twice restores the list. */
  lemma ToggleTwice(goals: seq<Goal>, id: GoalId)
    ensures ToggleGoal(ToggleGoal(goals, id), id) == goals
  {
  }

  /** Toggling never changes the section's total score. */
  lemma {:induction false} ToggleKeepsTotal(goals: seq<Goal>, id: GoalId)
    ensures TotalScore(ToggleGoal(goals, id)) == TotalScore(goals)
  {
    if goals != [] {
      var n := |goals| - 1;
      var t := ToggleGoal(goals, id);
      assert t[..n] == ToggleGoal(goals[..n], id);
      ToggleKeepsTotal(goals[..n], id);
      assert t[n].score == goals[n].score;
    }
  }

  /** Toggling the one goal of an id moves its score into or out of the completed score. */
  lemma {:induction false} ToggleMovesScore(goals: seq<Goal>, id: GoalId, k: nat)
    requires k < |goals| && goals[k].id == id
    requires forall j :: 0 <= j < |goals| && j != k ==> goals[j].id != id
    ensures CompletedScore(ToggleGoal(goals, id)) ==
      CompletedScore(goals) + (if goals[k].completed then -goals[k].score else goals[k].score)
  {
    var t := ToggleGoal(goals, id);
    assert goals == goals[..k] + [goals[k]] + goals[k + 1..];
    assert t == t[..k] + [t[k]] + t[k + 1..];
    assert t[..k] == goals[..k];
    assert t[k + 1..] == goals[k + 1..];
    CompletedScoreAppend(goals[..k] + [goals[k]], goals[k + 1..]);
    CompletedScoreAppend(goals[..k], [goals[k]]);
    CompletedScoreAppend(t[..k] + [t[k]], t[k + 1..]);
    CompletedScoreAppend(t[..k], [t[k]]);
    TotalScoreOne(goals[k]);
    TotalScoreOne(t[k]);
  }

  /** The goal editor's state. */
  class Screen {
    /** The route parameters: the section's title, its colour, the date shown, and
        whether that date is in the past. */
    const color: string
    const isHistoricalView: bool
    var sectionTitle: string
    var selectedDate: Day
    /** The goals on screen, and the modal's fields. */
    var goals: seq<Goal>
    var modalVisible: bool
    var goalName: string
    var goalScore: int
    var editGoalId: Option<GoalId>
    var activeGoal: Option<GoalId>

    /** Mounting the screen: empty lists and fields, the section title from the route. */
    constructor (title: string, color: string, date: Day, isHistorical: bool)
      ensures this.color == color && isHistoricalView == isHistorical
      ensures sectionTitle == title && selectedDate == date
      ensures goals == [] && !modalVisible && goalName == "" && goalScore == 1
      ensures editGoalId == None && activeGoal == None
    {
      this.color, isHistoricalView := color, isHistorical;
      sectionTitle, selectedDate := title, date;
      goals, modalVisible, goalName, goalScore := [], false, "", 1;
      editGoalId, activeGoal := None, None;
    }

    /** loadGoals. */
    method LoadGoals(store: AppStorage)
      modifies this`goals
      ensures goals == LoadedGoals(store.dailyRecords, selectedDate, sectionTitle)
    {
      goals := LoadedGoals(store.dailyRecords, selectedDate, sectionTitle);
    }

    /** saveGoals: the stored records (none yet counts as empty) with this section
        replaced or added. */
    method SaveGoals(store: AppStorage, updated: seq<Goal>)
      modifies store`dailyRecords
      ensures store.dailyRecords == Some(SaveGoalsInto(old(store.Records()), selectedDate, sectionTitle, color, updated))
    {
      store.dailyRecords := Some(SaveGoalsInto(store.Records(), selectedDate, sectionTitle, color, updated));
    }

    /** closeModal. */
    method CloseModal()
      modifies this`modalVisible, this`goalName, this`goalScore, this`editGoalId, this`activeGoal
      ensures !modalVisible && goalName == "" && goalScore == 1 && editGoalId == None && activeGoal == None
    {
      modalVisible, goalName, goalScore, editGoalId, activeGoal := false, "", 1, None, None;
    }

    /** openModal: in the past it only alerts. For an edit of a given (non-empty) id the
        fields take that goal's name and score, a missing goal or a zero score falling
        back to "" and 1; otherwise the fields are cleared. */
    method OpenModal(edit: bool, id: Option<GoalId>) returns (outcome: Outcome)
      modifies this`modalVisible, this`goalName, this`goalScore, this`editGoalId
      ensures isHistoricalView ==> outcome == HistoricalEditRejected && unchanged(this)
      ensures !isHistoricalView ==> outcome == Opened && modalVisible
      ensures !isHistoricalView && edit && id.Some? && id.value != "" ==>
        var found := GoalFor(old(goals), id.value);
        && goalName == (if found.Some? then found.value.title else "")
        && goalScore == (if found.Some? && found.value.score != 0 then found.value.score else 1)
        && editGoalId == id
      ensures !isHistoricalView && !(edit && id.Some? && id.value != "") ==>
        goalName == "" && goalScore == 1 && editGoalId == None
    {
      if isHistoricalView {
        return HistoricalEditRejected;
      }
      if edit && id.Some? && id.value != "" {
        var found := GoalFor(goals, id.value);
        goalName := if found.Some? then found.value.title else "";
        goalScore := if found.Some? && found.value.score != 0 then found.value.score else 1;
        editGoalId := id;
      } else {
        goalName, goalScore, editGoalId := "", 1, None;
      }
      modalVisible := true;
      outcome := Opened;
    }

    /** handleAddGoal: refused in the past and for a blank name; otherwise the new goal is
        appended, saved, shown, and the modal closed. */
    method HandleAddGoal(store: AppStorage, freshId: GoalId, nowMs: int) returns (outcome: Outcome)
      modifies this`goals, this`modalVisible, this`goalName, this`goalScore, this`editGoalId, this`activeGoal
      modifies store`dailyRecords
      ensures isHistoricalView ==> outcome == HistoricalEditRejected
      ensures !isHistoricalView && Trim(old(goalName)) == [] ==> outcome == EmptyTitle
      ensures outcome != Saved ==> unchanged(this) && unchanged(store)
      ensures outcome == Saved <==> !isHistoricalView && Trim(old(goalName)) != []
      ensures outcome == Saved ==>
        var updated := AddGoal(old(goals), freshId, old(goalName), old(goalScore), sectionTitle, nowMs);
        && goals == updated
        && store.dailyRecords == Some(SaveGoalsInto(old(store.Records()), selectedDate, sectionTitle, color, updated))
        && !modalVisible && goalName == "" && goalScore == 1 && editGoalId == None && activeGoal == None
    {
      if isHistoricalView {
        return HistoricalEditRejected;
      }
      if Trim(goalName) == [] {
        return EmptyTitle;
      }
      var updated := AddGoal(goals, freshId, goalName, goalScore, sectionTitle, nowMs);
      ShowAndSave(store, updated);
      outcome := Saved;
    }

    /** The common end of a successful add or edit: the list shown, saved, and the modal
        closed. */
    method ShowAndSave(store: AppStorage, updated: seq<Goal>)
      modifies this`goals, this`modalVisible, this`goalName, this`goalScore, this`editGoalId, this`activeGoal
      modifies store`dailyRecords
      ensures goals == updated
      ensures store.dailyRecords == Some(SaveGoalsInto(old(store.Records()), selectedDate, sectionTitle, color, updated))
      ensures !modalVisible && goalName == "" && goalScore == 1 && editGoalId == None && activeGoal == None
    {
      goals := updated;
      SaveGoals(store, updated);
      CloseModal();
    }

    /** handleUpdateGoal: refused in the past and for a blank name; otherwise the edited
        goal takes the (untrimmed) name and the score, and the list is shown and saved. */
    method HandleUpdateGoal(store: AppStorage) returns (outcome: Outcome)
      modifies this`goals, this`modalVisible, this`goalName, this`goalScore, this`editGoalId, this`activeGoal
      modifies store`dailyRecords
      ensures outcome != Saved ==> unchanged(this) && unchanged(store)
      ensures isHistoricalView ==> outcome == HistoricalEditRejected
      ensures !isHistoricalView && Trim(old(goalName)) == [] ==> outcome == EmptyTitle
      ensures outcome == Saved <==> !isHistoricalView && Trim(old(goalName)) != []
      ensures outcome == Saved ==>
        var updated := UpdateGoal(old(goals), old(editGoalId), old(goalName), old(goalScore));
        && goals == updated
        && store.dailyRecords == Some(SaveGoalsInto(old(store.Records()), selectedDate, sectionTitle, color, updated))
        && !modalVisible && goalName == "" && goalScore == 1 && editGoalId == None && activeGoal == None
    {
      if isHistoricalView {
        return HistoricalEditRejected;
      }
      if Trim(goalName) == [] {
        return EmptyTitle;
      }
      var updated := UpdateGoal(goals, editGoalId, goalName, goalScore);
      ShowAndSave(store, updated);
      outcome := Saved;
    }

    /** handleDeleteGoal: refused in the past; otherwise the goals of that id are
        removed, the rest shown and saved, and no goal stays active. */
    method HandleDeleteGoal(store: AppStorage, id: GoalId) returns (outcome: Outcome)
      modifies this`goals, this`activeGoal, store`dailyRecords
      ensures isHistoricalView ==> outcome == HistoricalEditRejected && unchanged(this) && unchanged(store)
      ensures !isHistoricalView ==>
        var updated := DeleteGoal(old(goals), id);
        && outcome == Saved && goals == updated && activeGoal == None
        && store.dailyRecords == Some(SaveGoalsInto(old(store.Records()), selectedDate, sectionTitle, color, updated))
    {
      if isHistoricalView {
        return HistoricalEditRejected;
      }
      var updated := DeleteGoal(goals, id);
      goals := updated;
      SaveGoals(store, updated);
      activeGoal := None;
      outcome := Saved;
    }

    /** handleToggleGoal: silently ignored in the past; otherwise the goal of that id is
        flipped, and the list shown and saved. */
    method HandleToggleGoal(store: AppStorage, id: GoalId)
      modifies this`goals, store`dailyRecords
      ensures isHistoricalView ==> unchanged(this) && unchanged(store)
      ensures !isHistoricalView ==>
        var updated := ToggleGoal(old(goals), id);
        && goals == updated
        && store.dailyRecords == Some(SaveGoalsInto(old(store.Records()), selectedDate, sectionTitle, color, updated))
    {
      if isHistoricalView {
        return;
      }
      var updated := ToggleGoal(goals, id);
      goals := updated;
      SaveGoals(store, updated);
    }
  }
}
