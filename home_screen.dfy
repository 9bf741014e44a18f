/** The home screen of app/index.tsx: the day's sections, the section editor with its
    empty-title and unique-title checks, saving sections while keeping their goals,
    and the once-per-day rollover. */
module HomeScreen {
  import opened Types
  import opened Seqs
  import opened Records
  import opened Text
  import opened Storage
  import Goals
  import Stats
  import DashboardManager

  const DefaultColor: string := "#000000"

  /** loadSections: today's sections when today's record has some, else yesterday's
      record's (even an empty list), else none. */
  function SectionsToShow(records: seq<DailyRecord>, today: Day, yesterday: Day): (r: seq<SectionData>)
    ensures HasRecord(records, today) && records[RecordIndex(records, today)].sections != [] ==>
      r == records[RecordIndex(records, today)].sections
    ensures !(HasRecord(records, today) && records[RecordIndex(records, today)].sections != []) ==>
      r == if HasRecord(records, yesterday) then records[RecordIndex(records, yesterday)].sections else []
  {
    var todayRecord := RecordFor(records, today);
    var yesterdayRecord := RecordFor(records, yesterday);
    if todayRecord.Some? && |todayRecord.value.sections| > 0 then todayRecord.value.sections
    else if yesterdayRecord.Some? then yesterdayRecord.value.sections
    else []
  }

  /** A new section: no goals and both scores 0. */
  function NewSection(title: string, color: string): (r: SectionData)
    ensures r.goals == [] && r.totalScore == 0 && r.completedScore == 0
    ensures r.title == title && r.color == color
  {
    SectionData(title, color, 0, 0, [])
  }

  /** handleAddSection's write: the section appended to the date's first record, or a
      new record holding only it. */
  function AddSectionToRecords(records: seq<DailyRecord>, date: Day, section: SectionData): (r: seq<DailyRecord>)
    ensures !HasRecord(records, date) ==> r == records + [DailyRecord(date, [section])]
    ensures HasRecord(records, date) ==>
      var ri := RecordIndex(records, date);
      && |r| == |records|
      && (forall k :: 0 <= k < |records| && k != ri ==> r[k] == records[k])
      && r[ri].date == date
      && r[ri].sections == records[ri].sections + [section]
  {
    var ri := RecordIndex(records, date);
    if ri == -1 then records + [DailyRecord(date, [section])]
    else records[ri := records[ri].(sections := records[ri].sections + [section])]
  }

  /** The sections shown after an add: those of the date's record, now ending in the new one. */
  lemma AddSectionShows(records: seq<DailyRecord>, date: Day, section: SectionData)
    ensures var r := AddSectionToRecords(records, date, section);
      RecordIndex(r, date) >= 0 && var shown := r[RecordIndex(r, date)].sections;
      shown != [] && shown[|shown| - 1] == section
  {
    var ri := RecordIndex(records, date);
    if ri == -1 {
      RecordIndexAppend(records, DailyRecord(date, [section]), date);
    } else {
      RecordIndexReplace(records, ri, records[ri].(sections := records[ri].sections + [section]), date);
    }
  }

  ghost predicate DistinctTitles(sections: seq<SectionData>) {
    forall i, j :: 0 <= i < j < |sections| ==> sections[i].title != sections[j].title
  }

  /** The add check's promise: a title no section holds keeps the titles distinct. */
  lemma AddKeepsTitlesDistinct(sections: seq<SectionData>, title: string, color: string)
    requires DistinctTitles(sections) && !HasSection(sections, title)
    ensures DistinctTitles(sections + [NewSection(title, color)])
  {
  }

  /** handleUpdateSection's duplicate test: a section other than the active one already
      has the title. */
  predicate TitleHeldByOther(sections: seq<SectionData>, title: string, active: string) {
    exists k :: 0 <= k < |sections| && sections[k].title == title && sections[k].title != active
  }

  /** handleUpdateSection's list: the sections titled as the active one take the new
      title and colour; goals, scores and every other section stay as they were. */
  function RenameSection(sections: seq<SectionData>, active: string, title: string, color: string): (r: seq<SectionData>)
    ensures |r| == |sections|
    ensures forall i :: 0 <= i < |r| ==> r[i].(title := sections[i].title, color := sections[i].color) == sections[i]
    ensures forall i :: 0 <= i < |r| ==>
      if sections[i].title == active then r[i].title == title && r[i].color == color else r[i] == sections[i]
  {
    seq(|sections|, i requires 0 <= i < |sections| =>
      if sections[i].title == active then sections[i].(title := title, color := color) else sections[i])
  }

  /** The update check's promise: when no section but the active one holds the new
      title, the titles stay distinct after the rename. */
  lemma RenameKeepsTitlesDistinct(sections: seq<SectionData>, active: string, title: string, color: string)
    requires DistinctTitles(sections) && !TitleHeldByOther(sections, title, active)
    ensures DistinctTitles(RenameSection(sections, active, title, color))
  {
    var r := RenameSection(sections, active, title, color);
    forall i, j | 0 <= i < j < |r| ensures r[i].title != r[j].title {
      if sections[i].title == active {
        assert sections[j].title != active;
        assert r[j] == sections[j];
      } else if sections[j].title == active {
        assert r[i] == sections[i];
      }
    }
  }

  /** handleDelete's list: the sections with another title, in order. */
  function DeleteSection(sections: seq<SectionData>, title: string): (r: seq<SectionData>)
    ensures IsSubsequence(r, sections)
    ensures forall i :: 0 <= i < |r| ==> r[i].title != title
    ensures forall s :: s in sections && s.title != title ==> s in r
    ensures forall s :: multiset(r)[s] == if s.title != title then multiset(sections)[s] else 0
  {
    FilterIsSubsequence(sections, (s: SectionData) => s.title != title);
    FilterMultiset(sections, (s: SectionData) => s.title != title);
    Filter(sections, (s: SectionData) => s.title != title)
  }

  /** saveSections' merge: each saved section takes the goals of the stored section of
      the same title, when there is one. */
  function PreserveGoals(updated: seq<SectionData>, stored: seq<SectionData>): (r: seq<SectionData>)
    ensures |r| == |updated|
    ensures forall i :: 0 <= i < |r| ==> r[i].(goals := updated[i].goals) == updated[i]
    ensures forall i :: 0 <= i < |r| ==>
      r[i].goals == if HasSection(stored, updated[i].title) then stored[SectionIndex(stored, updated[i].title)].goals
                    else updated[i].goals
  {
    seq(|updated|, i requires 0 <= i < |updated| =>
      match SectionFor(stored, updated[i].title)
      case Some(existing) => updated[i].(goals := existing.goals)
      case None => updated[i])
  }

  /** saveSections' write: the date's first record takes the merged sections, or a new
      record with the sections as given is appended. */
  function SaveSectionsInto(records: seq<DailyRecord>, date: Day, updated: seq<SectionData>): (r: seq<DailyRecord>)
    ensures !HasRecord(records, date) ==> r == records + [DailyRecord(date, updated)]
    ensures HasRecord(records, date) ==>
      var ri := RecordIndex(records, date);
      && |r| == |records|
      && (forall k :: 0 <= k < |records| && k != ri ==> r[k] == records[k])
      && r[ri] == DailyRecord(date, PreserveGoals(updated, records[ri].sections))
  {
    var ri := RecordIndex(records, date);
    if ri == -1 then records + [DailyRecord(date, updated)]
    else records[ri := records[ri].(sections := PreserveGoals(updated, records[ri].sections))]
  }

  /** Re-saving the stored sections of a record with distinct titles changes nothing. */
  lemma ResaveIsIdentity(records: seq<DailyRecord>, date: Day)
    requires HasRecord(records, date) && DistinctTitles(records[RecordIndex(records, date)].sections)
    ensures SaveSectionsInto(records, date, records[RecordIndex(records, date)].sections) == records
  {
    var ri := RecordIndex(records, date);
    var stored := records[ri].sections;
    var merged := PreserveGoals(stored, stored);
    forall i | 0 <= i < |stored| ensures merged[i] == stored[i] {
      assert HasSection(stored, stored[i].title);
      var si := SectionIndex(stored, stored[i].title);
      assert si == i;
    }
    assert merged == stored;
  }

  /** The home screen's state. */
  class Screen {
    var sections: seq<SectionData>
    var modalVisible: bool
    var sectionTitle: string
    var activeSectionTitle: string
    var sectionColor: string
    var selectedDate: Day

    /** Mounting the screen on today's date. */
    constructor (today: Day)
      ensures sections == [] && !modalVisible && sectionTitle == "" && activeSectionTitle == ""
      ensures sectionColor == DefaultColor && selectedDate == today
    {
      sections, modalVisible, sectionTitle, activeSectionTitle := [], false, "", "";
      sectionColor, selectedDate := DefaultColor, today;
    }

    /** loadSections: with the key present, shows today's or yesterday's sections
        (yesterday by the clock, today by the selected date); with it missing, keeps
        the list on screen. */
    method LoadSections(store: AppStorage, nowMs: int)
      modifies this`sections
      ensures store.dailyRecords.None? ==> sections == old(sections)
      ensures store.dailyRecords.Some? ==>
        sections == SectionsToShow(store.dailyRecords.value, selectedDate, DayOf(nowMs) - 1)
    {
      if store.dailyRecords.Some? {
        sections := SectionsToShow(store.dailyRecords.value, selectedDate, DayOf(nowMs) - 1);
      }
    }

    /** closeModal. */
    method CloseModal()
      modifies this`modalVisible, this`sectionTitle, this`sectionColor
      ensures !modalVisible && sectionTitle == "" && sectionColor == DefaultColor
    {
      modalVisible, sectionTitle, sectionColor := false, "", DefaultColor;
    }

    /** openModal: for an edit of a given (non-empty) title the fields take that
        section's title and colour, falling back to "" and the default colour; otherwise
        they are cleared. */
    method OpenModal(edit: bool, title: string)
      modifies this`modalVisible, this`sectionTitle, this`activeSectionTitle, this`sectionColor
      ensures modalVisible
      ensures edit && title != "" ==>
        var found := SectionFor(old(sections), title);
        && activeSectionTitle == (if found.Some? then found.value.title else "")
        && sectionTitle == activeSectionTitle
        && sectionColor == (if found.Some? && found.value.color != "" then found.value.color else DefaultColor)
      ensures !(edit && title != "") ==> activeSectionTitle == "" && sectionTitle == "" && sectionColor == DefaultColor
    {
      if edit && title != "" {
        var found := SectionFor(sections, title);
        activeSectionTitle := if found.Some? then found.value.title else "";
        sectionTitle := activeSectionTitle;
        sectionColor := if found.Some? && found.value.color != "" then found.value.color else DefaultColor;
      } else {
        activeSectionTitle, sectionTitle, sectionColor := "", "", DefaultColor;
      }
      modalVisible := true;
    }

    /** handleAddSection: refuses a blank title and a title already on screen; otherwise
        appends the section to the selected date's record and shows that record's
        sections. */
    method HandleAddSection(store: AppStorage) returns (outcome: Outcome)
      modifies this`sections, this`modalVisible, this`sectionTitle, this`sectionColor, store`dailyRecords
      ensures Trim(old(sectionTitle)) == [] ==> outcome == EmptyTitle
      ensures Trim(old(sectionTitle)) != [] && HasSection(old(sections), old(sectionTitle)) ==> outcome == DuplicateTitle
      ensures outcome == Saved <==> Trim(old(sectionTitle)) != [] && !HasSection(old(sections), old(sectionTitle))
      ensures outcome != Saved ==> unchanged(this) && unchanged(store)
      ensures outcome == Saved ==>
        var written := AddSectionToRecords(old(store.Records()), old(selectedDate), NewSection(old(sectionTitle), old(sectionColor)));
        var ri := RecordIndex(written, old(selectedDate));
        && store.dailyRecords == Some(written)
        && 0 <= ri && sections == written[ri].sections
        && !modalVisible && sectionTitle == "" && sectionColor == DefaultColor
    {
      if Trim(sectionTitle) == [] {
        return EmptyTitle;
      }
      if SectionFor(sections, sectionTitle).Some? {
        return DuplicateTitle;
      }
      AppendSection(store);
      outcome := Saved;
    }

    /** handleAddSection once both checks pass: appends the new section to the selected
        date's record, shows that record's sections and clears the modal. */
    method AppendSection(store: AppStorage)
      modifies this`sections, this`modalVisible, this`sectionTitle, this`sectionColor, store`dailyRecords
      ensures
        var written := AddSectionToRecords(old(store.Records()), old(selectedDate), NewSection(old(sectionTitle), old(sectionColor)));
        var ri := RecordIndex(written, old(selectedDate));
        && store.dailyRecords == Some(written)
        && 0 <= ri && sections == written[ri].sections
        && !modalVisible && sectionTitle == "" && sectionColor == DefaultColor
    {
      var section := NewSection(sectionTitle, sectionColor);
      var records := store.Records();
      var written := AddSectionToRecords(records, selectedDate, section);
      AddSectionShows(records, selectedDate, section);
      var ri := RecordIndex(written, selectedDate);
      store.dailyRecords := Some(written);
      sections := written[ri].sections;
      modalVisible, sectionTitle, sectionColor := false, "", DefaultColor;
    }

    /** saveSections. */
    method SaveSections(store: AppStorage, updated: seq<SectionData>)
      modifies store`dailyRecords
      ensures store.dailyRecords == Some(SaveSectionsInto(old(store.Records()), selectedDate, updated))
    {
      store.dailyRecords := Some(SaveSectionsInto(store.Records(), selectedDate, updated));
    }

    /** handleUpdateSection: refuses a blank title and a title held by another section;
        otherwise renames and recolours the active section, saves, and shows the renamed
        list. */
    method HandleUpdateSection(store: AppStorage) returns (outcome: Outcome)
      modifies this`sections, this`modalVisible, this`sectionTitle, this`sectionColor, store`dailyRecords
      ensures Trim(old(sectionTitle)) == [] ==> outcome == EmptyTitle
      ensures Trim(old(sectionTitle)) != [] && TitleHeldByOther(old(sections), old(sectionTitle), old(activeSectionTitle)) ==>
        outcome == DuplicateTitle
      ensures outcome == Saved <==>
        Trim(old(sectionTitle)) != [] && !TitleHeldByOther(old(sections), old(sectionTitle), old(activeSectionTitle))
      ensures outcome != Saved ==> unchanged(this) && unchanged(store)
      ensures outcome == Saved ==>
        var renamed := RenameSection(old(sections), old(activeSectionTitle), old(sectionTitle), old(sectionColor));
        && sections == renamed
        && store.dailyRecords == Some(SaveSectionsInto(old(store.Records()), old(selectedDate), renamed))
        && !modalVisible && sectionTitle == "" && sectionColor == DefaultColor
    {
      if Trim(sectionTitle) == [] {
        return EmptyTitle;
      }
      var title, active := sectionTitle, activeSectionTitle;
      var existing := FindIndex(sections, (s: SectionData) => s.title == title && s.title != active);
      if existing != -1 {
        assert sections[existing].title == title && sections[existing].title != active;
        return DuplicateTitle;
      }
      var renamed := RenameSection(sections, activeSectionTitle, sectionTitle, sectionColor);
      SaveSections(store, renamed);
      sections := renamed;
      CloseModal();
      outcome := Saved;
    }

    /** handleDelete: removes the sections of that title, saves, and shows the rest. */
    method HandleDelete(store: AppStorage, title: string)
      modifies this`sections, store`dailyRecords
      ensures sections == DeleteSection(old(sections), title)
      ensures store.dailyRecords == Some(SaveSectionsInto(old(store.Records()), selectedDate, sections))
    {
      var updated := DeleteSection(sections, title);
      SaveSections(store, updated);
      sections := updated;
    }
  }

  /** checkAndResetGoals: unless the marker already holds today, stores the completed
      goals, then resets them, then sets the marker to today. */
  method CheckAndResetGoals(store: AppStorage, nowMs: int)
    modifies store`completionHistory, store`goals, store`lastResetDate
    ensures old(store.lastResetDate) == Some(DayOf(nowMs)) ==> unchanged(store)
    ensures old(store.lastResetDate) != Some(DayOf(nowMs)) ==>
      && store.lastResetDate == Some(DayOf(nowMs))
      && (old(store.goals).Some? && old(store.sections).Some? ==>
            store.completionHistory == Some(BoundedAppendEntry(old(store.completionHistory), old(store.goals).value, old(store.sections).value, nowMs)))
      && (!(old(store.goals).Some? && old(store.sections).Some?) ==> store.completionHistory == old(store.completionHistory))
      && (old(store.goals).Some? ==> store.goals == Some(Goals.ResetGoals(old(store.goals).value)))
      && (old(store.goals).None? ==> store.goals.None?)
  {
    var today := DayOf(nowMs);
    if store.lastResetDate != Some(today) {
      DashboardManager.StoreCompletedGoals(store, nowMs);
      DashboardManager.ResetDailyGoals(store);
      store.lastResetDate := Some(today);
    }
  }

  /** The history after one store step: today's entry appended to the bounded log. */
  function BoundedAppendEntry(history: Option<seq<DailyCompletion>>, goals: seq<Goal>, sections: seq<Section>, nowMs: int): seq<DailyCompletion> {
    Stats.BoundedAppend(history.GetOr([]), DashboardManager.CompletionEntry(goals, sections, DayOf(nowMs)), DashboardManager.HistoryLimit)
  }

  /** Two checks at the same moment have the effect of one: the second changes nothing,
      so the log gains at most one entry and the goals are reset at most once per day. */
  method RolloverOncePerDay(store: AppStorage, nowMs: int)
    modifies store`completionHistory, store`goals, store`lastResetDate
    ensures old(store.lastResetDate) == Some(DayOf(nowMs)) ==> unchanged(store)
    ensures old(store.lastResetDate) != Some(DayOf(nowMs)) ==>
      && store.lastResetDate == Some(DayOf(nowMs))
      && (old(store.goals).Some? && old(store.sections).Some? ==>
            store.completionHistory == Some(BoundedAppendEntry(old(store.completionHistory), old(store.goals).value, old(store.sections).value, nowMs)))
      && (!(old(store.goals).Some? && old(store.sections).Some?) ==> store.completionHistory == old(store.completionHistory))
      && (old(store.goals).Some? ==> store.goals == Some(Goals.ResetGoals(old(store.goals).value)))
      && (old(store.goals).None? ==> store.goals.None?)
  {
    CheckAndResetGoals(store, nowMs);
    CheckAndResetGoals(store, nowMs);
  }
}
