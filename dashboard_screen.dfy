/** The read-only views of app/DashboardScreen.tsx: the sections shown for the chosen
    date and section filter, the dropdown of other sections, the historical flag, and
    the sections handed to the chart. */
module DashboardScreen {
  import opened Types
  import opened Seqs
  import opened Records

  /** The filter value that shows every section. */
  const AllSections: string := "all"

  /** getSectionsForSelectedDate: the sections of the date's first record, or none. */
  function SectionsForDate(records: seq<DailyRecord>, date: Day): (r: seq<SectionData>)
    ensures HasRecord(records, date) ==> r == records[RecordIndex(records, date)].sections
    ensures !HasRecord(records, date) ==> r == []
  {
    match RecordFor(records, date)
    case Some(record) => record.sections
    case None => []
  }

  /** The test of a section against the selected value (`null` matches no title). */
  predicate TitledAs(selected: Option<string>, s: SectionData) {
    selected == Some(s.title)
  }

  predicate NotTitledAs(selected: Option<string>, s: SectionData) {
    selected != Some(s.title)
  }

  /** filterSectionData: nothing without a record of the date; with "all" every section
      of the record; otherwise the sections titled as selected, in their order. */
  function FilterSectionData(records: seq<DailyRecord>, date: Day, selected: Option<string>): (r: seq<SectionData>)
    ensures !HasRecord(records, date) ==> r == []
    ensures selected == Some(AllSections) ==> r == SectionsForDate(records, date)
    ensures selected != Some(AllSections) ==>
      && IsSubsequence(r, SectionsForDate(records, date))
      && (forall i :: 0 <= i < |r| ==> selected == Some(r[i].title))
      && (forall s :: s in SectionsForDate(records, date) && selected == Some(s.title) ==> s in r)
    ensures selected != Some(AllSections) ==>
      forall s :: multiset(r)[s] == if selected == Some(s.title) then multiset(SectionsForDate(records, date))[s] else 0
  {
    match RecordFor(records, date)
    case None => []
    case Some(record) =>
      if selected == Some(AllSections) then record.sections
      else
        FilterIsSubsequence(record.sections, s => TitledAs(selected, s));
        FilterMultiset(record.sections, s => TitledAs(selected, s));
        Filter(record.sections, s => TitledAs(selected, s))
  }

  /** A dropdown item; `caption` is the source's `label`. */
  datatype DropdownItem = DropdownItem(caption: string, value: string)

  function ItemOf(s: SectionData): DropdownItem {
    DropdownItem(s.title, s.title)
  }

  /** The sections of the date not titled as selected, in order. */
  function OtherSections(records: seq<DailyRecord>, date: Day, selected: Option<string>): seq<SectionData> {
    Filter(SectionsForDate(records, date), s => NotTitledAs(selected, s))
  }

  /** dropdownItems: one item per section of the date not titled as selected, labelled
      and valued by its title, in order. */
  function DropdownItems(records: seq<DailyRecord>, date: Day, selected: Option<string>): (r: seq<DropdownItem>)
    ensures |r| == |OtherSections(records, date, selected)|
    ensures forall i :: 0 <= i < |r| ==> r[i] == ItemOf(OtherSections(records, date, selected)[i])
    ensures forall i :: 0 <= i < |r| ==> r[i].caption == r[i].value && selected != Some(r[i].value)
  {
    var others := OtherSections(records, date, selected);
    seq(|others|, i requires 0 <= i < |others| => ItemOf(others[i]))
  }

  /** The item is that of some section of the date. */
  ghost predicate ItemOfSection(records: seq<DailyRecord>, date: Day, item: DropdownItem) {
    exists s :: s in SectionsForDate(records, date) && item == ItemOf(s)
  }

  /** The dropdown offers exactly the date's sections not titled as selected. */
  lemma DropdownOffersOthers(records: seq<DailyRecord>, date: Day, selected: Option<string>)
    ensures var r := DropdownItems(records, date, selected);
      forall s :: s in SectionsForDate(records, date) && selected != Some(s.title) ==> ItemOf(s) in r
    ensures var r := DropdownItems(records, date, selected);
      forall i :: 0 <= i < |r| ==> ItemOfSection(records, date, r[i])
  {
    var r := DropdownItems(records, date, selected);
    var others := OtherSections(records, date, selected);
    forall s | s in SectionsForDate(records, date) && selected != Some(s.title) ensures ItemOf(s) in r {
      assert s in others;
      var k :| 0 <= k < |others| && others[k] == s;
      assert r[k] == ItemOf(s);
    }
    forall i | 0 <= i < |r| ensures ItemOfSection(records, date, r[i]) {
      assert others[i] in SectionsForDate(records, date) && r[i] == ItemOf(others[i]);
    }
  }

  /** With one section selected, the sections shown and the dropdown's items together
      account for every section of the date exactly once. */
  lemma ShownAndOffered(records: seq<DailyRecord>, date: Day, title: string)
    requires title != AllSections
    ensures |FilterSectionData(records, date, Some(title))| + |DropdownItems(records, date, Some(title))|
      == |SectionsForDate(records, date)|
  {
    var selected := Some(title);
    var sections := SectionsForDate(records, date);
    FilterPartition(sections, s => TitledAs(selected, s), s => NotTitledAs(selected, s));
  }

  /** handleDateChange's flag: the view is historical when the chosen date is not the
      clock's. */
  predicate IsHistorical(date: Day, nowMs: int) {
    date != DayOf(nowMs)
  }

  /** The view is live exactly when the clock's instant falls inside the chosen day. */
  lemma HistoricalIffOutsideDay(date: Day, nowMs: int)
    ensures !IsHistorical(date, nowMs) <==> DayStart(date) <= nowMs < DayStart(date) + MsPerDay
  {
    var q, rem := nowMs / MsPerDay, nowMs % MsPerDay;
    assert nowMs == q * MsPerDay + rem && 0 <= rem < MsPerDay;
  }

  /** The chart's data: the shown sections with a positive total score, in order. */
  function ChartSections(shown: seq<SectionData>): (r: seq<SectionData>)
    ensures IsSubsequence(r, shown)
    ensures forall i :: 0 <= i < |r| ==> r[i].totalScore > 0
    ensures forall s :: s in shown && s.totalScore > 0 ==> s in r
    ensures forall s :: multiset(r)[s] == if s.totalScore > 0 then multiset(shown)[s] else 0
  {
    FilterIsSubsequence(shown, (s: SectionData) => s.totalScore > 0);
    FilterMultiset(shown, (s: SectionData) => s.totalScore > 0);
    Filter(shown, (s: SectionData) => s.totalScore > 0)
  }
}
