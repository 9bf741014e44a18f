/** The lookups every handler performs on the stored records: the record of a date,
    the section of a title, the goal of an id (`find` / `findIndex` with `===`). */
module Records {
  import opened Types
  import opened Seqs

  function RecordIndex(records: seq<DailyRecord>, date: Day): (r: int)
    ensures -1 <= r < |records|
    ensures 0 <= r ==> records[r].date == date && forall k :: 0 <= k < r ==> records[k].date != date
    ensures r == -1 <==> forall k :: 0 <= k < |records| ==> records[k].date != date
  {
    FindIndex(records, (rec: DailyRecord) => rec.date == date)
  }

  predicate HasRecord(records: seq<DailyRecord>, date: Day) {
    exists k :: 0 <= k < |records| && records[k].date == date
  }

  /** The first record of the date, if any. */
  function RecordFor(records: seq<DailyRecord>, date: Day): (r: Option<DailyRecord>)
    ensures r.None? <==> !HasRecord(records, date)
    ensures r.Some? ==> r.value == records[RecordIndex(records, date)] && r.value.date == date
  {
    var i := RecordIndex(records, date);
    if i == -1 then None else Some(records[i])
  }

  function SectionIndex(sections: seq<SectionData>, title: string): (r: int)
    ensures -1 <= r < |sections|
    ensures 0 <= r ==> sections[r].title == title && forall k :: 0 <= k < r ==> sections[k].title != title
    ensures r == -1 <==> forall k :: 0 <= k < |sections| ==> sections[k].title != title
  {
    FindIndex(sections, (s: SectionData) => s.title == title)
  }

  predicate HasSection(sections: seq<SectionData>, title: string) {
    exists k :: 0 <= k < |sections| && sections[k].title == title
  }

  /** The first section of the title, if any. */
  function SectionFor(sections: seq<SectionData>, title: string): (r: Option<SectionData>)
    ensures r.None? <==> !HasSection(sections, title)
    ensures r.Some? ==> r.value == sections[SectionIndex(sections, title)] && r.value.title == title
  {
    var i := SectionIndex(sections, title);
    if i == -1 then None else Some(sections[i])
  }

  /** Index k holds the first goal of the id. */
  ghost predicate FirstOfId(goals: seq<Goal>, k: int, id: GoalId) {
    0 <= k < |goals| && goals[k].id == id && forall j :: 0 <= j < k ==> goals[j].id != id
  }

  /** The first goal of the id, if any. */
  function GoalFor(goals: seq<Goal>, id: GoalId): (r: Option<Goal>)
    ensures r.None? <==> forall k :: 0 <= k < |goals| ==> goals[k].id != id
    ensures r.Some? ==> r.value.id == id && r.value in goals
    ensures r.Some? ==> exists k :: FirstOfId(goals, k, id) && goals[k] == r.value
  {
    var i := FindIndex(goals, (g: Goal) => g.id == id);
    if i == -1 then None else Some(goals[i])
  }

  /** Replacing a record by one of the same date leaves every date's first index alone. */
  lemma RecordIndexReplace(records: seq<DailyRecord>, k: int, rec: DailyRecord, date: Day)
    requires 0 <= k < |records| && rec.date == records[k].date
    ensures RecordIndex(records[k := rec], date) == RecordIndex(records, date)
  {
    var r := records[k := rec];
    assert forall j :: 0 <= j < |r| ==> r[j].date == records[j].date;
  }

  /** Appending a record finds a date where it was found before, else at the new end. */
  lemma RecordIndexAppend(records: seq<DailyRecord>, rec: DailyRecord, date: Day)
    ensures var i := RecordIndex(records, date);
      RecordIndex(records + [rec], date) == if i >= 0 then i else if rec.date == date then |records| else -1
  {
    var r := records + [rec];
    assert forall j :: 0 <= j < |records| ==> r[j] == records[j];
    assert r[|records|] == rec;
  }

  /** Replacing a section by one of the same title leaves every title's first index alone. */
  lemma SectionIndexReplace(sections: seq<SectionData>, k: int, s: SectionData, title: string)
    requires 0 <= k < |sections| && s.title == sections[k].title
    ensures SectionIndex(sections[k := s], title) == SectionIndex(sections, title)
  {
    var r := sections[k := s];
    assert forall j :: 0 <= j < |r| ==> r[j].title == sections[j].title;
  }

  /** Appending a section finds a title where it was found before, else at the new end. */
  lemma SectionIndexAppend(sections: seq<SectionData>, s: SectionData, title: string)
    ensures var i := SectionIndex(sections, title);
      SectionIndex(sections + [s], title) == if i >= 0 then i else if s.title == title then |sections| else -1
  {
    var r := sections + [s];
    assert forall j :: 0 <= j < |sections| ==> r[j] == sections[j];
    assert r[|sections|] == s;
  }

  /** The dates that have a record. */
  function Dates(records: seq<DailyRecord>): (r: set<Day>)
    ensures forall d :: d in r <==> HasRecord(records, d)
  {
    set k | 0 <= k < |records| :: records[k].date
  }
}
