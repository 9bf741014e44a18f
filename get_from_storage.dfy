/** The read helpers over the stored daily records (scripts/getFromStorage.tsx). The
    storage read is the `stored` parameter: the parsed value of "dailyRecords", or None
    when the key is missing. */
module GetFromStorage {
  import opened Types
  import opened Seqs
  import opened Records

  /** The stored records, or none at all when the key is missing. */
  function GetDailyRecords(stored: Option<seq<DailyRecord>>): (r: seq<DailyRecord>)
    ensures stored.Some? ==> r == stored.value
    ensures stored.None? ==> r == []
  {
    stored.GetOr([])
  }

  /** The first stored record of the date, or null. */
  function GetDailyRecordByDate(stored: Option<seq<DailyRecord>>, date: Day): (r: Option<DailyRecord>)
    ensures r.None? <==> !HasRecord(GetDailyRecords(stored), date)
    ensures r.Some? ==> r.value.date == date
    ensures r.Some? ==> var records := GetDailyRecords(stored);
      exists k :: 0 <= k < |records| && records[k] == r.value
        && forall j :: 0 <= j < k ==> records[j].date != date
  {
    var records := GetDailyRecords(stored);
    var found := RecordFor(records, date);
    if found.Some? then
      assert records[RecordIndex(records, date)] == found.value;
      found
    else
      found
  }

  /** The sections of the date's record, or null when there is no record. */
  function GetSectionsFromDailyRecord(stored: Option<seq<DailyRecord>>, date: Day): (r: Option<seq<SectionData>>)
    ensures r.None? <==> !HasRecord(GetDailyRecords(stored), date)
    ensures r.Some? ==> exists rec :: GetDailyRecordByDate(stored, date) == Some(rec) && r.value == rec.sections
  {
    match GetDailyRecordByDate(stored, date)
    case Some(rec) => Some(rec.sections)
    case None => None
  }

  /** As GetSectionsFromDailyRecord, with an empty list in place of null. */
  function GetAllSections(stored: Option<seq<DailyRecord>>, date: Day): (r: seq<SectionData>)
    ensures !HasRecord(GetDailyRecords(stored), date) ==> r == []
    ensures HasRecord(GetDailyRecords(stored), date) ==> r == GetSectionsFromDailyRecord(stored, date).value
  {
    GetSectionsFromDailyRecord(stored, date).GetOr([])
  }

  /** `Math.ceil(Math.abs(today.getTime() - recordDate.getTime()) / (1000 * 60 * 60 * 24))`. */
  function DaysFromNow(nowMs: int, d: Day): nat {
    var diff := if nowMs >= DayStart(d) then nowMs - DayStart(d) else DayStart(d) - nowMs;
    (diff + MsPerDay - 1) / MsPerDay
  }

  predicate InPastWeek(nowMs: int, d: Day) {
    DaysFromNow(nowMs, d) <= 6
  }

  /** The records within six days of now, in their stored order. */
  function FetchWeeklyData(stored: Option<seq<DailyRecord>>, nowMs: int): (r: seq<DailyRecord>)
    ensures IsSubsequence(r, GetDailyRecords(stored))
    ensures forall i :: 0 <= i < |r| ==> InPastWeek(nowMs, r[i].date)
    ensures forall rec :: rec in GetDailyRecords(stored) && InPastWeek(nowMs, rec.date) ==> rec in r
    ensures forall rec ::
      multiset(r)[rec] == if InPastWeek(nowMs, rec.date) then multiset(GetDailyRecords(stored))[rec] else 0
  {
    var p := (rec: DailyRecord) => InPastWeek(nowMs, rec.date);
    FilterIsSubsequence(GetDailyRecords(stored), p);
    FilterMultiset(GetDailyRecords(stored), p);
    Filter(GetDailyRecords(stored), p)
  }

  lemma DivOfMultiplePlus(q: int, rem: int)
    requires 0 <= rem < MsPerDay
    ensures (q * MsPerDay + rem) / MsPerDay == q
  {
  }

  /** In day terms the window is today - 6 .. today + 6 at an exact midnight, and
      today - 5 .. today + 6 at any later moment of the day. */
  lemma PastWeekWindow(nowMs: int, d: Day)
    ensures InPastWeek(nowMs, d) <==>
      DayOf(nowMs) - 6 + (if nowMs % MsPerDay == 0 then 0 else 1) <= d <= DayOf(nowMs) + 6
  {
    var t, f := DayOf(nowMs), nowMs % MsPerDay;
    assert nowMs == t * MsPerDay + f;
    if d <= t {
      if f == 0 {
        DivOfMultiplePlus(t - d, MsPerDay - 1);
        assert DaysFromNow(nowMs, d) == t - d;
      } else {
        DivOfMultiplePlus(t - d + 1, f - 1);
        assert DaysFromNow(nowMs, d) == t - d + 1;
      }
    } else {
      DivOfMultiplePlus(d - t, MsPerDay - 1 - f);
      assert DaysFromNow(nowMs, d) == d - t;
    }
  }
}
