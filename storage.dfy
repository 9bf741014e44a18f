/** The device's key-value store, one field per key the core reads or writes. A field
    is None while its key has never been written; values are held already parsed. */
module Storage {
  import opened Types

  class AppStorage {
    /** "dailyRecords": one record per day, with sections and goals. */
    var dailyRecords: Option<seq<DailyRecord>>
    /** "goals": the legacy flat goal list the dashboard managers read. */
    var goals: Option<seq<Goal>>
    /** "sections": the legacy flat section list the dashboard managers read. */
    var sections: Option<seq<Section>>
    /** "completionHistory": the bounded log of end-of-day snapshots. */
    var completionHistory: Option<seq<DailyCompletion>>
    /** "lastResetDate": the day the rollover last ran. */
    var lastResetDate: Option<Day>
    /** "existingData": the reconciler's cached day. */
    var existingData: Option<ExistingData>
    /** "dailyCompletion": the last completion snapshot written by the reconciler. */
    var dailyCompletion: Option<CompletionData>

    /** A fresh install: no key is present. */
    constructor ()
      ensures dailyRecords == None && goals == None && sections == None
      ensures completionHistory == None && lastResetDate == None
      ensures existingData == None && dailyCompletion == None
    {
      dailyRecords, goals, sections := None, None, None;
      completionHistory, lastResetDate := None, None;
      existingData, dailyCompletion := None, None;
    }

    /** `recordsData ? JSON.parse(recordsData) : []`. */
    function Records(): seq<DailyRecord>
      reads this
    {
      dailyRecords.GetOr([])
    }
  }
}
