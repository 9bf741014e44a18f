# GoalTracker core in Dafny

GoalTracker is a mobile app for daily goals. The user groups goals into coloured
sections, scores each goal, and ticks goals off during the day. Everything lives in the
device's key-value store. Under `dailyRecords` sits one record per date, holding that
day's sections with their goals and scores. Under `goals` and `sections` sit the flat
lists. Under `completionHistory` sits a log of the last seven daily snapshots, and under
`lastResetDate` sits the once-per-day rollover marker.

This project models the logic that reads and changes that data:

- the record lookups;
- the clean-up and gap-fill of old and missing days;
- the goal editor of one section;
- the section editor of the home screen;
- the rollover, which stores the day's completions and resets the goals;
- the weekly statistics of both dashboard managers;
- the dashboard filters;
- the weekly summary handed to the feedback service.

How the app's things appear in the model:

- **Dates.** A date is a day number since 1970-01-01 UTC. A clock reading is a millisecond count, passed in as `nowMs`.
- **The store.** The key-value store is the class `Storage.AppStorage`, with one `Option` field per key. A missing key is `None`. Serialising to JSON and parsing back is the identity.
- **Screens.** Each screen is a class whose fields are the component's state. A handler is a method on it. Its `Outcome` result stands for the alert the screen shows (`EmptyTitle`, `DuplicateTitle`, `HistoricalEditRejected`) or for the save going through (`Saved`). Opening a modal that is not refused reports `Opened`.
- **Loops.** The source's loops stay loops. They are the gap-fill `while` in `DataStructureManager.PopulateMissingDailyRecords`, the counting `forEach` in `Stats.CountDay`, and the history walk in both `GetWeeklyStats` methods. Each loop is proved equal to a specification function.
- **Sorting.** The count sort is modelled as a stable insertion sort by descending count. The model proves it returns a permutation of its input, sorted.
- **Goal text.** The goal interface (app/types.tsx:30) names the goal's text `title`, but the code that writes and reads it uses `name`. The section screen writes `name` (app/SectionScreen.tsx:98, :196) and reads it back (:235). The statistics read `name` too (app/DashboardComp/DashboardManager.tsx:204, app/DashboardManager.tsx:107, scripts/dataStructureManager.tsx:141), so they do name the goals. The model calls this one field `title`. The only reader of a field actually called `title` is the feedback summary (app/FeebackScreen/FeedbackModal.tsx:76), and nothing writes that field.

## Model

| member | source | states |
|---|---|---|
| Records.RecordIndex | app/DashboardComp/DashboardManager.tsx:58-60 | the index of the first record of the date, or -1 exactly when no record has that date |
| Records.RecordFor | app/DashboardComp/DashboardManager.tsx:21 | none exactly when no record has the date; otherwise the first such record |
| Records.SectionIndex | app/DashboardComp/DashboardManager.tsx:64-66 | the index of the first section of the title, or -1 exactly when none has it |
| Records.SectionFor | app/DashboardComp/DashboardManager.tsx:26 | none exactly when no section has the title; otherwise the first such section |
| Records.GoalFor | app/DashboardComp/DashboardManager.tsx:203 | none exactly when no goal has the id; otherwise the first goal with that id |
| Text.TrimStart | app/SectionScreen.tsx:92 | the result is a suffix; exactly the leading whitespace is dropped |
| Text.TrimEnd | app/SectionScreen.tsx:92 | the result is a prefix; exactly the trailing whitespace is dropped |
| Text.TrimIsInfix | app/SectionScreen.tsx:98 | the trimmed name is a slice of the name with no whitespace at either end, and only whitespace is cut off |
| Text.TrimBlankIff | app/index.tsx:83 | a title trims to empty exactly when it is all whitespace |
| Text.TrimIdempotent | app/SectionScreen.tsx:98 | trimming twice is trimming once |
| Goals.TotalScore | app/SectionScreen.tsx:173-175 | with non-negative scores the total is non-negative |
| Goals.CompletedScore | app/SectionScreen.tsx:176-181 | with non-negative scores the completed score lies between 0 and the total |
| Goals.TotalScoreAppend | app/SectionScreen.tsx:173-175 | the total of two lists joined is the sum of their totals |
| Goals.CompletedScoreAppend | app/SectionScreen.tsx:176-181 | the completed score of two lists joined is the sum of theirs |
| Goals.FilteredTotalAtMost | app/DashboardComp/DashboardManager.tsx:123-125 | with non-negative scores any filtered sub-list totals between 0 and the whole list's total |
| Goals.CompletedScoreIsTotalOfCompleted | app/DashboardComp/DashboardManager.tsx:123-125 | the per-goal conditional sum equals the total of the completed goals (the two ways the code computes it agree) |
| Goals.ResetGoals | app/DashboardComp/DashboardManager.tsx:89 | same length; every goal uncompleted and otherwise unchanged |
| Goals.ResetGoalsIdempotent | app/DashboardComp/DashboardManager.tsx:84-95 | resetting again changes nothing |
| Goals.ResetGoalsScores | app/DashboardComp/DashboardManager.tsx:89 | after a reset the completed score is 0 and the total is kept |
| Goals.CompletedGoalIds | app/DashboardComp/DashboardManager.tsx:104-106 | the ids of the completed goals, one per goal and in the goals' order |
| Goals.SectionRollup | app/DashboardComp/DashboardManager.tsx:115-133 | title and colour copied; the goals are exactly those of the section, in order and with every copy; the total is their score sum, the completed score the sum over those passing the test, and with non-negative scores 0 ≤ completed ≤ total |
| GetFromStorage.GetDailyRecords | scripts/getFromStorage.tsx:31-39 | the stored records, or empty when the key is missing |
| GetFromStorage.GetDailyRecordByDate | scripts/getFromStorage.tsx:41-47 | null exactly when no record has the date; otherwise the first record of that date |
| GetFromStorage.GetSectionsFromDailyRecord | scripts/getFromStorage.tsx:49-54 | null exactly when no record has the date; otherwise that record's sections |
| GetFromStorage.GetAllSections | scripts/getFromStorage.tsx:56-59 | as above with an empty list in place of null |
| GetFromStorage.FetchWeeklyData | scripts/getFromStorage.tsx:61-71 | the records within six days of now, in stored order, each kept as many times as it is stored, and no other record |
| GetFromStorage.PastWeekWindow | scripts/getFromStorage.tsx:64-69 | in day terms the window is today−6 … today+6 at an exact midnight and today−5 … today+6 at any later moment |
| DataStructureManager.CleanupOldRecords | scripts/dataStructureManager.tsx:33-61 | the kept records are in order, and a record is kept, as many times as it is stored, exactly when its date's midnight is no earlier than seven days before now |
| DataStructureManager.RetainedDays | scripts/dataStructureManager.tsx:40-47 | in day terms the records dated today−7 or later are kept at an exact midnight, and those dated today−6 or later at any later moment |
| DataStructureManager.CleanupIdempotent | scripts/dataStructureManager.tsx:44-47 | cleaning twice at the same moment removes nothing more |
| DataStructureManager.CreateRecordForDate | scripts/dataStructureManager.tsx:115-130 | the record has the date and one section per template section, all fields kept and every goal uncompleted |
| DataStructureManager.MaxDate | scripts/dataStructureManager.tsx:72-79 | a date some record has, and no record's date is later |
| DataStructureManager.FillDaysAt | scripts/dataStructureManager.tsx:91-100 | one fresh record per day of the range, in order |
| DataStructureManager.PopulateMissingDailyRecords | scripts/dataStructureManager.tsx:64-112 | the loop's result is the gap-fill specification `Populated` |
| DataStructureManager.PopulatedFromNothing | scripts/dataStructureManager.tsx:81-85 | with no records, exactly one record is made, for today |
| DataStructureManager.PopulatedContiguous | scripts/dataStructureManager.tsx:86-101 | gap-fill only appends; it appends only new dates, in increasing order; afterwards every day after the latest record through today has a record |
| DataStructureManager.PopulatedIdempotent | scripts/dataStructureManager.tsx:64-112 | a second run at the same moment adds nothing |
| DataStructureManager.DailyCompletionData | scripts/dataStructureManager.tsx:133-159 | today's date; section titles and goal order kept; each goal stamped with its section's title |
| DataStructureManager.DeepCopySections | scripts/dataStructureManager.tsx:162-167 | as values the copy equals the original |
| DataStructureManager.ExistingDataOf | scripts/dataStructureManager.tsx:170-180 | the cache holds the record's date and sections, with completion kept |
| DataStructureManager.Reconciler.constructor | scripts/dataStructureManager.tsx:4 | the cache starts empty |
| DataStructureManager.Reconciler.LoadExistingData | scripts/dataStructureManager.tsx:12-21 | the cache adopts the stored value when the key is present, else keeps its value |
| DataStructureManager.Reconciler.SaveExistingData | scripts/dataStructureManager.tsx:24-30 | the store's key holds the cache |
| DataStructureManager.Reconciler.UpdateExistingData | scripts/dataStructureManager.tsx:170-182 | cache and store both hold the record's snapshot |
| DataStructureManager.Reconciler.CleanupOldRecordsIn | scripts/dataStructureManager.tsx:33-53 | the stored records become the cleaned records (a missing key read as empty) |
| DataStructureManager.Reconciler.PopulateMissingDailyRecordsIn | scripts/dataStructureManager.tsx:64-107 | the stored records become the gap-filled records, cloned from the cached template |
| DataStructureManager.Reconciler.SaveDailyCompletion | scripts/dataStructureManager.tsx:133-155 | the completion key holds today's snapshot |
| Stats.TallyCounts | app/DashboardComp/DashboardManager.tsx:170-173 | the counter has a key exactly for each id seen, with its number of occurrences, at least 1 |
| Stats.FirstOccurrencesMembers | app/DashboardComp/DashboardManager.tsx:170-173 | the counter's key order lists exactly the ids seen, each once |
| Stats.TallyIsOccurrences | app/DashboardComp/DashboardManager.tsx:169-173 | over a whole history, an id is a key exactly when it occurs, and its count is its occurrences across entries |
| Stats.CountStep | app/DashboardComp/DashboardManager.tsx:171-172 | one more id: the counter and key order are those of the longer id list |
| Stats.CountDay | app/DashboardComp/DashboardManager.tsx:170-173 | the inner loop leaves the counter and key order of everything seen plus the day's ids |
| Stats.InsertPermutes | app/DashboardComp/DashboardManager.tsx:198-200 | insertion adds exactly the one entry |
| Stats.InsertSorted | app/DashboardComp/DashboardManager.tsx:198-200 | insertion keeps the ranking descending |
| Stats.SortByCountCorrect | app/DashboardComp/DashboardManager.tsx:198-200 | the sort is a permutation and descending by count |
| Stats.SortFilterStable | app/DashboardComp/DashboardManager.tsx:198-200 | among entries of equal count the sort keeps the original order |
| Stats.Ranked | app/DashboardComp/DashboardManager.tsx:198-200 | the ranking is a permutation of the counter's entries, descending |
| Stats.GoalName | app/DashboardComp/DashboardManager.tsx:202-205 | the placeholder "Unknown Goal" exactly when no goal has the id; otherwise the first such goal's text |
| Stats.GoalRefs | app/DashboardComp/DashboardManager.tsx:211 | one reference per entry, with its id and looked-up name |
| Stats.RankedDistinct | app/DashboardComp/DashboardManager.tsx:198 | each id occurs at most once in the ranking |
| Stats.TopEntriesSound | app/DashboardComp/DashboardManager.tsx:207-212 | every top entry is an id with the largest count |
| Stats.TopEntriesComplete | app/DashboardComp/DashboardManager.tsx:207-212 | every id with the largest count is among the top entries |
| Stats.BottomEntriesSound | app/DashboardComp/DashboardManager.tsx:214-223 | every bottom entry is an id with the smallest count |
| Stats.BottomEntriesComplete | app/DashboardComp/DashboardManager.tsx:214-223 | every id with the smallest count is among the bottom entries |
| Stats.MostCompletedExact | app/DashboardComp/DashboardManager.tsx:207-212 | "most" lists exactly the ids tied at the maximum count, each once, each with its name |
| Stats.BottomEntriesExact | app/DashboardComp/DashboardManager.tsx:214-223 | the bottom entries are exactly those of the ids tied at the minimum nonzero count, no id twice |
| Stats.TopEntriesExact | app/DashboardComp/DashboardManager.tsx:207-212 | the top entries are exactly those of the ids tied at the maximum count, no id twice |
| Stats.LeastCompletedExact | app/DashboardComp/DashboardManager.tsx:214-223 | "least" lists exactly the ids tied at the minimum count, each once, each with its name |
| Stats.MostCompletedInCounterOrder | app/DashboardComp/DashboardManager.tsx:198-212 | the tied goals come out in the counter's key order |
| Stats.LastWinsAt | app/DashboardComp/DashboardManager.tsx:195 | the date map has exactly the entries' dates, each with the value of the last entry of that date |
| Stats.BoundedAppend | app/DashboardComp/DashboardManager.tsx:135-142 | the log grows by one up to seven entries; the new entry is last, preceded by the newest entries of the old log |
| Stats.BoundedAppendWindow | app/DashboardComp/DashboardManager.tsx:142 | appending to the bounded log equals bounding the whole log after appending |
| DashboardManager.LoadSectionData | app/DashboardComp/DashboardManager.tsx:12-33 | null when the key is missing, when no record has the date, or when the record has no such section; otherwise the first such section |
| DashboardManager.GetDailyRecord | app/DashboardComp/DashboardManager.tsx:35-46 | null when the key is missing or no record has the date; otherwise the first record |
| DashboardManager.GetDailyRecordAgrees | app/DashboardComp/DashboardManager.tsx:35-46 | agrees with the storage helper's lookup on every input |
| DashboardManager.WithSectionGoals | app/DashboardComp/DashboardManager.tsx:57-74 | fails exactly when the date or the section is missing; otherwise only that section's goals change and all its other fields, its scores included, stay |
| DashboardManager.UpdateThenLoad | app/DashboardComp/DashboardManager.tsx:48-82 | after a successful update, loading the section gives the old section with the new goals |
| DashboardManager.UpdateSectionGoals | app/DashboardComp/DashboardManager.tsx:48-82 | false and nothing written when the key, the record or the section is missing; otherwise true and the updated records are written |
| DashboardManager.ResetDailyGoals | app/DashboardComp/DashboardManager.tsx:84-95 | the stored goals are reset when present, and the key stays missing otherwise |
| DashboardManager.CompletionEntry | app/DashboardComp/DashboardManager.tsx:104-139 | today's date; the completed ids in the goals' order; per section its rollup: goals, total, and completed score equal to the section's completed score |
| DashboardManager.StoreCompletedGoals | app/DashboardComp/DashboardManager.tsx:97-152 | with goals and sections present the entry is appended to the seven-entry log; otherwise the history is untouched |
| DashboardManager.DayRollup | app/DashboardComp/DashboardManager.tsx:175-193 | per section: title and colour, its goals, the total, and the total of the goals the entry lists |
| DashboardManager.GetWeeklyStats | app/DashboardComp/DashboardManager.tsx:154-245 | the empty statistics unless all three keys are present; otherwise the loop's result equals the specification `WeeklyStatsOf` |
| DashboardManager.WeeklyStatsExact | app/DashboardComp/DashboardManager.tsx:166-229 | most and least list exactly the goals tied at the maximum and minimum count, with their names; the daily map has exactly the history's dates |
| DashboardManager.DailyCompletionAt | app/DashboardComp/DashboardManager.tsx:175-195 | a date's summary is the last entry's of that date, and with non-negative scores 0 ≤ completed ≤ total in it |
| DashboardManager.CountIsOccurrences | app/DashboardComp/DashboardManager.tsx:169-173 | an id's count is its occurrences across the history's completed lists |
| LegacyDashboardManager.ResetStoredGoals | app/DashboardManager.tsx:16-27 | nothing written exactly when the key is missing; otherwise every goal uncompleted and otherwise unchanged |
| LegacyDashboardManager.ResetStoredGoalsIdempotent | app/DashboardManager.tsx:16-27 | resetting again writes the same goals |
| LegacyDashboardManager.StoreCompletedGoals | app/DashboardManager.tsx:29-57 | nothing written exactly when "goals" is missing; otherwise the log grows by one up to seven, today's completed ids last, after the newest old entries |
| LegacyDashboardManager.DayRollup | app/DashboardManager.tsx:79-96 | per section the title, colour, total and total of listed goals, 0 ≤ completed ≤ total with non-negative scores |
| LegacyDashboardManager.GetWeeklyStats | app/DashboardManager.tsx:59-147 | the empty statistics unless all three keys are present; otherwise the loop's result equals `WeeklyStatsOf` |
| LegacyDashboardManager.LeastAgreesWithNonzeroRule | app/DashboardManager.tsx:117-125 | dropping the `count > 0` test changes nothing: every counted id occurs, so this file's least list equals the other manager's |
| LegacyDashboardManager.WeeklyStatsExact | app/DashboardManager.tsx:70-131 | most and least list exactly the goals tied at the maximum and minimum count; the daily map has exactly the history's dates |
| SectionScreen.SaveGoalsInto | app/SectionScreen.tsx:115-172 | a missing record is appended with the section alone; a missing section is appended to the record; otherwise that section alone is replaced, with scores recomputed; all other records stay |
| SectionScreen.LoadedGoals | app/SectionScreen.tsx:59-84 | the section's goals, or empty when the key, the record or the section is missing |
| SectionScreen.SaveThenLoad | app/SectionScreen.tsx:115-172 | after saving, loading gives back the saved goals, and the stored section's scores are their sums |
| SectionScreen.SaveKeepsOtherDates | app/SectionScreen.tsx:122-165 | saving leaves every other date's record as the lookups see it |
| SectionScreen.AddGoal | app/SectionScreen.tsx:96-105 | the old goals then one new uncompleted goal with the trimmed name |
| SectionScreen.AddGoalScores | app/SectionScreen.tsx:96-105 | adding a goal raises the total score by its score and leaves the completed score as it was |
| SectionScreen.UpdateGoal | app/SectionScreen.tsx:194-198 | only the edited goal's name and score change; with no goal being edited nothing does |
| SectionScreen.DeleteGoal | app/SectionScreen.tsx:209 | the goals with another id, in order, each as many times as before, and no goal with the id |
| SectionScreen.ToggleGoal | app/SectionScreen.tsx:219-221 | only completion flags change, and a flag changes exactly for the goals of the id |
| SectionScreen.ToggleTwice | app/SectionScreen.tsx:215-224 | toggling twice restores the list |
| SectionScreen.ToggleKeepsTotal | app/SectionScreen.tsx:219-221 | toggling keeps the total score |
| SectionScreen.ToggleMovesScore | app/SectionScreen.tsx:219-221 | toggling the one goal of an id moves its score into or out of the completed score |
| SectionScreen.Screen.constructor | app/SectionScreen.tsx:23-43 | empty goals and fields, score 1, the route's title, colour, date and historical flag |
| SectionScreen.Screen.LoadGoals | app/SectionScreen.tsx:59-84 | the goals on screen become the stored goals of the section |
| SectionScreen.Screen.SaveGoals | app/SectionScreen.tsx:115-172 | the stored records become the saved records |
| SectionScreen.Screen.CloseModal | app/SectionScreen.tsx:246-253 | the modal is hidden and cleared, the score back to 1 |
| SectionScreen.Screen.OpenModal | app/SectionScreen.tsx:226-244 | refused in the past; an edit takes the goal's name and score (a missing goal gives "" and 1, score 0 gives 1); otherwise cleared |
| SectionScreen.Screen.HandleAddGoal | app/SectionScreen.tsx:86-113 | refused in the past and for a blank name, with nothing changed; otherwise the goal is added, saved and the modal closed |
| SectionScreen.Screen.HandleUpdateGoal | app/SectionScreen.tsx:183-202 | refused in the past and for a blank name; otherwise the edited list is shown and saved |
| SectionScreen.Screen.ShowAndSave | app/SectionScreen.tsx:105-108 | the new list is on screen, stored as the section of the selected date (its record or section added when missing), and the modal is closed |
| SectionScreen.Screen.HandleDeleteGoal | app/SectionScreen.tsx:204-213 | refused in the past; otherwise the goal is removed, saved, and no goal is active |
| SectionScreen.Screen.HandleToggleGoal | app/SectionScreen.tsx:215-224 | ignored in the past; otherwise the toggled list is shown and saved |
| HomeScreen.SectionsToShow | app/index.tsx:55-63 | today's sections when today's record has some; else yesterday's record's; else none |
| HomeScreen.NewSection | app/index.tsx:109-115 | a new section has the given title and colour, no goals and both scores 0 |
| HomeScreen.AddSectionToRecords | app/index.tsx:117-127 | the section is appended to the date's first record, all else kept, or a record with only it is appended |
| HomeScreen.AddSectionShows | app/index.tsx:129-134 | after an add the date's record exists and its sections end with the new one |
| HomeScreen.AddKeepsTitlesDistinct | app/index.tsx:88-94 | adding a title no section holds keeps the titles distinct |
| HomeScreen.RenameSection | app/index.tsx:153-157 | only sections titled as the active one get the new title and colour; goals and scores never change |
| HomeScreen.RenameKeepsTitlesDistinct | app/index.tsx:147-157 | when no other section holds the new title, the titles stay distinct after the rename |
| HomeScreen.DeleteSection | app/index.tsx:167-169 | the sections with another title, in order, each as many times as before, and none with the title |
| HomeScreen.PreserveGoals | app/index.tsx:191-203 | each saved section keeps every field and takes the goals of the stored section of its title, when there is one |
| HomeScreen.SaveSectionsInto | app/index.tsx:178-217 | the date's first record takes the merged sections, all else kept, or a new record with the sections is appended |
| HomeScreen.ResaveIsIdentity | app/index.tsx:191-205 | re-saving a record's own sections (distinct titles) changes nothing |
| HomeScreen.Screen.constructor | app/index.tsx:23-34 | no sections, cleared fields, the default colour, today's date |
| HomeScreen.Screen.LoadSections | app/index.tsx:41-68 | with the key present the sections become `SectionsToShow`; with it missing they are kept |
| HomeScreen.Screen.CloseModal | app/index.tsx:255-259 | hidden, title cleared, colour back to the default, the active title left as it was |
| HomeScreen.Screen.OpenModal | app/index.tsx:237-253 | an edit takes the section's title and colour (falling back to "" and the default); otherwise cleared |
| HomeScreen.Screen.HandleAddSection | app/index.tsx:82-139 | a blank title and a title on screen are refused, with nothing changed; otherwise the section is stored and the date's record's sections shown |
| HomeScreen.Screen.AppendSection | app/index.tsx:96-134 | the new empty section is stored after the date's record's sections (or in a new record), that record's sections are shown, and the modal is cleared |
| HomeScreen.Screen.SaveSections | app/index.tsx:178-217 | the stored records become `SaveSectionsInto` of the stored records (missing read as empty) |
| HomeScreen.Screen.HandleUpdateSection | app/index.tsx:141-164 | a blank title and a title held by another section are refused, with nothing changed; otherwise the renamed list is shown and saved |
| HomeScreen.Screen.HandleDelete | app/index.tsx:166-176 | the remaining sections are shown and saved |
| HomeScreen.CheckAndResetGoals | app/index.tsx:227-236 | with the marker at today nothing changes; otherwise the completions are stored before the reset, the goals reset, and the marker set to today |
| HomeScreen.RolloverOncePerDay | app/index.tsx:227-236 | two checks at one moment have the effect of one: nothing changes when the marker is today; otherwise one entry is appended, the goals are reset once and the marker becomes today |
| DashboardScreen.SectionsForDate | app/DashboardScreen.tsx:94-100 | the sections of the date's first record, or none |
| DashboardScreen.FilterSectionData | app/DashboardScreen.tsx:57-75 | none without a record; with "all" every section; otherwise exactly the sections of the selected title, in order and with every copy |
| DashboardScreen.DropdownItems | app/DashboardScreen.tsx:102-107 | one item per section not titled as selected, with label and value its title, and every such section |
| DashboardScreen.DropdownOffersOthers | app/DashboardScreen.tsx:102-107 | every section of the date not titled as selected is offered, and every item offered is that of a section of the date |
| DashboardScreen.ShownAndOffered | app/DashboardScreen.tsx:57-107 | with one section selected the shown sections and the dropdown items together number the day's sections |
| DashboardScreen.HistoricalIffOutsideDay | app/DashboardScreen.tsx:109-113 | the view is live exactly when the clock lies inside the chosen day |
| DashboardScreen.ChartSections | app/DashboardScreen.tsx:157 | exactly the shown sections with a positive total, in order and with every copy |
| FeedbackSummary.SummariseGoal | app/FeebackScreen/FeedbackModal.tsx:75-79 | title, completion and score copied |
| FeedbackSummary.SummariseGoals | app/FeebackScreen/FeedbackModal.tsx:75-79 | same length and order |
| FeedbackSummary.SummariseSection | app/FeebackScreen/FeedbackModal.tsx:68-80 | fields copied; totalGoals is the goal count; goalsCompleted the completed count, at most totalGoals |
| FeedbackSummary.FormatWeeklyData | app/FeebackScreen/FeedbackModal.tsx:66-81 | one summary per record with its date, its sections summarised in order |
| FeedbackSummary.SectionSummaryConsistent | app/FeebackScreen/FeedbackModal.tsx:72-79 | a summary's counts are those of its own projected goal list |

## Left out

- FeedbackSummary.SummariseGoal: copies the goal's text into the summary. The source's summary reads a `title` field that no code writes, since goals store their text under `name`, so the source sends its summary goals with no text.
- getExistingData (scripts/getFromStorage.tsx:10-29) is not modelled: nothing in the core calls it, and it only returns the stored value.
- The time zone is UTC: "today" is the UTC date of the clock reading, and local-time date arithmetic (`setDate`, `getDate`) counts whole UTC days.
- Failure paths are left out. Storage reads and writes always succeed, and JSON is the identity, so every `try`/`catch` and `console` branch is absent.
- The app's first render is not modelled: `useEffect` wiring, navigation, rendering, modal focus timers, colour pickers and styles.
- The feedback service is left out: the network call, parsing its answer, and the modal's load sequence at app/FeebackScreen/FeedbackModal.tsx:49-59. The last is made of the modelled cleanup and weekly fetch.
- Scores are integers. JavaScript numbers are floating point, so fractional scores and sums that overflow to infinity are not modelled.
- The counter's key order assumes the ids are not array-index-like strings. `Object.entries` puts such keys first; ids here are millisecond timestamps, which are too large to count as array indices.
- The sort is modelled as a stable insertion sort. The source's `Array.prototype.sort` is stable too, but any other order it might produce for equal counts is not covered.
- LegacyDashboardManager is modelled over the values it reads and writes rather than through the store class. Its key reads and writes are the `Option` parameters and results.
- handleDelete's unused goal filter (app/index.tsx:171) and the screen's unused `goals` state are left out, since they change nothing.
- Two edits are modelled on values, since the store holds values: handleAddSection edits `currentDayRecord.sections`, and saveGoals and saveSections assign into `dailyRecords[i]`. Each becomes a new record sequence written back. Aliasing between the found record and the array is not modelled beyond that shared first record.
