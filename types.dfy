/** The stored data of the goal tracker (app/types.tsx), with dates as day numbers
    and timestamps as integer milliseconds since the Unix epoch. */
module Types {

  datatype Option<+T> = None | Some(value: T) {
    /** `x || fallback` in the source, for a value that is either present or null. */
    function GetOr(fallback: T): T {
      match this
      case Some(v) => v
      case None => fallback
    }
  }

  /** A calendar date in the source's "YYYY-MM-DD" form, counted in days since
      1970-01-01 (UTC). */
  type Day = int

  /** Goal ids are the decimal text of a millisecond timestamp. */
  type GoalId = string

  const MsPerDay: int := 86400000

  /** The UTC day a millisecond timestamp falls in: `toISOString().split("T")[0]`. */
  function DayOf(ms: int): Day {
    ms / MsPerDay
  }

  /** The timestamp of a date's midnight: `new Date("YYYY-MM-DD").getTime()`. */
  function DayStart(d: Day): int {
    d * MsPerDay
  }

  /** A goal. The declared interface names its text `title`; the model uses that one
      field for it throughout. */
  datatype Goal = Goal(
    id: GoalId,
    title: string,
    score: int,
    completed: bool,
    sectionTitle: string,
    creationDate: int)

  /** The title and colour of a section, as stored under the legacy `sections` key. */
  datatype Section = Section(title: string, color: string)

  /** A section of one day's record: always carries its scores and its goal list. */
  datatype SectionData = SectionData(
    title: string,
    color: string,
    totalScore: int,
    completedScore: int,
    goals: seq<Goal>)

  /** One day's snapshot: exactly one date and the sections of that day. */
  datatype DailyRecord = DailyRecord(date: Day, sections: seq<SectionData>)

  /** An entry of the completion history: a date, the ids of the goals completed that
      day, and the sections as they were. */
  datatype DailyCompletion = DailyCompletion(
    date: Day,
    completedGoals: seq<GoalId>,
    sectionData: seq<SectionData>)

  /** One line of the most/least completed goal lists. */
  datatype GoalRef = GoalRef(id: GoalId, name: string)

  datatype WeeklyStats = WeeklyStats(
    mostCompletedGoals: seq<GoalRef>,
    leastCompletedGoals: seq<GoalRef>,
    dailyCompletions: map<Day, seq<SectionData>>)

  /** The cached day kept by the reconciler. */
  datatype ExistingData = ExistingData(date: Day, sections: seq<SectionData>)

  /** The section shape written under the `dailyCompletion` key: a title and its goals. */
  datatype CompletionSection = CompletionSection(title: string, goals: seq<Goal>)

  datatype CompletionData = CompletionData(date: Day, sections: seq<CompletionSection>)

  /** What a handler reports: the change was saved, the modal opened, or the alert it
      showed instead. */
  datatype Outcome = Saved | Opened | EmptyTitle | DuplicateTitle | HistoricalEditRejected
}
