/** The status a project derives from its start and end dates (`Project.status`). */
module ProjectStatus {
  import opened Wrappers
  import opened Text

  datatype Status = Planning | InProgress | Finished

  const AllStatuses: seq<Status> := [Planning, InProgress, Finished]

  /** `ProjectStatus.name`. */
  function StatusName(s: Status): string {
    match s
    case Planning => "PLANNING"
    case InProgress => "IN_PROGRESS"
    case Finished => "FINISHED"
  }

  predicate Present(date: Option<string>) {
    date.Some? && !IsBlank(date.value)
  }

  /**
   * A present end date means finished, whatever the start date; otherwise a present
   * start date means in progress; otherwise the project is being planned. Null,
   * empty and whitespace-only dates all count as absent.
   */
  function StatusOf(startDate: Option<string>, endDate: Option<string>): (r: Status)
    ensures r == Finished <==> Present(endDate)
    ensures r == InProgress <==> !Present(endDate) && Present(startDate)
    ensures r == Planning <==> !Present(endDate) && !Present(startDate)
  {
    if Present(endDate) then Finished
    else if Present(startDate) then InProgress
    else Planning
  }

  /** A whitespace-only date counts as absent: it gives the same status as null. */
  lemma BlankDatesAreAbsent(startDate: Option<string>, blank: string)
    requires IsBlank(blank)
    ensures StatusOf(startDate, Some(blank)) == StatusOf(startDate, None)
    ensures StatusOf(Some(blank), None) == Planning
  {
  }

  /** The names of the statuses are pairwise different. */
  lemma StatusNamesDistinct(a: Status, b: Status)
    requires a != b
    ensures StatusName(a) != StatusName(b)
  {
  }
}
