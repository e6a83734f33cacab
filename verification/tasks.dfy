/** A to-do entry and its lifecycle state: `Task`, `TaskStatus`, the
    status synonym table (`FromStr`) and its display names (`Display`). */
module Tasks {
  import opened Results
  import opened Decimal
  import opened Strings

  /** Any status may follow any other; nothing restricts transitions. */
  datatype TaskStatus = NotStarted | InProgress | Completed

  datatype Task = Task(id: u32, description: string, status: TaskStatus)

  /** `Task::new`: a fresh task carries the given id and description and
      has not been started. */
  function NewTask(id: u32, description: string): (t: Task)
    ensures t.id == id && t.description == description
    ensures t.status == NotStarted
  {
    Task(id, description, NotStarted)
  }

  const StatusParseError := "Error while parsing task status"

  /** `TaskStatus::from_str`: a closed table of two spellings per state,
      matched exactly (no trimming, no case folding). */
  function ParseStatus(s: string): (r: Result<TaskStatus>)
    ensures r == Success(NotStarted) <==> s == "not started" || s == "ns"
    ensures r == Success(InProgress) <==> s == "in progress" || s == "ip"
    ensures r == Success(Completed) <==> s == "completed" || s == "c"
    ensures r.Failure? ==> r.error == StatusParseError
  {
    if s == "not started" || s == "ns" then Success(NotStarted)
    else if s == "in progress" || s == "ip" then Success(InProgress)
    else if s == "completed" || s == "c" then Success(Completed)
    else Failure(StatusParseError)
  }

  /** `Display for TaskStatus`: the human-readable name of a state. */
  function StatusName(st: TaskStatus): (name: string)
    ensures |name| > 0 && '\n' !in name && '\t' !in name
    ensures name[|name| - 1] != '\n'
  {
    match st
    case NotStarted => "Not Started"
    case InProgress => "In Progress"
    case Completed => "Completed"
  }

  /** Distinct states have distinct display names. */
  lemma StatusNameInjective(a: TaskStatus, b: TaskStatus)
    ensures StatusName(a) == StatusName(b) ==> a == b
  {
  }

  /** The display name of every state, lowercased, is one of its accepted
      spellings: `Display` and `FromStr` agree up to case. */
  lemma StatusNameParsesBack(st: TaskStatus)
    ensures ParseStatus(ToLower(StatusName(st))) == Success(st)
  {
    match st
    case NotStarted =>
      assert ToLower("Not Started") == "not started";
    case InProgress =>
      assert ToLower("In Progress") == "in progress";
    case Completed =>
      assert ToLower("Completed") == "completed";
  }

  /** The three display names shown to the user. */
  lemma StatusNames()
    ensures StatusName(NotStarted) == "Not Started"
    ensures StatusName(InProgress) == "In Progress"
    ensures StatusName(Completed) == "Completed"
  {
  }

  /** Near misses are rejected: the empty string, a spelling without its
      space, other words, and any capitalised spelling. */
  lemma ParseStatusRejects()
    ensures ParseStatus("").Failure?
    ensures ParseStatus("notstarted").Failure?
    ensures ParseStatus("done").Failure?
    ensures ParseStatus("invalid").Failure?
    ensures ParseStatus("Completed").Failure?
  {
  }
}
