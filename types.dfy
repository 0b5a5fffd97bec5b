/** The closed enumerations, the Todo record and the argument schemas of
    `src/types.ts`. Each schema becomes a function from the raw argument values
    (enum values still as their strings) to either the validated arguments or
    the list of issues the schema reports. */
module Types {
  import opened Wrappers

  datatype TodoStatus = Pending | WaitingOnOthers | StayAware | InProgress | Done

  datatype TodoPriority = Low | Medium | High | Urgent

  /** A to-do as the service hands it out (`TodoSchema`). Dates are time
      values (milliseconds since the epoch). */
  datatype Todo = Todo(
    id: int,
    name: string,
    priority: TodoPriority,
    status: TodoStatus,
    notes: Option<string>,
    dueDate: Option<int>,
    createdAt: int,
    updatedAt: int)

  const AllStatuses: seq<TodoStatus> := [Pending, WaitingOnOthers, StayAware, InProgress, Done]

  const AllPriorities: seq<TodoPriority> := [Low, Medium, High, Urgent]

  /** The string value of each `TodoStatus` member. */
  function StatusLabel(s: TodoStatus): string
  {
    match s
    case Pending => "Pending"
    case WaitingOnOthers => "Waiting on others"
    case StayAware => "Stay aware"
    case InProgress => "In progress"
    case Done => "Done"
  }

  /** The string value of each `TodoPriority` member. */
  function PriorityLabel(p: TodoPriority): string
  {
    match p
    case Low => "Low"
    case Medium => "Medium"
    case High => "High"
    case Urgent => "Urgent"
  }

  /** `z.nativeEnum(TodoStatus)`: accepts exactly the five string values. */
  function StatusFromLabel(l: string): (r: Option<TodoStatus>)
    ensures r.Some? ==> StatusLabel(r.value) == l
    ensures r.None? <==> forall s: TodoStatus :: StatusLabel(s) != l
  {
    if l == "Pending" then Some(Pending)
    else if l == "Waiting on others" then Some(WaitingOnOthers)
    else if l == "Stay aware" then Some(StayAware)
    else if l == "In progress" then Some(InProgress)
    else if l == "Done" then Some(Done)
    else None
  }

  /** `z.nativeEnum(TodoPriority)`: accepts exactly the four string values. */
  function PriorityFromLabel(l: string): (r: Option<TodoPriority>)
    ensures r.Some? ==> PriorityLabel(r.value) == l
    ensures r.None? <==> forall p: TodoPriority :: PriorityLabel(p) != l
  {
    if l == "Low" then Some(Low)
    else if l == "Medium" then Some(Medium)
    else if l == "High" then Some(High)
    else if l == "Urgent" then Some(Urgent)
    else None
  }

  /** The status set has exactly five members and the priority set exactly
      four: every value is listed, and the listings have no repeats. */
  lemma ClosedSets()
    ensures forall s: TodoStatus :: s in AllStatuses
    ensures forall p: TodoPriority :: p in AllPriorities
    ensures |AllStatuses| == 5 && forall i, j :: 0 <= i < j < 5 ==> AllStatuses[i] != AllStatuses[j]
    ensures |AllPriorities| == 4 && forall i, j :: 0 <= i < j < 4 ==> AllPriorities[i] != AllPriorities[j]
  {
    forall s: TodoStatus ensures s in AllStatuses {
      match s
      case Pending => assert AllStatuses[0] == s;
      case WaitingOnOthers => assert AllStatuses[1] == s;
      case StayAware => assert AllStatuses[2] == s;
      case InProgress => assert AllStatuses[3] == s;
      case Done => assert AllStatuses[4] == s;
    }
    forall p: TodoPriority ensures p in AllPriorities {
      match p
      case Low => assert AllPriorities[0] == p;
      case Medium => assert AllPriorities[1] == p;
      case High => assert AllPriorities[2] == p;
      case Urgent => assert AllPriorities[3] == p;
    }
  }

  /** Every enum value survives the trip to its string and back, so distinct
      values have distinct strings. */
  lemma LabelsRoundTrip(s: TodoStatus, p: TodoPriority)
    ensures StatusFromLabel(StatusLabel(s)) == Some(s)
    ensures PriorityFromLabel(PriorityLabel(p)) == Some(p)
  {
  }

  lemma LabelsInjective(s: TodoStatus, s': TodoStatus, p: TodoPriority, p': TodoPriority)
    ensures StatusLabel(s) == StatusLabel(s') ==> s == s'
    ensures PriorityLabel(p) == PriorityLabel(p') ==> p == p'
  {
    LabelsRoundTrip(s, p);
    LabelsRoundTrip(s', p');
  }

  // ----- argument schemas -----

  /** The issues the schemas can report; the two notes constraints carry
      different messages in the source. */
  datatype Issue =
    | NameRequired
    | InvalidPriority
    | InvalidStatus
    | NotesRequiredWhenDone
    | NotesCannotBeEmpty
    | DaysBelowMinimum
    | DaysAboveMaximum

  datatype CreateTodoInput = CreateTodoInput(name: string, priority: string, status: Option<string>, dueDate: Option<int>)

  datatype CreateTodoArgs = CreateTodoArgs(name: string, priority: TodoPriority, status: Option<TodoStatus>, dueDate: Option<int>)

  function OptionalStatus(l: Option<string>): Option<Option<TodoStatus>>
  {
    match l
    case None => Some(None)
    case Some(x) => if StatusFromLabel(x).Some? then Some(StatusFromLabel(x)) else None
  }

  function OptionalPriority(l: Option<string>): Option<Option<TodoPriority>>
  {
    match l
    case None => Some(None)
    case Some(x) => if PriorityFromLabel(x).Some? then Some(PriorityFromLabel(x)) else None
  }

  /** `CreateTodoSchema`: a non-empty name, a valid priority, an optional valid
      status and an optional due date. All failing constraints are reported. */
  function ParseCreateTodo(i: CreateTodoInput): (r: Result<CreateTodoArgs, seq<Issue>>)
    ensures r.Ok? <==> |i.name| >= 1 && PriorityFromLabel(i.priority).Some?
                       && (i.status.None? || StatusFromLabel(i.status.value).Some?)
    ensures r.Ok? ==> r.value.name == i.name && PriorityLabel(r.value.priority) == i.priority
                      && r.value.dueDate == i.dueDate
                      && (r.value.status.None? <==> i.status.None?)
                      && (r.value.status.Some? ==> StatusLabel(r.value.status.value) == i.status.value)
    ensures r.Err? ==> (NameRequired in r.error <==> |i.name| < 1)
                       && (InvalidPriority in r.error <==> PriorityFromLabel(i.priority).None?)
                       && (InvalidStatus in r.error <==> (i.status.Some? && StatusFromLabel(i.status.value).None?))
  {
    var issues := (if |i.name| < 1 then [NameRequired] else [])
      + (if PriorityFromLabel(i.priority).None? then [InvalidPriority] else [])
      + (if OptionalStatus(i.status).None? then [InvalidStatus] else []);
    if issues == [] then
      Ok(CreateTodoArgs(i.name, PriorityFromLabel(i.priority).value, OptionalStatus(i.status).value, i.dueDate))
    else
      Err(issues)
  }

  datatype UpdateTodoInput = UpdateTodoInput(
    id: int, name: Option<string>, priority: Option<string>, status: Option<string>,
    notes: Option<string>, dueDate: Option<int>)

  /** The validated update: every field but `id` optional. */
  datatype TodoPatch = TodoPatch(
    name: Option<string>, priority: Option<TodoPriority>, status: Option<TodoStatus>,
    notes: Option<string>, dueDate: Option<int>)

  datatype UpdateTodoArgs = UpdateTodoArgs(id: int, patch: TodoPatch)

  /** `UpdateTodoSchema`: only the id is required; name and notes carry no
      length constraint; enum fields must be valid when present. */
  function ParseUpdateTodo(i: UpdateTodoInput): (r: Result<UpdateTodoArgs, seq<Issue>>)
    ensures r.Ok? <==> (i.priority.None? || PriorityFromLabel(i.priority.value).Some?)
                       && (i.status.None? || StatusFromLabel(i.status.value).Some?)
    ensures r.Ok? ==> r.value.id == i.id && r.value.patch.name == i.name
                      && r.value.patch.notes == i.notes && r.value.patch.dueDate == i.dueDate
                      && (r.value.patch.priority.Some? <==> i.priority.Some?)
                      && (r.value.patch.status.Some? <==> i.status.Some?)
    ensures r.Ok? && i.priority.Some? ==> PriorityLabel(r.value.patch.priority.value) == i.priority.value
    ensures r.Ok? && i.status.Some? ==> StatusLabel(r.value.patch.status.value) == i.status.value
  {
    var issues := (if OptionalPriority(i.priority).None? then [InvalidPriority] else [])
      + (if OptionalStatus(i.status).None? then [InvalidStatus] else []);
    if issues == [] then
      Ok(UpdateTodoArgs(i.id, TodoPatch(i.name, OptionalPriority(i.priority).value, OptionalStatus(i.status).value, i.notes, i.dueDate)))
    else
      Err(issues)
  }

  /** An update carrying nothing but an empty note is accepted. */
  lemma EmptyNotesUpdateAccepted(id: int)
    ensures ParseUpdateTodo(UpdateTodoInput(id, None, None, None, Some(""), None))
            == Ok(UpdateTodoArgs(id, TodoPatch(None, None, None, Some(""), None)))
  {
  }

  datatype GetTodosInput = GetTodosInput(status: Option<string>, priority: Option<seq<string>>)

  datatype GetTodosArgs = GetTodosArgs(status: Option<TodoStatus>, priority: Option<seq<TodoPriority>>)

  /** Each label of the list mapped to its priority, or None if one is invalid. */
  function PrioritiesFromLabels(ls: seq<string>): (r: Option<seq<TodoPriority>>)
    ensures r.Some? <==> forall i :: 0 <= i < |ls| ==> PriorityFromLabel(ls[i]).Some?
    ensures r.Some? ==> |r.value| == |ls| && forall i :: 0 <= i < |ls| ==> PriorityLabel(r.value[i]) == ls[i]
  {
    if ls == [] then Some([])
    else
      var head := PriorityFromLabel(ls[0]);
      var tail := PrioritiesFromLabels(ls[1..]);
      if head.Some? && tail.Some? then Some([head.value] + tail.value) else None
  }

  /** `GetTodosSchema`: an optional status where "" counts as absent, and an
      optional list of priorities. */
  function ParseGetTodos(i: GetTodosInput): (r: Result<GetTodosArgs, seq<Issue>>)
    ensures i.status == Some("") && r.Ok? ==> r.value.status.None?
    ensures r.Ok? <==> (i.status.None? || i.status.value == "" || StatusFromLabel(i.status.value).Some?)
                       && (i.priority.None? || PrioritiesFromLabels(i.priority.value).Some?)
    ensures r.Ok? ==> (r.value.status.Some? ==> i.status == Some(StatusLabel(r.value.status.value)))
                      && (r.value.priority.None? <==> i.priority.None?)
    ensures r.Ok? && i.priority.Some? ==> Some(r.value.priority.value) == PrioritiesFromLabels(i.priority.value)
    ensures r.Ok? && i.status.Some? && i.status.value != "" ==> r.value.status == StatusFromLabel(i.status.value)
  {
    var status := if i.status == Some("") then Some(None) else OptionalStatus(i.status);
    var priority := match i.priority
      case None => Some(None)
      case Some(ls) => if PrioritiesFromLabels(ls).Some? then Some(PrioritiesFromLabels(ls)) else None;
    var issues := (if status.None? then [InvalidStatus] else [])
      + (if priority.None? then [InvalidPriority] else []);
    if issues == [] then Ok(GetTodosArgs(status.value, priority.value)) else Err(issues)
  }

  /** `MarkTodoDoneSchema`: the completion note must be non-empty. */
  function ParseMarkTodoDone(id: int, notes: string): (r: Result<(int, string), seq<Issue>>)
    ensures r.Ok? <==> |notes| >= 1
    ensures r.Ok? ==> r.value == (id, notes)
    ensures r.Err? ==> r.error == [NotesRequiredWhenDone]
  {
    if |notes| < 1 then Err([NotesRequiredWhenDone]) else Ok((id, notes))
  }

  /** `AppendTodoNotesSchema`: the appended note must be non-empty. */
  function ParseAppendTodoNotes(id: int, notes: string): (r: Result<(int, string), seq<Issue>>)
    ensures r.Ok? <==> |notes| >= 1
    ensures r.Ok? ==> r.value == (id, notes)
    ensures r.Err? ==> r.error == [NotesCannotBeEmpty]
  {
    if |notes| < 1 then Err([NotesCannotBeEmpty]) else Ok((id, notes))
  }

  /** `TodoReportSchema`: `days` defaults to 7 and must lie in [1, 365]. */
  function ParseTodoReport(days: Option<int>): (r: Result<int, seq<Issue>>)
    ensures days.None? ==> r == Ok(7)
    ensures r.Ok? <==> days.None? || 1 <= days.value <= 365
    ensures r.Ok? ==> 1 <= r.value <= 365 && (days.Some? ==> r.value == days.value)
  {
    match days
    case None => Ok(7)
    case Some(d) =>
      if d < 1 then Err([DaysBelowMinimum])
      else if d > 365 then Err([DaysAboveMaximum])
      else Ok(d)
  }
}
