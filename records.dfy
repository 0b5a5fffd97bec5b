/** The rows of the store's `todo` table and the four enum mappings of
    `src/database.ts` between the service's enums and the store's generated
    enums (stored by the member names `Low`.., `PENDING`..). */
module Records {
  import opened Wrappers
  import opened Types

  /** The store's `Priority` enum. */
  datatype DbPriority = DbLow | DbMedium | DbHigh | DbUrgent

  /** The store's `Status` enum. */
  datatype DbStatus = DbPending | DbWaitingOnOthers | DbStayAware | DbInProgress | DbDone

  /** One row of the `todo` table. */
  datatype Row = Row(
    id: int,
    name: string,
    priority: DbPriority,
    status: DbStatus,
    notes: Option<string>,
    dueDate: Option<int>,
    createdAt: int,
    updatedAt: int)

  /** The name under which the store keeps each priority. */
  function DbPriorityName(p: DbPriority): string
  {
    match p
    case DbLow => "Low"
    case DbMedium => "Medium"
    case DbHigh => "High"
    case DbUrgent => "Urgent"
  }

  /** The name under which the store keeps each status. */
  function DbStatusName(s: DbStatus): string
  {
    match s
    case DbPending => "PENDING"
    case DbWaitingOnOthers => "WAITING_ON_OTHERS"
    case DbStayAware => "STAY_AWARE"
    case DbInProgress => "IN_PROGRESS"
    case DbDone => "DONE"
  }

  /** The store accepts a priority name only if it is one of its members. */
  function DbPriorityFromName(n: string): (r: Option<DbPriority>)
    ensures r.Some? ==> DbPriorityName(r.value) == n
    ensures r.None? <==> forall p: DbPriority :: DbPriorityName(p) != n
  {
    if n == "Low" then Some(DbLow)
    else if n == "Medium" then Some(DbMedium)
    else if n == "High" then Some(DbHigh)
    else if n == "Urgent" then Some(DbUrgent)
    else None
  }

  /** The store accepts a status name only if it is one of its members. */
  function DbStatusFromName(n: string): (r: Option<DbStatus>)
    ensures r.Some? ==> DbStatusName(r.value) == n
    ensures r.None? <==> forall s: DbStatus :: DbStatusName(s) != n
  {
    if n == "PENDING" then Some(DbPending)
    else if n == "WAITING_ON_OTHERS" then Some(DbWaitingOnOthers)
    else if n == "STAY_AWARE" then Some(DbStayAware)
    else if n == "IN_PROGRESS" then Some(DbInProgress)
    else if n == "DONE" then Some(DbDone)
    else None
  }

  /** `mapPrismaStatusToTodoStatus`. */
  function StatusFromDb(d: DbStatus): TodoStatus
  {
    match d
    case DbPending => Pending
    case DbWaitingOnOthers => WaitingOnOthers
    case DbStayAware => StayAware
    case DbInProgress => InProgress
    case DbDone => Done
  }

  /** `mapTodoStatusToPrismaStatus`; undone by `StatusFromDb`. The source's
      `default: throw` cannot be reached on the closed enum. */
  function StatusToDb(s: TodoStatus): (d: DbStatus)
    ensures StatusFromDb(d) == s
  {
    match s
    case Pending => DbPending
    case WaitingOnOthers => DbWaitingOnOthers
    case StayAware => DbStayAware
    case InProgress => DbInProgress
    case Done => DbDone
  }

  /** `mapPrismaPriorityToTodoPriority`. */
  function PriorityFromDb(d: DbPriority): TodoPriority
  {
    match d
    case DbLow => Low
    case DbMedium => Medium
    case DbHigh => High
    case DbUrgent => Urgent
  }

  /** `mapTodoPriorityToPrismaPriority`; undone by `PriorityFromDb`. */
  function PriorityToDb(p: TodoPriority): (d: DbPriority)
    ensures PriorityFromDb(d) == p
  {
    match p
    case Low => DbLow
    case Medium => DbMedium
    case High => DbHigh
    case Urgent => DbUrgent
  }

  /** The other direction of the round trip: store values come back unchanged. */
  lemma DbEnumsRoundTrip(d: DbStatus, q: DbPriority)
    ensures StatusToDb(StatusFromDb(d)) == d
    ensures PriorityToDb(PriorityFromDb(q)) == q
  {
  }

  /** The mapping applied to every row the service reads. */
  function ToTodo(r: Row): (t: Todo)
    ensures t.id == r.id && t.createdAt == r.createdAt && t.updatedAt == r.updatedAt
    ensures t.name == r.name && t.notes == r.notes && t.dueDate == r.dueDate
    ensures PriorityToDb(t.priority) == r.priority && StatusToDb(t.status) == r.status
  {
    Todo(r.id, r.name, PriorityFromDb(r.priority), StatusFromDb(r.status), r.notes, r.dueDate, r.createdAt, r.updatedAt)
  }

  /** Reading a row loses nothing: distinct rows give distinct to-dos. */
  lemma ToTodoInjective(a: Row, b: Row)
    requires ToTodo(a) == ToTodo(b)
    ensures a == b
  {
    DbEnumsRoundTrip(a.status, a.priority);
    DbEnumsRoundTrip(b.status, b.priority);
  }
}
