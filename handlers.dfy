/** The reply logic of the tool handlers in `src/index.ts`: the default
    exclusion of done to-dos, the listing without timestamps, the activity
    report's counts, the not-found replies and the due-date view. The
    rendering of replies as JSON text is not modelled; a reply is the value
    the handler serialises. */
module Handlers {
  import opened Wrappers
  import opened Strings
  import opened Types
  import opened Records
  import opened Ordering
  import opened Store

  // ----- get-todos -----

  /** `status ? undefined : TodoStatus.DONE`: every status value is a
      non-empty string, so a given status is always truthy. */
  function ExcludedStatus(status: Option<TodoStatus>): (r: Option<TodoStatus>)
    ensures r.Some? <==> status.None?
    ensures r.Some? ==> r.value == Done
  {
    if status.Some? then None else Some(Done)
  }

  /** What get-todos lists, read directly: the given status, or anything
      but Done when none is given; and the priorities asked for. */
  predicate Listed(t: Todo, args: GetTodosArgs)
  {
    (if args.status.Some? then t.status == args.status.value else t.status != Done)
    && (args.priority.Some? ==> t.priority in args.priority.value)
  }

  /** The priority list of the arguments, passed on as the array filter. */
  function PriorityArgument(args: GetTodosArgs): Option<PriorityFilter>
  {
    if args.priority.Some? then Some(AnyOf(args.priority.value)) else None
  }

  /** Done to-dos are left out exactly when no status is asked for. */
  lemma DefaultExclusion(t: Todo, args: GetTodosArgs)
    ensures Selected(t, args.status, ExcludedStatus(args.status), PriorityArgument(args)) <==> Listed(t, args)
  {
  }

  /** A listed to-do without `created_at` and `updated_at`. */
  datatype TodoView = TodoView(
    id: int,
    name: string,
    priority: TodoPriority,
    status: TodoStatus,
    notes: Option<string>,
    dueDate: Option<int>)

  function View(t: Todo): TodoView
  {
    TodoView(t.id, t.name, t.priority, t.status, t.notes, t.dueDate)
  }

  /** The view forgets the two timestamps and nothing else. */
  lemma ViewForgetsOnlyTimestamps(a: Todo, b: Todo)
    ensures View(a) == View(b) <==> a.(createdAt := b.createdAt, updatedAt := b.updatedAt) == b
  {
  }

  /** `todos.map(({ created_at, updated_at, ...rest }) => rest)`: one view
      per to-do, in the same order. */
  function Views(ts: seq<Todo>): (r: seq<TodoView>)
    ensures |r| == |ts|
    ensures forall i :: 0 <= i < |ts| ==> r[i] == View(ts[i])
  {
    if ts == [] then [] else [View(ts[0])] + Views(ts[1..])
  }

  /** Mapping commutes with concatenation. */
  lemma ViewsAppend(a: seq<Todo>, b: seq<Todo>)
    ensures Views(a + b) == Views(a) + Views(b)
  {
  }

  /** The get-todos handler: the store's answer for the given status, or
      with Done excluded when none is given, shown without timestamps. */
  method GetTodosTool(db: TodoStore, args: GetTodosArgs) returns (todos: seq<Todo>, reply: seq<TodoView>)
    requires db.Valid()
    ensures reply == Views(todos)
    ensures forall t :: t in todos ==> t.id in db.rows && ToTodo(db.rows[t.id]) == t && Listed(t, args)
    ensures forall id :: id in db.rows && Listed(ToTodo(db.rows[id]), args) ==> ToTodo(db.rows[id]) in todos
    ensures DistinctIds(todos) && Sorted(todos) && TiesByDescending(todos, ByCreatedAt)
  {
    todos := db.GetTodos(args.status, ExcludedStatus(args.status), PriorityArgument(args));
    forall t: Todo {
      DefaultExclusion(t, args);
    }
    reply := Views(todos);
  }

  // ----- generate-todo-report -----

  /** `todos.filter(todo => (todo.status === TodoStatus.DONE) === done)`. */
  function FilterDone(ts: seq<Todo>, done: bool): (r: seq<Todo>)
    ensures |r| <= |ts|
    ensures forall t :: t in r ==> t in ts && (t.status == Done) == done
  {
    if ts == [] then []
    else (if (ts[0].status == Done) == done then [ts[0]] else []) + FilterDone(ts[1..], done)
  }

  /** The done and the not-done to-dos together are the list, each to-do
      as often as it occurs in it. */
  lemma {:induction false} FilterDonePartition(ts: seq<Todo>)
    ensures multiset(FilterDone(ts, true)) + multiset(FilterDone(ts, false)) == multiset(ts)
    ensures |FilterDone(ts, true)| + |FilterDone(ts, false)| == |ts|
  {
    if ts != [] {
      FilterDonePartition(ts[1..]);
      assert ts == [ts[0]] + ts[1..];
    }
  }

  /** The report object. */
  datatype Report = Report(
    timeframe: string,
    totalTodos: nat,
    completedTodos: nat,
    updatedTodos: nat,
    todos: seq<TodoView>)

  /** The report on the to-dos of the last `days` days. */
  function BuildReport(days: nat, ts: seq<Todo>): (r: Report)
    ensures r.totalTodos == |ts| && r.todos == Views(ts)
    ensures r.completedTodos + r.updatedTodos == r.totalTodos
    ensures r.completedTodos == |FilterDone(ts, true)| && r.updatedTodos == |FilterDone(ts, false)|
    ensures EndsWith(r.timeframe, " days")
    ensures var n := r.timeframe[..|r.timeframe| - 5]; 1 <= |n| && AllDigits(n) && DecimalValue(n) == days
  {
    FilterDonePartition(ts);
    var r := Report(NatToString(days) + " days", |ts|, |FilterDone(ts, true)|, |FilterDone(ts, false)|, Views(ts));
    assert r.timeframe[..|r.timeframe| - 5] == NatToString(days);
    r
  }

  /** Without a completed to-do, every reported to-do counts as updated. */
  lemma {:induction false} NothingCompleted(days: nat, ts: seq<Todo>)
    requires forall i :: 0 <= i < |ts| ==> ts[i].status != Done
    ensures FilterDone(ts, true) == [] && FilterDone(ts, false) == ts
    ensures BuildReport(days, ts).completedTodos == 0 && BuildReport(days, ts).updatedTodos == |ts|
  {
    if ts != [] {
      NothingCompleted(days, ts[1..]);
      assert ts == [ts[0]] + ts[1..];
    }
  }

  /** The report handler. The cutoff instant (`days` before now) is
      computed from the wall clock and is given. */
  method ReportTool(db: TodoStore, days: nat, cutoff: int) returns (todos: seq<Todo>, report: Report)
    requires db.Valid()
    ensures report == BuildReport(days, todos)
    ensures forall t :: t in todos ==> t.id in db.rows && ToTodo(db.rows[t.id]) == t && t.updatedAt >= cutoff
    ensures forall id :: id in db.rows && db.rows[id].updatedAt >= cutoff ==> ToTodo(db.rows[id]) in todos
    ensures DistinctIds(todos) && Sorted(todos) && TiesByDescending(todos, ByUpdatedAt)
  {
    todos := db.GetTodosUpdatedSince(cutoff);
    report := BuildReport(days, todos);
  }

  // ----- the replies about one to-do -----

  /** `To-do with ID ${id} not found`. */
  function NotFoundText(id: int): (r: string)
    ensures StartsWith(r, "To-do with ID ") && EndsWith(r, " not found")
    ensures |r| >= 25 && r[14..|r| - 10] == IntToString(id)
  {
    var r := "To-do with ID " + IntToString(id) + " not found";
    assert r[14..|r| - 10] == IntToString(id);
    r
  }

  /** Decimal rendering loses nothing. */
  lemma IntToStringInjective(a: int, b: int)
    requires IntToString(a) == IntToString(b)
    ensures a == b
  {
    if a < 0 && b < 0 {
      assert NatToString(-a) == IntToString(a)[1..];
    }
  }

  /** The not-found reply names the id asked for. */
  lemma NotFoundNamesId(a: int, b: int)
    requires NotFoundText(a) == NotFoundText(b)
    ensures a == b
  {
    IntToStringInjective(a, b);
  }

  datatype Reply = NotFound(message: string) | Shown(heading: string, todo: Todo)

  const CreatedHeading := "Created to-do: "
  const MarkedDoneHeading := "Marked to-do as done with completion note: "
  const UpdatedHeading := "Updated to-do: "
  const AppendedHeading := "Appended notes to to-do: "

  /** The handler's reply to the store's answer: not found for null. */
  function StoreReply(id: int, result: Option<Todo>, heading: string): (r: Reply)
    ensures r.NotFound? <==> result.None?
    ensures r.NotFound? ==> r.message == NotFoundText(id)
    ensures r.Shown? ==> r.heading == heading && r.todo == result.value
  {
    match result
    case None => NotFound(NotFoundText(id))
    case Some(t) => Shown(heading, t)
  }

  /** The create-todo handler. */
  method CreateTodoTool(db: TodoStore, args: CreateTodoArgs, now: int) returns (reply: Reply)
    requires db.Valid()
    modifies db
    ensures db.Valid() && reply.Shown? && reply.heading == CreatedHeading
    ensures reply.todo.id == old(db.nextId) && reply.todo.id !in old(db.rows)
    ensures reply.todo.id in db.rows && db.rows == old(db.rows)[reply.todo.id := db.rows[reply.todo.id]] && reply.todo == ToTodo(db.rows[reply.todo.id])
    ensures reply.todo.name == args.name && reply.todo.priority == args.priority && reply.todo.dueDate == args.dueDate
    ensures reply.todo.status == (if args.status.Some? then args.status.value else InProgress)
    ensures reply.todo.notes.None? && reply.todo.createdAt == now && reply.todo.updatedAt == now
  {
    var t := db.CreateTodo(args, now);
    reply := Shown(CreatedHeading, t);
  }

  /** The mark-todo-done handler. */
  method MarkTodoDoneTool(db: TodoStore, id: int, notes: string, now: int) returns (reply: Reply)
    requires db.Valid()
    modifies db
    ensures db.Valid()
    ensures reply.NotFound? <==> id !in old(db.rows)
    ensures reply.NotFound? ==> reply.message == NotFoundText(id) && db.rows == old(db.rows)
    ensures reply.Shown? ==> reply.heading == MarkedDoneHeading && id in db.rows && reply.todo == ToTodo(db.rows[id]) && reply.todo.status == Done
  {
    var r := db.MarkTodoDone(id, notes, now);
    reply := StoreReply(id, r, MarkedDoneHeading);
  }

  /** The update-todo handler. */
  method UpdateTodoTool(db: TodoStore, args: UpdateTodoArgs, now: int) returns (reply: Reply)
    requires db.Valid()
    modifies db
    ensures db.Valid()
    ensures reply.NotFound? <==> args.id !in old(db.rows) || PatchEmpty(args.patch)
    ensures reply.NotFound? ==> reply.message == NotFoundText(args.id) && db.rows == old(db.rows)
    ensures reply.Shown? ==> reply.heading == UpdatedHeading && args.id in db.rows && reply.todo == ToTodo(db.rows[args.id])
  {
    var r := db.UpdateTodo(args.id, args.patch, now);
    reply := StoreReply(args.id, r, UpdatedHeading);
  }

  /** The append-todo-notes handler. */
  method AppendTodoNotesTool(db: TodoStore, id: int, notes: string, now: int) returns (reply: Reply)
    requires db.Valid()
    modifies db
    ensures db.Valid()
    ensures reply.NotFound? <==> id !in old(db.rows)
    ensures reply.NotFound? ==> reply.message == NotFoundText(id) && db.rows == old(db.rows)
    ensures reply.Shown? ==> reply.heading == AppendedHeading && id in db.rows && reply.todo == ToTodo(db.rows[id])
  {
    var r := db.AppendTodoNotes(id, notes, now);
    reply := StoreReply(id, r, AppendedHeading);
  }

  // ----- get-todos-with-due-dates -----

  /** One bucket of the due-date view: its count and its to-dos. */
  datatype Bucket = Bucket(count: nat, todos: seq<TodoView>)

  datatype DueView = DueView(today: Bucket, tomorrow: Bucket, future: Bucket)

  function BucketOf(ts: seq<Todo>): (b: Bucket)
    ensures b.count == |b.todos| == |ts|
    ensures b.todos == Views(ts)
  {
    Bucket(|ts|, Views(ts))
  }

  /** The due-date view of the three lists the store hands back; the
      bucketing itself is not part of this model. */
  function DueDateView(today: seq<Todo>, tomorrow: seq<Todo>, future: seq<Todo>): (v: DueView)
    ensures v.today.count == |v.today.todos| && v.tomorrow.count == |v.tomorrow.todos| && v.future.count == |v.future.todos|
    ensures v.today.todos == Views(today) && v.tomorrow.todos == Views(tomorrow) && v.future.todos == Views(future)
  {
    DueView(BucketOf(today), BucketOf(tomorrow), BucketOf(future))
  }
}
