/** The `DatabaseService` of `src/database.ts` over an in-memory table: the
    `todo` table is a map from id to row, the next id the store hands out is
    a field, and the instant the store stamps on a mutation is the `now`
    argument of each mutating method. */
module Store {
  import opened Wrappers
  import opened Types
  import opened Records
  import opened Ordering
  import opened Strings

  // ----- the where clauses the service builds -----

  datatype StatusCond = AnyStatus | StatusIs(s: DbStatus) | StatusNot(s: DbStatus)

  datatype PriorityCond = AnyPriority | PriorityIs(p: DbPriority) | PriorityIn(ps: seq<DbPriority>)

  /** The `where` dictionary of `getTodos`. */
  datatype TodoWhere = TodoWhere(status: StatusCond, priority: PriorityCond)

  /** The query a `findMany` call runs: a `getTodos` filter, the report's
      `OR [updated_at >= cutoff, AND [status = DONE, updated_at >= cutoff]]`,
      or the whole table. */
  datatype Query = Where(w: TodoWhere) | UpdatedOrDoneSince(cutoff: int) | Everything

  /** The `orderBy` of a `findMany` call. */
  datatype OrderBy = CreatedAtDesc | CreatedAtAsc | UpdatedAtDesc

  /** The priority argument of `getTodos`: one priority or an array. */
  datatype PriorityFilter = OnePriority(p: TodoPriority) | AnyOf(ps: seq<TodoPriority>)

  predicate RowMatches(w: TodoWhere, row: Row)
  {
    (match w.status
     case AnyStatus => true
     case StatusIs(s) => row.status == s
     case StatusNot(s) => row.status != s)
    &&
    (match w.priority
     case AnyPriority => true
     case PriorityIs(p) => row.priority == p
     case PriorityIn(ps) => row.priority in ps)
  }

  predicate Matches(q: Query, row: Row)
  {
    match q
    case Where(w) => RowMatches(w, row)
    case UpdatedOrDoneSince(cutoff) =>
      row.updatedAt >= cutoff || (row.status == DbDone && row.updatedAt >= cutoff)
    case Everything => true
  }

  /** The report's second disjunct adds nothing: the window is exactly the
      rows updated at or after the cutoff, whatever their status. */
  lemma ReportWindowSubsumed(cutoff: int, row: Row)
    ensures Matches(UpdatedOrDoneSince(cutoff), row) <==> row.updatedAt >= cutoff
  {
  }

  /** Reference reading of the `getTodos` filter on the service's to-dos: a
      given status must be equal; otherwise a given excluded status must
      differ; a single priority must be equal; an array must contain the
      priority (so an empty array admits nothing). */
  predicate Selected(t: Todo, status: Option<TodoStatus>, excluded: Option<TodoStatus>, priority: Option<PriorityFilter>)
  {
    (status.Some? ==> t.status == status.value)
    && (status.None? && excluded.Some? ==> t.status != excluded.value)
    && (match priority
        case None => true
        case Some(OnePriority(p)) => t.priority == p
        case Some(AnyOf(ps)) => t.priority in ps)
  }

  /** Each priority of the array mapped to the store's enum. */
  function PrioritiesToDb(ps: seq<TodoPriority>): (r: seq<DbPriority>)
    ensures |r| == |ps|
    ensures forall d :: d in r <==> PriorityFromDb(d) in ps
  {
    if ps == [] then []
    else
      var r := [PriorityToDb(ps[0])] + PrioritiesToDb(ps[1..]);
      assert forall d :: PriorityFromDb(d) in ps <==> PriorityFromDb(d) == ps[0] || PriorityFromDb(d) in ps[1..] by {
        assert ps == [ps[0]] + ps[1..];
      }
      forall d ensures PriorityFromDb(d) == ps[0] <==> d == PriorityToDb(ps[0]) {
        DbEnumsRoundTrip(DbDone, d);
      }
      r
  }

  /** The `where` dictionary built field by field. */
  function BuildWhere(status: Option<TodoStatus>, excluded: Option<TodoStatus>, priority: Option<PriorityFilter>): (w: TodoWhere)
    ensures forall row :: RowMatches(w, row) <==> Selected(ToTodo(row), status, excluded, priority)
  {
    var sc :=
      if status.Some? then StatusIs(StatusToDb(status.value))
      else if excluded.Some? then StatusNot(StatusToDb(excluded.value))
      else AnyStatus;
    var pc :=
      match priority
      case None => AnyPriority
      case Some(AnyOf(ps)) => PriorityIn(PrioritiesToDb(ps))
      case Some(OnePriority(p)) => PriorityIs(PriorityToDb(p));
    var w := TodoWhere(sc, pc);
    assert forall row :: RowMatches(w, row) <==> Selected(ToTodo(row), status, excluded, priority) by {
      forall row: Row {
        DbEnumsRoundTrip(row.status, row.priority);
      }
    }
    w
  }

  /** `a` may precede `b` in a fetch with this order. */
  predicate InOrder(o: OrderBy, a: Row, b: Row)
  {
    match o
    case CreatedAtDesc => a.createdAt >= b.createdAt
    case CreatedAtAsc => a.createdAt <= b.createdAt
    case UpdatedAtDesc => a.updatedAt >= b.updatedAt
  }

  predicate IsFirst(o: OrderBy, m: map<int, Row>, s: set<int>, id: int)
    requires s <= m.Keys
  {
    id in s && forall other :: other in s ==> InOrder(o, m[id], m[other])
  }

  /** Every non-empty set of rows has one that may come first. */
  lemma FirstExists(o: OrderBy, m: map<int, Row>, s: set<int>) returns (id: int)
    requires s != {} && s <= m.Keys
    ensures IsFirst(o, m, s, id)
    decreases s
  {
    var x := Member(s);
    if s == {x} {
      id := x;
    } else {
      var y := FirstExists(o, m, s - {x});
      id := if InOrder(o, m[x], m[y]) then x else y;
    }
  }

  /** Consecutive and non-consecutive rows alike are in the fetch order. */
  predicate Ordered(o: OrderBy, r: seq<Row>)
  {
    forall i, j :: 0 <= i < j < |r| ==> InOrder(o, r[i], r[j])
  }

  /** Every row fetched so far may precede every row still pending. */
  predicate AllPrecede(o: OrderBy, r: seq<Row>, m: map<int, Row>, pending: set<int>)
    requires pending <= m.Keys
  {
    forall i, id :: 0 <= i < |r| && id in pending ==> InOrder(o, r[i], m[id])
  }

  /** Taking a first pending row keeps the fetch in order. */
  lemma FetchStep(o: OrderBy, m: map<int, Row>, r: seq<Row>, pending: set<int>, id: int)
    requires pending <= m.Keys && IsFirst(o, m, pending, id)
    requires Ordered(o, r) && AllPrecede(o, r, m, pending)
    ensures Ordered(o, r + [m[id]]) && AllPrecede(o, r + [m[id]], m, pending - {id})
  {
    var r' := r + [m[id]];
    forall i, other | 0 <= i < |r'| && other in pending - {id} ensures InOrder(o, r'[i], m[other]) {
      if i < |r| {
        assert r'[i] == r[i];
      }
    }
  }

  /** Some member of a non-empty set. */
  lemma Member<T>(s: set<T>) returns (x: T)
    requires s != {}
    ensures x in s
  {
    assert (forall y :: y !in s) ==> s == {};
    x :| x in s;
  }

  /** The text of optional notes, "" when there are none. */
  function NotesText(notes: Option<string>): string
  {
    match notes
    case None => ""
    case Some(n) => n
  }

  /** The append rule of `updateTodo`, `appendTodoNotes` and `markTodoDone`:
      existing notes stay in front, a blank line separates them from the new
      text, and with no (or empty) notes the new text stands alone. */
  function AppendNotes(prior: Option<string>, added: string): (r: string)
    ensures StartsWith(r, NotesText(prior)) && EndsWith(r, added)
    ensures NotesText(prior) == "" ==> r == added
    ensures NotesText(prior) != "" ==>
              |r| == |NotesText(prior)| + 2 + |added| && r[|NotesText(prior)|..|NotesText(prior)| + 2] == "\n\n"
  {
    if prior.Some? && prior.value != "" then prior.value + "\n\n" + added else added
  }

  /** Notes only grow: after any chain of appends the first notes are still
      the beginning of the text. */
  lemma {:induction false} NotesHistoryKept(first: Option<string>, added: seq<string>)
    ensures StartsWith(AppendAll(first, added), NotesText(first))
    decreases |added|
  {
    if added != [] {
      var prev := AppendAll(first, added[..|added| - 1]);
      NotesHistoryKept(first, added[..|added| - 1]);
      assert StartsWith(AppendNotes(Some(prev), added[|added| - 1]), prev);
    }
  }

  /** The notes after appending every text of `added` in turn. */
  function AppendAll(first: Option<string>, added: seq<string>): string
    decreases |added|
  {
    if added == [] then NotesText(first)
    else AppendNotes(Some(AppendAll(first, added[..|added| - 1])), added[|added| - 1])
  }

  /** The `updateData` dictionary of `updateTodo` has no key. */
  predicate PatchEmpty(p: TodoPatch)
  {
    p.name.None? && p.priority.None? && p.status.None? && p.notes.None? && p.dueDate.None?
  }

  /** The row `updateTodo` writes: each supplied field replaced (notes by the
      append rule), the rest kept, and the update instant stamped. */
  function ApplyPatch(row: Row, p: TodoPatch, now: int): (r: Row)
    ensures r.id == row.id && r.createdAt == row.createdAt && r.updatedAt == now
    ensures p.name.None? ==> r.name == row.name
    ensures p.priority.None? ==> r.priority == row.priority
    ensures p.status.None? ==> r.status == row.status
    ensures p.notes.None? ==> r.notes == row.notes
    ensures p.dueDate.None? ==> r.dueDate == row.dueDate
    ensures p.name.Some? ==> r.name == p.name.value
    ensures p.priority.Some? ==> PriorityFromDb(r.priority) == p.priority.value
    ensures p.status.Some? ==> StatusFromDb(r.status) == p.status.value
    ensures p.notes.Some? ==> r.notes == Some(AppendNotes(row.notes, p.notes.value))
    ensures p.dueDate.Some? ==> r.dueDate == p.dueDate
  {
    Row(row.id,
        if p.name.Some? then p.name.value else row.name,
        if p.priority.Some? then PriorityToDb(p.priority.value) else row.priority,
        if p.status.Some? then StatusToDb(p.status.value) else row.status,
        if p.notes.Some? then Some(AppendNotes(row.notes, p.notes.value)) else row.notes,
        if p.dueDate.Some? then p.dueDate else row.dueDate,
        row.createdAt,
        now)
  }

  /** The completion note `markTodoDone` appends. */
  function CompletionNote(notes: string): (r: string)
    ensures StartsWith(r, "[COMPLETED] ") && EndsWith(r, notes) && |r| == 12 + |notes|
  {
    "[COMPLETED] " + notes
  }

  /** Every row read through the service's mapping. */
  function ToTodos(rs: seq<Row>): (r: seq<Todo>)
    ensures |r| == |rs| && forall i :: 0 <= i < |rs| ==> r[i] == ToTodo(rs[i])
  {
    seq(|rs|, i requires 0 <= i < |rs| => ToTodo(rs[i]))
  }

  class TodoStore {
    var rows: map<int, Row>
    var nextId: int

    /** Each row sits under its own id, and the next id is above them all. */
    ghost predicate Valid()
      reads this
    {
      1 <= nextId && forall k :: k in rows ==> rows[k].id == k && k < nextId
    }

    constructor ()
      ensures Valid() && rows == map[] && nextId == 1
    {
      rows := map[];
      nextId := 1;
    }

    /** `findMany({ where, orderBy })`: the matching rows, each once, in the
        requested order (rows with equal keys in no particular order). */
    method FetchMany(q: Query, o: OrderBy) returns (r: seq<Row>)
      requires Valid()
      ensures forall i :: 0 <= i < |r| ==> r[i].id in rows && rows[r[i].id] == r[i] && Matches(q, r[i])
      ensures forall id :: id in rows && Matches(q, rows[id]) ==> rows[id] in r
      ensures forall i, j :: 0 <= i < j < |r| ==> r[i].id != r[j].id
      ensures Ordered(o, r)
    {
      var pending := set id | id in rows && Matches(q, rows[id]);
      r := [];
      while pending != {}
        invariant pending <= rows.Keys
        invariant forall id :: id in pending ==> Matches(q, rows[id])
        invariant forall i :: 0 <= i < |r| ==> r[i].id in rows && rows[r[i].id] == r[i] && Matches(q, r[i]) && r[i].id !in pending
        invariant forall id :: id in rows && Matches(q, rows[id]) ==> id in pending || rows[id] in r
        invariant forall i, j :: 0 <= i < j < |r| ==> r[i].id != r[j].id
        invariant Ordered(o, r) && AllPrecede(o, r, rows, pending)
        decreases |pending|
      {
        ghost var w := FirstExists(o, rows, pending);
        var id :| id in pending && IsFirst(o, rows, pending, id);
        FetchStep(o, rows, r, pending, id);
        r := r + [rows[id]];
        pending := pending - {id};
      }
    }

    /** `getTodos`: exactly the to-dos the filter selects, each once, sorted
        by the comparator, with tied to-dos newest first as fetched. */
    method GetTodos(status: Option<TodoStatus>, excluded: Option<TodoStatus>, priority: Option<PriorityFilter>) returns (r: seq<Todo>)
      requires Valid()
      ensures forall t :: t in r ==> t.id in rows && ToTodo(rows[t.id]) == t && Selected(t, status, excluded, priority)
      ensures forall id :: id in rows && Selected(ToTodo(rows[id]), status, excluded, priority) ==> ToTodo(rows[id]) in r
      ensures DistinctIds(r) && Sorted(r) && TiesByDescending(r, ByCreatedAt)
    {
      var w := BuildWhere(status, excluded, priority);
      var fetched := FetchMany(Where(w), CreatedAtDesc);
      var mapped := ToTodos(fetched);
      MappedFetch(rows, fetched, mapped, Where(w), CreatedAtDesc);
      r := SortTodos(mapped);
      SortKeepsDistinctIds(mapped);
      SortKeepsTieOrder(mapped, ByCreatedAt);
      forall t | t in r ensures t in mapped {
        assert t in multiset(r);
      }
      forall id | id in rows && Selected(ToTodo(rows[id]), status, excluded, priority) ensures ToTodo(rows[id]) in r {
        var i :| 0 <= i < |fetched| && fetched[i] == rows[id];
        assert mapped[i] in multiset(mapped);
      }
    }

    /** `getTodosUpdatedInLastDays`, with the cutoff instant (now less the
        days) given: exactly the to-dos updated at or after it, each once,
        sorted by the comparator, tied to-dos most recently updated first. */
    method GetTodosUpdatedSince(cutoff: int) returns (r: seq<Todo>)
      requires Valid()
      ensures forall t :: t in r ==> t.id in rows && ToTodo(rows[t.id]) == t && t.updatedAt >= cutoff
      ensures forall id :: id in rows && rows[id].updatedAt >= cutoff ==> ToTodo(rows[id]) in r
      ensures DistinctIds(r) && Sorted(r) && TiesByDescending(r, ByUpdatedAt)
    {
      var fetched := FetchMany(UpdatedOrDoneSince(cutoff), UpdatedAtDesc);
      var mapped := ToTodos(fetched);
      MappedFetch(rows, fetched, mapped, UpdatedOrDoneSince(cutoff), UpdatedAtDesc);
      r := SortTodos(mapped);
      SortKeepsDistinctIds(mapped);
      SortKeepsTieOrder(mapped, ByUpdatedAt);
      forall t | t in r ensures t in mapped {
        assert t in multiset(r);
      }
      forall id | id in rows && rows[id].updatedAt >= cutoff ensures ToTodo(rows[id]) in r {
        var i :| 0 <= i < |fetched| && fetched[i] == rows[id];
        assert mapped[i] in multiset(mapped);
      }
    }

    /** `createTodo`: a new row under the next id, status In progress unless
        one is given, no notes, both timestamps the creation instant. */
    method CreateTodo(args: CreateTodoArgs, now: int) returns (t: Todo)
      requires Valid()
      modifies this
      ensures Valid()
      ensures t.id == old(nextId) && t.id !in old(rows) && nextId == old(nextId) + 1
      ensures t.id in rows && rows == old(rows)[t.id := rows[t.id]] && t == ToTodo(rows[t.id])
      ensures t.name == args.name && t.priority == args.priority && t.dueDate == args.dueDate
      ensures t.status == (if args.status.Some? then args.status.value else InProgress)
      ensures t.notes.None? && t.createdAt == now && t.updatedAt == now
    {
      var status := args.status.GetOr(InProgress);
      var row := Row(nextId, args.name, PriorityToDb(args.priority), StatusToDb(status), None, args.dueDate, now, now);
      rows := rows[nextId := row];
      nextId := nextId + 1;
      t := ToTodo(row);
    }

    /** `updateTodo`: null, with nothing changed, when no field is supplied
        or the id is missing; otherwise only the supplied fields change. */
    method UpdateTodo(id: int, patch: TodoPatch, now: int) returns (r: Option<Todo>)
      requires Valid()
      modifies this
      ensures Valid() && nextId == old(nextId)
      ensures r.None? <==> id !in old(rows) || PatchEmpty(patch)
      ensures r.None? ==> rows == old(rows)
      ensures r.Some? ==> rows == old(rows)[id := ApplyPatch(old(rows)[id], patch, now)]
                          && r.value == ToTodo(rows[id])
    {
      if patch.notes.Some? && id !in rows {
        return None;
      }
      if PatchEmpty(patch) {
        return None;
      }
      if id !in rows {
        return None;
      }
      var row := ApplyPatch(rows[id], patch, now);
      rows := rows[id := row];
      r := Some(ToTodo(row));
    }

    /** `appendTodoNotes`: null when the id is missing; otherwise only the
        notes change, by the append rule. */
    method AppendTodoNotes(id: int, added: string, now: int) returns (r: Option<Todo>)
      requires Valid()
      modifies this
      ensures Valid() && nextId == old(nextId)
      ensures r.None? <==> id !in old(rows)
      ensures r.None? ==> rows == old(rows)
      ensures r.Some? ==> rows == old(rows)[id := old(rows)[id].(notes := Some(AppendNotes(old(rows)[id].notes, added)), updatedAt := now)]
                          && r.value == ToTodo(rows[id])
    {
      if id !in rows {
        return None;
      }
      var row := rows[id].(notes := Some(AppendNotes(rows[id].notes, added)), updatedAt := now);
      rows := rows[id := row];
      r := Some(ToTodo(row));
    }

    /** `markTodoDone`: null when the id is missing; otherwise the status
        becomes Done and the completion note is appended, name, priority and
        due date unchanged. */
    method MarkTodoDone(id: int, notes: string, now: int) returns (r: Option<Todo>)
      requires Valid()
      modifies this
      ensures Valid() && nextId == old(nextId)
      ensures r.None? <==> id !in old(rows)
      ensures r.None? ==> rows == old(rows)
      ensures r.Some? ==> rows == old(rows)[id := old(rows)[id].(status := DbDone, notes := Some(AppendNotes(old(rows)[id].notes, CompletionNote(notes))), updatedAt := now)]
                          && r.value == ToTodo(rows[id]) && r.value.status == Done
    {
      if id !in rows {
        return None;
      }
      var note := AppendNotes(rows[id].notes, CompletionNote(notes));
      var row := rows[id].(status := DbDone, notes := Some(note), updatedAt := now);
      assert row.id == id;
      rows := rows[id := row];
      assert forall k :: k in rows ==> rows[k].id == k && k < nextId;
      r := Some(ToTodo(row));
      assert r.value.status == Done;
    }

    /** The restore step: every row deleted, then the given rows inserted
        under their own ids, in one atomic change. */
    method ReplaceAll(m: map<int, Row>)
      requires Valid()
      requires forall k :: k in m ==> m[k].id == k
      modifies this
      ensures Valid() && rows == m
      ensures forall k :: k in m ==> k < nextId
    {
      var top := nextId;
      var keys := m.Keys;
      while keys != {}
        invariant keys <= m.Keys
        invariant 1 <= top && top >= nextId
        invariant forall k :: k in m && k !in keys ==> k < top
        decreases |keys|
      {
        ghost var w := Member(keys);
        var k :| k in keys;
        if k >= top { top := k + 1; }
        keys := keys - {k};
      }
      rows := m;
      nextId := top;
    }
  }

  /** What a fetch gives, read through the mapping. */
  lemma MappedFetch(m: map<int, Row>, fetched: seq<Row>, mapped: seq<Todo>, q: Query, o: OrderBy)
    requires forall i :: 0 <= i < |fetched| ==> fetched[i].id in m && m[fetched[i].id] == fetched[i] && Matches(q, fetched[i])
    requires forall i, j :: 0 <= i < j < |fetched| ==> fetched[i].id != fetched[j].id
    requires forall i, j :: 0 <= i < j < |fetched| ==> InOrder(o, fetched[i], fetched[j])
    requires |mapped| == |fetched| && forall i :: 0 <= i < |fetched| ==> mapped[i] == ToTodo(fetched[i])
    ensures forall t :: t in mapped ==> t.id in m && ToTodo(m[t.id]) == t && Matches(q, m[t.id])
    ensures DistinctIds(mapped)
    ensures o == CreatedAtDesc ==> TiesByDescending(mapped, ByCreatedAt)
    ensures o == UpdatedAtDesc ==> TiesByDescending(mapped, ByUpdatedAt)
  {
  }
}
