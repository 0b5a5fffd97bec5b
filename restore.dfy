/** `restoreDatabase` of `scripts/restore-database.ts`: the choice of the
    backup file, the confirmation, and the transaction that replaces every
    row by the backup's records. File existence, file contents, the answer
    typed at the prompt and `new Date(text)` are parameters. */
module Restore {
  import opened Wrappers
  import opened Strings
  import opened Records
  import opened Store
  import opened BackupFormat
  import BackupFiles

  datatype RestoreError =
    | NoBackupsDirectory
    | NoBackupFiles
    | BackupFileMissing(path: string)
    | Unreadable(path: string)
    | RejectedRecord(index: nat)
    | DuplicateId(id: int)

  datatype RestoreOutcome = Restored(count: nat) | Cancelled | Failed(error: RestoreError)

  /** The file to restore: the argument when one is given (an empty one
      counts as none), else the greatest backup name in the directory. */
  function ChooseFile(arg: Option<string>, backupsDir: string, dirExists: bool, listing: seq<string>): (r: Result<string, RestoreError>)
    ensures arg.Some? && arg.value != "" ==> r == Ok(arg.value)
    ensures (arg.None? || arg.value == "") ==>
      (r == Err(NoBackupsDirectory) <==> !dirExists) &&
      (r == Err(NoBackupFiles) <==> dirExists && forall n :: n in listing ==> !BackupFiles.Accepts(BackupFiles.BackupJson, n)) &&
      (r.Ok? ==> exists n :: r.value == BackupFiles.Join(backupsDir, n) && BackupFiles.Latest(dirExists, listing, BackupFiles.BackupJson) == Some(n))
  {
    if arg.Some? && arg.value != "" then Ok(arg.value)
    else if !dirExists then Err(NoBackupsDirectory)
    else
      var latest := BackupFiles.Latest(dirExists, listing, BackupFiles.BackupJson);
      BackupFiles.LatestMeaning(dirExists, listing, BackupFiles.BackupJson);
      if latest.None? then Err(NoBackupFiles)
      else Ok(BackupFiles.Join(backupsDir, latest.value))
  }

  /** The reply `yes`, in any letter case, confirms. */
  predicate Confirmed(answer: string)
  {
    AsciiLower(answer) == "yes"
  }

  /** Only the three letters of `yes` confirm. */
  lemma ConfirmedMeaning(answer: string)
    ensures Confirmed(answer) <==>
      (|answer| == 3 && answer[0] in "yY" && answer[1] in "eE" && answer[2] in "sS")
  {
    if |answer| == 3 {
      var l := AsciiLower(answer);
      assert l == [LowerChar(answer[0]), LowerChar(answer[1]), LowerChar(answer[2])];
    }
  }

  /** The row `tx.todo.create` inserts for a record; `None` when the record
      names no enum value or holds a date text that is not a date (`parse`
      is `new Date(text)`, `None` for an invalid date). */
  function RestoredRow(t: BackupTodo, parse: string -> Option<int>): Option<Row>
  {
    var p, s := DbPriorityFromName(t.priority), DbStatusFromName(t.status);
    var c, u := parse(t.createdAt), parse(t.updatedAt);
    if p.Some? && s.Some? && c.Some? && u.Some? then
      Some(Row(t.id, t.name, p.value, s.value, t.notes, None, c.value, u.value))
    else None
  }

  /** A record is inserted exactly when it names a priority and a status
      and both its dates read; the row keeps its fields and has no due
      date. */
  lemma RestoredRowMeaning(t: BackupTodo, parse: string -> Option<int>)
    ensures RestoredRow(t, parse).Some? <==>
      (exists p: DbPriority :: DbPriorityName(p) == t.priority) &&
      (exists s: DbStatus :: DbStatusName(s) == t.status) &&
      parse(t.createdAt).Some? && parse(t.updatedAt).Some?
    ensures RestoredRow(t, parse).Some? ==>
      var r := RestoredRow(t, parse).value;
      r.id == t.id && r.name == t.name && r.notes == t.notes && r.dueDate.None? &&
      DbPriorityName(r.priority) == t.priority && DbStatusName(r.status) == t.status &&
      Some(r.createdAt) == parse(t.createdAt) && Some(r.updatedAt) == parse(t.updatedAt)
  {
  }

  /** The rows the transaction's inserts leave: the first record that
      cannot be inserted, or repeats an id, fails the transaction. */
  function Plan(ts: seq<BackupTodo>, parse: string -> Option<int>): Result<map<int, Row>, RestoreError>
  {
    if ts == [] then Ok(map[])
    else
      match Plan(ts[..|ts| - 1], parse)
      case Err(e) => Err(e)
      case Ok(m) =>
        var row := RestoredRow(ts[|ts| - 1], parse);
        if row.None? then Err(RejectedRecord(|ts| - 1))
        else if row.value.id in m then Err(DuplicateId(row.value.id))
        else Ok(m[row.value.id := row.value])
  }

  /** One successful step of the transaction: the earlier records
      succeeded and the last one adds a row under a fresh id. */
  lemma PlanStep(ts: seq<BackupTodo>, parse: string -> Option<int>)
    requires ts != [] && Plan(ts, parse).Ok?
    ensures var init, last := ts[..|ts| - 1], ts[|ts| - 1];
      && Plan(init, parse).Ok?
      && RestoredRow(last, parse).Some? && RestoredRow(last, parse).value.id == last.id
      && last.id !in Plan(init, parse).value
      && Plan(ts, parse).value == Plan(init, parse).value[last.id := RestoredRow(last, parse).value]
  {
  }

  /** The ids the records carry. */
  function Ids(ts: seq<BackupTodo>): set<int>
  {
    if ts == [] then {} else Ids(ts[..|ts| - 1]) + {ts[|ts| - 1].id}
  }

  lemma {:induction false} IdsMeaning(ts: seq<BackupTodo>)
    ensures forall k :: k in Ids(ts) <==> exists i :: 0 <= i < |ts| && ts[i].id == k
  {
    if ts != [] {
      var init := ts[..|ts| - 1];
      IdsMeaning(init);
      assert forall i :: 0 <= i < |init| ==> init[i] == ts[i];
      forall k | k in Ids(ts)
        ensures exists i :: 0 <= i < |ts| && ts[i].id == k
      {
        if k in Ids(init) {
          var i :| 0 <= i < |init| && init[i].id == k;
          assert ts[i].id == k;
        } else {
          assert ts[|ts| - 1].id == k;
        }
      }
      forall k | exists i :: 0 <= i < |ts| && ts[i].id == k
        ensures k in Ids(ts)
      {
        var i :| 0 <= i < |ts| && ts[i].id == k;
        if i < |init| {
          assert init[i].id == k;
        }
      }
    }
  }

  /** A successful transaction keeps a row under each record's id and
      under no other key. */
  lemma {:induction false} PlanKeys(ts: seq<BackupTodo>, parse: string -> Option<int>)
    requires Plan(ts, parse).Ok?
    ensures Plan(ts, parse).value.Keys == Ids(ts)
  {
    if ts != [] {
      PlanStep(ts, parse);
      PlanKeys(ts[..|ts| - 1], parse);
    }
  }

  /** A successful transaction keeps each record's row under its id. */
  lemma {:induction false} PlanValues(ts: seq<BackupTodo>, parse: string -> Option<int>)
    requires Plan(ts, parse).Ok?
    ensures forall i :: 0 <= i < |ts| ==> ts[i].id in Plan(ts, parse).value && Some(Plan(ts, parse).value[ts[i].id]) == RestoredRow(ts[i], parse)
  {
    if ts != [] {
      var init, last := ts[..|ts| - 1], ts[|ts| - 1];
      PlanStep(ts, parse);
      PlanValues(init, parse);
      var m := Plan(init, parse).value;
      var m' := Plan(ts, parse).value;
      forall i | 0 <= i < |ts|
        ensures ts[i].id in m' && Some(m'[ts[i].id]) == RestoredRow(ts[i], parse)
      {
        if i < |init| {
          assert ts[i] == init[i] && init[i].id in m;
        }
      }
    }
  }

  /** A successful transaction holds one row per record, under its id. */
  lemma PlanContents(ts: seq<BackupTodo>, parse: string -> Option<int>)
    requires Plan(ts, parse).Ok?
    ensures forall k :: k in Plan(ts, parse).value <==> exists i :: 0 <= i < |ts| && ts[i].id == k
    ensures forall i :: 0 <= i < |ts| ==> ts[i].id in Plan(ts, parse).value && Some(Plan(ts, parse).value[ts[i].id]) == RestoredRow(ts[i], parse)
  {
    PlanKeys(ts, parse);
    IdsMeaning(ts);
    PlanValues(ts, parse);
  }

  /** A successful transaction had every record insertable. */
  lemma {:induction false} PlanOkRowsRead(ts: seq<BackupTodo>, parse: string -> Option<int>)
    requires Plan(ts, parse).Ok?
    ensures forall i :: 0 <= i < |ts| ==> RestoredRow(ts[i], parse).Some?
  {
    if ts != [] {
      var init := ts[..|ts| - 1];
      PlanStep(ts, parse);
      PlanOkRowsRead(init, parse);
      assert forall i :: 0 <= i < |init| ==> ts[i] == init[i];
    }
  }

  /** A successful transaction had no id twice. */
  lemma {:induction false} PlanOkIdsDistinct(ts: seq<BackupTodo>, parse: string -> Option<int>)
    requires Plan(ts, parse).Ok?
    ensures forall i, j :: 0 <= i < j < |ts| ==> ts[i].id != ts[j].id
  {
    if ts != [] {
      var init, last := ts[..|ts| - 1], ts[|ts| - 1];
      PlanStep(ts, parse);
      PlanOkIdsDistinct(init, parse);
      PlanKeys(init, parse);
      IdsMeaning(init);
      assert last.id !in Ids(init);
      forall i, j | 0 <= i < j < |ts|
        ensures ts[i].id != ts[j].id
      {
        assert ts[i] == init[i];
        if j < |init| {
          assert ts[j] == init[j];
        } else {
          assert init[i].id in Ids(init);
        }
      }
    }
  }

  /** Records all insertable and with distinct ids make the transaction
      succeed. */
  lemma {:induction false} ValidRecordsMakePlanOk(ts: seq<BackupTodo>, parse: string -> Option<int>)
    requires forall i :: 0 <= i < |ts| ==> RestoredRow(ts[i], parse).Some?
    requires forall i, j :: 0 <= i < j < |ts| ==> ts[i].id != ts[j].id
    ensures Plan(ts, parse).Ok?
  {
    if ts != [] {
      var init, last := ts[..|ts| - 1], ts[|ts| - 1];
      assert forall i :: 0 <= i < |init| ==> init[i] == ts[i];
      ValidRecordsMakePlanOk(init, parse);
      PlanKeys(init, parse);
      IdsMeaning(init);
      forall k | k in Ids(init)
        ensures k != last.id
      {
        var i :| 0 <= i < |init| && init[i].id == k;
        assert ts[i].id != ts[|ts| - 1].id;
      }
    }
  }

  /** The transaction succeeds exactly when every record can be inserted
      and no id repeats. */
  lemma PlanSucceeds(ts: seq<BackupTodo>, parse: string -> Option<int>)
    ensures Plan(ts, parse).Ok? <==>
      (forall i :: 0 <= i < |ts| ==> RestoredRow(ts[i], parse).Some?) &&
      (forall i, j :: 0 <= i < j < |ts| ==> ts[i].id != ts[j].id)
  {
    if Plan(ts, parse).Ok? {
      PlanOkRowsRead(ts, parse);
      PlanOkIdsDistinct(ts, parse);
    } else if (forall i :: 0 <= i < |ts| ==> RestoredRow(ts[i], parse).Some?) &&
      (forall i, j :: 0 <= i < j < |ts| ==> ts[i].id != ts[j].id) {
      ValidRecordsMakePlanOk(ts, parse);
    }
  }

  /** Each planned row sits under its own id. */
  lemma PlanKeyed(ts: seq<BackupTodo>, parse: string -> Option<int>)
    requires Plan(ts, parse).Ok?
    ensures forall k :: k in Plan(ts, parse).value ==> Plan(ts, parse).value[k].id == k
  {
    PlanContents(ts, parse);
    forall k | k in Plan(ts, parse).value
      ensures Plan(ts, parse).value[k].id == k
    {
      var i :| 0 <= i < |ts| && ts[i].id == k;
    }
  }

  /** What `restoreDatabase` ends with, given the file of the backup it
      finds, whether that file exists, what it holds and the reply. */
  function RestoreSpec(
    arg: Option<string>, backupsDir: string, dirExists: bool, listing: seq<string>,
    fileExists: string -> bool, read: string -> Option<BackupData>,
    answer: string, parse: string -> Option<int>): RestoreOutcome
  {
    match ChooseFile(arg, backupsDir, dirExists, listing)
    case Err(e) => Failed(e)
    case Ok(path) =>
      if !fileExists(path) then Failed(BackupFileMissing(path))
      else if read(path).None? then Failed(Unreadable(path))
      else if !Confirmed(answer) then Cancelled
      else
        match Plan(read(path).value.todos, parse)
        case Err(e) => Failed(e)
        case Ok(_) => Restored(|read(path).value.todos|)
  }

  /** `restoreDatabase`. The store changes only on success, and then holds
      exactly the backup's records; a cancelled or failed restore leaves it
      as it was. */
  method RestoreDatabase(
    db: TodoStore,
    arg: Option<string>, backupsDir: string, dirExists: bool, listing: seq<string>,
    fileExists: string -> bool, read: string -> Option<BackupData>,
    answer: string, parse: string -> Option<int>)
    returns (outcome: RestoreOutcome)
    requires db.Valid()
    modifies db
    ensures db.Valid()
    ensures outcome == RestoreSpec(arg, backupsDir, dirExists, listing, fileExists, read, answer, parse)
    ensures !outcome.Restored? ==> db.rows == old(db.rows)
    ensures outcome.Restored? ==>
      var path := ChooseFile(arg, backupsDir, dirExists, listing).value;
      Plan(read(path).value.todos, parse).Ok? && db.rows == Plan(read(path).value.todos, parse).value
  {
    var chosen := ChooseFile(arg, backupsDir, dirExists, listing);
    if chosen.Err? {
      return Failed(chosen.error);
    }
    var path := chosen.value;
    if !fileExists(path) {
      return Failed(BackupFileMissing(path));
    }
    var data := read(path);
    if data.None? {
      return Failed(Unreadable(path));
    }
    if !Confirmed(answer) {
      return Cancelled;
    }
    var todos := data.value.todos;
    var inserted := InsertAll(todos, parse);
    if inserted.Err? {
      return Failed(inserted.error);
    }
    PlanKeyed(todos, parse);
    db.ReplaceAll(inserted.value);
    outcome := Restored(|todos|);
  }

  /** The loop of the transaction: each record inserted in turn, the first
      failing insert ending it. */
  method InsertAll(todos: seq<BackupTodo>, parse: string -> Option<int>) returns (r: Result<map<int, Row>, RestoreError>)
    ensures r == Plan(todos, parse)
  {
    var rows: map<int, Row> := map[];
    for i := 0 to |todos|
      invariant Plan(todos[..i], parse) == Ok(rows)
    {
      assert todos[..i + 1][..i] == todos[..i];
      var row := RestoredRow(todos[i], parse);
      if row.None? {
        PlanFailsOn(todos, i + 1, parse);
        return Err(RejectedRecord(i));
      }
      if row.value.id in rows {
        PlanFailsOn(todos, i + 1, parse);
        return Err(DuplicateId(row.value.id));
      }
      rows := rows[row.value.id := row.value];
    }
    assert todos[..|todos|] == todos;
    r := Ok(rows);
  }

  /** A failed prefix fails the whole transaction with the same error. */
  lemma {:induction false} PlanFailsOn(ts: seq<BackupTodo>, n: nat, parse: string -> Option<int>)
    requires n <= |ts| && Plan(ts[..n], parse).Err?
    ensures Plan(ts, parse) == Plan(ts[..n], parse)
    decreases |ts| - n
  {
    if n < |ts| {
      assert ts[..n + 1][..n] == ts[..n];
      PlanFailsOn(ts, n + 1, parse);
    } else {
      assert ts[..n] == ts;
    }
  }

  /** A backup restored as it was written gives back every fetched row,
      each without its due date, when reading the dates back undoes
      writing them. */
  lemma BackupRestoreRoundTrip(fetched: seq<Row>, iso: int -> string, parse: string -> Option<int>)
    requires forall i, j :: 0 <= i < j < |fetched| ==> fetched[i].id != fetched[j].id
    requires forall t :: parse(iso(t)) == Some(t)
    ensures Plan(BackupRecords(fetched, iso), parse).Ok?
    ensures var m := Plan(BackupRecords(fetched, iso), parse).value;
      (forall k :: k in m ==> exists i :: 0 <= i < |fetched| && fetched[i].id == k) &&
      (forall i :: 0 <= i < |fetched| ==> fetched[i].id in m && m[fetched[i].id] == fetched[i].(dueDate := None))
  {
    var ts := BackupRecords(fetched, iso);
    RecordsReadBack(fetched, iso, parse);
    RecordsKeepDistinctIds(fetched, iso);
    ValidRecordsMakePlanOk(ts, parse);
    PlanCoversRows(ts, fetched, parse);
  }

  /** Distinct rows give records with distinct ids. */
  lemma RecordsKeepDistinctIds(fetched: seq<Row>, iso: int -> string)
    requires forall i, j :: 0 <= i < j < |fetched| ==> fetched[i].id != fetched[j].id
    ensures forall i, j :: 0 <= i < j < |fetched| ==> BackupRecords(fetched, iso)[i].id != BackupRecords(fetched, iso)[j].id
  {
  }

  /** A successful plan over records that read back as the given rows
      holds exactly those rows. */
  lemma PlanCoversRows(ts: seq<BackupTodo>, fetched: seq<Row>, parse: string -> Option<int>)
    requires Plan(ts, parse).Ok? && |ts| == |fetched|
    requires forall i :: 0 <= i < |ts| ==>
      ts[i].id == fetched[i].id && RestoredRow(ts[i], parse) == Some(fetched[i].(dueDate := None))
    ensures var m := Plan(ts, parse).value;
      (forall k :: k in m ==> exists i :: 0 <= i < |fetched| && fetched[i].id == k) &&
      (forall i :: 0 <= i < |fetched| ==> fetched[i].id in m && m[fetched[i].id] == fetched[i].(dueDate := None))
  {
    var m := Plan(ts, parse).value;
    PlanKeys(ts, parse);
    IdsMeaning(ts);
    PlanValues(ts, parse);
    forall k | k in m
      ensures exists i :: 0 <= i < |fetched| && fetched[i].id == k
    {
      var i :| 0 <= i < |ts| && ts[i].id == k;
      assert fetched[i].id == k;
    }
  }

  /** Each backup record reads back as its row without the due date. */
  lemma RecordsReadBack(fetched: seq<Row>, iso: int -> string, parse: string -> Option<int>)
    requires forall t :: parse(iso(t)) == Some(t)
    ensures forall i :: 0 <= i < |fetched| ==>
      BackupRecords(fetched, iso)[i].id == fetched[i].id &&
      RestoredRow(BackupRecords(fetched, iso)[i], parse) == Some(fetched[i].(dueDate := None))
  {
    var ts := BackupRecords(fetched, iso);
    forall i | 0 <= i < |ts|
      ensures ts[i].id == fetched[i].id && RestoredRow(ts[i], parse) == Some(fetched[i].(dueDate := None))
    {
      StoreNamesRoundTrip(fetched[i].priority, fetched[i].status);
      assert ts[i] == BackupRecord(fetched[i], iso);
    }
  }

  /** When the fetched rows are the whole store, the restored store is the
      old one with every due date cleared. */
  lemma RestoredStore(rows: map<int, Row>, fetched: seq<Row>, m: map<int, Row>)
    requires forall i :: 0 <= i < |fetched| ==> fetched[i].id in rows && rows[fetched[i].id] == fetched[i]
    requires forall id :: id in rows ==> exists i :: 0 <= i < |fetched| && fetched[i].id == id
    requires forall k :: k in m ==> exists i :: 0 <= i < |fetched| && fetched[i].id == k
    requires forall i :: 0 <= i < |fetched| ==> fetched[i].id in m && m[fetched[i].id] == fetched[i].(dueDate := None)
    ensures m == map k | k in rows :: rows[k].(dueDate := None)
  {
    var want := map k | k in rows :: rows[k].(dueDate := None);
    forall k | k in m
      ensures k in want && m[k] == want[k]
    {
      var i :| 0 <= i < |fetched| && fetched[i].id == k;
    }
    forall k | k in want
      ensures k in m
    {
      var i :| 0 <= i < |fetched| && fetched[i].id == k;
    }
  }
}
