/** The backup file of `scripts/backup-database.ts`: the `BackupData`
    record, the mapping of store rows to backup records, the file names
    built from the date stem, and the backup run itself. Clock readings and
    `toISOString` are parameters. */
module BackupFormat {
  import opened Wrappers
  import opened Strings
  import opened Records
  import opened Store

  /** One backup record: the row without its due date, enums by their
      store names and timestamps as ISO text. */
  datatype BackupTodo = BackupTodo(
    id: int,
    name: string,
    priority: string,
    status: string,
    notes: Option<string>,
    createdAt: string,
    updatedAt: string)

  datatype BackupData = BackupData(version: string, timestamp: string, todos: seq<BackupTodo>)

  const BackupVersion := "1.0.0"

  /** The record the backup writes for a row; `iso` is `toISOString`. */
  function BackupRecord(r: Row, iso: int -> string): (b: BackupTodo)
    ensures b.id == r.id && b.name == r.name && b.notes == r.notes
    ensures DbPriorityFromName(b.priority) == Some(r.priority) && DbStatusFromName(b.status) == Some(r.status)
    ensures b.createdAt == iso(r.createdAt) && b.updatedAt == iso(r.updatedAt)
  {
    BackupTodo(r.id, r.name, DbPriorityName(r.priority), DbStatusName(r.status), r.notes, iso(r.createdAt), iso(r.updatedAt))
  }

  /** The store names read back give the enum values they name. */
  lemma StoreNamesRoundTrip(p: DbPriority, s: DbStatus)
    ensures DbPriorityFromName(DbPriorityName(p)) == Some(p)
    ensures DbStatusFromName(DbStatusName(s)) == Some(s)
  {
  }

  /** The record keeps everything but the due date: two rows that differ
      only there give the same record, and rows whose others fields differ
      give different records. */
  lemma BackupForgetsOnlyDueDate(a: Row, b: Row, iso: int -> string)
    requires forall x: int, y: int :: iso(x) == iso(y) ==> x == y
    ensures BackupRecord(a, iso) == BackupRecord(b, iso) <==> a.(dueDate := b.dueDate) == b
  {
    if BackupRecord(a, iso) == BackupRecord(b, iso) {
      StoreNamesRoundTrip(a.priority, a.status);
      StoreNamesRoundTrip(b.priority, b.status);
    }
  }

  function BackupRecords(rs: seq<Row>, iso: int -> string): (r: seq<BackupTodo>)
    ensures |r| == |rs| && forall i :: 0 <= i < |rs| ==> r[i] == BackupRecord(rs[i], iso)
  {
    if rs == [] then [] else [BackupRecord(rs[0], iso)] + BackupRecords(rs[1..], iso)
  }

  /** The backup of the fetched rows taken at the instant `timestamp`. */
  function MakeBackup(rs: seq<Row>, timestamp: string, iso: int -> string): (d: BackupData)
    ensures d.version == BackupVersion && d.timestamp == timestamp
    ensures d.todos == BackupRecords(rs, iso)
  {
    BackupData(BackupVersion, timestamp, BackupRecords(rs, iso))
  }

  // ----- file names -----

  /** `s.split(c)[0]`: the text before the first `c`, or all of it. */
  function Before(s: string, c: char): (r: string)
    ensures c !in r && StartsWith(s, r)
    ensures |r| == |s| || s[|r|] == c
  {
    if s == [] then []
    else if s[0] == c then []
    else [s[0]] + Before(s[1..], c)
  }

  /** `toISOString().replace(/[:.]/g, "-").split("T")[0]`. */
  function Stem(iso: string): (r: string)
    ensures ':' !in r && '.' !in r && 'T' !in r
  {
    var dashed := ReplaceChar(ReplaceChar(iso, ':', "-"), '.', "-");
    ReplaceCharRemoves(iso, ':', "-");
    ReplaceCharRemoves(ReplaceChar(iso, ':', "-"), '.', "-");
    ReplaceCharKeepsAbsent(ReplaceChar(iso, ':', "-"), ':', '.', "-");
    var r := Before(dashed, 'T');
    assert forall x :: x in r ==> x in dashed by {
      forall x | x in r ensures x in dashed {
        var k :| 0 <= k < |r| && r[k] == x;
        assert dashed[k] == x;
      }
    }
    r
  }

  /** `split` stops at the first separator. */
  lemma {:induction false} BeforeFirst(a: string, b: string, c: char)
    requires c !in a
    ensures Before(a + [c] + b, c) == a
  {
    if a != [] {
      assert (a + [c] + b)[1..] == a[1..] + [c] + b;
      BeforeFirst(a[1..], b, c);
    }
  }

  /** The stem of an ISO instant `<date>T<time>` is its date part, whatever
      the time part holds. */
  lemma StemOfInstant(date: string, time: string)
    requires ':' !in date && '.' !in date && 'T' !in date
    ensures Stem(date + "T" + time) == date
  {
    ReplaceAfterDate(date, time, ':');
    var t1 := ReplaceChar(time, ':', "-");
    ReplaceAfterDate(date, t1, '.');
    var t2 := ReplaceChar(t1, '.', "-");
    assert date + "T" + t2 == date + ['T'] + t2;
    BeforeFirst(date, t2, 'T');
  }

  /** Replacing a character the date part and the `T` lack changes only the
      time part. */
  lemma ReplaceAfterDate(date: string, time: string, c: char)
    requires c !in date && c != 'T'
    ensures ReplaceChar(date + "T" + time, c, "-") == date + "T" + ReplaceChar(time, c, "-")
  {
    ReplaceCharAppend(date + "T", time, c, "-");
    ReplaceCharAppend(date, "T", c, "-");
    ReplaceCharAbsentKeeps(date, c, "-");
    ReplaceCharAbsentKeeps("T", c, "-");
  }

  const BackupPrefix := "todo-backup-"

  function JsonName(stem: string): (n: string)
    ensures StartsWith(n, BackupPrefix) && EndsWith(n, ".json")
    ensures |n| == |BackupPrefix| + |stem| + 5 && n[|BackupPrefix|..|n| - 5] == stem
  {
    var n := BackupPrefix + stem + ".json";
    assert |n| == |BackupPrefix| + |stem| + 5;
    assert n[|BackupPrefix|..|n| - 5] == stem;
    n
  }

  function MarkdownName(stem: string): (n: string)
    ensures StartsWith(n, BackupPrefix) && EndsWith(n, ".md")
    ensures |n| == |BackupPrefix| + |stem| + 3 && n[|BackupPrefix|..|n| - 3] == stem
  {
    var n := BackupPrefix + stem + ".md";
    assert |n| == |BackupPrefix| + |stem| + 3;
    assert n[|BackupPrefix|..|n| - 3] == stem;
    n
  }

  /** The two files of one backup share their stem, and only the JSON one
      ends in `.json`. */
  lemma NamesShareStem(stem: string, other: string)
    ensures JsonName(stem) == JsonName(other) <==> stem == other
    ensures MarkdownName(stem) == MarkdownName(other) <==> stem == other
    ensures !EndsWith(MarkdownName(stem), ".json")
  {
    var md := MarkdownName(stem);
    var tail := md[|md| - 5..];
    assert tail[4] == 'd' != ".json"[4];
  }

  /** Rows kept under their ids that all were fetched have all their ids
      among the fetched ones. */
  lemma FetchedCoversIds(rows: map<int, Row>, fetched: seq<Row>)
    requires forall k :: k in rows ==> rows[k].id == k
    requires forall id :: id in rows && Matches(Everything, rows[id]) ==> rows[id] in fetched
    ensures forall id :: id in rows ==> exists i :: 0 <= i < |fetched| && fetched[i].id == id
  {
    forall id | id in rows
      ensures exists i :: 0 <= i < |fetched| && fetched[i].id == id
    {
      assert Matches(Everything, rows[id]);
      var i :| 0 <= i < |fetched| && fetched[i] == rows[id];
    }
  }

  /** What a backup run writes. */
  datatype BackupFiles = BackupFiles(jsonName: string, data: BackupData, markdown: Option<(string, BackupData)>)

  /** The backup run: every row in creation order, the backup record of
      each, written under the name from a second clock reading
      (`fileClock`), and the markdown file alongside when asked for. The
      markdown file holds the table of the same backup data. */
  method BackupDatabase(db: TodoStore, dataClock: string, fileClock: string, iso: int -> string, markdown: bool)
    returns (fetched: seq<Row>, files: BackupFiles)
    requires db.Valid()
    ensures files.data == MakeBackup(fetched, dataClock, iso)
    ensures files.jsonName == JsonName(Stem(fileClock))
    ensures files.markdown.Some? <==> markdown
    ensures files.markdown.Some? ==> files.markdown.value == (MarkdownName(Stem(fileClock)), files.data)
    ensures forall i :: 0 <= i < |fetched| ==> fetched[i].id in db.rows && db.rows[fetched[i].id] == fetched[i]
    ensures forall id :: id in db.rows ==> exists i :: 0 <= i < |fetched| && fetched[i].id == id
    ensures forall i, j :: 0 <= i < j < |fetched| ==> fetched[i].id != fetched[j].id
    ensures forall i, j :: 0 <= i < j < |fetched| ==> fetched[i].createdAt <= fetched[j].createdAt
  {
    fetched := db.FetchMany(Everything, CreatedAtAsc);
    FetchedCoversIds(db.rows, fetched);
    var data := MakeBackup(fetched, dataClock, iso);
    var stem := Stem(fileClock);
    var md: Option<(string, BackupData)> := None;
    if markdown {
      md := Some((MarkdownName(stem), data));
    }
    files := BackupFiles(JsonName(stem), data, md);
  }
}
