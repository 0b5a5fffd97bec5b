/** Choosing a backup file by name (`findLatestBackupFile` of
    `scripts/backup-to-markdown.ts` and the search in
    `scripts/restore-database.ts`: filter, `sort`, `reverse`, first), and
    the conversion run of `scripts/backup-to-markdown.ts`. The directory
    listing, its existence and the file contents are parameters. */
module BackupFiles {
  import opened Wrappers
  import opened Strings
  import opened BackupFormat
  import opened BackupMarkdown

  /** Which names a search accepts: any JSON file (the markdown converter)
      or only files named like backups (the restore). */
  datatype NameRule = AnyJson | BackupJson

  predicate Accepts(rule: NameRule, n: string)
  {
    match rule
    case AnyJson => EndsWith(n, ".json")
    case BackupJson => StartsWith(n, BackupPrefix) && EndsWith(n, ".json")
  }

  /** The `filter` over the listing. */
  function Candidates(ns: seq<string>, rule: NameRule): (r: seq<string>)
    ensures |r| <= |ns|
    ensures forall n :: n in r <==> n in ns && Accepts(rule, n)
  {
    if ns == [] then []
    else (if Accepts(rule, ns[0]) then [ns[0]] else []) + Candidates(ns[1..], rule)
  }

  /** The first name after sorting and reversing: the greatest one. */
  function Greatest(ns: seq<string>): string
    requires ns != []
  {
    if |ns| == 1 then ns[0]
    else
      var g := Greatest(ns[1..]);
      if LexLe(ns[0], g) then g else ns[0]
  }

  /** The greatest name is one of the names and no name sorts after it. */
  lemma {:induction false} GreatestIsLast(ns: seq<string>)
    requires ns != []
    ensures Greatest(ns) in ns
    ensures forall m :: m in ns ==> LexLe(m, Greatest(ns))
  {
    if |ns| > 1 {
      var g := Greatest(ns[1..]);
      GreatestIsLast(ns[1..]);
      LexLeTotal(ns[0], g);
      assert Greatest(ns) == if LexLe(ns[0], g) then g else ns[0];
      forall m | m in ns
        ensures LexLe(m, Greatest(ns))
      {
        if m == ns[0] {
          LexLeTotal(m, m);
        } else {
          assert m in ns[1..];
          if !LexLe(ns[0], g) {
            LexLeTransitive(m, g, ns[0]);
          }
        }
      }
    } else {
      LexLeTotal(ns[0], ns[0]);
    }
  }

  /** Only one name can come last, so the choice does not depend on how
      the sort orders anything else. */
  lemma GreatestUnique(ns: seq<string>, g: string)
    requires g in ns && forall m :: m in ns ==> LexLe(m, g)
    ensures g == Greatest(ns)
  {
    GreatestIsLast(ns);
    LexLeAntisymmetric(g, Greatest(ns));
  }

  /** The name a search picks: none when the directory is missing or no
      name is accepted. */
  function Latest(dirExists: bool, ns: seq<string>, rule: NameRule): Option<string>
  {
    if !dirExists then None
    else
      var c := Candidates(ns, rule);
      if c == [] then None else Some(Greatest(c))
  }

  /** A pick is an accepted name that no other accepted name follows, and
      there is a pick exactly when the directory exists and holds an
      accepted name. */
  lemma LatestMeaning(dirExists: bool, ns: seq<string>, rule: NameRule)
    ensures Latest(dirExists, ns, rule).Some? <==> dirExists && exists n :: n in ns && Accepts(rule, n)
    ensures Latest(dirExists, ns, rule).Some? ==>
      var n := Latest(dirExists, ns, rule).value;
      n in ns && Accepts(rule, n) && forall m :: m in ns && Accepts(rule, m) ==> LexLe(m, n)
  {
    var c := Candidates(ns, rule);
    if dirExists && c != [] {
      GreatestIsLast(c);
    }
    if dirExists && exists n :: n in ns && Accepts(rule, n) {
      var n :| n in ns && Accepts(rule, n);
      assert n in c;
    }
  }

  /** The markdown converter can pick a JSON file that is not a backup,
      where the restore keeps to the backups. */
  lemma ConverterTakesAnyJson(backup: string, other: string)
    requires backup == "todo-backup-2024-01-15.json" && other == "zz.json"
    ensures Latest(true, [backup, other], AnyJson) == Some(other)
    ensures Latest(true, [backup, other], BackupJson) == Some(backup)
  {
    assert Accepts(AnyJson, backup) && Accepts(AnyJson, other);
    assert backup[0] == 't' < 'z' == other[0];
    assert LexLe(backup, other);
    assert Greatest([backup, other]) == other;
    assert Accepts(BackupJson, backup);
    assert |other| < |BackupPrefix|;
    assert !Accepts(BackupJson, other);
    assert Candidates([other], BackupJson) == [];
    assert Candidates([backup, other], BackupJson) == [backup];
    assert Candidates([other], AnyJson) == [other];
    assert Candidates([backup, other], AnyJson) == [backup, other];
  }

  /** Both searches accept every backup file the backup writes, and neither
      accepts its markdown file. */
  lemma SearchesFindBackups(stem: string, rule: NameRule)
    ensures Accepts(rule, JsonName(stem))
    ensures !Accepts(rule, MarkdownName(stem))
  {
    NamesShareStem(stem, stem);
  }

  /** `path.join` of a directory and a plain file name. */
  function Join(dir: string, name: string): string
  {
    dir + "/" + name
  }

  datatype ConvertError = NoBackupsDirectory | NoBackupFiles | Unreadable(path: string)

  /** `convertBackupToMarkdown`: the latest JSON file of the directory is
      read (`read` is `None` when it cannot be read or parsed) and its
      report is written under the name from the current day's stem. */
  method ConvertBackupToMarkdown(
    backupsDir: string, dirExists: bool, listing: seq<string>,
    read: string -> Option<BackupData>, clock: string,
    glyph: Emoji -> string, formatDate: string -> string)
    returns (r: Result<(string, string), ConvertError>)
    ensures !dirExists <==> r == Err(NoBackupsDirectory)
    ensures r == Err(NoBackupFiles) <==> dirExists && Candidates(listing, AnyJson) == []
    ensures r.Ok? <==>
      Latest(dirExists, listing, AnyJson).Some? && read(Join(backupsDir, Latest(dirExists, listing, AnyJson).value)).Some?
    ensures r.Ok? ==>
      var data := read(Join(backupsDir, Latest(dirExists, listing, AnyJson).value)).value;
      r.value == (Join(backupsDir, MarkdownName(Stem(clock))), MarkdownDoc(data, glyph, formatDate))
  {
    var latest := Latest(dirExists, listing, AnyJson);
    if latest.None? {
      if !dirExists {
        return Err(NoBackupsDirectory);
      }
      return Err(NoBackupFiles);
    }
    var path := Join(backupsDir, latest.value);
    var data := read(path);
    if data.None? {
      return Err(Unreadable(path));
    }
    var markdown := GenerateMarkdownTable(data.value, glyph, formatDate);
    r := Ok((Join(backupsDir, MarkdownName(Stem(clock))), markdown));
  }
}
