# todo-mcp core, modelled in Dafny

This project models the logic of the todo-mcp server and its maintenance scripts. It proves properties of that model. The model covers:

- the flexible date parser `parseDateString` (`src/utils.ts`);
- the to-do store of `src/database.ts`: the sort comparator, the `getTodos` filter, creation, partial update, note appending, completion, the report window and the enum mappings;
- the request schemas of `src/types.ts`;
- the reply logic of the tool handlers in `src/index.ts`;
- the three scripts:
  - `scripts/backup-database.ts`: the backup record, the file names and the markdown report;
  - `scripts/backup-to-markdown.ts`: choosing the latest file and converting it;
  - `scripts/restore-database.ts`: choosing the file, the confirmation and the replace-all restore.

## Modules

| Module | File | Models |
|---|---|---|
| `Wrappers` | `wrappers.dfy` | `Option` and `Result` |
| `Strings` | `strings.dfy` | Decimal digits, rendering numbers as text, ASCII lower-casing, single-character `replace`, character counts and JavaScript's default string order |
| `Types` | `types.dfy` | The closed `TodoStatus` and `TodoPriority` enums, the `Todo` record and the zod schemas as parsing functions returning `Result` |
| `Records` | `records.dfy` | The store's row and its enums, and the four enum mappers |
| `Ordering` | `ordering.dfy` | The three-tier comparator and the sort, as a stable insertion sort that is a permutation of its input |
| `Store` | `store.dfy` | `DatabaseService` as the class `TodoStore`; see below |
| `DatePatterns` | `date_patterns.dfy` | `trim`, the regular expressions as matchers with completeness lemmas, `parseInt`, the month table |
| `DateParser` | `date_parser.dfy` | The rule cascade, and the format loop as a method |
| `DateReadings` | `date_readings.dfy` | What the parser answers for each form of input |
| `DateExamples` | `date_examples.dfy` | Worked readings of concrete text |
| `Handlers` | `handlers.dfy` | The handlers' replies |
| `BackupFormat` | `backup_format.dfy` | The backup record, file names and the backup run |
| `BackupMarkdown` | `backup_markdown.dfy` | `generateMarkdownTable`, with its `+=` loops and `reduce` counters as methods |
| `BackupFiles` | `backup_files.dfy` | The latest-file choice and the conversion run |
| `Restore` | `restore.dfy` | The restore run; its insert loop is a method proved equal to a function |

In `Store`, `TodoStore` holds a `map<int, Row>` from id to row and the next id. Its methods have `modifies` clauses. `findMany` is a selection loop, `FetchMany`, that returns rows in the requested order.

### Parameters

The parts that need a clock, the platform or the file system take them as parameters:

- the instants the store stamps (`now`);
- the report cutoff;
- the native date parse (`string -> Option<int>`);
- `toISOString`;
- `formatDate`;
- the emoji glyphs;
- the directory listing and whether it exists;
- file existence and contents;
- the confirmation answer.

### Date results

A date result is one of:

- an absolute `Instant(time)` from the native parse;
- a local `LocalDate(year, monthIndex, day)`, holding the arguments given to `new Date(year, monthIndex, day)` as written. The constructor's own reading of them is not modelled: years 0 to 99 become 1900 to 1999, so `0024-1-5` names January 5, 1924, and months and days out of range roll over;
- a relative `DaysFromToday(n)` or `MonthsFromToday(n)`.

### Quirks of the code that the model keeps

The month-name expressions inside the format loop (`src/utils.ts:36-37`) use `\w{3}`, which also admits digits. Their first group is then given to `parseInt`, which reads a `0x` prefix as base 16. So a word like `0xc` is not NaN, and `0xc 15 2024` is read by the loop as December 15, 2024. Month-name dates therefore do not come only from the later rules (`src/utils.ts:110-136`). `DateExamples.HexWordExample` states this, and `DateReadings.WordLedLoop` proves that letter-led words do always skip the loop.

`monthNames` is a plain object. `constructor` and `__proto__` therefore look up inherited properties, which are not `undefined`. The date built from them is invalid, so the NaN checks at `src/utils.ts:118` and `:132` are the ones that reject them. `DatePatterns.MonthLookup` has an `Inherited` case for this.

## Model

| member | source | states |
|---|---|---|
| Types.StatusFromLabel | src/types.ts:3-9 | A label is accepted exactly when it is the string value of a status, and the result is that status |
| Types.PriorityFromLabel | src/types.ts:11-16 | A label is accepted exactly when it is the string value of a priority, and the result is that priority |
| Types.ClosedSets | src/types.ts:3-16 | There are exactly five statuses and four priorities, listed without repeats |
| Types.LabelsRoundTrip | src/types.ts:3-16 | Every enum value is read back from its string value |
| Types.LabelsInjective | src/types.ts:3-16 | Distinct enum values have distinct string values |
| Types.ParseCreateTodo | src/types.ts:31-36 | Accepted exactly when the name is non-empty, the priority is valid and a given status is valid. The fields are kept, and an empty name, a bad priority and a bad status are each reported as their own issue exactly when they occur |
| Types.ParseUpdateTodo | src/types.ts:38-45 | Only the id is required. It is accepted exactly when any given enum is valid; name, notes and due date pass through unchanged, and a given priority or status becomes the value its label names |
| Types.EmptyNotesUpdateAccepted | src/types.ts:43 | An update whose only field is an empty note is accepted |
| Types.PrioritiesFromLabels | src/types.ts:49 | A priority list is accepted exactly when every label is valid, element by element |
| Types.ParseGetTodos | src/types.ts:47-50 | A status of "" counts as absent. Otherwise it is accepted exactly when the status and every priority are valid; a non-empty status becomes the status it names, and a priority list becomes the priorities its labels name, in order |
| Types.ParseMarkTodoDone | src/types.ts:52-55 | Accepted exactly when the completion note is non-empty; otherwise only the notes-required issue is reported |
| Types.ParseAppendTodoNotes | src/types.ts:57-60 | Accepted exactly when the note is non-empty; otherwise only the notes-cannot-be-empty issue is reported |
| Types.ParseTodoReport | src/types.ts:62-64 | `days` defaults to 7 and is accepted exactly when it lies in [1, 365] |
| Records.DbPriorityFromName | src/database.ts:388-416 | The store accepts a priority name exactly when it names a member, and gives that member |
| Records.DbStatusFromName | src/database.ts:354-386 | The store accepts a status name exactly when it names a member, and gives that member |
| Records.StatusToDb | src/database.ts:354-369 | Mapping a status to the store and back gives the same status |
| Records.PriorityToDb | src/database.ts:388-401 | Mapping a priority to the store and back gives the same priority |
| Records.DbEnumsRoundTrip | src/database.ts:371-416 | Store values survive the mapping to the service and back |
| Records.ToTodo | src/database.ts:41-50 | Reading a row keeps its id, name, notes, due date and timestamps, and its priority and status are the ones the store enums map to |
| Records.ToTodoInjective | src/database.ts:41-50 | Distinct rows read as distinct to-dos |
| Ordering.RanksInjective | src/database.ts:55-79 | Priorities, or statuses, of equal rank are equal |
| Ordering.CompareMeaning | src/database.ts:53-92 | The comparator is negative exactly when tier by tier `a` comes first: priority rank, then status rank, then an earlier due date, then dated before undated. It is zero exactly on ties and is antisymmetric |
| Ordering.CompareTransitive | src/database.ts:53-92 | "Not after" is transitive, so the comparator is a total preorder |
| Ordering.SortedPlacesBefore | src/database.ts:53-92 | In a sorted list, a to-do that sorts strictly first stands earlier |
| Ordering.InsertShape | src/database.ts:53-92 | Insertion places the element before the first one it does not sort after |
| Ordering.InsertAt | src/database.ts:53-92 | Where each element ends up after one insertion |
| Ordering.InsertElements | src/database.ts:53-92 | An insertion adds exactly the inserted element |
| Ordering.InsertKeepsSorted | src/database.ts:53-92 | Inserting into a sorted list keeps it sorted |
| Ordering.SortTodos | src/database.ts:53-92 | The sort gives a sorted permutation of its input |
| Ordering.SortedIsFixpoint | src/database.ts:53-92 | Sorting a sorted list leaves it unchanged |
| Ordering.SortIdempotent | src/database.ts:53-92 | Sorting twice is sorting once |
| Ordering.InsertKeepsTieOrder | src/database.ts:34-39 | Inserting a to-do that is latest among its ties keeps tied to-dos latest first |
| Ordering.SortKeepsTieOrder | src/database.ts:34-39 | The sort is stable: tied to-dos keep the fetch order, newest first |
| Ordering.InsertKeepsDistinctIds | src/database.ts:53-92 | Inserting a fresh id keeps ids distinct |
| Ordering.SortKeepsDistinctIds | src/database.ts:53-92 | Sorting keeps ids distinct |
| Ordering.PriorityBeatsDueDatePresence | src/database.ts:55-91 | Priority outranks the due date: an undated Urgent to-do sorts before dated and undated Low ones, and among the Low ones the dated comes first |
| Store.ReportWindowSubsumed | src/database.ts:267-296 | The report's OR condition holds exactly when the row was updated at or after the cutoff; the Done branch adds nothing |
| Store.PrioritiesToDb | src/database.ts:27-31 | The priority array is mapped element by element to the store's enum |
| Store.BuildWhere | src/database.ts:17-32 | The `where` built field by field matches a row exactly when the filter selects its to-do. A given status means equality; otherwise an excluded status means inequality. A priority array means membership and a single priority means equality |
| Store.FirstExists | src/database.ts:34-39 | Every non-empty set of rows has one that may be fetched first |
| Store.FetchStep | src/database.ts:34-39 | Taking a first pending row keeps the fetch in order |
| Store.AppendNotes | src/database.ts:152-154 | The result is the new text alone when the old notes are missing or empty, and otherwise exactly the old notes, then `\n\n`, then the new text |
| Store.NotesHistoryKept | src/database.ts:201-203 | After any chain of appends, the first notes still begin the text |
| Store.ApplyPatch | src/database.ts:120-161 | The update changes only the supplied fields, sets given notes to `AppendNotes` of the old notes and the new text, keeps id and creation time, and stamps the update time |
| Store.CompletionNote | src/database.ts:239-241 | The completion note is `[COMPLETED] ` followed by the note |
| Store.ToTodos | src/database.ts:298-306 | Every fetched row is read through the mapping, in order |
| Store.TodoStore.FetchMany | src/database.ts:34-39 | `findMany` returns exactly the matching rows, each once, in the requested order |
| Store.TodoStore.GetTodos | src/database.ts:17-53 | Exactly the to-dos the filter selects, each once. They are sorted by the comparator, and ties are newest first |
| Store.TodoStore.GetTodosUpdatedSince | src/database.ts:267-346 | Exactly the to-dos updated at or after the cutoff, each once. They are sorted by the comparator, and ties are most recently updated first |
| Store.TodoStore.CreateTodo | src/database.ts:95-118 | A new row under a fresh id with the given fields, status In progress unless one is given, no notes, and both timestamps the creation instant. Nothing else changes |
| Store.TodoStore.UpdateTodo | src/database.ts:120-187 | Null, with nothing changed, exactly when the id is missing or no field is supplied. Otherwise only that row changes, as the patch says |
| Store.TodoStore.AppendTodoNotes | src/database.ts:189-224 | Null, with nothing changed, exactly when the id is missing. Otherwise only that row's notes (by the append rule) and update time change |
| Store.TodoStore.MarkTodoDone | src/database.ts:226-265 | Null, with nothing changed, exactly when the id is missing. Otherwise the row becomes Done with the completion note appended. Name, priority and due date are unchanged |
| Store.TodoStore.ReplaceAll | scripts/restore-database.ts:86-106 | The store then holds exactly the given rows, and the next id lies above them |
| Store.MappedFetch | src/database.ts:298-306 | Mapping a fetch keeps ids distinct, rows faithful, and the fetch order among ties |
| DatePatterns.SpaceIsNotWord | src/utils.ts:36-37 | White space is neither a word character, a digit nor a comma |
| DatePatterns.Span | src/utils.ts:30-37 | The end of the longest run of a character class |
| DatePatterns.TrimStartShape | src/utils.ts:16 | `TrimStart` drops exactly the leading white space |
| DatePatterns.TrimEnd | src/utils.ts:16 | `TrimEnd` drops exactly the trailing white space |
| DatePatterns.Trim | src/utils.ts:16 | `trim` is the text between the leading and trailing white space, and neither ends in white space |
| DatePatterns.TrimKeeps | src/utils.ts:16 | Text that neither starts nor ends with white space is its own trim |
| DatePatterns.TrimIdempotent | src/utils.ts:16 | Trimming twice is trimming once |
| DatePatterns.TrimBlank | src/utils.ts:16 | Only white space trims to nothing |
| DatePatterns.MatchSlash | src/utils.ts:30-32 | A slash match has the shape of the expression |
| DatePatterns.MatchSlashComplete | src/utils.ts:30-32 | Every text of the slash shape is matched, with those groups |
| DatePatterns.MatchDash | src/utils.ts:34 | A dash match has the shape of the expression |
| DatePatterns.MatchDashComplete | src/utils.ts:34 | Every text of the dash shape is matched, with those groups |
| DatePatterns.MatchMonthFirst | src/utils.ts:36 | A word-first match has the shape of the expression (a three-character word, or three or more) |
| DatePatterns.MatchMonthFirstComplete | src/utils.ts:110 | Every text of that shape is matched, with those groups |
| DatePatterns.MatchDayFirst | src/utils.ts:37 | A day-first match has the shape of the expression |
| DatePatterns.MatchDayFirstComplete | src/utils.ts:124 | Every text of that shape is matched, with those groups |
| DatePatterns.MatchRelative | src/utils.ts:168 | An `in N unit` match has a digit amount and one of the six units |
| DatePatterns.MatchRelativeComplete | src/utils.ts:168 | Every text of that shape is matched |
| DatePatterns.RadixDigit | src/utils.ts:46-71 | Base-10 digits are exactly the decimal digits, with their values |
| DatePatterns.DigitRun | src/utils.ts:46-71 | The longest run of digits of the radix |
| DatePatterns.RadixTenIsDecimal | src/utils.ts:46-71 | Base-10 reading is decimal value |
| DatePatterns.ParseIntOfDigits | src/utils.ts:46-71 | `parseInt` of a digit group is its decimal value |
| DatePatterns.DigitRunFull | src/utils.ts:46-71 | A string made only of radix digits runs to its end |
| DatePatterns.ParseIntOfLetterWord | src/utils.ts:69 | `parseInt` of a word led by a letter or `_` is NaN |
| DatePatterns.MonthLookup | src/utils.ts:95-108 | An own entry of the month table is an index below 12 |
| DatePatterns.MonthNameLooksUp | src/utils.ts:95-108 | Each full month name and its first three letters look up that month's index |
| DatePatterns.MonthLookupIsName | src/utils.ts:95-108 | Nothing else looks up an index |
| DateParser.ExpandYear | src/utils.ts:74 | A year below 50 becomes 2000 plus it, any other becomes 1900 plus it, and NaN stays NaN |
| DateParser.NewDate | src/utils.ts:87-90 | The date is invalid exactly when an argument is NaN; calendar overflow is not rejected |
| DateParser.RelativeAmount | src/utils.ts:170 | The amount of `in N unit` is the decimal value of its digits |
| DateParser.FormatEntry | src/utils.ts:41-91 | The loop body's assignments compute the entry's date, as in `FormatBody` |
| DateParser.ParseDateString | src/utils.ts:11-193 | The imperative parser returns what the rule cascade specifies |
| DateReadings.FirstFoundSkip | src/utils.ts:40-92 | An entry that yields no date passes the search on |
| DateReadings.FirstFoundTake | src/utils.ts:88-90 | An entry that yields a date ends the search with it |
| DateReadings.FirstFoundAfterNone | src/utils.ts:40-41 | Entries that do not match are passed over |
| DateReadings.NoEntryMatches | src/utils.ts:40-92 | The loop finds nothing when no entry matches |
| DateReadings.SlashNeeds | src/utils.ts:30 | Slash text has a digit first and last and a slash at index 1 or 2 |
| DateReadings.DashNeeds | src/utils.ts:34 | Dash text has four digits, a dash, and a final digit |
| DateReadings.MonthFirstNeeds | src/utils.ts:36 | Word-first text starts with a word of three or more characters followed by white space, and ends in a digit |
| DateReadings.DayFirstNeeds | src/utils.ts:37 | Day-first text starts with one or two digits and white space, and ends in a digit |
| DateReadings.MatchRelativeNeedsLetters | src/utils.ts:168 | `in N unit` text begins and ends with a letter |
| DateReadings.RelativeNeedsLetters | src/utils.ts:139-192 | The relative rules answer only text that begins and ends with a letter |
| DateReadings.DigitLedNotRelative | src/utils.ts:139-192 | Text beginning with a digit is not relative |
| DateReadings.DigitEndedNotRelative | src/utils.ts:139-192 | Text ending with a digit is not relative |
| DateReadings.BlankIsNull | src/utils.ts:12-19 | A missing value or white space alone reads as null |
| DateReadings.SurroundingSpaceIgnored | src/utils.ts:16 | Surrounding white space does not change the reading |
| DateReadings.NativeParseWins | src/utils.ts:21-25 | When the native parse accepts the trimmed text, that instant is the answer |
| DateReadings.RulesReadTheRest | src/utils.ts:21-192 | Otherwise the rule cascade reads the trimmed text |
| DateReadings.MatchesEndInDigit | src/utils.ts:28-38 | Text not ending in a digit matches no format and no month-name expression |
| DateReadings.NoFinalDigitGoesRelative | src/utils.ts:28-192 | Such text is left to the relative rules |
| DateReadings.SlashDate | src/utils.ts:49-85 | A slash date reads month-day when the first number is at most 12 and the second at most 31, else day-month when that fits. It is None exactly when neither fits. A short year reads as 1950 or later |
| DateReadings.SlashNumbers | src/utils.ts:49-85 | The loop's numeric branch computes `SlashDate` |
| DateReadings.SlashMatchesOnlySlash | src/utils.ts:28-38 | Slash text matches no other expression |
| DateReadings.SlashIsNoDash | src/utils.ts:30-34 | Slash text is not dash text |
| DateReadings.SlashIsNoMonthFirst | src/utils.ts:30-36 | Slash text is not word-first text |
| DateReadings.SlashIsNoDayFirst | src/utils.ts:30-37 | Slash text is not day-first text |
| DateReadings.OnlyFirstMatches | src/utils.ts:40-92 | With only the first two entries matching, the loop answers with the first entry's date |
| DateReadings.SlashLoop | src/utils.ts:40-92 | On slash text the loop answers with the slash entry's date |
| DateReadings.SlashBody | src/utils.ts:49-85 | The loop body on slash groups computes `SlashDate` of their values |
| DateReadings.SlashReading | src/utils.ts:30-92 | `A/B/Y` text reads as `SlashDate` says, and when that is None no later rule answers |
| DateReadings.YearFirstNumbers | src/utils.ts:44-48 | A four-digit first group reads year, zero-based month, day |
| DateReadings.DashMatchesOnlyDash | src/utils.ts:28-38 | Dash text matches no other expression |
| DateReadings.IsoBody | src/utils.ts:44-48 | The loop body on dash groups reads year, month minus one, day |
| DateReadings.OnlyThirdMatches | src/utils.ts:40-92 | With the first two entries not matching, a date from the third is the answer |
| DateReadings.IsoLoop | src/utils.ts:40-92 | On dash text a date from the dash entry is the answer |
| DateReadings.IsoReading | src/utils.ts:34-48 | `YYYY-M-D` text always reads as the constructor arguments year, month minus one and day, taken as written (the constructor's mapping of years 0 to 99 to 1900 onwards is not modelled) |
| DateReadings.NaNFirstSkips | src/utils.ts:69-84 | A NaN first number skips the entry |
| DateReadings.NaNSecondSkips | src/utils.ts:69-84 | A NaN second number skips the entry |
| DateReadings.WordLedMatches | src/utils.ts:28-38 | Text led by a non-digit word character matches neither numeric format nor a day-first expression |
| DateReadings.WordLedLoop | src/utils.ts:36-92 | On such text the loop finds nothing |
| DateReadings.WordSpaceNotNumeric | src/utils.ts:30-34 | Text with word characters at indices 1 and 2 and white space at index 3 matches neither numeric format |
| DateReadings.FourthEntryLoop | src/utils.ts:40-92 | With neither numeric format matching, a date from the fourth entry is the loop's answer |
| DateReadings.MonthWordLoop | src/utils.ts:36-92 | On three-character-word text, a date the fourth entry builds is the loop's answer, whatever the word holds |
| DateReadings.LookedUpNameIsLetterLed | src/utils.ts:95-113 | A name found in the month table starts with a letter |
| DateReadings.MonthFirstRule | src/utils.ts:110-122 | The first month-name rule, on text of its shape |
| DateReadings.MonthNameReading | src/utils.ts:110-122 | `Month D, YYYY` with a table name reads as that month, the day and the year |
| DateReadings.DayFirstExactly3 | src/utils.ts:37-124 | The in-loop day-first expression matches the same pieces exactly when the word has three characters |
| DateReadings.DayLedMatches | src/utils.ts:28-38 | Digit-and-space-led text matches neither numeric format nor a word-first expression |
| DateReadings.DayWordLoop | src/utils.ts:37-92 | On day-first text with a letter-led word the loop finds nothing |
| DateReadings.DayMonthRule | src/utils.ts:124-136 | The second month-name rule, when the first does not match |
| DateReadings.DayMonthNameReading | src/utils.ts:124-136 | `D Month YYYY` with a table name reads as that month, the day and the year |
| DateReadings.UnknownMonthIsNull | src/utils.ts:110-192 | A letter-led word that is no month name makes `Word D YYYY` read as null |
| DateReadings.LowerLetter | src/utils.ts:139 | Lower-casing keeps exactly the ASCII letters |
| DateReadings.LetterEndsKeep | src/utils.ts:139 | Text that lower-cases to letter-ended text is its own trim |
| DateReadings.KeywordReading | src/utils.ts:139-165 | In any letter case, `today`, `tomorrow`, `yesterday` and `next week` are 0, +1, -1 and +7 days, and `next month` is +1 month |
| DateReadings.InIsNoKeyword | src/utils.ts:142-165 | No keyword starts with `in` |
| DateReadings.RelativeOfMatch | src/utils.ts:168-190 | By unit, `in N unit` is N days, 7N days or N months |
| DateReadings.RelativeOfUnits | src/utils.ts:168-190 | The same, on lower-cased text of that shape |
| DateReadings.InUnitsReading | src/utils.ts:139-190 | `in N unit` in any letter case is N days, 7N days or N months from today |
| DateReadings.LowerKeepsDigits | src/utils.ts:139 | Lower-casing leaves digits as they are |
| DateExamples.MonthFirstSlashExample | src/utils.ts:56-59 | `01/15/2024` is January 15 |
| DateExamples.DayFirstSlashExample | src/utils.ts:60-63 | `15/01/2024` is January 15 |
| DateExamples.NoMonthSlashExample | src/utils.ts:64-66 | `13/13/2024` is null |
| DateExamples.ShortYearExample | src/utils.ts:67-85 | `1/2/23` is January 2, 2023 |
| DateExamples.IsoExample | src/utils.ts:44-48 | `2024-1-5` is January 5 |
| DateExamples.MonthNameExample | src/utils.ts:110-122 | `Jan 15, 2024` is January 15 |
| DateExamples.DayMonthNameExample | src/utils.ts:124-136 | `15 March 2024` is March 15 |
| DateExamples.UnknownNameExample | src/utils.ts:110-192 | `Foo 15 2024` is null |
| DateExamples.HexWordValue | src/utils.ts:69 | `parseInt("0xc")` is 12 |
| DateExamples.HexWordExample | src/utils.ts:36-90 | `0xc 15 2024` is December 15, 2024, found by the format loop |
| DateExamples.InWeeksExample | src/utils.ts:16-190 | `  in 3 weeks ` is 21 days from today |
| DateExamples.TomorrowExample | src/utils.ts:145-149 | `Tomorrow` is one day from today |
| Handlers.ExcludedStatus | src/index.ts:37 | Done is excluded exactly when no status is given |
| Handlers.DefaultExclusion | src/index.ts:35-38 | The store's selection is what get-todos promises: the given status, or anything but Done, and the priorities asked for |
| Handlers.ViewForgetsOnlyTimestamps | src/index.ts:45 | Two to-dos have the same view exactly when they differ at most in their timestamps |
| Handlers.Views | src/index.ts:45 | One view per to-do, in the same order |
| Handlers.ViewsAppend | src/index.ts:45 | Mapping to views commutes with concatenation |
| Handlers.GetTodosTool | src/index.ts:35-50 | The reply lists exactly the listed to-dos, once each, sorted, with tied to-dos newest-created first, without timestamps |
| Handlers.FilterDone | src/index.ts:220-221 | The filter keeps only to-dos of the asked doneness |
| Handlers.FilterDonePartition | src/index.ts:220-221 | The done and the not-done to-dos together are the list |
| Handlers.BuildReport | src/index.ts:217-223 | Total is the list length, completed counts Done, updated counts the rest, and the two add up to the total. The timeframe is `<days> days` |
| Handlers.NothingCompleted | src/index.ts:219-221 | Without a Done to-do every reported one counts as updated |
| Handlers.ReportTool | src/index.ts:213-233 | The report covers exactly the to-dos updated at or after the cutoff, sorted, with tied to-dos most recently updated first |
| Handlers.NotFoundText | src/index.ts:88-97 | The reply is `To-do with ID ` + the id + ` not found` |
| Handlers.IntToStringInjective | src/index.ts:93 | Decimal rendering of ids loses nothing |
| Handlers.NotFoundNamesId | src/index.ts:88-97 | Different ids give different not-found replies |
| Handlers.StoreReply | src/index.ts:84-107 | A null store answer is a not-found reply for the id; otherwise the to-do is shown under the heading |
| Handlers.CreateTodoTool | src/index.ts:61-73 | The created to-do is shown. It is stored under a fresh id with the given name, priority and due date, status In progress unless one is given, no notes, and both timestamps the creation instant |
| Handlers.MarkTodoDoneTool | src/index.ts:84-107 | Not found, with nothing changed, exactly when the id is missing; otherwise the Done to-do is shown |
| Handlers.UpdateTodoTool | src/index.ts:116-139 | Not found, with nothing changed, exactly when the id is missing or no field is supplied |
| Handlers.AppendTodoNotesTool | src/index.ts:149-172 | Not found, with nothing changed, exactly when the id is missing |
| Handlers.BucketOf | src/index.ts:246-249 | A bucket's count is its list length, and its list is the views |
| Handlers.DueDateView | src/index.ts:245-258 | Each of the three buckets' counts equals its list length |
| Strings.NatToString | src/index.ts:218 | Decimal rendering has no leading zero and reads back as the number |
| Strings.LexLeTotal | scripts/backup-to-markdown.ts:119 | The default string order is total |
| Strings.LexLeTransitive | scripts/backup-to-markdown.ts:119 | The default string order is transitive |
| Strings.LexLeAntisymmetric | scripts/backup-to-markdown.ts:119 | The default string order is antisymmetric |
| BackupFormat.BackupRecord | scripts/backup-database.ts:129-137 | The record keeps id, name and notes. It carries the store names of the enums and both timestamps as `toISOString` |
| BackupFormat.StoreNamesRoundTrip | scripts/backup-database.ts:132-133 | The store names read back as the enum values |
| BackupFormat.BackupForgetsOnlyDueDate | scripts/backup-database.ts:129-137 | Two rows give the same record exactly when they differ at most in the due date |
| BackupFormat.BackupRecords | scripts/backup-database.ts:129 | One record per fetched row, in fetch order |
| BackupFormat.MakeBackup | scripts/backup-database.ts:126-138 | Version `1.0.0`, the given timestamp, and the records of the fetched rows |
| BackupFormat.Before | scripts/backup-database.ts:145 | `split(c)[0]` is the text before the first `c` |
| BackupFormat.Stem | scripts/backup-database.ts:145 | The stem holds no `:`, `.` or `T` |
| BackupFormat.BeforeFirst | scripts/backup-database.ts:145 | `split` stops at the first separator |
| BackupFormat.StemOfInstant | scripts/backup-database.ts:145 | The stem of `<date>T<time>` is the date part |
| BackupFormat.JsonName | scripts/backup-database.ts:146 | `todo-backup-<stem>.json` |
| BackupFormat.MarkdownName | scripts/backup-database.ts:160 | `todo-backup-<stem>.md` |
| BackupFormat.NamesShareStem | scripts/backup-database.ts:146-160 | Each name determines its stem, and the markdown name does not end in `.json` |
| BackupFormat.FetchedCoversIds | scripts/backup-database.ts:117-121 | Fetching every row covers every id |
| BackupFormat.BackupDatabase | scripts/backup-database.ts:107-165 | All rows once each, in creation order, become the backup. It is written under the name from the second clock reading, with the markdown of the same data when asked for |
| BackupMarkdown.EmojiTellNamesApart | scripts/backup-database.ts:31-50 | Unknown names get the default sign, and known names have their own. Every name the store writes is known |
| BackupMarkdown.TruncateKeepsNotes | scripts/backup-database.ts:52-56 | Null or "" becomes `-`. Otherwise each line break becomes `<br>` and nothing is cut, whatever `maxLength` is. The result has no line break |
| BackupMarkdown.Spaced | scripts/backup-to-markdown.ts:100 | Spacing keeps the length |
| BackupMarkdown.SpacedPointwise | scripts/backup-to-markdown.ts:100 | Every underscore becomes a space and nothing else changes |
| BackupMarkdown.BumpCounts | scripts/backup-database.ts:84-87 | One more value raises its count by one, adds it as the last key when new, and raises the sum by one |
| BackupMarkdown.TallyCounts | scripts/backup-database.ts:84-92 | The keys are the values, and the counts add up to the number of values |
| BackupMarkdown.TallyOccurrences | scripts/backup-database.ts:84-92 | Each count is the number of occurrences of its value |
| BackupMarkdown.TallyOrder | scripts/backup-database.ts:84-102 | Keys come in order of first appearance |
| BackupMarkdown.OrderStep | scripts/backup-database.ts:84-92 | First-appearance order survives one more value |
| BackupMarkdown.CountBy | scripts/backup-database.ts:84-92 | The `reduce` loop computes the tally |
| BackupMarkdown.ConcatCount | scripts/backup-database.ts:71-79 | Lines with one break each join into text with one break per line |
| BackupMarkdown.Cells | scripts/backup-database.ts:71-79 | A row has seven cells, the second the name as it is |
| BackupMarkdown.JoinCellsHas | scripts/backup-database.ts:71-79 | A character other than a space or a bar is in the joined row exactly when it is in a cell |
| BackupMarkdown.RowLines | scripts/backup-database.ts:71-79 | One row line per record, in order |
| BackupMarkdown.Priorities | scripts/backup-database.ts:84-87 | The priorities of the records, in order |
| BackupMarkdown.Statuses | scripts/backup-database.ts:89-92 | The statuses of the records, in order |
| BackupMarkdown.PriorityLines | scripts/backup-database.ts:94-96 | One line per counted priority, in key order |
| BackupMarkdown.StatusLines | scripts/backup-database.ts:99-101 | One line per counted status, in key order |
| BackupMarkdown.AppendRows | scripts/backup-database.ts:71-79 | The `forEach` appends the row lines in order |
| BackupMarkdown.AppendPriorityLines | scripts/backup-database.ts:94-96 | The `forEach` appends the priority lines in order |
| BackupMarkdown.AppendStatusLines | scripts/backup-database.ts:99-101 | The `forEach` appends the status lines in order |
| BackupMarkdown.GenerateMarkdownTable | scripts/backup-to-markdown.ts:57-104 | The appended text is the report: the header with the total, the rows, and the two distributions |
| BackupMarkdown.OneLinePerRecord | scripts/backup-to-markdown.ts:66-78 | Without breaks in the cell texts, the table has exactly one line per record |
| BackupMarkdown.RowHasOneBreak | scripts/backup-database.ts:71-79 | Such a row has exactly one line break |
| BackupMarkdown.BrokenNameSplitsRow | scripts/backup-database.ts:73 | A name with a line break splits its row, because names are put in as they are |
| BackupMarkdown.SummaryMatchesTable | scripts/backup-to-markdown.ts:83-101 | Each distributed value is listed once, in order of first appearance, with its number of occurrences. Each set of counts adds up to the record count |
| BackupFiles.Candidates | scripts/backup-to-markdown.ts:118 | The filter keeps exactly the accepted names |
| BackupFiles.GreatestIsLast | scripts/backup-to-markdown.ts:119-127 | The first name after sorting and reversing is a name that no other sorts after |
| BackupFiles.GreatestUnique | scripts/backup-to-markdown.ts:119-127 | Only one name can be that |
| BackupFiles.LatestMeaning | scripts/backup-to-markdown.ts:106-128 | There is a pick exactly when the directory exists and holds an accepted name, and the pick is the greatest accepted name |
| BackupFiles.ConverterTakesAnyJson | scripts/backup-to-markdown.ts:118 | The converter picks any JSON file, while the restore keeps to backup names |
| BackupFiles.SearchesFindBackups | scripts/restore-database.ts:42 | Both searches accept the backup's JSON file and neither accepts its markdown file |
| BackupFiles.ConvertBackupToMarkdown | scripts/backup-to-markdown.ts:130-168 | Fails when the directory or JSON files are missing or the file cannot be read. Otherwise it writes the report of the latest file under the name from the current day's stem |
| Restore.ChooseFile | scripts/restore-database.ts:26-52 | A non-empty argument is used as given. Otherwise the greatest backup name, with errors for a missing directory or no backups |
| Restore.ConfirmedMeaning | scripts/restore-database.ts:80-83 | Only `yes` in any letter case confirms |
| Restore.RestoredRowMeaning | scripts/restore-database.ts:94-104 | A record can be inserted exactly when its enums are store names and its timestamps parse. The row keeps its fields and has no due date |
| Restore.PlanStep | scripts/restore-database.ts:93-105 | A successful transaction is a successful prefix plus one row under a fresh id |
| Restore.IdsMeaning | scripts/restore-database.ts:96 | The ids of the records |
| Restore.PlanKeys | scripts/restore-database.ts:89-105 | A successful transaction keys rows by exactly the records' ids |
| Restore.PlanValues | scripts/restore-database.ts:93-105 | Each record's row sits under its id |
| Restore.PlanContents | scripts/restore-database.ts:89-105 | A successful transaction holds exactly one row per record, under its id |
| Restore.PlanOkRowsRead | scripts/restore-database.ts:93-105 | A successful transaction had every record insertable |
| Restore.PlanOkIdsDistinct | scripts/restore-database.ts:93-105 | A successful transaction had no repeated id |
| Restore.ValidRecordsMakePlanOk | scripts/restore-database.ts:93-105 | Insertable records with distinct ids make it succeed |
| Restore.PlanSucceeds | scripts/restore-database.ts:86-106 | The transaction succeeds exactly when every record is insertable and no id repeats |
| Restore.PlanKeyed | scripts/restore-database.ts:93-105 | Each restored row sits under its own id |
| Restore.RestoreDatabase | scripts/restore-database.ts:21-117 | The run ends as specified. The store changes only on success, and then holds exactly the backup's rows |
| Restore.InsertAll | scripts/restore-database.ts:93-105 | The insert loop computes the transaction's outcome |
| Restore.PlanFailsOn | scripts/restore-database.ts:86-106 | A failing prefix fails the whole transaction with the same error |
| Restore.BackupRestoreRoundTrip | scripts/restore-database.ts:95-103 | Restoring a backup of distinct rows gives back exactly those rows with no due dates |
| Restore.RecordsKeepDistinctIds | scripts/backup-database.ts:129-130 | Distinct rows give records with distinct ids |
| Restore.PlanCoversRows | scripts/restore-database.ts:93-105 | A transaction over records that read back as given rows holds exactly those rows |
| Restore.RecordsReadBack | scripts/restore-database.ts:96-102 | Each backup record reads back as its row without the due date |
| Restore.RestoredStore | scripts/restore-database.ts:86-106 | After a round trip of the whole store, the store is the old one with every due date cleared |

## Left out

- The Prisma client, its connection and its queries are replaced by the in-memory `TodoStore`. Row filtering and ordering are stated as predicates on the rows.
- `getTodoNotes` and `getTodosWithDueDates` are called by the handlers but not defined in `src/database.ts`, so they are not part of this model. `Handlers.DueDateView` takes the three bucket lists as given.
- The MCP server machinery is not modelled: tool registration, transport, environment loading, signal handlers and `main`.
- The JavaScript `Date` object is not modelled. Absent are:
  - the native string parse (a parameter);
  - the local-time constructor, and `setDate`/`setMonth` overflow normalisation (results are triples or offsets from today);
  - `toISOString` and `toLocaleDateString` (parameters);
  - the wall clock (given instants and a given report cutoff).
- The 8.64e15 ms range limit of `Date` is not modelled, so `NewDate` is invalid only for NaN arguments.
- `parseInt` on very long digit runs loses precision as a floating-point number. The model reads digits exactly.
- `toLowerCase` is modelled on ASCII letters only, and JavaScript white space on the usual code points.
- JavaScript compares strings by UTF-16 code units. The model orders Dafny `char`s, which agrees for text in the Basic Multilingual Plane.
- The emoji are opaque tokens (`Emoji`), rendered by a `glyph` parameter.
- `JSON.stringify` and `JSON.parse` are not modelled. A backup file's content is given as already parsed, or as unreadable.
- `BackupMarkdown.SummaryMatchesTable`, `BackupMarkdown.TallyOrder`, `BackupMarkdown.PriorityLines`, `BackupMarkdown.StatusLines`: `Object.entries` order is modelled as insertion order, so the summaries list names in order of first appearance. That holds for the store's own enum names, which are all that `scripts/backup-database.ts` counts. In `scripts/backup-to-markdown.ts` the names come from the file, and `Object.entries` lists integer-like names (such as `"1"` and `"2"`) first, in ascending numeric order, before the others; the model does not capture that order.
- `path.join` is plain concatenation with `/`.
- File writes, `mkdirSync`, console output, `process.exit` and `process.argv` are not modelled. The markdown flag and argument are parameters.
- The readline prompt is replaced by the answer as a parameter.
- The `$transaction` is one atomic `TodoStore.ReplaceAll` after the insert loop succeeds, not a concurrent transaction.
- The database's id sequence after a restore is not modelled. `ReplaceAll` only keeps the next id above the restored ids.
- zod's error objects are reduced to lists of issue tags.
- `Store.TodoStore.FetchMany`: rows with equal order keys may come in any order, as in the database. The contract does not fix their order.
- `Types.ParseTodoReport`, `Handlers.BuildReport`, `Handlers.NotFoundText`: days and ids are modelled as integers only. `z.number()` also accepts fractional and very large numbers: days of 1.5 are accepted and reported as `1.5 days`, and an id of 1e21 makes the store return null and the reply read `To-do with ID 1e+21 not found`. JavaScript numbers and their rendering in template strings are not modelled.
- `BackupMarkdown.CountBy`, `BackupMarkdown.BumpCounts`, `BackupMarkdown.SummaryMatchesTable`: the counters are modelled as empty maps. In the source the `reduce` starts from `{}`, which inherits the properties of `Object.prototype`. A priority or status named `constructor`, `toString` or another inherited method therefore starts from that function and prints as its source text followed by `1`, and one named `__proto__` is never listed. In `scripts/backup-database.ts` the names are always the store's enum names, so this cannot happen there; in `scripts/backup-to-markdown.ts` the names come from the file.
- `Handlers.MarkTodoDoneTool`, `Handlers.UpdateTodoTool`, `Handlers.AppendTodoNotesTool`: their contracts state the reply and the new row. The full new store is stated by the `TodoStore` methods they call.
