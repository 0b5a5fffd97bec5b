/** `generateMarkdownTable` and its helpers, the same in
    `scripts/backup-database.ts` and `scripts/backup-to-markdown.ts`. The
    two copies differ only in how their emoji literals are encoded, so the
    emoji are tokens and their text is the parameter `glyph`;
    `formatDate` (a locale rendering) is the parameter `formatDate`. */
module BackupMarkdown {
  import opened Wrappers
  import opened Strings
  import opened Records
  import opened BackupFormat

  datatype Emoji =
    | RedCircle | OrangeCircle | YellowCircle | GreenCircle | WhiteCircle
    | CheckMark | Arrows | Hourglass | Eyes | Clipboard | QuestionMark

  const PriorityNames: seq<string> := ["Urgent", "High", "Medium", "Low"]
  const StatusNames: seq<string> := ["DONE", "IN_PROGRESS", "WAITING_ON_OTHERS", "STAY_AWARE", "PENDING"]

  /** `getPriorityEmoji`: a circle per priority, white for any other text. */
  function PriorityEmoji(p: string): (e: Emoji)
  {
    if p == "Urgent" then RedCircle
    else if p == "High" then OrangeCircle
    else if p == "Medium" then YellowCircle
    else if p == "Low" then GreenCircle
    else WhiteCircle
  }

  /** `getStatusEmoji`: a sign per status, a question mark for any other
      text. */
  function StatusEmoji(s: string): (e: Emoji)
  {
    if s == "DONE" then CheckMark
    else if s == "IN_PROGRESS" then Arrows
    else if s == "WAITING_ON_OTHERS" then Hourglass
    else if s == "STAY_AWARE" then Eyes
    else if s == "PENDING" then Clipboard
    else QuestionMark
  }

  /** The fallback emoji marks exactly the unknown names; distinct known
      names get distinct emoji; the priority and status emoji never meet;
      and every name the store writes is a known one. */
  lemma EmojiTellNamesApart(a: string, b: string, p: DbPriority, s: DbStatus)
    ensures PriorityEmoji(a) == WhiteCircle <==> a !in PriorityNames
    ensures StatusEmoji(a) == QuestionMark <==> a !in StatusNames
    ensures PriorityEmoji(a) != StatusEmoji(b)
    ensures PriorityEmoji(a) == PriorityEmoji(b) != WhiteCircle ==> a == b
    ensures StatusEmoji(a) == StatusEmoji(b) != QuestionMark ==> a == b
    ensures PriorityEmoji(DbPriorityName(p)) != WhiteCircle
    ensures StatusEmoji(DbStatusName(s)) != QuestionMark
  {
  }

  /** `truncateText`: missing or empty notes are `-`; otherwise every line
      break becomes `<br>`. The length bound is never applied. */
  function TruncateText(text: Option<string>, maxLength: int): string
  {
    if text.None? || text.value == "" then "-"
    else ReplaceChar(text.value, '\n', "<br>")
  }

  /** The cell never holds a line break; missing notes are `-`; each line
      break of the notes grows the text by three; notes without line breaks
      are kept whole, whatever the bound. */
  lemma TruncateKeepsNotes(text: Option<string>, m1: int, m2: int)
    ensures TruncateText(text, m1) == TruncateText(text, m2)
    ensures '\n' !in TruncateText(text, m1)
    ensures text.None? || text.value == "" ==> TruncateText(text, m1) == "-"
    ensures text.Some? && text.value != "" ==> |TruncateText(text, m1)| == |text.value| + 3 * CountChar(text.value, '\n')
    ensures text.Some? && text.value != "" && '\n' !in text.value ==> TruncateText(text, m1) == text.value
  {
    if text.Some? && text.value != "" {
      ReplaceCharRemoves(text.value, '\n', "<br>");
      ReplaceCharLength(text.value, '\n', "<br>");
      if '\n' !in text.value {
        ReplaceCharAbsentKeeps(text.value, '\n', "<br>");
      }
    }
  }

  /** `s.replace(/_/g, ' ')`. */
  function Spaced(s: string): (r: string)
    ensures |r| == |s|
  {
    ReplaceCharLength(s, '_', " ");
    ReplaceChar(s, '_', " ")
  }

  /** Spacing changes the underscores and nothing else. */
  lemma {:induction false} SpacedPointwise(s: string)
    ensures '_' !in Spaced(s)
    ensures forall i :: 0 <= i < |s| ==> Spaced(s)[i] == if s[i] == '_' then ' ' else s[i]
  {
    if s != [] {
      SpacedPointwise(s[1..]);
      assert Spaced(s) == (if s[0] == '_' then " " else [s[0]]) + Spaced(s[1..]);
    }
  }

  // ----- the counts of the summary -----

  /** The `reduce` accumulator: a JavaScript object, whose properties are
      its counts and whose entries come in insertion order. */
  datatype Counter = Counter(keys: seq<string>, count: map<string, nat>)

  predicate WellFormed(c: Counter)
  {
    (forall i, j :: 0 <= i < j < |c.keys| ==> c.keys[i] != c.keys[j]) &&
    (forall k :: k in c.keys ==> k in c.count) &&
    (forall k :: k in c.count ==> k in c.keys)
  }

  /** `acc[v] = (acc[v] || 0) + 1`. */
  function Bump(c: Counter, v: string): Counter
  {
    if v in c.count then Counter(c.keys, c.count[v := c.count[v] + 1])
    else Counter(c.keys + [v], c.count[v := 1])
  }

  /** The accumulator after reducing `vs`. */
  function Tally(vs: seq<string>): Counter
  {
    if vs == [] then Counter([], map[])
    else Bump(Tally(vs[..|vs| - 1]), vs[|vs| - 1])
  }

  /** The sum of the counts of `ks`. */
  function SumOver(ks: seq<string>, m: map<string, nat>): nat
    requires forall k :: k in ks ==> k in m
  {
    if ks == [] then 0 else SumOver(ks[..|ks| - 1], m) + m[ks[|ks| - 1]]
  }

  /** Changing the count of one key changes the sum by as much, and by
      nothing when the key is not summed. */
  lemma {:induction false} SumOverUpdate(ks: seq<string>, m: map<string, nat>, v: string, x: nat)
    requires forall k :: k in ks ==> k in m
    requires v in m
    requires forall i, j :: 0 <= i < j < |ks| ==> ks[i] != ks[j]
    ensures v in ks ==> SumOver(ks, m[v := x]) + m[v] == SumOver(ks, m) + x
    ensures v !in ks ==> SumOver(ks, m[v := x]) == SumOver(ks, m)
  {
    if ks != [] {
      var init := ks[..|ks| - 1];
      assert forall k :: k in init ==> k in ks;
      SumOverUpdate(init, m, v, x);
      if ks[|ks| - 1] == v {
        assert v !in init;
      }
    }
  }

  /** Summing without a key not in the map. */
  lemma {:induction false} SumOverFresh(ks: seq<string>, m: map<string, nat>, v: string, x: nat)
    requires forall k :: k in ks ==> k in m
    requires v !in ks
    ensures SumOver(ks, m[v := x]) == SumOver(ks, m)
  {
    if ks != [] {
      var init := ks[..|ks| - 1];
      assert forall k :: k in init ==> k in ks;
      SumOverFresh(init, m, v, x);
    }
  }

  /** One more value: its count goes up by one, it is added as the last key
      when new, and the sum of the counts goes up by one. */
  lemma BumpCounts(c: Counter, v: string)
    requires WellFormed(c)
    ensures WellFormed(Bump(c, v))
    ensures Bump(c, v).keys == if v in c.count then c.keys else c.keys + [v]
    ensures forall w :: w in Bump(c, v).count ==> Bump(c, v).count[w] == (if w in c.count then c.count[w] else 0) + (if w == v then 1 else 0)
    ensures SumOver(Bump(c, v).keys, Bump(c, v).count) == SumOver(c.keys, c.count) + 1
  {
    if v in c.count {
      SumOverUpdate(c.keys, c.count, v, c.count[v] + 1);
    } else {
      var b := Bump(c, v);
      assert b.keys[..|b.keys| - 1] == c.keys;
      SumOverFresh(c.keys, c.count, v, 1);
    }
  }

  /** The accumulator is well formed, its keys are the values, and its
      counts add up to the number of values. */
  lemma {:induction false} TallyCounts(vs: seq<string>)
    ensures WellFormed(Tally(vs))
    ensures forall v :: v in Tally(vs).count <==> v in vs
    ensures SumOver(Tally(vs).keys, Tally(vs).count) == |vs|
  {
    if vs != [] {
      var init, last := vs[..|vs| - 1], vs[|vs| - 1];
      assert vs == init + [last];
      TallyCounts(init);
      BumpCounts(Tally(init), last);
      assert forall v :: v in vs <==> v in init || v == last;
    }
  }

  /** Each count is the number of occurrences of its value. */
  lemma {:induction false} TallyOccurrences(vs: seq<string>)
    ensures forall v :: v in Tally(vs).count ==> Tally(vs).count[v] == multiset(vs)[v]
  {
    if vs != [] {
      var init, last := vs[..|vs| - 1], vs[|vs| - 1];
      assert vs == init + [last];
      TallyOccurrences(init);
      TallyCounts(init);
      BumpCounts(Tally(init), last);
      assert multiset(vs) == multiset(init) + multiset{last};
    }
  }

  /** Each key first occurs before every occurrence of the keys after it. */
  predicate FirstAppearanceOrder(ks: seq<string>, vs: seq<string>)
  {
    forall i, j, p :: 0 <= i < j < |ks| && 0 <= p < |vs| && vs[p] == ks[j] ==> ks[i] in vs[..p]
  }

  /** The keys are the distinct values in order of first appearance. */
  lemma {:induction false} TallyOrder(vs: seq<string>)
    ensures forall k :: k in Tally(vs).keys <==> k in vs
    ensures FirstAppearanceOrder(Tally(vs).keys, vs)
  {
    if vs != [] {
      var init, last := vs[..|vs| - 1], vs[|vs| - 1];
      assert vs == init + [last];
      TallyOrder(init);
      TallyCounts(init);
      BumpCounts(Tally(init), last);
      OrderStep(Tally(init).keys, init, last);
    }
  }

  /** The order survives one more value, added as a key when new. */
  lemma OrderStep(ks: seq<string>, init: seq<string>, last: string)
    requires forall k :: k in ks <==> k in init
    requires FirstAppearanceOrder(ks, init)
    ensures FirstAppearanceOrder(if last in ks then ks else ks + [last], init + [last])
    ensures forall k :: k in (if last in ks then ks else ks + [last]) <==> k in init + [last]
  {
    var ks' := if last in ks then ks else ks + [last];
    var vs := init + [last];
    forall i, j, p | 0 <= i < j < |ks'| && 0 <= p < |vs| && vs[p] == ks'[j]
      ensures ks'[i] in vs[..p]
    {
      assert ks'[i] in ks;
      if p < |init| {
        assert vs[..p] == init[..p];
        assert init[p] == ks'[j] && j < |ks|;
      } else {
        assert vs[..p] == init;
      }
    }
  }

  /** The `reduce` over the values. */
  method CountBy(vs: seq<string>) returns (acc: Counter)
    ensures acc == Tally(vs)
  {
    acc := Counter([], map[]);
    for i := 0 to |vs|
      invariant acc == Tally(vs[..i])
    {
      assert vs[..i + 1][..i] == vs[..i];
      acc := Bump(acc, vs[i]);
    }
    assert vs[..|vs|] == vs;
  }

  // ----- the document -----

  /** The lines joined, in order. */
  function Concat(ls: seq<string>): string
  {
    if ls == [] then "" else Concat(ls[..|ls| - 1]) + ls[|ls| - 1]
  }

  /** Appending the next line to text ending in the earlier ones. */
  lemma ConcatSnoc(prefix: string, ls: seq<string>, i: nat)
    requires i < |ls|
    ensures prefix + Concat(ls[..i]) + ls[i] == prefix + Concat(ls[..i + 1])
  {
    assert ls[..i + 1][..i] == ls[..i];
  }

  /** Lines holding one `c` each join into text holding one per line. */
  lemma {:induction false} ConcatCount(ls: seq<string>, c: char)
    requires forall i :: 0 <= i < |ls| ==> CountChar(ls[i], c) == 1
    ensures CountChar(Concat(ls), c) == |ls|
  {
    if ls != [] {
      var init := ls[..|ls| - 1];
      forall i | 0 <= i < |init|
        ensures CountChar(init[i], c) == 1
      {
        assert init[i] == ls[i];
      }
      ConcatCount(init, c);
      CountCharAppend(Concat(init), ls[|ls| - 1], c);
    }
  }

  function Header(d: BackupData, formatDate: string -> string): string
  {
    "# Todo Backup Report\n\n"
    + "**Backup Version:** " + d.version + "\n"
    + "**Generated:** " + formatDate(d.timestamp) + "\n"
    + "**Total Todos:** " + NatToString(|d.todos|) + "\n\n"
    + "| ID | Name | Priority | Status | Notes | Created | Updated |\n"
    + "|----|------|----------|--------|-------|---------|---------|\n"
  }

  /** The table row of one record. */
  function RowLine(t: BackupTodo, glyph: Emoji -> string, formatDate: string -> string): string
  {
    RowCells(t, glyph, formatDate) + "\n"
  }

  /** The row without its line break: the cells between bars. */
  function RowCells(t: BackupTodo, glyph: Emoji -> string, formatDate: string -> string): string
  {
    "| " + JoinCells(Cells(t, glyph, formatDate)) + " |"
  }

  /** The seven cells of a row, in column order. */
  function Cells(t: BackupTodo, glyph: Emoji -> string, formatDate: string -> string): (cs: seq<string>)
    ensures |cs| == 7 && cs[1] == t.name
  {
    [ IntToString(t.id),
      t.name,
      glyph(PriorityEmoji(t.priority)) + " " + t.priority,
      glyph(StatusEmoji(t.status)) + " " + Spaced(t.status),
      TruncateText(t.notes, 50),
      formatDate(t.createdAt),
      formatDate(t.updatedAt) ]
  }

  /** The cells separated by ` | `. */
  function JoinCells(cs: seq<string>): string
  {
    if cs == [] then ""
    else if |cs| == 1 then cs[0]
    else cs[0] + " | " + JoinCells(cs[1..])
  }

  /** A character is in the joined cells when it is in a cell, and only
      then unless it is a separator character. */
  lemma {:induction false} JoinCellsHas(cs: seq<string>, c: char)
    requires c != ' ' && c != '|'
    ensures c in JoinCells(cs) <==> exists i :: 0 <= i < |cs| && c in cs[i]
  {
    if |cs| > 1 {
      JoinCellsHas(cs[1..], c);
      if c in JoinCells(cs[1..]) {
        var i :| 0 <= i < |cs| - 1 && c in cs[1..][i];
        assert c in cs[i + 1];
      }
      if exists i :: 0 <= i < |cs| && c in cs[i] {
        var i :| 0 <= i < |cs| && c in cs[i];
        if i > 0 {
          assert c in cs[1..][i - 1];
        }
      }
    }
  }

  function RowLines(ts: seq<BackupTodo>, glyph: Emoji -> string, formatDate: string -> string): (ls: seq<string>)
    ensures |ls| == |ts| && forall i :: 0 <= i < |ts| ==> ls[i] == RowLine(ts[i], glyph, formatDate)
  {
    seq(|ts|, i requires 0 <= i < |ts| => RowLine(ts[i], glyph, formatDate))
  }

  function Priorities(ts: seq<BackupTodo>): (ps: seq<string>)
    ensures |ps| == |ts| && forall i :: 0 <= i < |ts| ==> ps[i] == ts[i].priority
  {
    seq(|ts|, i requires 0 <= i < |ts| => ts[i].priority)
  }

  function Statuses(ts: seq<BackupTodo>): (ss: seq<string>)
    ensures |ss| == |ts| && forall i :: 0 <= i < |ts| ==> ss[i] == ts[i].status
  {
    seq(|ts|, i requires 0 <= i < |ts| => ts[i].status)
  }

  function CountIn(c: Counter, k: string): nat
  {
    if k in c.count then c.count[k] else 0
  }

  function PriorityLine(p: string, n: nat, glyph: Emoji -> string): string
  {
    "- " + glyph(PriorityEmoji(p)) + " " + p + ": " + NatToString(n) + "\n"
  }

  function StatusLine(s: string, n: nat, glyph: Emoji -> string): string
  {
    "- " + glyph(StatusEmoji(s)) + " " + Spaced(s) + ": " + NatToString(n) + "\n"
  }

  /** The `Object.entries` lines of the priority counts. */
  function PriorityLines(c: Counter, glyph: Emoji -> string): (ls: seq<string>)
    ensures |ls| == |c.keys| && forall i :: 0 <= i < |c.keys| ==> ls[i] == PriorityLine(c.keys[i], CountIn(c, c.keys[i]), glyph)
  {
    seq(|c.keys|, i requires 0 <= i < |c.keys| => PriorityLine(c.keys[i], CountIn(c, c.keys[i]), glyph))
  }

  function StatusLines(c: Counter, glyph: Emoji -> string): (ls: seq<string>)
    ensures |ls| == |c.keys| && forall i :: 0 <= i < |c.keys| ==> ls[i] == StatusLine(c.keys[i], CountIn(c, c.keys[i]), glyph)
  {
    seq(|c.keys|, i requires 0 <= i < |c.keys| => StatusLine(c.keys[i], CountIn(c, c.keys[i]), glyph))
  }

  const SummaryHeading := "\n## Summary\n\n"
  const PriorityHeading := "### Priority Distribution\n"
  const StatusHeading := "\n### Status Distribution\n"

  /** The whole report. */
  function MarkdownDoc(d: BackupData, glyph: Emoji -> string, formatDate: string -> string): string
  {
    Header(d, formatDate)
    + Concat(RowLines(d.todos, glyph, formatDate))
    + SummaryHeading
    + PriorityHeading + Concat(PriorityLines(Tally(Priorities(d.todos)), glyph))
    + StatusHeading + Concat(StatusLines(Tally(Statuses(d.todos)), glyph))
  }

  /** The `forEach` over the records: one row each. */
  method AppendRows(markdown: string, ts: seq<BackupTodo>, glyph: Emoji -> string, formatDate: string -> string)
    returns (r: string)
    ensures r == markdown + Concat(RowLines(ts, glyph, formatDate))
  {
    r := markdown;
    ghost var rows := RowLines(ts, glyph, formatDate);
    for i := 0 to |ts|
      invariant r == markdown + Concat(rows[..i])
    {
      var line := RowLine(ts[i], glyph, formatDate);
      ConcatSnoc(markdown, rows, i);
      r := r + line;
    }
    assert rows[..|ts|] == rows;
  }

  /** The `forEach` over the priority counts' entries. */
  method AppendPriorityLines(markdown: string, c: Counter, glyph: Emoji -> string) returns (r: string)
    ensures r == markdown + Concat(PriorityLines(c, glyph))
  {
    r := markdown;
    ghost var ls := PriorityLines(c, glyph);
    for i := 0 to |c.keys|
      invariant r == markdown + Concat(ls[..i])
    {
      var p := c.keys[i];
      var line := PriorityLine(p, CountIn(c, p), glyph);
      ConcatSnoc(markdown, ls, i);
      r := r + line;
    }
    assert ls[..|c.keys|] == ls;
  }

  /** The `forEach` over the status counts' entries. */
  method AppendStatusLines(markdown: string, c: Counter, glyph: Emoji -> string) returns (r: string)
    ensures r == markdown + Concat(StatusLines(c, glyph))
  {
    r := markdown;
    ghost var ls := StatusLines(c, glyph);
    for i := 0 to |c.keys|
      invariant r == markdown + Concat(ls[..i])
    {
      var s := c.keys[i];
      var line := StatusLine(s, CountIn(c, s), glyph);
      ConcatSnoc(markdown, ls, i);
      r := r + line;
    }
    assert ls[..|c.keys|] == ls;
  }

  /** `generateMarkdownTable`: the report, written by appending to the
      text. */
  method GenerateMarkdownTable(d: BackupData, glyph: Emoji -> string, formatDate: string -> string)
    returns (markdown: string)
    ensures markdown == MarkdownDoc(d, glyph, formatDate)
  {
    markdown := "# Todo Backup Report\n\n";
    markdown := markdown + "**Backup Version:** " + d.version + "\n";
    markdown := markdown + "**Generated:** " + formatDate(d.timestamp) + "\n";
    markdown := markdown + "**Total Todos:** " + NatToString(|d.todos|) + "\n\n";
    markdown := markdown + "| ID | Name | Priority | Status | Notes | Created | Updated |\n";
    markdown := markdown + "|----|------|----------|--------|-------|---------|---------|\n";
    markdown := AppendRows(markdown, d.todos, glyph, formatDate);
    markdown := markdown + SummaryHeading;
    var priorityCounts := CountBy(Priorities(d.todos));
    var statusCounts := CountBy(Statuses(d.todos));
    markdown := markdown + PriorityHeading;
    markdown := AppendPriorityLines(markdown, priorityCounts, glyph);
    markdown := markdown + StatusHeading;
    markdown := AppendStatusLines(markdown, statusCounts, glyph);
  }

  // ----- what the report says -----

  /** One table line per record, when no cell text holds a line break. */
  lemma OneLinePerRecord(ts: seq<BackupTodo>, glyph: Emoji -> string, formatDate: string -> string)
    requires forall e :: '\n' !in glyph(e)
    requires forall x :: '\n' !in formatDate(x)
    requires forall i :: 0 <= i < |ts| ==> '\n' !in ts[i].name && '\n' !in ts[i].priority && '\n' !in ts[i].status
    ensures CountChar(Concat(RowLines(ts, glyph, formatDate)), '\n') == |ts|
  {
    var ls := RowLines(ts, glyph, formatDate);
    forall i | 0 <= i < |ls|
      ensures CountChar(ls[i], '\n') == 1
    {
      RowHasOneBreak(ts[i], glyph, formatDate);
    }
    ConcatCount(ls, '\n');
  }

  lemma RowHasOneBreak(t: BackupTodo, glyph: Emoji -> string, formatDate: string -> string)
    requires forall e :: '\n' !in glyph(e)
    requires forall x :: '\n' !in formatDate(x)
    requires '\n' !in t.name && '\n' !in t.priority && '\n' !in t.status
    ensures CountChar(RowLine(t, glyph, formatDate), '\n') == 1
  {
    var cells := RowCells(t, glyph, formatDate);
    var cs := Cells(t, glyph, formatDate);
    assert '\n' !in Spaced(t.status) by {
      SpacedPointwise(t.status);
    }
    TruncateKeepsNotes(t.notes, 50, 50);
    assert forall i :: 0 <= i < |cs| ==> '\n' !in cs[i];
    JoinCellsHas(cs, '\n');
    assert '\n' !in cells;
    CountCharAbsent(cells, '\n');
    CountCharAppend(cells, "\n", '\n');
  }

  /** A name with a line break splits its record over several lines: the
      names are put into the table as they are. */
  lemma BrokenNameSplitsRow(t: BackupTodo, glyph: Emoji -> string, formatDate: string -> string)
    requires '\n' in t.name
    ensures CountChar(RowLine(t, glyph, formatDate), '\n') >= 2
  {
    var cells := RowCells(t, glyph, formatDate);
    var cs := Cells(t, glyph, formatDate);
    JoinCellsHas(cs, '\n');
    assert '\n' in cs[1];
    assert '\n' in cells;
    CountCharAbsent(cells, '\n');
    CountCharAppend(cells, "\n", '\n');
  }

  /** The summary lists every priority and every status that occurs, once
      each, in order of first appearance, with its number of records; the
      counts of each distribution add up to the total in the header. */
  lemma SummaryMatchesTable(ts: seq<BackupTodo>)
    ensures WellFormed(Tally(Priorities(ts))) && WellFormed(Tally(Statuses(ts)))
    ensures forall p :: p in Tally(Priorities(ts)).keys <==> p in Priorities(ts)
    ensures forall s :: s in Tally(Statuses(ts)).keys <==> s in Statuses(ts)
    ensures FirstAppearanceOrder(Tally(Priorities(ts)).keys, Priorities(ts))
    ensures FirstAppearanceOrder(Tally(Statuses(ts)).keys, Statuses(ts))
    ensures forall p :: CountIn(Tally(Priorities(ts)), p) == multiset(Priorities(ts))[p]
    ensures forall s :: CountIn(Tally(Statuses(ts)), s) == multiset(Statuses(ts))[s]
    ensures SumOver(Tally(Priorities(ts)).keys, Tally(Priorities(ts)).count) == |ts|
    ensures SumOver(Tally(Statuses(ts)).keys, Tally(Statuses(ts)).count) == |ts|
  {
    TallyCounts(Priorities(ts));
    TallyCounts(Statuses(ts));
    TallyOccurrences(Priorities(ts));
    TallyOccurrences(Statuses(ts));
    TallyOrder(Priorities(ts));
    TallyOrder(Statuses(ts));
  }
}
