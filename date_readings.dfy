/** What `parseDateString` of `src/utils.ts` makes of each kind of input:
    the readings of the rule cascade `ParseSpec`, each proved against the
    shape of the text it applies to. */
module DateReadings {
  import opened Wrappers
  import opened Strings
  import opened DatePatterns
  import opened DateParser

  // ----- the format loop -----

  /** Entry `j` of the format loop yields no date. */
  predicate Misses(fs: seq<Option<Groups>>, j: nat)
    requires j < |fs|
  {
    fs[j].None? || FormatBody(fs[j].value).None?
  }

  /** An entry that misses passes the search on to the next one. */
  lemma FirstFoundSkip(fs: seq<Option<Groups>>, k: nat)
    requires k < |fs| && Misses(fs, k)
    ensures FirstFound(fs, k) == FirstFound(fs, k + 1)
  {
  }

  /** An entry that yields a date ends the search. */
  lemma FirstFoundTake(fs: seq<Option<Groups>>, k: nat)
    requires k < |fs| && !Misses(fs, k)
    ensures FirstFound(fs, k) == FormatBody(fs[k].value)
  {
  }

  /** Entries that do not match are passed over. */
  lemma {:induction false} FirstFoundAfterNone(fs: seq<Option<Groups>>, i: nat, k: nat)
    requires i <= k <= |fs|
    requires forall j :: i <= j < k ==> fs[j].None?
    ensures FirstFound(fs, i) == FirstFound(fs, k)
    decreases k - i
  {
    if i < k {
      FirstFoundSkip(fs, i);
      FirstFoundAfterNone(fs, i + 1, k);
    }
  }

  /** The loop finds nothing when no entry matches. */
  lemma NoEntryMatches(fs: seq<Option<Groups>>)
    requires |fs| == 5 && fs[0].None? && fs[1].None? && fs[2].None? && fs[3].None? && fs[4].None?
    ensures FirstFound(fs, 0) == None
  {
    FirstFoundAfterNone(fs, 0, 5);
  }

  // ----- what each expression needs of the text -----

  lemma DigitIsNotSpace(c: char)
    requires IsDigit(c) || IsWordChar(c)
    ensures !IsJsSpace(c)
  {
    if IsJsSpace(c) {
      SpaceIsNotWord(c);
    }
  }

  lemma RunInAll(k: CharClass, s: string, i: nat, j: nat)
    requires i <= j <= |s| && RunIn(k, s, i, j)
    ensures AllIn(k, s[i..j])
  {
    assert forall m :: 0 <= m < j - i ==> s[i..j][m] == s[i + m];
  }

  /** The slash format: a digit first and last, a slash at index 1 or 2. */
  lemma SlashNeeds(t: string)
    requires MatchSlash(t).Some?
    ensures |t| > 3 && IsDigit(t[0]) && IsDigit(t[|t| - 1])
    ensures (t[1] == '/' && IsDigit(t[2])) || (IsDigit(t[1]) && t[2] == '/')
  {
    var g := MatchSlash(t).value;
    assert t == g.g1 + "/" + g.g2 + "/" + g.g3;
    assert InClass(Digit, g.g1[0]);
    assert InClass(Digit, g.g2[0]);
    assert InClass(Digit, g.g3[|g.g3| - 1]);
    assert t[0] == g.g1[0];
    assert t[|t| - 1] == g.g3[|g.g3| - 1];
    if |g.g1| == 1 {
      assert t[1] == '/';
      assert t[2] == g.g2[0];
    } else {
      assert InClass(Digit, g.g1[1]);
      assert t[1] == g.g1[1];
      assert t[2] == '/';
    }
  }

  /** The dash format: four digits, a dash, and a digit last. */
  lemma DashNeeds(t: string)
    requires MatchDash(t).Some?
    ensures |t| > 5 && t[4] == '-' && IsDigit(t[|t| - 1])
    ensures forall m :: 0 <= m < 4 ==> IsDigit(t[m])
  {
    var g := MatchDash(t).value;
    assert t == g.g1 + "-" + g.g2 + "-" + g.g3;
    assert InClass(Digit, g.g3[|g.g3| - 1]);
    assert t[|t| - 1] == g.g3[|g.g3| - 1];
    forall m | 0 <= m < 4
      ensures IsDigit(t[m])
    {
      assert InClass(Digit, g.g1[m]);
      assert t[m] == g.g1[m];
    }
  }

  /** Month-first: a word of three characters or more, white space right
      after it, a digit last; the word is the first group. */
  lemma MonthFirstNeeds(t: string, bound: WordBound) returns (a: nat)
    requires MatchMonthFirst(t, bound).Some?
    ensures 3 <= a < |t| && RunIn(Word, t, 0, a) && IsJsSpace(t[a])
    ensures bound == Exactly3 ==> a == 3
    ensures IsWordChar(t[0]) && IsWordChar(t[1]) && IsWordChar(t[2])
    ensures IsDigit(t[|t| - 1])
    ensures MatchMonthFirst(t, bound).value.g1 == t[..a]
  {
    var b: nat, c: nat, c2: nat, d: nat;
    a, b, c, c2, d :| MonthFirstAt(t, bound, a, b, c, c2, d)
      && MatchMonthFirst(t, bound).value == Groups(t[..a], t[b..c], t[d..]);
    assert InClass(Space, t[a]);
    assert InClass(Digit, t[|t| - 1]);
    assert InClass(Word, t[0]) && InClass(Word, t[1]) && InClass(Word, t[2]);
  }

  /** Day-first: one or two digits, white space right after them, a digit
      last; the pieces are the ones whose shape is `DayFirstAt`. */
  lemma DayFirstNeeds(t: string, bound: WordBound) returns (a: nat, b: nat, c: nat, d: nat)
    requires MatchDayFirst(t, bound).Some?
    ensures DayFirstAt(t, bound, a, b, c, d)
    ensures MatchDayFirst(t, bound).value == Groups(t[..a], t[b..c], t[d..])
    ensures IsDigit(t[0]) && IsJsSpace(t[a]) && IsDigit(t[|t| - 1])
  {
    a, b, c, d :| DayFirstAt(t, bound, a, b, c, d)
      && MatchDayFirst(t, bound).value == Groups(t[..a], t[b..c], t[d..]);
    assert InClass(Digit, t[0]);
    assert InClass(Space, t[a]);
    assert InClass(Digit, t[|t| - 1]);
  }

  lemma UnitEndsInLetter(u: string)
    requires u in Units
    ensures |u| >= 3 && IsAsciiLetter(u[0]) && IsAsciiLetter(u[|u| - 1])
  {
  }

  /** `in N unit` text begins and ends with a letter. */
  lemma MatchRelativeNeedsLetters(l: string)
    requires MatchRelative(l).Some?
    ensures |l| >= 2 && IsAsciiLetter(l[0]) && IsAsciiLetter(l[|l| - 1])
  {
    var m := MatchRelative(l).value;
    var b: nat, c: nat, d: nat :| RelativeAt(l, b, c, d) && m == (l[b..c], l[d..]);
    assert l[0] == l[..2][0];
    var u := l[d..];
    UnitEndsInLetter(u);
    assert l[|l| - 1] == u[|u| - 1];
  }

  /** The relative rules only answer text that begins with a letter and
      ends with one. */
  lemma RelativeNeedsLetters(l: string)
    requires Relative(l).Some?
    ensures |l| >= 2 && IsAsciiLetter(l[0]) && IsAsciiLetter(l[|l| - 1])
  {
    if l !in Keywords {
      MatchRelativeNeedsLetters(l);
    }
  }

  /** Text that begins with a digit is not relative, in any case. */
  lemma DigitLedNotRelative(t: string)
    requires t != "" && IsDigit(t[0])
    ensures Relative(AsciiLower(t)) == None
  {
    var l := AsciiLower(t);
    if Relative(l).Some? {
      RelativeNeedsLetters(l);
    }
  }

  /** Text that ends with a digit is not relative, in any case. */
  lemma DigitEndedNotRelative(t: string)
    requires t != "" && IsDigit(t[|t| - 1])
    ensures Relative(AsciiLower(t)) == None
  {
    var l := AsciiLower(t);
    if Relative(l).Some? {
      RelativeNeedsLetters(l);
    }
  }

  // ----- the cascade -----

  /** A missing value, and text of white space only, read as null. */
  lemma BlankIsNull(input: Option<string>, native: string -> Option<int>)
    requires input.Some? ==> forall i :: 0 <= i < |input.value| ==> IsJsSpace(input.value[i])
    ensures ParseSpec(input, native) == None
  {
    if input.Some? {
      TrimBlank(input.value);
    }
  }

  /** White space around the text does not change its reading. */
  lemma SurroundingSpaceIgnored(s: string, native: string -> Option<int>)
    ensures ParseSpec(Some(s), native) == ParseSpec(Some(Trim(s)), native)
  {
    TrimIdempotent(s);
  }

  /** Whatever the platform's own parser accepts is taken as it parses. */
  lemma NativeParseWins(s: string, native: string -> Option<int>)
    requires Trim(s) != "" && native(Trim(s)).Some?
    ensures ParseSpec(Some(s), native) == Some(Instant(native(Trim(s)).value))
  {
  }

  /** When the platform's parser gives up, the rules read the trimmed
      text. */
  lemma RulesReadTheRest(s: string, native: string -> Option<int>)
    requires Trim(s) != "" && native(Trim(s)).None?
    ensures ParseSpec(Some(s), native) == Cascade(Trim(s))
  {
  }

  /** Every format and month-name expression ends with a digit group. */
  lemma MatchesEndInDigit(t: string)
    requires t != "" && !IsDigit(t[|t| - 1])
    ensures MatchSlash(t).None? && MatchDash(t).None?
    ensures MatchMonthFirst(t, Exactly3).None? && MatchMonthFirst(t, AtLeast3).None?
    ensures MatchDayFirst(t, Exactly3).None? && MatchDayFirst(t, AtLeast3).None?
  {
    if MatchSlash(t).Some? { SlashNeeds(t); }
    if MatchDash(t).Some? { DashNeeds(t); }
    if MatchMonthFirst(t, Exactly3).Some? { var _ := MonthFirstNeeds(t, Exactly3); }
    if MatchDayFirst(t, Exactly3).Some? { var _, _, _, _ := DayFirstNeeds(t, Exactly3); }
    if MatchMonthFirst(t, AtLeast3).Some? { var _ := MonthFirstNeeds(t, AtLeast3); }
    if MatchDayFirst(t, AtLeast3).Some? { var _, _, _, _ := DayFirstNeeds(t, AtLeast3); }
  }

  /** Text that does not end with a digit passes every format and both
      month-name rules and is left to the relative rules. */
  lemma NoFinalDigitGoesRelative(t: string)
    requires t != "" && !IsDigit(t[|t| - 1])
    ensures Cascade(t) == Relative(AsciiLower(t))
  {
    MatchesEndInDigit(t);
    NoEntryMatches(Formats(t));
  }

  // ----- numeric formats -----

  /** The reading of `A/B/Y` text with numbers `a`, `b` and `y`: month
      first when the numbers allow it, else day first, else none; a year of
      fewer than four digits (`fullYear` false) is 00-49 for the 2000s and
      anything else for the 1900s. */
  function SlashDate(a: nat, b: nat, y: nat, fullYear: bool): (r: Option<DateValue>)
    ensures r.Some? ==> r.value.LocalDate? && -1 <= r.value.monthIndex < 12 && 0 <= r.value.day <= 31
    ensures r.None? <==> (a > 12 || b > 31) && (b > 12 || a > 31)
    ensures r.Some? && !fullYear ==> 1950 <= r.value.year
  {
    var year := if fullYear then y else if y < 50 then 2000 + y else 1900 + y;
    if a <= 12 && b <= 31 then Some(LocalDate(year, a - 1, b))
    else if b <= 12 && a <= 31 then Some(LocalDate(year, b - 1, a))
    else None
  }

  lemma SlashNumbers(a: nat, b: nat, y: nat, fullYear: bool)
    ensures DateOfNumbers(false, fullYear, Some(a), Some(b), Some(y)) == SlashDate(a, b, y, fullYear)
  {
  }

  /** Slash text matches none of the other expressions. */
  lemma SlashMatchesOnlySlash(t: string)
    requires MatchSlash(t).Some?
    ensures MatchDash(t).None?
    ensures MatchMonthFirst(t, Exactly3).None? && MatchMonthFirst(t, AtLeast3).None?
    ensures MatchDayFirst(t, Exactly3).None? && MatchDayFirst(t, AtLeast3).None?
  {
    SlashIsNoDash(t);
    SlashIsNoMonthFirst(t, Exactly3);
    SlashIsNoMonthFirst(t, AtLeast3);
    SlashIsNoDayFirst(t, Exactly3);
    SlashIsNoDayFirst(t, AtLeast3);
  }

  lemma SlashIsNoDash(t: string)
    requires MatchSlash(t).Some?
    ensures MatchDash(t).None?
  {
    SlashNeeds(t);
    if MatchDash(t).Some? { DashNeeds(t); }
  }

  lemma SlashIsNoMonthFirst(t: string, bound: WordBound)
    requires MatchSlash(t).Some?
    ensures MatchMonthFirst(t, bound).None?
  {
    SlashNeeds(t);
    if MatchMonthFirst(t, bound).Some? {
      var _ := MonthFirstNeeds(t, bound);
    }
  }

  lemma SlashIsNoDayFirst(t: string, bound: WordBound)
    requires MatchSlash(t).Some?
    ensures MatchDayFirst(t, bound).None?
  {
    SlashNeeds(t);
    if MatchDayFirst(t, bound).Some? {
      var _, _, _, _ := DayFirstNeeds(t, bound);
    }
  }

  /** When only the first two entries match, the loop answers with the
      first one's date. */
  lemma OnlyFirstMatches(fs: seq<Option<Groups>>)
    requires |fs| == 5 && fs[0].Some? && fs[1] == fs[0] && fs[2].None? && fs[3].None? && fs[4].None?
    ensures FirstFound(fs, 0) == FormatBody(fs[0].value)
  {
    if FormatBody(fs[0].value).Some? {
      FirstFoundTake(fs, 0);
    } else {
      FirstFoundSkip(fs, 0);
      FirstFoundSkip(fs, 1);
      FirstFoundSkip(fs, 2);
      FirstFoundSkip(fs, 3);
      FirstFoundSkip(fs, 4);
    }
  }

  /** On slash text the loop's answer is the slash entry's. */
  lemma SlashLoop(t: string)
    requires MatchSlash(t).Some? && MatchDash(t).None?
    requires MatchMonthFirst(t, Exactly3).None? && MatchDayFirst(t, Exactly3).None?
    ensures FirstFound(Formats(t), 0) == FormatBody(MatchSlash(t).value)
  {
    OnlyFirstMatches(Formats(t));
  }

  /** The loop body on slash groups computes `SlashDate`. */
  lemma SlashBody(g: Groups)
    requires AllIn(Digit, g.g1) && 1 <= |g.g1| <= 2
    requires AllIn(Digit, g.g2) && 1 <= |g.g2| <= 2
    requires AllIn(Digit, g.g3) && 2 <= |g.g3| <= 4
    ensures AllDigits(g.g1) && AllDigits(g.g2) && AllDigits(g.g3)
    ensures FormatBody(g) == SlashDate(DecimalValue(g.g1), DecimalValue(g.g2), DecimalValue(g.g3), |g.g3| == 4)
  {
    ParseIntOfDigits(g.g1);
    ParseIntOfDigits(g.g2);
    ParseIntOfDigits(g.g3);
    SlashNumbers(DecimalValue(g.g1), DecimalValue(g.g2), DecimalValue(g.g3), |g.g3| == 4);
  }

  /** `A/B/Y` text reads as `SlashDate` says of its numbers. */
  lemma SlashReading(t: string, g: Groups)
    requires SlashShape(t, g)
    ensures AllDigits(g.g1) && AllDigits(g.g2) && AllDigits(g.g3)
    ensures Trim(t) == t
    ensures Cascade(t) == SlashDate(DecimalValue(g.g1), DecimalValue(g.g2), DecimalValue(g.g3), |g.g3| == 4)
  {
    MatchSlashComplete(t, g);
    SlashNeeds(t);
    DigitIsNotSpace(t[0]);
    DigitIsNotSpace(t[|t| - 1]);
    TrimKeeps(t);
    SlashBody(g);
    SlashMatchesOnlySlash(t);
    SlashLoop(t);
    if FormatBody(g).None? {
      DigitLedNotRelative(t);
    }
  }

  /** A year-first date takes its three numbers as they are. */
  lemma YearFirstNumbers(y: nat, m: nat, d: nat, fullYear: bool)
    ensures DateOfNumbers(true, fullYear, Some(y), Some(m), Some(d)) == Some(LocalDate(y, m - 1, d))
  {
  }

  /** Four-digit-first dash text matches none of the other expressions. */
  lemma DashMatchesOnlyDash(t: string)
    requires MatchDash(t).Some?
    ensures MatchSlash(t).None?
    ensures MatchMonthFirst(t, Exactly3).None? && MatchMonthFirst(t, AtLeast3).None?
    ensures MatchDayFirst(t, Exactly3).None? && MatchDayFirst(t, AtLeast3).None?
  {
    DashNeeds(t);
    DigitIsNotSpace(t[1]);
    DigitIsNotSpace(t[2]);
    DigitIsNotSpace(t[3]);
    if MatchSlash(t).Some? { SlashNeeds(t); }
    if MatchMonthFirst(t, Exactly3).Some? { var _ := MonthFirstNeeds(t, Exactly3); }
    if MatchMonthFirst(t, AtLeast3).Some? { var _ := MonthFirstNeeds(t, AtLeast3); }
    if MatchDayFirst(t, Exactly3).Some? { var _, _, _, _ := DayFirstNeeds(t, Exactly3); }
    if MatchDayFirst(t, AtLeast3).Some? { var _, _, _, _ := DayFirstNeeds(t, AtLeast3); }
  }

  /** The loop body on dash groups reads year, month, day. */
  lemma IsoBody(g: Groups)
    requires AllIn(Digit, g.g1) && |g.g1| == 4
    requires AllIn(Digit, g.g2) && 1 <= |g.g2|
    requires AllIn(Digit, g.g3) && 1 <= |g.g3|
    ensures AllDigits(g.g1) && AllDigits(g.g2) && AllDigits(g.g3)
    ensures FormatBody(g) == Some(LocalDate(DecimalValue(g.g1), DecimalValue(g.g2) - 1, DecimalValue(g.g3)))
  {
    ParseIntOfDigits(g.g1);
    ParseIntOfDigits(g.g2);
    ParseIntOfDigits(g.g3);
    var y, m, d := DecimalValue(g.g1), DecimalValue(g.g2), DecimalValue(g.g3);
    assert FormatBody(g) == DateOfNumbers(true, |g.g3| == 4, Some(y), Some(m), Some(d));
    YearFirstNumbers(y, m, d, |g.g3| == 4);
  }

  /** When the first two entries do not match, a date from the third entry
      is the loop's answer. */
  lemma OnlyThirdMatches(fs: seq<Option<Groups>>)
    requires |fs| == 5 && fs[0].None? && fs[1].None? && fs[2].Some?
    ensures FormatBody(fs[2].value).Some? ==> FirstFound(fs, 0) == FormatBody(fs[2].value)
  {
    FirstFoundAfterNone(fs, 0, 2);
    if FormatBody(fs[2].value).Some? {
      FirstFoundTake(fs, 2);
    }
  }

  /** On dash text a date from the dash entry is the loop's answer. */
  lemma IsoLoop(t: string)
    requires MatchSlash(t).None? && MatchDash(t).Some?
    ensures FormatBody(MatchDash(t).value).Some? ==> FirstFound(Formats(t), 0) == FormatBody(MatchDash(t).value)
  {
    OnlyThirdMatches(Formats(t));
  }

  /** `YYYY-M-D` text is read year, month, day, and always yields a date. */
  lemma IsoReading(t: string, g: Groups)
    requires DashShape(t, g)
    ensures AllDigits(g.g1) && AllDigits(g.g2) && AllDigits(g.g3)
    ensures Trim(t) == t
    ensures Cascade(t) == Some(LocalDate(DecimalValue(g.g1), DecimalValue(g.g2) - 1, DecimalValue(g.g3)))
  {
    MatchDashComplete(t, g);
    DashNeeds(t);
    DigitIsNotSpace(t[0]);
    DigitIsNotSpace(t[|t| - 1]);
    TrimKeeps(t);
    IsoBody(g);
    DashMatchesOnlyDash(t);
    IsoLoop(t);
  }

  // ----- month names -----

  /** A NaN first number skips the entry. */
  lemma NaNFirstSkips(fullYear: bool, n2: Option<int>, n3: Option<int>)
    ensures DateOfNumbers(false, fullYear, None, n2, n3) == None
  {
  }

  /** A NaN second number skips the entry. */
  lemma NaNSecondSkips(fullYear: bool, n1: Option<int>, n3: Option<int>)
    ensures DateOfNumbers(false, fullYear, n1, None, n3) == None
  {
  }

  /** Text led by a word character that is not a digit matches neither
      numeric format nor a day-first expression. */
  lemma WordLedMatches(t: string)
    requires t != "" && IsWordChar(t[0]) && !IsDigit(t[0])
    ensures MatchSlash(t).None? && MatchDash(t).None?
    ensures MatchDayFirst(t, Exactly3).None? && MatchDayFirst(t, AtLeast3).None?
  {
    if MatchSlash(t).Some? { SlashNeeds(t); }
    if MatchDash(t).Some? { DashNeeds(t); }
    if MatchDayFirst(t, Exactly3).Some? { var _, _, _, _ := DayFirstNeeds(t, Exactly3); }
    if MatchDayFirst(t, AtLeast3).Some? { var _, _, _, _ := DayFirstNeeds(t, AtLeast3); }
  }

  /** On text led by a letter (or `_`), the three-letter month-first entry
      may match, but `parseInt` of its word is NaN, so the loop finds
      nothing. */
  lemma WordLedLoop(t: string)
    requires t != "" && IsWordChar(t[0]) && !IsDigit(t[0])
    ensures FirstFound(Formats(t), 0) == None
  {
    WordLedMatches(t);
    var fs := Formats(t);
    FirstFoundAfterNone(fs, 0, 3);
    if fs[3].Some? {
      var a := MonthFirstNeeds(t, Exactly3);
      ParseIntOfLetterWord(t[..a]);
      var g := fs[3].value;
      NaNFirstSkips(|g.g3| == 4, JsParseInt(g.g2), JsParseInt(g.g3));
    }
    FirstFoundSkip(fs, 3);
    FirstFoundAfterNone(fs, 4, 5);
  }

  /** A name that looks up an own entry of the month table starts with a
      letter, in any case. */
  lemma LookedUpNameIsLetterLed(w: string)
    requires MonthLookup(AsciiLower(w)).Index?
    ensures |w| >= 3 && IsWordChar(w[0]) && !IsDigit(w[0])
  {
    var name := AsciiLower(w);
    assert IsAsciiLetter(name[0]);
    assert name[0] == LowerChar(w[0]);
    if !IsDigit(w[0]) {
      assert !IsDigit(w[0]) && IsAsciiLetter(LowerChar(w[0]));
    }
  }

  /** Text whose second and third characters are word characters and whose
      fourth is white space matches neither numeric format. */
  lemma WordSpaceNotNumeric(t: string)
    requires |t| > 3 && IsWordChar(t[1]) && IsWordChar(t[2]) && IsJsSpace(t[3])
    ensures MatchSlash(t).None? && MatchDash(t).None?
  {
    if MatchSlash(t).Some? { SlashNeeds(t); }
    if MatchDash(t).Some? { DashNeeds(t); SpaceIsNotWord(t[3]); }
  }

  /** The entries of the format loop, in order. */
  lemma FormatsEntries(t: string)
    ensures Formats(t)[0] == MatchSlash(t) && Formats(t)[1] == MatchSlash(t)
    ensures Formats(t)[2] == MatchDash(t) && Formats(t)[3] == MatchMonthFirst(t, Exactly3)
    ensures Formats(t)[4] == MatchDayFirst(t, Exactly3)
  {
  }

  /** When neither numeric format matches, a date from the fourth entry is
      the loop's answer. */
  lemma FourthEntryLoop(t: string, g: Groups)
    requires MatchSlash(t).None? && MatchDash(t).None?
    requires MatchMonthFirst(t, Exactly3) == Some(g) && FormatBody(g).Some?
    ensures FirstFound(Formats(t), 0) == FormatBody(g)
  {
    var fs := Formats(t);
    FormatsEntries(t);
    FirstFoundSkip(fs, 0);
    FirstFoundSkip(fs, 1);
    FirstFoundSkip(fs, 2);
    FirstFoundTake(fs, 3);
  }

  /** On text of the three-character month-first shape, neither numeric
      format matches, so a date the fourth entry builds from its groups is
      the loop's answer, whatever the word holds. */
  lemma MonthWordLoop(t: string, b: nat, c: nat, c2: nat, d: nat)
    requires MonthFirstAt(t, Exactly3, 3, b, c, c2, d)
    requires FormatBody(Groups(t[..3], t[b..c], t[d..])).Some?
    ensures FirstFound(Formats(t), 0) == FormatBody(Groups(t[..3], t[b..c], t[d..]))
  {
    assert InClass(Word, t[1]) && InClass(Word, t[2]) && InClass(Space, t[3]);
    WordSpaceNotNumeric(t);
    MatchMonthFirstComplete(t, Exactly3, 3, b, c, c2, d);
    FourthEntryLoop(t, Groups(t[..3], t[b..c], t[d..]));
  }

  /** The first month-name rule, on text of its shape. */
  lemma MonthFirstRule(t: string, a: nat, b: nat, c: nat, c2: nat, d: nat)
    requires MonthFirstAt(t, AtLeast3, a, b, c, c2, d)
    requires MonthNameDate(AsciiLower(t[..a]), JsParseInt(t[b..c]), JsParseInt(t[d..])).Some?
    ensures MonthNameRules(t) == MonthNameDate(AsciiLower(t[..a]), JsParseInt(t[b..c]), JsParseInt(t[d..]))
  {
    MatchMonthFirstComplete(t, AtLeast3, a, b, c, c2, d);
  }

  /** `Month D, YYYY` with a name from the month table: month `i`, the
      day and the year as written. */
  lemma MonthNameReading(t: string, a: nat, b: nat, c: nat, c2: nat, d: nat, i: nat)
    requires MonthFirstAt(t, AtLeast3, a, b, c, c2, d)
    requires MonthLookup(AsciiLower(t[..a])) == Index(i)
    ensures AllDigits(t[b..c]) && AllDigits(t[d..])
    ensures Trim(t) == t
    ensures Cascade(t) == Some(LocalDate(DecimalValue(t[d..]), i, DecimalValue(t[b..c])))
  {
    LookedUpNameIsLetterLed(t[..a]);
    assert t[..a][0] == t[0];
    WordLedLoop(t);
    assert InClass(Digit, t[|t| - 1]);
    DigitIsNotSpace(t[0]);
    DigitIsNotSpace(t[|t| - 1]);
    TrimKeeps(t);
    RunInAll(Digit, t, b, c);
    RunInAll(Digit, t, d, |t|);
    ParseIntOfDigits(t[b..c]);
    ParseIntOfDigits(t[d..]);
    MonthFirstRule(t, a, b, c, c2, d);
  }

  /** Day-first text: the three-letter day-first entry matches the same
      pieces when the word has three characters, and nothing otherwise. */
  lemma DayFirstExactly3(t: string, a: nat, b: nat, c: nat, d: nat)
    requires DayFirstAt(t, AtLeast3, a, b, c, d)
    ensures MatchDayFirst(t, Exactly3) == if c - b == 3 then Some(Groups(t[..a], t[b..c], t[d..])) else None
  {
    if c - b == 3 {
      MatchDayFirstComplete(t, Exactly3, a, b, c, d);
    } else {
      assert InClass(Space, t[a]) && InClass(Word, t[b]) && InClass(Space, t[c]);
      SpanAt(t, 0, a, Digit);
      SpanAt(t, a, b, Space);
      SpanAt(t, b, c, Word);
    }
  }

  /** Text that starts with one or two digits and white space matches
      neither numeric format nor a month-first expression. */
  lemma DayLedMatches(t: string, a: nat)
    requires 1 <= a <= 2 < |t| && RunIn(Digit, t, 0, a) && IsJsSpace(t[a])
    ensures MatchSlash(t).None? && MatchDash(t).None?
    ensures MatchMonthFirst(t, Exactly3).None? && MatchMonthFirst(t, AtLeast3).None?
  {
    assert InClass(Digit, t[0]) && InClass(Digit, t[a - 1]);
    SpaceIsNotWord(t[a]);
    if MatchSlash(t).Some? { SlashNeeds(t); }
    if MatchDash(t).Some? { DashNeeds(t); }
    if MatchMonthFirst(t, Exactly3).Some? { var _ := MonthFirstNeeds(t, Exactly3); }
    if MatchMonthFirst(t, AtLeast3).Some? { var _ := MonthFirstNeeds(t, AtLeast3); }
  }

  /** On day-first text whose word is letter-led the loop finds nothing:
      the three-letter day-first entry, if it matches, has a NaN month. */
  lemma DayWordLoop(t: string, a: nat, b: nat, c: nat, d: nat)
    requires DayFirstAt(t, AtLeast3, a, b, c, d)
    requires MatchSlash(t).None? && MatchDash(t).None? && MatchMonthFirst(t, Exactly3).None?
    requires JsParseInt(t[b..c]) == None
    ensures FirstFound(Formats(t), 0) == None
  {
    DayFirstExactly3(t, a, b, c, d);
    var fs := Formats(t);
    FirstFoundAfterNone(fs, 0, 4);
    if fs[4].Some? {
      NaNSecondSkips(|t[d..]| == 4, JsParseInt(t[..a]), JsParseInt(t[d..]));
    }
    FirstFoundSkip(fs, 4);
  }

  /** The second month-name rule, on text of its shape that the first
      rule does not match. */
  lemma DayMonthRule(t: string, a: nat, b: nat, c: nat, d: nat)
    requires DayFirstAt(t, AtLeast3, a, b, c, d)
    requires MatchMonthFirst(t, AtLeast3).None?
    ensures MonthNameRules(t) == MonthNameDate(AsciiLower(t[b..c]), JsParseInt(t[..a]), JsParseInt(t[d..]))
  {
    MatchDayFirstComplete(t, AtLeast3, a, b, c, d);
  }

  /** `D Month YYYY` with a name from the month table: month `i`, the day
      and the year as written. */
  lemma DayMonthNameReading(t: string, a: nat, b: nat, c: nat, d: nat, i: nat)
    requires DayFirstAt(t, AtLeast3, a, b, c, d)
    requires MonthLookup(AsciiLower(t[b..c])) == Index(i)
    ensures AllDigits(t[..a]) && AllDigits(t[d..])
    ensures Trim(t) == t
    ensures Cascade(t) == Some(LocalDate(DecimalValue(t[d..]), i, DecimalValue(t[..a])))
  {
    assert InClass(Space, t[a]) && InClass(Digit, t[0]) && InClass(Digit, t[|t| - 1]);
    DayLedMatches(t, a);
    LookedUpNameIsLetterLed(t[b..c]);
    ParseIntOfLetterWord(t[b..c]);
    DayWordLoop(t, a, b, c, d);
    DigitIsNotSpace(t[0]);
    DigitIsNotSpace(t[|t| - 1]);
    TrimKeeps(t);
    RunInAll(Digit, t, 0, a);
    RunInAll(Digit, t, d, |t|);
    ParseIntOfDigits(t[..a]);
    ParseIntOfDigits(t[d..]);
    DayMonthRule(t, a, b, c, d);
  }

  /** `Month D, YYYY` (or `D Month YYYY`) whose name is not in the month
      table, and which does not start with a digit, reads as null: no rule
      yields a date, and the relative rules need a final letter. */
  lemma UnknownMonthIsNull(t: string, a: nat, b: nat, c: nat, c2: nat, d: nat)
    requires MonthFirstAt(t, AtLeast3, a, b, c, c2, d)
    requires !MonthLookup(AsciiLower(t[..a])).Index? && !IsDigit(t[0])
    ensures Cascade(t) == None
  {
    assert InClass(Word, t[0]) && InClass(Digit, t[|t| - 1]);
    WordLedLoop(t);
    WordLedMatches(t);
    MatchMonthFirstComplete(t, AtLeast3, a, b, c, c2, d);
    DigitEndedNotRelative(t);
  }

  /** Lower-casing keeps exactly the ASCII letters. */
  lemma LowerLetter(c: char)
    ensures IsAsciiLetter(LowerChar(c)) <==> IsAsciiLetter(c)
  {
  }

  /** Text that lower-cases to one that starts and ends with a letter
      starts and ends with a letter, and so is its own trim. */
  lemma LetterEndsKeep(t: string)
    requires |t| >= 2 && IsAsciiLetter(AsciiLower(t)[0]) && IsAsciiLetter(AsciiLower(t)[|t| - 1])
    ensures Trim(t) == t && !IsDigit(t[|t| - 1])
  {
    LowerLetter(t[0]);
    LowerLetter(t[|t| - 1]);
    TrimKeeps(t);
  }

  /** The relative keywords, in any case, give their offsets from today. */
  lemma KeywordReading(t: string)
    requires AsciiLower(t) in Keywords
    ensures Trim(t) == t
    ensures AsciiLower(t) == "today" ==> Cascade(t) == Some(DaysFromToday(0))
    ensures AsciiLower(t) == "tomorrow" ==> Cascade(t) == Some(DaysFromToday(1))
    ensures AsciiLower(t) == "yesterday" ==> Cascade(t) == Some(DaysFromToday(-1))
    ensures AsciiLower(t) == "next week" ==> Cascade(t) == Some(DaysFromToday(7))
    ensures AsciiLower(t) == "next month" ==> Cascade(t) == Some(MonthsFromToday(1))
  {
    var l := AsciiLower(t);
    assert Relative(l).Some?;
    RelativeNeedsLetters(l);
    LetterEndsKeep(t);
    NoFinalDigitGoesRelative(t);
  }

  /** No keyword starts with `in`. */
  lemma InIsNoKeyword(l: string)
    requires |l| >= 2 && l[..2] == "in"
    ensures l !in Keywords
  {
    assert l[0] == 'i';
  }

  /** The `in N unit` rule, by unit. */
  lemma RelativeOfMatch(l: string, n: string, u: string)
    requires l !in Keywords && MatchRelative(l) == Some((n, u))
    ensures AllDigits(n)
    ensures (u == "day" || u == "days") ==> Relative(l) == Some(DaysFromToday(DecimalValue(n)))
    ensures (u == "week" || u == "weeks") ==> Relative(l) == Some(DaysFromToday(DecimalValue(n) * 7))
    ensures (u == "month" || u == "months") ==> Relative(l) == Some(MonthsFromToday(DecimalValue(n)))
  {
    var _ := RelativeAmount(n);
  }

  /** The `in N unit` rule on lower-cased text of its shape. */
  lemma RelativeOfUnits(l: string, b: nat, c: nat, d: nat)
    requires RelativeAt(l, b, c, d)
    ensures AllDigits(l[b..c]) && |l| >= 2 && IsAsciiLetter(l[0]) && IsAsciiLetter(l[|l| - 1])
    ensures var u := l[d..];
      && ((u == "day" || u == "days") ==> Relative(l) == Some(DaysFromToday(DecimalValue(l[b..c]))))
      && ((u == "week" || u == "weeks") ==> Relative(l) == Some(DaysFromToday(DecimalValue(l[b..c]) * 7)))
      && ((u == "month" || u == "months") ==> Relative(l) == Some(MonthsFromToday(DecimalValue(l[b..c]))))
  {
    MatchRelativeComplete(l, b, c, d);
    MatchRelativeNeedsLetters(l);
    InIsNoKeyword(l);
    RelativeOfMatch(l, l[b..c], l[d..]);
  }

  /** `in N unit`, in any case: `N` days, `7 * N` days or `N` months from
      today. */
  lemma InUnitsReading(t: string, b: nat, c: nat, d: nat)
    requires RelativeAt(AsciiLower(t), b, c, d)
    ensures AllDigits(t[b..c]) && Trim(t) == t
    ensures var u := AsciiLower(t)[d..];
      && ((u == "day" || u == "days") ==> Cascade(t) == Some(DaysFromToday(DecimalValue(t[b..c]))))
      && ((u == "week" || u == "weeks") ==> Cascade(t) == Some(DaysFromToday(DecimalValue(t[b..c]) * 7)))
      && ((u == "month" || u == "months") ==> Cascade(t) == Some(MonthsFromToday(DecimalValue(t[b..c]))))
  {
    var l := AsciiLower(t);
    RelativeOfUnits(l, b, c, d);
    LetterEndsKeep(t);
    NoFinalDigitGoesRelative(t);
    LowerKeepsDigits(t, b, c);
  }

  /** Lower-casing leaves a run of digits as it is. */
  lemma LowerKeepsDigits(t: string, b: nat, c: nat)
    requires b <= c <= |t| && RunIn(Digit, AsciiLower(t), b, c)
    ensures AsciiLower(t)[b..c] == t[b..c]
  {
    var l := AsciiLower(t);
    forall m | b <= m < c ensures t[m] == l[m] {
      assert InClass(Digit, l[m]);
    }
  }
}
