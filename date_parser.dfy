/** `parseDateString` of `src/utils.ts`: the rule cascade over the trimmed
    input. The platform's own parse of a date string is the parameter
    `native` (a time value, or `None` for NaN); the results that depend on
    the clock are offsets from today, and a date built from parts is the
    triple handed to `new Date(year, monthIndex, day)`, before the
    platform normalises overflowing months and days. */
module DateParser {
  import opened Wrappers
  import opened Strings
  import opened DatePatterns

  datatype DateValue =
    | Instant(time: int)
    | LocalDate(year: int, monthIndex: int, day: int)
    | DaysFromToday(days: int)
    | MonthsFromToday(months: int)

  // ----- numbers that may be NaN (`None`) -----

  /** `x - 1`. */
  function Minus1(x: Option<int>): Option<int>
  {
    if x.Some? then Some(x.value - 1) else None
  }

  /** `x <= bound`; false for NaN. */
  predicate AtMost(x: Option<int>, bound: int)
  {
    x.Some? && x.value <= bound
  }

  /** `y < 50 ? 2000 + y : 1900 + y`; NaN stays NaN. */
  function ExpandYear(y: Option<int>): (r: Option<int>)
    ensures r.Some? <==> y.Some?
    ensures y.Some? && y.value < 50 ==> r.value - 2000 == y.value
    ensures y.Some? && y.value >= 50 ==> r.value - 1900 == y.value
  {
    if y.Some? && y.value < 50 then Some(2000 + y.value)
    else if y.Some? then Some(1900 + y.value)
    else None
  }

  /** `new Date(year, monthIndex, day)` is an invalid date exactly when one
      of its arguments is NaN. */
  function NewDate(year: Option<int>, monthIndex: Option<int>, day: Option<int>): (r: Option<DateValue>)
    ensures r.Some? <==> year.Some? && monthIndex.Some? && day.Some?
  {
    if year.Some? && monthIndex.Some? && day.Some? then Some(LocalDate(year.value, monthIndex.value, day.value))
    else None
  }

  // ----- the format loop -----

  /** The `formats` array: each expression's match on the trimmed text. */
  function Formats(t: string): (fs: seq<Option<Groups>>)
    ensures |fs| == 5
  {
    [MatchSlash(t), MatchSlash(t), MatchDash(t), MatchMonthFirst(t, Exactly3), MatchDayFirst(t, Exactly3)]
  }

  /** The date the loop builds from the three parsed groups (NaN is
      `None`). A four-digit first group is read year-month-day; otherwise a
      four-digit last group is the year, and any other last group a
      two-digit year; the first two groups are read month-day when that
      fits, else day-month, else the entry is skipped (`None`). */
  function DateOfNumbers(yearFirst: bool, fullYear: bool, n1: Option<int>, n2: Option<int>, n3: Option<int>): Option<DateValue>
  {
    if yearFirst then
      NewDate(n1, Minus1(n2), n3)
    else
      var year := if fullYear then n3 else ExpandYear(n3);
      if AtMost(n1, 12) && AtMost(n2, 31) then NewDate(year, Minus1(n1), n2)
      else if AtMost(n2, 12) && AtMost(n1, 31) then NewDate(year, Minus1(n2), n1)
      else None
  }

  /** The date one matched entry yields in the loop, or `None` when the
      entry is skipped (`continue`) or builds an invalid date. */
  function FormatBody(g: Groups): Option<DateValue>
  {
    DateOfNumbers(|g.g1| == 4, |g.g3| == 4, JsParseInt(g.g1), JsParseInt(g.g2), JsParseInt(g.g3))
  }

  /** What the loop returns when started at entry `k`. */
  function FirstFound(fs: seq<Option<Groups>>, k: nat): Option<DateValue>
    decreases |fs| - k
  {
    if k >= |fs| then None
    else if fs[k].Some? && FormatBody(fs[k].value).Some? then FormatBody(fs[k].value)
    else FirstFound(fs, k + 1)
  }

  // ----- the month-name rules -----

  /** The date for a looked-up month name: an own entry gives its index; an
      inherited property is not a number, so the date is invalid. */
  function MonthNameDate(name: string, day: Option<int>, year: Option<int>): Option<DateValue>
  {
    match MonthLookup(name)
    case Absent => None
    case Inherited => NewDate(year, None, day)
    case Index(i) => NewDate(year, Some(i), day)
  }

  /** `Month D, YYYY` first, then `D Month YYYY`, names of any length. */
  function MonthNameRules(t: string): Option<DateValue>
  {
    var first :=
      match MatchMonthFirst(t, AtLeast3)
      case None => None
      case Some(g) => MonthNameDate(AsciiLower(g.g1), JsParseInt(g.g2), JsParseInt(g.g3));
    if first.Some? then first
    else
      match MatchDayFirst(t, AtLeast3)
      case None => None
      case Some(g) => MonthNameDate(AsciiLower(g.g2), JsParseInt(g.g1), JsParseInt(g.g3))
  }

  // ----- the relative rules -----

  const Keywords: seq<string> := ["today", "tomorrow", "yesterday", "next week", "next month"]

  /** The keyword `switch`, then `in N unit`, on the lower-cased text. */
  function Relative(l: string): (r: Option<DateValue>)
  {
    if l == "today" then Some(DaysFromToday(0))
    else if l == "tomorrow" then Some(DaysFromToday(1))
    else if l == "yesterday" then Some(DaysFromToday(-1))
    else if l == "next week" then Some(DaysFromToday(7))
    else if l == "next month" then Some(MonthsFromToday(1))
    else
      match MatchRelative(l)
      case None => None
      case Some(m) =>
        var amount := RelativeAmount(m.0);
        if m.1 == "day" || m.1 == "days" then Some(DaysFromToday(amount))
        else if m.1 == "week" || m.1 == "weeks" then Some(DaysFromToday(amount * 7))
        else Some(MonthsFromToday(amount))
  }

  /** `parseInt` of the amount group, which is a run of digits. */
  function RelativeAmount(n: string): (v: nat)
    requires |n| >= 1 && AllIn(Digit, n)
    ensures AllDigits(n) && v == DecimalValue(n) && JsParseInt(n) == Some(v)
  {
    ParseIntOfDigits(n);
    JsParseInt(n).value
  }

  // ----- the whole cascade -----

  /** Blank input is null; otherwise the trimmed text is read. */
  function ParseSpec(input: Option<string>, native: string -> Option<int>): Option<DateValue>
  {
    if input.None? || input.value == "" then None
    else ParseTrimmed(Trim(input.value), native)
  }

  /** Empty text is null; the native parse wins; then the rule cascade. */
  function ParseTrimmed(t: string, native: string -> Option<int>): Option<DateValue>
  {
    if t == "" then None
    else if native(t).Some? then Some(Instant(native(t).value))
    else Cascade(t)
  }

  /** The first format entry that yields a date; then the month-name rules;
      then the relative rules on the lower-cased text. */
  function Cascade(t: string): Option<DateValue>
  {
    var found := FirstFound(Formats(t), 0);
    if found.Some? then found
    else
      var named := MonthNameRules(t);
      if named.Some? then named
      else Relative(AsciiLower(t))
  }

  /** The body of the format loop for one matched entry: the date it
      returns, or `None` when it skips the entry or the date is invalid. */
  method FormatEntry(g: Groups) returns (date: Option<DateValue>)
    ensures date == FormatBody(g)
  {
    var p1, p2, p3 := JsParseInt(g.g1), JsParseInt(g.g2), JsParseInt(g.g3);
    if |g.g1| == 4 {
      date := NewDate(p1, Minus1(p2), p3);
      return;
    }
    var year := if |g.g3| == 4 then p3 else ExpandYear(p3);
    if AtMost(p1, 12) && AtMost(p2, 31) {
      date := NewDate(year, Minus1(p1), p2);
    } else if AtMost(p2, 12) && AtMost(p1, 31) {
      date := NewDate(year, Minus1(p2), p1);
    } else {
      date := None;
    }
  }

  /** `parseDateString`; `None` for a value that is not a string. */
  method ParseDateString(input: Option<string>, native: string -> Option<int>) returns (r: Option<DateValue>)
    ensures r == ParseSpec(input, native)
  {
    if input.None? || input.value == "" {
      return None;
    }
    var trimmed := Trim(input.value);
    if trimmed == "" {
      return None;
    }
    var isoDate := native(trimmed);
    if isoDate.Some? {
      return Some(Instant(isoDate.value));
    }
    var formats := Formats(trimmed);
    for k := 0 to |formats|
      invariant FirstFound(formats, 0) == FirstFound(formats, k)
    {
      if formats[k].Some? {
        var date := FormatEntry(formats[k].value);
        if date.Some? {
          return date;
        }
      }
    }
    var monthMatch := MatchMonthFirst(trimmed, AtLeast3);
    if monthMatch.Some? {
      var date := MonthNameDate(AsciiLower(monthMatch.value.g1), JsParseInt(monthMatch.value.g2), JsParseInt(monthMatch.value.g3));
      if date.Some? {
        return date;
      }
    }
    var dayMonthMatch := MatchDayFirst(trimmed, AtLeast3);
    if dayMonthMatch.Some? {
      var date := MonthNameDate(AsciiLower(dayMonthMatch.value.g2), JsParseInt(dayMonthMatch.value.g1), JsParseInt(dayMonthMatch.value.g3));
      if date.Some? {
        return date;
      }
    }
    r := Relative(AsciiLower(trimmed));
  }
}
