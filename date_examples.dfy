/** Worked readings of `parseDateString` on concrete text, each obtained
    from the general readings of `DateReadings`. */
module DateExamples {
  import opened Wrappers
  import opened Strings
  import opened DatePatterns
  import opened DateParser
  import opened DateReadings

  /** The values of the numerals the examples use. */
  lemma Numerals()
    ensures AllDigits("2024") && DecimalValue("2024") == 2024
    ensures AllDigits("01") && DecimalValue("01") == 1
    ensures AllDigits("13") && DecimalValue("13") == 13
    ensures AllDigits("15") && DecimalValue("15") == 15
    ensures AllDigits("23") && DecimalValue("23") == 23
  {
    assert "2024"[..3] == "202" && "202"[..2] == "20" && "20"[..1] == "2";
  }

  lemma SlashPieces(t: string, g: Groups)
    requires t == g.g1 + "/" + g.g2 + "/" + g.g3
    requires g.g1 in ["01", "1", "13", "15"] && g.g2 in ["01", "2", "13", "15"] && g.g3 in ["2024", "23"]
    ensures SlashShape(t, g)
  {
  }

  /** Month first when both readings fit: `01/15/2024` is January 15. */
  lemma MonthFirstSlashExample(t: string)
    requires t == "01/15/2024"
    ensures Cascade(t) == Some(LocalDate(2024, 0, 15))
  {
    var g := Groups("01", "15", "2024");
    SlashPieces(t, g);
    SlashReading(t, g);
    Numerals();
  }

  /** Day first when the first number is no month: `15/01/2024`. */
  lemma DayFirstSlashExample(t: string)
    requires t == "15/01/2024"
    ensures Cascade(t) == Some(LocalDate(2024, 0, 15))
  {
    var g := Groups("15", "01", "2024");
    SlashPieces(t, g);
    SlashReading(t, g);
    Numerals();
  }

  /** Neither number a month: `13/13/2024` is no date, and no later rule
      reads it either. */
  lemma NoMonthSlashExample(t: string)
    requires t == "13/13/2024"
    ensures Cascade(t) == None
  {
    var g := Groups("13", "13", "2024");
    SlashPieces(t, g);
    SlashReading(t, g);
    Numerals();
  }

  /** A short year: `1/2/23` is January 2, 2023. */
  lemma ShortYearExample(t: string)
    requires t == "1/2/23"
    ensures Cascade(t) == Some(LocalDate(2023, 0, 2))
  {
    var g := Groups("1", "2", "23");
    SlashPieces(t, g);
    SlashReading(t, g);
    Numerals();
    assert DecimalValue("1") == 1 && DecimalValue("2") == 2;
    assert SlashDate(1, 2, 23, false) == Some(LocalDate(2023, 0, 2));
  }

  lemma IsoPieces(t: string)
    requires t == "2024-1-5"
    ensures DashShape(t, Groups("2024", "1", "5"))
  {
  }

  /** Year first with a dash: `2024-1-5` is January 5. */
  lemma IsoExample(t: string)
    requires t == "2024-1-5"
    ensures Cascade(t) == Some(LocalDate(2024, 0, 5))
  {
    IsoPieces(t);
    IsoReading(t, Groups("2024", "1", "5"));
    Numerals();
  }

  lemma JanPieces(t: string)
    requires t == "Jan 15, 2024"
    ensures MonthFirstAt(t, AtLeast3, 3, 4, 6, 7, 8)
    ensures t[4..6] == "15" && t[8..] == "2024"
    ensures MonthLookup(AsciiLower(t[..3])) == Index(0)
  {
    assert t[..3] == "Jan" && AsciiLower("Jan") == "jan";
  }

  /** A month name first: `Jan 15, 2024`. */
  lemma MonthNameExample(t: string)
    requires t == "Jan 15, 2024"
    ensures Cascade(t) == Some(LocalDate(2024, 0, 15))
  {
    JanPieces(t);
    MonthNameReading(t, 3, 4, 6, 7, 8, 0);
    Numerals();
  }

  lemma MarchPieces(t: string)
    requires t == "15 March 2024"
    ensures DayFirstAt(t, AtLeast3, 2, 3, 8, 9)
    ensures t[..2] == "15" && t[9..] == "2024"
    ensures MonthLookup(AsciiLower(t[3..8])) == Index(2)
  {
    assert t[3..8] == "March" && AsciiLower("March") == "march";
  }

  /** A month name second: `15 March 2024`. */
  lemma DayMonthNameExample(t: string)
    requires t == "15 March 2024"
    ensures Cascade(t) == Some(LocalDate(2024, 2, 15))
  {
    MarchPieces(t);
    DayMonthNameReading(t, 2, 3, 8, 9, 2);
    Numerals();
  }

  lemma FooPieces(t: string)
    requires t == "Foo 15 2024"
    ensures MonthFirstAt(t, AtLeast3, 3, 4, 6, 6, 7) && !IsDigit(t[0])
    ensures MonthLookup(AsciiLower(t[..3])) == Absent
  {
    assert t[..3] == "Foo";
    assert AsciiLower("Foo") == "foo";
    assert MonthLookup("foo") == Absent;
  }

  /** A word that is no month name: `Foo 15 2024` reads as null. */
  lemma UnknownNameExample(t: string)
    requires t == "Foo 15 2024"
    ensures Cascade(t) == None
  {
    FooPieces(t);
    UnknownMonthIsNull(t, 3, 4, 6, 6, 7);
  }

  /** `parseInt` reads a `0x` prefix as base 16. */
  lemma HexWordValue(w: string)
    requires w == "0xc"
    ensures JsParseInt(w) == Some(12)
  {
    assert TrimStart(w) == w;
    assert w[2..] == "c" && DigitRun("c", 16) == 1;
    assert "c"[..1] == "c";
  }

  lemma HexWordPieces(t: string)
    requires t == "0xc 15 2024"
    ensures MonthFirstAt(t, Exactly3, 3, 4, 6, 6, 7)
    ensures t[..3] == "0xc" && t[4..6] == "15" && t[7..] == "2024"
  {
  }

  /** The loop body reads the groups `0xc`, `15`, `2024` as month 12, day
      15 of 2024. */
  lemma HexWordBody(g: Groups)
    requires g == Groups("0xc", "15", "2024")
    ensures FormatBody(g) == Some(LocalDate(2024, 11, 15))
  {
    HexWordValue("0xc");
    Numerals();
    ParseIntOfDigits("15");
    ParseIntOfDigits("2024");
  }

  /** The loop's three-character month word admits digits, and `parseInt`
      reads `0xc` as 12: `0xc 15 2024` is December 15, 2024, found by the
      format loop and not by the month-name rules. */
  lemma HexWordExample(t: string)
    requires t == "0xc 15 2024"
    ensures FirstFound(Formats(t), 0) == Some(LocalDate(2024, 11, 15))
    ensures Cascade(t) == Some(LocalDate(2024, 11, 15))
  {
    HexWordPieces(t);
    HexWordBody(Groups(t[..3], t[4..6], t[7..]));
    MonthWordLoop(t, 4, 6, 6, 7);
  }

  lemma WeeksPieces(t: string)
    requires t == "in 3 weeks"
    ensures RelativeAt(AsciiLower(t), 3, 4, 5)
    ensures AsciiLower(t)[5..] == "weeks" && t[3..4] == "3" && DecimalValue("3") == 3
  {
    assert AsciiLower(t) == t;
  }

  lemma WeeksTrim(s: string, t: string)
    requires s == "  in 3 weeks " && t == "in 3 weeks"
    ensures Trim(s) == t
  {
    assert s[1..][1..] == s[2..];
    assert TrimStart(s) == TrimStart(s[1..]) == TrimStart(s[2..]) == s[2..];
    assert s[2..][..|s[2..]| - 1] == t;
    assert TrimEnd(s[2..]) == TrimEnd(t) == t;
  }

  /** `in 3 weeks` is 21 days from today, whatever white space surrounds
      it, when the platform's parser does not read it. */
  lemma InWeeksExample(s: string, t: string, native: string -> Option<int>)
    requires s == "  in 3 weeks " && t == "in 3 weeks" && native(t).None?
    ensures ParseSpec(Some(s), native) == Some(DaysFromToday(21))
  {
    WeeksPieces(t);
    WeeksTrim(s, t);
    InUnitsReading(t, 3, 4, 5);
    RulesReadTheRest(s, native);
  }

  /** `Tomorrow` is one day from today. */
  lemma TomorrowExample(t: string)
    requires t == "Tomorrow"
    ensures Cascade(t) == Some(DaysFromToday(1))
  {
    assert AsciiLower(t) == "tomorrow";
    KeywordReading(t);
  }
}
