/** Worked examples of the date conversion `parse_pdf` applies to the billing period. */
module DateExamples {
  import opened Wrappers
  import opened Text
  import opened Dates

  /** `05.03.2024`, zero-padded, and `5.3.2024`, unpadded: the fifth of March 2024. */
  const Padded: string := "05.03.2024"
  const Unpadded: string := "5.3.2024"
  const March5Iso: string := "2024-03-05"

  /** The leap day of 2024, and the same day in 2023, which does not exist. */
  const LeapDay: string := "29.02.2024"
  const NonLeapDay: string := "29.02.2023"
  const LeapDayIso: string := "2024-02-29"

  /** The ends of the sample invoice's billing period. */
  const JanuaryFirst: string := "01.01.2024"
  const JanuaryLast: string := "31.01.2024"
  const JanuaryFirstIso: string := "2024-01-01"
  const JanuaryLastIso: string := "2024-01-31"

  lemma Year2024()
    ensures Pad(2024, 4) == "2024"
  {
  }

  lemma TwoDigitText(n: nat, t: string)
    requires n < 100 && |t| == 2 && t[0] == DigitChar(n / 10) && t[1] == DigitChar(n % 10)
    ensures Pad(n, 2) == t
  {
    PadTwo(n);
  }

  lemma Shapes()
    ensures Padded == "05" + "." + "03" + "." + "2024"
    ensures Unpadded == "5" + "." + "3" + "." + "2024"
    ensures LeapDay == "29" + "." + "02" + "." + "2024"
    ensures NonLeapDay == "29" + "." + "02" + "." + "2023"
    ensures JanuaryFirst == "01" + "." + "01" + "." + "2024"
    ensures JanuaryLast == "31" + "." + "01" + "." + "2024"
  {
  }

  lemma IsoShapes()
    ensures March5Iso == "2024" + "-" + "03" + "-" + "05"
    ensures LeapDayIso == "2024" + "-" + "02" + "-" + "29"
    ensures JanuaryFirstIso == "2024" + "-" + "01" + "-" + "01"
    ensures JanuaryLastIso == "2024" + "-" + "01" + "-" + "31"
  {
  }

  lemma StrptimePadded()
    ensures ParseDayMonthYear(Padded) == Some(Date(2024, 3, 5))
  {
    Year2024();
    TwoDigitText(5, "05");
    TwoDigitText(3, "03");
    assert "05" in DayForms(5) && "03" in MonthForms(3);
    SpellingParses("05", "03", Date(2024, 3, 5));
    Shapes();
  }

  lemma StrptimeUnpadded()
    ensures ParseDayMonthYear(Unpadded) == Some(Date(2024, 3, 5))
  {
    Year2024();
    assert "5" in DayForms(5) && "3" in MonthForms(3);
    SpellingParses("5", "3", Date(2024, 3, 5));
    Shapes();
  }

  lemma IsoExample()
    ensures IsoFormat(Date(2024, 3, 5)) == March5Iso
  {
    Year2024();
    TwoDigitText(5, "05");
    TwoDigitText(3, "03");
    IsoShapes();
  }

  /** `05.03.2024` and the unpadded `5.3.2024` both become `2024-03-05`. */
  lemma ConvertDateExample()
    ensures ConvertDate(Padded) == Some(March5Iso)
    ensures ConvertDate(Unpadded) == Some(March5Iso)
  {
    StrptimePadded();
    StrptimeUnpadded();
    IsoExample();
    ConvertDateOf(Padded, Date(2024, 3, 5));
    ConvertDateOf(Unpadded, Date(2024, 3, 5));
  }

  lemma LeapDayParses()
    ensures ParseDayMonthYear(LeapDay) == Some(Date(2024, 2, 29))
  {
    Year2024();
    TwoDigitText(29, "29");
    TwoDigitText(2, "02");
    assert "29" in DayForms(29) && "02" in MonthForms(2);
    SpellingParses("29", "02", Date(2024, 2, 29));
    Shapes();
  }

  lemma Year2023()
    ensures YearDirective("2023") && DigitsValue("2023") == 2023
  {
    assert Pad(2023, 4) == "2023" && Pow10(4) == 10000;
    PadValue(2023, 4);
  }

  /** A two-digit text is a field that reads as its number. */
  lemma TwoDigitField(n: nat, t: string)
    requires n < 100 && |t| == 2 && t[0] == DigitChar(n / 10) && t[1] == DigitChar(n % 10)
    ensures IsField(t) && FieldValue(t) == n
  {
    TwoDigitText(n, t);
    PadTwo(n);
  }

  lemma NonLeapFields()
    ensures DayDirective("29") && MonthDirective("02") && YearDirective("2023")
    ensures IsField("29") && IsField("02")
    ensures DigitsValue("2023") == 2023 && FieldValue("02") == 2 && FieldValue("29") == 29
  {
    Year2023();
    TwoDigitField(2, "02");
    TwoDigitField(29, "29");
  }

  lemma NonLeapDayRejected()
    ensures ParseDayMonthYear(NonLeapDay) == None
  {
    Shapes();
    assert NoDot("29") && NoDot("02");
    SplitJoin("29", "02", "2023");
    NonLeapFields();
    assert !ValidDate(Date(2023, 2, 29));
  }

  lemma LeapIsoExample()
    ensures IsoFormat(Date(2024, 2, 29)) == LeapDayIso
  {
    Year2024();
    TwoDigitText(29, "29");
    TwoDigitText(2, "02");
    IsoShapes();
  }

  /** A day that does not exist in its month is rejected; leap years are honoured. */
  lemma CalendarValidation()
    ensures ConvertDate(NonLeapDay) == None
    ensures ConvertDate(LeapDay) == Some(LeapDayIso)
  {
    NonLeapDayRejected();
    LeapDayParses();
    LeapIsoExample();
    ConvertDateOf(LeapDay, Date(2024, 2, 29));
  }

  lemma StrptimeFirstOfJanuary()
    ensures ParseDayMonthYear(JanuaryFirst) == Some(Date(2024, 1, 1))
  {
    Year2024();
    TwoDigitText(1, "01");
    assert "01" in DayForms(1) && "01" in MonthForms(1);
    SpellingParses("01", "01", Date(2024, 1, 1));
    Shapes();
  }

  lemma StrptimeLastOfJanuary()
    ensures ParseDayMonthYear(JanuaryLast) == Some(Date(2024, 1, 31))
  {
    Year2024();
    TwoDigitText(1, "01");
    TwoDigitText(31, "31");
    assert "31" in DayForms(31) && "01" in MonthForms(1);
    SpellingParses("31", "01", Date(2024, 1, 31));
    Shapes();
  }

  lemma IsoJanuary()
    ensures IsoFormat(Date(2024, 1, 1)) == JanuaryFirstIso
    ensures IsoFormat(Date(2024, 1, 31)) == JanuaryLastIso
  {
    Year2024();
    TwoDigitText(1, "01");
    TwoDigitText(31, "31");
    IsoShapes();
  }

  /** The billing period of the sample invoice: January 2024. */
  lemma JanuaryPeriod()
    ensures ConvertDate(JanuaryFirst) == Some(JanuaryFirstIso)
    ensures ConvertDate(JanuaryLast) == Some(JanuaryLastIso)
  {
    StrptimeFirstOfJanuary();
    StrptimeLastOfJanuary();
    IsoJanuary();
    ConvertDateOf(JanuaryFirst, Date(2024, 1, 1));
    ConvertDateOf(JanuaryLast, Date(2024, 1, 31));
  }
}
