/** Calendar dates: Python's `datetime.strptime(s, "%d.%m.%Y")` on the Bulgarian
    day.month.year form, `date.isoformat()`, and the RFC 3339 full-date syntax
    (section 5.6 of RFC 3339) those ISO strings belong to. */
module Dates {
  import opened Wrappers
  import opened Text

  /** A proleptic Gregorian date, as Python's `datetime.date` holds it. */
  datatype Date = Date(year: nat, month: nat, day: nat)

  predicate IsLeapYear(y: nat) {
    y % 4 == 0 && (y % 100 != 0 || y % 400 == 0)
  }

  function DaysInMonth(y: nat, m: nat): nat
    requires 1 <= m <= 12
  {
    if m == 2 then (if IsLeapYear(y) then 29 else 28)
    else if m == 4 || m == 6 || m == 9 || m == 11 then 30
    else 31
  }

  /** A date `datetime.date` accepts: years 1 to 9999 and a day that exists in its month. */
  predicate ValidDate(d: Date) {
    1 <= d.year <= 9999 && 1 <= d.month <= 12 && 1 <= d.day <= DaysInMonth(d.year, d.month)
  }

  // ---------------------------------------------------------------------------
  // strptime("%d.%m.%Y")

  /** The text `%d` matches: `3[01]|[12]\d|0[1-9]|[1-9]| [1-9]`. */
  predicate DayDirective(t: string) {
    || (|t| == 2 && t[0] == '3' && (t[1] == '0' || t[1] == '1'))
    || (|t| == 2 && (t[0] == '1' || t[0] == '2') && IsDigit(t[1]))
    || (|t| == 2 && t[0] == '0' && IsNonZeroDigit(t[1]))
    || (|t| == 1 && IsNonZeroDigit(t[0]))
    || (|t| == 2 && t[0] == ' ' && IsNonZeroDigit(t[1]))
  }

  /** The text `%m` matches: `1[0-2]|0[1-9]|[1-9]`. */
  predicate MonthDirective(t: string) {
    || (|t| == 2 && t[0] == '1' && '0' <= t[1] <= '2')
    || (|t| == 2 && t[0] == '0' && IsNonZeroDigit(t[1]))
    || (|t| == 1 && IsNonZeroDigit(t[0]))
  }

  /** The text `%Y` matches: `\d\d\d\d`. */
  predicate YearDirective(t: string) {
    |t| == 4 && AllDigits(t)
  }

  /** Digits, optionally after one leading space. */
  predicate IsField(t: string) {
    AllDigits(t) || (|t| > 0 && t[0] == ' ' && AllDigits(t[1..]))
  }

  /** `int()` of a matched field; `int` ignores the leading space `%d` admits. */
  function FieldValue(t: string): nat
    requires IsField(t)
  {
    if |t| > 0 && t[0] == ' ' then DigitsValue(t[1..]) else DigitsValue(t)
  }

  predicate NoDot(t: string) {
    forall k :: 0 <= k < |t| ==> t[k] != '.'
  }

  /** Cuts `s` at its first two dots; `None` when it has fewer than two. */
  function SplitAtDots(s: string): (r: Option<(string, string, string)>)
    ensures r.Some? ==> s == r.value.0 + "." + r.value.1 + "." + r.value.2
    ensures r.Some? ==> NoDot(r.value.0) && NoDot(r.value.1)
  {
    var p := IndexOf(s, '.', 0);
    if p == |s| then None
    else
      var q := IndexOf(s, '.', p + 1);
      if q == |s| then None
      else
        JoinAtDots(s, p, q);
        Some((s[..p], s[p + 1..q], s[q + 1..]))
  }

  /** A text cut at two dots is the three pieces joined by dots. */
  lemma JoinAtDots(s: string, p: nat, q: nat)
    requires p < q < |s| && s[p] == '.' && s[q] == '.'
    ensures s == s[..p] + "." + s[p + 1..q] + "." + s[q + 1..]
  {
  }

  /** Joining three pieces by dots, the first two without dots, and cutting
      again at the first two dots gives the pieces back. */
  lemma SplitJoin(a: string, b: string, c: string)
    requires NoDot(a) && NoDot(b)
    ensures SplitAtDots(a + "." + b + "." + c) == Some((a, b, c))
  {
    var s := a + "." + b + "." + c;
    JoinedPieces(a, b, c);
    IndexOfFirst(s, '.', 0, |a|);
    IndexOfFirst(s, '.', |a| + 1, |a| + 1 + |b|);
  }

  /** Where the dots and the pieces sit in a joined text. */
  lemma JoinedPieces(a: string, b: string, c: string)
    requires NoDot(a) && NoDot(b)
    ensures var s, q := a + "." + b + "." + c, |a| + 1 + |b|;
      && q < |s| && s[|a|] == '.' && s[q] == '.'
      && (forall k :: 0 <= k < |a| ==> s[k] != '.')
      && (forall k :: |a| + 1 <= k < q ==> s[k] != '.')
      && s[..|a|] == a && s[|a| + 1..q] == b && s[q + 1..] == c
  {
    var s, q := a + "." + b + "." + c, |a| + 1 + |b|;
    assert forall k :: 0 <= k < |a| ==> s[k] == a[k];
    assert forall k :: |a| + 1 <= k < q ==> s[k] == b[k - |a| - 1];
  }

  /** `datetime.strptime(s, "%d.%m.%Y").date()`: the directives must match the
      whole of `s` and name a date that exists.  None of the three directives
      matches a '.', so the two separators are the first two dots of `s`. */
  function ParseDayMonthYear(s: string): (r: Option<Date>)
    ensures r.Some? ==> ValidDate(r.value)
  {
    match SplitAtDots(s)
    case None => None
    case Some((dt, mt, yt)) =>
      if DayDirective(dt) && MonthDirective(mt) && YearDirective(yt) then
        DirectivesAreFields(dt);
        DirectivesAreFields(mt);
        var d := Date(DigitsValue(yt), FieldValue(mt), FieldValue(dt));
        if ValidDate(d) then Some(d) else None
      else None
  }

  /** Every spelling `%d` accepts for day `n`: zero-padded, and for days below
      ten also a single digit or a space and a digit. */
  function DayForms(n: nat): set<string> {
    if 1 <= n <= 31 then
      {Pad(n, 2)} + (if n <= 9 then {[DigitChar(n)], [' ', DigitChar(n)]} else {})
    else {}
  }

  /** Every spelling `%m` accepts for month `n`. */
  function MonthForms(n: nat): set<string> {
    if 1 <= n <= 12 then
      {Pad(n, 2)} + (if n <= 9 then {[DigitChar(n)]} else {})
    else {}
  }

  /** Every day.month.year text that denotes `d`. */
  function Spellings(d: Date): set<string> {
    set ds, ms | ds in DayForms(d.day) && ms in MonthForms(d.month) :: ds + "." + ms + "." + Pad(d.year, 4)
  }

  lemma PadTwo(n: nat)
    requires n < 100
    ensures Pad(n, 2) == [DigitChar(n / 10), DigitChar(n % 10)]
    ensures DigitsValue(Pad(n, 2)) == n
  {
    var q := n / 10;
    assert n == 10 * q + n % 10;
    if q >= 10 {
      MulSign(10, q - 9);
    }
    DivModUnique(q, 10, 0, q);
    assert Pad(q, 1) == Pad(q / 10, 0) + [DigitChar(q % 10)];
    assert Pow10(2) == 100;
    PadValue(n, 2);
  }

  lemma TwoDigits(t: string)
    requires |t| == 2 && AllDigits(t)
    ensures DigitsValue(t) == 10 * DigitValue(t[0]) + DigitValue(t[1])
  {
    assert t[..1][..0] == [];
  }

  lemma DigitCharOf(c: char)
    requires IsDigit(c)
    ensures DigitChar(DigitValue(c)) == c
  {
  }

  lemma OneDigit(c: char)
    requires IsDigit(c)
    ensures DigitsValue([c]) == DigitValue(c)
  {
    assert [c][..0] == [];
  }

  /** Each spelling of a day matches `%d` and reads back as that day. */
  lemma DayFormsMatch(t: string, n: nat)
    requires t in DayForms(n)
    ensures DayDirective(t) && IsField(t) && FieldValue(t) == n
  {
    PadTwo(n);
    if t == Pad(n, 2) {
      assert DayDirective(t);
    } else if t == [DigitChar(n)] {
      OneDigit(DigitChar(n));
    } else {
      assert t == [' ', DigitChar(n)];
      assert t[1..] == [DigitChar(n)];
      OneDigit(DigitChar(n));
    }
  }

  /** A text `%d` matches that reads as `n` is one of the spellings of `n`. */
  lemma DayMatchForms(t: string, n: nat)
    requires DayDirective(t) && IsField(t) && FieldValue(t) == n
    ensures t in DayForms(n)
  {
    if |t| == 2 && t[0] != ' ' {
      TwoDigits(t);
      PadDigitsValue(t);
      assert t == Pad(n, 2);
    } else if |t| == 1 {
      DigitCharOf(t[0]);
      assert t == [t[0]];
      OneDigit(t[0]);
      assert t == [DigitChar(n)];
    } else {
      DigitCharOf(t[1]);
      assert t[1..] == [t[1]];
      OneDigit(t[1]);
      assert t == [' ', DigitChar(n)];
    }
  }

  lemma DayDirectiveForms(t: string, n: nat)
    ensures (DayDirective(t) && IsField(t) && FieldValue(t) == n) <==> t in DayForms(n)
  {
    if t in DayForms(n) {
      DayFormsMatch(t, n);
    }
    if DayDirective(t) && IsField(t) && FieldValue(t) == n {
      DayMatchForms(t, n);
    }
  }

  /** Each spelling of a month matches `%m` and reads back as that month. */
  lemma MonthFormsMatch(t: string, n: nat)
    requires t in MonthForms(n)
    ensures MonthDirective(t) && IsField(t) && FieldValue(t) == n
  {
    PadTwo(n);
    if t == Pad(n, 2) {
      assert MonthDirective(t);
    } else {
      assert t == [DigitChar(n)];
      OneDigit(DigitChar(n));
    }
  }

  /** A text `%m` matches that reads as `n` is one of the spellings of `n`. */
  lemma MonthMatchForms(t: string, n: nat)
    requires MonthDirective(t) && IsField(t) && FieldValue(t) == n
    ensures t in MonthForms(n)
  {
    if |t| == 2 {
      TwoDigits(t);
      PadDigitsValue(t);
      assert t == Pad(n, 2);
    } else {
      DigitCharOf(t[0]);
      assert t == [t[0]];
      OneDigit(t[0]);
      assert t == [DigitChar(n)];
    }
  }

  lemma MonthDirectiveForms(t: string, n: nat)
    ensures (MonthDirective(t) && IsField(t) && FieldValue(t) == n) <==> t in MonthForms(n)
  {
    if t in MonthForms(n) {
      MonthFormsMatch(t, n);
    }
    if MonthDirective(t) && IsField(t) && FieldValue(t) == n {
      MonthMatchForms(t, n);
    }
  }

  lemma DirectivesAreFields(t: string)
    ensures DayDirective(t) || MonthDirective(t) ==> IsField(t)
    ensures DayDirective(t) || MonthDirective(t) || YearDirective(t) ==> NoDot(t)
  {
    if |t| == 2 && t[0] == ' ' {
      assert t[1..] == [t[1]];
    }
  }

  /** `strptime` accepts exactly the spellings of real dates: `s` parses to `d`
      if and only if `d` exists and `s` is one of its day.month.year spellings. */
  lemma ParseDayMonthYearSpellings(s: string, d: Date)
    ensures ParseDayMonthYear(s) == Some(d) <==> ValidDate(d) && s in Spellings(d)
  {
    if ParseDayMonthYear(s) == Some(d) {
      ParsedIsSpelling(s, d);
    }
    if ValidDate(d) && s in Spellings(d) {
      var ds, ms :| ds in DayForms(d.day) && ms in MonthForms(d.month) && s == ds + "." + ms + "." + Pad(d.year, 4);
      SpellingParses(ds, ms, d);
    }
  }

  /** Three directive matches for `d`'s fields make a spelling of `d`. */
  lemma FieldsSpell(dt: string, mt: string, yt: string, d: Date)
    requires DayDirective(dt) && MonthDirective(mt) && YearDirective(yt)
    requires IsField(dt) && IsField(mt)
    requires d == Date(DigitsValue(yt), FieldValue(mt), FieldValue(dt))
    ensures dt + "." + mt + "." + yt in Spellings(d)
  {
    DayDirectiveForms(dt, d.day);
    MonthDirectiveForms(mt, d.month);
    PadDigitsValue(yt);
    assert yt == Pad(d.year, 4);
  }

  lemma ParsedIsSpelling(s: string, d: Date)
    requires ParseDayMonthYear(s) == Some(d)
    ensures ValidDate(d) && s in Spellings(d)
  {
    var (dt, mt, yt) := SplitAtDots(s).value;
    DirectivesAreFields(dt);
    DirectivesAreFields(mt);
    FieldsSpell(dt, mt, yt, d);
  }

  lemma SpellingParses(ds: string, ms: string, d: Date)
    requires ValidDate(d) && ds in DayForms(d.day) && ms in MonthForms(d.month)
    ensures ParseDayMonthYear(ds + "." + ms + "." + Pad(d.year, 4)) == Some(d)
  {
    var ys := Pad(d.year, 4);
    DayDirectiveForms(ds, d.day);
    MonthDirectiveForms(ms, d.month);
    DirectivesAreFields(ds);
    DirectivesAreFields(ms);
    SplitJoin(ds, ms, ys);
    assert Pow10(4) == 10000;
    PadValue(d.year, 4);
  }

  // ---------------------------------------------------------------------------
  // isoformat and RFC 3339 full-date

  /** `date.isoformat()`: "%04d-%02d-%02d". */
  function IsoFormat(d: Date): string {
    Pad(d.year, 4) + "-" + Pad(d.month, 2) + "-" + Pad(d.day, 2)
  }

  /** Reads an RFC 3339 full-date (section 5.6 of RFC 3339): four-digit year, a
      two-digit month from 01 to 12 and a two-digit day that exists in that
      month (section 5.7). */
  function ParseFullDate(t: string): (r: Option<Date>)
    ensures r.Some? ==> |t| == 10 && t[4] == '-' && t[7] == '-'
    ensures r.Some? ==> 1 <= r.value.month <= 12 && 1 <= r.value.day <= DaysInMonth(r.value.year, r.value.month)
  {
    if |t| == 10 && t[4] == '-' && t[7] == '-' && AllDigits(t[..4]) && AllDigits(t[5..7]) && AllDigits(t[8..]) then
      var d := Date(DigitsValue(t[..4]), DigitsValue(t[5..7]), DigitsValue(t[8..]));
      if 1 <= d.month <= 12 && 1 <= d.day <= DaysInMonth(d.year, d.month) then Some(d) else None
    else None
  }

  predicate IsFullDate(t: string) {
    ParseFullDate(t).Some?
  }

  /** The ISO text of a real date is an RFC 3339 full-date naming that date. */
  lemma IsoFormatRoundTrip(d: Date)
    requires ValidDate(d)
    ensures ParseFullDate(IsoFormat(d)) == Some(d)
  {
    assert Pow10(4) == 10000 && Pow10(2) == 100;
    PadValue(d.year, 4);
    PadValue(d.month, 2);
    PadValue(d.day, 2);
    FullDateOf(Pad(d.year, 4), Pad(d.month, 2), Pad(d.day, 2), d);
  }

  lemma FullDateOf(y: string, m: string, dd: string, d: Date)
    requires |y| == 4 && |m| == 2 && |dd| == 2
    requires AllDigits(y) && AllDigits(m) && AllDigits(dd)
    requires DigitsValue(y) == d.year && DigitsValue(m) == d.month && DigitsValue(dd) == d.day
    requires ValidDate(d)
    ensures ParseFullDate(y + "-" + m + "-" + dd) == Some(d)
  {
    var t := y + "-" + m + "-" + dd;
    assert t[..4] == y && t[5..7] == m && t[8..] == dd;
  }

  /** Every RFC 3339 full-date is the ISO text of the date it names. */
  lemma FullDateIsIsoFormat(t: string)
    requires IsFullDate(t)
    ensures IsoFormat(ParseFullDate(t).value) == t
  {
    PadDigitsValue(t[..4]);
    PadDigitsValue(t[5..7]);
    PadDigitsValue(t[8..]);
    assert t == t[..4] + "-" + t[5..7] + "-" + t[8..];
  }

  /** The date conversion `parse_pdf` applies to each end of the billing period:
      strptime with "%d.%m.%Y", then isoformat. */
  function ConvertDate(s: string): (r: Option<string>)
    ensures r.Some? <==> ParseDayMonthYear(s).Some?
    ensures r.Some? ==> ParseFullDate(r.value) == ParseDayMonthYear(s)
  {
    match ParseDayMonthYear(s)
    case None => None
    case Some(d) =>
      IsoFormatRoundTrip(d);
      Some(IsoFormat(d))
  }

  /** A sentence dot captured after the year makes the conversion fail. */
  lemma TrailingDotFails(s: string)
    ensures ConvertDate(s + ".") == None
  {
    var t := s + ".";
    if SplitAtDots(t).Some? {
      var (dt, mt, yt) := SplitAtDots(t).value;
      assert t == (dt + "." + mt + ".") + yt;
      if |yt| > 0 {
        assert yt[|yt| - 1] == t[|t| - 1] == '.';
      }
    }
  }

  lemma ConvertDateOf(s: string, d: Date)
    requires ParseDayMonthYear(s) == Some(d)
    ensures ConvertDate(s) == Some(IsoFormat(d))
  {
  }
}
