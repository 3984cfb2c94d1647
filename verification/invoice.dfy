/** The text half of `parse_pdf`: five leftmost regular-expression searches over
    the text extracted from the invoice, two date conversions and one amount
    conversion, combined all-or-nothing into an invoice record. */
module Invoice {
  import opened Wrappers
  import opened Text
  import opened Regex
  import opened Dates
  import opened Amount

  /** `от ([\d.]+) до ([\d.]+)`: "from X to Y". */
  const PeriodPattern: Pattern := [Lit("от "), Plus(DigitOrDot), Lit(" до "), Plus(DigitOrDot)]

  /** `\s+\d+\s+\d+\s+(\d+)`: the three numbers of a tariff row. */
  const TariffNumbers: Pattern := [Plus(Space), Plus(Digit), Plus(Space), Plus(Digit), Plus(Space), Plus(Digit)]

  /** `<name>\s+\d+\s+\d+\s+(\d+)`: a tariff row; the third number is the consumption. */
  function TariffPattern(name: string): Pattern {
    [Lit(name)] + TariffNumbers
  }

  /** Day tariff row, `Дневна`. */
  const DayPattern: Pattern := TariffPattern("Дневна")

  /** Night tariff row, `Нощна`. */
  const NightPattern: Pattern := TariffPattern("Нощна")

  /** `Общо:\s+(\d+)`: total consumption. */
  const TotalPattern: Pattern := [Lit("Общо:"), Plus(Space), Plus(Digit)]

  /** `СУМА ЗА ПЛАЩАНЕ\s+([\d,]+)`: amount due. */
  const CostPattern: Pattern := [Lit("СУМА ЗА ПЛАЩАНЕ"), Plus(Space), Plus(DigitOrComma)]

  /** Index of the capture group within each pattern. */
  const PeriodStartGroup: nat := 1
  const PeriodEndGroup: nat := 3
  const TariffGroup: nat := 6
  const TotalGroup: nat := 2
  const CostGroup: nat := 2

  /** A run of spaces, then digits, three times over: each run stops where the next begins. */
  lemma TariffNumbersSeparated()
    ensures Separated(TariffNumbers)
  {
    forall k | 0 <= k < |TariffNumbers| - 1
      ensures Blocks(TariffNumbers[k].cls, TariffNumbers[k + 1])
    {
    }
  }

  /** A tariff row pattern is separated whatever its row name. */
  lemma TariffSeparated(name: string)
    ensures Separated(TariffPattern(name))
  {
    var pat := TariffPattern(name);
    TariffNumbersSeparated();
    forall k | 0 <= k < |pat| - 1 && pat[k].Plus?
      ensures Blocks(pat[k].cls, pat[k + 1])
    {
      assert pat[k] == TariffNumbers[k - 1] && pat[k + 1] == TariffNumbers[k];
    }
  }

  lemma PeriodSeparated()
    ensures Separated(PeriodPattern)
  {
    assert " до "[0] == ' ';
  }

  lemma TotalSeparated()
    ensures Separated(TotalPattern)
  {
  }

  lemma CostSeparated()
    ensures Separated(CostPattern)
  {
  }

  /** Every run in the five patterns is blocked by what follows it, so the
      greedy matcher finds what Python's engine finds. */
  lemma PatternsSeparated()
    ensures Separated(PeriodPattern) && Separated(DayPattern) && Separated(NightPattern)
    ensures Separated(TotalPattern) && Separated(CostPattern)
  {
    PeriodSeparated();
    TariffSeparated("Дневна");
    TariffSeparated("Нощна");
    TotalSeparated();
    CostSeparated();
  }

  datatype Field = BillingPeriod | DayEnergy | NightEnergy | TotalEnergy | AmountDue

  /** Why `parse_pdf` raises: a search found nothing (`.group` on `None`), or a
      captured date, number or amount does not convert. */
  datatype ParseError =
    | MissingField(field: Field)
    | BadDate(raw: string)
    | BadNumber(raw: string)
    | BadAmount(raw: string)

  /** The dictionary `parse_pdf` returns; dates are ISO `YYYY-MM-DD` strings. */
  datatype InvoiceRecord = InvoiceRecord(
    startDate: string,
    endDate: string,
    dayKwh: nat,
    nightKwh: nat,
    totalKwh: nat,
    totalCost: Decimal)

  /** The most digits `int()` reads from a decimal string: CPython's
      `sys.int_info.default_max_str_digits`; a longer string raises `ValueError`. */
  const MaxIntDigits: nat := 4300

  /** `int()` of a captured group: it succeeds exactly on a non-empty run of
      at most `MaxIntDigits` digits, and the value written back with as many
      digits gives the group. */
  function ParseInt(g: string): (r: Option<nat>)
    ensures r.Some? <==> 0 < |g| <= MaxIntDigits && AllDigits(g)
    ensures r.Some? ==> r.value < Pow10(|g|) && Pad(r.value, |g|) == g
  {
    if 0 < |g| <= MaxIntDigits && AllDigits(g) then
      PadDigitsValue(g);
      Some(DigitsValue(g))
    else None
  }

  /** `parse_pdf` applied to the already extracted text: all five searches run
      first, then the record is assembled. */
  function Parse(text: string): (r: Result<InvoiceRecord, ParseError>)
    ensures r.Success? ==> IsFullDate(r.value.startDate) && IsFullDate(r.value.endDate)
  {
    Assemble(text, Search(text, PeriodPattern), Search(text, DayPattern), Search(text, NightPattern),
             Search(text, TotalPattern), Search(text, CostPattern))
  }

  /** The capture group `k` of a search result. */
  function Captured(text: string, f: Found, k: nat): string {
    Group(text, f.pos, f.ends, k)
  }

  /** The two converted dates of the billing period, or what `parse_pdf`
      raises on the way: no period match, then the first date that does not
      convert. */
  function ReadPeriod(text: string, period: Option<Found>): (r: Result<(string, string), ParseError>)
    ensures period.None? ==> r == Failure(MissingField(BillingPeriod))
    ensures r.Success? ==> (period.Some?
      && ConvertDate(Captured(text, period.value, PeriodStartGroup)) == Some(r.value.0)
      && ConvertDate(Captured(text, period.value, PeriodEndGroup)) == Some(r.value.1))
    ensures r.Success? ==> IsFullDate(r.value.0) && IsFullDate(r.value.1)
  {
    if period.None? then Failure(MissingField(BillingPeriod))
    else
      var startRaw := Captured(text, period.value, PeriodStartGroup);
      var endRaw := Captured(text, period.value, PeriodEndGroup);
      match ConvertDate(startRaw)
      case None => Failure(BadDate(startRaw))
      case Some(startDate) =>
        match ConvertDate(endRaw)
        case None => Failure(BadDate(endRaw))
        case Some(endDate) => Success((startDate, endDate))
  }

  /** `int(m.group(k))` for one of the kWh figures. */
  function ReadNumber(text: string, f: Option<Found>, field: Field, k: nat): (r: Result<nat, ParseError>)
    ensures f.None? ==> r == Failure(MissingField(field))
    ensures r.Success? ==> f.Some? && ParseInt(Captured(text, f.value, k)) == Some(r.value)
  {
    if f.None? then Failure(MissingField(field))
    else
      var raw := Captured(text, f.value, k);
      match ParseInt(raw)
      case None => Failure(BadNumber(raw))
      case Some(n) => Success(n)
  }

  /** `float(m.group(1).replace(',', '.'))` for the amount due. */
  function ReadAmount(text: string, cost: Option<Found>): (r: Result<Decimal, ParseError>)
    ensures cost.None? ==> r == Failure(MissingField(AmountDue))
    ensures r.Success? ==> cost.Some? && ParseAmount(Captured(text, cost.value, CostGroup)) == Some(r.value)
  {
    if cost.None? then Failure(MissingField(AmountDue))
    else
      var raw := Captured(text, cost.value, CostGroup);
      match ParseAmount(raw)
      case None => Failure(BadAmount(raw))
      case Some(x) => Success(x)
  }

  /** Builds the dictionary from the five search results, failing at the
      first point where `parse_pdf` raises (its expressions are evaluated
      left to right: dates first, then each kWh figure, then the amount). */
  function Assemble(text: string, period: Option<Found>, day: Option<Found>, night: Option<Found>,
                    total: Option<Found>, cost: Option<Found>): (r: Result<InvoiceRecord, ParseError>)
    ensures r.Success? ==> IsFullDate(r.value.startDate) && IsFullDate(r.value.endDate)
  {
    match ReadPeriod(text, period)
    case Failure(e) => Failure(e)
    case Success(dates) =>
      match ReadNumber(text, day, DayEnergy, TariffGroup)
      case Failure(e) => Failure(e)
      case Success(dayKwh) =>
        match ReadNumber(text, night, NightEnergy, TariffGroup)
        case Failure(e) => Failure(e)
        case Success(nightKwh) =>
          match ReadNumber(text, total, TotalEnergy, TotalGroup)
          case Failure(e) => Failure(e)
          case Success(totalKwh) =>
            match ReadAmount(text, cost)
            case Failure(e) => Failure(e)
            case Success(totalCost) =>
              Success(InvoiceRecord(dates.0, dates.1, dayKwh, nightKwh, totalKwh, totalCost))
  }

  // ---------------------------------------------------------------------------
  // What the record holds, in terms of the declarative matches

  /** `n` is `int()` of group `k` of the leftmost match of `pat`, and that group
      is the whole run of digits there (the character after it is no digit). */
  ghost predicate ReadsLeftmostNumber(text: string, pat: Pattern, k: nat, n: nat) {
    exists p, ends :: IsLeftmostMatch(text, pat, p, ends) &&
      var g := Group(text, p, ends, k);
      && |g| <= MaxIntDigits
      && |g| > 0 && AllDigits(g) && n == DigitsValue(g)
      && (LastEnd(ends) >= |text| || !IsDigit(text[LastEnd(ends)]))
  }

  /** The leftmost billing-period match has two dates that convert. */
  ghost predicate PeriodConverts(text: string) {
    exists p, ends :: IsLeftmostMatch(text, PeriodPattern, p, ends) &&
      ConvertDate(Group(text, p, ends, PeriodStartGroup)).Some? &&
      ConvertDate(Group(text, p, ends, PeriodEndGroup)).Some?
  }

  /** The group `k` of the leftmost match of `pat` is short enough for `int()`. */
  ghost predicate NumberConverts(text: string, pat: Pattern, k: nat) {
    exists p, ends :: IsLeftmostMatch(text, pat, p, ends) &&
      |Group(text, p, ends, k)| <= MaxIntDigits
  }

  /** The leftmost amount-due match has an amount that converts. */
  ghost predicate CostConverts(text: string) {
    exists p, ends :: IsLeftmostMatch(text, CostPattern, p, ends) &&
      ParseAmount(Group(text, p, ends, CostGroup)).Some?
  }

  /** The searched `\d+` group of a separated pattern is the whole digit run
      of the leftmost match; it converts exactly when it is no longer than
      `int()` allows. */
  lemma SearchedNumber(text: string, pat: Pattern, f: Found, k: nat)
    requires Separated(pat) && Search(text, pat) == Some(f)
    requires k == |pat| - 1 && pat[k] == Plus(Digit)
    ensures |Captured(text, f, k)| > 0 && AllDigits(Captured(text, f, k))
    ensures ParseInt(Captured(text, f, k)).Some? <==> |Captured(text, f, k)| <= MaxIntDigits
    ensures ParseInt(Captured(text, f, k)).Some? ==>
      ReadsLeftmostNumber(text, pat, k, ParseInt(Captured(text, f, k)).value)
  {
    SearchFindsLeftmost(text, pat, f.pos, f.ends);
    RunGroup(text, f.pos, pat, f.ends, k);
  }

  /** How a successful assembly used its search results. */
  lemma AssembleSuccessShape(text: string, period: Option<Found>, day: Option<Found>, night: Option<Found>,
                             total: Option<Found>, cost: Option<Found>)
    requires Assemble(text, period, day, night, total, cost).Success?
    ensures period.Some? && day.Some? && night.Some? && total.Some? && cost.Some?
    ensures var r := Assemble(text, period, day, night, total, cost).value;
      && ConvertDate(Captured(text, period.value, PeriodStartGroup)) == Some(r.startDate)
      && ConvertDate(Captured(text, period.value, PeriodEndGroup)) == Some(r.endDate)
      && ParseInt(Captured(text, day.value, TariffGroup)) == Some(r.dayKwh)
      && ParseInt(Captured(text, night.value, TariffGroup)) == Some(r.nightKwh)
      && ParseInt(Captured(text, total.value, TotalGroup)) == Some(r.totalKwh)
      && ParseAmount(Captured(text, cost.value, CostGroup)) == Some(r.totalCost)
  {
  }

  /** A record is only ever built from the leftmost match of every pattern:
      the dates are the converted groups of the leftmost period match, each
      kWh figure is the whole digit run its leftmost match captured, and the
      amount is the converted group of the leftmost amount-due match. */
  lemma ParseReadsLeftmostMatches(text: string)
    requires Parse(text).Success?
    ensures var r := Parse(text).value;
      && (exists p, ends :: IsLeftmostMatch(text, PeriodPattern, p, ends) &&
            ConvertDate(Group(text, p, ends, PeriodStartGroup)) == Some(r.startDate) &&
            ConvertDate(Group(text, p, ends, PeriodEndGroup)) == Some(r.endDate))
      && ReadsLeftmostNumber(text, DayPattern, TariffGroup, r.dayKwh)
      && ReadsLeftmostNumber(text, NightPattern, TariffGroup, r.nightKwh)
      && ReadsLeftmostNumber(text, TotalPattern, TotalGroup, r.totalKwh)
      && (exists p, ends :: IsLeftmostMatch(text, CostPattern, p, ends) &&
            ParseAmount(Group(text, p, ends, CostGroup)) == Some(r.totalCost))
  {
    PatternsSeparated();
    var period, day, night, total, cost :=
      Search(text, PeriodPattern), Search(text, DayPattern), Search(text, NightPattern),
      Search(text, TotalPattern), Search(text, CostPattern);
    AssembleSuccessShape(text, period, day, night, total, cost);
    SearchFindsLeftmost(text, PeriodPattern, period.value.pos, period.value.ends);
    SearchedNumber(text, DayPattern, day.value, TariffGroup);
    SearchedNumber(text, NightPattern, night.value, TariffGroup);
    SearchedNumber(text, TotalPattern, total.value, TotalGroup);
    SearchFindsLeftmost(text, CostPattern, cost.value.pos, cost.value.ends);
  }

  lemma SearchedIff(text: string, pat: Pattern)
    requires Separated(pat)
    ensures Search(text, pat).Some? <==> Occurs(text, pat)
  {
    SearchNone(text, pat);
  }

  /** The converse of `AssembleSuccessShape`: when every search found a match
      and every capture converts, the record is built. */
  lemma AssembleSucceeds(text: string, period: Option<Found>, day: Option<Found>, night: Option<Found>,
                         total: Option<Found>, cost: Option<Found>)
    requires period.Some? && day.Some? && night.Some? && total.Some? && cost.Some?
    requires ConvertDate(Captured(text, period.value, PeriodStartGroup)).Some?
    requires ConvertDate(Captured(text, period.value, PeriodEndGroup)).Some?
    requires ParseInt(Captured(text, day.value, TariffGroup)).Some?
    requires ParseInt(Captured(text, night.value, TariffGroup)).Some?
    requires ParseInt(Captured(text, total.value, TotalGroup)).Some?
    requires ParseAmount(Captured(text, cost.value, CostGroup)).Some?
    ensures Assemble(text, period, day, night, total, cost).Success?
  {
  }

  /** A record needs all five searches to find a match. */
  lemma ParseNeedsAllMatches(text: string)
    ensures Parse(text).Success? ==>
      && Search(text, PeriodPattern).Some? && Search(text, DayPattern).Some?
      && Search(text, NightPattern).Some? && Search(text, TotalPattern).Some?
      && Search(text, CostPattern).Some?
  {
    if Parse(text).Success? {
      AssembleSuccessShape(text, Search(text, PeriodPattern), Search(text, DayPattern),
                           Search(text, NightPattern), Search(text, TotalPattern), Search(text, CostPattern));
    }
  }

  /** Every conversion that a record needs is available: all five patterns
      match, the leftmost period and amount matches convert, and each leftmost
      kWh group is short enough for `int()`. */
  ghost predicate AllFieldsPresent(text: string) {
    && PeriodConverts(text)
    && NumberConverts(text, DayPattern, TariffGroup)
    && NumberConverts(text, NightPattern, TariffGroup)
    && NumberConverts(text, TotalPattern, TotalGroup)
    && CostConverts(text)
  }

  lemma ParseSuccessHasAllFields(text: string)
    requires Parse(text).Success?
    ensures AllFieldsPresent(text)
  {
    PatternsSeparated();
    ParseNeedsAllMatches(text);
    ParseReadsLeftmostMatches(text);
  }

  /** A converting leftmost period match is the one the search returns. */
  lemma PeriodSearched(text: string)
    requires PeriodConverts(text)
    ensures Search(text, PeriodPattern).Some?
    ensures ConvertDate(Captured(text, Search(text, PeriodPattern).value, PeriodStartGroup)).Some?
    ensures ConvertDate(Captured(text, Search(text, PeriodPattern).value, PeriodEndGroup)).Some?
  {
    PeriodSeparated();
    var p, ends :| IsLeftmostMatch(text, PeriodPattern, p, ends) &&
      ConvertDate(Group(text, p, ends, PeriodStartGroup)).Some? &&
      ConvertDate(Group(text, p, ends, PeriodEndGroup)).Some?;
    LeftmostIsSearched(text, PeriodPattern, p, ends);
  }

  /** A converting leftmost amount-due match is the one the search returns. */
  lemma CostSearched(text: string)
    requires CostConverts(text)
    ensures Search(text, CostPattern).Some?
    ensures ParseAmount(Captured(text, Search(text, CostPattern).value, CostGroup)).Some?
  {
    CostSeparated();
    var p, ends :| IsLeftmostMatch(text, CostPattern, p, ends) &&
      ParseAmount(Group(text, p, ends, CostGroup)).Some?;
    LeftmostIsSearched(text, CostPattern, p, ends);
  }

  /** A pattern ending in a digit run whose leftmost group is short enough is
      found, and its group converts. */
  lemma NumberSearched(text: string, pat: Pattern, k: nat)
    requires Separated(pat) && NumberConverts(text, pat, k)
    requires k == |pat| - 1 && pat[k] == Plus(Digit)
    ensures Search(text, pat).Some?
    ensures ParseInt(Captured(text, Search(text, pat).value, k)).Some?
  {
    var p, ends :| IsLeftmostMatch(text, pat, p, ends) && |Group(text, p, ends, k)| <= MaxIntDigits;
    LeftmostIsSearched(text, pat, p, ends);
    SearchedNumber(text, pat, Search(text, pat).value, k);
  }

  lemma AllFieldsParse(text: string)
    requires AllFieldsPresent(text)
    ensures Parse(text).Success?
  {
    PatternsSeparated();
    PeriodSearched(text);
    NumberSearched(text, DayPattern, TariffGroup);
    NumberSearched(text, NightPattern, TariffGroup);
    NumberSearched(text, TotalPattern, TotalGroup);
    CostSearched(text);
    AssembleSucceeds(text, Search(text, PeriodPattern), Search(text, DayPattern), Search(text, NightPattern),
                     Search(text, TotalPattern), Search(text, CostPattern));
  }

  /** All or nothing: a record comes out exactly when all five patterns match
      somewhere, the leftmost period and amount matches convert and the
      leftmost kWh groups are short enough for `int()`; otherwise
      `parse_pdf` raises and no partial record exists. */
  lemma ParseAllOrNothing(text: string)
    ensures Parse(text).Success? <==> AllFieldsPresent(text)
  {
    if Parse(text).Success? {
      ParseSuccessHasAllFields(text);
    }
    if AllFieldsPresent(text) {
      AllFieldsParse(text);
    }
  }

  /** The text each field's pattern starts with. */
  function Label(f: Field): string {
    match f
    case BillingPeriod => "от "
    case DayEnergy => "Дневна"
    case NightEnergy => "Нощна"
    case TotalEnergy => "Общо:"
    case AmountDue => "СУМА ЗА ПЛАЩАНЕ"
  }

  function PatternOf(f: Field): Pattern {
    match f
    case BillingPeriod => PeriodPattern
    case DayEnergy => DayPattern
    case NightEnergy => NightPattern
    case TotalEnergy => TotalPattern
    case AmountDue => CostPattern
  }

  /** Text without one of the five labels yields no record; without the
      billing-period label the failure is that missing field. */
  lemma MissingLabelFails(text: string, f: Field)
    requires !Contains(text, Label(f))
    ensures Parse(text).Failure?
    ensures f == BillingPeriod ==> Parse(text) == Failure(MissingField(BillingPeriod))
  {
    var pat := PatternOf(f);
    assert pat == [Lit(Label(f))] + pat[1..];
    forall q | 0 <= q <= |text| ensures !MatchesAt(text, q, pat) {
      if MatchesAt(text, q, pat) {
        MatchNeedsLiteral(text, Label(f), pat[1..], q);
      }
    }
    PatternsSeparated();
    SearchNone(text, pat);
    ParseNeedsAllMatches(text);
  }
}
