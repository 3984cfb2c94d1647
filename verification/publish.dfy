/** The InfluxDB point `write_to_influx` builds from a parsed invoice: its
    measurement, four fields and an RFC 3339 timestamp. */
module Publish {
  import opened Wrappers
  import opened Text
  import opened Regex
  import opened Dates
  import opened Amount
  import opened Invoice

  const Measurement: string := "electricity_invoice"

  /** `Point.field` keeps Python ints as integer fields and the amount, a
      float in `parse_pdf`'s dictionary, as a number. */
  datatype InfluxField = IntField(n: nat) | NumberField(x: Decimal)

  /** Fields are a dictionary keyed by name, as in the client library. */
  datatype Point = Point(measurement: string, fields: map<string, InfluxField>, time: string)

  /** The moment the timestamp names, in the terms of section 5.6 of RFC 3339:
      a full-date, a partial-time and a UTC offset in minutes. */
  datatype Instant = Instant(date: Date, hour: nat, minute: nat, second: nat, offsetMinutes: int)

  predicate IsTwoDigits(t: string) {
    |t| == 2 && AllDigits(t)
  }

  /** `time-offset = "Z" / time-numoffset`, the whole of `t`. */
  function ParseOffset(t: string): (r: Option<int>)
    ensures r.Some? ==> -(23 * 60 + 59) <= r.value <= 23 * 60 + 59
  {
    if t == "Z" || t == "z" then Some(0)
    else if |t| == 6 && (t[0] == '+' || t[0] == '-') && IsTwoDigits(t[1..3]) && t[3] == ':' && IsTwoDigits(t[4..]) then
      var h, m := DigitsValue(t[1..3]), DigitsValue(t[4..]);
      if h <= 23 && m <= 59 then Some(if t[0] == '+' then h * 60 + m else -(h * 60 + m)) else None
    else None
  }

  /** Drops an optional `time-secfrac` (`"." 1*DIGIT`) from the front of `t`;
      `None` when a dot is not followed by a digit. */
  function SkipFraction(t: string): (r: Option<string>)
    ensures r.Some? ==> |r.value| <= |t|
    ensures r.Some? && |r.value| < |t| ==> |t| >= 2 && t[0] == '.' && IsDigit(t[1])
  {
    if |t| == 0 || t[0] != '.' then Some(t)
    else
      var e := RunEnd(t, 1, Digit);
      if e == 1 then None else Some(t[e..])
  }

  /** Reads an RFC 3339 `date-time` (section 5.6): `full-date "T" full-time`,
      with `T` and `Z` accepted in either case as that section allows. */
  function ParseDateTime(s: string): (r: Option<Instant>)
    ensures r.Some? ==> r.value.hour <= 23 && r.value.minute <= 59 && r.value.second <= 60
    ensures r.Some? ==> |s| >= 20 && ParseFullDate(s[..10]) == Some(r.value.date)
  {
    if |s| < 20 then None
    else
      var date := ParseFullDate(s[..10]);
      if date.None? || (s[10] != 'T' && s[10] != 't') then None
      else if !(IsTwoDigits(s[11..13]) && s[13] == ':' && IsTwoDigits(s[14..16]) && s[16] == ':' && IsTwoDigits(s[17..19])) then None
      else
        var h, m, sec := DigitsValue(s[11..13]), DigitsValue(s[14..16]), DigitsValue(s[17..19]);
        if h > 23 || m > 59 || sec > 60 then None
        else
          match SkipFraction(s[19..])
          case None => None
          case Some(rest) =>
            match ParseOffset(rest)
            case None => None
            case Some(off) => Some(Instant(date.value, h, m, sec, off))
  }

  /** The `Point` built in `write_to_influx`: the measurement, the four fields and
      `f"{end_date}T00:00:00Z"`. */
  function ToPoint(r: InvoiceRecord): (p: Point)
    ensures p.measurement == Measurement
    ensures p.fields.Keys == {"day_kwh", "night_kwh", "total_kwh", "total_cost_bgn"}
    ensures |p.time| == |r.endDate| + 10 && p.time[..|r.endDate|] == r.endDate
  {
    Point(Measurement,
      map["day_kwh" := IntField(r.dayKwh),
          "night_kwh" := IntField(r.nightKwh),
          "total_kwh" := IntField(r.totalKwh),
          "total_cost_bgn" := NumberField(r.totalCost)],
      r.endDate + "T00:00:00Z")
  }

  /** Reads a record back from a point; the start date is not in the point
      and has to be supplied. */
  function FromPoint(p: Point, startDate: string): (r: Option<InvoiceRecord>)
    ensures r.Some? ==> p.measurement == Measurement && r.value.startDate == startDate
  {
    if p.measurement != Measurement then None
    else if !("day_kwh" in p.fields && "night_kwh" in p.fields && "total_kwh" in p.fields && "total_cost_bgn" in p.fields) then None
    else
      var day, night, total, cost := p.fields["day_kwh"], p.fields["night_kwh"], p.fields["total_kwh"], p.fields["total_cost_bgn"];
      if !(day.IntField? && night.IntField? && total.IntField? && cost.NumberField?) then None
      else
        match ParseDateTime(p.time)
        case None => None
        case Some(t) =>
          if t.hour == 0 && t.minute == 0 && t.second == 0 && t.offsetMinutes == 0 then
            Some(InvoiceRecord(startDate, IsoFormat(t.date), day.n, night.n, total.n, cost.x))
          else None
  }

  /** `"00"` reads as zero. */
  lemma ZeroZero()
    ensures IsTwoDigits("00") && DigitsValue("00") == 0
  {
    assert "00"[..1] == "0";
  }

  /** The timestamp of the point is an RFC 3339 date-time: midnight UTC at
      the start of the end date. */
  lemma {:induction false} MidnightUtc(d: string)
    requires IsFullDate(d)
    ensures ParseDateTime(d + "T00:00:00Z") == Some(Instant(ParseFullDate(d).value, 0, 0, 0, 0))
  {
    var s := d + "T00:00:00Z";
    ZeroZero();
    assert s[..10] == d;
    assert s[10] == 'T';
    assert s[11..13] == "00" && s[13] == ':' && s[14..16] == "00" && s[16] == ':' && s[17..19] == "00";
    assert s[19..] == "Z";
  }

  /** The point keeps everything of the record but its start date. */
  lemma PointRoundTrip(r: InvoiceRecord)
    requires IsFullDate(r.endDate)
    ensures FromPoint(ToPoint(r), r.startDate) == Some(r)
  {
    MidnightUtc(r.endDate);
    FullDateIsIsoFormat(r.endDate);
  }

  /** Every record `parse_pdf` returns becomes a point whose timestamp is
      midnight UTC of the invoice's end date, with the record's figures. */
  lemma ParsedInvoicePoint(text: string)
    requires Parse(text).Success?
    ensures var r := Parse(text).value;
      && ParseDateTime(ToPoint(r).time) == Some(Instant(ParseFullDate(r.endDate).value, 0, 0, 0, 0))
      && FromPoint(ToPoint(r), r.startDate) == Some(r)
  {
    var r := Parse(text).value;
    MidnightUtc(r.endDate);
    PointRoundTrip(r);
  }
}
