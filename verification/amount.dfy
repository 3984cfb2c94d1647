/** The amount due: `float(s.replace(',', '.'))` on the text the `[\d,]+` group
    captured, kept as an exact decimal instead of a binary float. */
module Amount {
  import opened Wrappers
  import opened Text

  /** The exact number units / 10^scale. */
  datatype Decimal = Decimal(units: nat, scale: nat)

  function ToReal(d: Decimal): real {
    d.units as real / Pow10(d.scale) as real
  }

  /** `s.replace(',', '.')`. */
  function ReplaceCommas(s: string): (t: string)
    ensures |t| == |s|
    ensures forall k :: 0 <= k < |s| ==> t[k] == (if s[k] == ',' then '.' else s[k])
  {
    if |s| == 0 then "" else ReplaceCommas(s[..|s| - 1]) + [if s[|s| - 1] == ',' then '.' else s[|s| - 1]]
  }

  /** `float()` on digits and dots: `digits`, `digits.`, `.digits` or
      `digits.digits` — at most one dot and at least one digit. */
  function ParseDecimalLiteral(t: string): Option<Decimal> {
    var p := IndexOf(t, '.', 0);
    if p == |t| then
      if |t| > 0 && AllDigits(t) then Some(Decimal(DigitsValue(t), 0)) else None
    else
      var ip, fp := t[..p], t[p + 1..];
      if AllDigits(ip) && AllDigits(fp) && |ip| + |fp| > 0 then Some(Decimal(DigitsValue(ip + fp), |fp|))
      else None
  }

  /** The conversion `parse_pdf` applies to the captured amount. */
  function ParseAmount(s: string): Option<Decimal> {
    ParseDecimalLiteral(ReplaceCommas(s))
  }

  predicate DigitsAndCommas(s: string) {
    forall k :: 0 <= k < |s| ==> IsDigit(s[k]) || s[k] == ','
  }

  predicate AtMostOneComma(s: string) {
    forall i, j :: 0 <= i < j < |s| && s[i] == ',' ==> s[j] != ','
  }

  predicate HasDigit(s: string) {
    exists k :: 0 <= k < |s| && IsDigit(s[k])
  }

  /** On text the `[\d,]+` group can capture, conversion succeeds exactly when
      there is at most one comma and at least one digit. */
  lemma AmountAcceptance(s: string)
    requires DigitsAndCommas(s)
    ensures ParseAmount(s).Some? <==> AtMostOneComma(s) && HasDigit(s)
  {
    var t := ReplaceCommas(s);
    var p := IndexOf(t, '.', 0);
    if p == |t| {
      assert forall k :: 0 <= k < |s| ==> s[k] != ',' && t[k] == s[k];
      if |t| > 0 {
        assert IsDigit(s[0]);
      }
    } else {
      var ip, fp := t[..p], t[p + 1..];
      assert AllDigits(ip) by {
        forall k | 0 <= k < |ip| ensures IsDigit(ip[k]) {
          assert t[k] != '.';
        }
      }
      if AtMostOneComma(s) {
        assert AllDigits(fp) by {
          forall k | 0 <= k < |fp| ensures IsDigit(fp[k]) {
            assert s[p] == ',';
            assert s[p + 1 + k] != ',';
          }
        }
        if HasDigit(s) {
          var k :| 0 <= k < |s| && IsDigit(s[k]);
          if k < p {
            assert ip[k] == s[k];
          } else {
            assert k > p;
            assert fp[k - p - 1] == s[k];
          }
        }
      } else {
        var i, j :| 0 <= i < j < |s| && s[i] == ',' && s[j] == ',';
        assert p <= i;
        assert fp[j - p - 1] == '.';
      }
    }
  }

  /** A comma between two digit strings is the decimal separator: the result is
      the whole part plus the fraction part over 10^(its length). */
  lemma CommaIsDecimalSeparator(ip: string, fp: string)
    requires AllDigits(ip) && AllDigits(fp) && |ip| + |fp| > 0
    ensures ParseAmount(ip + "," + fp) == Some(Decimal(DigitsValue(ip + fp), |fp|))
    ensures DigitsValue(ip + fp) == DigitsValue(ip) * Pow10(|fp|) + DigitsValue(fp)
  {
    var s := ip + "," + fp;
    var t := ReplaceCommas(s);
    assert t == ip + "." + fp;
    assert IndexOf(t, '.', 0) == |ip| by {
      assert t[|ip|] == '.';
      assert forall k :: 0 <= k < |ip| ==> t[k] == ip[k];
    }
    assert t[..|ip|] == ip && t[|ip| + 1..] == fp;
    DigitsValueAppend(ip, fp);
  }

  lemma RealDivSum(x: real, y: real, p: real)
    requires p > 0.0
    ensures (x + y) / p == x / p + y / p
  {
  }

  lemma RealMulDiv(a: real, p: real)
    requires p > 0.0
    ensures (a * p) / p == a
  {
  }

  lemma CastMulAdd(a: nat, p: nat, b: nat)
    ensures (a * p + b) as real == (a as real) * (p as real) + b as real
  {
  }

  /** Dividing `a * p + b` by `p` gives `a` and the fraction `b / p`. */
  lemma SplitQuotient(u: nat, a: nat, b: nat, p: nat)
    requires p >= 1 && u == a * p + b
    ensures (u as real) / (p as real) == a as real + (b as real) / (p as real)
  {
    var x := (a as real) * (p as real);
    CastMulAdd(a, p, b);
    RealDivSum(x, b as real, p as real);
    RealMulDiv(a as real, p as real);
  }

  /** Splitting the units at the scale gives the whole and the fractional part. */
  lemma ToRealSplit(u: nat, a: nat, b: nat, scale: nat)
    requires u == a * Pow10(scale) + b
    ensures ToReal(Decimal(u, scale)) == a as real + (b as real) / (Pow10(scale) as real)
  {
    SplitQuotient(u, a, b, Pow10(scale));
  }

  /** The value the converted amount denotes. */
  lemma CommaDecimalValue(ip: string, fp: string)
    requires AllDigits(ip) && AllDigits(fp) && |ip| + |fp| > 0
    ensures ParseAmount(ip + "," + fp).Some?
    ensures ToReal(ParseAmount(ip + "," + fp).value)
            == DigitsValue(ip) as real + DigitsValue(fp) as real / Pow10(|fp|) as real
  {
    CommaIsDecimalSeparator(ip, fp);
    ToRealSplit(DigitsValue(ip + fp), DigitsValue(ip), DigitsValue(fp), |fp|);
  }

  /** The number of decimal digits of `n` (at least one). */
  function Width(n: nat): (w: nat)
    ensures w >= 1 && n < Pow10(w)
  {
    if n < 10 then 1
    else
      var w := 1 + Width(n / 10);
      assert n < Pow10(w) by {
        assert n == 10 * (n / 10) + n % 10;
        assert n / 10 + 1 <= Pow10(w - 1);
        assert 10 * (n / 10 + 1) <= 10 * Pow10(w - 1);
      }
      w
  }

  /** How the invoice prints an amount: the digits of `units`, padded so that
      there is at least one whole digit, with a comma before the last `scale`
      digits when the scale is not zero. */
  function FormatAmount(d: Decimal): string {
    var digits := Pad(d.units, PrintWidth(d));
    var cut := PrintWidth(d) - d.scale;
    if d.scale == 0 then digits else digits[..cut] + "," + digits[cut..]
  }

  /** How many digits the invoice prints for an amount. */
  function PrintWidth(d: Decimal): (w: nat)
    ensures w >= Width(d.units) && w > d.scale
  {
    if Width(d.units) > d.scale then Width(d.units) else d.scale + 1
  }

  lemma Pow10Mono(a: nat, b: nat)
    requires a <= b
    ensures Pow10(a) <= Pow10(b)
    decreases b
  {
    if a < b {
      Pow10Mono(a, b - 1);
    }
  }

  /** The digits the invoice prints read back as the units. */
  lemma FormattedDigits(d: Decimal, width: nat)
    requires width >= Width(d.units)
    ensures AllDigits(Pad(d.units, width)) && |Pad(d.units, width)| == width
    ensures DigitsValue(Pad(d.units, width)) == d.units
  {
    Pow10Mono(Width(d.units), width);
    PadValue(d.units, width);
  }

  /** Both sides of a cut in a digit string are digit strings. */
  lemma CutDigits(digits: string, cut: nat)
    requires AllDigits(digits) && cut <= |digits|
    ensures AllDigits(digits[..cut]) && AllDigits(digits[cut..])
    ensures digits[..cut] + digits[cut..] == digits
  {
    assert forall k :: 0 <= k < |digits| - cut ==> digits[cut..][k] == digits[cut + k];
  }

  /** A comma put into a digit string is read as the decimal separator. */
  lemma SplitAmount(digits: string, cut: nat)
    requires AllDigits(digits) && 0 < cut <= |digits|
    ensures ParseAmount(digits[..cut] + "," + digits[cut..]) == Some(Decimal(DigitsValue(digits), |digits| - cut))
  {
    CutDigits(digits, cut);
    CommaIsDecimalSeparator(digits[..cut], digits[cut..]);
  }

  /** Converting a printed amount gives back the amount, digit for digit. */
  lemma FormatAmountRoundTrip(d: Decimal)
    ensures ParseAmount(FormatAmount(d)) == Some(d)
  {
    var width := PrintWidth(d);
    var digits := Pad(d.units, width);
    FormattedDigits(d, width);
    if d.scale == 0 {
      assert FormatAmount(d) == digits;
      WholeAmount(digits);
    } else {
      assert FormatAmount(d) == digits[..width - d.scale] + "," + digits[width - d.scale..];
      SplitAmount(digits, width - d.scale);
    }
  }

  lemma WholeAmount(s: string)
    requires |s| > 0 && AllDigits(s)
    ensures ParseAmount(s) == Some(Decimal(DigitsValue(s), 0))
  {
    var t := ReplaceCommas(s);
    assert t == s;
    assert IndexOf(t, '.', 0) == |t| by {
      assert forall k :: 0 <= k < |t| ==> t[k] != '.';
    }
  }

  /** `45,67` is forty-five point six seven. */
  lemma AmountExample()
    ensures ParseAmount("45,67") == Some(Decimal(4567, 2))
    ensures ToReal(Decimal(4567, 2)) == 45.67
  {
    CommaIsDecimalSeparator("45", "67");
    assert "45" + "," + "67" == "45,67";
    assert "45" + "67" == "4567";
    assert Pow10(2) == 100;
  }

  /** `123,45` is one hundred twenty-three point four five. */
  lemma AmountExample2()
    ensures ParseAmount("123,45") == Some(Decimal(12345, 2))
    ensures ToReal(Decimal(12345, 2)) == 123.45
  {
    CommaIsDecimalSeparator("123", "45");
    assert "123" + "," + "45" == "123,45";
    assert "123" + "45" == "12345";
    assert Pow10(2) == 100;
  }

  /** Two commas, or no digit at all, make the conversion fail. */
  lemma AmountRejections()
    ensures ParseAmount("1,2,3") == None
    ensures ParseAmount(",") == None
  {
    AmountAcceptance("1,2,3");
    assert "1,2,3"[1] == ',' && "1,2,3"[3] == ',';
    AmountAcceptance(",");
  }
}
