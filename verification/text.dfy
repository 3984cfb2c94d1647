/** Characters, ASCII digit strings and substring search: the vocabulary the
    invoice parser, the date converter and the mailbox scanner share. */
module Text {

  /** An ASCII decimal digit.  Python's `\d` also admits other Unicode digits;
      the model restricts itself to '0'..'9'. */
  predicate IsDigit(c: char) {
    '0' <= c <= '9'
  }

  predicate IsNonZeroDigit(c: char) {
    '1' <= c <= '9'
  }

  /** The whitespace characters `\s` matches in the model: space, tab, line feed,
      carriage return, vertical tab and form feed. */
  predicate IsSpace(c: char) {
    c == ' ' || c == '\t' || c == '\n' || c == '\r' || c == '\U{0B}' || c == '\U{0C}'
  }

  predicate AllDigits(s: string) {
    forall k :: 0 <= k < |s| ==> IsDigit(s[k])
  }

  function DigitValue(c: char): (d: nat)
    requires IsDigit(c)
    ensures d < 10
  {
    (c as int) - ('0' as int)
  }

  function DigitChar(d: nat): (c: char)
    requires d < 10
    ensures IsDigit(c) && DigitValue(c) == d
  {
    (('0' as int) + d) as char
  }

  function Pow10(k: nat): (p: nat)
    ensures p >= 1
  {
    if k == 0 then 1 else 10 * Pow10(k - 1)
  }

  /** The number a string of decimal digits denotes, as Python's `int()` reads it
      (leading zeros allowed). */
  function DigitsValue(s: string): (n: nat)
    requires AllDigits(s)
    ensures n < Pow10(|s|)
  {
    if |s| == 0 then 0 else DigitsValue(s[..|s| - 1]) * 10 + DigitValue(s[|s| - 1])
  }

  /** The last `width` decimal digits of `n`, zero-padded: `"%0*d"` for a number
      that fits the width. */
  function Pad(n: nat, width: nat): (s: string)
    ensures |s| == width && AllDigits(s)
  {
    if width == 0 then "" else Pad(n / 10, width - 1) + [DigitChar(n % 10)]
  }

  /** Reading back a padded number gives the number modulo 10^width. */
  lemma {:induction false} DigitsValuePad(n: nat, width: nat)
    ensures DigitsValue(Pad(n, width)) == n % Pow10(width)
  {
    if width > 0 {
      var s := Pad(n, width);
      assert s[..|s| - 1] == Pad(n / 10, width - 1);
      DigitsValuePad(n / 10, width - 1);
      ModOfDiv(n, Pow10(width - 1));
    }
  }

  /** A number that fits the width reads back unchanged. */
  lemma PadValue(n: nat, width: nat)
    requires n < Pow10(width)
    ensures DigitsValue(Pad(n, width)) == n
  {
    DigitsValuePad(n, width);
    DivModUnique(n, Pow10(width), 0, n);
  }

  lemma ModOfDiv(n: nat, p: nat)
    requires p >= 1
    ensures (n / 10) % p * 10 + n % 10 == n % (10 * p)
  {
    var q := n / 10;
    var r := n % 10;
    var a := q / p;
    var b := q % p;
    assert n == 10 * q + r;
    assert q == p * a + b;
    assert 10 * (p * a) == (10 * p) * a;
    assert n == (10 * p) * a + (10 * b + r);
    DivModUnique(n, 10 * p, a, 10 * b + r);
  }

  /** Quotient and remainder are determined by the division equation. */
  lemma DivModUnique(n: nat, d: nat, q: nat, r: nat)
    requires d >= 1 && n == d * q + r && r < d
    ensures n % d == r
  {
    var q', r' := n / d, n % d;
    assert n == d * q' + r';
    assert d * (q' + (q - q')) == d * q' + d * (q - q');
    assert d * q == d * q' + d * (q - q');
    MulSign(d, q - q');
  }

  /** A non-zero multiple of a positive number is at least that number in size. */
  lemma MulSign(d: int, x: int)
    requires d >= 1
    ensures x >= 1 ==> d * x >= d
    ensures x <= -1 ==> d * x <= -d
  {
    if x >= 1 {
      assert d * (1 + (x - 1)) == d * 1 + d * (x - 1);
      assert d * (x - 1) >= 0;
    } else if x <= -1 {
      assert d * (-1 + (x + 1)) == d * -1 + d * (x + 1);
      assert d * -(x + 1) >= 0;
    }
  }

  /** Padding a digit string's own value to its own length gives the string back. */
  lemma {:induction false} PadDigitsValue(s: string)
    requires AllDigits(s)
    ensures Pad(DigitsValue(s), |s|) == s
  {
    if |s| > 0 {
      var init := s[..|s| - 1];
      var n := DigitsValue(s);
      assert n / 10 == DigitsValue(init);
      assert n % 10 == DigitValue(s[|s| - 1]);
      PadDigitsValue(init);
      assert s == init + [s[|s| - 1]];
    }
  }

  /** One more digit after a shifted number. */
  lemma ShiftDigit(x: int, p: int, y: int, d: int)
    ensures (x * p + y) * 10 + d == x * (10 * p) + (y * 10 + d)
  {
    assert 10 * (x * p + y) == 10 * (x * p) + 10 * y;
    assert 10 * (x * p) == (10 * x) * p;
    assert x * (10 * p) == (x * 10) * p;
  }

  /** Digit strings stay digit strings under concatenation. */
  lemma AllDigitsAppend(a: string, b: string)
    requires AllDigits(a) && AllDigits(b)
    ensures AllDigits(a + b)
  {
    forall k | 0 <= k < |a + b| ensures IsDigit((a + b)[k]) {
      if k >= |a| {
        assert (a + b)[k] == b[k - |a|];
      }
    }
  }

  /** Concatenating digit strings shifts the first by the length of the second. */
  lemma {:induction false} DigitsValueAppend(a: string, b: string)
    requires AllDigits(a) && AllDigits(b)
    ensures AllDigits(a + b)
    ensures DigitsValue(a + b) == DigitsValue(a) * Pow10(|b|) + DigitsValue(b)
  {
    AllDigitsAppend(a, b);
    if |b| > 0 {
      var ab := a + b;
      var b' := b[..|b| - 1];
      assert AllDigits(b');
      assert ab[..|ab| - 1] == a + b';
      assert ab[|ab| - 1] == b[|b| - 1];
      DigitsValueAppend(a, b');
      var x, p, y, d := DigitsValue(a), Pow10(|b'|), DigitsValue(b'), DigitValue(b[|b| - 1]);
      assert DigitsValue(ab) == DigitsValue(a + b') * 10 + d;
      assert DigitsValue(b) == y * 10 + d;
      assert Pow10(|b|) == 10 * p;
      ShiftDigit(x, p, y, d);
    } else {
      assert a + b == a;
    }
  }

  /** `lit` occurs in `s` starting at position `i`. */
  predicate OccursAt(s: string, i: nat, lit: string) {
    i + |lit| <= |s| && s[i..i + |lit|] == lit
  }

  /** Python's `sub in s` for strings. */
  predicate Contains(s: string, sub: string) {
    exists i :: 0 <= i <= |s| && OccursAt(s, i, sub)
  }

  /** The first index at or after `from` where `c` occurs. */
  function IndexOf(s: string, c: char, from: nat): (r: nat)
    requires from <= |s|
    ensures from <= r <= |s|
    ensures r < |s| ==> s[r] == c
    ensures forall k :: from <= k < r ==> s[k] != c
    decreases |s| - from
  {
    if from == |s| || s[from] == c then from else IndexOf(s, c, from + 1)
  }

  /** The first occurrence at or after `from` is found. */
  lemma {:induction false} IndexOfFirst(s: string, c: char, from: nat, p: nat)
    requires from <= p <= |s| && (p == |s| || s[p] == c)
    requires forall k :: from <= k < p ==> s[k] != c
    ensures IndexOf(s, c, from) == p
    decreases p - from
  {
    if from < p {
      IndexOfFirst(s, c, from + 1, p);
    }
  }
}
