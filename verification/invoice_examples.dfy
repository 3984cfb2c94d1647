/** The sample invoice text run through the parser. */
module InvoiceExamples {
  import opened Wrappers
  import opened Text
  import opened Regex
  import opened Dates
  import opened Amount
  import opened Invoice
  import DateExamples

  const Line1: string := "от " + DateExamples.JanuaryFirst + " до " + DateExamples.JanuaryLast + "\n"
  const Line2: string := "Дневна 1 2 120\n"
  const Line3: string := "Нощна 1 2 80\n"
  const Line4: string := "Общо: 200\n"
  const Line5: string := "СУМА ЗА ПЛАЩАНЕ 45,67"

  /** Five lines as pdfplumber would join them; the lines start at offsets
      0, 28, 43, 56 and 66. */
  const Sample: string := Line1 + Line2 + Line3 + Line4 + Line5

  lemma Layout()
    ensures |Sample| == 87
    ensures Sample[0..28] == Line1 && Sample[28..43] == Line2 && Sample[43..56] == Line3
    ensures Sample[56..66] == Line4 && Sample[66..87] == Line5
  {
  }

  /** Line `l` sits in `s` at offset `off`. */
  ghost predicate LineAt(s: string, off: nat, l: string) {
    off + |l| <= |s| && s[off..off + |l|] == l
  }

  /** Each character of a line that sits at `off`. */
  lemma Within(s: string, off: nat, l: string)
    requires LineAt(s, off, l)
    ensures forall k :: off <= k < off + |l| ==> s[k] == l[k - off]
  {
    forall k | off <= k < off + |l| ensures s[k] == l[k - off] {
      assert s[off..off + |l|][k - off] == s[k];
    }
  }

  /** A piece of a line that sits at `off`. */
  lemma Piece(s: string, off: nat, l: string, i: nat, j: nat)
    requires LineAt(s, off, l) && i <= j <= |l|
    ensures s[off + i..off + j] == l[i..j]
  {
    forall k | 0 <= k < j - i ensures s[off + i..off + j][k] == l[i..j][k] {
      assert s[off + i..off + j][k] == s[off + i + k] == s[off..off + |l|][i + k];
    }
  }

  /** A character missing from a line is missing from where it sits. */
  lemma AbsentIn(s: string, off: nat, l: string, c: char)
    requires LineAt(s, off, l) && forall k :: 0 <= k < |l| ==> l[k] != c
    ensures forall q :: off <= q < off + |l| ==> s[q] != c
  {
    Within(s, off, l);
  }

  /** The first letters of the later labels do not occur in the lines before them. */
  lemma Line1Lacks()
    ensures forall k :: 0 <= k < |Line1| ==> Line1[k] != 'Д' && Line1[k] != 'Н' && Line1[k] != 'О' && Line1[k] != 'С'
  {
  }

  lemma Line2Lacks()
    ensures forall k :: 0 <= k < |Line2| ==> Line2[k] != 'Н' && Line2[k] != 'О' && Line2[k] != 'С'
  {
  }

  lemma Line3Lacks()
    ensures forall k :: 0 <= k < |Line3| ==> Line3[k] != 'О' && Line3[k] != 'С'
  {
  }

  lemma Line4Lacks()
    ensures forall k :: 0 <= k < |Line4| ==> Line4[k] != 'С'
  {
  }

  /** A text laid out as the sample: the five lines at their offsets. */
  ghost predicate SampleLines(s: string) {
    && |s| == 87
    && LineAt(s, 0, Line1) && LineAt(s, 28, Line2) && LineAt(s, 43, Line3)
    && LineAt(s, 56, Line4) && LineAt(s, 66, Line5)
  }

  /** `s[i..j]` is a maximal non-empty run of `cls`. */
  ghost predicate MaxRun(s: string, i: nat, j: nat, cls: CharClass) {
    && i < j <= |s|
    && (forall k :: i <= k < j ==> InClass(s[k], cls))
    && (j == |s| || !InClass(s[j], cls))
  }

  /** A maximal run is one greedy step. */
  lemma StepRun(s: string, i: nat, j: nat, cls: CharClass)
    requires MaxRun(s, i, j, cls)
    ensures Step(s, i, Plus(cls)) == Some(j)
  {
  }

  /** One more token in front of a pattern that matched. */
  lemma GreedyCons(s: string, i: nat, tok: Token, rest: Pattern, e: nat, ends: seq<nat>)
    requires i <= |s| && Step(s, i, tok) == Some(e) && e <= |s| && Greedy(s, e, rest) == Some(ends)
    ensures Greedy(s, i, [tok] + rest) == Some([e] + ends)
  {
    assert ([tok] + rest)[0] == tok && ([tok] + rest)[1..] == rest;
  }

  /** A maximal run in front of a pattern that matched. */
  lemma RunCons(s: string, i: nat, j: nat, cls: CharClass, rest: Pattern, ends: seq<nat>)
    requires MaxRun(s, i, j, cls) && Greedy(s, j, rest) == Some(ends)
    ensures Greedy(s, i, [Plus(cls)] + rest) == Some([j] + ends)
  {
    StepRun(s, i, j, cls);
    GreedyCons(s, i, Plus(cls), rest, j, ends);
  }

  lemma GreedyRunAtEnd(s: string, i: nat, j: nat, cls: CharClass)
    requires MaxRun(s, i, j, cls)
    ensures Greedy(s, i, [Plus(cls)]) == Some([j])
  {
    assert Greedy(s, j, []) == Some([]);
    RunCons(s, i, j, cls, [], []);
    assert [Plus(cls)] + [] == [Plus(cls)];
    assert [j] + [] == [j];
  }

  /** A single character of `cls` followed by one outside it. */
  lemma SingleRun(s: string, i: nat, cls: CharClass)
    requires i + 1 < |s| && InClass(s[i], cls) && !InClass(s[i + 1], cls)
    ensures MaxRun(s, i, i + 1, cls)
  {
  }

  /** Every token of `pat` is a run, and the runs are maximal and back to
      back from `i`, cut at `ends`. */
  ghost predicate Runs(s: string, i: nat, pat: Pattern, ends: seq<nat>)
    decreases |pat|
  {
    && |ends| == |pat|
    && (|pat| == 0 ||
        (pat[0].Plus? && MaxRun(s, i, ends[0], pat[0].cls) && Runs(s, ends[0], pat[1..], ends[1..])))
  }

  /** One more maximal run in front of back-to-back runs. */
  lemma RunsCons(s: string, i: nat, j: nat, cls: CharClass, rest: Pattern, ends: seq<nat>)
    requires MaxRun(s, i, j, cls) && Runs(s, j, rest, ends)
    ensures Runs(s, i, [Plus(cls)] + rest, [j] + ends)
  {
    assert ([Plus(cls)] + rest)[1..] == rest && ([j] + ends)[1..] == ends;
  }

  /** The greedy matcher takes back-to-back maximal runs one after another. */
  lemma {:induction false} GreedyRuns(s: string, i: nat, pat: Pattern, ends: seq<nat>)
    requires i <= |s| && Runs(s, i, pat, ends)
    ensures Greedy(s, i, pat) == Some(ends)
    decreases |pat|
  {
    if |pat| > 0 {
      GreedyRuns(s, ends[0], pat[1..], ends[1..]);
      RunCons(s, i, ends[0], pat[0].cls, pat[1..], ends[1..]);
      assert [Plus(pat[0].cls)] + pat[1..] == pat;
      assert [ends[0]] + ends[1..] == ends;
    }
  }

  /** The runs `\s+\d+\s+\d+\s+(\d+)` after a tariff name ending at `w`:
      five single characters `" 1 2 "` and then the consumption. */
  lemma TariffTailRuns(s: string, w: nat, e: nat)
    requires w + 6 < e <= |s|
    requires s[w] == ' ' && s[w + 1] == '1' && s[w + 2] == ' ' && s[w + 3] == '2' && s[w + 4] == ' '
    requires MaxRun(s, w + 5, e, Digit)
    ensures Runs(s, w, TariffNumbers, [w + 1, w + 2, w + 3, w + 4, w + 5, e])
  {
    var sp, dg := Plus(Space), Plus(Digit);
    assert Runs(s, e, [], []);
    RunsCons(s, w + 5, e, Digit, [], []);
    SingleRun(s, w + 4, Space);
    RunsCons(s, w + 4, w + 5, Space, [dg] + [], [e] + []);
    SingleRun(s, w + 3, Digit);
    RunsCons(s, w + 3, w + 4, Digit, [sp] + ([dg] + []), [w + 5] + ([e] + []));
    SingleRun(s, w + 2, Space);
    RunsCons(s, w + 2, w + 3, Space, [dg] + ([sp] + ([dg] + [])), [w + 4] + ([w + 5] + ([e] + [])));
    SingleRun(s, w + 1, Digit);
    RunsCons(s, w + 1, w + 2, Digit, [sp] + ([dg] + ([sp] + ([dg] + []))),
             [w + 3] + ([w + 4] + ([w + 5] + ([e] + []))));
    SingleRun(s, w, Space);
    RunsCons(s, w, w + 1, Space, [dg] + ([sp] + ([dg] + ([sp] + ([dg] + [])))),
             [w + 2] + ([w + 3] + ([w + 4] + ([w + 5] + ([e] + [])))));
    TariffShape(w, e);
  }

  /** The nested and the flat spelling of the tariff numbers and their cuts. */
  lemma TariffShape(w: nat, e: nat)
    ensures [Plus(Space)] + ([Plus(Digit)] + ([Plus(Space)] + ([Plus(Digit)] + ([Plus(Space)] + ([Plus(Digit)] + []))))) == TariffNumbers
    ensures [w + 1] + ([w + 2] + ([w + 3] + ([w + 4] + ([w + 5] + ([e] + []))))) == [w + 1, w + 2, w + 3, w + 4, w + 5, e]
    ensures [w] + [w + 1, w + 2, w + 3, w + 4, w + 5, e] == [w, w + 1, w + 2, w + 3, w + 4, w + 5, e]
  {
  }

  /** The greedy matcher reads the numbers of a tariff row. */
  lemma TariffTail(s: string, w: nat, e: nat)
    requires w + 6 < e <= |s|
    requires s[w] == ' ' && s[w + 1] == '1' && s[w + 2] == ' ' && s[w + 3] == '2' && s[w + 4] == ' '
    requires MaxRun(s, w + 5, e, Digit)
    ensures Greedy(s, w, TariffNumbers) == Some([w + 1, w + 2, w + 3, w + 4, w + 5, e])
  {
    TariffTailRuns(s, w, e);
    GreedyRuns(s, w, TariffNumbers, [w + 1, w + 2, w + 3, w + 4, w + 5, e]);
  }

  lemma Line1Dates()
    ensures Line1[3..13] == DateExamples.JanuaryFirst && Line1[17..27] == DateExamples.JanuaryLast
  {
    assert Line1[..13] == "от " + DateExamples.JanuaryFirst;
    assert Line1[..27] == "от " + DateExamples.JanuaryFirst + " до " + DateExamples.JanuaryLast;
  }

  lemma Line1Chars()
    ensures |Line1| == 28 && Line1[0..3] == "от " && Line1[13..17] == " до " && Line1[27] == '\n'
    ensures forall k :: 3 <= k < 13 ==> InClass(Line1[k], DigitOrDot)
    ensures forall k :: 17 <= k < 27 ==> InClass(Line1[k], DigitOrDot)
    ensures Line1[3..13] == DateExamples.JanuaryFirst && Line1[17..27] == DateExamples.JanuaryLast
  {
    Line1Dates();
  }

  lemma PeriodChars(s: string)
    requires SampleLines(s)
    ensures s[0..3] == "от " && s[13..17] == " до "
    ensures forall k :: 3 <= k < 13 ==> InClass(s[k], DigitOrDot)
    ensures forall k :: 17 <= k < 27 ==> InClass(s[k], DigitOrDot)
    ensures s[13] == ' ' && s[27] == '\n'
    ensures s[3..13] == DateExamples.JanuaryFirst && s[17..27] == DateExamples.JanuaryLast
  {
    Line1Chars();
    Within(s, 0, Line1);
    Piece(s, 0, Line1, 0, 3);
    Piece(s, 0, Line1, 13, 17);
    Piece(s, 0, Line1, 3, 13);
    Piece(s, 0, Line1, 17, 27);
  }

  /** The nested and the flat spelling of the period pattern and its cuts. */
  lemma PeriodShape(a: nat, b: nat)
    ensures [Lit("от ")] + ([Plus(DigitOrDot)] + ([Lit(" до ")] + [Plus(DigitOrDot)])) == PeriodPattern
    ensures [3] + ([a] + ([a + 4] + [b])) == [3, a, a + 4, b]
  {
  }

  /** A billing period `от <start> до <end>` at the very start of the text,
      the start date ending at `a` and the end date at `b`. */
  lemma PeriodAtStart(s: string, a: nat, b: nat)
    requires 3 < a && a + 4 < b <= |s|
    requires s[0..3] == "от " && s[a..a + 4] == " до "
    requires MaxRun(s, 3, a, DigitOrDot) && MaxRun(s, a + 4, b, DigitOrDot)
    ensures Search(s, PeriodPattern) == Some(Found(0, [3, a, a + 4, b]))
  {
    GreedyRunAtEnd(s, a + 4, b, DigitOrDot);
    assert Step(s, a, Lit(" до ")) == Some(a + 4);
    GreedyCons(s, a, Lit(" до "), [Plus(DigitOrDot)], a + 4, [b]);
    RunCons(s, 3, a, DigitOrDot, [Lit(" до ")] + [Plus(DigitOrDot)], [a + 4] + [b]);
    assert Step(s, 0, Lit("от ")) == Some(3);
    GreedyCons(s, 0, Lit("от "), [Plus(DigitOrDot)] + ([Lit(" до ")] + [Plus(DigitOrDot)]), 3, [a] + ([a + 4] + [b]));
    PeriodShape(a, b);
    FirstGreedyIsSearched(s, PeriodPattern, 0, [3, a, a + 4, b]);
  }

  lemma PeriodFound(s: string)
    requires SampleLines(s)
    ensures Search(s, PeriodPattern) == Some(Found(0, [3, 13, 17, 27]))
  {
    PeriodChars(s);
    assert MaxRun(s, 3, 13, DigitOrDot) && MaxRun(s, 17, 27, DigitOrDot);
    PeriodAtStart(s, 13, 27);
  }

  /** A pattern that starts with a name is found where the name first
      occurs, when the rest of the pattern matches after it. */
  lemma NameThen(s: string, name: string, rest: Pattern, p: nat, ends: seq<nat>)
    requires |name| > 0 && p + |name| <= |s|
    requires forall q :: 0 <= q < p ==> s[q] != name[0]
    requires s[p..p + |name|] == name && Greedy(s, p + |name|, rest) == Some(ends)
    ensures Search(s, [Lit(name)] + rest) == Some(Found(p, [p + |name|] + ends))
  {
    var pat := [Lit(name)] + rest;
    assert pat[0] == Lit(name);
    NoMatchBeforeLabel(s, pat, p);
    assert Step(s, p, Lit(name)) == Some(p + |name|);
    GreedyCons(s, p, Lit(name), rest, p + |name|, ends);
    FirstGreedyIsSearched(s, pat, p, [p + |name|] + ends);
  }

  lemma Line2Chars()
    ensures |Line2| == 15 && Line2[0..6] == "Дневна"
    ensures Line2[6] == ' ' && Line2[7] == '1' && Line2[8] == ' ' && Line2[9] == '2' && Line2[10] == ' '
    ensures Line2[11..14] == "120" && Line2[14] == '\n'
  {
  }

  lemma DayChars(s: string)
    requires SampleLines(s)
    ensures forall q :: 0 <= q < 28 ==> s[q] != 'Д'
    ensures s[28..34] == "Дневна"
    ensures s[34] == ' ' && s[35] == '1' && s[36] == ' ' && s[37] == '2' && s[38] == ' '
    ensures s[39..42] == "120" && s[39] == '1' && s[40] == '2' && s[41] == '0' && s[42] == '\n'
  {
    Line1Lacks();
    AbsentIn(s, 0, Line1, 'Д');
    Line2Chars();
    Within(s, 28, Line2);
    Piece(s, 28, Line2, 0, 6);
    Piece(s, 28, Line2, 11, 14);
  }

  lemma DayFound(s: string)
    requires SampleLines(s)
    ensures Search(s, DayPattern) == Some(Found(28, [34, 35, 36, 37, 38, 39, 42]))
  {
    DayChars(s);
    assert MaxRun(s, 39, 42, Digit);
    TariffTail(s, 34, 42);
    NameThen(s, "Дневна", TariffNumbers, 28, [35, 36, 37, 38, 39, 42]);
    TariffShape(34, 42);
  }

  lemma Line3Chars()
    ensures |Line3| == 13 && Line3[0..5] == "Нощна"
    ensures Line3[5] == ' ' && Line3[6] == '1' && Line3[7] == ' ' && Line3[8] == '2' && Line3[9] == ' '
    ensures Line3[10..12] == "80" && Line3[12] == '\n'
  {
  }

  lemma NightChars(s: string)
    requires SampleLines(s)
    ensures forall q :: 0 <= q < 43 ==> s[q] != 'Н'
    ensures s[43..48] == "Нощна"
    ensures s[48] == ' ' && s[49] == '1' && s[50] == ' ' && s[51] == '2' && s[52] == ' '
    ensures s[53..55] == "80" && s[53] == '8' && s[54] == '0' && s[55] == '\n'
  {
    Line1Lacks();
    AbsentIn(s, 0, Line1, 'Н');
    Line2Lacks();
    AbsentIn(s, 28, Line2, 'Н');
    Line3Chars();
    Within(s, 43, Line3);
    Piece(s, 43, Line3, 0, 5);
    Piece(s, 43, Line3, 10, 12);
  }

  lemma NightFound(s: string)
    requires SampleLines(s)
    ensures Search(s, NightPattern) == Some(Found(43, [48, 49, 50, 51, 52, 53, 55]))
  {
    NightChars(s);
    assert MaxRun(s, 53, 55, Digit);
    TariffTail(s, 48, 55);
    NameThen(s, "Нощна", TariffNumbers, 43, [49, 50, 51, 52, 53, 55]);
    TariffShape(48, 55);
  }

  /** The nested and the flat spelling of a labelled number and its cuts. */
  lemma LabelledShape(name: string, cls: CharClass, w: nat, e: nat)
    ensures [Lit(name)] + ([Plus(Space)] + [Plus(cls)]) == [Lit(name), Plus(Space), Plus(cls)]
    ensures [w] + ([w + 1] + [e]) == [w, w + 1, e]
  {
  }

  /** The `\s+(<cls>+)` after a label ending at `w`: one space, then the
      number up to `e`. */
  lemma SpacedRun(s: string, cls: CharClass, w: nat, e: nat)
    requires w + 1 < e <= |s| && cls != Space && s[w] == ' '
    requires MaxRun(s, w + 1, e, cls)
    ensures Greedy(s, w, [Plus(Space)] + [Plus(cls)]) == Some([w + 1] + [e])
  {
    GreedyRunAtEnd(s, w + 1, e, cls);
    DisjointClasses(Space, cls, s[w + 1]);
    SingleRun(s, w, Space);
    RunCons(s, w, w + 1, Space, [Plus(cls)], [e]);
  }

  lemma Line4Chars()
    ensures |Line4| == 10 && Line4[0..5] == "Общо:" && Line4[5] == ' '
    ensures Line4[6..9] == "200" && Line4[9] == '\n'
  {
  }

  lemma TotalChars(s: string)
    requires SampleLines(s)
    ensures forall q :: 0 <= q < 56 ==> s[q] != 'О'
    ensures s[56..61] == "Общо:" && s[61] == ' '
    ensures s[62..65] == "200" && s[62] == '2' && s[63] == '0' && s[64] == '0' && s[65] == '\n'
  {
    Line1Lacks();
    AbsentIn(s, 0, Line1, 'О');
    Line2Lacks();
    AbsentIn(s, 28, Line2, 'О');
    Line3Lacks();
    AbsentIn(s, 43, Line3, 'О');
    Line4Chars();
    Within(s, 56, Line4);
    Piece(s, 56, Line4, 0, 5);
    Piece(s, 56, Line4, 6, 9);
  }

  lemma TotalFound(s: string)
    requires SampleLines(s)
    ensures Search(s, TotalPattern) == Some(Found(56, [61, 62, 65]))
  {
    TotalChars(s);
    assert MaxRun(s, 62, 65, Digit);
    SpacedRun(s, Digit, 61, 65);
    NameThen(s, "Общо:", [Plus(Space)] + [Plus(Digit)], 56, [62] + [65]);
    LabelledShape("Общо:", Digit, 61, 65);
  }

  lemma Line5Chars()
    ensures |Line5| == 21 && Line5[0..15] == "СУМА ЗА ПЛАЩАНЕ" && Line5[15] == ' '
    ensures Line5[16..21] == "45,67"
  {
  }

  lemma CostAbsent(s: string)
    requires SampleLines(s)
    ensures forall q :: 0 <= q < 66 ==> s[q] != 'С'
  {
    Line1Lacks();
    AbsentIn(s, 0, Line1, 'С');
    Line2Lacks();
    AbsentIn(s, 28, Line2, 'С');
    Line3Lacks();
    AbsentIn(s, 43, Line3, 'С');
    Line4Lacks();
    AbsentIn(s, 56, Line4, 'С');
  }

  lemma CostLine(s: string)
    requires SampleLines(s)
    ensures s[66..81] == "СУМА ЗА ПЛАЩАНЕ" && s[81] == ' '
    ensures s[82..87] == "45,67"
  {
    Line5Chars();
    Within(s, 66, Line5);
    Piece(s, 66, Line5, 0, 15);
    Piece(s, 66, Line5, 16, 21);
  }

  lemma CostDigits(s: string)
    requires 87 <= |s| && s[82..87] == "45,67"
    ensures s[82] == '4' && s[83] == '5' && s[84] == ',' && s[85] == '6' && s[86] == '7'
  {
    assert forall k :: 0 <= k < 5 ==> s[82 + k] == s[82..87][k];
  }

  lemma CostChars(s: string)
    requires SampleLines(s)
    ensures forall q :: 0 <= q < 66 ==> s[q] != 'С'
    ensures s[66..81] == "СУМА ЗА ПЛАЩАНЕ" && s[81] == ' '
    ensures s[82..87] == "45,67"
    ensures s[82] == '4' && s[83] == '5' && s[84] == ',' && s[85] == '6' && s[86] == '7'
  {
    CostAbsent(s);
    CostLine(s);
    CostDigits(s);
  }

  lemma CostFound(s: string)
    requires SampleLines(s)
    ensures Search(s, CostPattern) == Some(Found(66, [81, 82, 87]))
  {
    CostChars(s);
    assert MaxRun(s, 82, 87, DigitOrComma);
    SpacedRun(s, DigitOrComma, 81, 87);
    NameThen(s, "СУМА ЗА ПЛАЩАНЕ", [Plus(Space)] + [Plus(DigitOrComma)], 66, [82] + [87]);
    LabelledShape("СУМА ЗА ПЛАЩАНЕ", DigitOrComma, 81, 87);
  }

  lemma Numbers()
    ensures ParseInt("120") == Some(120) && ParseInt("80") == Some(80) && ParseInt("200") == Some(200)
  {
    assert "120"[..2] == "12" && "12"[..1] == "1";
    assert "80"[..1] == "8";
    assert "200"[..2] == "20" && "20"[..1] == "2";
  }

  lemma PeriodCaptures(s: string)
    requires SampleLines(s)
    ensures Captured(s, Found(0, [3, 13, 17, 27]), PeriodStartGroup) == DateExamples.JanuaryFirst
    ensures Captured(s, Found(0, [3, 13, 17, 27]), PeriodEndGroup) == DateExamples.JanuaryLast
  {
    PeriodChars(s);
  }

  lemma DayCapture(s: string)
    requires SampleLines(s)
    ensures Captured(s, Found(28, [34, 35, 36, 37, 38, 39, 42]), TariffGroup) == "120"
  {
    DayChars(s);
  }

  lemma NightCapture(s: string)
    requires SampleLines(s)
    ensures Captured(s, Found(43, [48, 49, 50, 51, 52, 53, 55]), TariffGroup) == "80"
  {
    NightChars(s);
  }

  lemma TotalCapture(s: string)
    requires SampleLines(s)
    ensures Captured(s, Found(56, [61, 62, 65]), TotalGroup) == "200"
  {
    TotalChars(s);
  }

  lemma CostCapture(s: string)
    requires SampleLines(s)
    ensures Captured(s, Found(66, [81, 82, 87]), CostGroup) == "45,67"
  {
    CostChars(s);
  }

  /** Any text laid out as the sample parses to the sample's record. */
  lemma SampleLinesParse(s: string)
    requires SampleLines(s)
    ensures Parse(s) == Success(InvoiceRecord(DateExamples.JanuaryFirstIso, DateExamples.JanuaryLastIso, 120, 80, 200, Decimal(4567, 2)))
  {
    PeriodFound(s);
    DayFound(s);
    NightFound(s);
    TotalFound(s);
    CostFound(s);
    PeriodCaptures(s);
    DayCapture(s);
    NightCapture(s);
    TotalCapture(s);
    CostCapture(s);
    DateExamples.JanuaryPeriod();
    Numbers();
    AmountExample();
  }

  /** The sample invoice: January 2024, 120 kWh day, 80 kWh night, 200 kWh in
      total and 45,67 due. */
  lemma SampleInvoice()
    ensures Parse(Sample) == Success(InvoiceRecord("2024-01-01", "2024-01-31", 120, 80, 200, Decimal(4567, 2)))
  {
    Layout();
    SampleLinesParse(Sample);
  }
}
