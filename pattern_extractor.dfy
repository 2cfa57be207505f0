/**
 * The pattern extractor (`extraire_elements_avec_regex`): calendar dates, prices, tax
 * stamps, the announced total and the line items found in the OCR text, and whether the
 * items add up to the total. The regular expressions are written out as scanners; each
 * of them is deterministic (its backtracking alternatives can never succeed), so a scanner
 * that commits to the first viable choice finds exactly what the pattern matches.
 * Amounts are integers in thousandths of a dinar (millimes).
 */
module PatternExtractor {
  import opened Wrappers
  import opened Text
  import opened Scan

  // ---------------------------------------------------------------- scanning

  /** `\b` before position `i`, when the character at `i` is a word character. */
  predicate BoundaryBefore(s: string, i: nat)
    requires i <= |s|
  {
    i == 0 || !IsWordChar(s[i - 1])
  }

  /** `\b` at position `i`, when the character before `i` is a word character. */
  predicate BoundaryAfter(s: string, i: nat)
    requires i <= |s|
  {
    i == |s| || !IsWordChar(s[i])
  }

  /** The end of the maximal run of digits starting at `i` (`\d+` or `\d*`). */
  function DigitRunEnd(s: string, i: nat): (j: nat)
    requires i <= |s|
    decreases |s| - i
    ensures i <= j <= |s|
    ensures forall k :: i <= k < j ==> IsDigit(s[k])
    ensures j == |s| || !IsDigit(s[j])
  {
    if i < |s| && IsDigit(s[i]) then DigitRunEnd(s, i + 1) else i
  }

  /** The end of the whitespace run starting at `i` (`\s*`). */
  function SpaceRunEnd(s: string, i: nat): (j: nat)
    requires i <= |s|
    decreases |s| - i
    ensures i <= j <= |s|
    ensures forall k :: i <= k < j ==> IsSpace(s[k])
    ensures j == |s| || !IsSpace(s[j])
  {
    if i < |s| && IsSpace(s[i]) then SpaceRunEnd(s, i + 1) else i
  }

  /**
   * `\.\d{2,3}\s?DT` right after an integer part ending at `j`: the end of the fraction
   * and the end of the whole amount, if it is there.
   */
  function AmountTail(s: string, j: nat): (r: Option<(nat, nat)>)
    requires j <= |s|
    ensures r.Some? ==> j + 3 <= r.value.0 <= j + 4 && r.value.0 + 2 <= r.value.1 <= |s|
    ensures r.Some? ==>
      && s[j] == '.' && (forall k :: j + 1 <= k < r.value.0 ==> IsDigit(s[k]))
      && OccursAt(s, "DT", r.value.1 - 2)
      && (r.value.1 == r.value.0 + 2 || (r.value.1 == r.value.0 + 3 && IsSpace(s[r.value.0])))
  {
    if j + 2 < |s| && s[j] == '.' && IsDigit(s[j + 1]) && IsDigit(s[j + 2]) then
      var f := if j + 3 < |s| && IsDigit(s[j + 3]) then j + 4 else j + 3;
      var w := if f < |s| && IsSpace(s[f]) then f + 1 else f;
      if OccursAt(s, "DT", w) then Some((f, w + 2)) else None
    else None
  }

  /** The end of a price match `\b\d+\.\d{2,3}\s?DT\b` starting at `i`. */
  function PriceAt(s: string, i: nat): (r: Option<nat>)
    requires i <= |s|
    ensures r.Some? ==> i < r.value <= |s|
  {
    if i < |s| && IsDigit(s[i]) && BoundaryBefore(s, i) then
      match AmountTail(s, DigitRunEnd(s, i))
      case Some((_, e)) => if BoundaryAfter(s, e) then Some(e) else None
      case None => None
    else None
  }

  /** The price pattern as a matcher on `s`, capturing the matched text. */
  function PriceMatcher(s: string): (at: Matcher<string>)
    ensures Advances(at, |s|)
    ensures forall j: nat :: j <= |s| ==> (at(j).Some? <==> PriceAt(s, j).Some?)
    ensures forall j: nat :: j <= |s| && at(j).Some? ==> at(j).value == (s[j..PriceAt(s, j).value], PriceAt(s, j).value)
  {
    (j: nat) => if j <= |s| && PriceAt(s, j).Some? then Some((s[j..PriceAt(s, j).value], PriceAt(s, j).value)) else None
  }

  /** No price match starts in `[a, b)`. */
  predicate NoPriceIn(s: string, a: nat, b: nat)
    requires b <= |s|
  {
    forall j :: a <= j < b ==> PriceAt(s, j).None?
  }

  /**
   * `re.finditer` of the price pattern from `i`: every element is a price match with its
   * text, they come left to right without overlapping, and no price match starts in the
   * gaps before, between or after them.
   */
  function PriceSpans(s: string, i: nat): (ms: seq<Match<string>>)
    requires i <= |s|
    ensures IsFindAll(PriceMatcher(s), |s|, i, ms)
    ensures forall k :: 0 <= k < |ms| ==>
      i <= ms[k].start < ms[k].end <= |s| && PriceAt(s, ms[k].start) == Some(ms[k].end) && ms[k].value == s[ms[k].start..ms[k].end]
    ensures forall k :: 0 <= k < |ms| - 1 ==> ms[k].end <= ms[k + 1].start && NoPriceIn(s, ms[k].end, ms[k + 1].start)
    ensures NoPriceIn(s, i, if ms == [] then |s| else ms[0].start)
    ensures ms != [] ==> NoPriceIn(s, ms[|ms| - 1].end, |s|)
  {
    var ms := FindAll(PriceMatcher(s), |s|, i);
    PriceGaps(s, ms);
    ms
  }

  /** The gaps `finditer` leaves hold no price match. */
  lemma PriceGaps(s: string, ms: seq<Match<string>>)
    requires forall k :: 0 <= k < |ms| ==> ms[k].end <= |s|
    ensures forall a: nat, b: nat :: b <= |s| && NoneIn(PriceMatcher(s), a, b) ==> NoPriceIn(s, a, b)
  {
    var at := PriceMatcher(s);
    forall a: nat, b: nat | b <= |s| && NoneIn(at, a, b)
      ensures NoPriceIn(s, a, b)
    {
      forall j | a <= j < b
        ensures PriceAt(s, j).None?
      {
        assert at(j).None?;
      }
    }
  }

  /** `re.findall` of the price pattern: the matched texts, in order. */
  function Prices(s: string): (r: seq<string>)
    ensures |r| == |PriceSpans(s, 0)|
    ensures forall k :: 0 <= k < |r| ==> r[k] == PriceSpans(s, 0)[k].value
  {
    Values(PriceSpans(s, 0))
  }

  /** `re.search` of the price pattern: the first match, which is also the first of `findall`. */
  function FirstPrice(s: string): (r: Option<(nat, nat)>)
    ensures r.Some? ==> r.value.0 < r.value.1 <= |s| && PriceAt(s, r.value.0) == Some(r.value.1)
    ensures r.Some? ==> NoPriceIn(s, 0, r.value.0)
    ensures r.None? ==> NoPriceIn(s, 0, |s|)
  {
    var ms := PriceSpans(s, 0);
    if ms == [] then None else Some((ms[0].start, ms[0].end))
  }

  // ----------------------------------------------------------------- amounts

  /**
   * The amount in millimes of a price or total text: integer part, then two or three
   * fraction digits (two digits are tenths and hundredths). What follows is ignored, as
   * `float` ignores the stripped currency suffix; a text that is not such a number is 0.
   * The thousands of the result are the integer part, and the rest are the decimals read
   * as hundreds, tens and units of millimes.
   */
  function Amount(p: string): (r: nat)
    ensures var j := DigitRunEnd(p, 0);
      j + 2 < |p| && p[j] == '.' && IsDigit(p[j + 1]) && IsDigit(p[j + 2]) ==>
        && r / 1000 == DigitsValue(p[..j])
        && r % 1000 == DigitValue(p[j + 1]) * 100 + DigitValue(p[j + 2]) * 10
                       + (if j + 3 < |p| && IsDigit(p[j + 3]) then DigitValue(p[j + 3]) else 0)
    ensures var j := DigitRunEnd(p, 0);
      !(j + 2 < |p| && p[j] == '.' && IsDigit(p[j + 1]) && IsDigit(p[j + 2])) ==> r == 0
  {
    var j := DigitRunEnd(p, 0);
    if j + 2 < |p| && p[j] == '.' && IsDigit(p[j + 1]) && IsDigit(p[j + 2]) then
      var whole := DigitsValue(p[..j]);
      if j + 3 < |p| && IsDigit(p[j + 3]) then
        DecimalsOfThree(p, j);
        ThousandsAndRest(whole, DigitsValue(p[j + 1..j + 4]));
        whole * 1000 + DigitsValue(p[j + 1..j + 4])
      else
        DecimalsOfTwo(p, j);
        ThousandsAndRest(whole, DigitsValue(p[j + 1..j + 3]) * 10);
        whole * 1000 + DigitsValue(p[j + 1..j + 3]) * 10
    else 0
  }

  /** Two decimals after position `j`, read as a number. */
  lemma DecimalsOfTwo(p: string, j: nat)
    requires j + 2 < |p| && IsDigit(p[j + 1]) && IsDigit(p[j + 2])
    ensures AllDigits(p[j + 1..j + 3])
    ensures DigitsValue(p[j + 1..j + 3]) == DigitValue(p[j + 1]) * 10 + DigitValue(p[j + 2])
  {
    var q := p[j + 1..j + 3];
    assert q == [p[j + 1], p[j + 2]];
    TwoDigits(q);
  }

  /** Three decimals after position `j`, read as a number. */
  lemma DecimalsOfThree(p: string, j: nat)
    requires j + 3 < |p| && IsDigit(p[j + 1]) && IsDigit(p[j + 2]) && IsDigit(p[j + 3])
    ensures AllDigits(p[j + 1..j + 4])
    ensures DigitsValue(p[j + 1..j + 4]) == DigitValue(p[j + 1]) * 100 + DigitValue(p[j + 2]) * 10 + DigitValue(p[j + 3])
  {
    assert p[j + 1..j + 4] == [p[j + 1], p[j + 2], p[j + 3]];
    ThreeDigits(p[j + 1], p[j + 2], p[j + 3]);
  }

  /** A number of thousands plus less than a thousand splits back into the two. */
  lemma ThousandsAndRest(w: nat, f: nat)
    requires f < 1000
    ensures (w * 1000 + f) / 1000 == w && (w * 1000 + f) % 1000 == f
  {
  }

  /** The leading digit of a two-digit number below 40 is at most 3, of one below 20 at most 1. */
  lemma TwoDigits(p: string)
    requires |p| == 2 && AllDigits(p)
    ensures DigitsValue(p) == DigitValue(p[0]) * 10 + DigitValue(p[1])
    ensures DigitsValue(p) <= 31 ==> p[0] <= '3'
    ensures DigitsValue(p) <= 12 ==> p[0] <= '1'
  {
    assert p[..1][..0] == [];
    assert DigitsValue(p[..1]) == DigitValue(p[0]);
  }

  /** Three digits read back as their value. */
  lemma ThreeDigits(a: char, b: char, c: char)
    requires IsDigit(a) && IsDigit(b) && IsDigit(c)
    ensures AllDigits([a, b, c])
    ensures DigitsValue([a, b, c]) == DigitValue(a) * 100 + DigitValue(b) * 10 + DigitValue(c)
  {
    var p := [a, b, c];
    assert p[..2] == [a, b];
    assert [a, b][..1] == [a];
    assert [a][..0] == [];
    assert DigitsValue([a]) == DigitValue(a);
    assert DigitsValue([a, b]) == DigitValue(a) * 10 + DigitValue(b);
  }

  function DigitChar(d: nat): (c: char)
    requires d < 10
    ensures IsDigit(c) && DigitValue(c) == d
  {
    ('0' as int + d) as char
  }

  /** The decimal digits of `n`, without leading zeros (`str(n)`). */
  function NatToString(n: nat): (s: string)
    decreases n
    ensures |s| >= 1 && AllDigits(s)
    ensures DigitsValue(s) == n
  {
    if n < 10 then [DigitChar(n)]
    else
      var r := NatToString(n / 10) + [DigitChar(n % 10)];
      assert r[..|r| - 1] == NatToString(n / 10);
      r
  }

  /** An amount in millimes written with three decimals and the currency suffix. */
  function FormatAmount(m: nat): (s: string) {
    var r := m % 1000;
    NatToString(m / 1000) + "." + [DigitChar(r / 100), DigitChar(r / 10 % 10), DigitChar(r % 10)] + " DT"
  }

  // ------------------------------------------------------------------ dates

  datatype DateMatch = DateMatch(day: string, month: string, year: string)

  /** The three groups are runs of digits: one or two, one or two, and four. */
  predicate WellFormed(m: DateMatch) {
    && 1 <= |m.day| <= 2 && AllDigits(m.day)
    && 1 <= |m.month| <= 2 && AllDigits(m.month)
    && |m.year| == 4 && AllDigits(m.year)
  }


  predicate AllWellFormed(ms: seq<DateMatch>) {
    forall k :: 0 <= k < |ms| ==> WellFormed(ms[k])
  }

  /** An optional lead digit up to `lead`, then a digit, at `i`: the end of the number. */
  function ShortNumberEnd(s: string, i: nat, lead: char): (r: Option<nat>)
    requires i <= |s|
    ensures r.Some? ==> i + 1 <= r.value <= i + 2 && r.value <= |s|
    ensures r.Some? ==> forall k :: i <= k < r.value ==> IsDigit(s[k])
  {
    if i < |s| && IsDigit(s[i]) then
      if '0' <= s[i] <= lead && i + 1 < |s| && IsDigit(s[i + 1]) then Some(i + 2) else Some(i + 1)
    else None
  }

  predicate IsDateSeparator(c: char) {
    c == '/' || c == '-'
  }

  /** A day, a month and a four-digit year separated by slashes or dashes at `i`, and where the match ends. */
  function DateAt(s: string, i: nat): (r: Option<(DateMatch, nat)>)
    requires i <= |s|
    ensures r.Some? ==> i < r.value.1 <= |s|
    ensures r.Some? ==> WellFormed(r.value.0)
  {
    if !BoundaryBefore(s, i) then None
    else match ShortNumberEnd(s, i, '3')
      case None => None
      case Some(d) =>
        if !(d < |s| && IsDateSeparator(s[d])) then None
        else match ShortNumberEnd(s, d + 1, '1')
          case None => None
          case Some(m) =>
            if !(m + 5 <= |s| && IsDateSeparator(s[m]) && AllDigits(s[m + 1..m + 5]) && BoundaryAfter(s, m + 5)) then None
            else Some((DateMatch(s[i..d], s[d + 1..m], s[m + 1..m + 5]), m + 5))
  }

  /** The date pattern as a matcher on `s`, capturing its three groups. */
  function DateMatcher(s: string): (at: Matcher<DateMatch>)
    ensures Advances(at, |s|)
    ensures forall j: nat :: j <= |s| ==> at(j) == DateAt(s, j)
  {
    (j: nat) => if j <= |s| then DateAt(s, j) else None
  }

  /**
   * `re.finditer` of the date pattern from `i`: every element is a date match with its
   * groups, they come left to right without overlapping, and no date match starts in
   * the gaps before, between or after them.
   */
  function DateMatches(s: string, i: nat): (ms: seq<Match<DateMatch>>)
    requires i <= |s|
    ensures IsFindAll(DateMatcher(s), |s|, i, ms)
    ensures forall k :: 0 <= k < |ms| ==> DateAt(s, ms[k].start) == Some((ms[k].value, ms[k].end))
    ensures forall k :: 0 <= k < |ms| ==> WellFormed(ms[k].value)
  {
    FindAll(DateMatcher(s), |s|, i)
  }

  predicate IsLeapYear(y: nat) {
    y % 4 == 0 && (y % 100 != 0 || y % 400 == 0)
  }

  function DaysInMonth(m: nat, y: nat): nat
    requires 1 <= m <= 12
  {
    if m == 2 then (if IsLeapYear(y) then 29 else 28)
    else if m == 4 || m == 6 || m == 9 || m == 11 then 30
    else 31
  }

  /** A day, month and year that name a real date of the proleptic Gregorian calendar. */
  predicate IsRealDate(d: nat, m: nat, y: nat) {
    1 <= m <= 12 && 1 <= y && 1 <= d <= DaysInMonth(m, y)
  }

  /** Two digits, zero-padded (`%d`, `%m` on output). */
  function Pad2(n: nat): string
    requires n < 100
  {
    [DigitChar(n / 10), DigitChar(n % 10)]
  }

  /**
   * The date parsed as day/month/year and written back zero-padded: the normalised
   * date, or nothing when parsing raises. The day must read 1 to 31 and the month 1 to 12
   * (so `0` and `00` are refused), year 0 does not exist, and the day must exist in that
   * month of that year.
   */
  function NormaliseDate(dm: DateMatch): (r: Option<string>)
    requires WellFormed(dm)
    ensures r.Some? <==> IsRealDate(DigitsValue(dm.day), DigitsValue(dm.month), DigitsValue(dm.year))
    ensures r.Some? ==> IsCalendarDate(r.value)
    ensures r.Some? ==>
      && DigitsValue(r.value[..2]) == DigitsValue(dm.day)
      && DigitsValue(r.value[3..5]) == DigitsValue(dm.month)
      && r.value[6..] == dm.year
  {
    var d, m, y := DigitsValue(dm.day), DigitsValue(dm.month), DigitsValue(dm.year);
    if 1 <= d <= 31 && IsRealDate(d, m, y) then
      var r := Pad2(d) + "/" + Pad2(m) + "/" + dm.year;
      Pad2Value(d);
      Pad2Value(m);
      assert r[..2] == Pad2(d) && r[3..5] == Pad2(m) && r[6..] == dm.year;
      Some(r)
    else None
  }

  /** The shape `DD/MM/YYYY` of a real calendar date. */
  predicate IsCalendarDate(s: string) {
    && |s| == 10 && s[2] == '/' && s[5] == '/'
    && AllDigits(s[..2]) && AllDigits(s[3..5]) && AllDigits(s[6..])
    && IsRealDate(DigitsValue(s[..2]), DigitsValue(s[3..5]), DigitsValue(s[6..]))
  }

  /** Two padded digits read back as the number. */
  lemma Pad2Value(n: nat)
    requires n < 100
    ensures AllDigits(Pad2(n)) && DigitsValue(Pad2(n)) == n
  {
    var p := Pad2(n);
    assert p[..1][..0] == [];
    assert p[..1] == [DigitChar(n / 10)];
    assert DigitsValue(p[..1]) == n / 10;
    assert DigitsValue(p) == n / 10 * 10 + n % 10;
  }

  /** The dates found, normalised, keeping only real calendar dates, in text order. */
  function ValidDates(ms: seq<DateMatch>): (ds: seq<string>)
    requires AllWellFormed(ms)
    ensures |ds| <= |ms|
    ensures forall k :: 0 <= k < |ds| ==> IsCalendarDate(ds[k])
  {
    if ms == [] then []
    else
      var rest := ValidDates(ms[..|ms| - 1]);
      match NormaliseDate(ms[|ms| - 1])
      case Some(d) => rest + [d]
      case None => rest
  }

  // ------------------------------------------------------------------ total

  /** Between `a` and `c` there is only whitespace, colons and dashes. */
  predicate Gap(s: string, a: nat, c: nat)
    requires c <= |s|
  {
    forall k :: a <= k < c ==> IsSpace(s[k]) || s[k] == ':' || s[k] == '-'
  }

  /**
   * A total keyword, an optional colon or dash, and an amount with its currency at `i`: the
   * amount. Nothing but whitespace, colons and dashes lies between the keyword and the
   * amount, whose whole dinars are the digits that start it.
   */
  function TotalAt(s: string, i: nat): (r: Option<nat>)
    requires i <= |s|
    ensures r.Some? ==> OccursAt(s, "Total", i) || OccursAt(s, "TOTAL", i) || OccursAt(s, "total", i)
    ensures r.Some? ==> exists c ::
      && i + 5 <= c < |s| && IsDigit(s[c]) && Gap(s, i + 5, c)
      && r.value / 1000 == DigitsValue(s[c..DigitRunEnd(s, c)])
  {
    if !(OccursAt(s, "Total", i) || OccursAt(s, "TOTAL", i) || OccursAt(s, "total", i)) then None
    else
      var a := SpaceRunEnd(s, i + 5);
      var b := if a < |s| && (s[a] == ':' || s[a] == '-') then a + 1 else a;
      var c := SpaceRunEnd(s, b);
      if c < |s| && IsDigit(s[c]) then
        match AmountTail(s, DigitRunEnd(s, c))
        case Some((f, _)) =>
          TotalFound(s, i, a, b, c, f);
          Some(Amount(s[c..f]))
        case None => None
      else None
  }

  /** `DigitRunEnd` computed on a slice that keeps the run and the character after it. */
  lemma {:induction false} DigitRunEndSlice(s: string, i: nat, k: nat, e: nat)
    requires i <= k <= |s| && DigitRunEnd(s, k) < e <= |s|
    ensures DigitRunEnd(s[i..e], k - i) == DigitRunEnd(s, k) - i
    decreases |s| - k
  {
    if IsDigit(s[k]) {
      DigitRunEndSlice(s, i, k + 1, e);
    }
  }

  /** The amount after a total keyword at `i`, between the separator runs `a`, `b` and `c`. */
  lemma TotalFound(s: string, i: nat, a: nat, b: nat, c: nat, f: nat)
    requires i + 5 <= a <= b <= c < |s| && IsDigit(s[c])
    requires forall k :: i + 5 <= k < a ==> IsSpace(s[k])
    requires b == a || (b == a + 1 && (s[a] == ':' || s[a] == '-'))
    requires forall k :: b <= k < c ==> IsSpace(s[k])
    requires AmountTail(s, DigitRunEnd(s, c)).Some? && AmountTail(s, DigitRunEnd(s, c)).value.0 == f
    ensures c < f <= |s|
    ensures exists c' ::
      && i + 5 <= c' < |s| && IsDigit(s[c']) && Gap(s, i + 5, c')
      && Amount(s[c..f]) / 1000 == DigitsValue(s[c'..DigitRunEnd(s, c')])
  {
    TotalDinars(s, c, f);
    forall k | i + 5 <= k < c
      ensures IsSpace(s[k]) || s[k] == ':' || s[k] == '-'
    {
      if k >= b {
      } else if k >= a {
        assert k == a;
      }
    }
    assert Gap(s, i + 5, c);
  }


  /** The whole dinars of an amount found after a total keyword are its leading digits. */
  lemma TotalDinars(s: string, c: nat, f: nat)
    requires c <= |s| && AmountTail(s, DigitRunEnd(s, c)).Some? && AmountTail(s, DigitRunEnd(s, c)).value.0 == f
    ensures c <= DigitRunEnd(s, c) < f <= |s| && Amount(s[c..f]) / 1000 == DigitsValue(s[c..DigitRunEnd(s, c)])
  {
    var j := DigitRunEnd(s, c);
    var p := s[c..f];
    DigitRunEndSlice(s, c, c, f);
    assert DigitRunEnd(p, 0) == j - c;
    assert p[j - c] == '.' && IsDigit(p[j - c + 1]) && IsDigit(p[j - c + 2]);
    assert p[..j - c] == s[c..j];
  }

  /** `re.search` of the total pattern from `i`: the leftmost match. */
  function FirstTotal(s: string, i: nat): (r: Option<nat>)
    requires i <= |s|
    decreases |s| - i
    ensures r.Some? ==> exists k: nat :: i <= k < |s| && TotalAt(s, k) == r && forall j :: i <= j < k ==> TotalAt(s, j).None?
    ensures r.None? ==> forall k :: i <= k < |s| ==> TotalAt(s, k).None?
  {
    if i == |s| then None
    else if TotalAt(s, i).Some? then TotalAt(s, i)
    else FirstTotal(s, i + 1)
  }

  // ------------------------------------------------------------ line items

  datatype Article = Article(name: string, price: string)

  /** Words whose presence in a line's label marks it as not being an article. */
  const ForbiddenWords: seq<string> :=
    ["espece", "rendu", "recu", "total", "remise", "timbre", "fiscal", "taxe", "stamp", "pece"]

  /** Some word of `words` occurs in `s`. */
  predicate MentionsAny(s: string, words: seq<string>) {
    exists k :: 0 <= k < |words| && Contains(s, words[k])
  }

  /**
   * The article on one line: the first price match, labelled with the stripped text before
   * it, unless that label (lower-cased) mentions a forbidden word.
   */
  function ArticleOf(line: string): (r: Option<Article>)
    ensures r.Some? <==> FirstPrice(line).Some? && !MentionsAny(Lower(Strip(line[..FirstPrice(line).value.0])), ForbiddenWords)
    ensures r.Some? ==> var (st, en) := FirstPrice(line).value;
      r.value == Article(Strip(line[..st]), line[st..en])
  {
    match FirstPrice(line)
    case None => None
    case Some((st, en)) =>
      var name := Strip(line[..st]);
      if MentionsAny(Lower(name), ForbiddenWords) then None else Some(Article(name, line[st..en]))
  }

  /** The articles of the lines, in line order. */
  function ArticlesOf(lines: seq<string>): (arts: seq<Article>)
    ensures |arts| <= |lines|
  {
    if lines == [] then []
    else
      var rest := ArticlesOf(lines[..|lines| - 1]);
      match ArticleOf(lines[|lines| - 1])
      case Some(a) => rest + [a]
      case None => rest
  }

  /** The sum of the article prices, in millimes. */
  function SumAmounts(arts: seq<Article>): nat {
    if arts == [] then 0 else SumAmounts(arts[..|arts| - 1]) + Amount(arts[|arts| - 1].price)
  }

  // ------------------------------------------------------------ tax stamps

  /** The prices that are the tax-stamp denominations, exactly as written. */
  const Denominations: seq<string> := ["0.100 DT", "0.200 DT", "0.300 DT", "0.400 DT", "0.500 DT"]

  /** The prices, in order, that are one of the denominations. */
  function Stamps(prices: seq<string>): (r: seq<string>)
    ensures forall k :: 0 <= k < |r| ==> r[k] in Denominations && r[k] in prices
  {
    if prices == [] then []
    else
      var rest := Stamps(prices[..|prices| - 1]);
      var p := prices[|prices| - 1];
      if p in Denominations then rest + [p] else rest
  }

  // ------------------------------------------------------------- the whole

  /** The result dictionary; `NoText` is the empty dictionary returned for empty text. */
  datatype Extraction =
    | NoText
    | Found(dates: seq<string>, stamps: seq<string>, total: Option<nat>,
            articles: seq<Article>, sum: nat, coherent: bool)

  /** The items agree with the total to within a hundredth of a dinar. */
  predicate Coherent(sum: nat, total: Option<nat>) {
    total.Some? && -10 < sum - total.value < 10
  }

  /**
   * The `dates` entry: the valid dates among the date matches of the text, normalised, in
   * text order. Each is a real calendar date and the normalisation of a date match found
   * somewhere in the text.
   */
  function DatesOf(text: string): (ds: seq<string>)
    ensures forall k :: 0 <= k < |ds| ==> IsCalendarDate(ds[k])
    ensures forall k :: 0 <= k < |ds| ==> DateInText(text, ds[k])
  {
    var ms := DateMatches(text, 0);
    var ds := ValidDates(Values(ms));
    ValidDatesSound(Values(ms));
    DatesFromMatches(text, ms, Values(ms), ds);
    ds
  }

  /** `d` is the normalisation of a date match at some position of `text`. */
  predicate DateInText(text: string, d: string) {
    exists j: nat :: j < |text| && DateAt(text, j).Some? && NormaliseDate(DateAt(text, j).value.0) == Some(d)
  }

  /** Dates normalised from the values of matches in `text` are normalised from a match at some position. */
  lemma DatesFromMatches(text: string, ms: seq<Match<DateMatch>>, vs: seq<DateMatch>, ds: seq<string>)
    requires forall k :: 0 <= k < |ms| ==> ms[k].start < |text| && DateAt(text, ms[k].start) == Some((ms[k].value, ms[k].end))
    requires |vs| == |ms| && forall k :: 0 <= k < |ms| ==> vs[k] == ms[k].value
    requires AllWellFormed(vs)
    requires forall k :: 0 <= k < |ds| ==> exists m :: 0 <= m < |vs| && NormaliseDate(vs[m]) == Some(ds[k])
    ensures forall k :: 0 <= k < |ds| ==> DateInText(text, ds[k])
  {
    forall k | 0 <= k < |ds|
      ensures DateInText(text, ds[k])
    {
      var m :| 0 <= m < |vs| && NormaliseDate(vs[m]) == Some(ds[k]);
      DateFromMatch(text, ms[m], vs[m], ds[k]);
    }
  }

  /** A date normalised from the value of a match in `text` is normalised from the match at its start. */
  lemma DateFromMatch(text: string, mt: Match<DateMatch>, v: DateMatch, d: string)
    requires mt.start < |text| && DateAt(text, mt.start) == Some((mt.value, mt.end))
    requires v == mt.value && WellFormed(v) && NormaliseDate(v) == Some(d)
    ensures DateInText(text, d)
  {
    var j := mt.start;
    assert j < |text| && DateAt(text, j).Some? && NormaliseDate(DateAt(text, j).value.0) == Some(d);
  }

  /** Every date kept is the normalisation of one of the matches. */
  lemma {:induction false} ValidDatesSound(ms: seq<DateMatch>)
    requires AllWellFormed(ms)
    ensures forall k :: 0 <= k < |ValidDates(ms)| ==> exists m :: 0 <= m < |ms| && NormaliseDate(ms[m]) == Some(ValidDates(ms)[k])
    decreases |ms|
  {
    if ms != [] {
      var init := ms[..|ms| - 1];
      var last := NormaliseDate(ms[|ms| - 1]);
      assert AllWellFormed(init);
      ValidDatesSound(init);
      var rest := ValidDates(init);
      assert ValidDates(ms) == rest + (if last.Some? then [last.value] else []);
      forall k | 0 <= k < |ValidDates(ms)|
        ensures exists m :: 0 <= m < |ms| && NormaliseDate(ms[m]) == Some(ValidDates(ms)[k])
      {
        if k < |rest| {
          assert ValidDates(ms)[k] == rest[k];
          var m :| 0 <= m < |init| && NormaliseDate(init[m]) == Some(rest[k]);
          assert ms[m] == init[m];
        } else {
          assert NormaliseDate(ms[|ms| - 1]) == Some(ValidDates(ms)[k]);
        }
      }
    } else {
      assert ValidDates(ms) == [];
    }
  }

  /** Every match that normalises is kept. */
  lemma {:induction false} ValidDatesComplete(ms: seq<DateMatch>, m: nat)
    requires AllWellFormed(ms)
    requires m < |ms| && NormaliseDate(ms[m]).Some?
    ensures NormaliseDate(ms[m]).value in ValidDates(ms)
    decreases |ms|
  {
    if m < |ms| - 1 {
      var init := ms[..|ms| - 1];
      assert init[m] == ms[m];
      ValidDatesComplete(init, m);
    }
  }

  /** `extraire_elements_avec_regex` as a function of the text. */
  function Extract(text: string): (r: Extraction)
    ensures r.NoText? <==> text == []
    ensures r.Found? ==> forall k :: 0 <= k < |r.dates| ==> IsCalendarDate(r.dates[k])
    ensures r.Found? ==> forall k :: 0 <= k < |r.dates| ==> DateInText(text, r.dates[k])
  {
    if text == [] then NoText
    else
      var arts := ArticlesOf(Split(text, '\n'));
      var total := FirstTotal(text, 0);
      var sum := SumAmounts(arts);
      Found(DatesOf(text), Stamps(Prices(text)), total, arts, sum, Coherent(sum, total))
  }

  /** The `total` entry of the result: the amount with three decimals, or `""` when none was found. */
  function TotalText(r: Extraction): string {
    if r.Found? && r.total.Some? then FormatAmount(r.total.value) else ""
  }

  /**
   * `extraire_elements_avec_regex` as the source runs it: the valid dates and the articles
   * are gathered by appending in loops.
   */
  method ExtractElements(text: string) returns (r: Extraction)
    ensures r == Extract(text)
  {
    if text == [] {
      return NoText;
    }
    var dates := CollectDates(Values(DateMatches(text, 0)));
    var stamps := Stamps(Prices(text));
    var total := FirstTotal(text, 0);
    var articles := CollectArticles(Split(text, '\n'));
    var sum := SumAmounts(articles);
    r := Found(dates, stamps, total, articles, sum, Coherent(sum, total));
  }

  /** The loop over the date matches, appending each one that normalises. */
  method CollectDates(matches: seq<DateMatch>) returns (dates: seq<string>)
    requires AllWellFormed(matches)
    ensures dates == ValidDates(matches)
  {
    dates := [];
    var k := 0;
    while k < |matches|
      invariant k <= |matches|
      invariant dates == ValidDates(matches[..k])
    {
      assert matches[..k + 1][..k] == matches[..k];
      var normalised := NormaliseDate(matches[k]);
      if normalised.Some? {
        dates := dates + [normalised.value];
      }
      k := k + 1;
    }
    assert matches[..k] == matches;
  }

  /** The loop over the lines, appending the article each line holds. */
  method CollectArticles(lines: seq<string>) returns (articles: seq<Article>)
    ensures articles == ArticlesOf(lines)
  {
    articles := [];
    var i := 0;
    while i < |lines|
      invariant i <= |lines|
      invariant articles == ArticlesOf(lines[..i])
    {
      assert lines[..i + 1][..i] == lines[..i];
      var line := lines[i];
      var found := FirstPrice(line);
      if found.Some? {
        var name := Strip(line[..found.value.0]);
        if !MentionsAny(Lower(name), ForbiddenWords) {
          articles := articles + [Article(name, line[found.value.0..found.value.1])];
        }
      }
      i := i + 1;
    }
    assert lines[..i] == lines;
  }
}

module PatternFacts {
  import opened Wrappers
  import opened Text
  import opened Scan
  import opened PatternExtractor

  /** Lines contribute their articles independently, and in order. */
  lemma {:induction false} ArticlesAppend(a: seq<string>, b: seq<string>)
    ensures ArticlesOf(a + b) == ArticlesOf(a) + ArticlesOf(b)
    decreases |b|
  {
    if b != [] {
      var last := b[|b| - 1];
      assert (a + b)[..|a + b| - 1] == a + b[..|b| - 1];
      ArticlesAppend(a, b[..|b| - 1]);
    } else {
      assert a + b == a;
    }
  }

  lemma {:induction false} SumAppend(x: seq<Article>, y: seq<Article>)
    ensures SumAmounts(x + y) == SumAmounts(x) + SumAmounts(y)
    decreases |y|
  {
    if y != [] {
      assert (x + y)[..|x + y| - 1] == x + y[..|y| - 1];
      SumAppend(x, y[..|y| - 1]);
    } else {
      assert x + y == x;
    }
  }

  /**
   * The articles of two texts joined by a line break are the articles of the first text
   * followed by those of the second, and their sums add up.
   */
  lemma ArticlesOfJoinedTexts(t: string, t1: string, t2: string)
    requires t == t1 + "\n" + t2
    ensures ArticlesOf(Split(t, '\n')) == ArticlesOf(Split(t1, '\n')) + ArticlesOf(Split(t2, '\n'))
    ensures SumAmounts(ArticlesOf(Split(t, '\n')))
         == SumAmounts(ArticlesOf(Split(t1, '\n'))) + SumAmounts(ArticlesOf(Split(t2, '\n')))
  {
    SplitAppend(t1, t2, '\n');
    ArticlesAppend(Split(t1, '\n'), Split(t2, '\n'));
    SumAppend(ArticlesOf(Split(t1, '\n')), ArticlesOf(Split(t2, '\n')));
  }

  /** Matches contribute their dates independently, and in order. */
  lemma {:induction false} ValidDatesAppend(a: seq<DateMatch>, b: seq<DateMatch>)
    requires AllWellFormed(a) && AllWellFormed(b)
    ensures AllWellFormed(a + b)
    ensures ValidDates(a + b) == ValidDates(a) + ValidDates(b)
    decreases |b|
  {
    WellFormedAppend(a, b);
    if b == [] {
      assert a + b == a;
    } else {
      var b' := b[..|b| - 1];
      var last := b[|b| - 1];
      assert AllWellFormed(b');
      assert (a + b)[..|a + b| - 1] == a + b';
      assert (a + b)[|a + b| - 1] == last;
      ValidDatesAppend(a, b');
      var tail := if NormaliseDate(last).Some? then [NormaliseDate(last).value] else [];
      assert ValidDates(a + b) == ValidDates(a + b') + tail;
      assert ValidDates(b) == ValidDates(b') + tail;
    }
  }

  lemma WellFormedAppend(a: seq<DateMatch>, b: seq<DateMatch>)
    requires AllWellFormed(a) && AllWellFormed(b)
    ensures AllWellFormed(a + b)
  {
    assert forall k :: 0 <= k < |a + b| ==> (a + b)[k] == if k < |a| then a[k] else b[k - |a|];
  }

  /** One match gives its normalised date, or nothing when it is not a real date. */
  lemma ValidDatesOne(m: DateMatch)
    requires WellFormed(m)
    ensures ValidDates([m]) == if NormaliseDate(m).Some? then [NormaliseDate(m).value] else []
  {
    assert [m][..0] == [];
  }

  /** Prices contribute their stamps independently, and in order. */
  lemma {:induction false} StampsAppend(a: seq<string>, b: seq<string>)
    ensures Stamps(a + b) == Stamps(a) + Stamps(b)
    decreases |b|
  {
    if b != [] {
      assert (a + b)[..|a + b| - 1] == a + b[..|b| - 1];
      StampsAppend(a, b[..|b| - 1]);
    } else {
      assert a + b == a;
    }
  }

  /** One price is a stamp exactly when it is one of the denominations, written as such. */
  lemma StampsOne(p: string)
    ensures Stamps([p]) == if p in Denominations then [p] else []
  {
    assert [p][..0] == [];
  }

  /** Every detected price that is a denomination is a detected stamp. */
  lemma {:induction false} StampsComplete(prices: seq<string>, p: string)
    requires p in prices && p in Denominations
    ensures p in Stamps(prices)
    decreases |prices|
  {
    if prices[|prices| - 1] != p {
      var k :| 0 <= k < |prices| && prices[k] == p;
      assert prices[..|prices| - 1][k] == p;
      StampsComplete(prices[..|prices| - 1], p);
    }
  }

  /** A run of digits followed by a non-digit ends where `DigitRunEnd` says. */
  lemma {:induction false} DigitRunEndIs(s: string, i: nat, j: nat)
    requires i <= j <= |s|
    requires forall k :: i <= k < j ==> IsDigit(s[k])
    requires j == |s| || !IsDigit(s[j])
    ensures DigitRunEnd(s, i) == j
    decreases j - i
  {
    if i < j {
      DigitRunEndIs(s, i + 1, j);
    }
  }

  /**
   * A formatted amount is itself matched by the price pattern, and reading it back gives the
   * amount: the `total` and `somme_articles` entries lose nothing.
   */
  lemma AmountRoundTrip(m: nat)
    ensures PriceAt(FormatAmount(m), 0) == Some(|FormatAmount(m)|)
    ensures Amount(FormatAmount(m)) == m
  {
    var w := NatToString(m / 1000);
    var r := m % 1000;
    var a, b, c := DigitChar(r / 100), DigitChar(r / 10 % 10), DigitChar(r % 10);
    assert FormatAmount(m) == w + ['.', a, b, c, ' ', 'D', 'T'];
    FormattedIsPrice(w, a, b, c);
    FormattedValue(w, a, b, c);
    ThreeDigits(a, b, c);
    ThousandsSplit(m);
  }

  /**
   * A total keyword, a colon, a space and a formatted amount make a total match at the
   * start, and reading it back gives the amount: the total pattern finds what is written.
   */
  lemma TotalRoundTrip(kw: string, m: nat)
    requires kw == "Total" || kw == "TOTAL" || kw == "total"
    ensures TotalAt(kw + ": " + FormatAmount(m), 0) == Some(m)
    ensures FirstTotal(kw + ": " + FormatAmount(m), 0) == Some(m)
  {
    var w := NatToString(m / 1000);
    var r := m % 1000;
    var a, b, c := DigitChar(r / 100), DigitChar(r / 10 % 10), DigitChar(r % 10);
    assert FormatAmount(m) == w + ['.', a, b, c, ' ', 'D', 'T'];
    TotalOfText(kw, w, a, b, c);
    AmountRoundTrip(m);
  }

  /** The total pattern on a keyword, `": "` and an amount with three decimals reads the amount. */
  lemma TotalOfText(kw: string, w: string, a: char, b: char, c: char)
    requires kw == "Total" || kw == "TOTAL" || kw == "total"
    requires |w| >= 1 && AllDigits(w) && IsDigit(a) && IsDigit(b) && IsDigit(c)
    ensures var p := w + ['.', a, b, c, ' ', 'D', 'T'];
      TotalAt(kw + ": " + p, 0) == Some(Amount(p)) && FirstTotal(kw + ": " + p, 0) == Some(Amount(p))
  {
    var s := kw + ": " + (w + ['.', a, b, c, ' ', 'D', 'T']);
    TotalAtText(kw, w, a, b, c);
    assert FirstTotal(s, 0) == TotalAt(s, 0);
  }

  lemma TotalAtText(kw: string, w: string, a: char, b: char, c: char)
    requires kw == "Total" || kw == "TOTAL" || kw == "total"
    requires |w| >= 1 && AllDigits(w) && IsDigit(a) && IsDigit(b) && IsDigit(c)
    ensures var p := w + ['.', a, b, c, ' ', 'D', 'T']; TotalAt(kw + ": " + p, 0) == Some(Amount(p))
  {
    TotalReadsFraction(kw, w, a, b, c);
    assert Amount(w + ['.', a, b, c]) == Amount(w + ['.', a, b, c, ' ', 'D', 'T']) by {
      AmountOfDecimals(w, a, b, c);
      FormattedValue(w, a, b, c);
    }
  }

  /** The total pattern reads the amount up to the end of its fraction. */
  lemma TotalReadsFraction(kw: string, w: string, a: char, b: char, c: char)
    requires kw == "Total" || kw == "TOTAL" || kw == "total"
    requires |w| >= 1 && AllDigits(w) && IsDigit(a) && IsDigit(b) && IsDigit(c)
    ensures TotalAt(kw + ": " + (w + ['.', a, b, c, ' ', 'D', 'T']), 0) == Some(Amount(w + ['.', a, b, c]))
  {
    var s := kw + ": " + (w + ['.', a, b, c, ' ', 'D', 'T']);
    var j := 7 + |w|;
    TotalPieces(kw, w, a, b, c);
    assert OccursAt(s, "Total", 0) || OccursAt(s, "TOTAL", 0) || OccursAt(s, "total", 0);
    assert TotalAt(s, 0) == Some(Amount(s[7..j + 4]));
  }

  /** Where the pieces of a written total sit, as the scanner sees them. */
  lemma TotalPieces(kw: string, w: string, a: char, b: char, c: char)
    requires kw == "Total" || kw == "TOTAL" || kw == "total"
    requires |w| >= 1 && AllDigits(w) && IsDigit(a) && IsDigit(b) && IsDigit(c)
    ensures var s, j := kw + ": " + (w + ['.', a, b, c, ' ', 'D', 'T']), 7 + |w|;
      && |s| == j + 7 && OccursAt(s, kw, 0) && SpaceRunEnd(s, 5) == 5 && s[5] == ':'
      && SpaceRunEnd(s, 6) == 7 && IsDigit(s[7]) && DigitRunEnd(s, 7) == j
      && AmountTail(s, j) == Some((j + 4, j + 7)) && s[7..j + 4] == w + ['.', a, b, c]
  {
    var s := kw + ": " + (w + ['.', a, b, c, ' ', 'D', 'T']);
    var j := 7 + |w|;
    TotalLayout(kw, w, a, b, c);
    DigitRunEndIs(s, 7, j);
    assert s[j + 5..j + 7] == "DT";
  }

  /** The characters of a written total, position by position. */
  lemma TotalLayout(kw: string, w: string, a: char, b: char, c: char)
    requires |kw| == 5 && |w| >= 1 && AllDigits(w) && IsDigit(a) && IsDigit(b) && IsDigit(c)
    ensures var s, j := kw + ": " + (w + ['.', a, b, c, ' ', 'D', 'T']), 7 + |w|;
      && |s| == j + 7 && s[..5] == kw && s[5] == ':' && s[6] == ' '
      && (forall k :: 7 <= k < j ==> IsDigit(s[k]))
      && s[j] == '.' && s[j + 1] == a && s[j + 2] == b && s[j + 3] == c && s[j + 4] == ' '
      && s[j + 5] == 'D' && s[j + 6] == 'T' && s[7..j + 4] == w + ['.', a, b, c]
  {
    var s := kw + ": " + (w + ['.', a, b, c, ' ', 'D', 'T']);
    var j := 7 + |w|;
    assert s[..5] == kw && s[5] == ':' && s[6] == ' ';
    assert forall k :: 0 <= k < |w| ==> s[7 + k] == w[k];
    assert s[j..] == ['.', a, b, c, ' ', 'D', 'T'];
    assert s[7..j + 4] == w + ['.', a, b, c];
  }

  /** Digits, a dot and three digits read back as the integer part in thousands plus the fraction. */
  lemma AmountOfDecimals(w: string, a: char, b: char, c: char)
    requires |w| >= 1 && AllDigits(w) && IsDigit(a) && IsDigit(b) && IsDigit(c)
    ensures AllDigits([a, b, c])
    ensures Amount(w + ['.', a, b, c]) == DigitsValue(w) * 1000 + DigitsValue([a, b, c])
  {
    var q := w + ['.', a, b, c];
    var j := |w|;
    assert forall k :: 0 <= k < j ==> q[k] == w[k];
    DigitRunEndIs(q, 0, j);
    assert q[..j] == w && q[j + 1..j + 4] == [a, b, c];
    ThreeDigits(a, b, c);
    ThreeDecimals(q, j);
  }

  /** An amount is its thousands, then its hundreds, tens and units of millimes. */
  lemma ThousandsSplit(m: nat)
    ensures m == m / 1000 * 1000 + m % 1000 / 100 * 100 + m % 1000 / 10 % 10 * 10 + m % 1000 % 10
  {
    var r := m % 1000;
    assert m == m / 1000 * 1000 + r;
    assert r == r / 100 * 100 + r / 10 % 10 * 10 + r % 10;
  }

  /** Digits, a dot, three digits and " DT" make a whole price match. */
  lemma FormattedIsPrice(w: string, a: char, b: char, c: char)
    requires |w| >= 1 && AllDigits(w) && IsDigit(a) && IsDigit(b) && IsDigit(c)
    ensures var p := w + ['.', a, b, c, ' ', 'D', 'T']; PriceAt(p, 0) == Some(|p|)
  {
    var p := w + ['.', a, b, c, ' ', 'D', 'T'];
    var j := |w|;
    FormattedPieces(w, a, b, c);
    assert p[j + 5..j + 7] == "DT";
    assert AmountTail(p, j) == Some((j + 4, j + 7));
  }

  /** Reading back digits, a dot and three digits gives the integer part in thousands plus the fraction. */
  lemma FormattedValue(w: string, a: char, b: char, c: char)
    requires |w| >= 1 && AllDigits(w) && IsDigit(a) && IsDigit(b) && IsDigit(c)
    ensures AllDigits([a, b, c])
    ensures Amount(w + ['.', a, b, c, ' ', 'D', 'T']) == DigitsValue(w) * 1000 + DigitsValue([a, b, c])
  {
    var p := w + ['.', a, b, c, ' ', 'D', 'T'];
    FormattedPieces(w, a, b, c);
    ThreeDigits(a, b, c);
    ThreeDecimals(p, |w|);
  }

  /** Where the pieces of a formatted amount sit. */
  lemma FormattedPieces(w: string, a: char, b: char, c: char)
    requires |w| >= 1 && AllDigits(w) && IsDigit(a) && IsDigit(b) && IsDigit(c)
    ensures var p, j := w + ['.', a, b, c, ' ', 'D', 'T'], |w|;
      && |p| == j + 7 && DigitRunEnd(p, 0) == j && p[..j] == w && p[j + 1..j + 4] == [a, b, c]
      && p[j] == '.' && p[j + 1] == a && p[j + 2] == b && p[j + 3] == c
      && p[j + 4] == ' ' && p[j + 5] == 'D' && p[j + 6] == 'T'
  {
    var p := w + ['.', a, b, c, ' ', 'D', 'T'];
    var j := |w|;
    assert forall k :: 0 <= k < j ==> p[k] == w[k];
    DigitRunEndIs(p, 0, j);
  }

  /** `Amount` of a text whose integer part ends at `j` and is followed by three decimals. */
  lemma ThreeDecimals(p: string, j: nat)
    requires j + 3 < |p| && DigitRunEnd(p, 0) == j && p[j] == '.'
    requires IsDigit(p[j + 1]) && IsDigit(p[j + 2]) && IsDigit(p[j + 3])
    requires AllDigits(p[..j]) && AllDigits(p[j + 1..j + 4])
    ensures Amount(p) == DigitsValue(p[..j]) * 1000 + DigitsValue(p[j + 1..j + 4])
  {
  }

  /**
   * The `total` entry is empty exactly when no position of the text matches the
   * total pattern; otherwise it reads back as the amount of the leftmost match.
   */
  lemma TotalEntry(text: string)
    ensures var r := Extract(text);
      && (TotalText(r) == "" <==> forall k :: 0 <= k < |text| ==> TotalAt(text, k).None?)
      && (TotalText(r) != "" ==> r.total == FirstTotal(text, 0) && Amount(TotalText(r)) == r.total.value)
  {
    var r := Extract(text);
    if r.Found? && r.total.Some? {
      AmountRoundTrip(r.total.value);
    }
  }

  /**
   * `total_coherent` read off the written entries: a total was written, and the
   * written item sum is within ten millimes of it.
   */
  lemma CoherenceOfEntries(text: string)
    requires text != []
    ensures var r := Extract(text);
      r.coherent <==> TotalText(r) != "" && -10 < Amount(FormatAmount(r.sum)) - Amount(TotalText(r)) < 10
  {
    var r := Extract(text);
    AmountRoundTrip(r.sum);
    if r.total.Some? {
      AmountRoundTrip(r.total.value);
    }
  }

  /**
   * The text of a price match is, on its own, a complete price match: an article's price
   * and a stamp are well-formed prices.
   */
  lemma PriceMatchAlone(s: string, i: nat, e: nat)
    requires i <= |s| && PriceAt(s, i) == Some(e)
    ensures PriceAt(s[i..e], 0) == Some(e - i)
  {
    var j := DigitRunEnd(s, i);
    DigitRunEndSlice(s, i, i, e);
    AmountTailSlice(s, i, j, e);
  }

  /** The fraction and currency after the integer part read the same on the matched text alone. */
  lemma AmountTailSlice(s: string, i: nat, j: nat, e: nat)
    requires i <= j <= |s| && AmountTail(s, j).Some? && AmountTail(s, j).value.1 == e
    ensures AmountTail(s[i..e], j - i) == Some((AmountTail(s, j).value.0 - i, e - i))
  {
    var t := s[i..e];
    var (f, _) := AmountTail(s, j).value;
    assert forall k :: i <= k < e ==> t[k - i] == s[k];
    assert s[e - 2..e] == "DT";
    assert t[e - i - 2..e - i] == s[e - 2..e];
  }

  /** The price of every article is a well-formed price. */
  lemma ArticlePriceIsPrice(line: string)
    requires ArticleOf(line).Some?
    ensures var p := ArticleOf(line).value.price; PriceAt(p, 0) == Some(|p|)
  {
    var (st, en) := FirstPrice(line).value;
    assert ArticleOf(line).value.price == line[st..en];
    PriceMatchAlone(line, st, en);
  }

  /**
   * Normalising is idempotent: a normalised date, scanned as a text of its own, is found
   * once and normalises to itself.
   */
  lemma NormalisedDateIsFixed(x: string)
    requires IsCalendarDate(x)
    ensures DateMatches(x, 0) == [Match(0, 10, DateMatch(x[..2], x[3..5], x[6..]))]
    ensures NormaliseDate(DateMatch(x[..2], x[3..5], x[6..])) == Some(x)
  {
    var dm := DateMatch(x[..2], x[3..5], x[6..]);
    var d, m := DigitsValue(x[..2]), DigitsValue(x[3..5]);
    TwoDigits(x[..2]);
    TwoDigits(x[3..5]);
    assert ShortNumberEnd(x, 0, '3') == Some(2);
    assert ShortNumberEnd(x, 3, '1') == Some(5);
    assert x[6..10] == x[6..];
    assert DateAt(x, 0) == Some((dm, 10));
    Pad2Of(x[..2]);
    Pad2Of(x[3..5]);
    assert Pad2(d) + "/" + Pad2(m) + "/" + x[6..] == x;
  }

  /** Padding the value of two digits gives them back. */
  lemma Pad2Of(p: string)
    requires |p| == 2 && AllDigits(p)
    ensures DigitsValue(p) < 100 && Pad2(DigitsValue(p)) == p
  {
    TwoDigits(p);
    var d0, d1 := DigitValue(p[0]), DigitValue(p[1]);
    TensAndUnits(d0, d1);
    assert DigitChar(d0) == p[0] && DigitChar(d1) == p[1];
  }

  /** A two-digit number splits back into its tens and its units. */
  lemma TensAndUnits(d0: nat, d1: nat)
    requires d0 < 10 && d1 < 10
    ensures d0 * 10 + d1 < 100 && (d0 * 10 + d1) / 10 == d0 && (d0 * 10 + d1) % 10 == d1
  {
  }
}
