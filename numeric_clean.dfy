/**
 * `clean_numeric_value` of the ticket-analysis save handler: it turns a form
 * field such as " 12,500 DT" into the first signed decimal number it contains
 * ("12.500"), or "0" when the field is missing, empty, "None" or holds no number.
 */
module NumericClean {
  import opened Wrappers
  import opened Text
  import opened PatternExtractor
  import opened PatternFacts

  /** `str.replace` of one character by another. */
  function ReplaceChar(s: string, a: char, b: char): (r: string)
    ensures |r| == |s|
    ensures forall i :: 0 <= i < |s| ==> r[i] == (if s[i] == a then b else s[i])
  {
    seq(|s|, i requires 0 <= i < |s| => if s[i] == a then b else s[i])
  }

  /**
   * The end of a match of `\d*\.?\d+` starting at `p`, if there is one: the
   * digits, then a dot and more digits when a digit follows the dot; otherwise
   * the digits alone, of which there must be at least one.
   */
  function UnsignedEnd(s: string, p: nat): (r: Option<nat>)
    requires p <= |s|
    ensures r.Some? ==> p < r.value <= |s|
  {
    var q := DigitRunEnd(s, p);
    if q + 1 < |s| && s[q] == '.' && IsDigit(s[q + 1]) then Some(DigitRunEnd(s, q + 1))
    else if q > p then Some(q)
    else None
  }

  /** The end of a match of `[-]?\d*\.?\d+` starting at `i`, if there is one. */
  function NumberAt(s: string, i: nat): (r: Option<nat>)
    requires i <= |s|
    ensures r.Some? ==> i < r.value <= |s|
  {
    if i < |s| && s[i] == '-' then UnsignedEnd(s, i + 1) else UnsignedEnd(s, i)
  }

  /** The leftmost match at or after `i` (`re.search`), as a span. */
  function SearchNumber(s: string, i: nat): (r: Option<(nat, nat)>)
    requires i <= |s|
    decreases |s| - i
    ensures r.Some? ==> i <= r.value.0 < r.value.1 <= |s| && NumberAt(s, r.value.0) == Some(r.value.1)
    ensures r.Some? ==> forall j :: i <= j < r.value.0 ==> NumberAt(s, j).None?
    ensures r.None? ==> forall j :: i <= j <= |s| ==> NumberAt(s, j).None?
  {
    match NumberAt(s, i)
    case Some(e) => Some((i, e))
    case None => if i == |s| then None else SearchNumber(s, i + 1)
  }

  /** The length of the optional minus sign at the front of `r`. */
  function SignLength(r: string): nat {
    if r != [] && r[0] == '-' then 1 else 0
  }

  /**
   * The digits from the sign up to `d`, then either nothing more or a dot
   * followed by digits to the end, with at least one digit in all.
   */
  predicate NumeralSplit(r: string, d: nat) {
    SignLength(r) <= d <= |r| &&
    (forall k :: SignLength(r) <= k < d ==> IsDigit(r[k])) &&
    (d == |r| || (r[d] == '.' && d + 1 < |r| && forall k :: d + 1 <= k < |r| ==> IsDigit(r[k]))) &&
    (SignLength(r) < d || d < |r|)
  }

  /** A decimal numeral: an optional minus, digits, and an optional dot followed by digits. */
  predicate IsNumeral(r: string) {
    exists d: nat :: d <= |r| && NumeralSplit(r, d)
  }

  /** The field with surrounding whitespace removed and commas turned into dots. */
  function Prepared(v: string): string {
    ReplaceChar(Strip(v), ',', '.')
  }

  /** The form has the field and it is neither empty nor "None". */
  predicate Given(value: Option<string>) {
    value.Some? && value.value != "" && value.value != "None"
  }

  /** A number match starts at `b`, and none starts before it: where `re.search` finds it. */
  predicate LeftmostNumber(t: string, b: nat) {
    b <= |t| && NumberAt(t, b).Some? && forall j :: 0 <= j < b ==> NumberAt(t, j).None?
  }

  /**
   * The field's value (`None` when the form does not have it), cleaned. The result is
   * always a numeral, so the `Decimal` conversion that follows it never fails. It is "0"
   * for a missing, empty or "None" field and for a field in which no number matches;
   * otherwise it is the leftmost number match of the prepared field.
   */
  function CleanNumeric(value: Option<string>): (r: string)
    ensures IsNumeral(r)
    ensures !Given(value) ==> r == "0"
    ensures Given(value) && (forall j :: 0 <= j <= |Prepared(value.value)| ==> NumberAt(Prepared(value.value), j).None?) ==> r == "0"
    ensures forall b: nat :: Given(value) && LeftmostNumber(Prepared(value.value), b) ==>
      r == Prepared(value.value)[b..NumberAt(Prepared(value.value), b).value]
    ensures r == "0" || (value.Some? && exists b, e :: 0 <= b < e <= |Prepared(value.value)| && r == Prepared(value.value)[b..e])
  {
    if !Given(value) then
      assert NumeralSplit("0", 1);
      "0"
    else FirstNumber(Prepared(value.value))
  }

  /**
   * The text of the leftmost number match (`numeric_match.group(0)`), or "0" when no
   * number matches.
   */
  function FirstNumber(t: string): (r: string)
    ensures IsNumeral(r)
    ensures (forall j :: 0 <= j <= |t| ==> NumberAt(t, j).None?) ==> r == "0"
    ensures forall b: nat :: LeftmostNumber(t, b) ==> r == t[b..NumberAt(t, b).value]
    ensures r == "0" || exists b, e :: 0 <= b < e <= |t| && r == t[b..e]
  {
    SearchIsLeftmost(t);
    match SearchNumber(t, 0)
    case Some((b, e)) =>
      NumberIsNumeral(t, b);
      t[b..e]
    case None =>
      assert NumeralSplit("0", 1);
      "0"
  }

  /** `re.search` finds the leftmost number match, and only it. */
  lemma SearchIsLeftmost(t: string)
    ensures forall b: nat :: LeftmostNumber(t, b) ==> SearchNumber(t, 0) == Some((b, NumberAt(t, b).value))
  {
    forall b: nat | LeftmostNumber(t, b)
      ensures SearchNumber(t, 0) == Some((b, NumberAt(t, b).value))
    {
      var r := SearchNumber(t, 0);
      assert r.Some?;
      assert !(r.value.0 < b) && !(b < r.value.0);
    }
  }

  /** A match of `\d*\.?\d+` is a numeral without a sign. */
  lemma UnsignedIsNumeral(s: string, p: nat)
    requires p <= |s| && UnsignedEnd(s, p).Some?
    ensures var e := UnsignedEnd(s, p).value; p < e <= |s| && s[p] != '-' && NumeralSplit(s[p..e], DigitRunEnd(s, p) - p)
  {
    var q := DigitRunEnd(s, p);
    if q + 1 < |s| && s[q] == '.' && IsDigit(s[q + 1]) {
      UnsignedWithFraction(s, p, q, DigitRunEnd(s, q + 1));
    } else {
      UnsignedWhole(s, p, q);
    }
  }

  /** `UnsignedIsNumeral` for digits, a dot and more digits, from `p` to `e`. */
  lemma UnsignedWithFraction(s: string, p: nat, q: nat, e: nat)
    requires p <= q && q + 1 < e <= |s| && s[q] == '.'
    requires forall k :: p <= k < q ==> IsDigit(s[k])
    requires forall k :: q + 1 <= k < e ==> IsDigit(s[k])
    ensures s[p] != '-' && NumeralSplit(s[p..e], q - p)
  {
    var r := s[p..e];
    assert r[0] == s[p];
  }

  /** `UnsignedIsNumeral` for a run of digits from `p` to `q`. */
  lemma UnsignedWhole(s: string, p: nat, q: nat)
    requires p < q <= |s|
    requires forall k :: p <= k < q ==> IsDigit(s[k])
    ensures s[p] != '-' && NumeralSplit(s[p..q], q - p)
  {
    var r := s[p..q];
    assert r[0] == s[p];
  }

  /** Every match is a numeral. */
  lemma NumberIsNumeral(s: string, i: nat)
    requires i <= |s| && NumberAt(s, i).Some?
    ensures var e := NumberAt(s, i).value; i < e <= |s| && IsNumeral(s[i..e])
  {
    var e := NumberAt(s, i).value;
    if i < |s| && s[i] == '-' {
      UnsignedIsNumeral(s, i + 1);
      var d := DigitRunEnd(s, i + 1) - i;
      assert NumeralSplit(s[i..e], d);
    } else {
      UnsignedIsNumeral(s, i);
      assert NumeralSplit(s[i..e], DigitRunEnd(s, i) - i);
    }
  }

  /** A numeral matches itself from its first character to its last. */
  lemma NumeralMatchesWhole(r: string)
    requires IsNumeral(r)
    ensures NumberAt(r, 0) == Some(|r|)
  {
    var d: nat :| d <= |r| && NumeralSplit(r, d);
    var p := SignLength(r);
    assert p <= d;
    DigitRunEndIs(r, p, d);
    if d < |r| {
      DigitRunEndIs(r, d + 1, |r|);
    }
  }

  /** A numeral is made of digits, a dot and a minus sign, and ends with a digit. */
  lemma NumeralCharacters(r: string)
    requires IsNumeral(r)
    ensures r != []
    ensures forall k :: 0 <= k < |r| ==> r[k] == '-' || r[k] == '.' || IsDigit(r[k])
    ensures IsDigit(r[|r| - 1])
  {
    var d: nat :| NumeralSplit(r, d);
  }

  /** A string whose ends are not whitespace is its own strip. */
  lemma StripUnchanged(s: string)
    requires s != [] && !IsSpace(s[0]) && !IsSpace(s[|s| - 1])
    ensures Strip(s) == s
  {
  }
}

/** What `clean_numeric_value` promises. */
module NumericCleanFacts {
  import opened Wrappers
  import opened Text
  import opened NumericClean

  /** Cleaning a cleaned value changes nothing. */
  lemma CleanIdempotent(value: Option<string>)
    ensures CleanNumeric(Some(CleanNumeric(value))) == CleanNumeric(value)
  {
    NumeralCleansToItself(CleanNumeric(value));
  }

  /** A numeral is its own cleaned value. */
  lemma NumeralCleansToItself(r: string)
    requires IsNumeral(r)
    ensures CleanNumeric(Some(r)) == r
  {
    NumeralCharacters(r);
    assert r != "None" by {
      assert "None"[0] == 'N';
    }
    NumeralPrepared(r);
    NumeralMatchesWhole(r);
    assert SearchNumber(r, 0) == Some((0, |r|));
    assert r[0..|r|] == r;
  }

  /** Preparing a numeral changes nothing: no whitespace at its ends, no comma in it. */
  lemma NumeralPrepared(r: string)
    requires r != [] && !IsSpace(r[0]) && !IsSpace(r[|r| - 1])
    requires forall k :: 0 <= k < |r| ==> r[k] == '-' || r[k] == '.' || IsDigit(r[k])
    ensures Prepared(r) == r
  {
    StripUnchanged(r);
    assert ReplaceChar(r, ',', '.') == r;
  }
}
