/**
 * Recovery of a receipt object from free-form model output (`clean_json_response`).
 *
 * The text is first cleaned (reasoning blocks and tags removed, whitespace collapsed),
 * then four strategies are tried in order: the outermost brace span, every brace pair
 * (keeping the best score), the permissive-regex brace groups from last to first, and
 * the group found by walking back from the last closing brace. Each candidate is
 * normalised (single quotes to double quotes, trailing commas dropped) and handed to
 * the JSON parser, which is a parameter of the model; a candidate is accepted when it
 * parses to an object holding at least two of the five main keys.
 */
module JsonRecovery {
  import opened Wrappers
  import opened Json
  import opened Text

  type Fields = map<string, Value>

  /** `json.loads`: a partial function from text to a value. */
  type Parser = string -> Option<Value>

  const MainKeys: seq<string> := ["Magasin", "Date", "NumeroTicket", "Articles", "Total"]

  /** A candidate object is accepted with at least this many main keys. */
  const Threshold: nat := 2

  // ---------------------------------------------------------------- scoring

  /** How many of the five main keys an object holds. */
  function KeyScore(f: Fields): (n: nat)
    ensures n <= |MainKeys|
    ensures n == 0 <==> forall k :: k in MainKeys ==> k !in f
  {
    (if MainKeys[0] in f then 1 else 0) + (if MainKeys[1] in f then 1 else 0)
    + (if MainKeys[2] in f then 1 else 0) + (if MainKeys[3] in f then 1 else 0)
    + (if MainKeys[4] in f then 1 else 0)
  }

  // ------------------------------------------------------- text cleaning

  /** Every reasoning block, from an opening think tag to the nearest closing one across lines, removed. */
  function StripThink(s: string): (r: string)
    decreases |s|
    ensures |r| <= |s|
    ensures '<' !in s ==> r == s
  {
    if s == [] then []
    else if OccursAt(s, "<think>", 0) then
      match FindFrom(s, "</think>", 7)
      case Some(j) => StripThink(s[j + 8..])
      case None => [s[0]] + StripThink(s[1..])
    else [s[0]] + StripThink(s[1..])
  }

  /**
   * Index of the first `close` at or after `k`, provided no `stop` comes first:
   * the run of a pattern such as `.*?>` without line breaks, or `[^{}]*\}`.
   */
  function CloseBefore(s: string, k: nat, close: char, stop: char): (r: Option<nat>)
    decreases |s| - k
    ensures r.Some? ==> k <= r.value < |s| && s[r.value] == close
    ensures r.Some? ==> forall m :: k <= m < r.value ==> s[m] != close && s[m] != stop
  {
    if k >= |s| || s[k] == stop then None
    else if s[k] == close then Some(k)
    else CloseBefore(s, k + 1, close, stop)
  }

  /** Every tag-like markup on one line, from `<` to the nearest `>`, removed. */
  function StripTags(s: string): (r: string)
    decreases |s|
    ensures |r| <= |s|
    ensures '<' !in s ==> r == s
  {
    if s == [] then []
    else if s[0] == '<' then
      match CloseBefore(s, 1, '>', '\n')
      case Some(j) => StripTags(s[j + 1..])
      case None => [s[0]] + StripTags(s[1..])
    else [s[0]] + StripTags(s[1..])
  }

  function DropNewlines(s: string): (r: string)
    decreases |s|
    ensures |r| <= |s| && r == s[|s| - |r|..]
    ensures r == [] || r[0] != '\n'
    ensures Visible(r) == Visible(s)
    ensures forall sep :: Layout(r, sep, true) == Layout(s, sep, true)
  {
    if s != [] && s[0] == '\n' then DropNewlines(s[1..]) else s
  }

  /**
   * Every run of line breaks collapsed into one: the visible characters are kept, in
   * order, and no line break follows another.
   */
  function CollapseNewlines(s: string): (r: string)
    decreases |s|
    ensures |r| <= |s|
    ensures s != [] ==> r != [] && r[0] == s[0]
    ensures forall i :: 0 <= i < |r| - 1 && r[i] == '\n' ==> r[i + 1] != '\n'
    ensures '\n' !in s ==> r == s
    ensures Visible(r) == Visible(s)
  {
    if s == [] then []
    else if s[0] == '\n' then
      var rest := CollapseNewlines(DropNewlines(s[1..]));
      VisibleCons('\n', rest);
      ['\n'] + rest
    else
      var rest := CollapseNewlines(s[1..]);
      VisibleCons(s[0], rest);
      [s[0]] + rest
  }

  /** Collapsing line breaks keeps the layout of words and of lines, hence both. */
  lemma {:induction false} CollapseNewlinesLayout(s: string)
    decreases |s|
    ensures SameLayout(CollapseNewlines(s), s, Whitespace) && SameLayout(CollapseNewlines(s), s, LineBreak)
    ensures Words(CollapseNewlines(s)) == Words(s) && Lines(CollapseNewlines(s)) == Lines(s)
  {
    if s != [] {
      var r := CollapseNewlines(s);
      if s[0] == '\n' {
        var rest := CollapseNewlines(DropNewlines(s[1..]));
        CollapseNewlinesLayout(DropNewlines(s[1..]));
        assert r[1..] == rest;
      } else {
        var rest := CollapseNewlines(s[1..]);
        CollapseNewlinesLayout(s[1..]);
        assert r[1..] == rest;
      }
    }
  }

  /** Every whitespace character of `s` is a space, and no two of them are adjacent. */
  predicate SingleSpaced(s: string) {
    forall i :: 0 <= i < |s| && IsSpace(s[i]) ==> s[i] == ' ' && (i + 1 < |s| ==> !IsSpace(s[i + 1]))
  }

  /** Every run of whitespace collapsed into one space; the visible characters are kept, in order. */
  function CollapseSpaces(s: string): (r: string)
    decreases |s|
    ensures |r| <= |s|
    ensures SingleSpaced(r)
    ensures r == [] <==> s == []
    ensures s != [] && !IsSpace(s[0]) ==> r[0] == s[0]
    ensures Visible(r) == Visible(s)
  {
    if s == [] then []
    else if IsSpace(s[0]) then
      var rest := CollapseSpaces(TrimLeft(s[1..]));
      SpaceBefore(rest);
      VisibleCons(' ', rest);
      VisibleTrimLeft(s[1..]);
      [' '] + rest
    else
      var rest := CollapseSpaces(s[1..]);
      NonSpaceBefore(s[0], rest);
      VisibleCons(s[0], rest);
      [s[0]] + rest
  }

  /** Collapsing whitespace keeps the layout of words, hence the words. */
  lemma {:induction false} CollapseSpacesLayout(s: string)
    decreases |s|
    ensures SameLayout(CollapseSpaces(s), s, Whitespace)
    ensures Words(CollapseSpaces(s)) == Words(s)
  {
    if s != [] {
      var r := CollapseSpaces(s);
      if IsSpace(s[0]) {
        var rest := CollapseSpaces(TrimLeft(s[1..]));
        CollapseSpacesLayout(TrimLeft(s[1..]));
        LayoutTrimLeft(s[1..]);
        assert r[1..] == rest;
      } else {
        var rest := CollapseSpaces(s[1..]);
        CollapseSpacesLayout(s[1..]);
        assert r[1..] == rest;
      }
    }
  }

  /** A single space in front of a single-spaced text that does not start with whitespace. */
  lemma SpaceBefore(rest: string)
    requires SingleSpaced(rest) && (rest == [] || !IsSpace(rest[0]))
    ensures SingleSpaced([' '] + rest)
  {
    var r := [' '] + rest;
    assert forall i :: 1 <= i < |r| ==> r[i] == rest[i - 1];
  }

  /** Any other character in front of a single-spaced text. */
  lemma NonSpaceBefore(c: char, rest: string)
    requires !IsSpace(c) && SingleSpaced(rest)
    ensures SingleSpaced([c] + rest)
  {
    var r := [c] + rest;
    assert forall i :: 1 <= i < |r| ==> r[i] == rest[i - 1];
  }

  /**
   * The cleaning applied before any candidate is searched for. The result holds no line
   * break, its only whitespace is single spaces between other characters, and it has the
   * words of the text left once the reasoning blocks and tags are gone.
   */
  function Clean(text: string): (r: string)
    ensures SingleSpaced(r) && '\n' !in r
    ensures r == [] || (!IsSpace(r[0]) && !IsSpace(r[|r| - 1]))
    ensures Visible(r) == Visible(StripTags(StripThink(text)))
    ensures Words(r) == Words(StripTags(StripThink(text)))
  {
    var x := CollapseSpaces(CollapseNewlines(StripTags(StripThink(text))));
    StripSingleSpaced(x);
    VisibleStrip(x);
    WordsStrip(x);
    CollapseSpacesLayout(CollapseNewlines(StripTags(StripThink(text))));
    CollapseNewlinesLayout(StripTags(StripThink(text)));
    Strip(x)
  }

  /** Stripping keeps a string single-spaced. */
  lemma StripSingleSpaced(x: string)
    requires SingleSpaced(x)
    ensures var r := Strip(x);
      SingleSpaced(r) && '\n' !in r && (r == [] || (!IsSpace(r[0]) && !IsSpace(r[|r| - 1])))
  {
    var l := TrimLeft(x);
    TrimRightPrefix(l);
    var r := Strip(x);
    StripEnds(x);
    SliceSingleSpaced(x, |x| - |l|, |x| - |l| + |r|);
    assert r == x[|x| - |l|..|x| - |l| + |r|];
    assert IsSpace('\n');
  }

  /** A slice of a single-spaced string is single-spaced. */
  lemma SliceSingleSpaced(x: string, a: nat, b: nat)
    requires a <= b <= |x| && SingleSpaced(x)
    ensures SingleSpaced(x[a..b])
  {
    var r := x[a..b];
    forall i | 0 <= i < |r| && IsSpace(r[i])
      ensures r[i] == ' ' && (i + 1 < |r| ==> !IsSpace(r[i + 1]))
    {
      assert r[i] == x[a + i];
      if i + 1 < |r| {
        assert r[i + 1] == x[a + i + 1];
      }
    }
  }

  // ------------------------------------------------------- normalisation

  /** No two single quotes: at most one is left unpaired. */
  predicate AtMostOneQuote(r: string) {
    forall i, j :: 0 <= i < j < |r| && r[i] == '\'' ==> r[j] != '\''
  }

  /** `b` is `a` itself, or the double quote that the single quote `a` became. */
  predicate SameOrDoubled(a: char, b: char) {
    b == a || (a == '\'' && b == '"')
  }

  /**
   * Paired single quotes become double quotes, left to right: every other character
   * stays where it was, at most one single quote is left, and a text without single
   * quotes is unchanged.
   */
  function QuotesToDouble(s: string): (r: string)
    decreases |s|
    ensures |r| == |s|
    ensures forall i :: 0 <= i < |s| ==> SameOrDoubled(s[i], r[i])
    ensures '\'' !in s ==> r == s
    ensures AtMostOneQuote(r)
  {
    if s == [] then []
    else if s[0] == '\'' && '\'' in s[1..] then
      var j := IndexOf(s[1..], '\'');
      var rest := QuotesToDouble(s[j + 2..]);
      QuotedRun(s[1..j + 1], rest);
      PairedChars(s, j, rest);
      ['"'] + s[1..j + 1] + ['"'] + rest
    else
      var rest := QuotesToDouble(s[1..]);
      LeadingChar(s[0], rest);
      KeptChar(s, rest);
      [s[0]] + rest
  }

  /** A quoted run turned to double quotes, followed by the converted rest. */
  lemma PairedChars(s: string, j: nat, rest: string)
    requires j + 2 <= |s| && s[0] == '\'' && s[j + 1] == '\''
    requires |rest| == |s| - (j + 2) && forall i :: 0 <= i < |rest| ==> SameOrDoubled(s[j + 2..][i], rest[i])
    ensures var r := ['"'] + s[1..j + 1] + ['"'] + rest;
      |r| == |s| && forall i :: 0 <= i < |s| ==> SameOrDoubled(s[i], r[i])
  {
    var r := ['"'] + s[1..j + 1] + ['"'] + rest;
    forall i | 0 <= i < |s|
      ensures SameOrDoubled(s[i], r[i])
    {
      if 0 < i <= j {
        assert r[i] == s[i];
      } else if j + 1 < i {
        assert r[i] == rest[i - (j + 2)] && s[j + 2..][i - (j + 2)] == s[i];
      }
    }
  }

  /** The first character kept, followed by the converted rest. */
  lemma KeptChar(s: string, rest: string)
    requires s != [] && |rest| == |s| - 1 && forall i :: 0 <= i < |rest| ==> SameOrDoubled(s[1..][i], rest[i])
    requires '\'' !in s[1..] ==> rest == s[1..]
    ensures forall i :: 0 <= i < |s| ==> SameOrDoubled(s[i], ([s[0]] + rest)[i])
    ensures '\'' !in s ==> [s[0]] + rest == s
  {
    var r := [s[0]] + rest;
    forall i | 0 < i < |s|
      ensures SameOrDoubled(s[i], r[i])
    {
      assert r[i] == rest[i - 1] && s[1..][i - 1] == s[i];
    }
    if '\'' !in s {
      assert '\'' !in s[1..];
      assert [s[0]] + s[1..] == s;
    }
  }

  /** A quote-free run between double quotes adds no single quote. */
  lemma QuotedRun(p: string, rest: string)
    requires '\'' !in p && AtMostOneQuote(rest)
    ensures AtMostOneQuote(['"'] + p + ['"'] + rest)
  {
    var a := ['"'] + p + ['"'];
    assert '\'' !in a;
    QuoteFreeThen(a, rest);
  }

  /** A prefix without quotes keeps a text's quotes at most one. */
  lemma QuoteFreeThen(a: string, rest: string)
    requires '\'' !in a && AtMostOneQuote(rest)
    ensures AtMostOneQuote(a + rest)
  {
    var r := a + rest;
    assert forall k :: 0 <= k < |a| ==> r[k] == a[k];
    assert forall k :: |a| <= k < |r| ==> r[k] == rest[k - |a|];
  }

  /** One character before a rest keeps at most one quote, unless both hold one. */
  lemma LeadingChar(c: char, rest: string)
    requires AtMostOneQuote(rest) && (c == '\'' ==> '\'' !in rest)
    ensures AtMostOneQuote([c] + rest)
  {
    var r := [c] + rest;
    forall i, j | 0 <= i < j < |r| && r[i] == '\''
      ensures r[j] != '\''
    {
      assert r[j] == rest[j - 1];
      if i > 0 {
        assert r[i] == rest[i - 1];
      }
    }
  }

  /** The number of single quotes in `s`. */
  function QuoteCount(s: string): nat {
    multiset(s)['\'']
  }

  /** `i` is the position of the last single quote of `s`. */
  predicate LastQuote(s: string, i: int) {
    0 <= i < |s| && s[i] == '\'' && forall j :: i < j < |s| ==> s[j] != '\''
  }

  /**
   * The quote the conversion leaves: there is one exactly when `s` holds an odd number of
   * single quotes, and it is `s`'s last.
   */
  lemma {:induction false} UnpairedQuote(s: string)
    decreases |s|
    ensures '\'' in QuotesToDouble(s) <==> QuoteCount(s) % 2 == 1
    ensures forall i :: 0 <= i < |s| && QuotesToDouble(s)[i] == '\'' ==> LastQuote(s, i)
  {
    if s == [] {
    } else if s[0] == '\'' && '\'' in s[1..] {
      var j := IndexOf(s[1..], '\'');
      var rest := QuotesToDouble(s[j + 2..]);
      UnpairedQuote(s[j + 2..]);
      PairedQuoteLeft(s, j, rest);
      assert QuotesToDouble(s) == ['"'] + s[1..j + 1] + ['"'] + rest;
    } else if s[0] != '\'' {
      var rest := QuotesToDouble(s[1..]);
      UnpairedQuote(s[1..]);
      KeptQuoteLeft(s, rest);
      assert QuotesToDouble(s) == [s[0]] + rest;
    } else {
      assert s == [s[0]] + s[1..] && QuotesToDouble(s) == s;
      assert LastQuote(s, 0);
    }
  }

  /** `r` holds a single quote exactly when `s` holds an odd number, and only at `s`'s last. */
  predicate QuoteLeft(s: string, r: string) {
    && ('\'' in r <==> QuoteCount(s) % 2 == 1)
    && forall i :: 0 <= i < |s| && i < |r| && r[i] == '\'' ==> LastQuote(s, i)
  }

  /** A quoted run converted first: the quote left is the one the rest leaves. */
  lemma PairedQuoteLeft(s: string, j: nat, rest: string)
    requires j + 2 <= |s| && s[0] == '\'' && s[j + 1] == '\'' && '\'' !in s[1..j + 1]
    requires |rest| == |s| - (j + 2) && QuoteLeft(s[j + 2..], rest)
    ensures QuoteLeft(s, ['"'] + s[1..j + 1] + ['"'] + rest)
  {
    PairCount(s, j);
    var p := ['"'] + s[1..j + 1] + ['"'];
    var r := p + rest;
    assert r[..j + 2] == p && r[j + 2..] == rest;
    QuotesAfter(s, j + 2, r, rest);
  }

  /** A first character that is not a quote: the quote left is the one the rest leaves. */
  lemma KeptQuoteLeft(s: string, rest: string)
    requires s != [] && s[0] != '\''
    requires |rest| == |s| - 1 && QuoteLeft(s[1..], rest)
    ensures QuoteLeft(s, [s[0]] + rest)
  {
    assert s == [s[0]] + s[1..];
    var r := [s[0]] + rest;
    assert r[..1] == [s[0]] && r[1..] == rest;
    QuotesAfter(s, 1, r, rest);
  }

  /**
   * A converted text whose first `n` characters hold no single quote: its quotes are those
   * of the converted rest, shifted by `n`.
   */
  lemma QuotesAfter(s: string, n: nat, r: string, rest: string)
    requires n <= |s| && |r| == |s| && r[n..] == rest && '\'' !in r[..n]
    requires forall i :: 0 <= i < |s| - n && i < |rest| && rest[i] == '\'' ==> LastQuote(s[n..], i)
    ensures forall i :: 0 <= i < |s| && r[i] == '\'' ==> LastQuote(s, i)
    ensures '\'' in r <==> '\'' in rest
  {
    forall i | 0 <= i < |s| && r[i] == '\''
      ensures LastQuote(s, i)
    {
      if i >= n {
        assert rest[i - n] == r[i] && LastQuote(s[n..], i - n);
      }
    }
    assert r == r[..n] + rest;
  }

  /** A quoted run holds two single quotes: the ones around it. */
  lemma PairCount(s: string, j: nat)
    requires j + 1 < |s| && s[0] == '\'' && s[j + 1] == '\'' && '\'' !in s[1..j + 1]
    ensures QuoteCount(s) == 2 + QuoteCount(s[j + 2..])
    ensures QuoteCount(s) % 2 == QuoteCount(s[j + 2..]) % 2
  {
    assert s == [s[0]] + s[1..j + 1] + [s[j + 1]] + s[j + 2..];
    assert multiset(s[1..j + 1])['\''] == 0;
    PlusTwoParity(QuoteCount(s[j + 2..]));
  }

  lemma PlusTwoParity(x: nat)
    ensures (2 + x) % 2 == x % 2
  {
  }

  /** After optional whitespace from `k`, the next character closes an object or array. */
  predicate ClosesAfterSpaces(s: string, k: nat)
    decreases |s| - k
  {
    k < |s| && (s[k] == '}' || s[k] == ']' || (IsSpace(s[k]) && ClosesAfterSpaces(s, k + 1)))
  }

  /** A comma directly (up to whitespace) before `}` or `]`. */
  predicate TrailingComma(s: string, i: nat) {
    i < |s| && s[i] == ',' && ClosesAfterSpaces(s, i + 1)
  }

  /** A comma followed only by whitespace before a closing brace or bracket is dropped. */
  function DropTrailingCommas(s: string): (r: string)
    decreases |s|
    ensures |r| <= |s|
    ensures ',' !in s ==> r == s
  {
    if s == [] then []
    else if TrailingComma(s, 0) then DropTrailingCommas(s[1..])
    else [s[0]] + DropTrailingCommas(s[1..])
  }

  /**
   * The normalisation every candidate undergoes before it is parsed: it never lengthens
   * the candidate, and one without single quotes and commas is only stripped.
   */
  function Normalize(candidate: string): (r: string)
    ensures |r| <= |candidate|
    ensures '\'' !in candidate && ',' !in candidate ==> r == Strip(candidate)
  {
    StripKeepsOut(candidate, '\'');
    StripKeepsOut(candidate, ',');
    DropTrailingCommas(QuotesToDouble(Strip(candidate)))
  }


  /** What a candidate yields: the object `json.loads` makes of its normal form, if it is an object. */
  function Attempt(parse: Parser, candidate: string): Option<Fields> {
    match parse(Normalize(candidate))
    case Some(Obj(f)) => Some(f)
    case _ => None
  }

  /**
   * The normalise-parse-keep-objects step as one function value. The phases below are
   * written over any such loader; the source's one is `Load(parse)`.
   */
  type Loader = string -> Option<Fields>

  function Load(parse: Parser): Loader {
    c => Attempt(parse, c)
  }

  /** The candidate yields an object with enough main keys. */
  predicate Accepts(load: Loader, candidate: string) {
    load(candidate).Some? && KeyScore(load(candidate).value) >= Threshold
  }

  // ------------------------------------------------- phase 1: outermost span

  function FirstIndex(s: string, c: char): (r: Option<nat>)
    ensures r.Some? ==> r.value < |s| && s[r.value] == c && forall i :: 0 <= i < r.value ==> s[i] != c
    ensures r.None? ==> c !in s
  {
    if c in s then Some(IndexOf(s, c)) else None
  }

  function LastIndex(s: string, c: char): (r: Option<nat>)
    decreases |s|
    ensures r.Some? ==> r.value < |s| && s[r.value] == c && forall i :: r.value < i < |s| ==> s[i] != c
    ensures r.None? ==> c !in s
  {
    if s == [] then None
    else if s[|s| - 1] == c then Some(|s| - 1)
    else LastIndex(s[..|s| - 1], c)
  }

  /** A brace pair: an opening brace at `s` and a later closing brace at `e`. */
  predicate IsPair(t: string, s: nat, e: nat) {
    s < e < |t| && t[s] == '{' && t[e] == '}'
  }

  /**
   * The span from the first `{` to the last `}`, when the last comes after the first:
   * there is one exactly when the text holds some brace pair.
   */
  function OuterPair(t: string): (r: Option<(nat, nat)>)
    ensures r.Some? ==> IsPair(t, r.value.0, r.value.1)
    ensures r.Some? ==> (forall i :: 0 <= i < r.value.0 ==> t[i] != '{') && (forall i :: r.value.1 < i < |t| ==> t[i] != '}')
    ensures r.None? <==> forall s: nat, e: nat :: !IsPair(t, s, e)
  {
    match (FirstIndex(t, '{'), LastIndex(t, '}'))
    case (Some(s), Some(e)) =>
      if e > s then
        assert IsPair(t, s, e);
        Some((s, e))
      else
        NoPairWhenCrossed(t, s, e);
        None
    case _ => None
  }

  /** When the last `}` comes no later than the first `{`, no brace pair exists. */
  lemma NoPairWhenCrossed(t: string, first: nat, last: nat)
    requires last <= first <= |t|
    requires forall i :: 0 <= i < first ==> t[i] != '{'
    requires forall i :: last < i < |t| ==> t[i] != '}'
    ensures forall s: nat, e: nat :: !IsPair(t, s, e)
  {
    forall s: nat, e: nat
      ensures !IsPair(t, s, e)
    {
    }
  }

  function OuterAttempt(load: Loader, t: string): (r: Option<Fields>)
    ensures r.Some? ==> KeyScore(r.value) >= Threshold
  {
    match OuterPair(t)
    case Some((s, e)) => if Accepts(load, t[s..e + 1]) then load(t[s..e + 1]) else None
    case None => None
  }

  // ------------------------------------------------- phase 2: every brace pair

  /** The object each position pair yields, `None` for positions that are not a brace pair. */
  type Candidates = (nat, nat) -> Option<Fields>

  /** The candidates of the exhaustive phase over the cleaned text `t`. */
  function PairCandidates(load: Loader, t: string): Candidates {
    (s: nat, e: nat) => if IsPair(t, s, e) then load(t[s..e + 1]) else None
  }

  /** The score a pair earns: the main keys of the object it yields, 0 when it yields none. */
  function CandScore(cand: Candidates, s: nat, e: nat): nat {
    match cand(s, e)
    case Some(f) => KeyScore(f)
    case None => 0
  }

  /** Pair `(s1, e1)` is visited before `(s2, e2)` by the nested loops. */
  predicate Before(s1: nat, e1: nat, s2: nat, e2: nat) {
    s1 < s2 || (s1 == s2 && e1 < e2)
  }

  /**
   * The nested loops over start and end positions below `n`, from position `(s, e)` on,
   * with `best` and `score` the state reached so far: a candidate replaces the best one
   * only on a strictly greater score of at least the threshold.
   */
  function Search(cand: Candidates, n: nat, s: nat, e: nat, best: Option<Fields>, score: nat)
    : (r: (Option<Fields>, nat))
    requires s <= n && e <= n
    requires best.Some? ==> KeyScore(best.value) == score >= Threshold
    requires best.None? ==> score == 0
    decreases n - s, n - e
    ensures r.0.Some? ==> KeyScore(r.0.value) == r.1 >= Threshold
    ensures r.0.None? ==> r.1 == 0
    ensures r.1 >= score
  {
    if s == n then (best, score)
    else if e == n then Search(cand, n, s + 1, 0, best, score)
    else if CandScore(cand, s, e) >= Threshold && CandScore(cand, s, e) > score then
      Search(cand, n, s, e + 1, cand(s, e), CandScore(cand, s, e))
    else Search(cand, n, s, e + 1, best, score)
  }

  function ExhaustiveBest(load: Loader, t: string): Option<Fields> {
    Search(PairCandidates(load, t), |t|, 0, 0, None, 0).0
  }

  /**
   * The outcome of a search over all pairs below `n`: nothing when no pair reaches the
   * threshold, otherwise the object of the first pair (in visiting order) whose score is
   * maximal.
   */
  ghost predicate FirstMaximal(cand: Candidates, n: nat, best: Option<Fields>) {
    match best
    case None => forall s: nat, e: nat :: s < n && e < n ==> CandScore(cand, s, e) < Threshold
    case Some(f) =>
      exists bs: nat, be: nat ::
        && bs < n && be < n
        && cand(bs, be) == Some(f)
        && CandScore(cand, bs, be) >= Threshold
        && (forall s: nat, e: nat :: s < n && e < n ==> CandScore(cand, s, e) <= CandScore(cand, bs, be))
        && (forall s: nat, e: nat :: e < n && Before(s, e, bs, be) ==> CandScore(cand, s, e) < CandScore(cand, bs, be))
  }

  /** `(bs, be)` is the first pair visited before `(s, e)` that reached `score`, and yielded `f`. */
  ghost predicate Leader(cand: Candidates, n: nat, s: nat, e: nat, f: Fields, score: nat, bs: nat, be: nat) {
    && bs < n && be < n
    && Before(bs, be, s, e)
    && cand(bs, be) == Some(f)
    && CandScore(cand, bs, be) == score
    && (forall s': nat, e': nat :: e' < n && Before(s', e', bs, be) ==> CandScore(cand, s', e') < score)
  }

  /** What the loops know after visiting every pair before `(s, e)`. */
  ghost predicate SearchState(cand: Candidates, n: nat, s: nat, e: nat, best: Option<Fields>, score: nat) {
    match best
    case None =>
      score == 0 &&
      forall s': nat, e': nat :: e' < n && Before(s', e', s, e) ==> CandScore(cand, s', e') < Threshold
    case Some(f) =>
      && score >= Threshold
      && (forall s': nat, e': nat :: e' < n && Before(s', e', s, e) ==> CandScore(cand, s', e') <= score)
      && exists bs: nat, be: nat :: Leader(cand, n, s, e, f, score, bs, be)
  }

  lemma {:induction false} SearchIsFirstMaximal(cand: Candidates, n: nat, s: nat, e: nat, best: Option<Fields>, score: nat)
    requires s <= n && e <= n && (s == n ==> e == 0)
    requires best.Some? ==> KeyScore(best.value) == score >= Threshold
    requires best.None? ==> score == 0
    requires SearchState(cand, n, s, e, best, score)
    decreases n - s, n - e, 2
    ensures FirstMaximal(cand, n, Search(cand, n, s, e, best, score).0)
  {
    if s == n {
      SearchDone(cand, n, best, score);
    } else if e == n {
      SearchNextRow(cand, n, s, best, score);
    } else {
      SearchNextEnd(cand, n, s, e, best, score);
    }
  }

  /** The step of `SearchIsFirstMaximal` at the end of a row. */
  lemma {:induction false} SearchNextRow(cand: Candidates, n: nat, s: nat, best: Option<Fields>, score: nat)
    requires s < n
    requires best.Some? ==> KeyScore(best.value) == score >= Threshold
    requires best.None? ==> score == 0
    requires SearchState(cand, n, s, n, best, score)
    decreases n - s, 0, 0
    ensures FirstMaximal(cand, n, Search(cand, n, s, n, best, score).0)
  {
    NextRow(cand, n, s, best, score);
    SearchIsFirstMaximal(cand, n, s + 1, 0, best, score);
  }

  /** The step of `SearchIsFirstMaximal` at one pair of a row. */
  lemma {:induction false} SearchNextEnd(cand: Candidates, n: nat, s: nat, e: nat, best: Option<Fields>, score: nat)
    requires s < n && e < n
    requires best.Some? ==> KeyScore(best.value) == score >= Threshold
    requires best.None? ==> score == 0
    requires SearchState(cand, n, s, e, best, score)
    decreases n - s, n - e, 1
    ensures FirstMaximal(cand, n, Search(cand, n, s, e, best, score).0)
  {
    if CandScore(cand, s, e) >= Threshold && CandScore(cand, s, e) > score {
      SearchTake(cand, n, s, e, best, score);
    } else {
      SearchKeep(cand, n, s, e, best, score);
    }
  }

  /** `SearchNextEnd` when the pair at `(s, e)` becomes the leader. */
  lemma {:induction false} SearchTake(cand: Candidates, n: nat, s: nat, e: nat, best: Option<Fields>, score: nat)
    requires s < n && e < n
    requires best.Some? ==> KeyScore(best.value) == score >= Threshold
    requires best.None? ==> score == 0
    requires CandScore(cand, s, e) >= Threshold && CandScore(cand, s, e) > score
    requires SearchState(cand, n, s, e, best, score)
    decreases n - s, n - e, 0
    ensures FirstMaximal(cand, n, Search(cand, n, s, e, best, score).0)
  {
    TakeCandidate(cand, n, s, e, best, score);
    SearchIsFirstMaximal(cand, n, s, e + 1, cand(s, e), CandScore(cand, s, e));
  }

  /** `SearchNextEnd` when the leader stays in place. */
  lemma {:induction false} SearchKeep(cand: Candidates, n: nat, s: nat, e: nat, best: Option<Fields>, score: nat)
    requires s < n && e < n
    requires best.Some? ==> KeyScore(best.value) == score >= Threshold
    requires best.None? ==> score == 0
    requires !(CandScore(cand, s, e) >= Threshold && CandScore(cand, s, e) > score)
    requires SearchState(cand, n, s, e, best, score)
    decreases n - s, n - e, 0
    ensures FirstMaximal(cand, n, Search(cand, n, s, e, best, score).0)
  {
    KeepBest(cand, n, s, e, best, score);
    SearchIsFirstMaximal(cand, n, s, e + 1, best, score);
  }

  /** Once every row is visited, the search state is the first-maximal outcome. */
  lemma SearchDone(cand: Candidates, n: nat, best: Option<Fields>, score: nat)
    requires SearchState(cand, n, n, 0, best, score)
    ensures FirstMaximal(cand, n, best)
  {
    assert forall s': nat, e': nat :: s' < n ==> Before(s', e', n, 0);
    match best
    case None =>
    case Some(f) =>
      var bs: nat, be: nat :| Leader(cand, n, n, 0, f, score, bs, be);
  }

  /** The end of a row: the pairs before `(s, n)` below `n` are those before `(s + 1, 0)`. */
  lemma NextRow(cand: Candidates, n: nat, s: nat, best: Option<Fields>, score: nat)
    requires s < n
    requires SearchState(cand, n, s, n, best, score)
    ensures SearchState(cand, n, s + 1, 0, best, score)
  {
    assert forall s': nat, e': nat :: e' < n ==> (Before(s', e', s + 1, 0) <==> Before(s', e', s, n));
    match best
    case None =>
    case Some(f) =>
      var bs: nat, be: nat :| Leader(cand, n, s, n, f, score, bs, be);
      assert Leader(cand, n, s + 1, 0, f, score, bs, be);
  }

  /** A pair with a strictly greater score of at least the threshold becomes the leader. */
  lemma TakeCandidate(cand: Candidates, n: nat, s: nat, e: nat, best: Option<Fields>, score: nat)
    requires s < n && e < n
    requires CandScore(cand, s, e) >= Threshold && CandScore(cand, s, e) > score
    requires SearchState(cand, n, s, e, best, score)
    ensures SearchState(cand, n, s, e + 1, cand(s, e), CandScore(cand, s, e))
  {
    var sc := CandScore(cand, s, e);
    assert forall s': nat, e': nat :: Before(s', e', s, e + 1) ==> Before(s', e', s, e) || (s' == s && e' == e);
    assert Leader(cand, n, s, e + 1, cand(s, e).value, sc, s, e);
  }

  /** Any other pair leaves the leader in place. */
  lemma KeepBest(cand: Candidates, n: nat, s: nat, e: nat, best: Option<Fields>, score: nat)
    requires s < n && e < n
    requires !(CandScore(cand, s, e) >= Threshold && CandScore(cand, s, e) > score)
    requires best.None? ==> score == 0
    requires SearchState(cand, n, s, e, best, score)
    ensures SearchState(cand, n, s, e + 1, best, score)
  {
    assert forall s': nat, e': nat :: Before(s', e', s, e + 1) ==> Before(s', e', s, e) || (s' == s && e' == e);
    match best
    case None =>
    case Some(f) =>
      var bs: nat, be: nat :| Leader(cand, n, s, e, f, score, bs, be);
      assert Leader(cand, n, s, e + 1, f, score, bs, be);
  }

  /** The exhaustive phase yields the first pair reaching the maximal score, if that score is at least 2. */
  lemma ExhaustiveBestIsFirstMaximal(load: Loader, t: string)
    ensures FirstMaximal(PairCandidates(load, t), |t|, ExhaustiveBest(load, t))
  {
    SearchIsFirstMaximal(PairCandidates(load, t), |t|, 0, 0, None, 0);
  }

  /**
   * The nested loops of the exhaustive phase over the start and end positions. `best` is
   * only replaced on a strictly greater score of at least the threshold.
   */
  method ExhaustiveSearch(t: string, load: Loader) returns (best: Option<Fields>, bestScore: nat)
    ensures best == ExhaustiveBest(load, t)
    ensures best.Some? ==> KeyScore(best.value) == bestScore >= Threshold
    ensures best.None? ==> bestScore == 0
  {
    best, bestScore := None, 0;
    var s := 0;
    while s < |t|
      invariant s <= |t|
      invariant best.Some? ==> KeyScore(best.value) == bestScore >= Threshold
      invariant best.None? ==> bestScore == 0
      invariant Search(PairCandidates(load, t), |t|, s, 0, best, bestScore) == Search(PairCandidates(load, t), |t|, 0, 0, None, 0)
    {
      best, bestScore := ScanEnds(t, load, s, best, bestScore);
      s := s + 1;
    }
  }

  /** The inner loop of the exhaustive phase: every end position for the start position `s`. */
  method ScanEnds(t: string, load: Loader, s: nat, best0: Option<Fields>, score0: nat)
    returns (best: Option<Fields>, bestScore: nat)
    requires s < |t|
    requires best0.Some? ==> KeyScore(best0.value) == score0 >= Threshold
    requires best0.None? ==> score0 == 0
    ensures best.Some? ==> KeyScore(best.value) == bestScore >= Threshold
    ensures best.None? ==> bestScore == 0
    ensures Search(PairCandidates(load, t), |t|, s + 1, 0, best, bestScore)
         == Search(PairCandidates(load, t), |t|, s, 0, best0, score0)
  {
    ghost var cand := PairCandidates(load, t);
    best, bestScore := best0, score0;
    if t[s] != '{' {
      SkipNonOpening(cand, |t|, s, 0, best, bestScore);
      return;
    }
    var e := 0;
    while e < |t|
      invariant e <= |t|
      invariant best.Some? ==> KeyScore(best.value) == bestScore >= Threshold
      invariant best.None? ==> bestScore == 0
      invariant Search(cand, |t|, s, e, best, bestScore) == Search(cand, |t|, s, 0, best0, score0)
    {
      best, bestScore := ConsiderPair(t, load, s, e, best, bestScore);
      e := e + 1;
    }
    RowEnd(cand, |t|, s, best, bestScore);
  }

  /** A finished row hands over to the next start position. */
  lemma RowEnd(cand: Candidates, n: nat, s: nat, best: Option<Fields>, score: nat)
    requires s < n
    requires best.Some? ==> KeyScore(best.value) == score >= Threshold
    requires best.None? ==> score == 0
    ensures Search(cand, n, s, n, best, score) == Search(cand, n, s + 1, 0, best, score)
  {
  }

  /** The body of the inner loop: the pair `(s, e)` replaces the best on a strictly greater score. */
  method ConsiderPair(t: string, load: Loader, s: nat, e: nat, best0: Option<Fields>, score0: nat)
    returns (best: Option<Fields>, bestScore: nat)
    requires s < |t| && e < |t|
    requires best0.Some? ==> KeyScore(best0.value) == score0 >= Threshold
    requires best0.None? ==> score0 == 0
    ensures best.Some? ==> KeyScore(best.value) == bestScore >= Threshold
    ensures best.None? ==> bestScore == 0
    ensures Search(PairCandidates(load, t), |t|, s, e + 1, best, bestScore)
         == Search(PairCandidates(load, t), |t|, s, e, best0, score0)
  {
    ghost var cand := PairCandidates(load, t);
    best, bestScore := best0, score0;
    if t[e] == '}' && e > s && t[s] == '{' {
      var candidate := load(t[s..e + 1]);
      assert cand(s, e) == candidate;
      if candidate.Some? {
        var score := KeyScore(candidate.value);
        if score >= Threshold && score > bestScore {
          best, bestScore := candidate, score;
        }
      }
    } else {
      assert cand(s, e) == None;
    }
  }

  /** A start position that yields no candidate leaves the search state as it is. */
  lemma {:induction false} SkipNonOpening(cand: Candidates, n: nat, s: nat, e: nat, best: Option<Fields>, score: nat)
    requires s < n && e <= n
    requires forall e': nat :: cand(s, e') == None
    requires best.Some? ==> KeyScore(best.value) == score >= Threshold
    requires best.None? ==> score == 0
    decreases n - e
    ensures Search(cand, n, s, e, best, score) == Search(cand, n, s + 1, 0, best, score)
  {
    if e < n {
      SkipNonOpening(cand, n, s, e + 1, best, score);
    }
  }

  // ---------------------------------------- phase 3: permissive-regex groups

  /**
   * Closing brace of a permissive group whose body starts at `k`:
   * plain characters are skipped, one level of nested group is allowed, and the
   * first closing brace at the outer level ends the group.
   */
  function GroupClose(t: string, k: nat): (r: Option<nat>)
    decreases |t| - k
    ensures r.Some? ==> k <= r.value < |t| && t[r.value] == '}'
  {
    if k >= |t| then None
    else if t[k] == '}' then Some(k)
    else if t[k] == '{' then
      match CloseBefore(t, k + 1, '}', '{')
      case Some(m) => GroupClose(t, m + 1)
      case None => None
    else GroupClose(t, k + 1)
  }

  /** `re.findall` of the permissive group pattern from position `i`: non-overlapping, left to right. */
  function Groups(t: string, i: nat): (gs: seq<(nat, nat)>)
    decreases |t| - i
    ensures forall k :: 0 <= k < |gs| ==> i <= gs[k].0 && IsPair(t, gs[k].0, gs[k].1)
  {
    if i >= |t| then []
    else if t[i] == '{' then
      match GroupClose(t, i + 1)
      case Some(e) => [(i, e)] + Groups(t, e + 1)
      case None => Groups(t, i + 1)
    else Groups(t, i + 1)
  }

  /** The groups tried from the last one backwards; the first accepted one wins. */
  function LastAccepted(load: Loader, t: string, gs: seq<(nat, nat)>): (r: Option<Fields>)
    requires forall k :: 0 <= k < |gs| ==> IsPair(t, gs[k].0, gs[k].1)
    ensures r.Some? ==> KeyScore(r.value) >= Threshold
  {
    if gs == [] then None
    else
      var g := gs[|gs| - 1];
      assert IsPair(t, g.0, g.1);
      if Accepts(load, t[g.0..g.1 + 1]) then load(t[g.0..g.1 + 1])
      else LastAccepted(load, t, gs[..|gs| - 1])
  }

  // ------------------------------------------ phase 4: backward brace walk

  /**
   * The backward loop from index `i` with `count` unmatched closing braces: the index of
   * the opening brace that brings the count back to zero, if any.
   */
  function WalkBack(t: string, i: int, count: int): (r: Option<nat>)
    requires -1 <= i < |t|
    decreases i + 1
    ensures r.Some? ==> r.value <= i && t[r.value] == '{'
  {
    if i < 0 then None
    else if t[i] == '}' then WalkBack(t, i - 1, count + 1)
    else if t[i] == '{' then (if count - 1 == 0 then Some(i) else WalkBack(t, i - 1, count - 1))
    else WalkBack(t, i - 1, count)
  }

  /** Closing minus opening braces in `t[k..last]`, both ends included. */
  function Excess(t: string, k: nat, last: nat): int
    requires k <= last + 1 <= |t|
    decreases last + 1 - k
  {
    if k == last + 1 then 0
    else Excess(t, k + 1, last) + (if t[k] == '}' then 1 else if t[k] == '{' then -1 else 0)
  }

  /**
   * The backward loop of the last phase: from the last closing brace it counts brace
   * depth down to the opening brace that balances it; `startPos` stays at `last` when
   * there is none.
   */
  method BackwardScan(t: string, last: nat) returns (startPos: nat)
    requires last < |t| && t[last] == '}'
    ensures startPos == (match WalkBack(t, last, 0) case Some(s) => s case None => last)
    ensures startPos < last ==>
      && t[startPos] == '{'
      && Excess(t, startPos, last) == 0
      && forall k: nat :: startPos < k <= last ==> Excess(t, k, last) > 0
    ensures startPos == last ==> forall k: nat :: k <= last ==> Excess(t, k, last) > 0
  {
    var braceCount := 0;
    startPos := last;
    var i: int := last;
    while i >= 0
      invariant -1 <= i <= last
      invariant braceCount == Excess(t, i + 1, last)
      invariant i < last ==> braceCount > 0
      invariant forall k: nat :: i < k <= last ==> Excess(t, k, last) > 0
      invariant WalkBack(t, i, braceCount) == WalkBack(t, last, 0)
    {
      if t[i] == '}' {
        braceCount := braceCount + 1;
      } else if t[i] == '{' {
        braceCount := braceCount - 1;
        if braceCount == 0 {
          startPos := i;
          return;
        }
      }
      i := i - 1;
    }
  }

  function WalkAttempt(load: Loader, t: string): (r: Option<Fields>)
    ensures r.Some? ==> KeyScore(r.value) >= Threshold
  {
    match LastIndex(t, '}')
    case None => None
    case Some(last) =>
      if last == 0 then None
      else match WalkBack(t, last, 0)
        case None => None
        case Some(s) =>
          if s < last && Accepts(load, t[s..last + 1]) then load(t[s..last + 1]) else None
  }

  // ----------------------------------------------------------- the whole

  /** The four phases in order over the cleaned text, `None` when all of them fail. */
  function RecoverCleaned(load: Loader, t: string): (r: Option<Fields>)
    ensures r.Some? ==> KeyScore(r.value) >= Threshold
  {
    var outer := OuterAttempt(load, t);
    if outer.Some? then outer
    else
      var best := ExhaustiveBest(load, t);
      if best.Some? then best
      else
        var grouped := LastAccepted(load, t, Groups(t, 0));
        if grouped.Some? then grouped
        else WalkAttempt(load, t)
  }

  /** `clean_json_response`: `None` for empty text, otherwise the phases over the cleaned text. */
  function Recover(parse: Parser, text: string): (r: Option<Fields>)
    ensures text == [] ==> r.None?
    ensures r.Some? ==> KeyScore(r.value) >= Threshold
  {
    if text == [] then None else RecoverCleaned(Load(parse), Clean(text))
  }

  /** The four phases as the source runs them, one after the other. */
  method RecoverPhases(t: string, load: Loader) returns (r: Option<Fields>)
    ensures r == RecoverCleaned(load, t)
  {
    var outer := OuterPair(t);
    if outer.Some? {
      var parsed := load(t[outer.value.0..outer.value.1 + 1]);
      if parsed.Some? && KeyScore(parsed.value) >= Threshold {
        return parsed;
      }
    }

    var best, _ := ExhaustiveSearch(t, load);
    if best.Some? {
      return best;
    }

    r := TryGroups(t, load);
    if r.Some? {
      return r;
    }
    r := TryWalk(t, load);
  }

  /** The third phase: the permissive groups tried from the last one backwards. */
  method TryGroups(t: string, load: Loader) returns (r: Option<Fields>)
    ensures r == LastAccepted(load, t, Groups(t, 0))
  {
    var groups := Groups(t, 0);
    r := TryBackwards(t, load, groups);
  }

  /** The loop over `reversed(groups)`, returning the first accepted object. */
  method TryBackwards(t: string, load: Loader, groups: seq<(nat, nat)>) returns (r: Option<Fields>)
    requires forall k :: 0 <= k < |groups| ==> IsPair(t, groups[k].0, groups[k].1)
    ensures r == LastAccepted(load, t, groups)
  {
    var k := |groups|;
    assert groups[..k] == groups;
    while k > 0
      invariant k <= |groups|
      invariant LastAccepted(load, t, groups[..k]) == LastAccepted(load, t, groups)
    {
      k := k - 1;
      var g := groups[k];
      assert groups[..k + 1][..k] == groups[..k];
      assert IsPair(t, g.0, g.1);
      var parsed := load(t[g.0..g.1 + 1]);
      if parsed.Some? && KeyScore(parsed.value) >= Threshold {
        return parsed;
      }
    }
    return None;
  }

  /** The fourth phase: the span balanced by the last closing brace. */
  method TryWalk(t: string, load: Loader) returns (r: Option<Fields>)
    ensures r == WalkAttempt(load, t)
  {
    var last := LastIndex(t, '}');
    if last.Some? && last.value > 0 {
      var startPos := BackwardScan(t, last.value);
      if startPos < last.value {
        var parsed := load(t[startPos..last.value + 1]);
        if parsed.Some? && KeyScore(parsed.value) >= Threshold {
          return parsed;
        }
      }
    }
    return None;
  }

  /** `clean_json_response` as the source runs it. */
  method CleanJsonResponse(text: string, parse: Parser) returns (r: Option<Fields>)
    ensures r == Recover(parse, text)
    ensures text == [] ==> r.None?
    ensures r.Some? ==> KeyScore(r.value) >= Threshold
  {
    if text == [] {
      return None;
    }
    r := RecoverPhases(Clean(text), Load(parse));
  }
}

module JsonRecoveryFacts {
  import opened Wrappers
  import opened Json
  import opened JsonRecovery
  import opened Text

  /** An accepted brace pair scores at least the threshold in the exhaustive phase. */
  lemma AcceptedPairScores(load: Loader, t: string, s: nat, e: nat)
    requires IsPair(t, s, e) && Accepts(load, t[s..e + 1])
    ensures CandScore(PairCandidates(load, t), s, e) >= Threshold
  {
  }

  /**
   * The third and fourth phases only ever try brace pairs, which the exhaustive phase has
   * already tried: once it finds nothing, they find nothing either.
   */
  lemma LaterPhasesNeverDecide(load: Loader, t: string)
    requires ExhaustiveBest(load, t).None?
    ensures LastAccepted(load, t, Groups(t, 0)).None?
    ensures WalkAttempt(load, t).None?
  {
    ExhaustiveBestIsFirstMaximal(load, t);
    NoAcceptedGroup(load, t, Groups(t, 0));
    NoAcceptedWalk(load, t);
  }

  lemma NoAcceptedWalk(load: Loader, t: string)
    requires forall s: nat, e: nat :: s < |t| && e < |t| ==> CandScore(PairCandidates(load, t), s, e) < Threshold
    ensures WalkAttempt(load, t).None?
  {
    match LastIndex(t, '}')
    case None =>
    case Some(last) =>
      if last > 0 {
        match WalkBack(t, last, 0)
        case None =>
        case Some(s) =>
          if s < last && Accepts(load, t[s..last + 1]) {
            AcceptedPairScores(load, t, s, last);
            assert false;
          }
      }
  }

  lemma {:induction false} NoAcceptedGroup(load: Loader, t: string, gs: seq<(nat, nat)>)
    requires forall k :: 0 <= k < |gs| ==> IsPair(t, gs[k].0, gs[k].1)
    requires forall s: nat, e: nat :: s < |t| && e < |t| ==> CandScore(PairCandidates(load, t), s, e) < Threshold
    ensures LastAccepted(load, t, gs).None?
  {
    if gs != [] {
      var g := gs[|gs| - 1];
      assert IsPair(t, g.0, g.1);
      if Accepts(load, t[g.0..g.1 + 1]) {
        AcceptedPairScores(load, t, g.0, g.1);
        assert false;
      }
      NoAcceptedGroup(load, t, gs[..|gs| - 1]);
    }
  }

  /** Some brace pair of `t` yields an accepted object. */
  ghost predicate HasAcceptedPair(load: Loader, t: string) {
    exists s: nat, e: nat :: IsPair(t, s, e) && Accepts(load, t[s..e + 1])
  }

  /**
   * Recovery succeeds exactly when the text is non-empty and some brace pair of the cleaned
   * text normalises and parses to an object with at least two of the five main keys.
   */
  lemma RecoverIffAcceptedPair(parse: Parser, text: string)
    ensures Recover(parse, text).Some? <==> text != [] && HasAcceptedPair(Load(parse), Clean(text))
  {
    if text != [] {
      PhasesIffAcceptedPair(Load(parse), Clean(text));
    }
  }

  /** The phases over a cleaned text succeed exactly when some brace pair is accepted. */
  lemma PhasesIffAcceptedPair(load: Loader, t: string)
    ensures RecoverCleaned(load, t).Some? <==> HasAcceptedPair(load, t)
  {
    if HasAcceptedPair(load, t) {
      AcceptedPairRecovers(load, t);
    }
    if RecoverCleaned(load, t).Some? {
      RecoveryHasPair(load, t);
    }
  }

  /** An accepted brace pair makes the exhaustive phase, if it is reached, find something. */
  lemma AcceptedPairRecovers(load: Loader, t: string)
    requires HasAcceptedPair(load, t)
    ensures RecoverCleaned(load, t).Some?
  {
    ExhaustiveBestIsFirstMaximal(load, t);
    var s: nat, e: nat :| IsPair(t, s, e) && Accepts(load, t[s..e + 1]);
    AcceptedPairScores(load, t, s, e);
  }

  /** Whatever phase succeeds, some brace pair was accepted. */
  lemma RecoveryHasPair(load: Loader, t: string)
    requires RecoverCleaned(load, t).Some?
    ensures HasAcceptedPair(load, t)
  {
    match OuterPair(t)
    case Some((s, e)) =>
      if Accepts(load, t[s..e + 1]) {
        assert IsPair(t, s, e);
      } else {
        ExhaustivePairAccepted(load, t);
      }
    case None =>
      ExhaustivePairAccepted(load, t);
  }

  /** When the exhaustive phase decides, a brace pair was accepted. */
  lemma ExhaustivePairAccepted(load: Loader, t: string)
    requires OuterAttempt(load, t).None?
    requires RecoverCleaned(load, t).Some?
    ensures HasAcceptedPair(load, t)
  {
    ExhaustiveBestIsFirstMaximal(load, t);
    if ExhaustiveBest(load, t).None? {
      LaterPhasesNeverDecide(load, t);
      assert false;
    }
    var f := ExhaustiveBest(load, t).value;
    var cand := PairCandidates(load, t);
    var bs: nat, be: nat :| bs < |t| && be < |t| && cand(bs, be) == Some(f) && CandScore(cand, bs, be) >= Threshold;
    assert IsPair(t, bs, be);
  }

  /**
   * When the outermost span is not accepted, the result is the object of the first pair, in
   * order of start then end position, whose main-key score is maximal (and at least two).
   */
  lemma RecoverFirstMaximal(parse: Parser, text: string)
    requires text != []
    requires OuterAttempt(Load(parse), Clean(text)).None?
    ensures FirstMaximal(PairCandidates(Load(parse), Clean(text)), |Clean(text)|, Recover(parse, text))
  {
    var load, t := Load(parse), Clean(text);
    ExhaustiveBestIsFirstMaximal(load, t);
    if ExhaustiveBest(load, t).None? {
      LaterPhasesNeverDecide(load, t);
    }
  }
}
