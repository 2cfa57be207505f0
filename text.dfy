/**
 * Character classes and string operations shared by the scanners: Python's
 * whitespace test, `str.strip`, `str.lower`, substring search and `str.split`.
 */
module Text {
  import opened Wrappers

  /** Python's `str.isspace`, which is also what `\s` matches in a `str` pattern. */
  predicate IsSpace(c: char) {
    || c == ' '
    || ('\t' <= c <= '\r')
    || ('\U{1c}' <= c <= '\U{1f}')
    || c == '\U{85}' || c == '\U{a0}' || c == '\U{1680}'
    || ('\U{2000}' <= c <= '\U{200a}')
    || c == '\U{2028}' || c == '\U{2029}' || c == '\U{202f}' || c == '\U{205f}' || c == '\U{3000}'
  }

  predicate IsDigit(c: char) {
    '0' <= c <= '9'
  }

  /** A character `\w` matches (ASCII part). */
  predicate IsWordChar(c: char) {
    IsDigit(c) || ('a' <= c <= 'z') || ('A' <= c <= 'Z') || c == '_'
  }

  /** Every character of `s` is a digit. */
  predicate AllDigits(s: string) {
    forall i :: 0 <= i < |s| ==> IsDigit(s[i])
  }

  function DigitValue(c: char): (d: nat)
    requires IsDigit(c)
    ensures d < 10
  {
    (c - '0') as nat
  }

  /** The number a run of decimal digits denotes. */
  function DigitsValue(s: string): (n: nat)
    requires AllDigits(s)
    decreases |s|
  {
    if s == [] then 0 else DigitsValue(s[..|s| - 1]) * 10 + DigitValue(s[|s| - 1])
  }

  function LowerChar(c: char): char {
    if 'A' <= c <= 'Z' then (c - 'A' + 'a') as char else c
  }

  /** `str.lower` on ASCII letters. */
  function Lower(s: string): (r: string)
    ensures |r| == |s|
    ensures forall i :: 0 <= i < |s| ==> r[i] == LowerChar(s[i])
  {
    seq(|s|, i requires 0 <= i < |s| => LowerChar(s[i]))
  }

  /** `w` occurs in `s` starting at index `i`. */
  predicate OccursAt(s: string, w: string, i: nat) {
    i + |w| <= |s| && s[i..i + |w|] == w
  }

  /** Python's `w in s`. */
  predicate Contains(s: string, w: string) {
    exists i: nat :: i <= |s| && OccursAt(s, w, i)
  }

  /** The first index at or after `from` where `w` occurs. */
  function FindFrom(s: string, w: string, from: nat): (r: Option<nat>)
    decreases |s| - from
    ensures r.Some? ==> from <= r.value && OccursAt(s, w, r.value)
    ensures r.Some? ==> forall j :: from <= j < r.value ==> !OccursAt(s, w, j)
    ensures r.None? ==> forall j :: from <= j ==> !OccursAt(s, w, j)
  {
    if from + |w| > |s| then None
    else if OccursAt(s, w, from) then Some(from)
    else FindFrom(s, w, from + 1)
  }

  /** The leading whitespace of `s` removed (`str.lstrip`). */
  function TrimLeft(s: string): (r: string)
    decreases |s|
    ensures |r| <= |s| && r == s[|s| - |r|..]
    ensures r == [] || !IsSpace(r[0])
  {
    if s != [] && IsSpace(s[0]) then TrimLeft(s[1..]) else s
  }

  /** The trailing whitespace of `s` removed (`str.rstrip`). */
  function TrimRight(s: string): (r: string)
    decreases |s|
    ensures |r| <= |s|
    ensures r == [] || !IsSpace(r[|r| - 1])
  {
    if s != [] && IsSpace(s[|s| - 1]) then TrimRight(s[..|s| - 1]) else s
  }

  lemma {:induction false} TrimRightPrefix(s: string)
    decreases |s|
    ensures TrimRight(s) == s[..|TrimRight(s)|]
  {
    if s != [] && IsSpace(s[|s| - 1]) {
      TrimRightPrefix(s[..|s| - 1]);
    }
  }

  /** `str.strip`. */
  function Strip(s: string): string {
    TrimRight(TrimLeft(s))
  }

  /** A stripped string neither starts nor ends with whitespace. */
  lemma StripEnds(s: string)
    ensures var r := Strip(s); r == [] || (!IsSpace(r[0]) && !IsSpace(r[|r| - 1]))
  {
    var l := TrimLeft(s);
    var r := TrimRight(l);
    if r != [] {
      TrimRightPrefix(l);
      assert r[0] == l[0];
    }
  }

  /** The characters of `s` that are not whitespace, in order: what whitespace edits must keep. */
  function Visible(s: string): (r: string)
    decreases |s|
    ensures |r| <= |s|
  {
    if s == [] then [] else (if IsSpace(s[0]) then [] else [s[0]]) + Visible(s[1..])
  }

  lemma VisibleCons(c: char, s: string)
    ensures Visible([c] + s) == (if IsSpace(c) then [] else [c]) + Visible(s)
  {
    assert ([c] + s)[1..] == s;
  }

  lemma {:induction false} VisibleAppend(a: string, b: string)
    ensures Visible(a + b) == Visible(a) + Visible(b)
    decreases |a|
  {
    if a == [] {
      assert a + b == b;
    } else {
      assert (a + b)[0] == a[0] && (a + b)[1..] == a[1..] + b;
      VisibleAppend(a[1..], b);
    }
  }

  /** Leading whitespace is not visible. */
  lemma {:induction false} VisibleTrimLeft(s: string)
    ensures Visible(TrimLeft(s)) == Visible(s)
    decreases |s|
  {
    if s != [] && IsSpace(s[0]) {
      VisibleTrimLeft(s[1..]);
    }
  }

  /** Trailing whitespace is not visible. */
  lemma {:induction false} VisibleTrimRight(s: string)
    ensures Visible(TrimRight(s)) == Visible(s)
    decreases |s|
  {
    if s != [] && IsSpace(s[|s| - 1]) {
      var init, c := s[..|s| - 1], s[|s| - 1];
      VisibleTrimRight(init);
      assert s == init + [c];
      VisibleAppend(init, [c]);
      VisibleCons(c, []);
      assert [c] + [] == [c];
    }
  }

  /** Stripping keeps every visible character. */
  lemma VisibleStrip(s: string)
    ensures Visible(Strip(s)) == Visible(s)
  {
    VisibleTrimLeft(s);
    VisibleTrimRight(TrimLeft(s));
  }

  // ------------------------------------------------------------ words and lines

  /** What separates the pieces of a text: any whitespace (words), or line breaks (lines). */
  datatype Separator = Whitespace | LineBreak

  predicate Separates(sep: Separator, c: char) {
    match sep
    case Whitespace => IsSpace(c)
    case LineBreak => c == '\n'
  }

  /**
   * The characters of `s` that are not separators, in order, each flagged with whether a
   * separator comes before it; `pending` is the flag for the first one. Two texts with
   * the same layout split into the same pieces.
   */
  function Layout(s: string, sep: Separator, pending: bool): (l: seq<(char, bool)>)
    decreases |s|
    ensures |l| <= |s|
  {
    if s == [] then []
    else if Separates(sep, s[0]) then Layout(s[1..], sep, true)
    else [(s[0], pending)] + Layout(s[1..], sep, false)
  }

  /** `r` and `s` have the same layout, whatever comes before them. */
  predicate SameLayout(r: string, s: string, sep: Separator) {
    Layout(r, sep, false) == Layout(s, sep, false) && Layout(r, sep, true) == Layout(s, sep, true)
  }

  /** Flagged characters gathered into pieces: a flag starts a new piece. */
  function Group(l: seq<(char, bool)>): (g: seq<string>)
    decreases |l|
    ensures g == [] <==> l == []
  {
    if l == [] then []
    else
      var rest := Group(l[1..]);
      if |l| == 1 || l[1].1 then [[l[0].0]] + rest
      else [[l[0].0] + rest[0]] + rest[1..]
  }

  /** `str.split()`: the maximal runs of non-whitespace characters. */
  function Words(s: string): seq<string> {
    Group(Layout(s, Whitespace, false))
  }

  /** The non-empty lines of `s`, in order. */
  function Lines(s: string): seq<string> {
    Group(Layout(s, LineBreak, false))
  }

  /** Whether a separator precedes the first piece does not change the pieces. */
  lemma GroupIgnoresPending(s: string, sep: Separator)
    ensures Group(Layout(s, sep, true)) == Group(Layout(s, sep, false))
  {
  }

  /** Leading whitespace only sets the flag of the first piece. */
  lemma {:induction false} LayoutTrimLeft(s: string)
    decreases |s|
    ensures Layout(TrimLeft(s), Whitespace, true) == Layout(s, Whitespace, true)
  {
    if s != [] && IsSpace(s[0]) {
      LayoutTrimLeft(s[1..]);
    }
  }

  /** Separators at the end of a text add nothing to its layout. */
  lemma {:induction false} LayoutTrailing(a: string, b: string, sep: Separator, pending: bool)
    requires forall k :: 0 <= k < |b| ==> Separates(sep, b[k])
    decreases |a| + |b|
    ensures Layout(a + b, sep, pending) == Layout(a, sep, pending)
  {
    if a == [] {
      assert a + b == b;
      if b != [] {
        LayoutTrailing([], b[1..], sep, true);
        assert [] + b[1..] == b[1..];
      }
    } else {
      assert (a + b)[0] == a[0] && (a + b)[1..] == a[1..] + b;
      LayoutTrailing(a[1..], b, sep, true);
      LayoutTrailing(a[1..], b, sep, false);
    }
  }

  /** Trailing whitespace adds nothing to the layout. */
  lemma {:induction false} LayoutTrimRight(s: string, pending: bool)
    decreases |s|
    ensures Layout(TrimRight(s), Whitespace, pending) == Layout(s, Whitespace, pending)
  {
    if s != [] && IsSpace(s[|s| - 1]) {
      var init := s[..|s| - 1];
      LayoutTrimRight(init, pending);
      assert s == init + [s[|s| - 1]];
      LayoutTrailing(init, [s[|s| - 1]], Whitespace, pending);
    }
  }

  /** Stripping keeps the words. */
  lemma WordsStrip(s: string)
    ensures Words(Strip(s)) == Words(s)
  {
    LayoutTrimRight(TrimLeft(s), false);
    GroupIgnoresPending(TrimLeft(s), Whitespace);
    LayoutTrimLeft(s);
    GroupIgnoresPending(s, Whitespace);
  }

  /** Stripping adds no character: one absent from `s` is absent from `Strip(s)`. */
  lemma StripKeepsOut(s: string, c: char)
    ensures c !in s ==> c !in Strip(s)
  {
    var l := TrimLeft(s);
    assert forall i :: 0 <= i < |l| ==> l[i] == s[|s| - |l| + i];
    TrimRightPrefix(l);
    var r := TrimRight(l);
    assert forall i :: 0 <= i < |r| ==> r[i] == l[i];
  }

  /** Concatenation with `sep` between consecutive parts (`sep.join`). */
  function Join(parts: seq<string>, sep: char): string
    decreases |parts|
  {
    if parts == [] then []
    else if |parts| == 1 then parts[0]
    else parts[0] + [sep] + Join(parts[1..], sep)
  }

  /** Python's `s.split(sep)` for a one-character separator. */
  function Split(s: string, sep: char): (parts: seq<string>)
    decreases |s|
    ensures |parts| >= 1
  {
    if sep !in s then [s]
    else
      var i := IndexOf(s, sep);
      [s[..i]] + Split(s[i + 1..], sep)
  }

  function IndexOf(s: string, c: char): (i: nat)
    requires c in s
    ensures i < |s| && s[i] == c && c !in s[..i]
  {
    if s[0] == c then 0 else 1 + IndexOf(s[1..], c)
  }

  /** Splitting and joining again gives back the text: no character is lost. */
  lemma {:induction false} JoinSplit(s: string, sep: char)
    ensures Join(Split(s, sep), sep) == s
    decreases |s|
  {
    if sep in s {
      var i := IndexOf(s, sep);
      var rest := Split(s[i + 1..], sep);
      assert Split(s, sep) == [s[..i]] + rest;
      JoinParts(s[..i], rest, sep);
      JoinSplit(s[i + 1..], sep);
      assert s == s[..i] + [sep] + s[i + 1..];
    }
  }

  /** Joining a first part in front of other parts puts a separator between them. */
  lemma JoinParts(first: string, rest: seq<string>, sep: char)
    requires rest != []
    ensures Join([first] + rest, sep) == first + [sep] + Join(rest, sep)
  {
    assert ([first] + rest)[1..] == rest;
  }

  /** A separator between two texts splits them apart: the lines of each stay as they are. */
  lemma {:induction false} SplitAppend(a: string, b: string, sep: char)
    ensures Split(a + [sep] + b, sep) == Split(a, sep) + Split(b, sep)
    decreases |a|
  {
    if sep !in a {
      SplitAppendLast(a, b, sep);
    } else {
      var i := IndexOf(a, sep);
      SplitAppend(a[i + 1..], b, sep);
      SplitAppendFirst(a, b, sep, i);
    }
  }

  lemma SplitAppendLast(a: string, b: string, sep: char)
    requires sep !in a
    ensures Split(a + [sep] + b, sep) == Split(a, sep) + Split(b, sep)
  {
    var x := a + [sep] + b;
    assert x[..|a|] == a && x[|a| + 1..] == b;
    SplitAt(x, sep, |a|);
  }

  lemma SplitAppendFirst(a: string, b: string, sep: char, i: nat)
    requires i < |a| && a[i] == sep && sep !in a[..i]
    requires Split(a[i + 1..] + [sep] + b, sep) == Split(a[i + 1..], sep) + Split(b, sep)
    ensures Split(a + [sep] + b, sep) == Split(a, sep) + Split(b, sep)
  {
    SplitJoinedAt(a, b, sep, i);
    SplitAt(a, sep, i);
    Regroup(a[..i], Split(a[i + 1..], sep), Split(b, sep), Split(a + [sep] + b, sep), Split(a, sep));
  }

  lemma Regroup(h: string, p: seq<string>, q: seq<string>, x: seq<string>, y: seq<string>)
    requires x == [h] + (p + q) && y == [h] + p
    ensures x == y + q
  {
  }

  /** The first piece of `a + [sep] + b` when `a` holds a separator at `i`. */
  lemma SplitJoinedAt(a: string, b: string, sep: char, i: nat)
    requires i < |a| && a[i] == sep && sep !in a[..i]
    ensures Split(a + [sep] + b, sep) == [a[..i]] + Split(a[i + 1..] + [sep] + b, sep)
  {
    var x := a + [sep] + b;
    assert x[..i] == a[..i];
    assert x[i + 1..] == a[i + 1..] + [sep] + b;
    SplitAt(x, sep, i);
  }

  /** Splitting at the first separator, found at `i`. */
  lemma SplitAt(s: string, sep: char, i: nat)
    requires i < |s| && s[i] == sep && sep !in s[..i]
    ensures Split(s, sep) == [s[..i]] + Split(s[i + 1..], sep)
  {
    IndexOfFirst(s, sep, i);
  }

  /** The first occurrence is the one `IndexOf` finds. */
  lemma IndexOfFirst(s: string, c: char, j: nat)
    requires j < |s| && s[j] == c && c !in s[..j]
    ensures c in s && IndexOf(s, c) == j
  {
    assert s[j] in s;
  }
}

