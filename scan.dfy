/**
 * `re.finditer` over a deterministic pattern: the matches left to right, each search
 * resuming where the previous match ended. The price, date and tag scanners are all
 * instances of it.
 */
module Scan {
  import opened Wrappers

  /** One match: where it starts, where it ends, and what it captured. */
  datatype Match<T> = Match(start: nat, end: nat, value: T)

  /** A pattern on a text: for a start index, what a match there captures and where it ends. */
  type Matcher<T> = nat -> Option<(T, nat)>

  /** Every match on a text of length `n` ends after it starts and within the text. */
  ghost predicate Advances<T>(at: Matcher<T>, n: nat) {
    forall j: nat :: j <= n && at(j).Some? ==> j < at(j).value.1 <= n
  }

  /** No match starts in `[a, b)`. */
  ghost predicate NoneIn<T>(at: Matcher<T>, a: nat, b: nat) {
    forall j: nat :: a <= j < b ==> at(j).None?
  }

  /**
   * `ms` is what `finditer` yields from `i` on a text of length `n`: each element is a
   * match at its start, they come in order without overlapping, and no match starts
   * before the first, between two of them, or after the last.
   */
  ghost predicate IsFindAll<T>(at: Matcher<T>, n: nat, i: nat, ms: seq<Match<T>>) {
    && (forall k :: 0 <= k < |ms| ==> i <= ms[k].start < ms[k].end <= n && at(ms[k].start) == Some((ms[k].value, ms[k].end)))
    && (forall k :: 0 <= k < |ms| - 1 ==> ms[k].end <= ms[k + 1].start)
    && NoneIn(at, i, if ms == [] then n else ms[0].start)
    && (forall k :: 0 <= k < |ms| - 1 ==> NoneIn(at, ms[k].end, ms[k + 1].start))
    && (ms != [] ==> NoneIn(at, ms[|ms| - 1].end, n))
  }

  /** `finditer` from `i`. */
  function FindAll<T>(at: Matcher<T>, n: nat, i: nat): (ms: seq<Match<T>>)
    requires i <= n && Advances(at, n)
    decreases n - i
    ensures IsFindAll(at, n, i, ms)
  {
    if i == n then []
    else match at(i)
      case Some((v, e)) =>
        var rest := FindAll(at, n, e);
        MatchThen(at, n, i, v, e, rest);
        [Match(i, e, v)] + rest
      case None =>
        var rest := FindAll(at, n, i + 1);
        NoMatchThen(at, n, i, rest);
        rest
  }

  /** A match at `i` followed by the matches from where it ends. */
  lemma MatchThen<T>(at: Matcher<T>, n: nat, i: nat, v: T, e: nat, rest: seq<Match<T>>)
    requires i < e <= n && at(i) == Some((v, e)) && IsFindAll(at, n, e, rest)
    ensures IsFindAll(at, n, i, [Match(i, e, v)] + rest)
  {
    var ms := [Match(i, e, v)] + rest;
    assert forall k :: 1 <= k < |ms| ==> ms[k] == rest[k - 1];
    assert ms[0] == Match(i, e, v);
  }

  /** No match at `i`: the matches from `i` are those from `i + 1`. */
  lemma NoMatchThen<T>(at: Matcher<T>, n: nat, i: nat, rest: seq<Match<T>>)
    requires i < n && at(i).None? && IsFindAll(at, n, i + 1, rest)
    ensures IsFindAll(at, n, i, rest)
  {
  }

  /** Matches never run into a later one. */
  lemma {:induction false} EndsBeforeLater<T>(at: Matcher<T>, n: nat, i: nat, ms: seq<Match<T>>, k: nat, l: nat)
    requires IsFindAll(at, n, i, ms) && k < l < |ms|
    ensures ms[k].end <= ms[l].start
    decreases l - k
  {
    if l > k + 1 {
      EndsBeforeLater(at, n, i, ms, k + 1, l);
    }
  }

  /** After the first match, `finditer` resumes where it ended. */
  lemma FindAllTail<T>(at: Matcher<T>, n: nat, i: nat, ms: seq<Match<T>>)
    requires IsFindAll(at, n, i, ms) && ms != []
    ensures IsFindAll(at, n, ms[0].end, ms[1..])
  {
    var rest := ms[1..];
    assert forall k :: 0 <= k < |rest| ==> rest[k] == ms[k + 1];
    forall k | 0 <= k < |rest|
      ensures ms[0].end <= rest[k].start
    {
      EndsBeforeLater(at, n, i, ms, 0, k + 1);
    }
    if rest != [] {
      assert NoneIn(at, ms[0].end, ms[1].start);
    }
  }

  /** A match at `i` is the first thing `finditer` from `i` yields. */
  lemma FirstMatchAt<T>(at: Matcher<T>, n: nat, i: nat, ms: seq<Match<T>>)
    requires i < n && at(i).Some? && IsFindAll(at, n, i, ms)
    ensures ms != [] && ms[0] == Match(i, at(i).value.1, at(i).value.0)
  {
  }

  /** No match at `i`: `finditer` from `i` yields what it yields from `i + 1`. */
  lemma SkipNoMatch<T>(at: Matcher<T>, n: nat, i: nat, ms: seq<Match<T>>)
    requires i < n && at(i).None? && IsFindAll(at, n, i, ms)
    ensures IsFindAll(at, n, i + 1, ms)
  {
    if ms != [] {
      assert ms[0].start != i;
    }
  }

  /** Two sequences that both fit the description of `finditer` from `i` are the same. */
  lemma {:induction false} FindAllDetermined<T>(at: Matcher<T>, n: nat, i: nat, ms: seq<Match<T>>, ns: seq<Match<T>>)
    requires i <= n && IsFindAll(at, n, i, ms) && IsFindAll(at, n, i, ns)
    ensures ms == ns
    decreases n - i
  {
    if i == n {
    } else if at(i).Some? {
      FirstMatchAt(at, n, i, ms);
      FirstMatchAt(at, n, i, ns);
      FindAllTail(at, n, i, ms);
      FindAllTail(at, n, i, ns);
      FindAllDetermined(at, n, ms[0].end, ms[1..], ns[1..]);
      assert ms == [ms[0]] + ms[1..];
      assert ns == [ns[0]] + ns[1..];
    } else {
      SkipNoMatch(at, n, i, ms);
      SkipNoMatch(at, n, i, ns);
      FindAllDetermined(at, n, i + 1, ms, ns);
    }
  }

  /** `finditer` is determined by its description: any sequence with those properties is it. */
  lemma FindAllUnique<T>(at: Matcher<T>, n: nat, i: nat, ms: seq<Match<T>>)
    requires i <= n && Advances(at, n) && IsFindAll(at, n, i, ms)
    ensures ms == FindAll(at, n, i)
  {
    FindAllDetermined(at, n, i, ms, FindAll(at, n, i));
  }

  /** What the matches captured, in order. */
  function Values<T>(ms: seq<Match<T>>): (vs: seq<T>)
    ensures |vs| == |ms|
    ensures forall k :: 0 <= k < |ms| ==> vs[k] == ms[k].value
  {
    seq(|ms|, k requires 0 <= k < |ms| => ms[k].value)
  }
}
