/**
 * The template tag balance checker (`tmp_tag_check.py`): it reads the
 * `{% if %}`, `{% for %}`, `{% block %}`, `{% elif %}`, `{% else %}` and
 * `{% end... %}` tags of a template line by line, keeps the open constructs on a
 * stack, reports orphans, branches outside an `if` and mismatched closers, and
 * finally lists the constructs left open or says that all is balanced.
 */
module TagCheck {
  import opened Wrappers
  import opened Text
  import opened PatternExtractor
  import opened Scan

  // ------------------------------------------------------------- scanning

  datatype Construct = If | For | Block

  datatype Branch = Elif | Else

  /** The tag a match recognises. */
  datatype Kind = Open(construct: Construct) | Middle(branch: Branch) | Close(closes: Construct)

  function Keyword(k: Kind): string {
    match k
    case Open(If) => "if"
    case Open(For) => "for"
    case Open(Block) => "block"
    case Middle(Elif) => "elif"
    case Middle(Else) => "else"
    case Close(If) => "endif"
    case Close(For) => "endfor"
    case Close(Block) => "endblock"
  }

  /** The alternatives of the tag group, in the pattern's order. */
  const Alternatives: seq<Kind> :=
    [Open(If), Open(For), Open(Block), Middle(Elif), Middle(Else), Close(If), Close(For), Close(Block)]

  /**
   * The end of `(.*?)%}` from `c`: just after the first `%}`, provided no line
   * break comes before it (`.` does not match one).
   */
  function CloseEnd(s: string, c: nat): (r: Option<nat>)
    requires c <= |s|
    decreases |s| - c
    ensures r.Some? ==> c + 2 <= r.value <= |s| && OccursAt(s, "%}", r.value - 2)
    ensures r.Some? ==> forall k :: c <= k < r.value - 2 ==> s[k] != '\n' && !OccursAt(s, "%}", k)
  {
    if OccursAt(s, "%}", c) then Some(c + 2)
    else if c < |s| && s[c] != '\n' then CloseEnd(s, c + 1)
    else None
  }

  /**
   * The first alternative from index `a` on that matches at `w`, followed by a
   * word boundary and the rest of the tag, with the end of the match.
   */
  function AlternativeAt(s: string, w: nat, a: nat): (r: Option<(Kind, nat)>)
    requires w <= |s| && a <= |Alternatives|
    decreases |Alternatives| - a
    ensures r.Some? ==> w < r.value.1 <= |s|
  {
    if a == |Alternatives| then None
    else
      var k := Alternatives[a];
      var e := w + |Keyword(k)|;
      if OccursAt(s, Keyword(k), w) && BoundaryAfter(s, e) && CloseEnd(s, e).Some? then
        Some((k, CloseEnd(s, e).value))
      else AlternativeAt(s, w, a + 1)
  }

  /** The tag pattern matched at `i`: `{%`, any whitespace, then one of the keywords. */
  function TagAt(s: string, i: nat): (r: Option<(Kind, nat)>)
    requires i <= |s|
    ensures r.Some? ==> i < r.value.1 <= |s|
  {
    if OccursAt(s, "{%", i) then AlternativeAt(s, SpaceRunEnd(s, i + 2), 0) else None
  }

  /** The tag pattern as a matcher on `s`. */
  function TagMatcher(s: string): (at: Matcher<Kind>)
    ensures Advances(at, |s|)
    ensures forall j: nat :: j <= |s| ==> at(j) == TagAt(s, j)
  {
    (j: nat) => if j <= |s| then TagAt(s, j) else None
  }

  /**
   * `finditer` of the tag pattern over `s` from `i`: every element is a tag match at
   * its start, they come left to right without overlapping, and no tag match starts
   * in the gaps before, between or after them.
   */
  function TagMatches(s: string, i: nat): (ms: seq<Match<Kind>>)
    requires i <= |s|
    ensures IsFindAll(TagMatcher(s), |s|, i, ms)
    ensures forall k :: 0 <= k < |ms| ==> TagAt(s, ms[k].start) == Some((ms[k].value, ms[k].end))
  {
    FindAll(TagMatcher(s), |s|, i)
  }

  /** The tags of one line, in order: one per match of `TagMatches`. */
  function Tags(line: string): (tags: seq<Kind>)
    ensures |tags| == |TagMatches(line, 0)|
    ensures forall k :: 0 <= k < |tags| ==> tags[k] == TagMatches(line, 0)[k].value
  {
    Values(TagMatches(line, 0))
  }

  // -------------------------------------------------------- stack machine

  /** An open construct and the line it was opened on. */
  datatype Opener = Opener(construct: Construct, line: nat)

  datatype Report =
    | Orphan(tag: Kind, line: nat)                       // a branch or closer with nothing open
    | Unexpected(tag: Kind, line: nat, top: Opener)      // a branch whose innermost construct is not an `if`
    | Mismatch(tag: Kind, top: Opener, line: nat)        // a closer for another construct than the innermost

  datatype Verdict = AllBalanced | Unclosed(openers: seq<Opener>)

  /** A tag and the number of its line. */
  datatype Event = Event(kind: Kind, line: nat)

  datatype State = State(stack: seq<Opener>, reports: seq<Report>)

  /**
   * What the checker does with one tag. An opener is pushed with its line; a branch
   * never changes the stack and is reported as an orphan on an empty stack and as
   * unexpected when the innermost construct is not an `if`; a closer on an empty
   * stack is an orphan and leaves it empty; otherwise it pops the innermost opener
   * and is reported as a mismatch exactly when it closes another construct. Reports
   * are only ever appended, at most one per tag.
   */
  function Step(st: State, ev: Event): (r: State)
    ensures ev.kind.Open? ==> r == State(st.stack + [Opener(ev.kind.construct, ev.line)], st.reports)
    ensures ev.kind.Middle? ==> r.stack == st.stack
    ensures ev.kind.Middle? && st.stack == [] ==> r.reports == st.reports + [Orphan(ev.kind, ev.line)]
    ensures ev.kind.Middle? && st.stack != [] ==>
      r.reports == st.reports + (if st.stack[|st.stack| - 1].construct != If then [Unexpected(ev.kind, ev.line, st.stack[|st.stack| - 1])] else [])
    ensures ev.kind.Close? && st.stack == [] ==> r == State([], st.reports + [Orphan(ev.kind, ev.line)])
    ensures ev.kind.Close? && st.stack != [] ==>
      var top := st.stack[|st.stack| - 1];
      r.stack == st.stack[..|st.stack| - 1] &&
      (r.reports == st.reports + [Mismatch(ev.kind, top, ev.line)] <==> ev.kind != Close(top.construct))
    ensures st.reports <= r.reports && |r.reports| <= |st.reports| + 1
  {
    match ev.kind
    case Open(c) => State(st.stack + [Opener(c, ev.line)], st.reports)
    case Middle(_) =>
      if st.stack == [] then State(st.stack, st.reports + [Orphan(ev.kind, ev.line)])
      else if st.stack[|st.stack| - 1].construct != If then
        State(st.stack, st.reports + [Unexpected(ev.kind, ev.line, st.stack[|st.stack| - 1])])
      else st
    case Close(c) =>
      if st.stack == [] then State(st.stack, st.reports + [Orphan(ev.kind, ev.line)])
      else
        var top := st.stack[|st.stack| - 1];
        var rest := st.stack[..|st.stack| - 1];
        if c != top.construct then State(rest, st.reports + [Mismatch(ev.kind, top, ev.line)])
        else State(rest, st.reports)
  }

  /**
   * The checker's state after the events, from `st`: the reports already made are
   * kept, and each event adds at most one.
   */
  function Run(st: State, evs: seq<Event>): (r: State)
    decreases |evs|
    ensures st.reports <= r.reports && |r.reports| <= |st.reports| + |evs|
  {
    if evs == [] then st else Step(Run(st, evs[..|evs| - 1]), evs[|evs| - 1])
  }

  /** The tags of one line as events on line `number`. */
  function Stamp(tags: seq<Kind>, number: nat): seq<Event> {
    seq(|tags|, k requires 0 <= k < |tags| => Event(tags[k], number))
  }

  /**
   * The events of a template: every tag of every line, lines numbered from 1 and
   * taken in order.
   */
  function Events(lines: seq<string>): (evs: seq<Event>)
    decreases |lines|
    ensures forall k :: 0 <= k < |evs| ==> 1 <= evs[k].line <= |lines|
    ensures forall k :: 0 <= k < |evs| - 1 ==> evs[k].line <= evs[k + 1].line
  {
    if lines == [] then [] else Events(lines[..|lines| - 1]) + Stamp(Tags(lines[|lines| - 1]), |lines|)
  }

  function Outcome(stack: seq<Opener>): Verdict {
    if stack == [] then AllBalanced else Unclosed(stack)
  }

  /** Running the events one after the other is running them in two pieces. */
  lemma {:induction false} RunAppend(st: State, a: seq<Event>, b: seq<Event>)
    ensures Run(st, a + b) == Run(Run(st, a), b)
    decreases |b|
  {
    if b != [] {
      var b' := b[..|b| - 1];
      assert (a + b)[..|a + b| - 1] == a + b';
      RunAppend(st, a, b');
    } else {
      assert a + b == a;
    }
  }

  /** The tags of one line, handled in order on a given stack and report list. */
  method CheckLine(stack0: seq<Opener>, reports0: seq<Report>, tags: seq<Kind>, number: nat)
    returns (stack: seq<Opener>, reports: seq<Report>)
    ensures State(stack, reports) == Run(State(stack0, reports0), Stamp(tags, number))
  {
    stack, reports := stack0, reports0;
    for j := 0 to |tags|
      invariant State(stack, reports) == Run(State(stack0, reports0), Stamp(tags[..j], number))
    {
      var tag := tags[j];
      assert Stamp(tags[..j + 1], number)[..j] == Stamp(tags[..j], number);
      match tag {
        case Open(c) =>
          stack := stack + [Opener(c, number)];
        case Middle(_) =>
          if stack == [] {
            reports := reports + [Orphan(tag, number)];
          } else if stack[|stack| - 1].construct != If {
            reports := reports + [Unexpected(tag, number, stack[|stack| - 1])];
          }
        case Close(c) =>
          if stack == [] {
            reports := reports + [Orphan(tag, number)];
          } else {
            var top := stack[|stack| - 1];
            stack := stack[..|stack| - 1];
            if c != top.construct {
              reports := reports + [Mismatch(tag, top, number)];
            }
          }
      }
    }
    assert tags[..|tags|] == tags;
  }

  /** The whole check over the lines of a template. */
  method CheckTemplate(lines: seq<string>) returns (reports: seq<Report>, verdict: Verdict)
    ensures reports == Run(State([], []), Events(lines)).reports
    ensures verdict == Outcome(Run(State([], []), Events(lines)).stack)
  {
    var stack: seq<Opener> := [];
    reports := [];
    for i := 0 to |lines|
      invariant State(stack, reports) == Run(State([], []), Events(lines[..i]))
    {
      assert lines[..i + 1][..i] == lines[..i];
      RunAppend(State([], []), Events(lines[..i]), Stamp(Tags(lines[i]), i + 1));
      stack, reports := CheckLine(stack, reports, Tags(lines[i]), i + 1);
    }
    assert lines[..|lines|] == lines;
    verdict := Outcome(stack);
  }
}

/** The stack discipline of the tag checker. */
module TagCheckFacts {
  import opened Wrappers
  import opened Text
  import opened PatternExtractor
  import opened Scan
  import opened TagCheck

  /** A tag as a template writes it, with one space on either side of the keyword. */
  function TagText(k: Kind): string {
    "{% " + Keyword(k) + " %}"
  }

  /**
   * Every written tag is recognised whole, as the kind it was written for: each earlier
   * alternative of the group differs from its keyword somewhere.
   */
  lemma TagRoundTrip(k: Kind)
    ensures TagAt(TagText(k), 0) == Some((k, |TagText(k)|))
  {
    Found(k);
    AlternativeKeywords();
    if k.Close? {
      SkipBeforeCloser(k);
    } else {
      match k
      case Open(If) =>
      case Open(For) => Skip(k, 0, 0);
      case Open(Block) => Skip(k, 0, 0); Skip(k, 1, 0);
      case Middle(Elif) => Skip(k, 0, 0); Skip(k, 1, 0); Skip(k, 2, 0);
      case Middle(Else) => Skip(k, 0, 0); Skip(k, 1, 0); Skip(k, 2, 0); Skip(k, 3, 2);
    }
  }

  /** The search for a closer's alternative passes over every alternative before it. */
  lemma SkipBeforeCloser(k: Kind)
    requires k.Close?
    ensures AlternativeAt(TagText(k), 3, 0) == AlternativeAt(TagText(k), 3, AlternativeIndex(k))
  {
    AlternativeKeywords();
    Skip(k, 0, 0); Skip(k, 1, 0); Skip(k, 2, 0); Skip(k, 3, 1); Skip(k, 4, 1);
    match k.closes
    case If =>
    case For => Skip(k, 5, 3);
    case Block => Skip(k, 5, 3); Skip(k, 6, 3);
  }

  /** The keywords of the alternatives, in order. */
  lemma AlternativeKeywords()
    ensures Keyword(Alternatives[0]) == "if" && Keyword(Alternatives[1]) == "for" && Keyword(Alternatives[2]) == "block"
    ensures Keyword(Alternatives[3]) == "elif" && Keyword(Alternatives[4]) == "else"
    ensures Keyword(Alternatives[5]) == "endif" && Keyword(Alternatives[6]) == "endfor" && Keyword(Alternatives[7]) == "endblock"
  {
  }

  /** Where a kind stands among the alternatives of the tag group. */
  function AlternativeIndex(k: Kind): (i: nat)
    ensures i < |Alternatives| && Alternatives[i] == k
  {
    match k
    case Open(If) => 0
    case Open(For) => 1
    case Open(Block) => 2
    case Middle(Elif) => 3
    case Middle(Else) => 4
    case Close(If) => 5
    case Close(For) => 6
    case Close(Block) => 7
  }

  /** The alternative a written tag was written for matches it whole. */
  lemma Found(k: Kind)
    ensures TagAt(TagText(k), 0) == AlternativeAt(TagText(k), 3, 0)
    ensures AlternativeAt(TagText(k), 3, AlternativeIndex(k)) == Some((k, |TagText(k)|))
  {
    WrittenTag(k);
  }

  /** How a written tag looks to the scanner: `{%`, a space, the keyword at 3, then ` %}` to the end. */
  lemma WrittenTag(k: Kind)
    ensures var s, e := TagText(k), 3 + |Keyword(k)|;
      && |s| == e + 3 && OccursAt(s, "{%", 0) && SpaceRunEnd(s, 2) == 3
      && OccursAt(s, Keyword(k), 3) && BoundaryAfter(s, e)
      && CloseEnd(s, e) == Some(|s|)
  {
    var kw := Keyword(k);
    assert kw != [] && 'a' <= kw[0] <= 'z';
    WrittenScan(kw);
  }

  /** The scanner's view of `{% kw %}` for any keyword starting with a letter. */
  lemma WrittenScan(kw: string)
    requires kw != [] && 'a' <= kw[0] <= 'z'
    ensures var s, e := "{% " + kw + " %}", 3 + |kw|;
      && |s| == e + 3 && OccursAt(s, "{%", 0) && SpaceRunEnd(s, 2) == 3
      && OccursAt(s, kw, 3) && BoundaryAfter(s, e)
      && CloseEnd(s, e) == Some(|s|)
  {
    var s, e := "{% " + kw + " %}", 3 + |kw|;
    WrittenPieces(kw);
    assert CloseEnd(s, e + 1) == Some(|s|);
  }

  /** Where the pieces of `{% kw %}` sit. */
  lemma WrittenPieces(kw: string)
    requires kw != [] && 'a' <= kw[0] <= 'z'
    ensures var s, e := "{% " + kw + " %}", 3 + |kw|;
      && |s| == e + 3 && s[..2] == "{%" && s[2] == ' ' && s[3] == kw[0] && s[3..e] == kw
      && s[e] == ' ' && s[e + 1..e + 3] == "%}"
  {
    var s, e := "{% " + kw + " %}", 3 + |kw|;
    assert s == ['{', '%', ' '] + kw + [' ', '%', '}'];
  }

  /**
   * Alternative `a` does not match the written form of `k`, since its keyword differs from
   * `k`'s at offset `d`: the search goes on with the next alternative.
   */
  lemma Skip(k: Kind, a: nat, d: nat)
    requires a < |Alternatives| && d < |Keyword(Alternatives[a])| && d < |Keyword(k)|
    requires Keyword(k)[d] != Keyword(Alternatives[a])[d]
    ensures AlternativeAt(TagText(k), 3, a) == AlternativeAt(TagText(k), 3, a + 1)
  {
    var s, kw := TagText(k), Keyword(Alternatives[a]);
    assert s[3 + d] == Keyword(k)[d];
  }

  /** A line holding one written tag yields exactly that tag. */
  lemma TagLineRoundTrip(k: Kind)
    ensures Tags(TagText(k)) == [k]
  {
    var s := TagText(k);
    TagRoundTrip(k);
    var ms := [Match(0, |s|, k)];
    assert IsFindAll(TagMatcher(s), |s|, 0, ms);
    FindAllUnique(TagMatcher(s), |s|, 0, ms);
  }

  /** `a` is a subsequence of `b`: its elements occur in `b` in the same order. */
  predicate IsSubsequence(a: seq<Opener>, b: seq<Opener>)
    decreases |b|
  {
    if a == [] then true
    else if b == [] then false
    else if a[|a| - 1] == b[|b| - 1] then IsSubsequence(a[..|a| - 1], b[..|b| - 1])
    else IsSubsequence(a, b[..|b| - 1])
  }

  lemma {:induction false} SubsequenceDropLast(a: seq<Opener>, b: seq<Opener>)
    requires a != [] && IsSubsequence(a, b)
    ensures IsSubsequence(a[..|a| - 1], b)
    decreases |b|, 0
  {
    var b' := b[..|b| - 1];
    if a[|a| - 1] == b[|b| - 1] {
      SubsequenceExtend(a[..|a| - 1], b', b[|b| - 1]);
      assert b' + [b[|b| - 1]] == b;
    } else {
      SubsequenceDropLast(a, b');
      SubsequenceExtend(a[..|a| - 1], b', b[|b| - 1]);
      assert b' + [b[|b| - 1]] == b;
    }
  }

  lemma {:induction false} SubsequenceExtend(a: seq<Opener>, b: seq<Opener>, x: Opener)
    requires IsSubsequence(a, b)
    ensures IsSubsequence(a, b + [x])
    decreases |b|, 1
  {
    assert (b + [x])[..|b|] == b;
    if a != [] && a[|a| - 1] == x {
      SubsequenceDropLast(a, b);
    }
  }

  /** The openers the events push, in order. */
  function Pushed(evs: seq<Event>): seq<Opener>
    decreases |evs|
  {
    if evs == [] then []
    else
      var ev := evs[|evs| - 1];
      Pushed(evs[..|evs| - 1]) + (if ev.kind.Open? then [Opener(ev.kind.construct, ev.line)] else [])
  }

  /**
   * The openers left on the stack are, in push order, some of the openers
   * pushed: the final listing shows them oldest first.
   */
  lemma {:induction false} StackInPushOrder(st: State, evs: seq<Event>)
    ensures IsSubsequence(Run(st, evs).stack, st.stack + Pushed(evs))
    decreases |evs|
  {
    if evs == [] {
      SubsequenceReflexive(st.stack);
      assert st.stack + [] == st.stack;
    } else {
      var init := evs[..|evs| - 1];
      var ev := evs[|evs| - 1];
      StackInPushOrder(st, init);
      var s := Run(st, init).stack;
      var p := st.stack + Pushed(init);
      match ev.kind {
        case Open(c) =>
          var o := Opener(c, ev.line);
          assert st.stack + Pushed(evs) == p + [o];
          assert (s + [o])[..|s|] == s && (p + [o])[..|p|] == p;
        case Middle(_) =>
          assert st.stack + Pushed(evs) == p;
        case Close(_) =>
          assert st.stack + Pushed(evs) == p;
          if s != [] {
            SubsequenceDropLast(s, p);
          }
      }
    }
  }

  lemma {:induction false} SubsequenceReflexive(a: seq<Opener>)
    ensures IsSubsequence(a, a)
    decreases |a|
  {
    if a != [] {
      SubsequenceReflexive(a[..|a| - 1]);
    }
  }

  function Opens(evs: seq<Event>): nat
    decreases |evs|
  {
    if evs == [] then 0 else Opens(evs[..|evs| - 1]) + (if evs[|evs| - 1].kind.Open? then 1 else 0)
  }

  function Closes(evs: seq<Event>): nat
    decreases |evs|
  {
    if evs == [] then 0 else Closes(evs[..|evs| - 1]) + (if evs[|evs| - 1].kind.Close? then 1 else 0)
  }

  /** The number of closers reported as orphans. */
  function ClosingOrphans(reports: seq<Report>): nat
    decreases |reports|
  {
    if reports == [] then 0
    else
      var r := reports[|reports| - 1];
      ClosingOrphans(reports[..|reports| - 1]) + (if r.Orphan? && r.tag.Close? then 1 else 0)
  }

  /**
   * Every opener grows the stack by one and every closer that is not an
   * orphan shrinks it by one.
   */
  lemma {:induction false} StackCount(st: State, evs: seq<Event>)
    ensures |Run(st, evs).stack| + Closes(evs) + ClosingOrphans(st.reports)
         == |st.stack| + Opens(evs) + ClosingOrphans(Run(st, evs).reports)
    decreases |evs|
  {
    if evs != [] {
      var init := evs[..|evs| - 1];
      var ev := evs[|evs| - 1];
      StackCount(st, init);
      StepCount(Run(st, init), ev);
    }
  }

  /** One tag changes the stack size and the orphan-closer count as `StackCount` says. */
  lemma StepCount(s: State, ev: Event)
    ensures |Step(s, ev).stack| + (if ev.kind.Close? then 1 else 0) + ClosingOrphans(s.reports)
         == |s.stack| + (if ev.kind.Open? then 1 else 0) + ClosingOrphans(Step(s, ev).reports)
  {
    var r := Step(s, ev).reports;
    if r != s.reports {
      assert r[..|r| - 1] == s.reports;
    }
  }

  /**
   * A template reported "All balanced" without an orphan closer has as many
   * openers as closers.
   */
  lemma BalancedCounts(lines: seq<string>)
    requires Run(State([], []), Events(lines)).stack == []
    requires ClosingOrphans(Run(State([], []), Events(lines)).reports) == 0
    ensures Opens(Events(lines)) == Closes(Events(lines))
  {
    StackCount(State([], []), Events(lines));
  }

  /** Earlier reports do not affect the stack: the verdict depends on the tags alone. */
  lemma {:induction false} VerdictIgnoresReports(st: State, reports: seq<Report>, evs: seq<Event>)
    ensures Run(State(st.stack, reports), evs).stack == Run(st, evs).stack
    decreases |evs|
  {
    if evs != [] {
      VerdictIgnoresReports(st, reports, evs[..|evs| - 1]);
    }
  }
}
