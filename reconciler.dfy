/**
 * The two passes over a receipt record produced by a language model: the tax-stamp
 * post-processing (`post_process_timbre_fiscal`), which renames at most one article in
 * place, and the reconciliation with the pattern extractor (`valider_et_corriger_avec_regex`),
 * which fills the date, total and articles only where the record has nothing and always
 * attaches the validation summary.
 */
module Reconciler {
  import opened Wrappers
  import opened Json
  import opened Text
  import opened PatternExtractor

  type Fields = map<string, Value>

  // ---------------------------------------------------- tax-stamp pass

  /** Name keywords that mark an article as the tax stamp. */
  const StampKeywords: seq<string> := ["timbre", "fiscal", "taxe", "stamp"]

  const StampName: string := "TIMBRE FISCAL"

  /** What the loop does with one element of the article list. */
  datatype StampStep =
    | Pass     // not a dictionary, or nothing to do: go on with the next element
    | Stop     // a stamp whose name already says so: break without change
    | Rename   // a stamp: set its name and break
    | Convert  // a "100 DT" stamp: set its price and name and break
    | Fail     // the name is not a string: `.lower()` raises

  /** The `nom` entry of a dictionary element, `""` when it has none. */
  function NameOf(item: Value): Value {
    if item.Obj? then GetOr(item.fields, "nom", Str("")) else Null
  }

  /** The element is a dictionary whose `prix` entry is one of the stamp denominations. */
  predicate HasStampPrice(item: Value) {
    item.Obj? && GetOr(item.fields, "prix", Str("")).Str? && GetOr(item.fields, "prix", Str("")).s in Denominations
  }

  /**
   * The decision the loop body takes for one element. The loop ends without raising
   * exactly at a dictionary with a string name and either a stamp price or a stamp keyword
   * in its name; it leaves such an element alone only when the price is a stamp's and the
   * name already says "timbre" or "fiscal". The "100 DT" conversion is never chosen: its
   * keyword test repeats the one before it, which has already renamed.
   */
  function StampDecision(item: Value): (r: StampStep)
    ensures r != Convert
    ensures !item.Obj? ==> r == Pass
    ensures r == Fail <==> item.Obj? && !NameOf(item).Str?
    ensures r in {Stop, Rename} <==>
      && item.Obj? && NameOf(item).Str?
      && (HasStampPrice(item) || MentionsAny(Lower(NameOf(item).s), StampKeywords))
    ensures r == Stop <==>
      && item.Obj? && NameOf(item).Str? && HasStampPrice(item)
      && (Contains(Lower(NameOf(item).s), "timbre") || Contains(Lower(NameOf(item).s), "fiscal"))
  {
    if !item.Obj? then Pass
    else
      var nom := GetOr(item.fields, "nom", Str(""));
      if !nom.Str? then Fail
      else
        var lowered := Lower(nom.s);
        var prix := GetOr(item.fields, "prix", Str(""));
        if prix.Str? && prix.s in Denominations then
          if !Contains(lowered, "timbre") && !Contains(lowered, "fiscal") then Rename else Stop
        else if MentionsAny(lowered, StampKeywords) then Rename
        else if prix == Str("100 DT") && MentionsAny(lowered, StampKeywords) then Convert
        else Pass
  }

  /** The first element from `i` on whose decision ends the loop, with that decision. */
  function FirstStop(items: seq<Value>, i: nat): (r: Option<(nat, StampStep)>)
    requires i <= |items|
    decreases |items| - i
    ensures r.Some? ==> i <= r.value.0 < |items| && r.value.1 == StampDecision(items[r.value.0]) != Pass
    ensures r.Some? ==> forall j :: i <= j < r.value.0 ==> StampDecision(items[j]) == Pass
    ensures r.None? ==> forall j :: i <= j < |items| ==> StampDecision(items[j]) == Pass
  {
    if i == |items| then None
    else if StampDecision(items[i]) != Pass then Some((i, StampDecision(items[i])))
    else FirstStop(items, i + 1)
  }

  /** The article with the stamp's name. */
  function Renamed(item: Value): Value {
    match item
    case Obj(m) => Obj(m["nom" := Str(StampName)])
    case _ => item
  }

  /** The article with the stamp's name and the 0.100 DT price. */
  function Converted(item: Value): Value {
    match item
    case Obj(m) => Obj(m["prix" := Str("0.100 DT")]["nom" := Str(StampName)])
    case _ => item
  }

  /** The list with element `i` replaced by `change` applied to it. */
  function UpdateAt(items: seq<Value>, i: nat, change: Value -> Value): (r: seq<Value>)
    ensures |r| == |items|
  {
    if i < |items| then items[i := change(items[i])] else items
  }

  /**
   * `post_process_timbre_fiscal` as a function of the record: the new record, or `None`
   * when the pass raises (an article list that cannot be iterated, or a name that is not
   * a string).
   */
  function PostProcessed(f: Fields): (r: Option<Fields>)
    ensures f == map[] || "Articles" !in f ==> r == Some(f)
    ensures r.None? <==>
      && f != map[] && "Articles" in f
      && (|| f["Articles"].Null? || f["Articles"].Bool? || f["Articles"].Num?
          || (f["Articles"].Arr? && FirstStop(f["Articles"].items, 0).Some? && FirstStop(f["Articles"].items, 0).value.1 == Fail))
    ensures r.Some? ==> r.value.Keys == f.Keys
    ensures r.Some? ==> forall k :: k in f && k != "Articles" ==> r.value[k] == f[k]
  {
    if f == map[] then Some(f)
    else match GetOr(f, "Articles", Arr([]))
      case Null => None
      case Bool(_) => None
      case Num(_) => None
      case Str(_) => Some(f)
      case Obj(_) => Some(f)
      case Arr(items) =>
        match FirstStop(items, 0)
        case None => Some(f)
        case Some((i, step)) =>
          match step
          case Fail => None
          case Rename => Some(f["Articles" := Arr(UpdateAt(items, i, Renamed))])
          case Convert => Some(f["Articles" := Arr(UpdateAt(items, i, Converted))])
          case _ => Some(f)
  }

  // ------------------------------------------------------ reconciliation

  function ArticleValue(a: Article): Value {
    Obj(map["nom" := Str(a.name), "prix" := Str(a.price)])
  }

  function ArticleValues(arts: seq<Article>): (vs: seq<Value>)
    ensures |vs| == |arts|
  {
    seq(|arts|, k requires 0 <= k < |arts| => ArticleValue(arts[k]))
  }

  /** The `ValidationRegex` entry: coherence, the items' sum and the detected total. */
  function ValidationValue(r: Extraction): Value {
    Obj(map[
      "total_coherent" := Bool(r.Found? && r.coherent),
      "somme_articles" := Str(if r.Found? then FormatAmount(r.sum) else ""),
      "total_detecte" := Str(TotalText(r))])
  }

  /** The first valid date the extractor found, if any. */
  function RegexDate(r: Extraction): Option<Value> {
    if r.Found? && r.dates != [] then Some(Str(r.dates[0])) else None
  }

  /** The total the extractor found, as its `total` entry, if any. */
  function RegexTotal(r: Extraction): Option<Value> {
    if TotalText(r) != "" then Some(Str(TotalText(r))) else None
  }

  /** The articles the extractor found, as a list of dictionaries, if there are any. */
  function RegexArticles(r: Extraction): Option<Value> {
    if r.Found? && r.articles != [] then Some(Arr(ArticleValues(r.articles))) else None
  }

  /** Sets `key` to the candidate when the record's value there is falsy (or missing). */
  function FillIfFalsy(f: Fields, key: string, candidate: Option<Value>): (g: Fields)
    ensures Truthy(Get(f, key)) || candidate.None? ==> g == f
    ensures !Truthy(Get(f, key)) && candidate.Some? ==> g == f[key := candidate.value]
  {
    if !Truthy(Get(f, key)) && candidate.Some? then f[key := candidate.value] else f
  }

  /** The entries the reconciliation may set. */
  const Reconciles: set<string> := {"Date", "Total", "Articles", "ValidationRegex"}

  /**
   * `valider_et_corriger_avec_regex` as a function of the record and the OCR text: an
   * empty record stays empty; otherwise the validation summary of the extraction is set,
   * no entry is removed, and no entry is added or changed except the date, total and articles.
   */
  function Corrected(f: Fields, ocrText: string): (g: Fields)
    ensures f == map[] ==> g == map[]
    ensures f != map[] ==> f.Keys + {"ValidationRegex"} <= g.Keys <= f.Keys + Reconciles
    ensures f != map[] ==> g["ValidationRegex"] == ValidationValue(Extract(ocrText))
    ensures forall k :: k in f && k !in Reconciles ==> g[k] == f[k]
  {
    Reconciled(f, Extract(ocrText))
  }

  /** The record reconciled with the extractor's result `r`. */
  function Reconciled(f: Fields, r: Extraction): (g: Fields)
    ensures f == map[] ==> g == map[]
    ensures f != map[] ==> f.Keys + {"ValidationRegex"} <= g.Keys <= f.Keys + Reconciles
    ensures f != map[] ==> g["ValidationRegex"] == ValidationValue(r)
    ensures forall k :: k in f && k !in Reconciles ==> g[k] == f[k]
  {
    if f == map[] then f
    else
      var withDate := FillIfFalsy(f, "Date", RegexDate(r));
      var withTotal := FillIfFalsy(withDate, "Total", RegexTotal(r));
      var withArticles := FillIfFalsy(withTotal, "Articles", RegexArticles(r));
      withArticles["ValidationRegex" := ValidationValue(r)]
  }

  // ---------------------------------------------------------- the record

  /** A receipt record, updated in place by the two passes. */
  class ReceiptRecord {
    var fields: Fields

    constructor(f: Fields)
      ensures fields == f
    {
      fields := f;
    }

    /**
     * The tax-stamp pass: the loop over the articles with its first-match `break`.
     * `raised` tells that the source raises; the record is then left as it was.
     */
    method PostProcessStamp() returns (raised: bool)
      modifies this
      ensures raised <==> PostProcessed(old(fields)).None?
      ensures !raised ==> fields == PostProcessed(old(fields)).value
      ensures raised ==> fields == old(fields)
    {
      if fields == map[] {
        return false;
      }
      var articles := GetOr(fields, "Articles", Arr([]));
      if articles.Null? || articles.Bool? || articles.Num? {
        return true;
      }
      if !articles.Arr? {
        return false;
      }
      var items := articles.items;
      var i := 0;
      while i < |items|
        invariant i <= |items|
        invariant fields == old(fields)
        invariant FirstStop(items, i) == FirstStop(items, 0)
      {
        var item := items[i];
        if item.Obj? {
          var nom := GetOr(item.fields, "nom", Str(""));
          if !nom.Str? {
            return true;
          }
          var lowered := Lower(nom.s);
          var prix := GetOr(item.fields, "prix", Str(""));
          if prix.Str? && prix.s in Denominations {
            if !Contains(lowered, "timbre") && !Contains(lowered, "fiscal") {
              fields := fields["Articles" := Arr(items[i := Renamed(item)])];
            }
            return false;
          }
          if MentionsAny(lowered, StampKeywords) {
            fields := fields["Articles" := Arr(items[i := Renamed(item)])];
            return false;
          }
          if prix == Str("100 DT") && MentionsAny(lowered, StampKeywords) {
            // The conversion of a "100 DT" stamp cannot be reached: the keyword test
            // above has already returned on the same names.
            assert false;
          }
        }
        i := i + 1;
      }
      return false;
    }

    /** The reconciliation pass: each entry is assigned in place, in the source's order. */
    method ValidateAndCorrect(ocrText: string)
      modifies this
      ensures fields == Corrected(old(fields), ocrText)
    {
      if fields == map[] {
        return;
      }
      var r := ExtractElements(ocrText);
      Reconcile(r);
    }

    /** The assignments of the reconciliation pass, given the extractor's result. */
    method Reconcile(r: Extraction)
      requires fields != map[]
      modifies this
      ensures fields == Reconciled(old(fields), r)
    {
      ghost var before := fields;
      if !Truthy(Get(fields, "Date")) && r.Found? && r.dates != [] {
        fields := fields["Date" := Str(r.dates[0])];
      }
      assert fields == FillIfFalsy(before, "Date", RegexDate(r));
      ghost var withDate := fields;
      var total := TotalText(r);
      if !Truthy(Get(fields, "Total")) && total != "" {
        fields := fields["Total" := Str(total)];
      }
      assert fields == FillIfFalsy(withDate, "Total", RegexTotal(r));
      ghost var withTotal := fields;
      if !Truthy(Get(fields, "Articles")) && r.Found? && r.articles != [] {
        fields := fields["Articles" := Arr(ArticleValues(r.articles))];
      }
      assert fields == FillIfFalsy(withTotal, "Articles", RegexArticles(r));
      fields := fields["ValidationRegex" := ValidationValue(r)];
    }
  }
}

module ReconcilerFacts {
  import opened Wrappers
  import opened Json
  import opened Text
  import opened PatternExtractor
  import opened Reconciler

  // ---------------------------------------------------- tax-stamp pass

  /** The price an element of the article list carries (`None` for non-dictionaries). */
  function PriceOf(item: Value): Option<Value> {
    if item.Obj? then Some(GetOr(item.fields, "prix", Str(""))) else None
  }

  lemma RenamedKeepsPrice(item: Value)
    ensures PriceOf(Renamed(item)) == PriceOf(item)
  {
  }

  /**
   * The pass touches nothing but the article list; it keeps the list's length, changes at
   * most one element, gives that one the stamp's name, and never changes a price.
   */
  lemma PostProcessOnlyRenames(f: Fields)
    requires PostProcessed(f).Some?
    ensures var g := PostProcessed(f).value;
      && g.Keys == f.Keys
      && (forall k :: k in f && k != "Articles" ==> g[k] == f[k])
      && ("Articles" in f && f["Articles"].Arr? ==>
            var items, items' := f["Articles"].items, g["Articles"].items;
            && g["Articles"].Arr?
            && |items'| == |items|
            && (forall j :: 0 <= j < |items| ==> PriceOf(items'[j]) == PriceOf(items[j]))
            && (forall j :: 0 <= j < |items| && items'[j] != items[j] ==>
                  items'[j] == Renamed(items[j]) && forall j' :: 0 <= j' < |items| && j' != j ==> items'[j'] == items[j']))
      && ("Articles" !in f || !f["Articles"].Arr? ==> g == f)
  {
    var g := PostProcessed(f).value;
    if f != map[] && "Articles" in f && f["Articles"].Arr? {
      var items := f["Articles"].items;
      match FirstStop(items, 0)
      case None =>
      case Some((i, step)) =>
        if step == Rename {
          RenamedKeepsPrice(items[i]);
        }
    }
  }

  /**
   * When the pass changes the record, it renamed the first element that is a dictionary
   * with a stamp price or a stamp keyword in its name; every element before it was passed over.
   */
  lemma PostProcessRenamesFirstStamp(f: Fields)
    requires PostProcessed(f).Some? && PostProcessed(f).value != f
    ensures "Articles" in f && f["Articles"].Arr?
    ensures var items := f["Articles"].items;
      exists i :: 0 <= i < |items|
        && StampDecision(items[i]) == Rename
        && (forall j :: 0 <= j < i ==> StampDecision(items[j]) == Pass)
        && PostProcessed(f).value == f["Articles" := Arr(items[i := Renamed(items[i])])]
  {
    var items := f["Articles"].items;
    var (i, step) := FirstStop(items, 0).value;
    assert StampDecision(items[i]) == Rename;
  }

  lemma LowerStampName()
    ensures Lower(StampName) == "timbre fiscal"
    ensures Contains(Lower(StampName), "timbre")
    ensures MentionsAny(Lower(StampName), StampKeywords)
  {
    assert OccursAt(Lower(StampName), "timbre", 0);
    assert Contains(Lower(StampName), StampKeywords[0]);
  }

  /** A renamed article is stopped at again and renamed to the same thing. */
  lemma RenamedIsFixed(item: Value)
    requires StampDecision(item) == Rename
    ensures StampDecision(Renamed(item)) in {Stop, Rename}
    ensures Renamed(Renamed(item)) == Renamed(item)
  {
    LowerStampName();
  }

  /** Running the pass twice changes nothing more than running it once. */
  lemma PostProcessIdempotent(f: Fields)
    requires PostProcessed(f).Some?
    ensures PostProcessed(PostProcessed(f).value) == PostProcessed(f)
  {
    var g := PostProcessed(f).value;
    if g != f {
      PostProcessRenamesFirstStamp(f);
      var items := f["Articles"].items;
      var i :| 0 <= i < |items|
        && StampDecision(items[i]) == Rename
        && (forall j :: 0 <= j < i ==> StampDecision(items[j]) == Pass)
        && g == f["Articles" := Arr(items[i := Renamed(items[i])])];
      RenamedAgain(f, g, items, i);
    }
  }

  /** The record after a rename at `i` is left as it is by a second pass. */
  lemma RenamedAgain(f: Fields, g: Fields, items: seq<Value>, i: nat)
    requires i < |items| && StampDecision(items[i]) == Rename
    requires forall j :: 0 <= j < i ==> StampDecision(items[j]) == Pass
    requires g == f["Articles" := Arr(items[i := Renamed(items[i])])]
    ensures PostProcessed(g) == Some(g)
  {
    var items' := items[i := Renamed(items[i])];
    RenamedIsFixed(items[i]);
    assert forall j :: 0 <= j < i ==> items'[j] == items[j];
    FirstStopAt(items', i);
    assert "Articles" in g && g != map[] && g["Articles"] == Arr(items');
    PostProcessedAt(g, items', i);
    if StampDecision(items'[i]) == Rename {
      assert items'[i := Renamed(items'[i])] == items';
      assert g["Articles" := Arr(items')] == g;
    }
  }

  /** The pass on a record whose article list stops first at `i`, for a stop and a rename. */
  lemma PostProcessedAt(f: Fields, items: seq<Value>, i: nat)
    requires f != map[] && "Articles" in f && f["Articles"] == Arr(items)
    requires i < |items| && FirstStop(items, 0) == Some((i, StampDecision(items[i])))
    ensures StampDecision(items[i]) == Stop ==> PostProcessed(f) == Some(f)
    ensures StampDecision(items[i]) == Rename ==> PostProcessed(f) == Some(f["Articles" := Arr(items[i := Renamed(items[i])])])
  {
    assert GetOr(f, "Articles", Arr([])) == Arr(items);
  }

  lemma FirstStopAt(items: seq<Value>, i: nat)
    requires i < |items| && StampDecision(items[i]) != Pass
    requires forall j :: 0 <= j < i ==> StampDecision(items[j]) == Pass
    ensures FirstStop(items, 0) == Some((i, StampDecision(items[i])))
  {
    FirstStopFrom(items, 0, i);
  }

  lemma {:induction false} FirstStopFrom(items: seq<Value>, k: nat, i: nat)
    requires k <= i < |items| && StampDecision(items[i]) != Pass
    requires forall j :: k <= j < i ==> StampDecision(items[j]) == Pass
    ensures FirstStop(items, k) == Some((i, StampDecision(items[i])))
    decreases i - k
  {
    if k < i {
      FirstStopFrom(items, k + 1, i);
    }
  }

  // ------------------------------------------------------ reconciliation

  /** The three entries the reconciliation may fill. */
  predicate Fillable(key: string) {
    key == "Date" || key == "Total" || key == "Articles"
  }

  /**
   * Reconciliation on a non-empty record: a truthy date, total or article list is never
   * overwritten; a falsy one is filled exactly when the extractor found a value; the
   * validation summary is always set; every other entry stays as it was.
   */
  lemma ReconcileFillsOnlyFalsy(f: Fields, r: Extraction, key: string)
    requires f != map[]
    ensures var g := Reconciled(f, r);
      && f.Keys + {"ValidationRegex"} <= g.Keys
      && "ValidationRegex" in g && g["ValidationRegex"] == ValidationValue(r)
      && (key in f && !Fillable(key) && key != "ValidationRegex" ==> key in g && g[key] == f[key])
      && (key !in f && !Fillable(key) && key != "ValidationRegex" ==> key !in g)
      && (Fillable(key) && Truthy(Get(f, key)) ==> g[key] == f[key])
  {
    var withDate := FillIfFalsy(f, "Date", RegexDate(r));
    var withTotal := FillIfFalsy(withDate, "Total", RegexTotal(r));
    var withArticles := FillIfFalsy(withTotal, "Articles", RegexArticles(r));
    FillKeeps(f, "Date", RegexDate(r), key);
    FillKeeps(withDate, "Total", RegexTotal(r), key);
    FillKeeps(withTotal, "Articles", RegexArticles(r), key);
    assert Reconciled(f, r) == withArticles["ValidationRegex" := ValidationValue(r)];
  }

  /** A fill adds at most its own key, and keeps a truthy value there and every other entry. */
  lemma FillKeeps(f: Fields, k: string, candidate: Option<Value>, key: string)
    ensures var g := FillIfFalsy(f, k, candidate);
      && f.Keys <= g.Keys
      && (key != k ==> (key in g <==> key in f) && Get(g, key) == Get(f, key))
      && (Truthy(Get(f, key)) ==> key in g && g[key] == f[key])
  {
  }

  /** Where the record had nothing, the extractor's value is taken; otherwise the record's stays. */
  lemma ReconcileFillValues(f: Fields, r: Extraction)
    requires f != map[]
    ensures var g := Reconciled(f, r);
      && Get(g, "Date") == (if !Truthy(Get(f, "Date")) && RegexDate(r).Some? then RegexDate(r).value else Get(f, "Date"))
      && Get(g, "Total") == (if !Truthy(Get(f, "Total")) && RegexTotal(r).Some? then RegexTotal(r).value else Get(f, "Total"))
      && Get(g, "Articles") == (if !Truthy(Get(f, "Articles")) && RegexArticles(r).Some? then RegexArticles(r).value else Get(f, "Articles"))
  {
  }

  /** An empty record is returned unchanged. */
  lemma ReconcileEmpty(r: Extraction)
    ensures Reconciled(map[], r) == map[]
  {
  }

  /** Every value the extractor can supply is truthy. */
  lemma RegexValuesTruthy(text: string)
    ensures var r := Extract(text);
      && (RegexDate(r).Some? ==> Truthy(RegexDate(r).value))
      && (RegexTotal(r).Some? ==> Truthy(RegexTotal(r).value))
      && (RegexArticles(r).Some? ==> Truthy(RegexArticles(r).value))
  {
    var r := Extract(text);
    if RegexDate(r).Some? {
      assert IsCalendarDate(r.dates[0]);
    }
  }

  /** Reconciling twice with the same text gives the same record as reconciling once. */
  lemma ReconcileIdempotent(f: Fields, text: string)
    ensures Corrected(Corrected(f, text), text) == Corrected(f, text)
  {
    RegexValuesTruthy(text);
    ReconciledIdempotent(f, Extract(text));
  }

  lemma ReconciledIdempotent(f: Fields, r: Extraction)
    requires RegexDate(r).Some? ==> Truthy(RegexDate(r).value)
    requires RegexTotal(r).Some? ==> Truthy(RegexTotal(r).value)
    requires RegexArticles(r).Some? ==> Truthy(RegexArticles(r).value)
    ensures Reconciled(Reconciled(f, r), r) == Reconciled(f, r)
  {
    if f != map[] {
      var g := Reconciled(f, r);
      ReconcileFillValues(f, r);
      ReconcileFillsOnlyFalsy(f, r, "ValidationRegex");
      assert FillIfFalsy(g, "Date", RegexDate(r)) == g;
      assert FillIfFalsy(g, "Total", RegexTotal(r)) == g;
      assert FillIfFalsy(g, "Articles", RegexArticles(r)) == g;
      assert g["ValidationRegex" := ValidationValue(r)] == g;
    }
  }
}
