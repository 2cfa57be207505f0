/**
 * The routing of a receipt analysis between the remote model and the two local tiers
 * (`analyze_three_texts_with_llm`, `_fast` and `_ultra_fast`), as a pure decision over the
 * outcomes of the calls. The calls themselves are not modelled: each one is given as the
 * outcome it had. The record that a successful answer yields goes through the tax-stamp
 * pass and the reconciliation with the pattern extractor over the three OCR texts.
 */
module Cascade {
  import opened Wrappers
  import opened Json
  import opened Text
  import JsonRecovery
  import opened PatternExtractor
  import opened Reconciler

  /** How the call to the remote model went. */
  datatype RemoteOutcome =
    | ClientMissing          // no client could be set up (no token)
    | CallFailed             // the call raised
    | Answered(content: string)

  /** How the call to a local tier went. */
  datatype TierOutcome =
    | TimedOut
    | Failed                 // any other exception of the call
    | Responded(response: string)

  datatype Tier = Fast | UltraFast

  /** What the analysis returns. */
  datatype Analysis =
    | Record(fields: Fields)
      // the remote answer holds no acceptable JSON object: an error dictionary with the raw answer
    | NoJsonError(raw: string)
      // the record built from the remote answer made the tax-stamp pass raise
    | ProcessingError(raw: string)
      // `{"error": "Erreur API (...) : ..."}` of a local tier
    | TierError(tier: Tier)

  const NoTextComment: string := "Aucun texte OCR extrait - les textes sont vides"
  const RemoteComment: string := "Donn\U{e9}es extraites via HuggingFace Qwen"
  const FastComment: string := "Donn\U{e9}es extraites par mod\U{e8}le rapide"
  const FastRawComment: string := "Texte fusionn\U{e9} et corrig\U{e9} (mod\U{e8}le rapide)"
  const UltraComment: string := "Donn\U{e9}es extraites par mod\U{e8}le ultra-rapide"
  const UltraRawComment: string := "Texte fusionn\U{e9} et corrig\U{e9} (mod\U{e8}le ultra-rapide)"

  /** The keys every record carries. */
  const RecordKeys: set<string> := {"Date", "Magasin", "NumeroTicket", "Total", "Articles", "Commentaire"}

  /** The record fields that hold text; `Articles` holds a list. */
  const TextKeys: set<string> := {"Date", "Magasin", "NumeroTicket", "Total"}

  /** A record with every field empty, a comment and, when given, the model's text. */
  function EmptyRecord(comment: string, fused: Option<string>): (f: Fields)
    ensures f.Keys == RecordKeys + (if fused.Some? then {"texte_fusionne"} else {})
    ensures f["Commentaire"] == Str(comment)
    ensures fused.Some? ==> f["texte_fusionne"] == Str(fused.value)
    ensures f["Date"] == f["Magasin"] == f["NumeroTicket"] == f["Total"] == Str("") && f["Articles"] == Arr([])
  {
    var base := map["Date" := Str(""), "Magasin" := Str(""), "NumeroTicket" := Str(""), "Total" := Str(""),
                     "Articles" := Arr([]), "Commentaire" := Str(comment)];
    if fused.Some? then base["texte_fusionne" := Str(fused.value)] else base
  }

  /** The record built from a recovered object: its five fields (empty when absent), a comment and the model's text. */
  function ModelRecord(parsed: Fields, comment: string, fused: string): (f: Fields)
    ensures f.Keys == RecordKeys + {"texte_fusionne"}
    ensures f["Commentaire"] == Str(comment) && f["texte_fusionne"] == Str(fused)
    ensures forall k :: k in TextKeys ==> f[k] == GetOr(parsed, k, Str(""))
    ensures f["Articles"] == GetOr(parsed, "Articles", Arr([]))
  {
    map["Date" := GetOr(parsed, "Date", Str("")), "Magasin" := GetOr(parsed, "Magasin", Str("")),
        "NumeroTicket" := GetOr(parsed, "NumeroTicket", Str("")), "Total" := GetOr(parsed, "Total", Str("")),
        "Articles" := GetOr(parsed, "Articles", Arr([])), "Commentaire" := Str(comment),
        "texte_fusionne" := Str(fused)]
  }

  /** The comment and the model's text are not entries the reconciliation sets. */
  lemma CommentAndTextKept()
    ensures "Commentaire" !in Reconciles && "texte_fusionne" !in Reconciles
  {
  }

  /** The three OCR texts, one per line, as given to the pattern extractor. */
  function Combined(docling: string, tesseract: string, doctr: string): string {
    docling + "\n" + tesseract + "\n" + doctr
  }

  /**
   * The two passes over a model record; `onRaise` is what the caller returns when the first
   * raises. A record that comes out keeps every key, gains the validation summary, and keeps
   * every entry the reconciliation does not set.
   */
  function Finish(record: Fields, ocrText: string, onRaise: Analysis): (r: Analysis)
    ensures r.Record? || r == onRaise
    ensures PostProcessed(record).None? ==> r == onRaise
    ensures !onRaise.Record? ==> (r == onRaise <==> PostProcessed(record).None?)
    ensures PostProcessed(record).Some? ==> r == Record(Corrected(PostProcessed(record).value, ocrText))
    ensures r.Record? && !onRaise.Record? && record != map[] ==>
      && record.Keys + {"ValidationRegex"} <= r.fields.Keys
      && r.fields["ValidationRegex"] == ValidationValue(Extract(ocrText))
      && forall k :: k in record && k !in Reconciles ==> r.fields[k] == record[k]
  {
    match PostProcessed(record)
    case None => onRaise
    case Some(processed) => Record(Corrected(processed, ocrText))
  }

  /**
   * The ultra-fast tier: any failure, a timeout included, is its error dictionary; a
   * response gives a record with every field, its own comment and the model's text.
   */
  function UltraTier(ultra: TierOutcome, ocrText: string, parse: JsonRecovery.Parser): (r: Analysis)
    ensures !ultra.Responded? ==> r == TierError(UltraFast)
    ensures r.Record? || r == TierError(UltraFast)
    ensures r.Record? ==>
      && ultra.Responded? && RecordKeys + {"texte_fusionne"} <= r.fields.Keys
      && r.fields["texte_fusionne"] == Str(Strip(ultra.response))
      && r.fields["Commentaire"] in {Str(UltraComment), Str(UltraRawComment)}
    ensures ultra.Responded? && JsonRecovery.Recover(parse, ultra.response).None? ==>
      r == Record(EmptyRecord(UltraRawComment, Some(Strip(ultra.response))))
    ensures ultra.Responded? && JsonRecovery.Recover(parse, ultra.response).Some? ==>
      var built := ModelRecord(JsonRecovery.Recover(parse, ultra.response).value, UltraComment, Strip(ultra.response));
      && (r.Record? <==> PostProcessed(built).Some?)
      && (r.Record? ==> r.fields == Corrected(PostProcessed(built).value, ocrText))
  {
    match ultra
    case Responded(response) =>
      (match JsonRecovery.Recover(parse, response)
       case Some(parsed) =>
         CommentAndTextKept();
         Finish(ModelRecord(parsed, UltraComment, Strip(response)), ocrText, TierError(UltraFast))
       case None => Record(EmptyRecord(UltraRawComment, Some(Strip(response)))))
    case _ => TierError(UltraFast)
  }

  /**
   * The fast tier: a failure other than a timeout is its error dictionary; only a timeout
   * hands over to the ultra-fast tier. Every record has every field and the text of the
   * model that answered.
   */
  function FastTier(fast: TierOutcome, ultra: TierOutcome, ocrText: string, parse: JsonRecovery.Parser): (r: Analysis)
    ensures fast.Failed? ==> r == TierError(Fast)
    ensures r == TierError(UltraFast) ==> fast.TimedOut?
    ensures r.Record? || r.TierError?
    ensures r.Record? ==> RecordKeys + {"texte_fusionne"} <= r.fields.Keys
    ensures r.Record? && fast.Responded? ==>
      && r.fields["texte_fusionne"] == Str(Strip(fast.response))
      && r.fields["Commentaire"] in {Str(FastComment), Str(FastRawComment)}
    ensures fast.TimedOut? ==> r == UltraTier(ultra, ocrText, parse)
    ensures fast.Responded? && JsonRecovery.Recover(parse, fast.response).None? ==>
      r == Record(EmptyRecord(FastRawComment, Some(Strip(fast.response))))
    ensures fast.Responded? && JsonRecovery.Recover(parse, fast.response).Some? ==>
      var built := ModelRecord(JsonRecovery.Recover(parse, fast.response).value, FastComment, Strip(fast.response));
      && (r.Record? <==> PostProcessed(built).Some?)
      && (r.Record? ==> r.fields == Corrected(PostProcessed(built).value, ocrText))
  {
    match fast
    case TimedOut => UltraTier(ultra, ocrText, parse)
    case Failed => TierError(Fast)
    case Responded(response) =>
      match JsonRecovery.Recover(parse, response)
      case Some(parsed) =>
        CommentAndTextKept();
        Finish(ModelRecord(parsed, FastComment, Strip(response)), ocrText, TierError(Fast))
      case None => Record(EmptyRecord(FastRawComment, Some(Strip(response))))
  }

  /** All three OCR texts are blank. */
  predicate AllBlank(docling: string, tesseract: string, doctr: string) {
    Strip(docling) == [] && Strip(tesseract) == [] && Strip(doctr) == []
  }

  /**
   * `analyze_three_texts_with_llm` over the outcomes of the calls it makes. Blank texts give
   * the empty record; the two errors about the remote answer hold that answer, stripped; a
   * tier error means the remote model did not answer; every record has every field, and one
   * built from the remote answer carries that answer and the remote comment.
   */
  function Analyze(docling: string, tesseract: string, doctr: string,
                   remote: RemoteOutcome, fast: TierOutcome, ultra: TierOutcome,
                   parse: JsonRecovery.Parser): (r: Analysis)
    ensures AllBlank(docling, tesseract, doctr) ==> r == Record(EmptyRecord(NoTextComment, None))
    ensures r.NoJsonError? || r.ProcessingError? ==> remote.Answered? && r.raw == Strip(remote.content)
    ensures r.TierError? ==> !remote.Answered?
    ensures r.Record? ==> RecordKeys <= r.fields.Keys
    ensures r.Record? && !AllBlank(docling, tesseract, doctr) && remote.Answered? ==>
      && "texte_fusionne" in r.fields && r.fields["texte_fusionne"] == Str(Strip(remote.content))
      && r.fields["Commentaire"] == Str(RemoteComment)
    ensures !AllBlank(docling, tesseract, doctr) && remote.Answered? && JsonRecovery.Recover(parse, Strip(remote.content)).Some? ==>
      var built := ModelRecord(JsonRecovery.Recover(parse, Strip(remote.content)).value, RemoteComment, Strip(remote.content));
      && (r.Record? <==> PostProcessed(built).Some?)
      && (r.Record? ==> r.fields == Corrected(PostProcessed(built).value, Combined(docling, tesseract, doctr)))
  {
    if AllBlank(docling, tesseract, doctr) then Record(EmptyRecord(NoTextComment, None))
    else
      var ocrText := Combined(docling, tesseract, doctr);
      match remote
      case Answered(content) =>
        var text := Strip(content);
        (match JsonRecovery.Recover(parse, text)
         case None => NoJsonError(text)
         case Some(parsed) =>
           CommentAndTextKept();
           Finish(ModelRecord(parsed, RemoteComment, text), ocrText, ProcessingError(text)))
      case _ => FastTier(fast, ultra, ocrText, parse)
  }
}

module CascadeFacts {
  import opened Wrappers
  import opened Json
  import opened Text
  import JsonRecovery
  import opened PatternExtractor
  import opened PatternFacts
  import opened Reconciler
  import opened ReconcilerFacts
  import opened Cascade

  /** Blank OCR texts give the empty record, whatever the models would have answered. */
  lemma BlankTextsCallNoModel(docling: string, tesseract: string, doctr: string,
                              remote: RemoteOutcome, fast: TierOutcome, ultra: TierOutcome,
                              remote': RemoteOutcome, fast': TierOutcome, ultra': TierOutcome,
                              parse: JsonRecovery.Parser)
    requires AllBlank(docling, tesseract, doctr)
    ensures Analyze(docling, tesseract, doctr, remote, fast, ultra, parse)
         == Analyze(docling, tesseract, doctr, remote', fast', ultra', parse)
         == Record(EmptyRecord(NoTextComment, None))
  {
  }

  /** A missing client, or a remote call that raised, hands the texts to the fast tier. */
  lemma RemoteFailureHandsOff(docling: string, tesseract: string, doctr: string,
                              remote: RemoteOutcome, fast: TierOutcome, ultra: TierOutcome,
                              parse: JsonRecovery.Parser)
    requires !AllBlank(docling, tesseract, doctr) && !remote.Answered?
    ensures Analyze(docling, tesseract, doctr, remote, fast, ultra, parse)
         == FastTier(fast, ultra, Combined(docling, tesseract, doctr), parse)
  {
  }

  /**
   * A remote answer with no acceptable JSON object ends the analysis with an error holding
   * the answer: the local tiers are not tried.
   */
  lemma NoJsonDoesNotCascade(docling: string, tesseract: string, doctr: string,
                             content: string, fast: TierOutcome, ultra: TierOutcome,
                             parse: JsonRecovery.Parser)
    requires !AllBlank(docling, tesseract, doctr)
    requires JsonRecovery.Recover(parse, Strip(content)).None?
    ensures Analyze(docling, tesseract, doctr, Answered(content), fast, ultra, parse) == NoJsonError(Strip(content))
  {
  }

  /** The fast tier hands over to the ultra-fast tier only on a timeout. */
  lemma OnlyTimeoutCascades(fast: TierOutcome, ultra: TierOutcome, ultra': TierOutcome,
                            ocrText: string, parse: JsonRecovery.Parser)
    requires !fast.TimedOut?
    ensures FastTier(fast, ultra, ocrText, parse) == FastTier(fast, ultra', ocrText, parse)
  {
  }

  /**
   * The articles the reconciliation can take from the OCR texts are those of the first text,
   * then the second, then the third: no line item spans two texts.
   */
  lemma CombinedArticles(docling: string, tesseract: string, doctr: string)
    ensures ArticlesOf(Split(Combined(docling, tesseract, doctr), '\n'))
         == ArticlesOf(Split(docling, '\n')) + ArticlesOf(Split(tesseract, '\n')) + ArticlesOf(Split(doctr, '\n'))
  {
    var rest := tesseract + "\n" + doctr;
    var all := Combined(docling, tesseract, doctr);
    assert all == docling + "\n" + rest;
    ArticlesOfJoinedTexts(all, docling, rest);
    ArticlesOfJoinedTexts(rest, tesseract, doctr);
    Associate(ArticlesOf(Split(all, '\n')), ArticlesOf(Split(docling, '\n')), ArticlesOf(Split(rest, '\n')),
      ArticlesOf(Split(tesseract, '\n')), ArticlesOf(Split(doctr, '\n')));
  }

  lemma Associate(x: seq<Article>, a: seq<Article>, y: seq<Article>, b: seq<Article>, c: seq<Article>)
    requires x == a + y && y == b + c
    ensures x == a + b + c
  {
  }
}
