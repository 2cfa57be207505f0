# Receipt analysis core, modelled in Dafny

This project models the decision logic of a Django receipt-analysis application.
Three OCR engines (Docling, Tesseract, docTR) read a till receipt, and a language model fuses their texts into a JSON record: shop, date, ticket number, total and line items. Around that call, the application:

- routes the analysis between a remote model and two local model tiers;
- recovers a JSON object from the model's free-form answer (`clean_json_response`);
- extracts dates, prices, tax stamps, the total and line items from the raw OCR text with regular expressions (`extraire_elements_avec_regex`);
- renames the tax-stamp article (`post_process_timbre_fiscal`);
- fills what the model missed from the extractor's findings (`valider_et_corriger_avec_regex`);
- cleans numeric form fields (`clean_numeric_value`);
- marks the ticket that takes a period over its budget (`view_history`);
- totals accounting entries per account (`view_history`'s dashboard and `filter_accounting_data`).

A small script, `tmp_tag_check.py`, checks that the `{% if %}`, `{% for %}` and `{% block %}` tags of a template are balanced.

Modules:

- `wrappers.dfy`: `Option`, and the JSON value type with Python truthiness and `dict.get`.
- `text.dfy`: characters, `str.strip`, `str.split`, `str.lower`, substring search, and the words and lines of a text.
- `json_recovery.dfy`: `clean_json_response`. The JSON parser `json.loads` is a parameter.
  - The cleaning steps and the four recovery phases are modelled as functions.
  - The nested loops, the backward brace walk and the reversed group loop are modelled as methods proved equal to those functions.
- `pattern_extractor.dfy`: the regular expressions of the extractor, written out as scanners. Amounts are integers in millimes (thousandths of a dinar).
- `reconciler.dfy`: the tax-stamp pass and the reconciliation.
  - Both are modelled as functions on the record.
  - A `ReceiptRecord` class holds the record. Its methods update it in place the way the source mutates `result_data`.
- `cascade.dfy`: `analyze_three_texts_with_llm` and its two local tiers. Each remote or local call is replaced by the outcome it had.
- `budget.dfy`: the overflow loop, the ticket listing, the per-account dashboard and the accounting totals.
- `numeric_clean.dfy`: `clean_numeric_value`.
- `tag_check.dfy`: the tag checker, as a stack machine over the tags of each line.

## Model

| member | source | states |
|---|---|---|
| JsonRecovery.KeyScore | ticketocr/ocrapp/views.py:130-131 | the score is at most five, and zero exactly when the object has none of Magasin, Date, NumeroTicket, Articles, Total |
| JsonRecovery.StripThink | ticketocr/ocrapp/views.py:102 | removing reasoning blocks never lengthens the text; a text without `<` is unchanged |
| JsonRecovery.StripTags | ticketocr/ocrapp/views.py:103 | removing tags never lengthens the text; a text without `<` is unchanged |
| JsonRecovery.CollapseNewlines | ticketocr/ocrapp/views.py:106 | the non-whitespace characters are kept, in order; no two line breaks are left adjacent; the first character is kept; a text without line breaks is unchanged |
| JsonRecovery.CollapseSpaces | ticketocr/ocrapp/views.py:107 | the non-whitespace characters are kept, in order; every whitespace character left is a single space not followed by whitespace; empty only for empty input |
| JsonRecovery.CollapseNewlinesLayout | ticketocr/ocrapp/views.py:106 | collapsing line breaks keeps the words (`str.split()`) and the non-empty lines of the text, and where each separator run falls between them |
| JsonRecovery.CollapseSpacesLayout | ticketocr/ocrapp/views.py:107 | collapsing whitespace keeps the words of the text and where each whitespace run falls between them |
| Text.WordsStrip | ticketocr/ocrapp/views.py:108 | stripping keeps the words of the text |
| JsonRecovery.Clean | ticketocr/ocrapp/views.py:102-108 | the cleaned text has no line break, its only whitespace is single spaces, it neither starts nor ends with whitespace, and it has the same words (`str.split()`) as the text without reasoning blocks and tags, so no two words are joined and no word is split |
| JsonRecovery.StripSingleSpaced | ticketocr/ocrapp/views.py:108 | stripping a single-spaced text keeps it single-spaced and leaves no whitespace at either end |
| JsonRecovery.QuotesToDouble | ticketocr/ocrapp/views.py:124 | the length is kept and each character is either kept or a single quote turned double; at most one single quote is left; a text without single quotes is unchanged (which quote is left: `UnpairedQuote`) |
| JsonRecovery.UnpairedQuote | ticketocr/ocrapp/views.py:124 | a single quote is left exactly when the text holds an odd number of single quotes, and the one left is at the position of the text's last single quote |
| JsonRecovery.DropTrailingCommas | ticketocr/ocrapp/views.py:126 | dropping commas never lengthens the text; a text without commas is unchanged |
| JsonRecovery.OuterPair | ticketocr/ocrapp/views.py:111-118 | the pair is the first `{` (none before it) and the last `}` (none after it), and there is no pair exactly when no `{` comes before a `}` |
| JsonRecovery.Normalize | ticketocr/ocrapp/views.py:122-126 | the normalised candidate is never longer than the candidate, and a candidate without single quotes or commas is only stripped |
| JsonRecovery.OuterAttempt | ticketocr/ocrapp/views.py:111-135 | an object returned by the first phase holds at least two main keys |
| JsonRecovery.Search | ticketocr/ocrapp/views.py:141-161 | the nested loops keep a best object whose score is its own and at least two, and the best score never decreases |
| JsonRecovery.SearchIsFirstMaximal | ticketocr/ocrapp/views.py:141-161 | from any loop state that holds the invariant, the loops end in the first-maximal outcome |
| JsonRecovery.ExhaustiveBestIsFirstMaximal | ticketocr/ocrapp/views.py:138-164 | the exhaustive phase yields nothing when no pair reaches two keys; otherwise it yields the first pair, by start then end position, whose score is maximal (the strict `>` keeps the earliest) |
| JsonRecovery.ExhaustiveSearch | ticketocr/ocrapp/views.py:138-164 | the nested loops compute the exhaustive phase's result; its score is at least two |
| JsonRecovery.ScanEnds | ticketocr/ocrapp/views.py:142-161 | the inner loop over end positions advances the search by one start position |
| JsonRecovery.ConsiderPair | ticketocr/ocrapp/views.py:143-161 | one candidate replaces the best only on a strictly greater score of at least two |
| JsonRecovery.SkipNonOpening | ticketocr/ocrapp/views.py:141 | a start position that is not an opening brace adds no candidate |
| JsonRecovery.CloseBefore | ticketocr/ocrapp/views.py:168 | the closer found is the first `close` from the start, with no `stop` before it: the `}` of a brace-free nested group (and the `>` of a one-line tag) |
| JsonRecovery.GroupClose | ticketocr/ocrapp/views.py:168 | a permissive group closes at a `}` at or after its body start |
| JsonRecovery.Groups | ticketocr/ocrapp/views.py:168-169 | every group found is a brace pair starting at or after the search position |
| JsonRecovery.LastAccepted | ticketocr/ocrapp/views.py:172-186 | the object taken from the groups, last first, holds at least two main keys |
| JsonRecovery.TryGroups | ticketocr/ocrapp/views.py:166-186 | the third phase computes the last accepted group |
| JsonRecovery.TryBackwards | ticketocr/ocrapp/views.py:172-186 | the loop over the reversed groups returns the last accepted one |
| JsonRecovery.WalkBack | ticketocr/ocrapp/views.py:195-202 | the balancing position found is an opening brace at or before the start of the walk |
| JsonRecovery.BackwardScan | ticketocr/ocrapp/views.py:191-202 | the walk stops at the nearest opening brace that balances the last closing brace (brace excess zero, positive for every shorter suffix), and stays at the closing brace when none does |
| JsonRecovery.WalkAttempt | ticketocr/ocrapp/views.py:188-219 | the object found by the backward walk holds at least two main keys |
| JsonRecovery.TryWalk | ticketocr/ocrapp/views.py:188-219 | the fourth phase as a method computes the walk's result |
| JsonRecovery.RecoverCleaned | ticketocr/ocrapp/views.py:110-221 | whatever phase returns an object, it holds at least two main keys |
| JsonRecovery.Recover | ticketocr/ocrapp/views.py:92-221 | empty text recovers nothing; a recovered object holds at least two main keys |
| JsonRecovery.RecoverPhases | ticketocr/ocrapp/views.py:110-221 | the four phases run in order compute the recovery over the cleaned text |
| JsonRecovery.CleanJsonResponse | ticketocr/ocrapp/views.py:92-221 | the method computes the recovery: nothing for empty text, otherwise an object with at least two main keys or nothing |
| JsonRecoveryFacts.AcceptedPairScores | ticketocr/ocrapp/views.py:143-157 | a brace pair whose object is accepted scores at least two in the exhaustive phase |
| JsonRecoveryFacts.LaterPhasesNeverDecide | ticketocr/ocrapp/views.py:166-219 | when the exhaustive phase finds nothing, the permissive groups and the backward walk find nothing either |
| JsonRecoveryFacts.NoAcceptedWalk | ticketocr/ocrapp/views.py:188-219 | the backward walk finds nothing when no brace pair is accepted |
| JsonRecoveryFacts.NoAcceptedGroup | ticketocr/ocrapp/views.py:166-186 | the groups yield nothing when no brace pair is accepted |
| JsonRecoveryFacts.RecoverIffAcceptedPair | ticketocr/ocrapp/views.py:92-221 | recovery succeeds if and only if the text is non-empty and some brace pair of the cleaned text is accepted |
| JsonRecoveryFacts.PhasesIffAcceptedPair | ticketocr/ocrapp/views.py:110-221 | the phases succeed if and only if some brace pair is accepted |
| JsonRecoveryFacts.AcceptedPairRecovers | ticketocr/ocrapp/views.py:110-164 | an accepted brace pair makes the phases succeed |
| JsonRecoveryFacts.RecoveryHasPair | ticketocr/ocrapp/views.py:110-221 | a success comes from an accepted brace pair |
| JsonRecoveryFacts.ExhaustivePairAccepted | ticketocr/ocrapp/views.py:138-164 | when the exhaustive phase decides, its object comes from an accepted brace pair |
| JsonRecoveryFacts.RecoverFirstMaximal | ticketocr/ocrapp/views.py:92-164 | when the outermost span is rejected, the result is the first-maximal pair's object, or nothing |
| PatternExtractor.PriceAt | ticketocr/ocrapp/views.py:735 | a price match ends after it starts, within the text |
| PatternExtractor.AmountTail | ticketocr/ocrapp/views.py:735 | when found: a dot, then two or three digits, then `DT` either right after them or after exactly one whitespace character |
| PatternExtractor.PriceSpans | ticketocr/ocrapp/views.py:735-736 | `finditer` of the price pattern: every span is a price match, in order without overlap, with no price match before the first, between two, or after the last |
| PatternExtractor.FirstPrice | ticketocr/ocrapp/views.py:768 | the first price match of a line, and no match before it; nothing only when the line has no match |
| PatternExtractor.Prices | ticketocr/ocrapp/views.py:735-736 | the prices are the texts of the price matches, one per match, in order |
| PatternExtractor.Amount | ticketocr/ocrapp/views.py:739-743 | the amount of a well-formed price is its whole dinars times a thousand plus its two or three decimals read as millimes; anything else is 0 |
| PatternExtractor.NatToString | ticketocr/ocrapp/views.py:789-791 | the digits written for a number read back as that number |
| PatternExtractor.DateAt | ticketocr/ocrapp/views.py:725 | a date match has a one- or two-digit day and month and a four-digit year |
| PatternExtractor.DateMatches | ticketocr/ocrapp/views.py:725 | `finditer` of the date pattern: every match is a well-formed date match at its start, in order without overlap, with none missed before, between or after them |
| PatternExtractor.NormaliseDate | ticketocr/ocrapp/views.py:728-732 | a date match is kept if and only if its day, month and year form a real calendar date; it is then written as `DD/MM/YYYY` and reads back as the same day, month and year |
| PatternExtractor.ValidDates | ticketocr/ocrapp/views.py:726-732 | the valid dates are real calendar dates, no more than the matches |
| PatternExtractor.ValidDatesSound | ticketocr/ocrapp/views.py:726-732 | every date kept is the normalisation of one of the matches |
| PatternExtractor.ValidDatesComplete | ticketocr/ocrapp/views.py:726-732 | every match that normalises is kept |
| PatternExtractor.DatesOf | ticketocr/ocrapp/views.py:725-732 | every date of the `dates` entry is a real calendar date normalised from a date match at some position of the text |
| PatternExtractor.TotalAt | ticketocr/ocrapp/views.py:752 | a total match starts with `Total`, `TOTAL` or `total`, only whitespace, colons and dashes lie between it and the amount, and the amount's whole dinars are the digits that start it (read back on a written total: `TotalRoundTrip`) |
| PatternExtractor.FirstTotal | ticketocr/ocrapp/views.py:752-758 | the total is that of the leftmost total match, and none only when no position matches |
| PatternFacts.TotalRoundTrip | ticketocr/ocrapp/views.py:752-758 | `Total: `, `TOTAL: ` or `total: ` followed by an amount written with three decimals and ` DT` is a total match at its start, and the leftmost, and reads back as that amount |
| PatternExtractor.ArticleOf | ticketocr/ocrapp/views.py:767-780 | a line gives an article if and only if it has a price match whose lower-cased label has no forbidden word; the article is the stripped label and the price text |
| PatternExtractor.ArticlesOf | ticketocr/ocrapp/views.py:766-780 | no line gives more than one article |
| PatternExtractor.Stamps | ticketocr/ocrapp/views.py:748 | every stamp found is a denomination and one of the prices |
| PatternExtractor.Extract | ticketocr/ocrapp/views.py:717-803 | empty text gives the empty dictionary; every date in the result is a real calendar date normalised from a date match in the text |
| PatternExtractor.ExtractElements | ticketocr/ocrapp/views.py:717-803 | the method computes the extraction |
| PatternExtractor.CollectDates | ticketocr/ocrapp/views.py:726-732 | the loop over date matches keeps exactly the valid dates in order |
| PatternExtractor.CollectArticles | ticketocr/ocrapp/views.py:764-780 | the loop over lines collects exactly the articles of the lines in order |
| PatternExtractor.Pad2Value | ticketocr/ocrapp/views.py:730 | two zero-padded digits read back as the number |
| PatternFacts.ArticlesAppend | ticketocr/ocrapp/views.py:766-780 | the articles of two runs of lines are those of the first run followed by those of the second |
| PatternFacts.SumAppend | ticketocr/ocrapp/views.py:783 | the sum of two article lists is the sum of their sums |
| PatternFacts.ArticlesOfJoinedTexts | ticketocr/ocrapp/views.py:766-783 | two texts joined by a line break give the first's articles then the second's, and the sums add up |
| PatternFacts.StampsComplete | ticketocr/ocrapp/views.py:748 | every price that is a denomination is among the stamps |
| PatternFacts.StampsAppend | ticketocr/ocrapp/views.py:748 | the stamps of two price lists put together are those of the first followed by those of the second |
| PatternFacts.StampsOne | ticketocr/ocrapp/views.py:748 | one price is a stamp exactly when it is a denomination |
| PatternFacts.ValidDatesAppend | ticketocr/ocrapp/views.py:726-732 | the valid dates of two runs of matches are those of the first followed by those of the second |
| PatternFacts.ValidDatesOne | ticketocr/ocrapp/views.py:726-732 | one match gives its normalised date when it has one, and nothing otherwise |
| PatternFacts.AmountRoundTrip | ticketocr/ocrapp/views.py:739-743 | an amount written with three decimals and ` DT` is matched whole by the price pattern and reads back as the same amount |
| PatternFacts.TotalEntry | ticketocr/ocrapp/views.py:751-789 | the `total` entry is empty exactly when nothing matches the total pattern; otherwise it reads back as the leftmost match's amount |
| PatternFacts.CoherenceOfEntries | ticketocr/ocrapp/views.py:780-792 | `total_coherent` holds exactly when a total was written and the written item sum is within a hundredth of a dinar of it |
| PatternFacts.PriceMatchAlone | ticketocr/ocrapp/views.py:735 | the text of a price match is a complete price match on its own |
| PatternFacts.AmountTailSlice | ticketocr/ocrapp/views.py:735 | the fraction and currency of a match read the same on the matched text alone |
| PatternFacts.ArticlePriceIsPrice | ticketocr/ocrapp/views.py:770-780 | every article's price is a well-formed price |
| PatternFacts.NormalisedDateIsFixed | ticketocr/ocrapp/views.py:725-732 | a normalised date scanned on its own is found once and normalises to itself |
| PatternExtractor.TwoDigits | ticketocr/ocrapp/views.py:725 | a two-digit day up to 31 starts with at most 3, a month up to 12 with at most 1 |
| PatternFacts.Pad2Of | ticketocr/ocrapp/views.py:730 | padding the value of two digits gives them back |
| Reconciler.FirstStop | ticketocr/ocrapp/views.py:815-840 | the loop stops at the first element whose decision is not to pass over it, and passes over every element before it |
| Reconciler.StampDecision | ticketocr/ocrapp/views.py:815-840 | an element that is not a dictionary is passed over; the pass raises exactly on a dictionary whose name is not a string; the loop ends without raising exactly at a dictionary with a string name and a stamp price or a stamp keyword in the lower-cased name; it leaves that element alone exactly when the price is a stamp's and the lower-cased name holds "timbre" or "fiscal"; the "100 DT" conversion is never chosen, since the keyword test before it has already renamed |
| Reconciler.PostProcessed | ticketocr/ocrapp/views.py:805-842 | an empty record or one without articles is returned as it is; the pass raises exactly when the article list is present and is null, a boolean or a number, or is a list whose first non-passed element is a dictionary without a string name; otherwise it keeps every key and every entry but the article list |
| Reconciler.Reconciled | ticketocr/ocrapp/views.py:848-888 | an empty record stays empty; otherwise the validation summary of the result is set, no key is removed, no key but the date, total, articles and summary is added, and every other entry is unchanged |
| Reconciler.Corrected | ticketocr/ocrapp/views.py:844-890 | the same for the extraction of the OCR text |
| Reconciler.FillIfFalsy | ticketocr/ocrapp/views.py:863-877 | a truthy entry or a missing candidate leaves the record as it was; otherwise the candidate is set |
| Reconciler.ReceiptRecord.PostProcessStamp | ticketocr/ocrapp/views.py:805-842 | the pass raises exactly when the pure model raises (the record is then unchanged), and otherwise leaves the record the pure model computes |
| Reconciler.ReceiptRecord.ValidateAndCorrect | ticketocr/ocrapp/views.py:844-890 | the record after the pass is the corrected record |
| Reconciler.ReceiptRecord.Reconcile | ticketocr/ocrapp/views.py:862-888 | the in-place fills and the validation summary give the reconciled record |
| ReconcilerFacts.RenamedKeepsPrice | ticketocr/ocrapp/views.py:824 | renaming an article keeps its price |
| ReconcilerFacts.PostProcessOnlyRenames | ticketocr/ocrapp/views.py:805-842 | the pass changes only the article list; it keeps its length and every price, and at most one element changes, which gets the stamp's name |
| ReconcilerFacts.PostProcessRenamesFirstStamp | ticketocr/ocrapp/views.py:815-833 | when the pass changes the record, it renamed the first element the loop stopped at, and passed over every element before it |
| ReconcilerFacts.LowerStampName | ticketocr/ocrapp/views.py:817-829 | the stamp's name, lower-cased, holds "timbre" and a stamp keyword |
| ReconcilerFacts.RenamedIsFixed | ticketocr/ocrapp/views.py:815-833 | a renamed article stops the loop again and renames to itself |
| ReconcilerFacts.PostProcessIdempotent | ticketocr/ocrapp/views.py:805-842 | running the tax-stamp pass twice gives what running it once gives |
| ReconcilerFacts.PostProcessedAt | ticketocr/ocrapp/views.py:815-833 | when the loop stops at element `i`, a stop leaves the record and a rename renames element `i` |
| ReconcilerFacts.FirstStopAt | ticketocr/ocrapp/views.py:815-840 | an element that stops the loop with only passed-over elements before it is where the loop stops |
| ReconcilerFacts.FirstStopFrom | ticketocr/ocrapp/views.py:815-840 | the same, from any start position of the loop |
| ReconcilerFacts.ReconcileFillsOnlyFalsy | ticketocr/ocrapp/views.py:862-888 | a truthy date, total or article list is never overwritten; the validation summary is always set; other entries are untouched and none is added |
| ReconcilerFacts.FillKeeps | ticketocr/ocrapp/views.py:863-877 | one fill adds only its own key and keeps truthy values and every other entry |
| ReconcilerFacts.ReconcileFillValues | ticketocr/ocrapp/views.py:863-877 | a falsy date, total or article list takes the extractor's value when there is one; otherwise it keeps its own |
| ReconcilerFacts.ReconcileEmpty | ticketocr/ocrapp/views.py:848-849 | an empty record comes back unchanged |
| ReconcilerFacts.RegexValuesTruthy | ticketocr/ocrapp/views.py:786-793 | every value the extractor supplies to a fill is truthy |
| ReconcilerFacts.ReconcileIdempotent | ticketocr/ocrapp/views.py:844-890 | reconciling twice with the same OCR text gives what reconciling once gives |
| ReconcilerFacts.ReconciledIdempotent | ticketocr/ocrapp/views.py:862-888 | the same, for any extractor result whose values are truthy |
| Cascade.EmptyRecord | ticketocr/ocrapp/views.py:297-306 | the empty record has the six record keys with empty texts and an empty article list, the given comment, plus the model's text when one is given |
| Cascade.ModelRecord | ticketocr/ocrapp/views.py:508-516 | a record built from a model's object has the six record keys, each text field and the article list taken from the object with the source's defaults ("" and []), the given comment and the model's text |
| Cascade.Finish | ticketocr/ocrapp/views.py:518-523 | when the tax-stamp pass succeeds the result is the corrected record of the pass's output; when it raises the result is what the caller returns on a raise, and (for a caller that returns an error) only then; a record keeps every key of the model record, carries the validation summary of the OCR text, and keeps every entry the reconciliation does not set |
| Cascade.UltraTier | ticketocr/ocrapp/views.py:314-398 | any failure, a timeout included, is the tier's error; an answer without an acceptable object gives the empty record with the raw-text comment and the stripped answer; an answer with one gives the corrected record built from it exactly when the tax-stamp pass does not raise, and the tier's error otherwise |
| Cascade.FastTier | ticketocr/ocrapp/views.py:225-312 | a failure other than a timeout is the fast tier's error; a timeout gives exactly what the ultra-fast tier gives, and only a timeout leads to its error; an answer without an acceptable object gives the empty record with the raw-text comment and the stripped answer; an answer with one gives the corrected record built from it exactly when the tax-stamp pass does not raise, and the fast tier's error otherwise |
| Cascade.Analyze | ticketocr/ocrapp/views.py:428-538 | blank texts give the empty record; the no-JSON and processing errors hold the stripped remote answer; a tier error means the remote model did not answer; a remote answer with an acceptable object gives the corrected record built from it, over the combined OCR text, exactly when the tax-stamp pass does not raise; every record has every field, and one built from the remote answer carries that answer and the remote comment |
| CascadeFacts.BlankTextsCallNoModel | ticketocr/ocrapp/views.py:433-441 | blank OCR texts give the empty record with its comment, whatever the models would answer |
| CascadeFacts.RemoteFailureHandsOff | ticketocr/ocrapp/views.py:474-538 | a missing client or a failed remote call hands the texts to the fast tier |
| CascadeFacts.NoJsonDoesNotCascade | ticketocr/ocrapp/views.py:491-504 | a remote answer with no acceptable object ends in an error holding the answer; the local tiers are not tried |
| CascadeFacts.OnlyTimeoutCascades | ticketocr/ocrapp/views.py:307-312 | the fast tier hands over to the ultra-fast tier only on a timeout |
| CascadeFacts.CombinedArticles | ticketocr/ocrapp/views.py:520 | the articles of the combined OCR text are those of the first text, then the second, then the third |
| Budget.MarkOverflow | ticketocr/ocrapp/views.py:1679-1731 | each ticket's row holds the running total; it causes the overflow exactly when the total goes from at most the budget to above it; it is over budget exactly when some ticket so far caused an overflow; the period is exceeded exactly when its total is above the budget |
| Budget.HistoryListing | ticketocr/ocrapp/views.py:1659-1753 | the listing loops compute the listing as written, and report the budget exceeded exactly when there is a budget and the total is above it |
| Budget.ListingAsWritten | ticketocr/ocrapp/views.py:1733-1753 | the listing as written lists the chronological tickets then the period's tickets when there is a budget, and the period's tickets otherwise |
| Budget.Listing | ticketocr/ocrapp/views.py:1733-1753 | the corrected listing lists the chronological tickets when there is a budget, and the period's tickets otherwise |
| Budget.Summary | ticketocr/ocrapp/views.py:1776-1799 | the summary of an account counts at most every entry, and one that counted no entry has no debit, credit or description |
| Budget.SummaryOfAbsent | ticketocr/ocrapp/views.py:1778-1785 | an account no entry names has the empty summary |
| Budget.Tally | ticketocr/ocrapp/views.py:1787-1799 | the loop body adds the debit and credit present, counts the entry, and records a non-empty description |
| Budget.Dashboard | ticketocr/ocrapp/views.py:1776-1799 | the dashboard has exactly the accounts the entries name (a missing one is "INCONNU"), each with its summary over all entries |
| Budget.SummaryStep | ticketocr/ocrapp/views.py:1776-1799 | one more entry changes only the summary of its own account |
| Budget.AccountTotalsOfAbsent | ticketocr/ocrapp/views.py:2459-2462 | an account no entry names has zero totals |
| Budget.FilterTotals | ticketocr/ocrapp/views.py:2444-2470 | fails exactly when some entry has no debit; otherwise it totals exactly the accounts named, each over its own entries, and the grand total over all entries |
| BudgetFacts.OverBudgetPersists | ticketocr/ocrapp/views.py:1724-1726 | once a ticket is marked over budget, every later ticket is too |
| BudgetFacts.CrossesPrefix | ticketocr/ocrapp/views.py:1720 | whether a ticket crosses the budget depends only on the tickets up to it |
| BudgetFacts.ExceededHasCrossing | ticketocr/ocrapp/views.py:1720-1731 | a period over a non-negative budget has a ticket that causes the overflow |
| BudgetFacts.SpentMonotone | ticketocr/ocrapp/views.py:1681 | with non-negative totals, the running total never decreases |
| BudgetFacts.NonNegativeCrossesOnce | ticketocr/ocrapp/views.py:1720-1726 | with non-negative totals, at most one ticket causes the overflow, and a ticket is marked over a non-negative budget exactly when the running total is above it |
| Budget.RowIdsAppend | ticketocr/ocrapp/views.py:1745-1753 | the tickets of two listings put together are those of the first followed by those of the second |
| Budget.RowIdsOfRows | ticketocr/ocrapp/views.py:1679-1753 | the budget rows and the plain rows list the tickets they were made from, in order |
| BudgetFacts.ListingAsWrittenListsTwice | ticketocr/ocrapp/views.py:1745-1753 | with a budget, the listing as written holds every ticket of the period twice |
| BudgetFacts.ListingListsOnce | ticketocr/ocrapp/views.py:1733-1753 | the corrected listing holds every ticket of the period once |
| BudgetFacts.DashboardAgreesWithFilter | ticketocr/ocrapp/views.py:1776-1799 | for a named account, the dashboard and the accounting filter give the same debit and credit |
| BudgetFacts.SummaryCountsEntries | ticketocr/ocrapp/views.py:1797 | an account's entry count is positive exactly when some entry names it, and never exceeds the entries |
| BudgetFacts.GrandTotalsSplit | ticketocr/ocrapp/views.py:2455-2470 | the grand totals are one account's totals plus those of all other entries |
| NumericClean.ReplaceChar | ticketocr/ocrapp/views.py:2694 | every comma becomes a dot and every other character is kept |
| NumericClean.UnsignedEnd | ticketocr/ocrapp/views.py:2697 | the unsigned part of a match ends after it starts, within the text |
| NumericClean.NumberAt | ticketocr/ocrapp/views.py:2697 | a number match ends after it starts, within the text |
| NumericClean.SearchNumber | ticketocr/ocrapp/views.py:2697-2701 | the search finds the leftmost position where a number matches, or reports that none does |
| NumericClean.UnsignedIsNumeral | ticketocr/ocrapp/views.py:2697 | a match of `\d*\.?\d+` is a numeral without a sign |
| NumericClean.UnsignedWithFraction | ticketocr/ocrapp/views.py:2697 | digits, a dot and more digits form a numeral |
| NumericClean.UnsignedWhole | ticketocr/ocrapp/views.py:2697 | a run of digits forms a numeral |
| NumericClean.NumberIsNumeral | ticketocr/ocrapp/views.py:2697 | every match is a numeral |
| NumericClean.NumeralMatchesWhole | ticketocr/ocrapp/views.py:2697 | a numeral is matched whole from its first character |
| NumericClean.NumeralCharacters | ticketocr/ocrapp/views.py:2697 | a numeral is made of digits, a dot and a minus sign, and ends with a digit |
| NumericClean.StripUnchanged | ticketocr/ocrapp/views.py:2691 | a text whose ends are not whitespace is its own strip |
| NumericClean.CleanNumeric | ticketocr/ocrapp/views.py:2684-2701 | the cleaned value is always a numeral, so the `Decimal` conversion after it cannot fail; it is "0" for a missing, empty or "None" field and for a prepared field with no number match; otherwise it is the text of the leftmost number match of the prepared field |
| NumericClean.FirstNumber | ticketocr/ocrapp/views.py:2697-2701 | the text of the leftmost number match, or "0" when no position matches; always a numeral |
| NumericClean.SearchIsLeftmost | ticketocr/ocrapp/views.py:2697 | the search stops at the leftmost position where a number matches |
| NumericCleanFacts.CleanIdempotent | ticketocr/ocrapp/views.py:2684-2701 | cleaning a cleaned value changes nothing |
| NumericCleanFacts.NumeralCleansToItself | ticketocr/ocrapp/views.py:2684-2701 | a numeral is its own cleaned value |
| NumericCleanFacts.NumeralPrepared | ticketocr/ocrapp/views.py:2691-2694 | stripping and the comma replacement leave a numeral unchanged |
| TagCheck.CloseEnd | tmp_tag_check.py:4 | when found, the tag ends just after a `%}`, with no line break and no other `%}` between the search position and it |
| TagCheck.AlternativeAt | tmp_tag_check.py:4 | a keyword match ends after it starts, within the line |
| TagCheck.TagAt | tmp_tag_check.py:4 | a tag match ends after it starts, within the line (every written tag is read back whole: `TagRoundTrip`) |
| TagCheckFacts.TagRoundTrip | tmp_tag_check.py:4 | each of `{% if %}`, `{% for %}`, `{% block %}`, `{% elif %}`, `{% else %}`, `{% endif %}`, `{% endfor %}`, `{% endblock %}` is a tag match of its own kind, ending at the end of the text |
| TagCheckFacts.TagLineRoundTrip | tmp_tag_check.py:6-7 | a line holding one written tag yields exactly that tag |
| TagCheck.Step | tmp_tag_check.py:8-23 | an opener is pushed with its line; a branch leaves the stack alone and is reported as an orphan or as unexpected; a closer on an empty stack is an orphan; otherwise it pops, and is a mismatch exactly when it closes another construct; earlier reports are kept and at most one is added |
| TagCheck.Run | tmp_tag_check.py:6-23 | running a sequence of tags keeps the earlier reports and adds at most one per tag |
| TagCheck.Events | tmp_tag_check.py:5-7 | every event carries a line number from 1 to the number of lines, and the events come in line order |
| Scan.FindAll | tmp_tag_check.py:6 | `finditer`: the matches are each a match of the pattern at its start, in order, without overlap, and no match starts before the first, between two of them, or after the last |
| Scan.FindAllUnique | tmp_tag_check.py:6 | any sequence of matches with those properties is the one `finditer` yields |
| Scan.FindAllDetermined | tmp_tag_check.py:6 | two sequences of matches with those properties are equal |
| Scan.Values | tmp_tag_check.py:7 | what the matches captured, one per match, in order |
| TagCheck.TagMatcher | tmp_tag_check.py:4 | the pattern as a matcher agrees with the tag scanner and always advances |
| TagCheck.TagMatches | tmp_tag_check.py:6 | `finditer` of the tag pattern: every match is a tag at its start, in order without overlap, with none missed before, between or after them |
| TagCheck.Tags | tmp_tag_check.py:6-7 | one tag per match, in order: the tag of each match of the pattern on the line |
| TagCheck.RunAppend | tmp_tag_check.py:5-23 | running the tags of a template in two pieces is running them at once |
| TagCheck.CheckLine | tmp_tag_check.py:6-23 | the loop over one line's tags moves the stack and the reports as the step function says |
| TagCheck.CheckTemplate | tmp_tag_check.py:5-30 | the reports and the verdict are those of running every tag of every line, with lines numbered from 1 |
| TagCheckFacts.SubsequenceDropLast | tmp_tag_check.py:20 | dropping the last element keeps a subsequence |
| TagCheckFacts.SubsequenceExtend | tmp_tag_check.py:9 | a subsequence stays one when an element is appended to the whole |
| TagCheckFacts.StackInPushOrder | tmp_tag_check.py:25-28 | the openers left on the stack are some of those pushed, in push order |
| TagCheckFacts.SubsequenceReflexive | tmp_tag_check.py:25-28 | a sequence is a subsequence of itself |
| TagCheckFacts.StackCount | tmp_tag_check.py:8-23 | the stack size plus the closers equals the openers plus the orphan closers |
| TagCheckFacts.StepCount | tmp_tag_check.py:8-23 | one tag changes the stack size and the orphan-closer count that way |
| TagCheckFacts.BalancedCounts | tmp_tag_check.py:25-30 | a template found "All balanced" with no orphan closer has as many openers as closers |
| TagCheckFacts.VerdictIgnoresReports | tmp_tag_check.py:10-30 | earlier reports do not affect the stack, so the verdict depends on the tags alone |

## Left out

- Console output is not modelled: `print`, logging, and the debug dump at `views.py:799-801`. Messages and the text of exceptions are also out.
- The HTTP calls to the remote model and to the local tiers are not modelled, nor the OCR engines, the database or the file opened by `tmp_tag_check.py`. Each call is a parameter or the outcome it had; `json.loads` is the parameter `Parser`.
- The last-resort regex analysis at `views.py:541-569` is not modelled. It runs only when the fast tier raises out of its own `try`, which the tier never does; the model treats the fast tier as never raising.
- Inputs that are not strings are left out: the `isinstance` guards at `views.py:96`, `views.py:721`, `views.py:809` and `views.py:848`. Texts are strings and records are dictionaries.
- `\d` and `\w` are ASCII-only, and `str.lower` is ASCII-only. Python's versions also accept other Unicode digits and letters.
- Prices and totals are integers in millimes instead of floats. The coherence test reads as a difference below 10 millimes, so a float difference within rounding of exactly 0.01 may be judged differently.
- Date parsing follows `%d/%m/%Y` for four-digit years in the proleptic Gregorian calendar. `strptime`'s handling of other field widths is not needed for the matches the date pattern allows.
- `percentage_of_budget` at `views.py:1689` is not modelled, nor its division by a zero budget. The `compte` and `description` lookups at `views.py:1694-1717` and `views.py:1752` are not modelled either.
- The period filtering and ordering done by the ORM are not modelled: tickets come in the order the queries give. The date filters and their parse errors in `filter_accounting_data` are also out.
- Of the `entries_data` conversion at `views.py:2444-2453`, only its failure on a missing debit is modelled.
- The `AlerteValidation` branch at `views.py:880-882` is not modelled: the extractor never sets `alerte`, so the branch never runs.
- JsonRecovery.StripThink: states only that no text is added and that a text without `<` is unchanged, not that no `<think>` block is left.
- JsonRecovery.StripTags: states only that no text is added and that a text without `<` is unchanged, not that no tag is left.
- JsonRecovery.DropTrailingCommas: states only that no text is added and that a text without commas is unchanged, not which commas go.
- TagCheck.Events: states only that line numbers run from 1 to the number of lines in order, not that each event's tag is one of its line's tags; stating that would put the whole tag scan into every proof about the events.

## Findings

| source | as written | input that shows it | evidently intended | confidence | as-written member | corrected member |
|---|---|---|---|---|---|---|
| ticketocr/ocrapp/views.py:1745-1753 | the loop that appends plain rows is dedented out of the no-budget branch, so it runs with a budget too | a period with a budget and one ticket: the listing holds two rows for that ticket | plain rows only when there is no budget, so each ticket is listed once | not executed | BudgetFacts.ListingAsWrittenListsTwice | BudgetFacts.ListingListsOnce |
