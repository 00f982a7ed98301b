# SensusMundi news pipeline, modelled in Dafny

SensusMundi collects news about a fixed list of topics and turns it into a
daily digest. The pipeline runs in four steps:

1. **Discovery** (`src/SearchGdelt.py`) looks up a topic's GDELT query,
   fetches the article list and drops untitled rows. It cleans the titles by
   removing exact duplicates, empty titles and fuzzy near-duplicates. An
   external ranker then orders the remaining titles, and the top 20 rows are
   appended to the topic's table.
2. **The article store** (`src/initialize_db.py`, `src/ScrapeNews.py`) holds
   one SQLite table per topic. The scraper lists the rows whose `news_body`
   is still NULL. For each one it downloads the article and asks a language
   model for a short title, summary and sentiment, then writes all four
   columns back together.
3. **The digest** (`src/GetWatchlist.py`) selects the day's summaries of one
   topic, one per url, and sends them to the language model in one message.
   It appends the returned narrative to the `watchlist` table with the JSON
   list of urls it used.
4. **The display** (`webapp/js/NATOWatchlist.js`) reads the newest NATO row
   of the watchlist table. It splits the narrative into sentences and shows
   them as paragraphs of three, with the stored urls as a source list.

The database is a `Database` class (module `Store`). Its fields are a map from
topic name to `Table` and an optional `WatchlistTable`. A table is its rows in
rowid order plus its AUTOINCREMENT counter. Each stage is a method that
`modifies` the database, and its contract gives the new state as a function of
the old one. Lemmas about those functions state what the stages promise.

The external services are parameters:

- the GDELT endpoint, a function from query URL to reply;
- the ranker, a function from request to ranked results;
- the title similarity `fuzz.ratio`, a function of two titles;
- the article download, a function from URL to text or failure;
- the chat endpoint, a function from user message to reply.

Today's date is a parameter too.

Modules, one per file:

- `Common`: Option, Result, the raised errors, SQLite cells, first match and order-preserving selection.
- `Strings`: join, whitespace classes, trim and split.
- `Dates`: ISO dates.
- `Json`: `json.dumps` of a string list.
- `ChatApi`: the chat-completions reply shape.
- `Store`: the database, table creation and insertion.
- `SearchGdelt`, `ScrapeNews`, `GetWatchlist`, `NatoWatchlist`: the four stages.

The model follows the code as written; behaviours worth knowing:

- The digest is appended, not replaced. `INSERT OR REPLACE` has no unique key
  to conflict on besides the id, so a second run on the same day adds a
  second row (`GetWatchlist.SameDayStoredTwice`).
- Discovery stores `''`, not NULL, in `short_title_en`, `summary_en` and
  `sentiment`. A row whose article was never summarised therefore passes the
  digest's `summary_en IS NOT NULL` filter and contributes an empty summary
  (`GetWatchlist.UnenrichedRowSelected`).
- Cleaning compares titles against `''` only, so whitespace-only titles
  survive cleaning. The ranker step then filters them out, which shifts the
  ranker's indices against the cleaned rows
  (`SearchGdelt.RankerIndexMisaligned`).
- An empty ranker input makes `rerank_documents` return a dict with no
  `results`, and `search_gdelt` raises on it (`SearchGdelt.TopRowsSpec`).
- A tool-call reply may hold JSON null. A null `summary_en` is written as
  NULL together with the scraped `news_body`, so the row leaves the work list
  half enriched and is never retried (`ScrapeNews.NullSummaryNotRetried`).
  A null `watchlist` reaches the NOT NULL column and the digest's INSERT
  raises IntegrityError (`GetWatchlist.UpdatedWatchlistSpec`).
- `insert_data` names the table only in its INSERT, so an empty batch for a
  missing table succeeds (`Store.InsertData`).

## Model

| member | source | states |
|---|---|---|
| Common.FindFirst | src/SearchGdelt.py:23-26 | the first position whose element matches; None exactly when no element matches |
| Common.CountZero | src/GetWatchlist.py:126-130 | a selection keeps nothing iff every flag is false |
| Common.MaskAt | src/SearchGdelt.py:53-54 | boolean row selection: the a-th kept row is the row at the a-th kept position |
| Common.MaskAll | src/SearchGdelt.py:54 | selecting with all flags true returns the frame unchanged |
| Common.MaskCompose | src/SearchGdelt.py:53-65 | two successive selections equal one selection with the composed flags |
| Common.MaskContains | src/SearchGdelt.py:53-54 | every row whose flag is true is in the selection |
| Common.MaskMember | src/SearchGdelt.py:53-54 | every selected row is some flagged input row |
| Common.MaskKeepsIncreasing | src/SearchGdelt.py:53-54 | selection keeps row order: a key increasing along the input increases along the output |
| Common.MaskKeepsDistinct | src/SearchGdelt.py:53 | selection keeps keys pairwise distinct |
| Common.SubsequenceOfMask | src/SearchGdelt.py:53-65 | two selections yield a subsequence of the input |
| Common.KeptIndicesIncreasing | src/SearchGdelt.py:63-65 | the positions a selection keeps are strictly increasing |
| Common.GetOrEmpty | src/GetWatchlist.py:115 | `dict.get(key, '')` on a dict of strings and nulls: the stored value, possibly null, when the key is present, '' otherwise |
| Strings.JoinAppend | src/GetWatchlist.py:34 | joining a concatenation is joining each part, with the separator between |
| Strings.JoinLength | src/GetWatchlist.py:34 | a joined text's length is the summed part lengths plus one separator per gap |
| Strings.Join | src/GetWatchlist.py:34 | `sep.join(parts)`; JoinAppend, JoinLength and JoinOccurrences state its properties |
| Strings.Occurrences | webapp/js/NATOWatchlist.js:51 | a character occurs zero times iff it is absent |
| Strings.SumOccurrences | webapp/js/NATOWatchlist.js:51 | a list holds zero occurrences iff no item has the character |
| Strings.OccurrencesAppend | webapp/js/NATOWatchlist.js:51 | occurrences add up over a concatenation |
| Strings.JoinOccurrences | src/GetWatchlist.py:116 | a joined text holds the parts' occurrences plus the separator's once per gap |
| Strings.TrimStart | webapp/js/NATOWatchlist.js:51 | drops exactly the leading whitespace: the result is a suffix, everything dropped is whitespace, and the result does not start with whitespace |
| Strings.TrimEnd | webapp/js/NATOWatchlist.js:51 | drops exactly the trailing whitespace, stated the same way as a prefix |
| Strings.JsTrim | webapp/js/NATOWatchlist.js:51 | `String.trim`: a slice of the input such that everything cut off before and after it is whitespace, and the slice neither starts nor ends with whitespace |
| Strings.TrimSpacesBefore | webapp/js/NATOWatchlist.js:51 | trimming a text that has only leading whitespace gives the text without it |
| Strings.SplitOn | webapp/js/NATOWatchlist.js:51 | `split(',')`: at least one piece, none containing the separator |
| Strings.SplitOnJoin | webapp/js/NATOWatchlist.js:51 | joining the pieces with the separator restores the text |
| Strings.SplitOnPrefix | webapp/js/NATOWatchlist.js:51 | a separator-free prefix is glued to the first piece of the rest |
| Strings.JoinSplitOn | webapp/js/NATOWatchlist.js:51 | splitting a join of separator-free parts returns the parts |
| Strings.SplitOnCount | webapp/js/NATOWatchlist.js:51 | `split(',')` gives one more piece than there are commas |
| Dates.DigitChar | src/GetWatchlist.py:25 | the digit character of a value reads back as that value |
| Dates.IsoFormat | src/GetWatchlist.py:25 | `date.isoformat()`: ten characters, dashes at 4 and 7, digits elsewhere |
| Dates.ParseIso | src/GetWatchlist.py:23 | reading an ISO date accepts only ten-character texts |
| Dates.IsoRoundTrip | src/GetWatchlist.py:23-25 | parsing the ISO text of any date gives the date back |
| Dates.IsoFormatInjective | src/GetWatchlist.py:23-25 | two dates have the same ISO text iff they are equal, so the text comparison in the query is date equality |
| Json.Hex4 | src/GetWatchlist.py:116 | four lower-case hexadecimal digits |
| Json.EscapeChar | src/GetWatchlist.py:116 | an escaped character contains a comma iff the character is a comma |
| Json.EscapedComma | src/GetWatchlist.py:116 | the escaped text has a comma iff the original has one |
| Json.JsonString | src/GetWatchlist.py:116 | a JSON string literal starts and ends with a double quote |
| Json.Quoted | src/GetWatchlist.py:116 | each item becomes its own string literal, in order |
| Json.JsonDumps | src/GetWatchlist.py:116 | `json.dumps(list)` is bracketed |
| Json.EscapedCommaCount | src/GetWatchlist.py:116 | escaping keeps the number of commas |
| Json.QuotedCommaCount | src/GetWatchlist.py:116 | quoting every item keeps the items' total number of commas |
| Json.DumpsCommaCount | src/GetWatchlist.py:116 | `json.dumps(list)` holds the items' commas plus one between neighbours |
| ChatApi.ReadToolCall | src/ScrapeNews.py:81-91 | raises iff the transport fails or the tool-call list is empty; the unexpected-format outcome iff the reply has no tool calls; invalid JSON iff the first call's arguments do not decode; otherwise exactly the decoded arguments |
| Store.constructor | src/initialize_db.py:8-10 | a new database file has no tables and no watchlist table |
| Store.AddMissingSpec | src/initialize_db.py:17-37 | `CREATE TABLE IF NOT EXISTS` for each name: afterwards every name has a table, existing tables are untouched, and new ones are empty |
| Store.AddMissing | src/initialize_db.py:17-37 | the tables after `CREATE TABLE IF NOT EXISTS` for each name in turn; AddMissingSpec states what that leaves |
| Store.AddMissingPresent | src/initialize_db.py:19-21 | once every named table exists, creating them again changes nothing |
| Store.CreateTablesIdempotent | src/initialize_db.py:12-40 | running create_database_and_tables twice equals running it once |
| Store.AddMissingValid | src/initialize_db.py:21-22 | creation keeps every table's ids increasing and below its counter |
| Store.CreateTables | src/initialize_db.py:19-37 | the loop leaves exactly the tables AddMissing describes and the watchlist table unchanged |
| Store.CreateDatabaseAndTables | src/initialize_db.py:12-40 | the ten topic tables are created if missing, nothing else changes |
| Store.Field | src/initialize_db.py:52-63 | `item.get(key, '')`: '' when absent, the stored value (possibly NULL) otherwise |
| Store.NewRow | src/initialize_db.py:47-64 | the row one INSERT adds or its NOT NULL error, url checked first; NewRowColumns states its columns |
| Store.NewRowColumns | src/initialize_db.py:47-64 | an INSERT fails iff url or title is NULL; otherwise the row has the given id, today's date_added, a NULL news_body, and the item's fields defaulted to '' and 0.0 |
| Store.InsertIgnoresDateAndBody | src/initialize_db.py:48-60 | the record's date_added and news_body never reach the row |
| Store.Inserted | src/initialize_db.py:46-66 | the items inserted one by one with consecutive ids, or the first item's error; InsertedOkIff and InsertedRows state its outcome |
| Store.InsertedOkIff | src/initialize_db.py:46-64 | a batch succeeds iff every item is insertable |
| Store.InsertedRows | src/initialize_db.py:42-67 | a successful batch appends one row per item in order, with consecutive fresh ids above every earlier id, and keeps the old rows |
| Store.AppendKeepsValid | src/initialize_db.py:22 | appending a row whose id is one above the counter keeps the table valid |
| Store.InsertData | src/initialize_db.py:42-67 | a missing table raises OperationalError and changes nothing, except that an empty batch runs no statement and succeeds; a failing item rolls back the whole batch; otherwise the table becomes the inserted table |
| SearchGdelt.GetGdeltQueryString | src/SearchGdelt.py:21-26 | the query string of the first entry with this topic; ValueError with the source's message iff no entry has it |
| SearchGdelt.QueryStringOfListedTopic | src/SearchGdelt.py:21-25 | a topic listed first at position k gets entry k's query string |
| SearchGdelt.Titled | src/SearchGdelt.py:38 | one flag per fetched article |
| SearchGdelt.FetchGdeltData | src/SearchGdelt.py:29-47 | fails iff the status is 4xx/5xx, there is no `articles` list, or no article has a title column; otherwise the frame is valid and has title and content columns |
| SearchGdelt.FetchRows | src/SearchGdelt.py:35-43 | the frame keeps the titled articles in order, labelled by their original positions, with every field of each article and the columns of all articles plus content |
| SearchGdelt.Titles | src/SearchGdelt.py:59-61 | the title column, row by row |
| SearchGdelt.FirstOccurrence | src/SearchGdelt.py:53 | one flag per title |
| SearchGdelt.NonEmpty | src/SearchGdelt.py:54 | one flag per title |
| SearchGdelt.Unmarked | src/SearchGdelt.py:57-65 | one flag per title |
| SearchGdelt.LabelDetermines | src/SearchGdelt.py:63 | the index label identifies the row after the exact-duplicate pass |
| SearchGdelt.NoCloseBeforeEarly | src/SearchGdelt.py:59-60 | an outer pass at or after row j never marks row j |
| SearchGdelt.NoCloseBeforeStep | src/SearchGdelt.py:59-63 | outer pass i marks row j > i iff the pair scores at least the threshold |
| SearchGdelt.MarkAgainst | src/SearchGdelt.py:60-63 | after the inner loop for row i, a row is unmarked iff no row up to i scores at least 80 against it |
| SearchGdelt.MarkNearDuplicates | src/SearchGdelt.py:57-63 | a row's label is in rows_to_drop iff some earlier title scores at least 80 against its title |
| SearchGdelt.CleanDataframe | src/SearchGdelt.py:50-69 | the cleaned frame keeps the columns, and its rows are the exact-duplicate, empty-title and near-duplicate passes in that order |
| SearchGdelt.CleanIsSubsequence | src/SearchGdelt.py:53-65 | cleaning only drops rows and keeps the order of the rest |
| SearchGdelt.CleanTitles | src/SearchGdelt.py:53-65 | no cleaned title is empty or repeated, and no two cleaned titles score at least 80 |
| SearchGdelt.FuzzyKeepsFirst | src/SearchGdelt.py:59-63 | the first row always survives the near-duplicate pass |
| SearchGdelt.CleanEmptyIff | src/SearchGdelt.py:53-65 | cleaning leaves no rows iff every title is empty |
| SearchGdelt.CleanIdempotent | src/SearchGdelt.py:50-69 | cleaning a cleaned frame changes nothing |
| SearchGdelt.ChainDropsBoth | src/SearchGdelt.py:59-63 | marks are not transitive but still drop: in a chain a~b~c where a and c are not close, only a survives |
| SearchGdelt.Clean | src/SearchGdelt.py:50-69 | exact-duplicate, empty-title and near-duplicate passes in that order; CleanDataframe, CleanTitles and CleanIdempotent state what it keeps |
| SearchGdelt.NonBlank | src/SearchGdelt.py:104 | one flag per title, set iff `title.strip()` is non-empty |
| SearchGdelt.RankedDocuments | src/SearchGdelt.py:104 | the filtered list is no longer than the input |
| SearchGdelt.RerankRequestFor | src/SearchGdelt.py:101-112 | the request rerank_documents sends, none for an all-blank list; RerankRequestSpec states its contents |
| SearchGdelt.RerankDocuments | src/SearchGdelt.py:101-113 | the empty-marker dict without a request, the ranker's answer to RerankRequestFor otherwise |
| SearchGdelt.RerankRequestSpec | src/SearchGdelt.py:101-113 | no request iff every title is blank; otherwise the query is the topic, the documents are a subsequence of the titles holding every non-blank title and nothing else, as many as there are non-blank titles, and top_n is min(count, 20) |
| SearchGdelt.PickRows | src/SearchGdelt.py:82-86 | row k is `iloc` of the k-th result's index with its score; fails iff some index is out of range |
| SearchGdelt.TopRows | src/SearchGdelt.py:82-86 | AttributeError on the empty marker, otherwise the rows of the first 20 results; TopRowsSpec states its outcome |
| SearchGdelt.TopRowsSpec | src/SearchGdelt.py:82-87 | the empty-ranking dict raises AttributeError; otherwise at most the first 20 results, in ranker order, each with its score |
| SearchGdelt.ItemsOf | src/SearchGdelt.py:96 | one record per picked row |
| SearchGdelt.SearchItems | src/SearchGdelt.py:71-99 | the records search_gdelt inserts or the exception raised before; SearchItemsSpec states their shape |
| SearchGdelt.SearchItemsSpec | src/SearchGdelt.py:71-99 | at most 20 records are inserted, each with a text title, a score, and '' in the three summary columns |
| SearchGdelt.RankerIndexMisaligned | src/SearchGdelt.py:78-83 | with a whitespace title ahead of a real one, the ranker's position 0 selects the whitespace row |
| SearchGdelt.SearchGdeltTopic | src/SearchGdelt.py:71-99 | an exception before the insert leaves the database unchanged; a missing topic table raises unless there is nothing to insert; otherwise the topic table gains exactly the records SearchItems describes, or the insert's exception leaves it unchanged |
| ScrapeNews.PendingOf | src/ScrapeNews.py:15-16 | the work list is no longer than the table |
| ScrapeNews.PendingOfMembers | src/ScrapeNews.py:15-16 | an entry is listed iff it is the id and url of a row whose news_body is NULL |
| ScrapeNews.PendingOfIncreasing | src/ScrapeNews.py:15-16 | the work list is in increasing id order |
| ScrapeNews.GetUrlsFromDatabase | src/ScrapeNews.py:12-19 | fails iff the table is missing; otherwise the rows with NULL news_body |
| ScrapeNews.GetCompletion | src/ScrapeNews.py:27-40 | an unknown topic raises ValueError with the source's message before any request; otherwise the first matching entry's topic name goes into the prompt |
| ScrapeNews.SummariesOf | src/ScrapeNews.py:81-95 | the dict get_completion returns for a reply; SummariesShape states each case |
| ScrapeNews.SummariesShape | src/ScrapeNews.py:81-95 | a decoded first tool call yields exactly its arguments; only such a reply yields a dict without 'error'; a reply without tool calls or with undecodable arguments yields the matching one-key error dict; transport failure or an empty tool-call list raises |
| ScrapeNews.SetEnrichmentEffect | src/ScrapeNews.py:105-118 | the UPDATE writes news_body and the three summary values, strings or NULL, into the rows with that id and changes no other column or row, keeping ids and urls |
| ScrapeNews.SetEnrichment | src/ScrapeNews.py:105-118 | the UPDATE on the rows; SetEnrichmentEffect states its effect |
| ScrapeNews.UpdateDatabase | src/ScrapeNews.py:98-121 | an empty or error dict skips the update; a missing table raises; otherwise the rows with that id get news_body and the three summary fields, '' when absent and NULL when null |
| ScrapeNews.ApplyAll | src/ScrapeNews.py:142-147 | processing a work list keeps the number of rows |
| ScrapeNews.ApplyAllSnoc | src/ScrapeNews.py:146-147 | processing one more article applies its own effect to the rows so far |
| ScrapeNews.ArticleEffect | src/ScrapeNews.py:123-140 | what process_article writes for one entry, nothing when any step raises or the update is skipped; ProcessArticle and EnrichmentAllOrNothing use it |
| ScrapeNews.ProcessArticle | src/ScrapeNews.py:123-140 | a scrape failure, a raised completion, a skipped update or a missing table leaves the tables alone; otherwise the article's row gets its enrichment |
| ScrapeNews.ProcessArticles | src/ScrapeNews.py:142-149 | a missing table raises; otherwise the table becomes every pending article's effect applied in turn |
| ScrapeNews.IdsDetermineRow | src/ScrapeNews.py:111 | in a table with increasing ids, an id names one row |
| ScrapeNews.ApplyStepAt | src/ScrapeNews.py:146-147 | one article's update touches only its own row |
| ScrapeNews.ApplyAllPointwise | src/ScrapeNews.py:146-147 | with distinct ids, each row is processed iff its entry is in the list, independent of order |
| ScrapeNews.ProcessArticlesPointwise | src/ScrapeNews.py:142-149 | after a run, each row with NULL news_body is what its own article made of it, and every other row is unchanged |
| ScrapeNews.EnrichmentAllOrNothing | src/ScrapeNews.py:105-147 | after a run every row is unchanged, or it had a NULL news_body, its scrape succeeded, its completion returned, and it is exactly that completion's enrichment of the row |
| ScrapeNews.ProcessKeepsIds | src/ScrapeNews.py:142-149 | a run keeps every id and url, so rowid order survives |
| ScrapeNews.RerunKeepsEnriched | src/ScrapeNews.py:12-19 | a second run never touches a row a first run enriched |
| ScrapeNews.FailedArticleStaysPending | src/ScrapeNews.py:130-140 | a row whose article fails is unchanged and is listed again by the next run |
| ScrapeNews.NullSummaryNotRetried | src/ScrapeNews.py:113-116 | an article whose summary_en comes back null gets a non-NULL news_body and a NULL summary_en, and the next run's work list no longer lists it |
| GetWatchlist.SelectedIff | src/GetWatchlist.py:23 | a row is selected iff its date_added is the target date and summary_en is not NULL |
| GetWatchlist.FirstPerUrl | src/GetWatchlist.py:24 | the flag marks exactly the selected rows whose url no earlier selected row has |
| GetWatchlist.GroupByUrl | src/GetWatchlist.py:20-26 | the lowest rowid of each url among the selected rows, in rowid order; GroupByUrlIsGrouping states that it is a valid answer |
| GetWatchlist.GroupByUrlIsGrouping | src/GetWatchlist.py:20-26 | the answer has only selected rows, one per url, and every url of a selected row |
| GetWatchlist.GroupedRowAt | src/GetWatchlist.py:21-26 | each answer record is some selected row's id, url and summary |
| GetWatchlist.GroupedRowsSelected | src/GetWatchlist.py:21-26 | every answer record comes from a selected row |
| GetWatchlist.GroupedUrlsDistinct | src/GetWatchlist.py:24 | no url occurs twice in the answer |
| GetWatchlist.GroupedUrlsComplete | src/GetWatchlist.py:23-24 | every selected row's url is in the answer |
| GetWatchlist.GetSummariesFromDatabase | src/GetWatchlist.py:17-28 | fails with OperationalError iff the table is missing; otherwise the answer is a valid url grouping of the day's rows |
| GetWatchlist.EmptyAnswerIff | src/GetWatchlist.py:20-26 | any valid answer is empty iff no row of the table is selected for the day |
| GetWatchlist.UnenrichedRowSelected | src/GetWatchlist.py:23 | a row with the '' summary that discovery stored is selected on its date, so its url is in every valid answer |
| GetWatchlist.SummaryTexts | src/GetWatchlist.py:34 | the summaries in list order |
| GetWatchlist.UrlsOf | src/GetWatchlist.py:35 | the urls in list order |
| GetWatchlist.NoSummariesNoRequest | src/GetWatchlist.py:30-32 | without summaries no request is sent and the result is the 'No summaries' error dict |
| GetWatchlist.GenerateWatchlist | src/GetWatchlist.py:30-87 | generate_watchlist; NoSummariesNoRequest and GenerateWatchlistSpec state its outcomes |
| GetWatchlist.GenerateWatchlistSpec | src/GetWatchlist.py:30-87 | the message is the fixed prefix and every summary once, in order, space-separated; a decoded reply gives exactly its fields with 'urls' set to the parallel url list, and only a decoded reply carries urls; undecodable arguments and a reply without tool calls give their one-key error dicts; transport failure or no tool calls raises |
| GetWatchlist.UrlsJson | src/GetWatchlist.py:116 | json.dumps of the url list of a decoded reply, `[]` for an error dict |
| GetWatchlist.AppendWatchlist | src/GetWatchlist.py:97-117 | the table after CREATE TABLE IF NOT EXISTS and one appended row; AppendWatchlistSpec states it |
| GetWatchlist.AppendWatchlistSpec | src/GetWatchlist.py:97-117 | the new row comes last with a fresh id and the given fields; earlier rows stay; the table stays valid |
| GetWatchlist.SameDayStoredTwice | src/GetWatchlist.py:109-117 | storing twice for the same topic and day leaves two rows, not one |
| GetWatchlist.UpdatedWatchlist | src/GetWatchlist.py:89-121 | update_watchlist_database as a value: outcome and table; UpdatedWatchlistSpec states each case |
| GetWatchlist.UpdatedWatchlistSpec | src/GetWatchlist.py:89-121 | an error dict stores nothing; otherwise the table exists with its earlier rows, and gets exactly one new row with the topic, the ISO date, the narrative and the urls, unless the narrative is null, which raises IntegrityError and adds no row; a valid table stays valid |
| GetWatchlist.UpdateWatchlistDatabase | src/GetWatchlist.py:89-121 | an error dict changes nothing; a null narrative raises IntegrityError and leaves only the created table; otherwise one row is appended with the ISO date, the narrative or '', and json.dumps of the urls |
| GetWatchlist.StoredWatchlist | src/GetWatchlist.py:123-130 | generate_and_store_watchlist given the query's answer: its outcome and the watchlist table |
| GetWatchlist.NothingSelectedNothingStored | src/GetWatchlist.py:123-130 | for any valid answer of the query, a day without selected rows leaves the watchlist table alone, whatever the service would answer |
| GetWatchlist.StoredWatchlistAddsOneRow | src/GetWatchlist.py:89-130 | a run keeps the table valid; a successful run that changes the table adds exactly one row for the topic, dated with the target day; a failed run changes nothing except creating the empty table |
| GetWatchlist.DigestUrlsCoverDay | src/GetWatchlist.py:17-117 | a stored row's urls_used is json.dumps of the answer's urls: each url of the day's selected rows appears, and none twice |
| GetWatchlist.GenerateAndStoreWatchlist | src/GetWatchlist.py:123-130 | for any valid answer of the query, the method raises what StoredWatchlist raises and leaves the watchlist table it describes; the topic tables are untouched |
| NatoWatchlist.SpaceRun | webapp/js/NATOWatchlist.js:57 | the longest whitespace prefix |
| NatoWatchlist.SplitFrom | webapp/js/NATOWatchlist.js:57 | one more sentence than separators; the first sentence is a prefix of the text |
| NatoWatchlist.Sentences | webapp/js/NATOWatchlist.js:57 | the split yields at least one sentence |
| NatoWatchlist.SplitFromRestores | webapp/js/NATOWatchlist.js:57 | sentences and separators interleaved restore the text |
| NatoWatchlist.SplitFromSeps | webapp/js/NATOWatchlist.js:57 | every separator is a non-empty whitespace run |
| NatoWatchlist.SplitFromEnds | webapp/js/NATOWatchlist.js:57 | every sentence followed by a separator ends in . ! or ? |
| NatoWatchlist.SplitFromStarts | webapp/js/NATOWatchlist.js:57 | no sentence after a separator starts with whitespace, so each run is split whole |
| NatoWatchlist.NoSplitPointCons | webapp/js/NATOWatchlist.js:57 | prepending a character keeps a sentence free of split points when a punctuation mark is not followed by whitespace |
| NatoWatchlist.SplitFromNoSplitPoint | webapp/js/NATOWatchlist.js:57 | no sentence contains punctuation followed by whitespace |
| NatoWatchlist.SentencesSpec | webapp/js/NATOWatchlist.js:57 | `split(/(?<=[.!?])\s+/)` splits exactly at the whitespace runs after . ! or ?, and at nothing else |
| NatoWatchlist.Groups | webapp/js/NATOWatchlist.js:61-68 | ceil(n/3) paragraphs of 1 to 3 sentences, all but the last of exactly 3 |
| NatoWatchlist.GroupsFlatten | webapp/js/NATOWatchlist.js:61-68 | the paragraphs hold every sentence once, in order |
| NatoWatchlist.ParagraphTexts | webapp/js/NATOWatchlist.js:65 | each paragraph's sentences joined with a space |
| NatoWatchlist.ParagraphsRejoin | webapp/js/NATOWatchlist.js:61-68 | joining the paragraph texts with spaces equals joining the sentences with spaces |
| NatoWatchlist.EmptyWatchlist | webapp/js/NATOWatchlist.js:56-71 | an empty watchlist still yields one empty paragraph |
| NatoWatchlist.RenderAppend | webapp/js/NATOWatchlist.js:65 | rendering is concatenation of the paragraphs |
| NatoWatchlist.GroupsSnoc | webapp/js/NATOWatchlist.js:64 | a final short group is the sentences after the last full paragraph |
| NatoWatchlist.FlushStep | webapp/js/NATOWatchlist.js:64-66 | each flush appends the paragraph of the buffered sentences |
| NatoWatchlist.FormatWatchlist | webapp/js/NATOWatchlist.js:56-71 | the forEach loop produces exactly the three-sentence paragraphs of the split text |
| NatoWatchlist.Formatted | webapp/js/NATOWatchlist.js:56-71 | formatWatchlist's text: the sentences rendered as paragraphs of three; FormatWatchlist, GroupsFlatten and ParagraphsRejoin state it |
| NatoWatchlist.SourceList | webapp/js/NATOWatchlist.js:51 | one trimmed item per comma piece of urls_used |
| NatoWatchlist.TailPieces | webapp/js/NATOWatchlist.js:51 | the comma pieces of a joined list: the space after each comma kept, the bracket on the last |
| NatoWatchlist.SplitOnFree | webapp/js/NATOWatchlist.js:51 | text without the separator splits into itself |
| NatoWatchlist.SplitCommaSpace | webapp/js/NATOWatchlist.js:51 | splitting at a ", " keeps the space on the next piece |
| NatoWatchlist.SplitTail | webapp/js/NATOWatchlist.js:51 | splitting `a, b, c]` at commas gives the pieces TailPieces describes |
| NatoWatchlist.SplitDumps | webapp/js/NATOWatchlist.js:51 | json.dumps of comma-free urls splits into the bracketed first piece and the tail pieces |
| NatoWatchlist.FirstPiece | webapp/js/NATOWatchlist.js:51 | the first piece carries the opening bracket |
| NatoWatchlist.LaterPiece | webapp/js/NATOWatchlist.js:51 | later pieces are a space and the list item |
| NatoWatchlist.DumpPieces | webapp/js/NATOWatchlist.js:51 | json.dumps of comma-free urls splits into one piece per url |
| NatoWatchlist.SourcesOfStoredUrls | webapp/js/NATOWatchlist.js:51 | for comma-free urls the page lists one source per url, in order, still in JSON quotes, with the list's brackets on the first and last |
| NatoWatchlist.SourceCountOfStoredUrls | webapp/js/NATOWatchlist.js:51 | for any stored url list, a url with m commas becomes m + 1 list items, so the page lists one source per url exactly when no url has a comma |
| NatoWatchlist.StrLeTotal | webapp/js/NATOWatchlist.js:12 | the text order is total |
| NatoWatchlist.StrLeTrans | webapp/js/NATOWatchlist.js:12 | the text order is transitive |
| NatoWatchlist.LatestNato | webapp/js/NATOWatchlist.js:8-14 | None iff no NATO row; otherwise a NATO row of the table whose date_added no NATO row exceeds |
| NatoWatchlist.NatoPage | webapp/js/NATOWatchlist.js:1-30 | the error page iff the table cannot be read; the no-data page iff no NATO row exists; otherwise the latest NATO row, formatted, with its date and source list |

## Left out

- HTTP, JSON decoding of replies and the services themselves are function parameters. Errors inside them are modelled only as the outcomes the source distinguishes: HTTP status, missing keys, transport failure, undecodable arguments and scrape failure.
- Decoded tool-call arguments are a dict whose values are strings or JSON null. Numbers, booleans, nested values and a top level that is not a dict are not modelled.
- The query-parameters and topic-parameters files are read once per call. Their topic lists are parameters, and a file without a `topics` key is not modelled.
- `fuzz.ratio` is an arbitrary function of two titles with a score in 0..100. The Levenshtein-based ratio itself is not modelled.
- The ranker's relevance scores are opaque reals. Floats, NaN and `relevance_score` arithmetic are not modelled. A NaN or None cell is the SQL NULL `Cell.Null`.
- `pd.json_normalize` flattening of nested objects is not modelled: every article is a flat map of cells.
- `drop_duplicates(inplace=True)` also changes the caller's DataFrame. The model returns a new frame and does not capture that aliasing.
- `asyncio.gather` runs process_article concurrently. The model processes the work list sequentially. Each article touches only its own row, and `ScrapeNews.ApplyAllPointwise` proves that the result does not depend on the order.
- `scrape_article` is not modelled beyond a URL-to-text-or-failure parameter. newspaper's download and parse are not part of this model.
- GetWatchlist.GetSummariesFromDatabase: SQLite may report any row of a url group, in any order. This function gives one valid answer: the lowest rowid of each url, in rowid order. `GenerateAndStoreWatchlist` and the lemmas about a run take any answer that `IsSummariesAnswer` admits instead.
- NatoWatchlist.LatestNato: `ORDER BY date_added DESC LIMIT 1` may pick any of several rows with the same newest date. The model picks one of them, and its contract states only that no NATO row is newer.
- Dates.IsoFormat: dates are any year 1-9999, month 1-12, day 1-31. Month lengths are not checked.
- NatoWatchlist.SourcesOfStoredUrls: states the item texts only for urls without commas. For a url with commas, `SourceCountOfStoredUrls` gives the number of items it is split into, but not their texts.
- `toLocaleDateString`, the DOM and `innerHTML` are not modelled. The page is a datatype holding the formatted content, the stored date text and the source list. The `<li>`/`<a>` markup around each source is not modelled.
- The `fetch` and sql.js loading failures of the page are one outcome, a missing watchlist table, which shows the error page.
- Logging (`print`, `console.error`), the timing in get_completion and the debug prints are not modelled.
- `run_news_scraper`, `run_watchlist_generator`, the `__main__` blocks, `src/daily_run.py`, `src/config_example.py` and `webapp/js/script.js` are not part of this model.
