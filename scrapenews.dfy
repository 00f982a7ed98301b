/** The summarization stage of src/ScrapeNews.py: every row of a topic table
    whose news_body is NULL has its page scraped and summarized by the language
    model, and the four enrichment columns are written together. The scraper
    and the chat endpoint are parameters; the per-article tasks, which
    asyncio.gather runs concurrently, are modelled one after the other. */
module ScrapeNews {
  import opened Common
  import opened Store
  import opened ChatApi

  // ---------------------------------------------------------------------------
  // get_urls_from_database

  /** One `{"id": ..., "url": ...}` record of the work list. */
  datatype PendingArticle = PendingArticle(id: nat, url: string)

  function PendingEntry(row: ArticleRow): PendingArticle {
    PendingArticle(row.id, row.url)
  }

  /** `SELECT id, url FROM <country> WHERE news_body IS NULL`, in rowid order. */
  function PendingOf(rows: seq<ArticleRow>): (r: seq<PendingArticle>)
    ensures |r| <= |rows|
  {
    if rows == [] then []
    else if rows[0].newsBody == Null then [PendingEntry(rows[0])] + PendingOf(rows[1..])
    else PendingOf(rows[1..])
  }

  /** The work list holds exactly the rows whose news_body is NULL. */
  lemma {:induction false} PendingOfMembers(rows: seq<ArticleRow>)
    ensures forall p :: p in PendingOf(rows) <==> exists k :: 0 <= k < |rows| && rows[k].newsBody == Null && p == PendingEntry(rows[k])
  {
    if rows != [] {
      PendingOfMembers(rows[1..]);
      var rest := PendingOf(rows[1..]);
      forall p | p in rest
        ensures exists k :: 1 <= k < |rows| && rows[k].newsBody == Null && p == PendingEntry(rows[k])
      {
        var k :| 0 <= k < |rows[1..]| && rows[1..][k].newsBody == Null && p == PendingEntry(rows[1..][k]);
        assert rows[k + 1] == rows[1..][k];
      }
      forall k | 1 <= k < |rows| && rows[k].newsBody == Null ensures PendingEntry(rows[k]) in rest {
        assert rows[k] == rows[1..][k - 1];
      }
    }
  }

  /** In rowid order the work list's ids increase. */
  lemma {:induction false} PendingOfIncreasing(rows: seq<ArticleRow>)
    requires IdsIncreasing(rows)
    ensures forall a, b :: 0 <= a < b < |PendingOf(rows)| ==> PendingOf(rows)[a].id < PendingOf(rows)[b].id
  {
    if rows != [] {
      PendingOfIncreasing(rows[1..]);
      PendingOfMembers(rows[1..]);
      var rest := PendingOf(rows[1..]);
      if rows[0].newsBody == Null {
        forall b | 0 <= b < |rest| ensures rows[0].id < rest[b].id {
          assert rest[b] in rest;
          var k :| 0 <= k < |rows[1..]| && rows[1..][k].newsBody == Null && rest[b] == PendingEntry(rows[1..][k]);
          assert rows[1..][k] == rows[k + 1];
        }
        var r := [PendingEntry(rows[0])] + rest;
        assert forall a :: 1 <= a < |r| ==> r[a] == rest[a - 1];
      }
    }
  }

  /** get_urls_from_database: the work list, or sqlite3's error for a missing table. */
  function GetUrlsFromDatabase(tables: map<string, Table>, country: string): (r: Result<seq<PendingArticle>>)
    ensures r.Err? <==> country !in tables
    ensures r.Ok? ==> r.value == PendingOf(tables[country].rows)
  {
    if country in tables then Ok(PendingOf(tables[country].rows)) else Err(OperationalError(country))
  }

  // ---------------------------------------------------------------------------
  // get_completion

  /** One entry of topic_params.json. */
  datatype PromptTopic = PromptTopic(topic: string, prompt: string, topicName: string)

  /** The user message sent for one article. */
  function SummarizePrompt(topicName: string, articleText: string): string {
    "You receive news articles. They are centered around the " + topicName
      + ". Your task is to summarise: " + articleText + "."
  }

  /** The dict get_completion makes of the reply. */
  function SummariesOf(resp: ChatResponse): Result<map<string, Cell>> {
    match ReadToolCall(resp)
    case Err(e) => Err(e)
    case Ok(Parsed(fields)) => Ok(fields)
    case Ok(InvalidJson) => Ok(ErrorDict(InvalidJsonMessage))
    case Ok(UnexpectedFormat) => Ok(ErrorDict(UnexpectedFormatMessage))
  }

  /** The external services one run depends on. */
  datatype Services = Services(
    topics: seq<PromptTopic>,                 // the "topics" list of topic_params.json
    scrape: string -> ScrapeOutcome,          // newspaper's download and parse of a URL
    chat: string -> ChatResponse)             // the chat-completions endpoint, by user message

  datatype ScrapeOutcome = Scraped(text: string) | ScrapeFailed

  /** get_completion: the first topic entry with the given name picks the topic
      name for the prompt; an unknown topic raises ValueError before any request. */
  function GetCompletion(sv: Services, topic: string, articleText: string): (r: Result<map<string, Cell>>)
    ensures (forall k :: 0 <= k < |sv.topics| ==> sv.topics[k].topic != topic) ==>
      r == Err(ValueError("Topic '" + topic + "' not found in the JSON data."))
    ensures forall k ::
      (0 <= k < |sv.topics| && sv.topics[k].topic == topic && forall m :: 0 <= m < k ==> sv.topics[m].topic != topic) ==>
      r == SummariesOf(sv.chat(SummarizePrompt(sv.topics[k].topicName, articleText)))
  {
    match FindFirst(sv.topics, (t: PromptTopic) => t.topic == topic)
    case None => Err(ValueError("Topic '" + topic + "' not found in the JSON data."))
    case Some(k) => SummariesOf(sv.chat(SummarizePrompt(sv.topics[k].topicName, articleText)))
  }

  /** A well-formed reply yields its decoded dict, and only a well-formed reply
      yields a dict without the 'error' key; every other reply gives a one-key
      error dict or raises. */
  lemma SummariesShape(resp: ChatResponse)
    ensures HasToolCalls(resp) && |ToolCalls(resp)| > 0 && ToolCalls(resp)[0].arguments.Decoded? ==>
      SummariesOf(resp) == Ok(ToolCalls(resp)[0].arguments.fields)
    ensures SummariesOf(resp).Ok? && "error" !in SummariesOf(resp).value ==>
      HasToolCalls(resp) && |ToolCalls(resp)| > 0 && ToolCalls(resp)[0].arguments == Decoded(SummariesOf(resp).value)
    ensures SummariesOf(resp).Err? <==> resp.TransportFailure? || (HasToolCalls(resp) && ToolCalls(resp) == [])
    ensures resp.Reply? && !HasToolCalls(resp) ==> SummariesOf(resp) == Ok(ErrorDict(UnexpectedFormatMessage))
    ensures HasToolCalls(resp) && |ToolCalls(resp)| > 0 && ToolCalls(resp)[0].arguments.Undecodable? ==>
      SummariesOf(resp) == Ok(ErrorDict(InvalidJsonMessage))
  {
  }

  // ---------------------------------------------------------------------------
  // update_database

  /** The four values one UPDATE writes. */
  datatype Enrichment = Enrichment(newsBody: string, shortTitleEn: Cell, summaryEn: Cell, sentiment: Cell)

  /** An empty dict or one with an 'error' key is not written. */
  predicate SkipsUpdate(summaries: map<string, Cell>) {
    |summaries| == 0 || "error" in summaries
  }

  /** The scraped text and the summary fields, a missing key giving '' and a
      JSON null giving NULL. */
  function EnrichmentOf(newsBody: string, summaries: map<string, Cell>): Enrichment {
    Enrichment(newsBody, GetOrEmpty(summaries, "short_title_en"),
      GetOrEmpty(summaries, "summary_en"), GetOrEmpty(summaries, "sentiment"))
  }

  function Enrich(row: ArticleRow, e: Enrichment): ArticleRow {
    row.(newsBody := Text(e.newsBody), shortTitleEn := e.shortTitleEn,
         summaryEn := e.summaryEn, sentiment := e.sentiment)
  }

  /** `UPDATE <country> SET news_body = ?, short_title_en = ?, summary_en = ?, sentiment = ? WHERE id = ?` */
  function SetEnrichment(rows: seq<ArticleRow>, id: nat, e: Enrichment): seq<ArticleRow> {
    seq(|rows|, k requires 0 <= k < |rows| => if rows[k].id == id then Enrich(rows[k], e) else rows[k])
  }

  /** The UPDATE rewrites the four enrichment columns of the row with that id,
      news_body with the (non-NULL) scraped text, and changes no other column
      and no other row. */
  lemma SetEnrichmentEffect(rows: seq<ArticleRow>, id: nat, e: Enrichment)
    ensures |SetEnrichment(rows, id, e)| == |rows|
    ensures forall k :: 0 <= k < |rows| && rows[k].id != id ==> SetEnrichment(rows, id, e)[k] == rows[k]
    ensures forall k :: 0 <= k < |rows| && rows[k].id == id ==>
      var r := SetEnrichment(rows, id, e)[k];
      && r.newsBody == Text(e.newsBody) && r.shortTitleEn == e.shortTitleEn
      && r.summaryEn == e.summaryEn && r.sentiment == e.sentiment
      && r == rows[k].(newsBody := r.newsBody, shortTitleEn := r.shortTitleEn,
                       summaryEn := r.summaryEn, sentiment := r.sentiment)
    ensures forall k :: 0 <= k < |rows| ==> PendingEntry(SetEnrichment(rows, id, e)[k]) == PendingEntry(rows[k])
  {
  }

  datatype UpdateStatus = Skipped | Updated

  method UpdateDatabase(db: Database, country: string, articleId: nat, newsBody: string, summaries: map<string, Cell>)
    returns (r: Result<UpdateStatus>)
    requires db.Valid()
    modifies db
    ensures db.Valid() && db.watchlist == old(db.watchlist)
    ensures SkipsUpdate(summaries) ==> r == Ok(Skipped) && db.tables == old(db.tables)
    ensures !SkipsUpdate(summaries) && country !in old(db.tables) ==>
      r == Err(OperationalError(country)) && db.tables == old(db.tables)
    ensures !SkipsUpdate(summaries) && country in old(db.tables) ==>
      var t := old(db.tables[country]);
      r == Ok(Updated) && db.tables == old(db.tables)[country := t.(rows := SetEnrichment(t.rows, articleId, EnrichmentOf(newsBody, summaries)))]
  {
    if SkipsUpdate(summaries) {
      return Ok(Skipped);
    }
    if country !in db.tables {
      return Err(OperationalError(country));
    }
    var t := db.tables[country];
    var e := EnrichmentOf(newsBody, summaries);
    var rows := t.rows;
    // the UPDATE visits every row and rewrites the one whose id matches
    for k := 0 to |rows|
      invariant |rows| == |t.rows|
      invariant forall m :: 0 <= m < k ==> rows[m] == if t.rows[m].id == articleId then Enrich(t.rows[m], e) else t.rows[m]
      invariant forall m :: k <= m < |rows| ==> rows[m] == t.rows[m]
    {
      if rows[k].id == articleId {
        rows := rows[k := Enrich(rows[k], e)];
      }
    }
    assert rows == SetEnrichment(t.rows, articleId, e);
    db.tables := db.tables[country := t.(rows := rows)];
    return Ok(Updated);
  }

  // ---------------------------------------------------------------------------
  // process_article and process_articles

  /** What process_article writes for one work-list entry: nothing when the
      scrape fails, the completion raises (every exception is caught and
      logged) or the summaries are skipped. */
  function ArticleEffect(sv: Services, country: string, p: PendingArticle): Option<Enrichment> {
    match sv.scrape(p.url)
    case ScrapeFailed => None
    case Scraped(text) =>
      match GetCompletion(sv, country, text)
      case Err(_) => None
      case Ok(summaries) => if SkipsUpdate(summaries) then None else Some(EnrichmentOf(text, summaries))
  }

  function ApplyEffect(rows: seq<ArticleRow>, p: PendingArticle, effect: Option<Enrichment>): seq<ArticleRow> {
    match effect
    case None => rows
    case Some(e) => SetEnrichment(rows, p.id, e)
  }

  /** The rows after processing the work list in order. */
  function ApplyAll(sv: Services, country: string, rows: seq<ArticleRow>, ps: seq<PendingArticle>): (r: seq<ArticleRow>)
    ensures |r| == |rows|
    decreases |ps|
  {
    if ps == [] then rows
    else
      var last := ps[|ps| - 1];
      ApplyEffect(ApplyAll(sv, country, rows, ps[..|ps| - 1]), last, ArticleEffect(sv, country, last))
  }

  /** Processing one more article of the list. */
  lemma ApplyAllSnoc(sv: Services, country: string, rows: seq<ArticleRow>, ps: seq<PendingArticle>, i: nat)
    requires i < |ps|
    ensures ApplyAll(sv, country, rows, ps[..i + 1]) ==
      ApplyEffect(ApplyAll(sv, country, rows, ps[..i]), ps[i], ArticleEffect(sv, country, ps[i]))
  {
    assert ps[..i + 1][..i] == ps[..i];
  }

  /** What one pending row becomes after its own article is processed. */
  function Processed(sv: Services, country: string, row: ArticleRow): ArticleRow {
    match ArticleEffect(sv, country, PendingEntry(row))
    case None => row
    case Some(e) => Enrich(row, e)
  }

  method ProcessArticle(db: Database, country: string, sv: Services, article: PendingArticle)
    requires db.Valid()
    modifies db
    ensures db.Valid() && db.watchlist == old(db.watchlist)
    ensures country !in old(db.tables) || ArticleEffect(sv, country, article).None? ==> db.tables == old(db.tables)
    ensures country in old(db.tables) && ArticleEffect(sv, country, article).Some? ==>
      var t := old(db.tables[country]);
      db.tables == old(db.tables)[country := t.(rows := SetEnrichment(t.rows, article.id, ArticleEffect(sv, country, article).value))]
  {
    var page := sv.scrape(article.url);
    if page.ScrapeFailed? {
      assert ArticleEffect(sv, country, article).None?;
      return;
    }
    var summaries := GetCompletion(sv, country, page.text);
    if summaries.Err? {
      assert ArticleEffect(sv, country, article).None?;
      return;
    }
    assert ArticleEffect(sv, country, article) ==
      if SkipsUpdate(summaries.value) then None else Some(EnrichmentOf(page.text, summaries.value));
    var status := UpdateDatabase(db, country, article.id, page.text, summaries.value);
  }

  method ProcessArticles(db: Database, country: string, sv: Services) returns (r: Result<()>)
    requires db.Valid()
    modifies db
    ensures db.Valid() && db.watchlist == old(db.watchlist)
    ensures country !in old(db.tables) ==> r == Err(OperationalError(country)) && db.tables == old(db.tables)
    ensures country in old(db.tables) ==>
      var t := old(db.tables[country]);
      r == Ok(()) && db.tables == old(db.tables)[country := t.(rows := ApplyAll(sv, country, t.rows, PendingOf(t.rows)))]
  {
    var pending := GetUrlsFromDatabase(db.tables, country);
    if pending.Err? {
      return Err(pending.error);
    }
    var articles := pending.value;
    ghost var t := db.tables[country];
    for i := 0 to |articles|
      invariant db.Valid() && db.watchlist == old(db.watchlist)
      invariant db.tables == old(db.tables)[country := t.(rows := ApplyAll(sv, country, t.rows, articles[..i]))]
    {
      ApplyAllSnoc(sv, country, t.rows, articles, i);
      ProcessArticle(db, country, sv, articles[i]);
    }
    assert articles[..|articles|] == articles;
    return Ok(());
  }

  // ---------------------------------------------------------------------------
  // What one run does to a table

  /** In rowid order no id occurs twice. */
  lemma IdsDetermineRow(rows: seq<ArticleRow>, j: nat, k: nat)
    requires IdsIncreasing(rows) && j < |rows| && k < |rows|
    ensures rows[j].id == rows[k].id ==> j == k
  {
    if j < k { assert rows[j].id < rows[k].id; }
    if k < j { assert rows[k].id < rows[j].id; }
  }

  predicate DistinctIds(ps: seq<PendingArticle>) {
    forall a, b :: 0 <= a < b < |ps| ==> ps[a].id != ps[b].id
  }

  /** One more article on the work list, seen at row k. */
  lemma ApplyStepAt(sv: Services, country: string, rows: seq<ArticleRow>, rows1: seq<ArticleRow>,
                    init: seq<PendingArticle>, last: PendingArticle, k0: nat, k: nat)
    requires IdsIncreasing(rows) && |rows1| == |rows| && k < |rows| && k0 < |rows|
    requires last == PendingEntry(rows[k0]) && last !in init
    requires rows1[k] == if PendingEntry(rows[k]) in init then Processed(sv, country, rows[k]) else rows[k]
    requires rows1[k0] == rows[k0]
    ensures ApplyEffect(rows1, last, ArticleEffect(sv, country, last))[k] ==
      if PendingEntry(rows[k]) in init + [last] then Processed(sv, country, rows[k]) else rows[k]
  {
    var effect := ArticleEffect(sv, country, last);
    assert PendingEntry(rows[k]) in init + [last] <==> PendingEntry(rows[k]) in init || PendingEntry(rows[k]) == last;
    IdsDetermineRow(rows, k, k0);
    if k != k0 {
      assert rows1[k].id == rows[k].id;
    }
  }

  /** Processing a list of distinct entries of the table changes each listed
      row as its own article dictates and leaves every other row alone. */
  lemma {:induction false} ApplyAllPointwise(sv: Services, country: string, rows: seq<ArticleRow>, ps: seq<PendingArticle>)
    requires IdsIncreasing(rows)
    requires DistinctIds(ps)
    requires forall a :: 0 <= a < |ps| ==> exists k :: 0 <= k < |rows| && ps[a] == PendingEntry(rows[k])
    ensures |ApplyAll(sv, country, rows, ps)| == |rows|
    ensures forall k :: 0 <= k < |rows| ==>
      ApplyAll(sv, country, rows, ps)[k] == if PendingEntry(rows[k]) in ps then Processed(sv, country, rows[k]) else rows[k]
    decreases |ps|
  {
    if ps != [] {
      var init := ps[..|ps| - 1];
      var last := ps[|ps| - 1];
      assert ps == init + [last];
      assert forall a :: 0 <= a < |init| ==> init[a] == ps[a];
      assert DistinctIds(init);
      assert forall a :: 0 <= a < |init| ==> exists k :: 0 <= k < |rows| && init[a] == PendingEntry(rows[k]);
      ApplyAllPointwise(sv, country, rows, init);
      var rows1 := ApplyAll(sv, country, rows, init);
      var k0 :| 0 <= k0 < |rows| && last == PendingEntry(rows[k0]);
      assert last !in init by {
        forall a | 0 <= a < |init| ensures init[a] != last {
          assert init[a] == ps[a];
        }
      }
      assert rows1[k0] == rows[k0];
      var result := ApplyEffect(rows1, last, ArticleEffect(sv, country, last));
      assert ApplyAll(sv, country, rows, ps) == result;
      forall k | 0 <= k < |rows|
        ensures result[k] == if PendingEntry(rows[k]) in ps then Processed(sv, country, rows[k]) else rows[k]
      {
        ApplyStepAt(sv, country, rows, rows1, init, last, k0, k);
      }
    }
  }

  /** One run of process_articles over a table: each row whose news_body was
      NULL becomes what its own article produced, independently of the other
      articles' outcomes, and every already-enriched row is left as it was. */
  lemma ProcessArticlesPointwise(sv: Services, country: string, rows: seq<ArticleRow>)
    requires IdsIncreasing(rows)
    ensures |ApplyAll(sv, country, rows, PendingOf(rows))| == |rows|
    ensures forall k :: 0 <= k < |rows| ==>
      ApplyAll(sv, country, rows, PendingOf(rows))[k] == if rows[k].newsBody == Null then Processed(sv, country, rows[k]) else rows[k]
  {
    var ps := PendingOf(rows);
    PendingOfMembers(rows);
    PendingOfIncreasing(rows);
    assert DistinctIds(ps);
    forall a | 0 <= a < |ps| ensures exists k :: 0 <= k < |rows| && ps[a] == PendingEntry(rows[k]) {
      assert ps[a] in ps;
    }
    ApplyAllPointwise(sv, country, rows, ps);
    forall k | 0 <= k < |rows| ensures PendingEntry(rows[k]) in ps <==> rows[k].newsBody == Null {
      if PendingEntry(rows[k]) in ps {
        var j :| 0 <= j < |rows| && rows[j].newsBody == Null && PendingEntry(rows[k]) == PendingEntry(rows[j]);
        IdsDetermineRow(rows, j, k);
      }
    }
  }

  /** The four enrichment columns are written together or not at all: after a
      run every row is unchanged, or it was pending and now holds its scraped
      page as news_body and the reply's three summary fields (a missing key
      giving '', a JSON null giving NULL), with every other column as before. */
  lemma EnrichmentAllOrNothing(sv: Services, country: string, rows: seq<ArticleRow>)
    requires IdsIncreasing(rows)
    ensures forall k :: 0 <= k < |rows| ==>
      var r := ApplyAll(sv, country, rows, PendingOf(rows))[k];
      || r == rows[k]
      || (&& rows[k].newsBody == Null && r.newsBody.Text?
          && sv.scrape(rows[k].url) == Scraped(r.newsBody.s)
          && GetCompletion(sv, country, r.newsBody.s).Ok?
          && r == Enrich(rows[k], EnrichmentOf(r.newsBody.s, GetCompletion(sv, country, r.newsBody.s).value)))
  {
    ProcessArticlesPointwise(sv, country, rows);
    forall k | 0 <= k < |rows| && rows[k].newsBody == Null
      ensures var r := ApplyAll(sv, country, rows, PendingOf(rows))[k];
        || r == rows[k]
        || (&& r.newsBody.Text?
            && sv.scrape(rows[k].url) == Scraped(r.newsBody.s)
            && GetCompletion(sv, country, r.newsBody.s).Ok?
            && r == Enrich(rows[k], EnrichmentOf(r.newsBody.s, GetCompletion(sv, country, r.newsBody.s).value)))
    {
      var effect := ArticleEffect(sv, country, PendingEntry(rows[k]));
      if effect.Some? {
        var text := sv.scrape(rows[k].url).text;
        assert effect.value == EnrichmentOf(text, GetCompletion(sv, country, text).value);
      }
    }
  }

  /** A reply whose summary_en is JSON null still writes news_body, so the row
      leaves the work list with a NULL summary and no later run retries it. */
  lemma NullSummaryNotRetried(sv: Services, country: string, rows: seq<ArticleRow>, k: nat)
    requires IdsIncreasing(rows)
    requires k < |rows| && rows[k].newsBody == Null
    requires ArticleEffect(sv, country, PendingEntry(rows[k])).Some?
    requires ArticleEffect(sv, country, PendingEntry(rows[k])).value.summaryEn == Null
    ensures
      var once := ApplyAll(sv, country, rows, PendingOf(rows));
      && |once| == |rows| && once[k].newsBody.Text? && once[k].summaryEn == Null
      && PendingEntry(rows[k]) !in PendingOf(once)
  {
    ProcessArticlesPointwise(sv, country, rows);
    ProcessKeepsIds(sv, country, rows);
    var once := ApplyAll(sv, country, rows, PendingOf(rows));
    PendingOfMembers(once);
    if PendingEntry(rows[k]) in PendingOf(once) {
      var j :| 0 <= j < |once| && once[j].newsBody == Null && PendingEntry(rows[k]) == PendingEntry(once[j]);
      IdsDetermineRow(once, j, k);
      assert false;
    }
  }

  /** A run keeps the ids, so rowid order survives it. */
  lemma ProcessKeepsIds(sv: Services, country: string, rows: seq<ArticleRow>)
    requires IdsIncreasing(rows)
    ensures |ApplyAll(sv, country, rows, PendingOf(rows))| == |rows|
    ensures forall k :: 0 <= k < |rows| ==> PendingEntry(ApplyAll(sv, country, rows, PendingOf(rows))[k]) == PendingEntry(rows[k])
    ensures IdsIncreasing(ApplyAll(sv, country, rows, PendingOf(rows)))
  {
    ProcessArticlesPointwise(sv, country, rows);
    var rows' := ApplyAll(sv, country, rows, PendingOf(rows));
    forall k | 0 <= k < |rows| ensures PendingEntry(rows'[k]) == PendingEntry(rows[k]) {
      if rows[k].newsBody == Null && ArticleEffect(sv, country, PendingEntry(rows[k])).Some? {
        assert rows'[k] == Enrich(rows[k], ArticleEffect(sv, country, PendingEntry(rows[k])).value);
      }
    }
  }

  /** Running the stage again never touches a row a previous run enriched; only
      the rows whose article failed are retried. */
  lemma RerunKeepsEnriched(sv1: Services, sv2: Services, country: string, rows: seq<ArticleRow>)
    requires IdsIncreasing(rows)
    ensures
      var once := ApplyAll(sv1, country, rows, PendingOf(rows));
      var twice := ApplyAll(sv2, country, once, PendingOf(once));
      && |twice| == |rows|
      && forall k :: 0 <= k < |rows| && once[k].newsBody.Text? ==> twice[k] == once[k]
  {
    ProcessKeepsIds(sv1, country, rows);
    var once := ApplyAll(sv1, country, rows, PendingOf(rows));
    ProcessArticlesPointwise(sv2, country, once);
  }

  /** A row whose article fails stays pending and is listed again by the next run. */
  lemma FailedArticleStaysPending(sv: Services, country: string, rows: seq<ArticleRow>, k: nat)
    requires IdsIncreasing(rows)
    requires k < |rows| && rows[k].newsBody == Null && ArticleEffect(sv, country, PendingEntry(rows[k])).None?
    ensures
      var once := ApplyAll(sv, country, rows, PendingOf(rows));
      |once| == |rows| && once[k] == rows[k] && PendingEntry(rows[k]) in PendingOf(once)
  {
    ProcessArticlesPointwise(sv, country, rows);
    PendingOfMembers(ApplyAll(sv, country, rows, PendingOf(rows)));
  }
}
