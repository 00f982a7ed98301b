/** The digest stage of src/GetWatchlist.py: the day's summaries of one topic
    table, one per url, are sent to the language model in one message, and the
    returned narrative is stored in the watchlist table with the urls it used.
    The chat endpoint is a parameter and the target date is passed explicitly. */
module GetWatchlist {
  import opened Common
  import opened Strings
  import opened Dates
  import opened Store
  import opened ChatApi
  import opened Json

  // ---------------------------------------------------------------------------
  // get_summaries_from_database

  /** One `{"id": ..., "url": ..., "summary": ...}` record. */
  datatype SummaryRow = SummaryRow(id: nat, url: string, summary: string)

  /** `WHERE date(date_added) = ? AND summary_en IS NOT NULL`, the date bound as ISO text. */
  predicate Selected(row: ArticleRow, target: Date) {
    IsoFormat(row.dateAdded) == IsoFormat(target) && row.summaryEn.Text?
  }

  /** The text comparison is date equality, and an enrichment column holding ''
      (never enriched) passes `IS NOT NULL` just as a real summary does. */
  lemma SelectedIff(row: ArticleRow, target: Date)
    ensures Selected(row, target) <==> row.dateAdded == target && row.summaryEn != Null
  {
    IsoFormatInjective(row.dateAdded, target);
  }

  /** The record a selected row gives (summary_en is not NULL there). */
  function SummaryOf(row: ArticleRow): SummaryRow {
    SummaryRow(row.id, row.url, if row.summaryEn.Text? then row.summaryEn.s else "")
  }

  /** The rows GROUP BY url reports: a selected row whose url no earlier selected row has. */
  predicate FirstOfUrl(rows: seq<ArticleRow>, target: Date, k: nat)
    requires k < |rows|
  {
    Selected(rows[k], target) && forall i :: 0 <= i < k ==> !(Selected(rows[i], target) && rows[i].url == rows[k].url)
  }

  function FirstPerUrl(rows: seq<ArticleRow>, target: Date): (keep: seq<bool>)
    ensures |keep| == |rows| && forall k :: 0 <= k < |rows| ==> keep[k] == FirstOfUrl(rows, target, k)
  {
    seq(|rows|, k requires 0 <= k < |rows| => FirstOfUrl(rows, target, k))
  }

  /** A valid answer to the grouped query: selected rows only, one per url,
      every url of a selected row present. SQLite may return any such list. */
  ghost predicate IsUrlGrouping(rows: seq<ArticleRow>, target: Date, result: seq<SummaryRow>) {
    && (forall a :: 0 <= a < |result| ==> FromSelectedRow(rows, target, result[a]))
    && (forall a, b :: 0 <= a < b < |result| ==> result[a].url != result[b].url)
    && (forall k :: 0 <= k < |rows| && Selected(rows[k], target) ==>
          exists a :: 0 <= a < |result| && result[a].url == rows[k].url)
  }

  /** The record is what some selected row reports. */
  ghost predicate FromSelectedRow(rows: seq<ArticleRow>, target: Date, r: SummaryRow) {
    exists k :: 0 <= k < |rows| && Selected(rows[k], target) && r == SummaryOf(rows[k])
  }

  /** The grouped rows, taking the lowest rowid of each url. */
  function GroupByUrl(rows: seq<ArticleRow>, target: Date): seq<SummaryRow> {
    var chosen := Mask(rows, FirstPerUrl(rows, target));
    seq(|chosen|, a requires 0 <= a < |chosen| => SummaryOf(chosen[a]))
  }

  lemma GroupByUrlIsGrouping(rows: seq<ArticleRow>, target: Date)
    ensures IsUrlGrouping(rows, target, GroupByUrl(rows, target))
  {
    GroupedRowsSelected(rows, target);
    GroupedUrlsDistinct(rows, target);
    GroupedUrlsComplete(rows, target);
  }

  /** The a-th grouped record comes from a selected row, found at the a-th kept position. */
  lemma GroupedRowAt(rows: seq<ArticleRow>, target: Date, a: nat) returns (k: nat)
    requires a < |GroupByUrl(rows, target)|
    ensures k < |rows| && Selected(rows[k], target) && GroupByUrl(rows, target)[a] == SummaryOf(rows[k])
  {
    var keep := FirstPerUrl(rows, target);
    MaskAt(rows, keep, a);
    k := KeptIndices(keep)[a];
    assert keep[k];
  }

  lemma GroupedRowsSelected(rows: seq<ArticleRow>, target: Date)
    ensures forall a :: 0 <= a < |GroupByUrl(rows, target)| ==> FromSelectedRow(rows, target, GroupByUrl(rows, target)[a])
  {
    forall a | 0 <= a < |GroupByUrl(rows, target)|
      ensures FromSelectedRow(rows, target, GroupByUrl(rows, target)[a])
    {
      var k := GroupedRowAt(rows, target, a);
    }
  }

  lemma GroupedUrlsDistinct(rows: seq<ArticleRow>, target: Date)
    ensures var result := GroupByUrl(rows, target);
      forall a, b :: 0 <= a < b < |result| ==> result[a].url != result[b].url
  {
    var keep := FirstPerUrl(rows, target);
    var result := GroupByUrl(rows, target);
    KeptIndicesIncreasing(keep);
    forall a, b | 0 <= a < b < |result| ensures result[a].url != result[b].url {
      MaskAt(rows, keep, a);
      MaskAt(rows, keep, b);
      var i := KeptIndices(keep)[a];
      var j := KeptIndices(keep)[b];
      assert i < j && keep[i] && keep[j];
    }
  }

  lemma GroupedUrlsComplete(rows: seq<ArticleRow>, target: Date)
    ensures var result := GroupByUrl(rows, target);
      forall k :: 0 <= k < |rows| && Selected(rows[k], target) ==>
        exists a :: 0 <= a < |result| && result[a].url == rows[k].url
  {
    var keep := FirstPerUrl(rows, target);
    var chosen := Mask(rows, keep);
    var result := GroupByUrl(rows, target);
    forall k | 0 <= k < |rows| && Selected(rows[k], target)
      ensures exists a :: 0 <= a < |result| && result[a].url == rows[k].url
    {
      var f := FindFirst(rows, (r: ArticleRow) => Selected(r, target) && r.url == rows[k].url).value;
      assert keep[f];
      MaskContains(rows, keep, f);
      var a := IndexOf(chosen, rows[f]);
      assert result[a] == SummaryOf(rows[f]);
    }
  }

  /** What the grouped query may answer: sqlite3's error for a missing table,
      otherwise any url grouping of the day's rows. The statement has no
      ORDER BY, so neither the row reported for a url nor the order is fixed. */
  ghost predicate IsSummariesAnswer(tables: map<string, Table>, country: string, target: Date,
                                    answer: Result<seq<SummaryRow>>)
  {
    if country in tables then answer.Ok? && IsUrlGrouping(tables[country].rows, target, answer.value)
    else answer == Err(OperationalError(country))
  }

  /** get_summaries_from_database answered with the lowest rowid of each url,
      in rowid order: one of the answers SQLite may give. */
  function GetSummariesFromDatabase(tables: map<string, Table>, country: string, target: Date): (r: Result<seq<SummaryRow>>)
    ensures r.Err? <==> country !in tables
    ensures IsSummariesAnswer(tables, country, target, r)
  {
    if country in tables then
      GroupByUrlIsGrouping(tables[country].rows, target);
      Ok(GroupByUrl(tables[country].rows, target))
    else Err(OperationalError(country))
  }

  /** Whatever rows SQLite picks, the answer is empty exactly when no row of
      the table is selected for the day. */
  lemma {:induction false} EmptyAnswerIff(rows: seq<ArticleRow>, target: Date, result: seq<SummaryRow>)
    requires IsUrlGrouping(rows, target, result)
    ensures result == [] <==> forall k :: 0 <= k < |rows| ==> !Selected(rows[k], target)
  {
    if result != [] {
      assert FromSelectedRow(rows, target, result[0]);
      var k :| 0 <= k < |rows| && Selected(rows[k], target) && result[0] == SummaryOf(rows[k]);
    } else {
      forall k | 0 <= k < |rows| ensures !Selected(rows[k], target) {
        if Selected(rows[k], target) {
          assert false;
        }
      }
    }
  }

  /** A row that was never enriched keeps the '' the discovery stage stored,
      so it is selected on its date and its url is in every answer. */
  lemma UnenrichedRowSelected(rows: seq<ArticleRow>, target: Date, result: seq<SummaryRow>, k: nat)
    requires IsUrlGrouping(rows, target, result)
    requires k < |rows| && rows[k].dateAdded == target && rows[k].summaryEn == Text("")
    ensures exists a :: 0 <= a < |result| && result[a].url == rows[k].url
  {
    assert Selected(rows[k], target);
  }

  // ---------------------------------------------------------------------------
  // generate_watchlist

  /** What generate_watchlist returns: the reply's fields (strings or JSON
      null), plus the url list under 'urls' when the reply was well formed. */
  datatype WatchlistData = WatchlistData(fields: map<string, Cell>, urls: Option<seq<string>>)

  const NoSummariesMessage := "No summaries found for the given date"

  function SummaryTexts(summaries: seq<SummaryRow>): (r: seq<string>)
    ensures |r| == |summaries| && forall k :: 0 <= k < |summaries| ==> r[k] == summaries[k].summary
  {
    seq(|summaries|, k requires 0 <= k < |summaries| => summaries[k].summary)
  }

  function UrlsOf(summaries: seq<SummaryRow>): (r: seq<string>)
    ensures |r| == |summaries| && forall k :: 0 <= k < |summaries| ==> r[k] == summaries[k].url
  {
    seq(|summaries|, k requires 0 <= k < |summaries| => summaries[k].url)
  }

  /** The one user message sent, None when there are no summaries. */
  function DigestRequest(country: string, summaries: seq<SummaryRow>): Option<string> {
    if summaries == [] then None
    else Some("Summarize the key points from these news summaries about " + country + ": "
              + Join(" ", SummaryTexts(summaries)))
  }

  function GenerateWatchlist(country: string, summaries: seq<SummaryRow>, chat: string -> ChatResponse): Result<WatchlistData> {
    match DigestRequest(country, summaries)
    case None => Ok(WatchlistData(ErrorDict(NoSummariesMessage), None))
    case Some(message) =>
      match ReadToolCall(chat(message))
      case Err(e) => Err(e)
      case Ok(Parsed(fields)) => Ok(WatchlistData(fields - {"urls"}, Some(UrlsOf(summaries))))
      case Ok(InvalidJson) => Ok(WatchlistData(ErrorDict(InvalidJsonMessage), None))
      case Ok(UnexpectedFormat) => Ok(WatchlistData(ErrorDict(UnexpectedFormatMessage), None))
  }

  /** Without summaries nothing is sent and the result is the error dict,
      whatever the service would have answered. */
  lemma NoSummariesNoRequest(country: string, chat1: string -> ChatResponse, chat2: string -> ChatResponse)
    ensures DigestRequest(country, []) == None
    ensures GenerateWatchlist(country, [], chat1) == GenerateWatchlist(country, [], chat2)
      == Ok(WatchlistData(map["error" := Text(NoSummariesMessage)], None))
  {
  }

  /** The message carries every summary once, in list order, separated by
      single spaces. A decoded reply comes back with its own 'urls' replaced by
      the parallel url list; every other answer maps to one outcome. */
  lemma GenerateWatchlistSpec(country: string, summaries: seq<SummaryRow>, chat: string -> ChatResponse)
    requires summaries != []
    ensures var message := DigestRequest(country, summaries).value;
      var prefix := "Summarize the key points from these news summaries about " + country + ": ";
      && message[..|prefix|] == prefix
      && message[|prefix|..] == Join(" ", SummaryTexts(summaries))
      && |message| == |prefix| + SumLengths(SummaryTexts(summaries)) + |summaries| - 1
    ensures var r := GenerateWatchlist(country, summaries, chat);
      var resp := chat(DigestRequest(country, summaries).value);
      && (HasToolCalls(resp) && |ToolCalls(resp)| > 0 && ToolCalls(resp)[0].arguments.Decoded? ==>
            r == Ok(WatchlistData(ToolCalls(resp)[0].arguments.fields - {"urls"}, Some(UrlsOf(summaries)))))
      && (r.Ok? && r.value.urls.Some? ==>
            HasToolCalls(resp) && |ToolCalls(resp)| > 0 && ToolCalls(resp)[0].arguments.Decoded?)
      && (HasToolCalls(resp) && |ToolCalls(resp)| > 0 && ToolCalls(resp)[0].arguments.Undecodable? <==>
            r == Ok(WatchlistData(map["error" := Text(InvalidJsonMessage)], None)))
      && (resp.Reply? && !HasToolCalls(resp) <==>
            r == Ok(WatchlistData(map["error" := Text(UnexpectedFormatMessage)], None)))
      && (r.Err? <==> resp.TransportFailure? || (HasToolCalls(resp) && ToolCalls(resp) == []))
  {
    JoinLength(" ", SummaryTexts(summaries));
    var read := ReadToolCall(chat(DigestRequest(country, summaries).value));
    if read.Ok? {
      match read.value
      case Parsed(fields) =>
      case InvalidJson =>
        assert ErrorDict(InvalidJsonMessage)["error"] != ErrorDict(UnexpectedFormatMessage)["error"];
      case UnexpectedFormat =>
        assert ErrorDict(InvalidJsonMessage)["error"] != ErrorDict(UnexpectedFormatMessage)["error"];
    }
  }

  // ---------------------------------------------------------------------------
  // update_watchlist_database

  /** `watchlist_data.get('urls', [])` written with json.dumps: the url list of
      a decoded reply, `[]` for an error dict. */
  function UrlsJson(data: WatchlistData): string {
    match data.urls
    case Some(urls) => JsonDumps(urls)
    case None => JsonDumps([])
  }

  /** The table after `CREATE TABLE IF NOT EXISTS watchlist` and one INSERT.
      No uniqueness constraint exists besides the id, so INSERT OR REPLACE
      never replaces and the row is always appended. */
  function AppendWatchlist(w: Option<WatchlistTable>, country: string, dateText: string, text: string, urlsUsed: string): WatchlistTable {
    var t := w.GetOr(WatchlistTable([], 0));
    WatchlistTable(t.rows + [WatchlistRow(t.lastId + 1, country, dateText, text, urlsUsed)], t.lastId + 1)
  }

  /** The appended row comes last with a fresh id, the earlier rows stay, and
      a valid table stays valid. */
  lemma AppendWatchlistSpec(w: Option<WatchlistTable>, country: string, dateText: string, text: string, urlsUsed: string)
    requires w.Some? ==> WatchlistValid(w.value)
    ensures var t := AppendWatchlist(w, country, dateText, text, urlsUsed);
      var old_rows := if w.Some? then w.value.rows else [];
      && WatchlistValid(t)
      && t.rows[..|old_rows|] == old_rows && |t.rows| == |old_rows| + 1
      && t.rows[|old_rows|].country == country && t.rows[|old_rows|].dateAdded == dateText
      && t.rows[|old_rows|].watchlist == text && t.rows[|old_rows|].urlsUsed == urlsUsed
      && forall k :: 0 <= k < |old_rows| ==> old_rows[k].id < t.rows[|old_rows|].id
  {
    var t := AppendWatchlist(w, country, dateText, text, urlsUsed);
    var old_rows := if w.Some? then w.value.rows else [];
    assert forall k :: 0 <= k < |old_rows| ==> t.rows[k] == old_rows[k];
  }

  /** Two stores for the same topic and day leave two rows, not one. */
  lemma SameDayStoredTwice(w: Option<WatchlistTable>, country: string, dateText: string, text1: string, urls1: string, text2: string, urls2: string)
    requires w.Some? ==> WatchlistValid(w.value)
    ensures var t := AppendWatchlist(Some(AppendWatchlist(w, country, dateText, text1, urls1)), country, dateText, text2, urls2);
      var n := if w.Some? then |w.value.rows| else 0;
      && |t.rows| == n + 2
      && t.rows[n].country == t.rows[n + 1].country == country
      && t.rows[n].dateAdded == t.rows[n + 1].dateAdded == dateText
      && t.rows[n].id < t.rows[n + 1].id
  {
    AppendWatchlistSpec(w, country, dateText, text1, urls1);
    var w1 := AppendWatchlist(w, country, dateText, text1, urls1);
    AppendWatchlistSpec(Some(w1), country, dateText, text2, urls2);
  }

  /** What a store leaves behind: its outcome and the watchlist table. */
  datatype Stored = Stored(result: Result<()>, watchlist: Option<WatchlistTable>)

  /** update_watchlist_database on the watchlist table as a value. A JSON null
      under 'watchlist' reaches the NOT NULL column and the INSERT raises; the
      CREATE TABLE before it is not part of the insert's transaction and stays. */
  function UpdatedWatchlist(w: Option<WatchlistTable>, country: string, target: Date, data: WatchlistData): Stored {
    if "error" in data.fields then Stored(Ok(()), w)
    else match GetOrEmpty(data.fields, "watchlist")
      case Null => Stored(Err(IntegrityError("watchlist")), Some(w.GetOr(WatchlistTable([], 0))))
      case Text(text) => Stored(Ok(()), Some(AppendWatchlist(w, country, IsoFormat(target), text, UrlsJson(data))))
  }

  /** An error dict stores nothing; otherwise the table exists afterwards with
      its earlier rows, and exactly one row is added unless the narrative is
      null, which raises instead. A valid table stays valid. */
  lemma UpdatedWatchlistSpec(w: Option<WatchlistTable>, country: string, target: Date, data: WatchlistData)
    requires w.Some? ==> WatchlistValid(w.value)
    ensures var s := UpdatedWatchlist(w, country, target, data);
      var old_rows := if w.Some? then w.value.rows else [];
      && (s.watchlist.Some? ==> WatchlistValid(s.watchlist.value))
      && ("error" in data.fields ==> s == Stored(Ok(()), w))
      && ("error" !in data.fields ==>
            s.watchlist.Some? && |s.watchlist.value.rows| >= |old_rows| && s.watchlist.value.rows[..|old_rows|] == old_rows)
      && ("error" !in data.fields && GetOrEmpty(data.fields, "watchlist") == Null ==>
            s.result == Err(IntegrityError("watchlist")) && s.watchlist.value.rows == old_rows)
      && ("error" !in data.fields && GetOrEmpty(data.fields, "watchlist").Text? ==>
            && s.result == Ok(())
            && |s.watchlist.value.rows| == |old_rows| + 1
            && s.watchlist.value.rows[|old_rows|].country == country
            && s.watchlist.value.rows[|old_rows|].dateAdded == IsoFormat(target)
            && s.watchlist.value.rows[|old_rows|].watchlist == GetOrEmpty(data.fields, "watchlist").s
            && s.watchlist.value.rows[|old_rows|].urlsUsed == UrlsJson(data))
  {
    if "error" !in data.fields && GetOrEmpty(data.fields, "watchlist").Text? {
      AppendWatchlistSpec(w, country, IsoFormat(target), GetOrEmpty(data.fields, "watchlist").s, UrlsJson(data));
    }
  }

  method UpdateWatchlistDatabase(db: Database, country: string, data: WatchlistData, target: Date) returns (r: Result<()>)
    requires db.Valid()
    modifies db
    ensures db.Valid() && db.tables == old(db.tables)
    ensures "error" in data.fields ==> r == Ok(()) && db.watchlist == old(db.watchlist)
    ensures "error" !in data.fields && GetOrEmpty(data.fields, "watchlist") == Null ==>
      r == Err(IntegrityError("watchlist")) && db.watchlist == Some(old(db.watchlist).GetOr(WatchlistTable([], 0)))
    ensures "error" !in data.fields && GetOrEmpty(data.fields, "watchlist").Text? ==>
      && r == Ok(())
      && db.watchlist == Some(AppendWatchlist(old(db.watchlist), country, IsoFormat(target),
                                              GetOrEmpty(data.fields, "watchlist").s, UrlsJson(data)))
  {
    if "error" in data.fields {
      return Ok(());
    }
    var t := db.watchlist.GetOr(WatchlistTable([], 0));
    db.watchlist := Some(t);
    var text := GetOrEmpty(data.fields, "watchlist");
    if text.Null? {
      // NOT NULL constraint failed: watchlist.watchlist
      return Err(IntegrityError("watchlist"));
    }
    var urlsUsed := UrlsJson(data);
    AppendWatchlistSpec(db.watchlist, country, IsoFormat(target), text.s, urlsUsed);
    db.watchlist := Some(AppendWatchlist(db.watchlist, country, IsoFormat(target), text.s, urlsUsed));
    return Ok(());
  }

  // ---------------------------------------------------------------------------
  // generate_and_store_watchlist

  /** The outcome of generate_and_store_watchlist given the grouped query's answer. */
  function StoredWatchlist(w: Option<WatchlistTable>, country: string, target: Date,
                           answer: Result<seq<SummaryRow>>, chat: string -> ChatResponse): Stored {
    match answer
    case Err(e) => Stored(Err(e), w)
    case Ok(summaries) =>
      if summaries == [] then Stored(Ok(()), w)
      else match GenerateWatchlist(country, summaries, chat)
        case Err(e) => Stored(Err(e), w)
        case Ok(data) => UpdatedWatchlist(w, country, target, data)
  }

  /** A day with no selected rows leaves the watchlist table alone, whatever
      rows SQLite would pick and whatever the service would have answered. */
  lemma NothingSelectedNothingStored(tables: map<string, Table>, w: Option<WatchlistTable>, country: string, target: Date,
                                     answer: Result<seq<SummaryRow>>,
                                     chat1: string -> ChatResponse, chat2: string -> ChatResponse)
    requires IsSummariesAnswer(tables, country, target, answer) && country in tables
    requires forall k :: 0 <= k < |tables[country].rows| ==> !Selected(tables[country].rows[k], target)
    ensures StoredWatchlist(w, country, target, answer, chat1) == StoredWatchlist(w, country, target, answer, chat2)
         == Stored(Ok(()), w)
  {
    EmptyAnswerIff(tables[country].rows, target, answer.value);
  }

  /** A run either adds exactly one row for the topic, dated with the target
      day, or adds none; on an exception the only possible change is the
      empty table a null narrative leaves behind. A valid table stays valid. */
  lemma StoredWatchlistAddsOneRow(w: Option<WatchlistTable>, country: string, target: Date,
                                  answer: Result<seq<SummaryRow>>, chat: string -> ChatResponse)
    requires w.Some? ==> WatchlistValid(w.value)
    ensures var s := StoredWatchlist(w, country, target, answer, chat);
      var n := if w.Some? then |w.value.rows| else 0;
      && (s.watchlist.Some? ==> WatchlistValid(s.watchlist.value))
      && (s.result.Ok? && s.watchlist != w ==>
            && s.watchlist.Some? && |s.watchlist.value.rows| == n + 1
            && s.watchlist.value.rows[n].country == country
            && s.watchlist.value.rows[n].dateAdded == IsoFormat(target))
      && (s.result.Err? ==> s.watchlist == w || (w.None? && s.watchlist == Some(WatchlistTable([], 0))))
  {
    if answer.Ok? && answer.value != [] && GenerateWatchlist(country, answer.value, chat).Ok? {
      UpdatedWatchlistSpec(w, country, target, GenerateWatchlist(country, answer.value, chat).value);
    }
  }

  /** A stored row's urls_used lists the urls of the day's selected rows, each
      exactly once, in the order of the answer the narrative was written from. */
  lemma DigestUrlsCoverDay(tables: map<string, Table>, w: Option<WatchlistTable>, country: string, target: Date,
                           answer: Result<seq<SummaryRow>>, chat: string -> ChatResponse)
    requires IsSummariesAnswer(tables, country, target, answer)
    requires w.Some? ==> WatchlistValid(w.value)
    ensures var s := StoredWatchlist(w, country, target, answer, chat);
      var n := if w.Some? then |w.value.rows| else 0;
      s.result.Ok? && s.watchlist != w ==>
        && country in tables && answer.Ok? && s.watchlist.Some? && n < |s.watchlist.value.rows|
        && s.watchlist.value.rows[n].urlsUsed == JsonDumps(UrlsOf(answer.value))
        && (forall a, b :: 0 <= a < b < |answer.value| ==> UrlsOf(answer.value)[a] != UrlsOf(answer.value)[b])
        && (forall k :: 0 <= k < |tables[country].rows| && Selected(tables[country].rows[k], target) ==>
              tables[country].rows[k].url in UrlsOf(answer.value))
  {
    var s := StoredWatchlist(w, country, target, answer, chat);
    if s.result.Ok? && s.watchlist != w {
      var summaries := answer.value;
      var data := GenerateWatchlist(country, summaries, chat).value;
      UpdatedWatchlistSpec(w, country, target, data);
      GenerateWatchlistSpec(country, summaries, chat);
      var urls := UrlsOf(summaries);
      forall k | 0 <= k < |tables[country].rows| && Selected(tables[country].rows[k], target)
        ensures tables[country].rows[k].url in urls
      {
        var a :| 0 <= a < |summaries| && summaries[a].url == tables[country].rows[k].url;
        assert urls[a] == summaries[a].url;
      }
    }
  }

  /** generate_and_store_watchlist. The grouped query's answer is a parameter,
      because SQLite chooses the row reported for each url and the order;
      GetSummariesFromDatabase gives one such answer. */
  method GenerateAndStoreWatchlist(db: Database, country: string, target: Date,
                                   answer: Result<seq<SummaryRow>>, chat: string -> ChatResponse)
    returns (r: Result<()>)
    requires db.Valid() && IsSummariesAnswer(db.tables, country, target, answer)
    modifies db
    ensures db.Valid() && db.tables == old(db.tables)
    ensures var s := StoredWatchlist(old(db.watchlist), country, target, answer, chat);
      r == s.result && db.watchlist == s.watchlist
  {
    if answer.Err? {
      return Err(answer.error);
    }
    var summaries := answer.value;
    if summaries == [] {
      // "No summaries found": neither the service nor the table is touched
      return Ok(());
    }
    var data := GenerateWatchlist(country, summaries, chat);
    if data.Err? {
      return Err(data.error);
    }
    r := UpdateWatchlistDatabase(db, country, data.value, target);
  }
}
