/** The discovery stage of src/SearchGdelt.py: look up the topic's GDELT
    query, fetch and tidy the article list, clean the titles, have the ranker
    order them, and append the top 20 to the topic's table. The GDELT endpoint,
    the ranker and the title similarity are parameters. */
module SearchGdelt {
  import opened Common
  import opened Strings
  import opened Dates
  import opened Store

  // ---------------------------------------------------------------------------
  // get_gdelt_query_string

  /** One entry of the query-parameters file. */
  datatype QueryTopic = QueryTopic(topic: string, gdeltQueryString: string)

  /** The query string of the first entry for the topic, or ValueError. */
  function GetGdeltQueryString(topics: seq<QueryTopic>, topic: string): (r: Result<string>)
    ensures r.Err? <==> forall k :: 0 <= k < |topics| ==> topics[k].topic != topic
    ensures r.Err? ==> r.error == ValueError("Topic '" + topic + "' not found in the query parameters.")
    ensures r.Ok? ==> exists k :: (0 <= k < |topics| && topics[k].topic == topic && r.value == topics[k].gdeltQueryString
      && forall m :: 0 <= m < k ==> topics[m].topic != topic)
  {
    match FindFirst(topics, (t: QueryTopic) => t.topic == topic)
    case None => Err(ValueError("Topic '" + topic + "' not found in the query parameters."))
    case Some(k) => Ok(topics[k].gdeltQueryString)
  }

  /** Every listed topic finds its own query string when its name is not shadowed by an earlier entry. */
  lemma QueryStringOfListedTopic(topics: seq<QueryTopic>, k: nat)
    requires k < |topics|
    requires forall m :: 0 <= m < k ==> topics[m].topic != topics[k].topic
    ensures GetGdeltQueryString(topics, topics[k].topic) == Ok(topics[k].gdeltQueryString)
  {
    var r := GetGdeltQueryString(topics, topics[k].topic);
    var j :| 0 <= j < |topics| && topics[j].topic == topics[k].topic && r.value == topics[j].gdeltQueryString
      && forall m :: 0 <= m < j ==> topics[m].topic != topics[k].topic;
    assert !(j < k) && !(k < j);
  }

  // ---------------------------------------------------------------------------
  // fetch_gdelt_data

  /** A GDELT reply: the HTTP status and the 'articles' list, None when the key is absent. */
  datatype GdeltReply = GdeltReply(status: int, articles: Option<seq<map<string, Cell>>>)

  /** One DataFrame row: its index label, its title and its other cells (a
      column missing from the map is NaN in this row). */
  datatype Record = Record(indexLabel: nat, title: string, cells: map<string, Cell>)

  /** A DataFrame whose title column holds strings. */
  datatype Frame = Frame(columns: set<string>, rows: seq<Record>)

  function Label(r: Record): int { r.indexLabel }

  /** Index labels are distinct and in row order, as json_normalize numbers them. */
  predicate FrameValid(f: Frame) {
    forall i, j :: 0 <= i < j < |f.rows| ==> f.rows[i].indexLabel < f.rows[j].indexLabel
  }

  /** What `row[col]` gives for one record: None when the frame has no such column. */
  function Lookup(f: Frame, r: Record, col: string): Option<Cell> {
    if col !in f.columns then None
    else if col == "title" then Some(Text(r.title))
    else if col in r.cells then Some(r.cells[col]) else Some(Null)
  }

  /** json_normalize's columns: every key of some article. */
  function ColumnsOf(articles: seq<map<string, Cell>>): set<string> {
    set a, k | a in articles && k in a :: k
  }

  /** dropna(subset=['title']): the article has a non-null title. */
  function Titled(articles: seq<map<string, Cell>>): (keep: seq<bool>)
    ensures |keep| == |articles|
  {
    seq(|articles|, k requires 0 <= k < |articles| => "title" in articles[k] && articles[k]["title"].Text?)
  }

  function RecordOf(article: map<string, Cell>, indexLabel: nat): Record {
    Record(indexLabel, if "title" in article && article["title"].Text? then article["title"].s else "", article - {"title"})
  }

  function WithEmptyContent(r: Record): Record {
    r.(cells := r.cells["content" := Text("")])
  }

  /** fetch_gdelt_data: a failing status raises, a reply without 'articles'
      raises KeyError, and so does a list in which no article has a title;
      otherwise the titled articles, with a content column of '' when no
      article had one. */
  function FetchGdeltData(reply: GdeltReply): (r: Result<Frame>)
    ensures r.Err? <==> 400 <= reply.status < 600 || reply.articles.None? || "title" !in ColumnsOf(reply.articles.value)
    ensures r.Ok? ==> FrameValid(r.value) && "title" in r.value.columns && "content" in r.value.columns
  {
    if 400 <= reply.status < 600 then Err(HttpError(reply.status))
    else if reply.articles.None? then Err(KeyError("articles"))
    else
      var articles := reply.articles.value;
      var columns := ColumnsOf(articles);
      if "title" !in columns then Err(KeyError("title"))
      else
        var records := seq(|articles|, k requires 0 <= k < |articles| => RecordOf(articles[k], k));
        var rows := Mask(records, Titled(articles));
        MaskKeepsIncreasing(records, Titled(articles), Label);
        if "content" in columns then Ok(Frame(columns, rows))
        else
          var rows' := seq(|rows|, a requires 0 <= a < |rows| => WithEmptyContent(rows[a]));
          Ok(Frame(columns + {"content"}, rows'))
  }

  /** The rows of the fetched frame are the titled articles, in order: row a is
      the article at the a-th titled position, with every column read from it,
      and content is '' in every row when no article had that key. */
  lemma FetchRows(reply: GdeltReply)
    requires FetchGdeltData(reply).Ok?
    ensures var f := FetchGdeltData(reply).value;
      var articles := reply.articles.value;
      var idx := KeptIndices(Titled(articles));
      && |f.rows| == |idx|
      && f.columns == ColumnsOf(articles) + {"content"}
      && forall a :: 0 <= a < |f.rows| ==>
        && f.rows[a].indexLabel == idx[a]
        && "title" in articles[idx[a]] && Text(f.rows[a].title) == articles[idx[a]]["title"]
        && (forall c :: c in articles[idx[a]] ==> Lookup(f, f.rows[a], c) == Some(articles[idx[a]][c]))
        && ("content" !in ColumnsOf(articles) ==> Lookup(f, f.rows[a], "content") == Some(Text("")))
  {
    var f := FetchGdeltData(reply).value;
    var articles := reply.articles.value;
    var keep := Titled(articles);
    var records := seq(|articles|, k requires 0 <= k < |articles| => RecordOf(articles[k], k));
    var rows := Mask(records, keep);
    forall a | 0 <= a < |f.rows|
      ensures f.rows[a].indexLabel == KeptIndices(keep)[a]
      ensures "title" in articles[KeptIndices(keep)[a]] && Text(f.rows[a].title) == articles[KeptIndices(keep)[a]]["title"]
      ensures forall c :: c in articles[KeptIndices(keep)[a]] ==> Lookup(f, f.rows[a], c) == Some(articles[KeptIndices(keep)[a]][c])
    {
      MaskAt(records, keep, a);
      var k := KeptIndices(keep)[a];
      assert rows[a] == RecordOf(articles[k], k);
      forall c | c in articles[k] ensures c in f.columns {
        assert articles[k] in articles;
      }
    }
  }

  // ---------------------------------------------------------------------------
  // clean_dataframe

  /** fuzz.ratio: a similarity score from 0 to 100. */
  type Score = x: int | 0 <= x <= 100

  const Threshold := 80

  function Titles(rows: seq<Record>): (ts: seq<string>)
    ensures |ts| == |rows| && forall k :: 0 <= k < |rows| ==> ts[k] == rows[k].title
  {
    seq(|rows|, k requires 0 <= k < |rows| => rows[k].title)
  }

  /** drop_duplicates(subset=['title']): a row is kept when no earlier row has its title. */
  function FirstOccurrence(ts: seq<string>): (keep: seq<bool>)
    ensures |keep| == |ts|
  {
    seq(|ts|, j requires 0 <= j < |ts| => forall i :: 0 <= i < j ==> ts[i] != ts[j])
  }

  /** `dataframe['title'] != ''` */
  function NonEmpty(ts: seq<string>): (keep: seq<bool>)
    ensures |keep| == |ts|
  {
    seq(|ts|, j requires 0 <= j < |ts| => ts[j] != "")
  }

  /** The fuzzy pass: row j is marked by every earlier row i scoring at least
      the threshold against it, whether or not row i is itself marked. */
  function Unmarked(ts: seq<string>, sim: (string, string) -> Score): (keep: seq<bool>)
    ensures |keep| == |ts|
  {
    seq(|ts|, j requires 0 <= j < |ts| => forall i :: 0 <= i < j ==> sim(ts[i], ts[j]) < Threshold)
  }

  function Deduplicated(rows: seq<Record>): seq<Record> {
    Mask(rows, FirstOccurrence(Titles(rows)))
  }

  function WithTitles(rows: seq<Record>): seq<Record> {
    Mask(rows, NonEmpty(Titles(rows)))
  }

  /** The rows clean_dataframe returns. */
  function Clean(rows: seq<Record>, sim: (string, string) -> Score): seq<Record> {
    var candidates := WithTitles(Deduplicated(rows));
    Mask(candidates, Unmarked(Titles(candidates), sim))
  }

  /** No row before position `bound` (and before j) scores at least the threshold against row j. */
  ghost predicate NoCloseBefore(ts: seq<string>, sim: (string, string) -> Score, bound: int, j: nat)
    requires j < |ts|
  {
    forall i :: 0 <= i < bound && i < j ==> sim(ts[i], ts[j]) < Threshold
  }

  predicate LabelsIncreasing(rows: seq<Record>) {
    forall a, b :: 0 <= a < b < |rows| ==> rows[a].indexLabel < rows[b].indexLabel
  }

  lemma LabelDetermines(rows: seq<Record>, j: nat, k: nat)
    requires LabelsIncreasing(rows) && j < |rows| && k < |rows|
    ensures rows[j].indexLabel == rows[k].indexLabel ==> j == k
  {
    if j < k { assert rows[j].indexLabel < rows[k].indexLabel; }
    if k < j { assert rows[k].indexLabel < rows[j].indexLabel; }
  }

  /** Rows before i + 1 are compared with row i in the same way as before. */
  lemma NoCloseBeforeEarly(ts: seq<string>, sim: (string, string) -> Score, i: nat, j: nat)
    requires j < |ts| && j <= i
    ensures NoCloseBefore(ts, sim, i + 1, j) == NoCloseBefore(ts, sim, i, j)
  {
  }

  /** Raising the bound past i adds the comparison of row i with row j. */
  lemma NoCloseBeforeStep(ts: seq<string>, sim: (string, string) -> Score, i: nat, j: nat)
    requires i < j < |ts|
    ensures NoCloseBefore(ts, sim, i + 1, j) == (NoCloseBefore(ts, sim, i, j) && sim(ts[i], ts[j]) < Threshold)
  {
  }

  /** The inner loop for row i: marks every later row that row i scores at
      least the threshold against. */
  method MarkAgainst(rows: seq<Record>, ts: seq<string>, sim: (string, string) -> Score, i: nat, marked: set<nat>)
    returns (rowsToDrop: set<nat>)
    requires ts == Titles(rows) && i < |rows| && LabelsIncreasing(rows)
    requires forall j :: 0 <= j < |rows| ==> (rows[j].indexLabel !in marked <==> NoCloseBefore(ts, sim, i, j))
    ensures forall j :: 0 <= j < |rows| ==> (rows[j].indexLabel !in rowsToDrop <==> NoCloseBefore(ts, sim, i + 1, j))
  {
    var n := |rows|;
    rowsToDrop := marked;
    for j := i + 1 to n
      invariant forall k :: 0 <= k < n && (k <= i || j <= k) ==>
        (rows[k].indexLabel !in rowsToDrop <==> NoCloseBefore(ts, sim, i, k))
      invariant forall k :: i < k < j ==> (rows[k].indexLabel !in rowsToDrop <==> NoCloseBefore(ts, sim, i + 1, k))
    {
      NoCloseBeforeStep(ts, sim, i, j);
      ghost var before := rowsToDrop;
      if sim(ts[i], ts[j]) >= Threshold {
        rowsToDrop := rowsToDrop + {rows[j].indexLabel};
      }
      forall k | 0 <= k < n && k != j ensures rows[k].indexLabel in rowsToDrop <==> rows[k].indexLabel in before {
        LabelDetermines(rows, k, j);
      }
      assert rows[j].indexLabel !in rowsToDrop <==> NoCloseBefore(ts, sim, i + 1, j);
    }
    forall k | 0 <= k <= i {
      NoCloseBeforeEarly(ts, sim, i, k);
    }
  }

  /** The nested loops of the fuzzy pass: collects the index label of every
      row that some earlier row scores at least the threshold against. */
  method MarkNearDuplicates(rows: seq<Record>, sim: (string, string) -> Score) returns (rowsToDrop: set<nat>)
    requires LabelsIncreasing(rows)
    ensures forall j :: 0 <= j < |rows| ==> (rows[j].indexLabel !in rowsToDrop <==> Unmarked(Titles(rows), sim)[j])
  {
    var ts := Titles(rows);
    var n := |rows|;
    rowsToDrop := {};
    for i := 0 to n
      invariant forall j :: 0 <= j < n ==> (rows[j].indexLabel !in rowsToDrop <==> NoCloseBefore(ts, sim, i, j))
    {
      rowsToDrop := MarkAgainst(rows, ts, sim, i, rowsToDrop);
    }
  }

  method CleanDataframe(frame: Frame, sim: (string, string) -> Score) returns (r: Frame)
    requires FrameValid(frame)
    ensures r.columns == frame.columns && r.rows == Clean(frame.rows, sim)
    ensures FrameValid(r)
  {
    // drop_duplicates(subset=['title']), then `dataframe[dataframe['title'] != '']`
    var deduplicated := Deduplicated(frame.rows);
    var rows := WithTitles(deduplicated);
    MaskKeepsIncreasing(frame.rows, FirstOccurrence(Titles(frame.rows)), Label);
    MaskKeepsIncreasing(deduplicated, NonEmpty(Titles(deduplicated)), Label);
    var rowsToDrop := MarkNearDuplicates(rows, sim);
    // dataframe.drop(index=list(rows_to_drop))
    var survivors := seq(|rows|, j requires 0 <= j < |rows| => rows[j].indexLabel !in rowsToDrop);
    assert survivors == Unmarked(Titles(rows), sim);
    r := Frame(frame.columns, Mask(rows, survivors));
    MaskKeepsIncreasing(rows, survivors, Label);
  }

  /** The cleaned rows are the input rows with some deleted, in their original order. */
  lemma CleanIsSubsequence(rows: seq<Record>, sim: (string, string) -> Score)
    ensures IsSubsequence(Clean(rows, sim), rows)
  {
    var k1 := FirstOccurrence(Titles(rows));
    var d := Deduplicated(rows);
    var k2 := NonEmpty(Titles(d));
    var c := WithTitles(d);
    var k3 := Unmarked(Titles(c), sim);
    MaskCompose(rows, k1, k2);
    var k12 := Compose(k1, k2);
    MaskCompose(rows, k12, k3);
  }

  /** No cleaned title is empty, no title occurs twice, and no two cleaned
      titles score at least the threshold against each other (earlier first). */
  lemma CleanTitles(rows: seq<Record>, sim: (string, string) -> Score)
    ensures var c := Clean(rows, sim);
      && (forall a :: 0 <= a < |c| ==> c[a].title != "")
      && (forall a, b :: 0 <= a < b < |c| ==> c[a].title != c[b].title)
      && (forall a, b :: 0 <= a < b < |c| ==> sim(c[a].title, c[b].title) < Threshold)
  {
    var d := Deduplicated(rows);
    var w := WithTitles(d);
    var c := Clean(rows, sim);
    var keep := Unmarked(Titles(w), sim);
    KeptIndicesIncreasing(FirstOccurrence(Titles(rows)));
    KeptIndicesIncreasing(keep);
    forall a, b | 0 <= a < b < |d| ensures Title(d[a]) != Title(d[b]) {
      MaskAt(rows, FirstOccurrence(Titles(rows)), a);
      MaskAt(rows, FirstOccurrence(Titles(rows)), b);
    }
    MaskKeepsDistinct(d, NonEmpty(Titles(d)), Title);
    MaskKeepsDistinct(w, keep, Title);
    forall a | 0 <= a < |w| ensures w[a].title != "" {
      MaskAt(d, NonEmpty(Titles(d)), a);
    }
    forall a | 0 <= a < |c| ensures c[a].title != "" {
      MaskAt(w, keep, a);
    }
    forall a, b | 0 <= a < b < |c| ensures sim(c[a].title, c[b].title) < Threshold {
      MaskAt(w, keep, a);
      MaskAt(w, keep, b);
    }
  }

  function Title(r: Record): string { r.title }

  /** The fuzzy pass never drops the first candidate. */
  lemma FuzzyKeepsFirst(candidates: seq<Record>, sim: (string, string) -> Score)
    requires candidates != []
    ensures var c := Mask(candidates, Unmarked(Titles(candidates), sim));
      c != [] && c[0] == candidates[0]
  {
  }

  /** Cleaning leaves some row exactly when some input title is non-empty. */
  lemma CleanEmptyIff(rows: seq<Record>, sim: (string, string) -> Score)
    ensures Clean(rows, sim) == [] <==> forall k :: 0 <= k < |rows| ==> rows[k].title == ""
  {
    var d := Deduplicated(rows);
    var w := WithTitles(d);
    if w != [] {
      FuzzyKeepsFirst(w, sim);
      MaskMember(d, NonEmpty(Titles(d)), 0);
      MaskMember(rows, FirstOccurrence(Titles(rows)), IndexOf(d, w[0]));
    }
    if k :| 0 <= k < |rows| && rows[k].title != "" {
      var ts := Titles(rows);
      var f := FindFirst(ts, (t: string) => t == rows[k].title).value;
      assert FirstOccurrence(ts)[f];
      MaskContains(rows, FirstOccurrence(ts), f);
      var a := IndexOf(d, rows[f]);
      assert NonEmpty(Titles(d))[a];
      MaskContains(d, NonEmpty(Titles(d)), a);
      FuzzyKeepsFirst(w, sim);
    }
  }

  /** Cleaning its own output drops nothing. */
  lemma CleanIdempotent(rows: seq<Record>, sim: (string, string) -> Score)
    ensures Clean(Clean(rows, sim), sim) == Clean(rows, sim)
  {
    var c := Clean(rows, sim);
    CleanTitles(rows, sim);
    var k1 := FirstOccurrence(Titles(c));
    MaskAll(c, k1);
    var k2 := NonEmpty(Titles(c));
    MaskAll(c, k2);
    var k3 := Unmarked(Titles(c), sim);
    MaskAll(c, k3);
  }

  /** Marked rows still mark later rows: with A~B and B~C but not A~C, both B and C go. */
  lemma ChainDropsBoth(a: Record, b: Record, c: Record, sim: (string, string) -> Score)
    requires a.title != "" && b.title != "" && c.title != ""
    requires a.title != b.title && b.title != c.title && a.title != c.title
    requires sim(a.title, b.title) >= Threshold && sim(b.title, c.title) >= Threshold
    requires sim(a.title, c.title) < Threshold
    ensures Clean([a, b, c], sim) == [a]
  {
    var rows := [a, b, c];
    var all := [true, true, true];
    assert FirstOccurrence(Titles(rows)) == all;
    MaskAll(rows, all);
    assert Deduplicated(rows) == rows;
    assert NonEmpty(Titles(rows)) == all;
    assert WithTitles(rows) == rows;
    assert Unmarked(Titles(rows), sim) == [true, false, false];
    assert Mask(rows, [true, false, false]) == [a] + Mask([b, c], [false, false]);
    assert [b, c][1..] == [c];
  }

  // ---------------------------------------------------------------------------
  // rerank_documents

  datatype RerankRequest = RerankRequest(query: string, documents: seq<string>, topN: nat)

  datatype RankResult = RankResult(index: int, relevanceScore: real)

  /** The ranker's response, or the `{"ranked_documents": []}` dict returned
      without calling it. */
  datatype Reranked = EmptyMarker | Ranking(results: seq<RankResult>)

  /** `doc.strip()` is truthy: one flag per title. */
  function NonBlank(docs: seq<string>): (keep: seq<bool>)
    ensures |keep| == |docs| && forall k :: 0 <= k < |docs| ==> keep[k] == !IsBlank(docs[k])
  {
    seq(|docs|, k requires 0 <= k < |docs| => !IsBlank(docs[k]))
  }

  /** The documents sent: the titles that are not blank. */
  function RankedDocuments(docs: seq<string>): (r: seq<string>)
    ensures |r| <= |docs|
  {
    Mask(docs, NonBlank(docs))
  }

  /** The request rerank_documents makes, None when it makes none. */
  function RerankRequestFor(question: string, docs: seq<string>): Option<RerankRequest> {
    var kept := RankedDocuments(docs);
    if kept == [] then None
    else Some(RerankRequest(question, kept, if |kept| < 20 then |kept| else 20))
  }

  function RerankDocuments(question: string, docs: seq<string>, ranker: RerankRequest -> seq<RankResult>): Reranked {
    match RerankRequestFor(question, docs)
    case None => EmptyMarker
    case Some(request) => Ranking(ranker(request))
  }

  /** Blank titles never reach the ranker; without any other title the ranker
      is not called, and otherwise top_n is the document count capped at 20. */
  lemma RerankRequestSpec(question: string, docs: seq<string>)
    ensures RerankRequestFor(question, docs).None? <==> forall k :: 0 <= k < |docs| ==> IsBlank(docs[k])
    ensures RerankRequestFor(question, docs).Some? ==>
      var req := RerankRequestFor(question, docs).value;
      && req.query == question
      && IsSubsequence(req.documents, docs)
      && (forall a :: 0 <= a < |req.documents| ==> !IsBlank(req.documents[a]))
      && (forall k :: 0 <= k < |docs| && !IsBlank(docs[k]) ==> docs[k] in req.documents)
      && |req.documents| == Count(NonBlank(docs))
      && 1 <= req.topN <= 20 && req.topN <= |req.documents|
      && (req.topN == 20 || req.topN == |req.documents|)
  {
    var keep := NonBlank(docs);
    var kept := RankedDocuments(docs);
    forall k | 0 <= k < |docs| && !IsBlank(docs[k]) ensures docs[k] in kept {
      MaskContains(docs, keep, k);
    }
    forall a | 0 <= a < |kept| ensures !IsBlank(kept[a]) {
      MaskAt(docs, keep, a);
    }
    if kept != [] {
      MaskAt(docs, keep, 0);
    }
  }

  // ---------------------------------------------------------------------------
  // search_gdelt

  /** `cleaned_df.iloc[index]`: negative positions count from the end. */
  function ILoc(rows: seq<Record>, index: int): Result<Record> {
    if 0 <= index < |rows| then Ok(rows[index])
    else if -|rows| <= index < 0 then Ok(rows[|rows| + index])
    else Err(IndexError)
  }

  /** The rows picked by the first 20 results, each with its score; reading
      `.results` of the empty-marker dict raises AttributeError. */
  function TopRows(rows: seq<Record>, reranked: Reranked): Result<seq<(Record, real)>> {
    match reranked
    case EmptyMarker => Err(AttributeError("results"))
    case Ranking(results) =>
      var top := if |results| <= 20 then results else results[..20];
      PickRows(rows, top)
  }

  function PickRows(rows: seq<Record>, top: seq<RankResult>): (r: Result<seq<(Record, real)>>)
    ensures r.Ok? ==> |r.value| == |top|
    ensures r.Ok? ==> forall k :: 0 <= k < |top| ==> ILoc(rows, top[k].index) == Ok(r.value[k].0) && r.value[k].1 == top[k].relevanceScore
    ensures r.Err? <==> exists k :: 0 <= k < |top| && ILoc(rows, top[k].index).Err?
  {
    if top == [] then Ok([])
    else match (ILoc(rows, top[0].index), PickRows(rows, top[1..]))
      case (Err(e), _) => Err(e)
      case (_, Err(e)) => Err(e)
      case (Ok(row), Ok(rest)) =>
        assert forall k :: 1 <= k < |top| ==> top[k] == top[1..][k - 1];
        Ok([(row, top[0].relevanceScore)] + rest)
  }

  /** At most 20 rows, in the ranker's order, row k carrying the k-th score. */
  lemma TopRowsSpec(rows: seq<Record>, reranked: Reranked)
    ensures reranked.EmptyMarker? ==> TopRows(rows, reranked) == Err(AttributeError("results"))
    ensures TopRows(rows, reranked).Ok? ==>
      var picked := TopRows(rows, reranked).value;
      && |picked| <= 20
      && |picked| == (if |reranked.results| <= 20 then |reranked.results| else 20)
      && forall k :: 0 <= k < |picked| ==>
        ILoc(rows, reranked.results[k].index) == Ok(picked[k].0) && picked[k].1 == reranked.results[k].relevanceScore
  {
  }

  /** The record `to_dict('records')` gives for one picked row: the frame's
      columns, the score, date_added as text, and the three summary columns ''. */
  function ItemOf(f: Frame, r: Record, score: real, dateText: string): Item {
    Item(
      url := Lookup(f, r, "url"),
      title := Some(Text(r.title)),
      content := Lookup(f, r, "content"),
      seendate := Lookup(f, r, "seendate"),
      domain := Lookup(f, r, "domain"),
      language := Lookup(f, r, "language"),
      sourcecountry := Lookup(f, r, "sourcecountry"),
      relevanceScore := Some(score),
      shortTitleEn := Some(Text("")),
      summaryEn := Some(Text("")),
      sentiment := Some(Text("")),
      dateAdded := Some(Text(dateText)),
      newsBody := Lookup(f, r, "news_body"))
  }

  function ItemsOf(f: Frame, picked: seq<(Record, real)>, dateText: string): (items: seq<Item>)
    ensures |items| == |picked|
  {
    seq(|picked|, k requires 0 <= k < |picked| => ItemOf(f, picked[k].0, picked[k].1, dateText))
  }

  /** The searcher: the query-parameters file and the ranker client. */
  datatype Searcher = Searcher(topics: seq<QueryTopic>, ranker: RerankRequest -> seq<RankResult>)

  /** The records search_gdelt inserts, or the exception it raises before inserting. */
  function SearchItems(s: Searcher, topic: string, fetch: string -> GdeltReply,
                       sim: (string, string) -> Score, dateText: string): Result<seq<Item>> {
    match GetGdeltQueryString(s.topics, topic)
    case Err(e) => Err(e)
    case Ok(query) =>
      match FetchGdeltData(fetch(query))
      case Err(e) => Err(e)
      case Ok(frame) =>
        var cleaned := Frame(frame.columns, Clean(frame.rows, sim));
        var reranked := RerankDocuments(topic, Titles(cleaned.rows), s.ranker);
        match TopRows(cleaned.rows, reranked)
        case Err(e) => Err(e)
        case Ok(picked) => Ok(ItemsOf(cleaned, picked, dateText))
  }

  /** Every inserted record carries '' in the three summary columns, its row's
      title and its ranker score; there are at most 20 of them. */
  lemma SearchItemsSpec(s: Searcher, topic: string, fetch: string -> GdeltReply,
                        sim: (string, string) -> Score, dateText: string)
    ensures var r := SearchItems(s, topic, fetch, sim, dateText);
      r.Ok? ==> |r.value| <= 20 && forall k :: 0 <= k < |r.value| ==>
        && r.value[k].shortTitleEn == Some(Text("")) && r.value[k].summaryEn == Some(Text(""))
        && r.value[k].sentiment == Some(Text("")) && r.value[k].relevanceScore.Some?
        && r.value[k].title.Some? && r.value[k].title.value.Text?
  {
    var r := SearchItems(s, topic, fetch, sim, dateText);
    if r.Ok? {
      var query := GetGdeltQueryString(s.topics, topic).value;
      var frame := FetchGdeltData(fetch(query)).value;
      var cleaned := Frame(frame.columns, Clean(frame.rows, sim));
      TopRowsSpec(cleaned.rows, RerankDocuments(topic, Titles(cleaned.rows), s.ranker));
    }
  }

  /** Ranker indices count non-blank titles but are applied to all cleaned
      rows: with a blank title ahead of "B", the ranker's position 0 (which is
      "B") picks the blank row. */
  lemma RankerIndexMisaligned(blank: Record, b: Record, score: real)
    requires IsBlank(blank.title) && blank.title != "" && !IsBlank(b.title)
    ensures RerankRequestFor("q", Titles([blank, b])).value.documents == [b.title]
    ensures TopRows([blank, b], Ranking([RankResult(0, score)])) == Ok([(blank, score)])
  {
    var ts := Titles([blank, b]);
    assert ts == [blank.title, b.title];
    var keep := NonBlank(ts);
    assert keep == [false, true];
    assert ts[1..] == [b.title] && keep[1..] == [true];
    assert Mask([b.title], [true]) == [b.title] + Mask([b.title][1..], [true][1..]);
    assert Mask(ts, keep) == [b.title];
    var top := [RankResult(0, score)];
    assert ILoc([blank, b], 0) == Ok(blank);
    assert PickRows([blank, b], top[1..]) == Ok([]);
    assert PickRows([blank, b], top) == Ok([(blank, score)] + []);
    assert [(blank, score)] + [] == [(blank, score)];
  }

  /** search_gdelt: on success the table gains exactly the rows SearchItems
      describes; any exception leaves the database as it was. */
  method SearchGdeltTopic(db: Database, s: Searcher, topic: string, fetch: string -> GdeltReply,
                          sim: (string, string) -> Score, today: Date, dateText: string)
    returns (r: Result<seq<Item>>)
    requires db.Valid()
    modifies db
    ensures db.Valid() && db.watchlist == old(db.watchlist)
    ensures SearchItems(s, topic, fetch, sim, dateText).Err? ==>
      r == SearchItems(s, topic, fetch, sim, dateText) && db.tables == old(db.tables)
    ensures SearchItems(s, topic, fetch, sim, dateText).Ok? ==>
      var items := SearchItems(s, topic, fetch, sim, dateText).value;
      if topic !in old(db.tables) then
        db.tables == old(db.tables) && r == (if items == [] then Ok(items) else Err(OperationalError(topic)))
      else match Inserted(old(db.tables[topic]), items, today)
        case Ok(t) => r == Ok(items) && db.tables == old(db.tables)[topic := t]
        case Err(e) => r == Err(e) && db.tables == old(db.tables)
  {
    var query := GetGdeltQueryString(s.topics, topic);
    if query.Err? {
      return Err(query.error);
    }
    var frame := FetchGdeltData(fetch(query.value));
    if frame.Err? {
      return Err(frame.error);
    }
    var cleaned := CleanDataframe(frame.value, sim);
    var reranked := RerankDocuments(topic, Titles(cleaned.rows), s.ranker);
    var picked := TopRows(cleaned.rows, reranked);
    if picked.Err? {
      return Err(picked.error);
    }
    var items := ItemsOf(cleaned, picked.value, dateText);
    var inserted := InsertData(db, topic, items, today);
    if inserted.Err? {
      return Err(inserted.error);
    }
    return Ok(items);
  }
}
