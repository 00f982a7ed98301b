/** The SQLite database file as an in-memory store: one article table per topic,
    created and filled by src/initialize_db.py, and the shared watchlist table
    whose rows src/GetWatchlist.py appends. Each table keeps its rows in rowid
    order together with its AUTOINCREMENT counter (the largest id ever handed out). */
module Store {
  import opened Common
  import opened Dates

  /** The topic tables create_database_and_tables makes. */
  const Countries: seq<string> :=
    ["Climate", "UK", "China", "Russia_Ukraine", "Israel_Palestine", "USA", "Turkey", "Germany", "France", "NATO"]

  /** One row of a topic table. url and title are NOT NULL; date_added always
      receives the column default CURRENT_DATE; the last four columns are the
      enrichment group the scraper fills. */
  datatype ArticleRow = ArticleRow(
    id: nat,
    url: string,
    title: string,
    content: Cell,
    seendate: Cell,
    domain: Cell,
    language: Cell,
    sourcecountry: Cell,
    relevanceScore: real,
    dateAdded: Date,
    newsBody: Cell,
    shortTitleEn: Cell,
    summaryEn: Cell,
    sentiment: Cell)

  datatype Table = Table(rows: seq<ArticleRow>, lastId: nat)

  const EmptyTable: Table := Table([], 0)

  /** Rows are kept in rowid order. */
  predicate IdsIncreasing(rows: seq<ArticleRow>) {
    forall i, j :: 0 <= i < j < |rows| ==> rows[i].id < rows[j].id
  }

  /** Rows in rowid order, every id positive and at most the AUTOINCREMENT counter. */
  predicate TableValid(t: Table) {
    && IdsIncreasing(t.rows)
    && (forall k :: 0 <= k < |t.rows| ==> 0 < t.rows[k].id <= t.lastId)
  }

  /** One row of the watchlist table; date_added holds ISO text, urls_used a JSON list. */
  datatype WatchlistRow = WatchlistRow(id: nat, country: string, dateAdded: string, watchlist: string, urlsUsed: string)

  datatype WatchlistTable = WatchlistTable(rows: seq<WatchlistRow>, lastId: nat)

  predicate WatchlistValid(w: WatchlistTable) {
    && (forall i, j :: 0 <= i < j < |w.rows| ==> w.rows[i].id < w.rows[j].id)
    && (forall k :: 0 <= k < |w.rows| ==> 0 < w.rows[k].id <= w.lastId)
  }

  /** The database file: topic tables by name, and the watchlist table once created. */
  class Database {
    var tables: map<string, Table>
    var watchlist: Option<WatchlistTable>

    ghost predicate Valid()
      reads this
    {
      && (forall name :: name in tables ==> TableValid(tables[name]))
      && (watchlist.Some? ==> WatchlistValid(watchlist.value))
    }

    /** A database file with no tables yet. */
    constructor ()
      ensures Valid() && tables == map[] && watchlist == None
    {
      tables := map[];
      watchlist := None;
    }
  }

  // ---------------------------------------------------------------------------
  // create_database_and_tables

  /** The tables after `CREATE TABLE IF NOT EXISTS` for each name in order. */
  function AddMissing(m: map<string, Table>, names: seq<string>): map<string, Table>
    decreases |names|
  {
    if names == [] then m
    else AddMissing(if names[0] in m then m else m[names[0] := EmptyTable], names[1..])
  }

  /** Every named table exists afterwards; existing tables are untouched; new ones are empty. */
  lemma {:induction false} AddMissingSpec(m: map<string, Table>, names: seq<string>)
    ensures AddMissing(m, names).Keys == m.Keys + set n | n in names
    ensures forall n :: n in m ==> AddMissing(m, names)[n] == m[n]
    ensures forall n :: n in names && n !in m ==> AddMissing(m, names)[n] == EmptyTable
    decreases |names|
  {
    if names != [] {
      var m' := if names[0] in m then m else m[names[0] := EmptyTable];
      AddMissingSpec(m', names[1..]);
      assert (set n | n in names) == {names[0]} + set n | n in names[1..];
    }
  }

  /** Once every named table exists, creating them again changes nothing. */
  lemma {:induction false} AddMissingPresent(m: map<string, Table>, names: seq<string>)
    requires forall k :: 0 <= k < |names| ==> names[k] in m
    ensures AddMissing(m, names) == m
  {
    if names != [] { AddMissingPresent(m, names[1..]); }
  }

  /** Re-running create_database_and_tables is a no-op. */
  lemma CreateTablesIdempotent(m: map<string, Table>)
    ensures AddMissing(AddMissing(m, Countries), Countries) == AddMissing(m, Countries)
  {
    AddMissingSpec(m, Countries);
    AddMissingPresent(AddMissing(m, Countries), Countries);
  }

  lemma {:induction false} AddMissingValid(m: map<string, Table>, names: seq<string>)
    requires forall n :: n in m ==> TableValid(m[n])
    ensures forall n :: n in AddMissing(m, names) ==> TableValid(AddMissing(m, names)[n])
    decreases |names|
  {
    if names != [] {
      AddMissingValid(if names[0] in m then m else m[names[0] := EmptyTable], names[1..]);
    }
  }

  /** `CREATE TABLE IF NOT EXISTS` for each name in turn. */
  method CreateTables(db: Database, names: seq<string>)
    requires db.Valid()
    modifies db
    ensures db.Valid()
    ensures db.tables == AddMissing(old(db.tables), names)
    ensures db.watchlist == old(db.watchlist)
  {
    for i := 0 to |names|
      invariant AddMissing(old(db.tables), names) == AddMissing(db.tables, names[i..])
      invariant db.watchlist == old(db.watchlist)
    {
      assert names[i..][0] == names[i] && names[i..][1..] == names[i + 1..];
      if names[i] !in db.tables {
        db.tables := db.tables[names[i] := EmptyTable];
      }
    }
    AddMissingValid(old(db.tables), names);
  }

  method CreateDatabaseAndTables(db: Database)
    requires db.Valid()
    modifies db
    ensures db.Valid()
    ensures db.tables == AddMissing(old(db.tables), Countries)
    ensures db.watchlist == old(db.watchlist)
  {
    CreateTables(db, Countries);
  }

  // ---------------------------------------------------------------------------
  // insert_data

  /** One record handed to insert_data. Each field is None when the key is
      absent, Some(Null) for a None or NaN value, Some(Text(s)) otherwise. */
  datatype Item = Item(
    url: Option<Cell>,
    title: Option<Cell>,
    content: Option<Cell>,
    seendate: Option<Cell>,
    domain: Option<Cell>,
    language: Option<Cell>,
    sourcecountry: Option<Cell>,
    relevanceScore: Option<real>,
    shortTitleEn: Option<Cell>,
    summaryEn: Option<Cell>,
    sentiment: Option<Cell>,
    dateAdded: Option<Cell>,
    newsBody: Option<Cell>)

  /** `item.get(key, '')` for a text column. */
  function Field(v: Option<Cell>): (c: Cell)
    ensures v.None? ==> c == Text("")
    ensures v.Some? ==> c == v.value
  {
    v.GetOr(Text(""))
  }

  /** The row one INSERT adds, or the NOT NULL violation it raises (url is checked before title). */
  function NewRow(item: Item, id: nat, today: Date): (r: Result<ArticleRow>)
  {
    match (Field(item.url), Field(item.title))
    case (Null, _) => Err(IntegrityError("url"))
    case (_, Null) => Err(IntegrityError("title"))
    case (Text(url), Text(title)) =>
      Ok(ArticleRow(
        id, url, title,
        Field(item.content), Field(item.seendate), Field(item.domain), Field(item.language),
        Field(item.sourcecountry), item.relevanceScore.GetOr(0.0), today,
        Null, Field(item.shortTitleEn), Field(item.summaryEn), Field(item.sentiment)))
  }

  predicate Insertable(item: Item) {
    Field(item.url).Text? && Field(item.title).Text?
  }

  /** What an item's keys put in its row: missing text keys give '', a missing
      relevance_score 0.0; news_body stays NULL and date_added is today. */
  lemma NewRowColumns(item: Item, id: nat, today: Date)
    ensures NewRow(item, id, today).Ok? <==> Insertable(item)
    ensures NewRow(item, id, today).Ok? ==>
      var row := NewRow(item, id, today).value;
      && row.id == id && row.newsBody == Null && row.dateAdded == today
      && Text(row.url) == Field(item.url) && Text(row.title) == Field(item.title)
      && row.content == Field(item.content) && row.seendate == Field(item.seendate)
      && row.domain == Field(item.domain) && row.language == Field(item.language)
      && row.sourcecountry == Field(item.sourcecountry)
      && (item.relevanceScore.None? ==> row.relevanceScore == 0.0)
      && (item.relevanceScore.Some? ==> row.relevanceScore == item.relevanceScore.value)
      && row.shortTitleEn == Field(item.shortTitleEn) && row.summaryEn == Field(item.summaryEn)
      && row.sentiment == Field(item.sentiment)
  {
  }

  /** The item's own date_added and news_body never reach the row. */
  lemma InsertIgnoresDateAndBody(item: Item, dateAdded: Option<Cell>, newsBody: Option<Cell>, id: nat, today: Date)
    ensures NewRow(item.(dateAdded := dateAdded, newsBody := newsBody), id, today) == NewRow(item, id, today)
  {
  }

  /** The table after inserting the items one by one and committing, or the
      exception that aborts the batch before the commit. */
  function Inserted(t: Table, items: seq<Item>, today: Date): Result<Table>
    decreases |items|
  {
    if items == [] then Ok(t)
    else match NewRow(items[0], t.lastId + 1, today)
      case Err(e) => Err(e)
      case Ok(row) => Inserted(Table(t.rows + [row], t.lastId + 1), items[1..], today)
  }

  /** insert_data fails, inserting nothing, exactly when some item has a NULL url or title. */
  lemma {:induction false} InsertedOkIff(t: Table, items: seq<Item>, today: Date)
    ensures Inserted(t, items, today).Ok? <==> forall k :: 0 <= k < |items| ==> Insertable(items[k])
    decreases |items|
  {
    if items != [] {
      var r := NewRow(items[0], t.lastId + 1, today);
      assert r.Ok? <==> Insertable(items[0]);
      if r.Ok? {
        InsertedOkIff(Table(t.rows + [r.value], t.lastId + 1), items[1..], today);
        assert forall k :: 1 <= k < |items| ==> items[1..][k - 1] == items[k];
      }
    }
  }

  /** insert_data appends one row per item, in item order, with consecutive fresh
      ids above every id the table ever held, and leaves existing rows unchanged. */
  lemma {:induction false} InsertedRows(t: Table, items: seq<Item>, today: Date)
    requires TableValid(t)
    requires Inserted(t, items, today).Ok?
    ensures
      var t' := Inserted(t, items, today).value;
      && TableValid(t')
      && t'.lastId == t.lastId + |items|
      && |t'.rows| == |t.rows| + |items|
      && t'.rows[..|t.rows|] == t.rows
      && (forall k :: 0 <= k < |items| ==> Ok(t'.rows[|t.rows| + k]) == NewRow(items[k], t.lastId + 1 + k, today))
      && (forall j :: |t.rows| <= j < |t'.rows| ==> t'.rows[j].id > t.lastId)
    decreases |items|
  {
    if items != [] {
      var row := NewRow(items[0], t.lastId + 1, today).value;
      assert row.id == t.lastId + 1;
      var t1 := Table(t.rows + [row], t.lastId + 1);
      AppendKeepsValid(t, row);
      InsertedRows(t1, items[1..], today);
      var t' := Inserted(t, items, today).value;
      assert t' == Inserted(t1, items[1..], today).value;
      assert t'.rows[..|t1.rows|] == t1.rows;
      assert t'.rows[..|t.rows|] == t1.rows[..|t.rows|] == t.rows;
      forall k | 0 <= k < |items|
        ensures Ok(t'.rows[|t.rows| + k]) == NewRow(items[k], t.lastId + 1 + k, today)
      {
        if k == 0 {
          assert t'.rows[|t.rows|] == t1.rows[|t.rows|] == row;
        } else {
          assert items[1..][k - 1] == items[k];
          assert |t.rows| + k == |t1.rows| + (k - 1);
        }
      }
    }
  }

  /** Appending a row whose id is one past the counter keeps the table valid. */
  lemma AppendKeepsValid(t: Table, row: ArticleRow)
    requires TableValid(t) && row.id == t.lastId + 1
    ensures TableValid(Table(t.rows + [row], t.lastId + 1))
  {
    var rows := t.rows + [row];
    assert forall k :: 0 <= k < |t.rows| ==> rows[k] == t.rows[k];
  }

  method InsertData(db: Database, country: string, items: seq<Item>, today: Date) returns (r: Result<()>)
    requires db.Valid()
    modifies db
    ensures db.Valid() && db.watchlist == old(db.watchlist)
    ensures country !in old(db.tables) ==>
      db.tables == old(db.tables) && r == (if items == [] then Ok(()) else Err(OperationalError(country)))
    ensures country in old(db.tables) ==>
      match Inserted(old(db.tables[country]), items, today)
      case Ok(t) => r == Ok(()) && db.tables == old(db.tables)[country := t]
      case Err(e) => r == Err(e) && db.tables == old(db.tables)
  {
    if country !in db.tables {
      // only an INSERT names the table: an empty batch runs no statement
      if items == [] {
        return Ok(());
      }
      return Err(OperationalError(country));
    }
    var t := db.tables[country];
    ghost var t0 := t;
    for i := 0 to |items|
      invariant Inserted(t0, items, today) == Inserted(t, items[i..], today)
      invariant TableValid(t)
    {
      assert items[i..][0] == items[i] && items[i..][1..] == items[i + 1..];
      var row := NewRow(items[i], t.lastId + 1, today);
      if row.Err? {
        // the uncommitted INSERTs are rolled back when the connection closes
        return Err(row.error);
      }
      t := Table(t.rows + [row.value], t.lastId + 1);
    }
    assert items[|items|..] == [];
    db.tables := db.tables[country := t];
    r := Ok(());
  }
}
