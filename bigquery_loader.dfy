/** The BigQuery processor: it appends to the article table the rows whose
    `article_url` the table does not already hold. The table is modelled as
    an append-only sequence of rows; the query for the stored URLs reads it. */
module BigQueryLoader {
  import opened Base
  import opened Records
  import opened Seqs

  /** The `article_url` values present in `rows` (a missing URL is a value
      too: `isin` matches `None` with `None`). */
  function UrlsOf(rows: seq<Row>): (r: set<Option<string>>)
    ensures forall i :: 0 <= i < |rows| ==> rows[i].articleUrl in r
    ensures forall u :: u in r ==> exists i :: 0 <= i < |rows| && rows[i].articleUrl == u
  {
    set i | 0 <= i < |rows| :: rows[i].articleUrl
  }

  /** The URLs of two batches together are the URLs of each. */
  lemma UrlsOfAppend(a: seq<Row>, b: seq<Row>)
    ensures UrlsOf(a + b) == UrlsOf(a) + UrlsOf(b)
  {
    forall u | u in UrlsOf(a + b) ensures u in UrlsOf(a) + UrlsOf(b) {
      var i :| 0 <= i < |a + b| && (a + b)[i].articleUrl == u;
      if i < |a| {
        assert (a + b)[i] == a[i];
      } else {
        assert (a + b)[i] == b[i - |a|];
      }
    }
    forall u | u in UrlsOf(a) + UrlsOf(b) ensures u in UrlsOf(a + b) {
      if u in UrlsOf(a) {
        var i :| 0 <= i < |a| && a[i].articleUrl == u;
        assert (a + b)[i] == a[i];
      } else {
        var i :| 0 <= i < |b| && b[i].articleUrl == u;
        assert (a + b)[|a| + i] == b[i];
      }
    }
  }

  /** How many rows of `rows` have a URL in `existing`. */
  function CountStored(rows: seq<Row>, existing: set<Option<string>>): nat {
    if rows == [] then 0
    else (if rows[0].articleUrl in existing then 1 else 0) + CountStored(rows[1..], existing)
  }

  /** `df[~df['article_url'].isin(existing)]`: the rows whose URL is not
      stored, each as often as in the batch, in batch order; together with
      the rows whose URL is stored they make up the batch. */
  function NewArticles(rows: seq<Row>, existing: set<Option<string>>): (r: seq<Row>)
    ensures forall x: Row :: x.articleUrl !in existing ==> multiset(r)[x] == multiset(rows)[x]
    ensures forall x: Row :: x.articleUrl in existing ==> multiset(r)[x] == 0
    ensures Subsequence(r, rows)
    ensures |r| + CountStored(rows, existing) == |rows|
  {
    if rows == [] then []
    else
      var rest := NewArticles(rows[1..], existing);
      assert rows == [rows[0]] + rows[1..];
      if rows[0].articleUrl in existing then rest else [rows[0]] + rest
  }

  /** Every URL of the batch is stored once the new rows are appended. */
  lemma {:induction false} NewArticlesCoverBatch(rows: seq<Row>, existing: set<Option<string>>)
    ensures forall i :: 0 <= i < |rows| ==>
      rows[i].articleUrl in existing || rows[i].articleUrl in UrlsOf(NewArticles(rows, existing))
  {
    var added := NewArticles(rows, existing);
    forall i | 0 <= i < |rows| && rows[i].articleUrl !in existing
      ensures rows[i].articleUrl in UrlsOf(added)
    {
      assert rows[i] in multiset(rows);
      assert multiset(added)[rows[i]] == multiset(rows)[rows[i]];
      assert rows[i] in added;
      var k :| 0 <= k < |added| && added[k] == rows[i];
    }
  }

  /** A batch every URL of which is stored yields nothing new. */
  lemma {:induction false} NothingNewWhenAllStored(rows: seq<Row>, existing: set<Option<string>>)
    requires forall i :: 0 <= i < |rows| ==> rows[i].articleUrl in existing
    ensures NewArticles(rows, existing) == []
  {
    if rows != [] {
      NothingNewWhenAllStored(rows[1..], existing);
    }
  }

  /** Loading the same batch again after a successful load inserts nothing. */
  lemma SecondLoadInsertsNothing(stored: seq<Row>, rows: seq<Row>)
    ensures NewArticles(rows, UrlsOf(stored + NewArticles(rows, UrlsOf(stored)))) == []
  {
    var added := NewArticles(rows, UrlsOf(stored));
    UrlsOfAppend(stored, added);
    NewArticlesCoverBatch(rows, UrlsOf(stored));
    NothingNewWhenAllStored(rows, UrlsOf(stored + added));
  }

  /** A column of the load job's schema. */
  datatype FieldType = StringType | DateType
  datatype SchemaField = SchemaField(name: string, fieldType: FieldType)

  /** The schema of the load job, in column order. */
  const Schema: seq<SchemaField> := [
    SchemaField("title", StringType),
    SchemaField("subtitle", StringType),
    SchemaField("content", StringType),
    SchemaField("author", StringType),
    SchemaField("article_url", StringType),
    SchemaField("article_date", DateType),
    SchemaField("section", StringType)]

  /** The schema names the seven columns of a row once each, and only the
      date column has the `DATE` type. */
  lemma SchemaShape()
    ensures |Schema| == 7
    ensures forall i, j :: 0 <= i < j < |Schema| ==> Schema[i].name != Schema[j].name
    ensures forall i :: 0 <= i < |Schema| ==> (Schema[i].fieldType == DateType <==> Schema[i].name == "article_date")
  {
  }

  /** The article table. Loads with `WRITE_APPEND` only ever add rows. */
  class Table {
    var rows: seq<Row>

    constructor (initial: seq<Row>)
      ensures rows == initial
    {
      rows := initial;
    }

    /** `SELECT article_url FROM` the table. */
    function Urls(): (r: set<Option<string>>)
      reads this
      ensures forall i :: 0 <= i < |rows| ==> rows[i].articleUrl in r
      ensures forall u :: u in r ==> exists i :: 0 <= i < |rows| && rows[i].articleUrl == u
    {
      UrlsOf(rows)
    }

    /** A load job with `WRITE_APPEND`: the batch is added after the rows
        already there, which are left as they were. */
    method Append(batch: seq<Row>)
      modifies this
      ensures rows == old(rows) + batch
      ensures rows[..|old(rows)|] == old(rows)
    {
      rows := rows + batch;
    }
  }

  /** The processor, configured with the table's project, dataset and id. */
  class BigQueryProcessor {
    const projectId: string
    const datasetId: string
    const tableId: string
    const table: Table

    constructor (projectId: string, datasetId: string, tableId: string, table: Table)
      ensures this.projectId == projectId && this.datasetId == datasetId && this.tableId == tableId
      ensures this.table == table
    {
      this.projectId := projectId;
      this.datasetId := datasetId;
      this.tableId := tableId;
      this.table := table;
    }

    /** `project.dataset.table`. */
    function TableRef(): (r: string)
      ensures |r| == |projectId| + |datasetId| + |tableId| + 2
      ensures r[..|projectId|] == projectId && r[|projectId|] == '.'
      ensures r[|projectId| + 1..|projectId| + 1 + |datasetId|] == datasetId && r[|projectId| + 1 + |datasetId|] == '.'
      ensures r[|r| - |tableId|..] == tableId
    {
      projectId + "." + datasetId + "." + tableId
    }

    /** `process`: nothing happens for a missing or empty batch, nor when
        every URL of the batch is already stored; otherwise the new rows are
        appended and the table reference is returned. */
    method Process(data: Option<seq<Row>>) returns (r: Option<string>)
      modifies table
      ensures data.None? || data.value == [] ==> r.None? && table.rows == old(table.rows)
      ensures data.Some? && data.value != [] ==>
        var added := NewArticles(data.value, UrlsOf(old(table.rows)));
        && (added == [] ==> r.None? && table.rows == old(table.rows))
        && (added != [] ==> r == Some(TableRef()) && table.rows == old(table.rows) + added)
    {
      if data.None? || data.value == [] {
        return None;
      }
      var existing := table.Urls();
      var added := NewArticles(data.value, existing);
      if added == [] {
        return None;
      }
      table.Append(added);
      r := Some(TableRef());
    }
  }

  /** Running `process` twice on the same batch: the second run appends
      nothing and returns `None`. */
  method ProcessTwice(p: BigQueryProcessor, data: seq<Row>) returns (first: Option<string>, second: Option<string>)
    modifies p.table
    ensures second.None?
    ensures p.table.rows == old(p.table.rows) + NewArticles(data, UrlsOf(old(p.table.rows)))
  {
    first := p.Process(Some(data));
    SecondLoadInsertsNothing(old(p.table.rows), data);
    second := p.Process(Some(data));
    assert data == [] || NewArticles(data, UrlsOf(old(p.table.rows))) == [] ==> p.table.rows == old(p.table.rows);
  }
}
