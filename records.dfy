/** The records that flow through the pipeline, the clock values it formats,
    and the Python dictionaries the scrapers build. */
module Records {
  import opened Base
  import opened Text

  type Year = y: int | 1000 <= y <= 9999 witness 2000
  type Month = m: int | 1 <= m <= 12 witness 1
  type Day = d: int | 1 <= d <= 31 witness 1
  type Hour = h: int | 0 <= h <= 23
  type Minute = m: int | 0 <= m <= 59
  type Second = s: int | 0 <= s <= 59

  /** A `datetime` as `fromisoformat` or `now()` returns it, in its own time zone. */
  datatype DateTime = DateTime(year: Year, month: Month, day: Day, hour: Hour, minute: Minute, second: Second)

  /** A calendar date, the value `.dt.date` leaves in a column. */
  datatype Date = Date(year: Year, month: Month, day: Day)

  /** `t.strftime("%Y-%m-%d")`: the date fields of `t` as written, with no
      time-zone conversion; `ReadDate` gives them back. */
  function FormatDate(t: DateTime): (r: string)
    ensures |r| == 10 && r[4] == '-' && r[7] == '-'
    ensures ReadDate(r) == Some(Date(t.year, t.month, t.day))
  {
    var y, m, d := Pad4(t.year), Pad2(t.month), Pad2(t.day);
    var r := y + "-" + m + "-" + d;
    assert r[..4] == y && r[5..7] == m && r[8..] == d;
    r
  }

  /** Reads a `YYYY-MM-DD` string written by `FormatDate`. */
  function ReadDate(s: string): Option<Date> {
    if |s| == 10 && s[4] == '-' && s[7] == '-' && forall i :: 0 <= i < 10 && i != 4 && i != 7 ==> IsDigit(s[i]) then
      var y, m, d := DigitsValue(s[..4]), DigitsValue(s[5..7]), DigitsValue(s[8..]);
      if 1000 <= y <= 9999 && 1 <= m <= 12 && 1 <= d <= 31 then Some(Date(y, m, d)) else None
    else
      None
  }

  /** A Python dictionary whose values are strings or `None`. */
  type Dict = map<string, Option<string>>

  /** `d.update(e)`: keys of `e` are set to its values, the rest of `d` stays. */
  function Update(d: Dict, e: Dict): (r: Dict)
    ensures r.Keys == d.Keys + e.Keys
    ensures forall k :: k in e ==> r[k] == e[k]
    ensures forall k :: k in d && k !in e ==> r[k] == d[k]
  {
    d + e
  }

  /** What the listing page says about one entry. */
  datatype Stub = Stub(section: string, articleUrl: Option<string>, articleDate: Option<string>) {
    /** The dictionary the section loop appends. */
    function ToDict(): Dict {
      map["section" := Some(section), "article_url" := articleUrl, "article_date" := articleDate]
    }
  }

  /** What one article page adds to its stub. */
  datatype Detail = Detail(title: Option<string>, subtitle: Option<string>, content: Option<string>, author: Option<string>) {
    /** The dictionary `get_article_data` returns. */
    function ToDict(): Dict {
      map["title" := title, "subtitle" := subtitle, "content" := content, "author" := author]
    }
  }

  /** The detail given to a stub that has no URL to fetch. */
  const NoDetail := Detail(None, None, None, None)

  /** A scraped article: a stub updated with its detail. */
  datatype Article = Article(
    section: string, articleUrl: Option<string>, articleDate: Option<string>,
    title: Option<string>, subtitle: Option<string>, content: Option<string>, author: Option<string>)
  {
    function ToDict(): Dict {
      map["section" := Some(section), "article_url" := articleUrl, "article_date" := articleDate,
          "title" := title, "subtitle" := subtitle, "content" := content, "author" := author]
    }
  }

  /** `basic_info.update(detailed_info)` on one stub. */
  function Merge(s: Stub, d: Detail): Article {
    Article(s.section, s.articleUrl, s.articleDate, d.title, d.subtitle, d.content, d.author)
  }

  /** The typed merge is Python's dictionary update, and because a detail has
      none of a stub's keys, the stub's section, URL and date survive it. */
  lemma MergeIsUpdate(s: Stub, d: Detail)
    ensures Merge(s, d).ToDict() == Update(s.ToDict(), d.ToDict())
    ensures s.ToDict().Keys !! d.ToDict().Keys
    ensures forall k :: k in s.ToDict() ==> Merge(s, d).ToDict()[k] == s.ToDict()[k]
  {
    var m, u := Merge(s, d).ToDict(), Update(s.ToDict(), d.ToDict());
    assert m.Keys == u.Keys;
    forall k | k in m ensures m[k] == u[k] {
    }
    assert m == u;
  }

  /** A cleaned row as the load job sends it: the date is a calendar date. */
  datatype Row = Row(
    title: Option<string>, subtitle: Option<string>, content: Option<string>, author: Option<string>,
    articleUrl: Option<string>, articleDate: Option<Date>, section: string)
}
