/** The production scraper: `parse` walks the listing page, fetches every
    entry's article page and merges the two. A `<time>` tag without a
    `datetime` attribute, an attribute `fromisoformat` rejects, and a failed
    article fetch all raise out of `parse`. */
module GuardianScraper {
  import opened Base
  import opened Html
  import opened Http
  import opened Records
  import opened Listing

  /** An entry's date: `None` without a `<time>` tag in its footer; a tag
      without `datetime` raises (the attribute is `None` and `.replace`
      fails); otherwise the formatted date or the parse error. */
  function ArticleDate(lib: Library, item: ListItem): (r: Result<Option<string>, ScrapeError>)
    ensures TimeTagOf(item).None? ==> r == Success(None)
    ensures TimeTagOf(item).Some? && TimeTagOf(item).value.datetime.None? ==> r == Failure(MissingDatetime)
    ensures TimeTagOf(item).Some? && TimeTagOf(item).value.datetime.Some? ==>
      r == FormattedDate(lib, TimeTagOf(item).value.datetime.value)
  {
    match TimeTagOf(item)
    case None => Success(None)
    case Some(tag) =>
      match tag.datetime
      case None => Failure(MissingDatetime)
      case Some(value) => FormattedDate(lib, value)
  }

  /** The stub the inner loop appends for one entry. */
  function ItemStub(baseUrl: string, lib: Library, entry: (string, ListItem)): (r: Result<Stub, ScrapeError>)
    ensures r.Success? <==> ArticleDate(lib, entry.1).Success?
    ensures r.Success? ==> r.value == Stub(entry.0, ArticleUrl(baseUrl, lib, entry.1), ArticleDate(lib, entry.1).value)
  {
    var date :- ArticleDate(lib, entry.1);
    Success(Stub(entry.0, ArticleUrl(baseUrl, lib, entry.1), date))
  }

  function StubOfEntry(baseUrl: string, lib: Library): StubOf {
    entry => ItemStub(baseUrl, lib, entry)
  }

  /** The fields the article-page selectors yield: the heading, the text of
      the first `dcr-` div whatever its class, the joined body paragraphs and
      the author link's text, each missing exactly when its tag is. */
  function DetailOf(view: ArticleView): (d: Detail)
    ensures d.title == view.heading
    ensures d.subtitle.Some? <==> view.firstDiv.Some?
    ensures d.subtitle.Some? ==> d.subtitle.value == view.firstDiv.value.text
    ensures d.content.None? <==> view.body.None?
    ensures d.content == BodyText(view.body)
    ensures d.author.Some? <==> view.authorLink.Some?
    ensures d.author.Some? ==> d.author.value == view.authorLink.value.text
  {
    Detail(
      view.heading,
      match view.firstDiv case None => None case Some(div) => Some(div.text),
      BodyText(view.body),
      match view.authorLink case None => None case Some(link) => Some(link.text))
  }

  /** `get_article_data`: a stub without a URL (missing or empty) gets the
      all-`None` detail and nothing is fetched; otherwise the page is fetched
      and a failed fetch raises. */
  function ArticleData(stub: Stub, web: Web): (r: Result<Detail, ScrapeError>)
    ensures stub.articleUrl.None? || stub.articleUrl.value == "" ==> r == Success(NoDetail)
    ensures stub.articleUrl.Some? && stub.articleUrl.value != "" ==>
      var url := stub.articleUrl.value;
      && (r.Failure? <==> Fetch(web, url).Failure?)
      && (r.Failure? ==> r.error == FetchFailed(url, Fetch(web, url).error))
      && (r.Success? ==> r.value == DetailOf(web(url).page.article))
  {
    match stub.articleUrl
    case None => Success(NoDetail)
    case Some(url) =>
      if url == "" then Success(NoDetail)
      else
        match Fetch(web, url)
        case Failure(e) => Failure(FetchFailed(url, e))
        case Success(page) => Success(DetailOf(page.article))
  }

  function FetchTask(web: Web): Stub -> Result<Detail, ScrapeError> {
    stub => ArticleData(stub, web)
  }

  /** What `parse` returns for a listing page, or the error it raises. */
  function ParseResult(baseUrl: string, lib: Library, doc: Document, web: Web): Result<seq<Article>, ScrapeError> {
    var stubs :- Stubs(doc.sections, StubOfEntry(baseUrl, lib));
    var details :- Gather(stubs, FetchTask(web));
    Success(seq(|stubs|, i requires 0 <= i < |stubs| => Merge(stubs[i], details[i])))
  }

  /** `parse`: the nested loops collect the stubs, one task per stub is
      gathered in order, and each stub is updated with its detail. */
  method Parse(baseUrl: string, lib: Library, doc: Document, web: Web) returns (r: Result<seq<Article>, ScrapeError>)
    ensures r == ParseResult(baseUrl, lib, doc, web)
  {
    var stubs :- CollectStubs(doc.sections, StubOfEntry(baseUrl, lib));
    var details :- Gather(stubs, FetchTask(web));
    var articles := MergeDetails(stubs, details, Merge);
    assert articles == seq(|stubs|, i requires 0 <= i < |stubs| => Merge(stubs[i], details[i]));
    return Success(articles);
  }

  /** `parse` succeeds exactly when every visited entry's date is well formed
      and every entry with a URL is fetched; it then returns one record per
      entry, in document order, carrying that entry's section id, URL and
      date and the detail of its page. */
  lemma ParseSpec(baseUrl: string, lib: Library, doc: Document, web: Web)
    ensures var e := Entries(doc.sections);
      ParseResult(baseUrl, lib, doc, web).Success? <==>
        (forall j :: 0 <= j < |e| ==> ArticleDate(lib, e[j].1).Success?) &&
        (forall j :: 0 <= j < |e| ==> ArticleData(ItemStub(baseUrl, lib, e[j]).value, web).Success?)
    ensures var e := Entries(doc.sections);
      ParseResult(baseUrl, lib, doc, web).Success? ==>
        var records := ParseResult(baseUrl, lib, doc, web).value;
        |records| == |e| &&
        forall j :: 0 <= j < |e| ==>
          records[j] == Merge(ItemStub(baseUrl, lib, e[j]).value, ArticleData(ItemStub(baseUrl, lib, e[j]).value, web).value) &&
          records[j].section == e[j].0 && records[j].articleUrl == ArticleUrl(baseUrl, lib, e[j].1)
  {
    var e := Entries(doc.sections);
    var stubOf := StubOfEntry(baseUrl, lib);
    StubsSpec(doc.sections, |doc.sections|, stubOf);
    var stubs := Stubs(doc.sections, stubOf);
    if stubs.Success? {
      forall j | 0 <= j < |e| ensures stubs.value[j] == ItemStub(baseUrl, lib, e[j]).value {
      }
      ParseGather(baseUrl, lib, stubs.value, e, web);
    } else {
      var j :| 0 <= j < |e| && !stubOf(e[j]).Success?;
      assert !ArticleDate(lib, e[j].1).Success?;
    }
  }

  /** The gathered details of entries whose stubs were all made: one per
      entry, failing exactly when some entry's detail does. */
  lemma ParseGather(baseUrl: string, lib: Library, stubs: seq<Stub>, e: seq<(string, ListItem)>, web: Web)
    requires |stubs| == |e|
    requires forall j :: 0 <= j < |e| ==> ItemStub(baseUrl, lib, e[j]).Success? && stubs[j] == ItemStub(baseUrl, lib, e[j]).value
    ensures var g := Gather(stubs, FetchTask(web));
      && (g.Success? <==> forall j :: 0 <= j < |e| ==> ArticleData(ItemStub(baseUrl, lib, e[j]).value, web).Success?)
      && (g.Success? ==> |g.value| == |e|)
      && (g.Success? ==> forall j :: 0 <= j < |e| ==> g.value[j] == ArticleData(ItemStub(baseUrl, lib, e[j]).value, web).value)
  {
    var g := Gather(stubs, FetchTask(web));
    if g.Success? {
      forall j | 0 <= j < |e| ensures g.value[j] == ArticleData(ItemStub(baseUrl, lib, e[j]).value, web).value {
        assert FetchTask(web)(stubs[j]) == ArticleData(stubs[j], web);
      }
    } else {
      var j :| 0 <= j < |stubs| && !FetchTask(web)(stubs[j]).Success?;
      assert !ArticleData(ItemStub(baseUrl, lib, e[j]).value, web).Success?;
    }
  }

  /** A failed article fetch is not caught: it aborts the whole parse. */
  lemma FetchFailureAbortsParse(baseUrl: string, lib: Library, doc: Document, web: Web, j: nat)
    requires j < |Entries(doc.sections)|
    requires ItemStub(baseUrl, lib, Entries(doc.sections)[j]).Success?
    requires ItemStub(baseUrl, lib, Entries(doc.sections)[j]).value.articleUrl.Some?
    requires ItemStub(baseUrl, lib, Entries(doc.sections)[j]).value.articleUrl.value != ""
    requires Fetch(web, ItemStub(baseUrl, lib, Entries(doc.sections)[j]).value.articleUrl.value).Failure?
    ensures ParseResult(baseUrl, lib, doc, web).Failure?
  {
    ParseSpec(baseUrl, lib, doc, web);
    assert !ArticleData(ItemStub(baseUrl, lib, Entries(doc.sections)[j]).value, web).Success?;
  }

  /** A stub without a URL gets the all-`None` detail whatever the web holds. */
  lemma NoUrlNoFetch(stub: Stub, web1: Web, web2: Web)
    requires stub.articleUrl.None?
    ensures ArticleData(stub, web1) == ArticleData(stub, web2) == Success(NoDetail)
  {
  }
}
