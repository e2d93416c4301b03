/** The earlier single-file scraper (`test/prototype.py`). It walks the same
    listing, but it is more forgiving than the production scraper: an entry
    whose `<time>` tag has no usable `datetime` gets no date instead of
    raising, and a failed article fetch gives an empty detail instead of
    aborting the run. Its details also carry the author's profile link, and
    its subtitle cleaner only removes a subtitle that begins the content. */
module Prototype {
  import opened Base
  import opened Text
  import opened Html
  import opened Http
  import opened Records
  import opened Listing
  import GuardianScraper
  import GuardianProcessor

  /** An entry's date: `None` without a footer, without a `<time>` tag, or
      when its `datetime` is missing or empty; otherwise the formatted date,
      and a malformed value still raises. */
  function ArticleDate(lib: Library, item: ListItem): (r: Result<Option<string>, ScrapeError>)
    ensures TimeTagOf(item).None? ==> r == Success(None)
    ensures TimeTagOf(item).Some? && TimeTagOf(item).value.datetime.GetOr("") == "" ==> r == Success(None)
    ensures TimeTagOf(item).Some? && TimeTagOf(item).value.datetime.GetOr("") != "" ==>
      r == FormattedDate(lib, TimeTagOf(item).value.datetime.value)
    ensures r.Failure? ==> r.error.MalformedDate?
  {
    match TimeTagOf(item)
    case None => Success(None)
    case Some(tag) =>
      match tag.datetime
      case None => Success(None)
      case Some(value) => if value == "" then Success(None) else FormattedDate(lib, value)
  }

  /** The dictionary the inner loop appends for one entry. */
  function ItemStub(baseUrl: string, lib: Library, entry: (string, ListItem)): (r: Result<Stub, ScrapeError>)
    ensures r.Success? <==> ArticleDate(lib, entry.1).Success?
    ensures r.Success? ==> r.value == Stub(entry.0, ArticleUrl(baseUrl, lib, entry.1), ArticleDate(lib, entry.1).value)
  {
    var date :- ArticleDate(lib, entry.1);
    Success(Stub(entry.0, ArticleUrl(baseUrl, lib, entry.1), date))
  }

  function StubOfEntry(baseUrl: string, lib: Library): StubOf {
    entry => ItemStub(baseUrl, lib, entry)
  }

  /** `extract_articles`: one stub per `<li>` of every section with a
      non-empty `id`, in document order; only a malformed date raises. */
  method ExtractArticles(baseUrl: string, lib: Library, sections: seq<Section>) returns (r: Result<seq<Stub>, ScrapeError>)
    ensures r == Stubs(sections, StubOfEntry(baseUrl, lib))
    ensures var e := Entries(sections);
      r.Success? <==> forall j :: 0 <= j < |e| ==> ArticleDate(lib, e[j].1).Success?
    ensures var e := Entries(sections);
      r.Success? ==> |r.value| == |e| && forall j :: 0 <= j < |e| ==>
        r.value[j] == Stub(e[j].0, ArticleUrl(baseUrl, lib, e[j].1), ArticleDate(lib, e[j].1).value)
  {
    var stubOf := StubOfEntry(baseUrl, lib);
    r := CollectStubs(sections, stubOf);
    StubsSpec(sections, |sections|, stubOf);
    var e := Entries(sections);
    if r.Success? {
      forall j | 0 <= j < |e|
        ensures r.value[j] == Stub(e[j].0, ArticleUrl(baseUrl, lib, e[j].1), ArticleDate(lib, e[j].1).value)
      {
        assert r.value[j] == stubOf(e[j]).value;
      }
    } else {
      var j :| 0 <= j < |e| && !stubOf(e[j]).Success?;
      assert !ArticleDate(lib, e[j].1).Success?;
    }
  }

  /** The fields the prototype's `get_article_data` returns. */
  datatype ProtoDetail = ProtoDetail(
    title: Option<string>, subtitle: Option<string>, content: Option<string>, author: Option<string>,
    authorProfileLink: Option<string>)
  {
    function ToDict(): Dict {
      map["title" := title, "subtitle" := subtitle, "content" := content, "author" := author,
          "author_profile_link" := authorProfileLink]
    }
  }

  /** The detail of an entry without a URL or whose page could not be fetched. */
  const NoProtoDetail := ProtoDetail(None, None, None, None, None)

  /** A scraped record of the prototype. */
  datatype ProtoArticle = ProtoArticle(
    section: string, articleUrl: Option<string>, articleDate: Option<string>,
    title: Option<string>, subtitle: Option<string>, content: Option<string>, author: Option<string>,
    authorProfileLink: Option<string>)
  {
    function ToDict(): Dict {
      map["section" := Some(section), "article_url" := articleUrl, "article_date" := articleDate,
          "title" := title, "subtitle" := subtitle, "content" := content, "author" := author,
          "author_profile_link" := authorProfileLink]
    }
  }

  /** `article_info.update(article_data)` on one stub. */
  function ProtoMerge(s: Stub, d: ProtoDetail): ProtoArticle {
    ProtoArticle(s.section, s.articleUrl, s.articleDate, d.title, d.subtitle, d.content, d.author, d.authorProfileLink)
  }

  /** The typed merge is Python's dictionary update, and the stub's keys
      survive it. */
  lemma ProtoMergeIsUpdate(s: Stub, d: ProtoDetail)
    ensures ProtoMerge(s, d).ToDict() == Update(s.ToDict(), d.ToDict())
    ensures s.ToDict().Keys !! d.ToDict().Keys
    ensures forall k :: k in s.ToDict() ==> ProtoMerge(s, d).ToDict()[k] == s.ToDict()[k]
  {
    var m, u := ProtoMerge(s, d).ToDict(), Update(s.ToDict(), d.ToDict());
    assert m.Keys == u.Keys;
    forall k | k in m ensures m[k] == u[k] {
    }
    assert m == u;
  }

  /** Some class of the first `dcr-` div contains `standfirst`. */
  predicate IsStandfirst(div: ClassedDiv) {
    exists i :: 0 <= i < |div.classes| && Contains(div.classes[i], "standfirst")
  }

  /** The fields the article-page selectors yield: the heading, the subtitle
      only when the first `dcr-` div is a standfirst, the joined body
      paragraphs, and the author link's text and `href`. */
  function ProtoDetailOf(view: ArticleView): (d: ProtoDetail)
    ensures d.title == view.heading
    ensures d.subtitle.Some? <==> view.firstDiv.Some? && IsStandfirst(view.firstDiv.value)
    ensures d.subtitle.Some? ==> d.subtitle.value == view.firstDiv.value.text
    ensures d.content.None? <==> view.body.None?
    ensures d.content == BodyText(view.body)
    ensures d.author.Some? <==> view.authorLink.Some?
    ensures d.author.Some? ==> d.author.value == view.authorLink.value.text
    ensures view.authorLink.None? ==> d.authorProfileLink.None?
    ensures view.authorLink.Some? ==> d.authorProfileLink == view.authorLink.value.href
  {
    ProtoDetail(
      view.heading,
      match view.firstDiv case None => None case Some(div) => if IsStandfirst(div) then Some(div.text) else None,
      BodyText(view.body),
      match view.authorLink case None => None case Some(link) => Some(link.text),
      match view.authorLink case None => None case Some(link) => link.href)
  }

  /** `get_article_data(url)`: never raises. A missing or empty URL, or any
      failure to fetch the page, gives the all-`None` detail. */
  function ArticleData(url: Option<string>, web: Web): (d: ProtoDetail)
    ensures url.None? || url.value == "" ==> d == NoProtoDetail
    ensures url.Some? && url.value != "" && Fetch(web, url.value).Failure? ==> d == NoProtoDetail
    ensures url.Some? && url.value != "" && Fetch(web, url.value).Success? ==>
      d == ProtoDetailOf(Fetch(web, url.value).value.article)
  {
    match url
    case None => NoProtoDetail
    case Some(u) =>
      if u == "" then NoProtoDetail
      else
        match Fetch(web, u)
        case Failure(_) => NoProtoDetail
        case Success(page) => ProtoDetailOf(page.article)
  }

  /** What `scrape` returns, or the error it raises: only a failed fetch of
      the listing page or a malformed date raises. */
  function ScrapeResult(baseUrl: string, lib: Library, web: Web): Result<seq<ProtoArticle>, ScrapeError> {
    match Fetch(web, baseUrl)
    case Failure(e) => Failure(FetchFailed(baseUrl, e))
    case Success(page) =>
      var stubs :- Stubs(page.sections, StubOfEntry(baseUrl, lib));
      Success(seq(|stubs|, i requires 0 <= i < |stubs| => ProtoMerge(stubs[i], ArticleData(stubs[i].articleUrl, web))))
  }

  /** `scrape`: fetch the listing, extract the stubs, build one detail task
      per stub in order, and update each stub with its detail. */
  method Scrape(baseUrl: string, lib: Library, web: Web) returns (r: Result<seq<ProtoArticle>, ScrapeError>)
    ensures r == ScrapeResult(baseUrl, lib, web)
  {
    var listing := Fetch(web, baseUrl);
    if listing.Failure? {
      return Failure(FetchFailed(baseUrl, listing.error));
    }
    var stubs :- ExtractArticles(baseUrl, lib, listing.value.sections);
    var details: seq<ProtoDetail> := [];
    var i := 0;
    while i < |stubs|
      invariant 0 <= i <= |stubs|
      invariant |details| == i
      invariant forall j :: 0 <= j < i ==> details[j] == ArticleData(stubs[j].articleUrl, web)
    {
      details := details + [ArticleData(stubs[i].articleUrl, web)];
      i := i + 1;
    }
    var articles := MergeDetails(stubs, details, ProtoMerge);
    assert articles == seq(|stubs|, j requires 0 <= j < |stubs| => ProtoMerge(stubs[j], ArticleData(stubs[j].articleUrl, web)));
    return Success(articles);
  }

  /** `scrape` fails exactly when the listing page cannot be fetched or an
      entry's date is malformed; otherwise it returns one record per entry,
      in document order, each the entry's stub updated with its detail. */
  lemma ScrapeSpec(baseUrl: string, lib: Library, web: Web)
    ensures Fetch(web, baseUrl).Failure? ==>
      ScrapeResult(baseUrl, lib, web) == Failure(FetchFailed(baseUrl, Fetch(web, baseUrl).error))
    ensures Fetch(web, baseUrl).Success? ==>
      var e := Entries(Fetch(web, baseUrl).value.sections);
      && (ScrapeResult(baseUrl, lib, web).Success? <==> forall j :: 0 <= j < |e| ==> ArticleDate(lib, e[j].1).Success?)
      && (ScrapeResult(baseUrl, lib, web).Success? ==>
        var records := ScrapeResult(baseUrl, lib, web).value;
        |records| == |e| && forall j :: 0 <= j < |e| ==>
          records[j] == ProtoMerge(ItemStub(baseUrl, lib, e[j]).value, ArticleData(ArticleUrl(baseUrl, lib, e[j].1), web)))
  {
    if Fetch(web, baseUrl).Success? {
      var sections := Fetch(web, baseUrl).value.sections;
      var e := Entries(sections);
      var stubOf := StubOfEntry(baseUrl, lib);
      StubsSpec(sections, |sections|, stubOf);
      var stubs := Stubs(sections, stubOf);
      if stubs.Success? {
        var records := ScrapeResult(baseUrl, lib, web).value;
        forall j | 0 <= j < |e|
          ensures records[j] == ProtoMerge(ItemStub(baseUrl, lib, e[j]).value, ArticleData(ArticleUrl(baseUrl, lib, e[j].1), web))
        {
          assert stubs.value[j] == ItemStub(baseUrl, lib, e[j]).value;
          assert stubs.value[j].articleUrl == ArticleUrl(baseUrl, lib, e[j].1);
        }
      } else {
        var j :| 0 <= j < |e| && !stubOf(e[j]).Success?;
        assert !ArticleDate(lib, e[j].1).Success?;
      }
    }
  }

  /** A record whose article page cannot be fetched keeps the listing's
      section, URL and date, and every detail field is `None`. */
  lemma FailedFetchKeepsListing(baseUrl: string, lib: Library, web: Web, j: nat)
    requires ScrapeResult(baseUrl, lib, web).Success?
    requires j < |ScrapeResult(baseUrl, lib, web).value|
    requires var a := ScrapeResult(baseUrl, lib, web).value[j];
      a.articleUrl.Some? && Fetch(web, a.articleUrl.value).Failure?
    ensures var a := ScrapeResult(baseUrl, lib, web).value[j];
      var e := Entries(Fetch(web, baseUrl).value.sections);
      && j < |e| && a.section == e[j].0 && a.articleUrl == ArticleUrl(baseUrl, lib, e[j].1)
      && ArticleDate(lib, e[j].1).Success? && a.articleDate == ArticleDate(lib, e[j].1).value
      && a.title.None? && a.subtitle.None? && a.content.None? && a.author.None? && a.authorProfileLink.None?
  {
    ScrapeSpec(baseUrl, lib, web);
  }

  /** Where the two scrapers date an entry alike: no `<time>` tag, or one
      with a non-empty `datetime`. */
  lemma SameStubAsProduction(baseUrl: string, lib: Library, entry: (string, ListItem))
    requires TimeTagOf(entry.1).None? || TimeTagOf(entry.1).value.datetime.GetOr("") != ""
    ensures ItemStub(baseUrl, lib, entry) == GuardianScraper.ItemStub(baseUrl, lib, entry)
  {
  }

  /** Where they differ: a `<time>` tag without `datetime` gives the
      prototype an undated stub and makes the production scraper raise. */
  lemma DatelessTagDiffers(baseUrl: string, lib: Library, entry: (string, ListItem))
    requires TimeTagOf(entry.1).Some? && TimeTagOf(entry.1).value.datetime.None?
    ensures ItemStub(baseUrl, lib, entry) == Success(Stub(entry.0, ArticleUrl(baseUrl, lib, entry.1), None))
    ensures GuardianScraper.ItemStub(baseUrl, lib, entry) == Failure(MissingDatetime)
  {
  }

  /** They also differ on an empty `datetime`: the prototype gives an undated
      stub, while production hands `''` to `fromisoformat`, which rejects
      it, so it raises. */
  lemma EmptyDatetimeDiffers(baseUrl: string, lib: Library, entry: (string, ListItem))
    requires TimeTagOf(entry.1).Some? && TimeTagOf(entry.1).value.datetime == Some("")
    requires lib.fromIsoFormat(IsoInput("")).None?
    ensures ItemStub(baseUrl, lib, entry) == Success(Stub(entry.0, ArticleUrl(baseUrl, lib, entry.1), None))
    ensures GuardianScraper.ItemStub(baseUrl, lib, entry) == Failure(MalformedDate(""))
  {
  }

  /** `re.sub('^' + re.escape(sub) + r'\s*', '', con)`: a `sub` that begins
      `con` is cut together with the whitespace after it. */
  function RemoveLeading(sub: string, con: string): (r: string)
    ensures !(sub <= con) ==> r == con
    ensures sub <= con ==> |r| <= |con| - |sub|
  {
    if sub <= con then TrimLeft(con[|sub|..]) else con
  }

  /** The result is what is left of `con` after `sub` and a run of
      whitespace, and does not start with whitespace; a `sub` that does not
      begin `con` changes nothing. */
  lemma RemoveLeadingSpec(sub: string, con: string)
    ensures !(sub <= con) ==> RemoveLeading(sub, con) == con
    ensures sub <= con ==>
      var r := RemoveLeading(sub, con);
      && |sub| + |r| <= |con|
      && r == con[|con| - |r|..]
      && (forall i {:trigger IsSpace(con[i])} :: |sub| <= i < |con| - |r| ==> IsSpace(con[i]))
      && (r == [] || !IsSpace(r[0]))
  {
    if sub <= con {
      var n := |sub|;
      var rest := con[n..];
      var f := Front(rest);
      forall i | n <= i < n + f ensures IsSpace(con[i]) {
        assert con[i] == rest[i - n];
        assert IsSpace(rest[i - n]);
      }
      assert rest[f..] == con[n + f..];
    }
  }

  /** The prototype's `clean_row` on one cell: when the stripped subtitle or
      content is empty the cell is left as it was; otherwise it becomes the
      stripped content with a leading subtitle cut. */
  function CleanContent(subtitle: Option<string>, content: Option<string>): (r: Option<string>)
    ensures Strip(GuardianProcessor.CellText(subtitle)) == "" || Strip(GuardianProcessor.CellText(content)) == "" ==>
      r == content
    ensures Strip(GuardianProcessor.CellText(subtitle)) != "" && Strip(GuardianProcessor.CellText(content)) != "" ==>
      r.Some? && r.value == RemoveLeading(Strip(GuardianProcessor.CellText(subtitle)), Strip(GuardianProcessor.CellText(content)))
  {
    var sub := Strip(GuardianProcessor.CellText(subtitle));
    var con := Strip(GuardianProcessor.CellText(content));
    if sub == "" || con == "" then content
    else Some(RemoveLeading(sub, con))
  }

  /** On a subtitle that begins the content both cleaners give the same
      result. */
  lemma AgreesWithProcessorOnLeadingSubtitle(subtitle: Option<string>, content: Option<string>)
    requires Strip(GuardianProcessor.CellText(subtitle)) != "" && Strip(GuardianProcessor.CellText(content)) != ""
    requires Strip(GuardianProcessor.CellText(subtitle)) <= Strip(GuardianProcessor.CellText(content))
    ensures CleanContent(subtitle, content) == GuardianProcessor.CleanContent(subtitle, content)
  {
    GuardianProcessor.RemoveLeadingSubtitle(
      Strip(GuardianProcessor.CellText(subtitle)), Strip(GuardianProcessor.CellText(content)));
  }

  /** A subtitle that only occurs later in the content is kept by the
      prototype and removed by the processor. */
  lemma DiffersFromProcessorOnLaterSubtitle()
    ensures CleanContent(Some("b"), Some("a b")) == Some("a b")
    ensures GuardianProcessor.CleanContent(Some("b"), Some("a b")) == Some("a")
  {
    assert Strip("b") == "b" by { StripNoEdgeSpace("b"); }
    assert Strip("a b") == "a b" by { StripNoEdgeSpace("a b"); }
    assert OccursAt("a b", "b", 2) && !OccursAt("a b", "b", 0) && !OccursAt("a b", "b", 1);
    assert Find("a b", "b") == Some(2);
    GuardianProcessor.ReplaceFirstAt("a b", "b", 2);
    assert ReplaceFirst("a b", "b", "") == "a ";
    assert Front("a ") == 0;
    assert Back("a ") == 1;
    assert "a "[0..1] == "a";
    assert GuardianProcessor.RemoveSubtitle("b", "a b") == "a";
  }

  /** The prototype's `clean_row`: only the content changes. */
  function CleanRow(row: ProtoArticle): (r: ProtoArticle)
    ensures r.(content := row.content) == row
    ensures r.content == CleanContent(row.subtitle, row.content)
  {
    row.(content := CleanContent(row.subtitle, row.content))
  }

  /** The prototype's `clean_subtitle_from_content`: every row cleaned, none
      added, dropped or reordered. */
  function CleanSubtitleFromContent(rows: seq<ProtoArticle>): (r: seq<ProtoArticle>)
    ensures |r| == |rows|
    ensures forall i :: 0 <= i < |r| ==> r[i] == CleanRow(rows[i])
  {
    seq(|rows|, i requires 0 <= i < |rows| => CleanRow(rows[i]))
  }
}
