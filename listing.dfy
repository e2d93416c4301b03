/** The listing traversal and the detail merge that both scrapers share: the
    nested section/item loops that append one stub per entry, the ordered
    fan-out of one task per stub, and the loop that updates each stub with
    its detail. What each scraper does for a single entry or a single article
    page is a parameter here. */
module Listing {
  import opened Base
  import opened Html
  import opened Http
  import opened Records
  import opened Text

  /** Why a scrape raised. */
  datatype ScrapeError =
    | MissingDatetime                         // `None.replace`: a `<time>` without `datetime`
    | MalformedDate(value: string)            // `fromisoformat` rejected the attribute
    | FetchFailed(url: string, error: FetchError)

  /** The library calls the scrapers make whose internals are not modelled:
      `urljoin(base, href)` and `datetime.fromisoformat`, which gives `None`
      where Python raises `ValueError`. */
  datatype Library = Library(urlJoin: (string, string) -> string, fromIsoFormat: string -> Option<DateTime>)

  /** An entry's URL: `urljoin(base_url, href)` when its link has a non-empty
      `href`, otherwise `None`. */
  function ArticleUrl(baseUrl: string, lib: Library, item: ListItem): (r: Option<string>)
    ensures r.None? <==> item.link.None? || item.link.value == ""
    ensures r.Some? ==> r.value == lib.urlJoin(baseUrl, item.link.value)
  {
    match item.link
    case None => None
    case Some(href) => if href == "" then None else Some(lib.urlJoin(baseUrl, href))
  }

  /** The `<time>` tag of an entry's footer, if both exist. */
  function TimeTagOf(item: ListItem): Option<TimeTag> {
    match item.footer
    case None => None
    case Some(footer) => footer.time
  }

  /** The text `fromisoformat` is given: the attribute with every `Z`
      replaced by `+00:00`. */
  function IsoInput(value: string): (r: string)
    ensures 'Z' !in r
  {
    ReplaceChar(value, 'Z', "+00:00")
  }

  /** The `YYYY-MM-DD` string of a parsed attribute, or the error
      `fromisoformat` raises for it. */
  function FormattedDate(lib: Library, value: string): (r: Result<Option<string>, ScrapeError>)
    ensures r.Failure? <==> lib.fromIsoFormat(IsoInput(value)).None?
    ensures r.Failure? ==> r.error == MalformedDate(value)
    ensures r.Success? ==> var t := lib.fromIsoFormat(IsoInput(value)).value;
      r.value.Some? && ReadDate(r.value.value) == Some(Date(t.year, t.month, t.day))
  {
    match lib.fromIsoFormat(IsoInput(value))
    case None => Failure(MalformedDate(value))
    case Some(t) => Success(Some(FormatDate(t)))
  }

  /** The article text: `None` without the article-body container, otherwise
      its paragraph texts joined by single spaces (`""` when there are none;
      `JoinSpacesPiece` places every paragraph in the result). */
  function BodyText(body: Option<seq<string>>): (r: Option<string>)
    ensures r.None? <==> body.None?
    ensures body == Some([]) ==> r == Some("")
    ensures body.Some? ==> r == Some(JoinSpaces(body.value))
  {
    match body
    case None => None
    case Some(paragraphs) => Some(JoinSpaces(paragraphs))
  }

  /** A section the traversal skips: its `id` is missing or empty. */
  predicate Skipped(s: Section) {
    s.id.None? || s.id.value == ""
  }

  /** The (section id, entry) pairs of one section: none for a skipped
      section, otherwise one per `<li>` in order. */
  function SectionEntries(s: Section): (r: seq<(string, ListItem)>)
    ensures Skipped(s) ==> r == []
    ensures !Skipped(s) ==> |r| == |s.items| && forall k :: 0 <= k < |r| ==> r[k] == (s.id.value, s.items[k])
  {
    if Skipped(s) then [] else seq(|s.items|, k requires 0 <= k < |s.items| => (s.id.value, s.items[k]))
  }

  /** The entries of the first `n` sections, in document order. */
  function EntriesUpTo(sections: seq<Section>, n: nat): seq<(string, ListItem)>
    requires n <= |sections|
  {
    if n == 0 then [] else EntriesUpTo(sections, n - 1) + SectionEntries(sections[n - 1])
  }

  /** The entries the nested loops visit, in document order. */
  function Entries(sections: seq<Section>): seq<(string, ListItem)> {
    EntriesUpTo(sections, |sections|)
  }

  /** The number of `<li>` in the first `n` sections that are not skipped. */
  function KeptItemCount(sections: seq<Section>, n: nat): nat
    requires n <= |sections|
  {
    if n == 0 then 0
    else KeptItemCount(sections, n - 1) + if Skipped(sections[n - 1]) then 0 else |sections[n - 1].items|
  }

  /** Every `<li>` of a kept section is visited once, every visit carries a
      non-empty section id, and skipped sections contribute nothing. */
  lemma {:induction false} EntriesCount(sections: seq<Section>, n: nat)
    requires n <= |sections|
    ensures |EntriesUpTo(sections, n)| == KeptItemCount(sections, n)
    ensures forall j :: 0 <= j < |EntriesUpTo(sections, n)| ==> EntriesUpTo(sections, n)[j].0 != ""
  {
    if n > 0 {
      EntriesCount(sections, n - 1);
    }
  }

  /** What one entry contributes: a stub, or the error its parsing raises. */
  type StubOf = ((string, ListItem)) -> Result<Stub, ScrapeError>

  /** The stubs of the first `k` items of a section with id `id`, or the
      error of the first one that raises. */
  function ItemStubs(id: string, items: seq<ListItem>, k: nat, stubOf: StubOf): Result<seq<Stub>, ScrapeError>
    requires k <= |items|
  {
    if k == 0 then Success([])
    else
      var prev :- ItemStubs(id, items, k - 1, stubOf);
      var last :- stubOf((id, items[k - 1]));
      Success(prev + [last])
  }

  /** The stubs of one section. */
  function SectionStubs(s: Section, stubOf: StubOf): Result<seq<Stub>, ScrapeError> {
    if Skipped(s) then Success([]) else ItemStubs(s.id.value, s.items, |s.items|, stubOf)
  }

  /** The stubs of the first `n` sections, or the first error raised. */
  function StubsUpTo(sections: seq<Section>, n: nat, stubOf: StubOf): Result<seq<Stub>, ScrapeError>
    requires n <= |sections|
  {
    if n == 0 then Success([])
    else
      var prev :- StubsUpTo(sections, n - 1, stubOf);
      var here :- SectionStubs(sections[n - 1], stubOf);
      Success(prev + here)
  }

  /** The stubs of the whole listing, or the first error raised. */
  function Stubs(sections: seq<Section>, stubOf: StubOf): Result<seq<Stub>, ScrapeError> {
    StubsUpTo(sections, |sections|, stubOf)
  }

  /** Within a section, an item that raises decides the section's outcome. */
  lemma {:induction false} ItemStubsFailureStays(id: string, items: seq<ListItem>, k: nat, m: nat, stubOf: StubOf)
    requires k <= m <= |items|
    requires ItemStubs(id, items, k, stubOf).Failure?
    ensures ItemStubs(id, items, m, stubOf) == ItemStubs(id, items, k, stubOf)
    decreases m
  {
    if k < m {
      ItemStubsFailureStays(id, items, k, m - 1, stubOf);
    }
  }

  /** A section that raises decides the listing's outcome. */
  lemma {:induction false} StubsFailureStays(sections: seq<Section>, n: nat, m: nat, stubOf: StubOf)
    requires n <= m <= |sections|
    requires StubsUpTo(sections, n, stubOf).Failure?
    ensures StubsUpTo(sections, m, stubOf) == StubsUpTo(sections, n, stubOf)
    decreases m
  {
    if n < m {
      StubsFailureStays(sections, n, m - 1, stubOf);
    }
  }

  /** A section's items succeed exactly when each item does, giving one stub
      per item in order. */
  lemma {:induction false} ItemStubsSpec(id: string, items: seq<ListItem>, k: nat, stubOf: StubOf)
    requires k <= |items|
    ensures ItemStubs(id, items, k, stubOf).Success? <==> forall j :: 0 <= j < k ==> stubOf((id, items[j])).Success?
    ensures ItemStubs(id, items, k, stubOf).Success? ==>
      |ItemStubs(id, items, k, stubOf).value| == k &&
      forall j :: 0 <= j < k ==> ItemStubs(id, items, k, stubOf).value[j] == stubOf((id, items[j])).value
  {
    if k > 0 {
      ItemStubsSpec(id, items, k - 1, stubOf);
    }
  }

  /** A section succeeds exactly when each of its entries does, giving one
      stub per entry in order. */
  lemma SectionStubsSpec(s: Section, stubOf: StubOf)
    ensures var e := SectionEntries(s);
      SectionStubs(s, stubOf).Success? <==> forall j :: 0 <= j < |e| ==> stubOf(e[j]).Success?
    ensures var e := SectionEntries(s);
      SectionStubs(s, stubOf).Success? ==>
        |SectionStubs(s, stubOf).value| == |e| &&
        forall j :: 0 <= j < |e| ==> SectionStubs(s, stubOf).value[j] == stubOf(e[j]).value
  {
    if !Skipped(s) {
      ItemStubsSpec(s.id.value, s.items, |s.items|, stubOf);
      var e := SectionEntries(s);
      assert forall j :: 0 <= j < |e| ==> e[j] == (s.id.value, s.items[j]);
      if forall j :: 0 <= j < |e| ==> stubOf(e[j]).Success? {
        forall j | 0 <= j < |s.items| ensures stubOf((s.id.value, s.items[j])).Success? {
          assert e[j] == (s.id.value, s.items[j]);
        }
      }
    }
  }

  /** The traversal succeeds exactly when every visited entry does; it then
      yields one stub per entry, in document order. */
  lemma {:induction false} StubsSpec(sections: seq<Section>, n: nat, stubOf: StubOf)
    requires n <= |sections|
    ensures var e := EntriesUpTo(sections, n);
      StubsUpTo(sections, n, stubOf).Success? <==> forall j :: 0 <= j < |e| ==> stubOf(e[j]).Success?
    ensures var e := EntriesUpTo(sections, n);
      StubsUpTo(sections, n, stubOf).Success? ==>
        |StubsUpTo(sections, n, stubOf).value| == |e| &&
        forall j :: 0 <= j < |e| ==> StubsUpTo(sections, n, stubOf).value[j] == stubOf(e[j]).value
  {
    if n > 0 {
      StubsSpec(sections, n - 1, stubOf);
      var s := sections[n - 1];
      var prev, here := EntriesUpTo(sections, n - 1), SectionEntries(s);
      assert EntriesUpTo(sections, n) == prev + here;
      SectionStubsSpec(s, stubOf);
      ConcatAllSucceed(prev, here, stubOf);
      if StubsUpTo(sections, n, stubOf).Success? {
        var all, before, mine := StubsUpTo(sections, n, stubOf).value, StubsUpTo(sections, n - 1, stubOf).value,
          SectionStubs(s, stubOf).value;
        assert all == before + mine;
        forall j | 0 <= j < |prev + here| ensures all[j] == stubOf((prev + here)[j]).value {
          if j < |prev| {
            assert (prev + here)[j] == prev[j];
          } else {
            assert (prev + here)[j] == here[j - |prev|];
          }
        }
      }
    }
  }

  /** Every entry of a concatenation succeeds exactly when every entry of
      both parts does. */
  lemma ConcatAllSucceed(a: seq<(string, ListItem)>, b: seq<(string, ListItem)>, stubOf: StubOf)
    ensures (forall j :: 0 <= j < |a + b| ==> stubOf((a + b)[j]).Success?) <==>
      (forall j :: 0 <= j < |a| ==> stubOf(a[j]).Success?) && (forall j :: 0 <= j < |b| ==> stubOf(b[j]).Success?)
  {
    if forall j :: 0 <= j < |a + b| ==> stubOf((a + b)[j]).Success? {
      forall j | 0 <= j < |a| ensures stubOf(a[j]).Success? {
        assert (a + b)[j] == a[j];
      }
      forall j | 0 <= j < |b| ensures stubOf(b[j]).Success? {
        assert (a + b)[|a| + j] == b[j];
      }
    } else {
      var j :| 0 <= j < |a + b| && !stubOf((a + b)[j]).Success?;
      if j < |a| {
        assert (a + b)[j] == a[j];
      } else {
        assert (a + b)[j] == b[j - |a|];
      }
    }
  }

  /** The nested loops of the listing traversal: for each section with a
      non-empty `id`, for each of its `<li>`, append the entry's stub. */
  method CollectStubs(sections: seq<Section>, stubOf: StubOf) returns (r: Result<seq<Stub>, ScrapeError>)
    ensures r == Stubs(sections, stubOf)
  {
    var stubs: seq<Stub> := [];
    var i := 0;
    while i < |sections|
      invariant 0 <= i <= |sections|
      invariant StubsUpTo(sections, i, stubOf) == Success(stubs)
    {
      var section := sections[i];
      if !Skipped(section) {
        var id := section.id.value;
        var before := stubs;
        var k := 0;
        while k < |section.items|
          invariant 0 <= k <= |section.items|
          invariant ItemStubs(id, section.items, k, stubOf).Success?
          invariant stubs == before + ItemStubs(id, section.items, k, stubOf).value
        {
          var stub := stubOf((id, section.items[k]));
          if stub.Failure? {
            ItemStubsFailureStays(id, section.items, k + 1, |section.items|, stubOf);
            StubsFailureStays(sections, i + 1, |sections|, stubOf);
            return Failure(stub.error);
          }
          stubs := stubs + [stub.value];
          k := k + 1;
        }
      } else {
        assert stubs + [] == stubs;
      }
      i := i + 1;
    }
    r := Success(stubs);
  }

  /** `asyncio.gather` over one task per stub: the results in stub order, or
      the error of the first task that raises (any raising task aborts it). */
  function Gather<D>(stubs: seq<Stub>, task: Stub -> Result<D, ScrapeError>): (r: Result<seq<D>, ScrapeError>)
    ensures r.Success? <==> forall i :: 0 <= i < |stubs| ==> task(stubs[i]).Success?
    ensures r.Success? ==> |r.value| == |stubs| && forall i :: 0 <= i < |stubs| ==> r.value[i] == task(stubs[i]).value
  {
    if stubs == [] then Success([])
    else
      var first :- task(stubs[0]);
      var rest :- Gather(stubs[1..], task);
      Success([first] + rest)
  }

  /** The `zip`/`update` loop: record `i` is stub `i` updated with detail `i`. */
  method MergeDetails<D, A>(stubs: seq<Stub>, details: seq<D>, merge: (Stub, D) -> A) returns (articles: seq<A>)
    requires |details| == |stubs|
    ensures |articles| == |stubs|
    ensures forall i :: 0 <= i < |stubs| ==> articles[i] == merge(stubs[i], details[i])
  {
    articles := [];
    var i := 0;
    while i < |stubs|
      invariant 0 <= i <= |stubs|
      invariant |articles| == i
      invariant forall j :: 0 <= j < i ==> articles[j] == merge(stubs[j], details[j])
    {
      articles := articles + [merge(stubs[i], details[i])];
      i := i + 1;
    }
  }
}
