# The Guardian news collector, modelled in Dafny

The collector scrapes one listing page of The Guardian, enriches each listed
entry from its article page, cleans the resulting batch and appends the rows
that are new to a BigQuery table. This project models the logic under the
HTML, pandas and BigQuery calls and proves what it guarantees:

- **Listing traversal and detail merge** (`Listing`, `GuardianScraper`, and
  the earlier version in `Prototype`). A parsed page is an abstract tree
  (`Html`): sections with an optional `id`, each with list items carrying an
  optional link and an optional footer `<time>` tag. The traversal skips
  sections without an id and emits one stub per item, in document order,
  as the source's nested loops do (`Listing.CollectStubs`). One detail task
  per stub is gathered in order (`Listing.Gather`), and each stub is updated
  with its detail (`Listing.MergeDetails`).
- **Record transformer** (`GuardianTransformer`): deduplicate, fill missing
  subtitles, drop rows without title or content, coerce dates.
- **Subtitle stripping** (`GuardianProcessor`, and the prototype's variant in
  `Prototype`), plus the name of the CSV file the processor writes.
- **Dedup-append loader** (`BigQueryLoader`): a `Table` class whose row
  sequence only grows, and a `BigQueryProcessor` class whose `Process`
  appends the rows whose URL is not stored yet.

Supporting modules: `Base` (Option, Result), `Text` (Python's `isspace`,
`strip`, `find`, `replace`, `' '.join`, zero-padded digits), `Seqs`
(subsequences), `Records` (stubs, details, articles, rows, dates,
dictionaries), `Http` (the fetch and its errors).

External capabilities are parameters, not models:

- `urljoin` and `datetime.fromisoformat` are fields of `Listing.Library`.
- `pd.to_datetime(..., errors='coerce')` is a `toDate` function.
- The web is a function from URL to response (`Http.Web`).
- The current time is a `DateTime` argument.

The model follows the code in these places, where its behaviour is easy
to misread:

- Fetching raises for every status from 400 up (`raise_for_status`), not for
  every non-2xx status, and sets no timeout.
- The production scraper does not catch a failed article fetch: it aborts
  the whole parse. Only the prototype degrades it to an all-`None` detail.
- A `<time>` tag without `datetime`, or with a value `fromisoformat` rejects,
  makes the production scraper raise instead of giving a null date. The
  prototype gives a null date for a missing or empty attribute, but still
  raises on a malformed one.
- The transformer never defaults a missing author. An unparseable date
  becomes null, not the current date. `dropna` drops only nulls, so empty
  titles and contents stay.
- The transformer deduplicates before filling subtitles, so rows that
  differed only in a missing versus an empty subtitle both remain.
- The loader creates no table. Its schema has seven columns, including
  `subtitle`.

## Model

| member | source | states |
|---|---|---|
| Http.Fetch | src/datasources/extractor.py:9-12 | the fetch succeeds exactly when there is a response with status below 400, returning its body; a status from 400 up fails with that status, no response fails as a network error |
| Listing.ArticleUrl | src/datasources/the_guardian_scraper.py:30-32 | the URL is missing exactly when the item has no link or an empty href; otherwise it is `urljoin(base_url, href)` |
| Text.ReplaceChar | src/datasources/the_guardian_scraper.py:37 | `replace('Z', '+00:00')` of `''` is `''`, of a single `Z` is `+00:00` and of any other single character is that character; it leaves no `Z` and changes nothing when there is none |
| Text.ReplaceCharAppend | src/datasources/the_guardian_scraper.py:37 | replacing works character by character: the result for `a + b` is the result for `a` followed by the result for `b` |
| Listing.FormattedDate | src/datasources/the_guardian_scraper.py:36-38 | formatting fails with the malformed value exactly when `fromisoformat` rejects it; otherwise the `YYYY-MM-DD` string reads back as the parsed calendar date |
| Records.FormatDate | src/datasources/the_guardian_scraper.py:38 | `strftime('%Y-%m-%d')` is ten characters with dashes at 4 and 7 and reads back as the same year, month and day |
| Text.Pad2 | src/processors/the_guardian_processor.py:15 | the two-digit field is two decimal digits whose value is the number |
| Listing.BodyText | src/datasources/the_guardian_scraper.py:67-72 | content is missing exactly when the body container is; no paragraphs give `''`; otherwise it is the paragraph texts joined by single spaces |
| Text.JoinSpaces | src/datasources/the_guardian_scraper.py:70 | `' '.join` of no parts is empty and of n parts adds n-1 separators |
| Text.JoinSpacesPiece | src/datasources/the_guardian_scraper.py:70 | `' '.join(parts)` holds part i at the offset after the earlier parts and their separators, followed by one space, and the last part ends the string |
| Text.SplitJoinSpaces | src/datasources/the_guardian_scraper.py:70 | paragraphs without spaces are recovered by splitting the joined content on spaces |
| Listing.SectionEntries | src/datasources/the_guardian_scraper.py:23-29 | a section without a non-empty id contributes nothing; any other contributes each of its items, in order, with its id |
| Listing.EntriesCount | src/datasources/the_guardian_scraper.py:23-29 | the traversal visits exactly the items of kept sections, and every visited entry's section id is non-empty |
| Listing.ItemStubsSpec | src/datasources/the_guardian_scraper.py:29-44 | the inner loop succeeds exactly when every item's stub does, giving one stub per item in order |
| Listing.SectionStubsSpec | src/datasources/the_guardian_scraper.py:23-44 | one section succeeds exactly when each of its entries does, giving one stub per entry in order |
| Listing.StubsSpec | src/datasources/the_guardian_scraper.py:23-44 | the nested loops succeed exactly when every visited entry does, giving one stub per entry in document order |
| Listing.ItemStubsFailureStays | src/datasources/the_guardian_scraper.py:36-38 | once an item raises, the rest of the section does not change the outcome |
| Listing.StubsFailureStays | src/datasources/the_guardian_scraper.py:23-44 | once an entry raises, later sections do not change the outcome |
| Listing.CollectStubs | src/datasources/the_guardian_scraper.py:21-44 | the nested loops return exactly the traversal's stubs, or the first error raised |
| Listing.Gather | src/datasources/the_guardian_scraper.py:46-47 | gathering succeeds exactly when every task does, with task i's result at position i |
| Listing.MergeDetails | src/datasources/the_guardian_scraper.py:48-49 | record i is stub i updated with detail i, for every i, and there are as many records as stubs |
| Records.Update | src/datasources/the_guardian_scraper.py:49 | `dict.update`: keys of both, the new value wherever the update has the key, the old one elsewhere |
| Records.MergeIsUpdate | src/datasources/the_guardian_scraper.py:46-51 | the typed merge equals the dictionary update, the detail shares no key with the stub, and the stub's section, URL and date survive |
| GuardianScraper.ArticleDate | src/datasources/the_guardian_scraper.py:34-38 | no time tag gives no date; a tag without `datetime` raises; otherwise the formatted date or the parse error |
| GuardianScraper.ItemStub | src/datasources/the_guardian_scraper.py:30-44 | an entry's stub exists exactly when its date does not raise, and carries the section id, the resolved URL and the date |
| GuardianScraper.DetailOf | src/datasources/the_guardian_scraper.py:61-77 | the title is the heading; the subtitle is the first `dcr-` div's text whatever its class, missing exactly when there is no such div; the content is the joined body; the author is the author link's text, missing exactly when there is no link |
| GuardianScraper.ArticleData | src/datasources/the_guardian_scraper.py:53-58 | a stub without URL gets the all-`None` detail with no fetch; otherwise the detail fails exactly when the fetch does, and is the page's fields when it succeeds |
| GuardianScraper.Parse | src/datasources/the_guardian_scraper.py:18-51 | the loops, the gather and the merge loop compute exactly the parse result |
| GuardianScraper.ParseGather | src/datasources/the_guardian_scraper.py:46-47 | with one stub per entry, gathering the details succeeds exactly when every entry's detail does, with entry j's detail at position j |
| GuardianScraper.ParseSpec | src/datasources/the_guardian_scraper.py:23-51 | parse succeeds exactly when every entry's date is well formed and every entry's detail is fetched; then record j is entry j's stub merged with its detail, carrying its section id and URL |
| GuardianScraper.FetchFailureAbortsParse | src/datasources/the_guardian_scraper.py:46-58 | one failed article fetch makes the whole parse fail |
| GuardianScraper.NoUrlNoFetch | src/datasources/the_guardian_scraper.py:54-56 | a stub without URL gets the all-`None` detail whatever the web holds |
| Prototype.ArticleDate | test/prototype.py:128-134 | no footer, no time tag, or a missing or empty `datetime` gives no date; otherwise the formatted date, and only a malformed value raises |
| Prototype.ItemStub | test/prototype.py:123-140 | an entry's stub exists exactly when its date does not raise, and carries the section id, the resolved URL and the date |
| Prototype.ExtractArticles | test/prototype.py:107-142 | extraction succeeds exactly when every visited entry's date is well formed, giving one stub per entry in document order with its section, URL and date |
| Prototype.ProtoMergeIsUpdate | test/prototype.py:227-228 | the typed merge equals the dictionary update and the stub's keys survive it |
| Prototype.ProtoDetailOf | test/prototype.py:173-201 | the title is the heading; the subtitle is present exactly when the first `dcr-` div has a class containing `standfirst`, and is its text; the content is the joined body; the author is the author link's text and the profile link its `href`, both missing when there is no link |
| Prototype.ArticleData | test/prototype.py:151-169 | a missing or empty URL and a failed fetch both give the all-`None` five-field detail; a fetched page gives its fields |
| Prototype.Scrape | test/prototype.py:203-230 | the listing fetch, the extraction, the loop creating fetch tasks and the merge loop compute exactly the scrape result |
| Prototype.ScrapeSpec | test/prototype.py:210-230 | a failed listing fetch raises; otherwise scrape succeeds exactly when every entry's date is well formed, and record j is entry j's stub updated with the detail of its URL |
| Prototype.FailedFetchKeepsListing | test/prototype.py:160-169 | a record whose page cannot be fetched keeps the listing's section, URL and date with every detail field `None` |
| Prototype.SameStubAsProduction | test/prototype.py:128-134 | with no time tag or a non-empty `datetime`, the prototype's stub is the production scraper's |
| Prototype.DatelessTagDiffers | test/prototype.py:130-134 | a time tag without `datetime` gives the prototype an undated stub and makes the production scraper raise |
| Prototype.EmptyDatetimeDiffers | test/prototype.py:130-134 | a time tag with an empty `datetime` gives the prototype an undated stub, while production passes `''` to `fromisoformat` and raises |
| Prototype.CleanContent | test/prototype.py:240-250 | an empty stripped subtitle or content leaves the cell as it was; otherwise the cell is the stripped content with a leading subtitle cut |
| Prototype.RemoveLeading | test/prototype.py:248-249 | a `sub` that does not begin the content leaves it unchanged; one that does shortens it by at least `sub` |
| Prototype.RemoveLeadingSpec | test/prototype.py:247-249 | a leading subtitle is cut with the whitespace after it, leaving a suffix of the stripped content that does not start with whitespace; otherwise the stripped content |
| Prototype.AgreesWithProcessorOnLeadingSubtitle | test/prototype.py:248-249 | on a subtitle that begins the content, the prototype's and the processor's cleaners agree |
| Prototype.DiffersFromProcessorOnLaterSubtitle | test/prototype.py:248-249 | on subtitle `b` and content `a b`, the prototype keeps `a b` and the processor gives `a` |
| Prototype.CleanRow | test/prototype.py:240-250 | only the content of a row changes |
| Prototype.CleanSubtitleFromContent | test/prototype.py:233-252 | every row is cleaned, none added, dropped or reordered |
| GuardianTransformer.Dedup | src/transformers/the_guardian_transformer.py:26 | no two rows are equal, every input row is represented, and the result is a subsequence of the input |
| GuardianTransformer.DedupKeepsFirstOccurrences | src/transformers/the_guardian_transformer.py:26 | deduplication keeps exactly the rows with no equal row before them, in order |
| GuardianTransformer.CleanData | src/transformers/the_guardian_transformer.py:24-31 | one row per distinct input row, each with a subtitle |
| GuardianTransformer.FillRow | src/transformers/the_guardian_transformer.py:29 | a missing subtitle becomes `''`, a present one and every other field stay |
| GuardianTransformer.FillSubtitle | src/transformers/the_guardian_transformer.py:29 | the column fill applies that to every row and keeps the row count |
| GuardianTransformer.FillSubtitleIdempotent | src/transformers/the_guardian_transformer.py:29 | `fillna('')` a second time changes nothing, since `''` is not null |
| GuardianTransformer.ValidateData | src/transformers/the_guardian_transformer.py:33-37 | validation never adds rows |
| GuardianTransformer.ValidateDataSpec | src/transformers/the_guardian_transformer.py:33-37 | complete rows (title and content present, empty strings included) are kept as often as they occur, incomplete ones never, in input order |
| GuardianTransformer.CoerceDate | src/transformers/the_guardian_transformer.py:41 | a missing date stays missing; a present one becomes what `to_datetime` makes of it, null when it cannot parse |
| GuardianTransformer.TransformDataTypes | src/transformers/the_guardian_transformer.py:39-43 | only the date column changes; title, subtitle, content, author, URL and section pass through |
| GuardianTransformer.Transform | src/transformers/the_guardian_transformer.py:9-22 | an empty batch raises for the missing `subtitle` column; any other batch goes through clean, validate and convert, in that order |
| GuardianTransformer.TransformRejectsEmptyBatch | src/transformers/the_guardian_transformer.py:29 | `transform([])` raises |
| GuardianTransformer.CleanBatchOfEmpty | src/transformers/the_guardian_transformer.py:14-20 | the three stages on an empty batch give an empty batch |
| GuardianTransformer.Convert | src/transformers/the_guardian_transformer.py:24-43 | an output row keeps the input's author, title, content, URL and section, has the filled subtitle and the coerced date |
| GuardianTransformer.ValidateAfterFill | src/transformers/the_guardian_transformer.py:29-35 | filling subtitles does not change which rows validation keeps |
| GuardianTransformer.CleanBatchConverts | src/transformers/the_guardian_transformer.py:14-20 | the stages amount to converting each complete first occurrence |
| GuardianTransformer.CleanBatchSpec | src/transformers/the_guardian_transformer.py:24-43 | the output converts a subsequence of the input; every output row has title, content and subtitle; every complete input row is represented |
| GuardianTransformer.CleanBatchRepresents | src/transformers/the_guardian_transformer.py:24-43 | every complete input row reaches the output, converted |
| GuardianTransformer.CleanBatchFields | src/transformers/the_guardian_transformer.py:24-43 | every output row has a title, a content and a subtitle |
| GuardianTransformer.CleanBatchFromInput | src/transformers/the_guardian_transformer.py:24-43 | the output is no longer than the input, and every output row is the conversion of a complete input row |
| GuardianTransformer.OutputMayRepeatRows | src/transformers/the_guardian_transformer.py:24-31 | two rows differing only in a missing versus an empty subtitle both survive, as equal rows |
| GuardianProcessor.CellText | src/processors/the_guardian_processor.py:25-26 | `str` of a missing value is the non-empty text `None`; of a string, the string |
| GuardianProcessor.RemoveSubtitle | src/processors/the_guardian_processor.py:29 | the cleaned content has no whitespace at either end |
| Text.Strip | src/processors/the_guardian_processor.py:25-26 | `strip()` removes exactly the leading and trailing whitespace, leaving a string without whitespace at either end |
| Text.ReplaceFirst | src/processors/the_guardian_processor.py:29 | `replace(sub, '', 1)` with no occurrence changes nothing; otherwise the text before the first occurrence stays, the replacement follows, then the text after the occurrence |
| GuardianProcessor.CleanContent | src/processors/the_guardian_processor.py:24-30 | an empty stripped subtitle or content leaves the cell as it was; otherwise the cell is the stripped content with the subtitle's first occurrence removed, stripped again |
| GuardianProcessor.RemoveSubtitleLength | src/processors/the_guardian_processor.py:29 | the result is never longer than the stripped content, and shorter by at least the subtitle when the subtitle occurs |
| GuardianProcessor.RemoveAbsentSubtitle | src/processors/the_guardian_processor.py:29 | a subtitle that does not occur leaves the stripped content |
| GuardianProcessor.RemoveKeepsLaterOccurrence | src/processors/the_guardian_processor.py:29 | only the first occurrence is removed: a later one is still in the result |
| GuardianProcessor.RemoveLeadingSubtitle | src/processors/the_guardian_processor.py:29 | a subtitle that begins the content is cut together with the whitespace after it |
| GuardianProcessor.MissingContentBecomesText | src/processors/the_guardian_processor.py:25-27 | a missing content with a non-empty subtitle that is not part of `None` becomes the text `None` |
| GuardianProcessor.CleanRow | src/processors/the_guardian_processor.py:24-30 | only the content of a row changes |
| GuardianProcessor.CleanSubtitleFromContent | src/processors/the_guardian_processor.py:23-31 | every row is cleaned, none added, dropped or reordered |
| GuardianProcessor.Timestamp | src/processors/the_guardian_processor.py:15 | the `%Y-%m-%d_%H-%M` timestamp is sixteen characters |
| GuardianProcessor.ReadTimestampOfTimestamp | src/processors/the_guardian_processor.py:15 | the timestamp reads back as the run's date, hour and minute |
| GuardianProcessor.JoinPath | src/processors/the_guardian_processor.py:16 | `os.path.join`: an empty directory gives the name; otherwise the path starts with the directory and ends with the name, with one `/` added when the directory lacks it |
| GuardianProcessor.OutputFile | src/processors/the_guardian_processor.py:16 | the output path ends with `theguardian_articles_<timestamp>.csv` |
| GuardianProcessor.OutputFileSameMinute | src/processors/the_guardian_processor.py:15-16 | two runs write the same file exactly when they fall in the same minute of the same day |
| GuardianProcessor.Process | src/processors/the_guardian_processor.py:11-21 | the returned path is the timestamped file, and it holds every row cleaned, in order |
| BigQueryLoader.UrlsOf | src/processors/bigquery_processor.py:16-22 | the stored URL set holds exactly the URLs of the stored rows |
| BigQueryLoader.Table.Urls | src/processors/bigquery_processor.py:16-22 | the queried URL set holds exactly the URLs of the table's rows |
| BigQueryLoader.NewArticles | src/processors/bigquery_processor.py:43 | the new rows are the rows whose URL is not stored, each as often as in the batch, in batch order; their count plus the stored-URL rows is the batch size |
| BigQueryLoader.NewArticlesCoverBatch | src/processors/bigquery_processor.py:43 | every URL of the batch is either stored or among the new rows |
| BigQueryLoader.NothingNewWhenAllStored | src/processors/bigquery_processor.py:43-47 | a batch whose URLs are all stored yields no new rows |
| BigQueryLoader.SecondLoadInsertsNothing | src/processors/bigquery_processor.py:43-75 | loading the same batch again after a load selects nothing |
| BigQueryLoader.SchemaShape | src/processors/bigquery_processor.py:55-63 | the schema has seven distinct columns and only `article_date` is `DATE` |
| BigQueryLoader.Table.Append | src/processors/bigquery_processor.py:68-75 | a `WRITE_APPEND` load adds the batch after the stored rows and leaves those unchanged |
| BigQueryLoader.BigQueryProcessor.TableRef | src/processors/bigquery_processor.py:65 | the table reference is the project, dataset and table ids joined by dots |
| BigQueryLoader.BigQueryProcessor.Process | src/processors/bigquery_processor.py:24-78 | a missing or empty batch, or one with no new URL, returns `None` and leaves the table; otherwise the new rows are appended and `project.dataset.table` is returned |
| BigQueryLoader.ProcessTwice | src/processors/bigquery_processor.py:24-78 | processing a batch twice appends only once, and the second run returns `None` |

## Findings

| source | as written | input that shows it | evidently intended | confidence | as-written member | corrected member |
|---|---|---|---|---|---|---|
| src/transformers/the_guardian_transformer.py:29 | `clean_data` reads `df['subtitle']` from `pd.DataFrame(data)`, which has no columns when the batch is empty | `transform([])`, a scrape that found no entries | an empty batch passes through as an empty batch, which the loader already handles (src/processors/bigquery_processor.py:26) | high; not executed | GuardianTransformer.TransformRejectsEmptyBatch | GuardianTransformer.CleanBatchOfEmpty |

`GuardianTransformer.Transform` models the code as written, and
`GuardianTransformer.CleanBatch` is the corrected pipeline. `CleanBatchSpec`
is proved for every batch, the empty one included.

## Left out

- HTML parsing and the selectors (`dcr-` class patterns, `rel='author'`, the article-body container) are not modelled. A page is what they found (`Html.Document`).
- The internals of `urljoin`, `datetime.fromisoformat` and `pd.to_datetime` are not modelled. Each is an uninterpreted function parameter.
- Dates are limited to years 1000 to 9999. Four-digit years are what `%Y` writes for the dates the site publishes.
- Concurrency is not modelled. `asyncio.gather` is an order-preserving sequential map. When several tasks raise, the model reports the first in stub order, while the source reports the first to raise in time.
- Session lifetime, timeouts and `close` are not modelled.
- Listing.Gather: the production scraper starts every fetch, and the model does not state which fetches happen before a failure.
- CSV writing, `os.makedirs`, `print` and the BigQuery client (credentials, query and load jobs) are I/O. Only their effect on the table's rows is modelled.
- BigQueryLoader.BigQueryProcessor.Process is not modelled at two points. The second emptiness check (src/processors/bigquery_processor.py:34-36) is unreachable once the batch is non-empty. The date re-conversion at line 52 is the identity on values that are already dates.
- Pandas cells that hold `NaN` instead of `None` (`str(NaN)` is `nan`) are not modelled. Every missing cell is `None`.
- The `HTTPClient` class of test/prototype.py is `Http.Fetch`, and its session is not modelled.
- main.py, the factories (`ScraperFactory`, `TransformerFactory`, `ProcessorFactory`) and the FastAPI read path under api/ are not part of this model. They hold wiring, YAML and credential loading, and a foreign query service.
- The `extract` method of `Extractor` is not modelled. `TheGuardianScraper` never defines it, so main.py as written cannot run; `parse` is modelled directly.
