# Blog ingestion and enrichment pipelines, modelled in Dafny

This project models the decision logic of a small blog-rewriting system:

- the **listing harvester** (`backend_core/scraper.cjs`). It reads the last
  listing page number from the blog's pagination links. It takes up to five
  article stubs from that page, and from the page before it when needed. It
  fetches each stub's full text and creates one stored article per stub;
- the **enrichment worker** (`ai-worker/worker.js`). It picks the first stored
  article that is not yet rewritten and searches its title. It scrapes every
  search result, builds a mock rewrite from the sources that gave text, and
  sends one update that marks the article rewritten;
- the **list view card** (`frontend/src/components/ArticleList.jsx`): the badge
  label and the 100-character, tag-stripped content preview.

Every network request is a `Response<T>` value, `Ok(body)` or `Failed`. The
HTML library's selections are given as pre-extracted element records. For
example, an `article` element is its heading text, its first link's `href` and
its summary text. The runs are pure functions of these inputs. The worker's run
yields the sequence of requests it makes, so "no request is made" can be stated
and proved.

Modules, one per source file or concept:

| file | module | models |
|---|---|---|
| `seqs.dfy` | `Seqs` | `slice(0, n)` / `substring(0, n)`, subsequences |
| `responses.dfy` | `Responses` | request outcomes, missing values |
| `js_text.dfy` | `JsText` | `String.prototype.trim` and global `parseInt` (section 19.2.5 of ECMA-262) |
| `pagination.dfy` | `Pagination` | `fetchLastPage` |
| `listing.dfy` | `Listing` | `scrapeArticles` |
| `ingestion.dfy` | `Ingestion` | `scrapeFullContent` and the harvester's `main` |
| `records.dfy` | `Records` | the stored article record, JavaScript truthiness of `is_updated` |
| `enrichment.dfy` | `Enrichment` | `fetchPendingArticle`, `scrapeUrl`, `callLLM`, `updateArticle` and the worker's `main` |
| `article_list.dfy` | `ArticleList` | the card's badge, preview and the list of cards |

Where the intended behaviour and the code disagree, the model follows the code:

- `fetchLastPage` returns the largest parsed number, and that can be `0` or
  negative (a link text `0` or `-3`). It is not always a positive page count.
  `Pagination.LastPageCanBeZero` exhibits this.
- The `.post` strategy runs only when the `article` strategy found no stub at
  all. Its stubs are never merged with the `article` stubs.
- `scrapeFullContent` returns only the `.entry-content` text. The
  `.entry-content` / `.post-content` / `article` chain it computes first is
  never used.
- Only one earlier listing page is tried. Page `lastPage` is taken top to
  bottom, then page `lastPage - 1`.
- Citations are the URLs of the contexts that got non-empty text. They are not
  all the searched URLs.
- A stored article's citations are meant to be non-empty exactly when it is
  rewritten. The worker breaks this: when every source fails, it still sends
  `is_updated: true` with no citations (`Enrichment.RewrittenWithoutCitations`).
- A failed article-list request and an empty work queue end the worker the same
  way. A rejected update is logged, and the run still ends normally.

## Model

| member | source | states |
|---|---|---|
| `JsText.Trim` | backend_core/scraper.cjs:57 | `trim()` gives the middle part of the text with only whitespace cut away on both sides, and the result neither starts nor ends with whitespace |
| `JsText.ParseInt` | backend_core/scraper.cjs:19 | global `parseInt` with no radix, as section 19.2.5 of ECMA-262 lays it out: skip leading whitespace, take one `+`/`-`, switch to radix 16 on a `0x`/`0X` prefix, read the longest digit run, NaN when there is none; its contract: a number comes only from text holding a decimal digit, and a negative one only from text holding a `-` |
| `JsText.ParseIntReadsDecimal` | backend_core/scraper.cjs:19 | `parseInt` skips leading whitespace, honours a `+`/`-` sign, reads the decimal digits back to their number and ignores any trailing non-digit text |
| `JsText.NoDigitIsNaN` | backend_core/scraper.cjs:19-20 | a link text with no decimal digit, such as `Next` or `…`, parses to NaN, so it is skipped |
| `Pagination.PageNumbers` | backend_core/scraper.cjs:17-21 | a number is collected exactly when some page-number text parses to it; texts that give NaN are skipped |
| `Pagination.Max` | backend_core/scraper.cjs:24 | `Math.max` of a non-empty list is one of its elements and no element exceeds it |
| `Pagination.LastPage` | backend_core/scraper.cjs:7-31 | the last page is the largest number any page-number text parses to; it is 1 when no text parses and 1 when the root page cannot be fetched |
| `Pagination.LastPageCanBeZero` | backend_core/scraper.cjs:23-26 | a lone `0` link gives last page 0, so the result is not always a positive page count |
| `Listing.Excerpt` | backend_core/scraper.cjs:59 | the excerpt is at most 503 characters and ends in `...`; before the `...` it is the first 500 characters of the trimmed summary, or all of it when shorter |
| `Listing.ArticleStub` | backend_core/scraper.cjs:57-69 | an `article` element yields a stub exactly when its heading text trims to something non-empty and its first link has a non-empty `href`; the stub is valid and carries that URL and the excerpt |
| `Listing.PostStub` | backend_core/scraper.cjs:76-80 | a `.post` element yields a stub under the same rule, with no excerpt |
| `Listing.Collect` | backend_core/scraper.cjs:54-70 | the `.each` loop that skips elements once five stubs are held returns exactly the first five valid stubs in document order |
| `Listing.ScrapeArticles` | backend_core/scraper.cjs:33-90 | at most five valid stubs in document order; the `article` strategy's whenever it found any; otherwise the `.post` strategy's, never mixed; none when the page fetch fails |
| `Listing.ArticleStubsCarryExcerpts` | backend_core/scraper.cjs:54-70 | every stub of the `article` strategy carries an excerpt of at most 503 characters ending in `...` |
| `Ingestion.FullContent` | backend_core/scraper.cjs:92-117 | on a fetched page the content is the `.entry-content` text with surrounding whitespace cut away, and `''` when that text is blank; on a failed fetch it is the stub's own excerpt |
| `Ingestion.HarvestOldest` | backend_core/scraper.cjs:120-143 | page `lastPage` is always scraped; page `lastPage - 1` is scraped exactly when the first gave fewer than five stubs and `lastPage > 1`; all stubs of the first page come first, followed by a prefix of the second page's, at most five in total |
| `Ingestion.HarvestPages` | backend_core/scraper.cjs:124-143 | given what the two pages yield, the second page is requested exactly when the first gave fewer than five stubs and `lastPage > 1`; the first page's stubs come first, whole, then as many of the second's as fit in five |
| `Ingestion.MergeCapped` | backend_core/scraper.cjs:127-143 | appending the earlier page and taking five keeps all of the first list, then as much of the second as fits |
| `Ingestion.PayloadFor` | backend_core/scraper.cjs:145-155 | each create request carries the stub's title and URL, the fetched or fallen-back content, and `is_updated: false` |
| `Ingestion.SaveAll` | backend_core/scraper.cjs:145-159 | the create requests go out in order, one per payload, and the i-th is saved exactly when storage accepts the i-th request, whatever became of the earlier ones |
| `Ingestion.Persist` | backend_core/scraper.cjs:145-160 | one create request per stub, in order, carrying that stub's payload, saved exactly when storage accepts the request at that position |
| `Ingestion.Ingest` | backend_core/scraper.cjs:119-161 | a run sends at most five create requests, one per harvested stub and in harvest order, all marked not rewritten |
| `Ingestion.OneRejectionCostsOneArticle` | backend_core/scraper.cjs:149-159 | when exactly one create request is refused, that article alone is lost and every other stub is saved |
| `Ingestion.AllAcceptedAllSaved` | backend_core/scraper.cjs:149-159 | when storage accepts every request, every harvested stub is saved |
| `Ingestion.FetchFailureKeepsExcerpt` | backend_core/scraper.cjs:113-116 | an `article` stub whose page cannot be fetched keeps its listing excerpt as its content |
| `Enrichment.IsPending` | ai-worker/worker.js:17 | the worker's strict test `is_updated === 0 \|\| is_updated === false`; a pending flag is always a number or a boolean, and always falsy |
| `Enrichment.FirstPending` | ai-worker/worker.js:17 | the position found is the first pending article, or the list length when none is pending |
| `Enrichment.FetchPendingArticle` | ai-worker/worker.js:12-23 | the result is the first article in API order whose `is_updated` is exactly `0` or `false`; it is "none pending" exactly when no article is pending, and "unavailable" exactly when the list request fails |
| `Enrichment.ScrapeUrl` | ai-worker/worker.js:31-43 | the context always names the requested URL; on success its content is the first 1000 characters of the paragraph text (all of it when shorter); on failure it is empty |
| `Enrichment.ScrapeAll` | ai-worker/worker.js:93-97 | every kept context has non-empty content and is the scrape of its own URL |
| `Enrichment.RewriteInput` | ai-worker/worker.js:100 | the rewrite input is the title, one space, then the content, or nothing for null or empty content |
| `Enrichment.MockRewrite` | ai-worker/worker.js:45-62 | the rewrite is a heading quoting the first 50 characters of the input, then the list items of the contexts, then a paragraph quoting its first 200 characters |
| `Enrichment.ListItems` | ai-worker/worker.js:54 | the `map(...).join('')` of `<li>Data from URL</li>` items: empty exactly when there is no context, opening with the first context's item and closing with the last one's, at least 19 characters per context |
| `Enrichment.ListItemsAppend` | ai-worker/worker.js:54 | the items of two context lists are the items of the first followed by those of the second, so there is one `<li>` per context, in order |
| `Enrichment.ListItemsReadUrlsOnly` | ai-worker/worker.js:54 | the list items depend only on the contexts' URLs |
| `Enrichment.MockRewriteIgnoresContent` | ai-worker/worker.js:45-61 | the mock rewrite never reads the scraped text, and it reads only the first 200 characters of its input |
| `Enrichment.UpdateFor` | ai-worker/worker.js:103-108 | the update titles the article `(AI) ` + title, sets `is_updated` to true, cites the URLs of the kept contexts (no more than were searched) and carries the mock rewrite of those contexts |
| `Enrichment.ScrapeCalls` | ai-worker/worker.js:93-96 | one scrape request per search result, in search order |
| `Enrichment.TraceCalls` | ai-worker/worker.js:79-109 | a run that found work makes exactly the list, search, one scrape per result, rewrite and update requests, in that order |
| `Enrichment.Enrich` | ai-worker/worker.js:79-109 | with nothing pending the run only lists the articles; otherwise it searches the title, scrapes every result in order, rewrites once with the kept contexts and sends one update for that article |
| `Enrichment.CitedIffScrapedText` | ai-worker/worker.js:93-107 | a URL is cited if and only if it is among the search results and its scrape gave non-empty text |
| `Enrichment.CitationCounts` | ai-worker/worker.js:93-107 | each search result is cited once per occurrence when its scrape gave text and never otherwise, so repeated results are cited repeatedly |
| `Enrichment.CitationsInSearchOrder` | ai-worker/worker.js:93-107 | the citations are a subsequence of the search results |
| `Enrichment.FailedSourceNeverCited` | ai-worker/worker.js:93-107 | a source whose request failed is neither cited nor handed to the rewrite |
| `Enrichment.OneOfTwoSourcesFails` | ai-worker/worker.js:93-107 | of two search results where one fails and one gives text, the rewrite gets exactly the one that gave text, and it alone is cited |
| `Enrichment.MockSearchRun` | ai-worker/worker.js:7-109 | with the fixed two-URL search answer of `searchGoogle`, a run that finds a pending article makes exactly six requests, scraping the two configured sources in order |
| `Enrichment.RewrittenWithoutCitations` | ai-worker/worker.js:103-108 | when every source fails, the update still marks the article rewritten, with no citations |
| `ArticleList.StripTags` | frontend/src/components/ArticleList.jsx:38 | removing `/<[^>]*>?/g` leaves no `<`, never lengthens the text, and leaves text without `<` unchanged |
| `ArticleList.StripTagsRemovesTags` | frontend/src/components/ArticleList.jsx:38 | the scan removes exactly the characters with an unclosed `<` at or before them, which is the character-by-character reading of the pattern |
| `ArticleList.StripTagsIsSubsequence` | frontend/src/components/ArticleList.jsx:38 | stripping only deletes characters |
| `ArticleList.Preview` | frontend/src/components/ArticleList.jsx:38 | missing or empty content shows `No preview available...`; otherwise the preview is a subsequence of the first 100 characters with no `<`; it equals them when they hold no `<`; it is never longer than 100 characters |
| `Records.Truthy` | frontend/src/components/ArticleList.jsx:31-32 | JavaScript truthiness of `is_updated` as the JSX ternary reads it: falsy exactly for `false`, `0`, `""`, `null` and a missing field |
| `ArticleList.Badge` | frontend/src/components/ArticleList.jsx:31-32 | the badge reads `AI REWRITTEN` exactly when `is_updated` is truthy, and `ORIGINAL` exactly when it is not |
| `ArticleList.Cards` | frontend/src/components/ArticleList.jsx:27-45 | one card per article, in API order, each showing that article's badge, title and preview |
| `ArticleList.PendingShownOriginal` | frontend/src/components/ArticleList.jsx:31-32 | every article the worker would pick is shown `ORIGINAL`; an article whose flag is `null` is also shown `ORIGINAL`, but the worker never picks it |

## Left out

- HTTP through axios and HTML parsing through cheerio are foreign libraries. Each
  request is a `Response` value, and each selection is a pre-extracted element
  record (heading text, first `href`, summary text, `.entry-content` text,
  paragraph text).
- Logging (`console.*`) and the top-level `main()` calls are side effects only.
- The search service is the constant list at `ai-worker/worker.js:7-10`, kept as
  `Enrichment.MockSearchResults`, and `Enrichment.MockSearchRun` states the run
  it gives. The run takes the search as a parameter, so any result list can be
  supplied. No real search or text-generation service is
  modelled.
- `callLLM` computes `combinedContext` (`ai-worker/worker.js:47`) and never uses
  it. `scrapeFullContent` computes a selector chain (`backend_core/scraper.cjs:103`)
  and never uses it. Neither is modelled.
- Two concurrent worker runs can race on the same pending article. The code has
  no locking, and concurrency is not modelled. URL-based deduplication and a
  conditional update do not exist in the code and are not modelled.
- JavaScript strings are UTF-16 code units; here a character is one Dafny `char`.
  `parseInt` of a digit run beyond 2^53 loses precision or gives `Infinity` in
  JavaScript. Here it gives the exact integer.
- Each URL is assumed to answer the same way within one run. The source fetches
  a URL once per occurrence, so a URL listed twice could answer differently.
- `fetchPendingArticle` catches a `TypeError` when the list body is not an array.
  Here the body is always a list of article records. `is_updated` is limited to
  JSON scalars with integer numbers.
- `backend_core/app/Models/Article.php` only shapes `Records.Article`.
  `frontend/src/App.jsx`, `frontend/src/components/ArticleDetail.jsx`, the list
  view's loading state and data fetch (`ArticleList.jsx:6-21`), its date
  formatting, CSS classes and link markup are rendering only.
- The storage API's own behaviour (ids, timestamps, how a create or an update
  changes the stored record) is not part of this model. Its answer to each
  request is an input.
