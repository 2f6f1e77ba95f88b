/** The ingestion run of the listing harvester (`main` and `scrapeFullContent`):
    find the last listing page, take up to five stubs from it and, if needed, from
    the page before, fetch each stub's full text and create one stored article per
    stub, one after the other. */
module Ingestion {
  import opened Seqs
  import opened Responses
  import opened JsText
  import opened Pagination
  import opened Listing

  /** Stubs processed per run (the `slice(0, 5)` of the merged list). */
  const BatchSize: nat := 5

  /** An article's own page, reduced to the text of its `.entry-content` elements
      after `script` and `style` elements are removed (`""` when it has none). */
  datatype PermalinkPage = PermalinkPage(entryContent: string)

  /** What the run sees of the outside world. `root` holds the `.page-numbers`
      texts of the blog's root page; `listing(n)` answers the request for listing
      page `n`; `permalink(url)` answers the request for an article page (one URL
      is assumed to answer the same way within a run); `accepts(k)` tells whether
      the storage API accepts the k-th create request of the run. */
  datatype Site = Site(
    root: Response<seq<string>>,
    listing: int -> Response<ListingPage>,
    permalink: string -> Response<PermalinkPage>,
    accepts: nat -> bool)

  /** `scrapeFullContent`: the trimmed `.entry-content` text when the article page
      arrives, even when that text is empty; the stub's own excerpt (None for a
      `.post` stub) when the request fails. */
  function FullContent(stub: Stub, page: Response<PermalinkPage>): (c: Option<string>)
    ensures page.Ok? ==> c.Some?
    ensures page.Ok? ==> c.value == "" || (!IsWhitespace(c.value[0]) && !IsWhitespace(c.value[|c.value| - 1]))
    ensures page.Ok? ==>
      var text := page.body.entryContent;
      exists i, j :: 0 <= i <= j <= |text| && c.value == text[i..j] && AllWhitespace(text[..i]) && AllWhitespace(text[j..])
    ensures page.Ok? && AllWhitespace(page.body.entryContent) ==> c == Some("")
    ensures page.Failed? ==> c == stub.content
  {
    match page
    case Ok(p) => Some(Trim(p.entryContent))
    case Failed => stub.content
  }

  /** The stubs gathered before any article page is fetched: `lastPage` as the
      pagination gives it, the listing pages requested in order, and the merged,
      capped stub list. */
  datatype Harvest = Harvest(lastPage: int, pagesScraped: seq<int>, stubs: seq<Stub>)

  /** The stubs of page `lastPage`, then, only when it gave fewer than five and it
      is not the first page, those of page `lastPage - 1`; the first five of that
      list. */
  function HarvestOldest(site: Site): (h: Harvest)
    ensures h.lastPage == LastPage(site.root)
    ensures |h.pagesScraped| == 1 || |h.pagesScraped| == 2
    ensures h.pagesScraped[0] == h.lastPage
    ensures |h.pagesScraped| == 2 <==> |ScrapeArticles(site.listing(h.lastPage))| < BatchSize && h.lastPage > 1
    ensures |h.pagesScraped| == 2 ==> h.pagesScraped[1] == h.lastPage - 1
    ensures |h.stubs| <= BatchSize
    ensures forall i :: 0 <= i < |h.stubs| ==> IsValidStub(h.stubs[i])
    ensures ScrapeArticles(site.listing(h.lastPage)) <= h.stubs
    ensures |h.pagesScraped| == 1 ==> h.stubs == ScrapeArticles(site.listing(h.lastPage))
    ensures |h.pagesScraped| == 2 ==>
      var first := ScrapeArticles(site.listing(h.lastPage));
      var second := ScrapeArticles(site.listing(h.lastPage - 1));
      && |h.stubs| == (if |first| + |second| < BatchSize then |first| + |second| else BatchSize)
      && h.stubs[|first|..] <= second
  {
    var lastPage := LastPage(site.root);
    HarvestPages(lastPage, ScrapeArticles(site.listing(lastPage)), ScrapeArticles(site.listing(lastPage - 1)))
  }

  /** The merge step of `main`, given the stubs page `lastPage` and page
      `lastPage - 1` would give: the second page counts as requested, and its
      stubs are used, only when the first gave fewer than five and `lastPage > 1`. */
  function HarvestPages(lastPage: int, first: seq<Stub>, second: seq<Stub>): (h: Harvest)
    requires |first| <= BatchSize
    requires forall i :: 0 <= i < |first| ==> IsValidStub(first[i])
    requires forall i :: 0 <= i < |second| ==> IsValidStub(second[i])
    ensures h.lastPage == lastPage
    ensures |h.pagesScraped| == 1 || |h.pagesScraped| == 2
    ensures h.pagesScraped[0] == lastPage
    ensures |h.pagesScraped| == 2 <==> |first| < BatchSize && lastPage > 1
    ensures |h.pagesScraped| == 2 ==> h.pagesScraped[1] == lastPage - 1
    ensures |h.stubs| <= BatchSize
    ensures forall i :: 0 <= i < |h.stubs| ==> IsValidStub(h.stubs[i])
    ensures first <= h.stubs
    ensures |h.pagesScraped| == 1 ==> h.stubs == first
    ensures |h.pagesScraped| == 2 ==>
      && |h.stubs| == (if |first| + |second| < BatchSize then |first| + |second| else BatchSize)
      && h.stubs[|first|..] <= second
  {
    if |first| < BatchSize && lastPage > 1 then
      Harvest(lastPage, [lastPage, lastPage - 1], MergeCapped(first, second))
    else
      Harvest(lastPage, [lastPage], first)
  }

  /** `[...first, ...second].slice(0, 5)`: all of `first`, then as much of `second`
      as fits in a batch. */
  function MergeCapped(first: seq<Stub>, second: seq<Stub>): (stubs: seq<Stub>)
    requires |first| <= BatchSize
    ensures |stubs| == if |first| + |second| < BatchSize then |first| + |second| else BatchSize
    ensures first <= stubs
    ensures stubs[|first|..] <= second
    ensures (forall i :: 0 <= i < |first| ==> IsValidStub(first[i])) && (forall i :: 0 <= i < |second| ==> IsValidStub(second[i]))
      ==> forall i :: 0 <= i < |stubs| ==> IsValidStub(stubs[i])
  {
    TakeAppend(first, second, BatchSize);
    var rest := Take(second, BatchSize - |first|);
    assert (first + rest)[|first|..] == rest;
    assert forall i :: |first| <= i < |first + rest| ==> (first + rest)[i] == rest[i - |first|];
    Take(first + second, BatchSize)
  }

  /** The body of a create request; `content` None is a field the request leaves
      out. */
  datatype CreatePayload = CreatePayload(title: string, content: Option<string>, originalUrl: string, isUpdated: bool)

  /** One create request of the run and whether the storage API accepted it. */
  datatype SaveAttempt = SaveAttempt(payload: CreatePayload, saved: bool)

  /** The create request for one stub, after its full content is fetched. */
  function PayloadFor(stub: Stub, site: Site): (p: CreatePayload)
    ensures p.title == stub.title && p.originalUrl == stub.originalUrl
    ensures p.content == FullContent(stub, site.permalink(stub.originalUrl))
    ensures !p.isUpdated
  {
    CreatePayload(stub.title, FullContent(stub, site.permalink(stub.originalUrl)), stub.originalUrl, false)
  }

  /** The create requests in stub order, each answered by `accepts` at its
      position: the i-th is sent whatever became of the earlier ones. */
  function SaveAll(payloads: seq<CreatePayload>, accepts: nat -> bool): (attempts: seq<SaveAttempt>)
    ensures |attempts| == |payloads|
    ensures forall i :: 0 <= i < |payloads| ==>
      attempts[i].payload == payloads[i] && attempts[i].saved == accepts(i)
  {
    if |payloads| == 0 then []
    else
      var n := |payloads| - 1;
      SaveAll(payloads[..n], accepts) + [SaveAttempt(payloads[n], accepts(n))]
  }

  /** The persist loop: one create request per stub, in order, saved exactly
      when storage accepts the request at that position. */
  function Persist(stubs: seq<Stub>, site: Site): (attempts: seq<SaveAttempt>)
    ensures |attempts| == |stubs|
    ensures forall i :: 0 <= i < |stubs| ==>
      attempts[i].payload == PayloadFor(stubs[i], site) && attempts[i].saved == site.accepts(i)
  {
    SaveAll(seq(|stubs|, i requires 0 <= i < |stubs| => PayloadFor(stubs[i], site)), site.accepts)
  }

  /** Number of accepted create requests. */
  function SavedCount(attempts: seq<SaveAttempt>): (count: nat)
    ensures count <= |attempts|
  {
    if |attempts| == 0 then 0
    else
      var n := |attempts| - 1;
      SavedCount(attempts[..n]) + (if attempts[n].saved then 1 else 0)
  }

  /** A whole ingestion run. */
  datatype IngestionRun = IngestionRun(harvest: Harvest, attempts: seq<SaveAttempt>)

  /** `main` of the harvester: every harvested stub, at most a batch of them, is
      sent to storage exactly once, in harvest order, as a not-yet-rewritten
      article, whatever became of the earlier requests. */
  function Ingest(site: Site): (run: IngestionRun)
    ensures run.harvest == HarvestOldest(site)
    ensures |run.attempts| == |run.harvest.stubs| <= BatchSize
    ensures forall i :: 0 <= i < |run.attempts| ==>
      run.attempts[i].payload == PayloadFor(run.harvest.stubs[i], site) && run.attempts[i].saved == site.accepts(i)
  {
    var h := HarvestOldest(site);
    var attempts := Persist(h.stubs, site);
    IngestionRun(h, attempts)
  }

  /** A rejected create request costs only its own article: when exactly the
      request at position `bad` is refused, every other stub is saved and the run
      saves one article fewer than it harvested. */
  lemma {:induction false} OneRejectionCostsOneArticle(stubs: seq<Stub>, site: Site, bad: nat)
    requires bad < |stubs|
    requires forall i :: 0 <= i < |stubs| ==> (site.accepts(i) <==> i != bad)
    ensures SavedCount(Persist(stubs, site)) == |stubs| - 1
    ensures !Persist(stubs, site)[bad].saved
    ensures forall i :: 0 <= i < |stubs| && i != bad ==> Persist(stubs, site)[i].saved
  {
    var n := |stubs| - 1;
    var attempts := Persist(stubs, site);
    assert attempts[..n] == Persist(stubs[..n], site);
    if bad == n {
      AllAcceptedAllSaved(stubs[..n], site);
    } else {
      OneRejectionCostsOneArticle(stubs[..n], site, bad);
    }
  }

  /** With every request accepted, every stub is saved. */
  lemma {:induction false} AllAcceptedAllSaved(stubs: seq<Stub>, site: Site)
    requires forall i :: 0 <= i < |stubs| ==> site.accepts(i)
    ensures SavedCount(Persist(stubs, site)) == |stubs|
  {
    if |stubs| > 0 {
      var n := |stubs| - 1;
      var attempts := Persist(stubs, site);
      assert attempts[..n] == Persist(stubs[..n], site);
      AllAcceptedAllSaved(stubs[..n], site);
    }
  }

  /** An article stub whose page cannot be fetched is stored with its listing
      excerpt, which ends in `...`. */
  lemma FetchFailureKeepsExcerpt(el: ArticleElement)
    ensures ArticleStub(el).Some? ==>
      FullContent(ArticleStub(el).value, Failed) == Some(Excerpt(el.summary))
  {
  }
}
