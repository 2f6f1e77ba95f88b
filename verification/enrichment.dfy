/** The enrichment worker: pick the first stored article not yet rewritten, look
    up sources for its title, scrape each source, build a (mock) rewrite from the
    sources that gave text, and send the update. One article per run. */
module Enrichment {
  import opened Seqs
  import opened Responses
  import opened Records

  /** The fixed answer of the mock search, whatever the query. */
  const MockSearchResults: seq<string> := [
    "https://en.wikipedia.org/wiki/Artificial_intelligence",
    "https://www.ibm.com/topics/artificial-intelligence"
  ]

  /** Characters of a source page's paragraph text kept as context. */
  const ContextLimit: nat := 1000

  /** The prefix the update puts in front of the title. */
  const TitlePrefix := "(AI) "

  /** The worker's test for work to do: `is_updated` is exactly the number 0 or
      exactly `false` (strict equality, so `null`, a missing field or `"0"` do not
      count). */
  predicate IsPending(a: Article)
    ensures IsPending(a) ==> !Truthy(a.isUpdated)
    ensures IsPending(a) ==> a.isUpdated.Number? || a.isUpdated.Bool?
  {
    a.isUpdated == Number(0) || a.isUpdated == Bool(false)
  }

  /** What `fetchPendingArticle` hands back: `null` when the list request fails,
      `undefined` when no article is pending, or the article. */
  datatype Lookup = Unavailable | NonePending | Found(article: Article)

  /** Position of the first pending article, or the length when there is none. */
  function FirstPending(articles: seq<Article>): (k: nat)
    ensures k <= |articles|
    ensures forall j :: 0 <= j < k ==> !IsPending(articles[j])
    ensures k < |articles| ==> IsPending(articles[k])
  {
    if |articles| == 0 || IsPending(articles[0]) then 0
    else 1 + FirstPending(articles[1..])
  }

  /** `fetchPendingArticle`: the first pending article in the order the API lists
      them. */
  function FetchPendingArticle(list: Response<seq<Article>>): (r: Lookup)
    ensures r.Unavailable? <==> list.Failed?
    ensures r.NonePending? <==> list.Ok? && forall i :: 0 <= i < |list.body| ==> !IsPending(list.body[i])
    ensures r.Found? ==>
      && list.Ok?
      && IsPending(r.article)
      && exists i :: 0 <= i < |list.body| && list.body[i] == r.article && forall j :: 0 <= j < i ==> !IsPending(list.body[j])
  {
    match list
    case Failed => Unavailable
    case Ok(articles) =>
      var k := FirstPending(articles);
      if k < |articles| then Found(articles[k]) else NonePending
  }

  /** A scraped source: its URL and the text taken from it. */
  datatype Context = Context(url: string, content: string)

  /** `scrapeUrl`: `page` is the source's answer reduced to the text of its `p`
      elements. The context always names the requested URL; its content is at most
      the first 1000 characters of that text, and empty when the request fails. */
  function ScrapeUrl(url: string, page: Response<string>): (c: Context)
    ensures c.url == url
    ensures |c.content| <= ContextLimit
    ensures page.Failed? ==> c.content == ""
    ensures page.Ok? ==> c.content <= page.body
    ensures page.Ok? ==> |c.content| == if |page.body| < ContextLimit then |page.body| else ContextLimit
  {
    match page
    case Failed => Context(url, "")
    case Ok(text) => Context(url, Take(text, ContextLimit))
  }

  /** The URLs of contexts, in order. */
  function Urls(cs: seq<Context>): (urls: seq<string>)
    ensures |urls| == |cs|
    ensures forall i :: 0 <= i < |cs| ==> urls[i] == cs[i].url
  {
    if |cs| == 0 then [] else [cs[0].url] + Urls(cs[1..])
  }

  /** The scrape loop: each search result is scraped in order and its context is
      kept when its content is non-empty (`if (data.content)`). */
  function ScrapeAll(urls: seq<string>, fetch: string -> Response<string>): (kept: seq<Context>)
    ensures |kept| <= |urls|
    ensures forall i :: 0 <= i < |kept| ==> kept[i].content != "" && kept[i] == ScrapeUrl(kept[i].url, fetch(kept[i].url))
  {
    if |urls| == 0 then []
    else
      var c := ScrapeUrl(urls[0], fetch(urls[0]));
      var rest := ScrapeAll(urls[1..], fetch);
      if c.content != "" then [c] + rest else rest
  }

  /** `(article.content || '')`. */
  function ContentOrEmpty(a: Article): string {
    match a.content
    case Some(s) => s
    case None => ""
  }

  /** The text handed to the rewrite: the title, one space, then the content (or
      nothing when the content is null, missing or empty). */
  function RewriteInput(a: Article): (input: string)
    ensures |input| == |a.title| + 1 + |ContentOrEmpty(a)|
    ensures input[..|a.title|] == a.title && input[|a.title|] == ' '
    ensures input[|a.title| + 1..] == ContentOrEmpty(a)
  {
    a.title + " " + ContentOrEmpty(a)
  }

  /** The list item naming one source. */
  function Item(url: string): string {
    "<li>Data from " + url + "</li>"
  }

  /** One `<li>` item per context, in order (`map(...).join('')`): empty exactly
      when there is no context, opening with the first context's item and closing
      with the last one's, at least 19 characters per item. */
  function ListItems(cs: seq<Context>): (items: string)
    ensures |cs| == 0 <==> items == ""
    ensures |cs| > 0 ==> Item(cs[0].url) <= items
    ensures |cs| > 0 ==>
      var last := Item(cs[|cs| - 1].url);
      |last| <= |items| && items[|items| - |last|..] == last
    ensures |items| >= 19 * |cs|
  {
    if |cs| == 0 then ""
    else
      var first := Item(cs[0].url);
      var rest := ListItems(cs[1..]);
      var items := first + rest;
      assert items[..|first|] == first;
      if |cs| == 1 then items
      else
        assert cs[1..][|cs[1..]| - 1] == cs[|cs| - 1];
        var last := Item(cs[|cs| - 1].url);
        assert items[|items| - |last|..] == rest[|rest| - |last|..];
        items
  }

  /** The fixed text of the mock rewrite's template literal around its three
      substitutions. */
  const HeadingOpen := "\n    <h2>(AI Rewritten) "
  const HeadingClose := "...</h2>\n    <p><strong>Analysis of search results:</strong></p>\n    <ul>\n        "
  const BodyOpen := "\n    </ul>\n    <hr>\n    <p>"
  const BodyClose := "...</p>\n    <p><em>(Refined with latest data from web)</em></p>\n    "

  function RewriteHead(input: string): string {
    HeadingOpen + Take(input, 50) + HeadingClose
  }

  function RewriteTail(input: string): string {
    BodyOpen + Take(input, 200) + BodyClose
  }

  /** `callLLM`, the mock rewrite: a heading quoting the first 50 characters of the
      input, one list item per context, and a paragraph quoting its first 200
      characters. */
  function MockRewrite(input: string, cs: seq<Context>): (r: string)
    ensures RewriteHead(input) <= r
    ensures |r| == |RewriteHead(input)| + |ListItems(cs)| + |RewriteTail(input)|
    ensures r[|RewriteHead(input)|..|RewriteHead(input)| + |ListItems(cs)|] == ListItems(cs)
    ensures r[|r| - |RewriteTail(input)|..] == RewriteTail(input)
  {
    var h := RewriteHead(input);
    var m := ListItems(cs);
    var t := RewriteTail(input);
    var r := h + m + t;
    assert r[..|h|] == h;
    assert r[|h|..|h| + |m|] == m;
    assert r[|r| - |t|..] == t;
    r
  }

  /** The list items concatenate: the items of two context lists are the items of
      the first followed by those of the second. */
  lemma {:induction false} ListItemsAppend(a: seq<Context>, b: seq<Context>)
    ensures ListItems(a + b) == ListItems(a) + ListItems(b)
    decreases |a|
  {
    if |a| == 0 {
      assert a + b == b;
    } else {
      assert (a + b)[1..] == a[1..] + b;
      ListItemsAppend(a[1..], b);
    }
  }

  /** The list items depend on the contexts' URLs only. */
  lemma {:induction false} ListItemsReadUrlsOnly(a: seq<Context>, b: seq<Context>)
    requires Urls(a) == Urls(b)
    ensures ListItems(a) == ListItems(b)
    decreases |a|
  {
    if |a| > 0 {
      assert Urls(a[1..]) == Urls(a)[1..];
      assert Urls(b[1..]) == Urls(b)[1..];
      ListItemsReadUrlsOnly(a[1..], b[1..]);
    }
  }

  /** The mock never reads the scraped text: two context lists with the same URLs
      give the same rewrite, and of the input only the first 200 characters
      matter. */
  lemma MockRewriteIgnoresContent(x: string, y: string, a: seq<Context>, b: seq<Context>)
    requires Urls(a) == Urls(b)
    requires Take(x, 200) == Take(y, 200)
    ensures MockRewrite(x, a) == MockRewrite(y, b)
  {
    ListItemsReadUrlsOnly(a, b);
    assert Take(x, 50) == Take(Take(x, 200), 50);
    assert Take(y, 50) == Take(Take(y, 200), 50);
  }

  /** The body of the update request. */
  datatype UpdatePayload = UpdatePayload(title: string, content: string, sourceCitations: seq<string>, isUpdated: bool)

  /** A request the worker makes, in the order it makes them. */
  datatype Call =
    | ListArticles
    | Search(query: string)
    | Scrape(url: string)
    | Rewrite(input: string, contexts: seq<Context>)
    | Update(id: int, payload: UpdatePayload)

  /** How a run ends. A failed list request ends it like an empty work queue; a
      rejected update is logged and the run ends normally. */
  datatype Status = NoPendingWork | Enriched(id: int) | UpdateRejected(id: int)

  datatype Run = Run(calls: seq<Call>, status: Status)

  /** What the worker sees of the outside world: the article list request, the
      search service, the source pages (one URL answers the same way within a run)
      and whether the storage API accepts the update. */
  datatype Services = Services(
    articles: Response<seq<Article>>,
    search: string -> seq<string>,
    fetch: string -> Response<string>,
    updateAccepted: bool)

  /** The update the worker sends for `a` given the search results: the prefixed
      title, the mock rewrite of the kept contexts, the URLs of the kept contexts as
      citations, and the rewritten flag. */
  function UpdateFor(a: Article, urls: seq<string>, fetch: string -> Response<string>): (p: UpdatePayload)
    ensures p.title == TitlePrefix + a.title
    ensures p.isUpdated
    ensures |p.sourceCitations| <= |urls|
    ensures p.content == MockRewrite(RewriteInput(a), ScrapeAll(urls, fetch))
    ensures p.sourceCitations == Urls(ScrapeAll(urls, fetch))
  {
    var kept := ScrapeAll(urls, fetch);
    UpdatePayload(TitlePrefix + a.title, MockRewrite(RewriteInput(a), kept), Urls(kept), true)
  }

  /** One scrape request per search result, in search order. */
  function ScrapeCalls(urls: seq<string>): (calls: seq<Call>)
    ensures |calls| == |urls|
    ensures forall i :: 0 <= i < |urls| ==> calls[i] == Scrape(urls[i])
  {
    if |urls| == 0 then [] else [Scrape(urls[0])] + ScrapeCalls(urls[1..])
  }

  /** The requests of a run that found a pending article titled `title`: list,
      search, one scrape per result in order, then the rewrite and the update. */
  function TraceCalls(title: string, urls: seq<string>, rewrite: Call, update: Call): (calls: seq<Call>)
    ensures |calls| == |urls| + 4
    ensures calls[0] == ListArticles && calls[1] == Search(title)
    ensures forall i :: 0 <= i < |urls| ==> calls[2 + i] == Scrape(urls[i])
    ensures calls[|urls| + 2] == rewrite && calls[|urls| + 3] == update
  {
    var scrapes := ScrapeCalls(urls);
    var calls := [ListArticles, Search(title)] + scrapes + [rewrite, update];
    assert forall i :: 0 <= i < |urls| ==> calls[2 + i] == scrapes[i];
    calls
  }

  /** `main` of the worker, as the sequence of requests it makes and the state it
      ends in. With nothing pending it only lists the articles; otherwise it
      searches the title, scrapes every result in order, rewrites once with the
      kept contexts and sends one update for the pending article. */
  function Enrich(s: Services): (run: Run)
    ensures |run.calls| >= 1 && run.calls[0] == ListArticles
    ensures run.status.NoPendingWork? <==> !FetchPendingArticle(s.articles).Found?
    ensures run.status.NoPendingWork? ==> run.calls == [ListArticles]
    ensures !run.status.NoPendingWork? ==>
      var a := FetchPendingArticle(s.articles).article;
      var urls := s.search(a.title);
      && |run.calls| == |urls| + 4
      && run.calls[1] == Search(a.title)
      && (forall i :: 0 <= i < |urls| ==> run.calls[2 + i] == Scrape(urls[i]))
      && run.calls[|urls| + 2] == Rewrite(RewriteInput(a), ScrapeAll(urls, s.fetch))
      && run.calls[|urls| + 3] == Update(a.id, UpdateFor(a, urls, s.fetch))
      && run.status == (if s.updateAccepted then Enriched(a.id) else UpdateRejected(a.id))
  {
    match FetchPendingArticle(s.articles)
    case Found(a) =>
      var urls := s.search(a.title);
      var rewrite := Rewrite(RewriteInput(a), ScrapeAll(urls, s.fetch));
      var update := Update(a.id, UpdateFor(a, urls, s.fetch));
      Run(TraceCalls(a.title, urls, rewrite, update),
          if s.updateAccepted then Enriched(a.id) else UpdateRejected(a.id))
    case _ =>
      Run([ListArticles], NoPendingWork)
  }

  /** The citations are exactly the search results whose scrape gave some text: a
      URL is cited if and only if it was searched and its scrape was non-empty. */
  lemma {:induction false} CitedIffScrapedText(urls: seq<string>, fetch: string -> Response<string>, u: string)
    ensures u in Urls(ScrapeAll(urls, fetch)) <==> u in urls && ScrapeUrl(u, fetch(u)).content != ""
    decreases |urls|
  {
    if |urls| > 0 {
      CitedIffScrapedText(urls[1..], fetch, u);
      var c := ScrapeUrl(urls[0], fetch(urls[0]));
      var rest := ScrapeAll(urls[1..], fetch);
      if c.content != "" {
        assert Urls([c] + rest) == [urls[0]] + Urls(rest);
      }
      assert urls == [urls[0]] + urls[1..];
    }
  }

  /** The citations count every search result as often as it occurs when its
      scrape gave text, and never otherwise. With `CitationsInSearchOrder` this
      fixes the citations exactly, repeated search results included. */
  lemma {:induction false} CitationCounts(urls: seq<string>, fetch: string -> Response<string>, u: string)
    ensures multiset(Urls(ScrapeAll(urls, fetch)))[u]
      == if ScrapeUrl(u, fetch(u)).content != "" then multiset(urls)[u] else 0
    decreases |urls|
  {
    if |urls| > 0 {
      CitationCounts(urls[1..], fetch, u);
      var c := ScrapeUrl(urls[0], fetch(urls[0]));
      var rest := Urls(ScrapeAll(urls[1..], fetch));
      if c.content != "" {
        assert Urls(ScrapeAll(urls, fetch)) == [urls[0]] + rest;
      }
      assert urls == [urls[0]] + urls[1..];
    }
  }

  /** The citations keep the search order. */
  lemma {:induction false} CitationsInSearchOrder(urls: seq<string>, fetch: string -> Response<string>)
    ensures IsSubsequence(Urls(ScrapeAll(urls, fetch)), urls)
    decreases |urls|
  {
    if |urls| > 0 {
      CitationsInSearchOrder(urls[1..], fetch);
      var c := ScrapeUrl(urls[0], fetch(urls[0]));
      var rest := Urls(ScrapeAll(urls[1..], fetch));
      if c.content != "" {
        assert Urls(ScrapeAll(urls, fetch)) == [urls[0]] + rest;
        assert ([urls[0]] + rest)[1..] == rest;
      }
    }
  }

  /** A source whose request failed is never cited and never reaches the rewrite. */
  lemma FailedSourceNeverCited(a: Article, urls: seq<string>, fetch: string -> Response<string>, u: string)
    requires fetch(u).Failed?
    ensures u !in UpdateFor(a, urls, fetch).sourceCitations
    ensures forall i :: 0 <= i < |ScrapeAll(urls, fetch)| ==> ScrapeAll(urls, fetch)[i].url != u
  {
    CitedIffScrapedText(urls, fetch, u);
  }

  /** Of two search results, one failing and one giving text, the rewrite gets
      exactly the one that gave text and the update cites exactly it. */
  lemma OneOfTwoSourcesFails(a: Article, good: string, bad: string, fetch: string -> Response<string>)
    requires fetch(bad).Failed?
    requires fetch(good).Ok? && fetch(good).body != ""
    ensures ScrapeAll([good, bad], fetch) == [ScrapeUrl(good, fetch(good))]
    ensures UpdateFor(a, [good, bad], fetch).sourceCitations == [good]
  {
    assert [good, bad][1..] == [bad];
    assert [bad][1..] == [];
  }

  /** A stored article's citations are meant to be non-empty exactly when it is
      rewritten; the worker breaks this: when every source fails, the update marks
      the article rewritten with no citations. */
  lemma RewrittenWithoutCitations(a: Article, urls: seq<string>, fetch: string -> Response<string>)
    requires forall i :: 0 <= i < |urls| ==> fetch(urls[i]).Failed?
    ensures UpdateFor(a, urls, fetch).isUpdated
    ensures UpdateFor(a, urls, fetch).sourceCitations == []
  {
    var kept := ScrapeAll(urls, fetch);
    if |kept| > 0 {
      CitedIffScrapedText(urls, fetch, kept[0].url);
    }
  }

  /** With the worker's fixed search answer, a run that finds a pending article
      makes exactly six requests: list, search, one scrape per configured source in
      order, rewrite and update. */
  lemma MockSearchRun(articles: seq<Article>, fetch: string -> Response<string>, accepted: bool)
    requires FetchPendingArticle(Ok(articles)).Found?
    ensures var run := Enrich(Services(Ok(articles), q => MockSearchResults, fetch, accepted));
      && |run.calls| == 6
      && run.calls[2] == Scrape(MockSearchResults[0])
      && run.calls[3] == Scrape(MockSearchResults[1])
      && !run.status.NoPendingWork?
  {
  }
}
