/** `scrapeArticles` of the listing harvester: the article stubs of one listing
    page. The HTML document is given as the element records the two selector
    strategies look at; the page fetch is a `Response`. */
module Listing {
  import opened Seqs
  import opened Responses
  import opened JsText

  /** An `article` element as the primary strategy reads it: `headings` is the text
      of its `h2`/`h3` descendants, `href` the `href` of its first link (None when it
      has no link or that link has no `href`), `summary` the text of its
      `.entry-content`, `.post-content` and `p` descendants. */
  datatype ArticleElement = ArticleElement(headings: string, href: Option<string>, summary: string)

  /** A `.post` element as the fallback strategy reads it: the text and the first
      `href` of its `h2 a`/`h3 a` links. */
  datatype PostElement = PostElement(linkText: string, href: Option<string>)

  /** One parsed listing page: its `article` elements and its `.post` elements, each
      in document order. */
  datatype ListingPage = ListingPage(articles: seq<ArticleElement>, posts: seq<PostElement>)

  /** An article stub; `content` is None for stubs of the `.post` strategy, which
      records no excerpt. */
  datatype Stub = Stub(title: string, originalUrl: string, content: Option<string>)

  /** No strategy keeps more than this many stubs of one page. */
  const PageQuota: nat := 5

  /** Characters of the trimmed summary kept in an excerpt. */
  const ExcerptLength: nat := 500

  /** A stub the scraper may emit: a trimmed, non-empty title and a non-empty URL. */
  predicate IsValidStub(s: Stub) {
    && s.title != ""
    && !IsWhitespace(s.title[0])
    && !IsWhitespace(s.title[|s.title| - 1])
    && s.originalUrl != ""
  }

  /** The listing excerpt: the first 500 characters of the trimmed summary followed
      by `...`. */
  function Excerpt(summary: string): (e: string)
    ensures |e| <= ExcerptLength + 3
    ensures |e| >= 3 && e[|e| - 3..] == "..."
    ensures e[..|e| - 3] <= Trim(summary)
    ensures |e| - 3 == if |Trim(summary)| < ExcerptLength then |Trim(summary)| else ExcerptLength
  {
    var e := Take(Trim(summary), ExcerptLength) + "...";
    assert e[..|e| - 3] == Take(Trim(summary), ExcerptLength);
    e
  }

  /** The stub an `article` element yields: present exactly when its heading text
      trims to something non-empty and its first link has a non-empty `href`. */
  function ArticleStub(el: ArticleElement): (r: Option<Stub>)
    ensures r.Some? <==> Trim(el.headings) != "" && el.href.Some? && el.href.value != ""
    ensures r.Some? ==>
      && IsValidStub(r.value)
      && r.value.originalUrl == el.href.value
      && r.value.content == Some(Excerpt(el.summary))
  {
    var title := Trim(el.headings);
    if title != "" && el.href.Some? && el.href.value != "" then
      Some(Stub(title, el.href.value, Some(Excerpt(el.summary))))
    else None
  }

  /** The stub a `.post` element yields, under the same rule, with no excerpt. */
  function PostStub(el: PostElement): (r: Option<Stub>)
    ensures r.Some? <==> Trim(el.linkText) != "" && el.href.Some? && el.href.value != ""
    ensures r.Some? ==> IsValidStub(r.value) && r.value.originalUrl == el.href.value && r.value.content == None
  {
    var title := Trim(el.linkText);
    if title != "" && el.href.Some? && el.href.value != "" then
      Some(Stub(title, el.href.value, None))
    else None
  }

  /** Reference definition: every stub a strategy can read from the elements, in
      document order, with no cap. */
  function Candidates<E>(els: seq<E>, toStub: E -> Option<Stub>): (r: seq<Stub>)
    ensures |r| <= |els|
    ensures forall i :: 0 <= i < |r| ==> exists j :: 0 <= j < |els| && toStub(els[j]) == Some(r[i])
  {
    if |els| == 0 then []
    else
      var rest := Candidates(els[1..], toStub);
      assert forall j :: 1 <= j < |els| ==> els[j] == els[1..][j - 1];
      match toStub(els[0])
      case Some(s) => [s] + rest
      case None => rest
  }

  /** One `.each` pass of a strategy: the elements are visited in order, each valid
      one is appended while fewer than `PageQuota` stubs are held, and the others are
      skipped. The result is the first `PageQuota` of what `acc` and the candidates
      make together. */
  function Collect<E>(els: seq<E>, toStub: E -> Option<Stub>, acc: seq<Stub>): (r: seq<Stub>)
    requires |acc| <= PageQuota
    ensures r == Take(acc + Candidates(els, toStub), PageQuota)
    decreases |els|
  {
    if |els| == 0 then
      assert acc + [] == acc;
      acc
    else if |acc| >= PageQuota then
      var r := Collect(els[1..], toStub, acc);
      assert Take(acc + Candidates(els, toStub), PageQuota) == acc;
      r
    else
      match toStub(els[0])
      case Some(s) =>
        assert acc + Candidates(els, toStub) == (acc + [s]) + Candidates(els[1..], toStub);
        Collect(els[1..], toStub, acc + [s])
      case None =>
        Collect(els[1..], toStub, acc)
  }

  /** The stub carries an excerpt of at most 503 characters ending in `...`. */
  predicate HasExcerpt(stub: Stub)
  {
    && stub.content.Some?
    && |stub.content.value| <= ExcerptLength + 3
    && |stub.content.value| >= 3
    && stub.content.value[|stub.content.value| - 3..] == "..."
  }

  function ArticleCandidates(els: seq<ArticleElement>): (r: seq<Stub>)
    ensures forall i :: 0 <= i < |r| ==> IsValidStub(r[i]) && HasExcerpt(r[i])
  {
    var r := Candidates(els, ArticleStub);
    assert forall i :: 0 <= i < |r| ==> exists j :: 0 <= j < |els| && ArticleStub(els[j]) == Some(r[i]);
    r
  }

  function PostCandidates(els: seq<PostElement>): (r: seq<Stub>)
    ensures forall i :: 0 <= i < |r| ==> IsValidStub(r[i])
  {
    var r := Candidates(els, PostStub);
    assert forall i :: 0 <= i < |r| ==> exists j :: 0 <= j < |els| && PostStub(els[j]) == Some(r[i]);
    r
  }

  /** Every element of `Take(s, n)` is an element of `s` at the same position. */
  lemma TakeValid(s: seq<Stub>, n: nat)
    requires forall i :: 0 <= i < |s| ==> IsValidStub(s[i])
    ensures forall i :: 0 <= i < |Take(s, n)| ==> IsValidStub(Take(s, n)[i])
  {
    var t := Take(s, n);
    assert forall i :: 0 <= i < |t| ==> t[i] == s[i];
  }

  /** `scrapeArticles(page)`: the `article` strategy's stubs, or, only when that
      strategy found none at all, the `.post` strategy's; never more than
      `PageQuota`, every one valid, in document order; nothing when the page
      cannot be fetched. */
  function ScrapeArticles(page: Response<ListingPage>): (r: seq<Stub>)
    ensures |r| <= PageQuota
    ensures forall i :: 0 <= i < |r| ==> IsValidStub(r[i])
    ensures page.Failed? ==> r == []
    ensures page.Ok? && |ArticleCandidates(page.body.articles)| > 0 ==>
      r == Take(ArticleCandidates(page.body.articles), PageQuota)
    ensures page.Ok? && |ArticleCandidates(page.body.articles)| == 0 ==>
      r == Take(PostCandidates(page.body.posts), PageQuota)
  {
    match page
    case Failed => []
    case Ok(p) =>
      var fromArticles := Collect(p.articles, ArticleStub, []);
      assert [] + ArticleCandidates(p.articles) == ArticleCandidates(p.articles);
      if |fromArticles| == 0 then
        var fromPosts := Collect(p.posts, PostStub, []);
        assert [] + PostCandidates(p.posts) == PostCandidates(p.posts);
        TakeValid(PostCandidates(p.posts), PageQuota);
        fromPosts
      else
        TakeValid(ArticleCandidates(p.articles), PageQuota);
        fromArticles
  }

  /** Every stub of the `article` strategy carries an excerpt of at most 503
      characters ending in `...`. */
  lemma ArticleStubsCarryExcerpts(p: ListingPage)
    requires |ArticleCandidates(p.articles)| > 0
    ensures forall i :: 0 <= i < |ScrapeArticles(Ok(p))| ==>
      var c := ScrapeArticles(Ok(p))[i].content;
      c.Some? && |c.value| <= ExcerptLength + 3 && c.value[|c.value| - 3..] == "..."
  {
    var cands := ArticleCandidates(p.articles);
    var r := ScrapeArticles(Ok(p));
    assert r == Take(cands, PageQuota);
    assert forall i :: 0 <= i < |r| ==> r[i] == cands[i];
    assert forall i :: 0 <= i < |r| ==> HasExcerpt(r[i]);
  }
}
