/** Reference behaviour of `LlssCrawler.fetch_latest_articles`: one crawl cycle as a function
    of the configuration, the network and the checkpoint loaded at its start. */
module CrawlSpec {
  import opened Wrappers
  import opened ArticleId
  import opened Urls
  import opened Fetcher
  import opened Listing

  /** The network: for each URL, what its successive attempts receive. A successful body is
      the page's `<article>` containers (an empty body parses to none). A URL that is not in
      the map fails on every attempt. */
  type Site = map<string, seq<Attempt<seq<Container>>>>

  function ScriptFor(site: Site, url: string): seq<Attempt<seq<Container>>> {
    if url in site then site[url] else []
  }

  /** `_fetch_page`: the containers of the page at `url`, or none when the fetch gives up. */
  function PageSpec(retry: int, site: Site, url: string): seq<Container> {
    match FetchSpec(retry, ScriptFor(site, url)).body
    case Some(cs) => cs
    case None => []
  }

  /** The crawler's settings: `site_url` (already stripped), `max_pages` and `retry`. */
  datatype Config = Config(siteUrl: string, maxPages: int, retry: int)

  function ListingAt(cfg: Config, site: Site, page: nat): seq<Container>
    requires page >= 1
  {
    PageSpec(cfg.retry, site, PageUrl(cfg.siteUrl, page))
  }

  /** Number of pages `range(1, max_pages + 1)` allows. */
  function PageBudget(cfg: Config): nat {
    if cfg.maxPages > 0 then cfg.maxPages else 0
  }

  /** The scan of every page the pagination loop may reach: `scans[i]` is page `i + 1`
      scanned against the checkpoint `latest`. */
  function PageScans(cfg: Config, site: Site, latest: int): (scans: seq<Scan>)
    ensures |scans| == PageBudget(cfg)
    ensures forall i :: 0 <= i < |scans| ==> scans[i] == ScanPage(ListingAt(cfg, site, i + 1), latest)
  {
    seq(PageBudget(cfg), i requires 0 <= i => ScanPage(ListingAt(cfg, site, i + 1), latest))
  }

  /** The loop goes on past a page whose scan raised nothing and accepted an article. A page
      that is unavailable or has no container scans to nothing, so it stops the loop just as a
      page without new articles does. */
  predicate Continues(scan: Scan) {
    scan.raised.None? && scan.accepted != []
  }

  /** What the pagination loop gathers: the accepted articles, the number of pages it
      requested, and the exception that ended it, if any. */
  datatype Pagination = Pagination(articles: seq<Article>, pages: nat, raised: Option<Exception>)

  /** The pagination loop over the scans of the pages it may reach, in order. */
  function Paginate(scans: seq<Scan>): (p: Pagination)
    ensures p.pages <= |scans|
    decreases |scans|
  {
    if scans == [] then Pagination([], 0, None)
    else if !Continues(scans[0]) then Pagination(scans[0].accepted, 1, scans[0].raised)
    else
      var rest := Paginate(scans[1..]);
      Pagination(scans[0].accepted + rest.articles, 1 + rest.pages, rest.raised)
  }

  /** The URLs of pages `1..n`, in order. */
  function Requested(cfg: Config, n: nat): (urls: seq<string>)
    ensures |urls| == n
    ensures forall i :: 0 <= i < n ==> urls[i] == PageUrl(cfg.siteUrl, i + 1)
  {
    seq(n, i requires 0 <= i => PageUrl(cfg.siteUrl, i + 1))
  }

  /** What `fetch_latest_articles` does for its caller: return a list, or raise. */
  datatype Outcome = Returned(articles: seq<Article>) | Raised(error: Exception)

  /** One cycle: its outcome, the URLs it requested, and the id it wrote to the checkpoint
      file, if it wrote one. */
  datatype Cycle = Cycle(outcome: Outcome, fetched: seq<string>, saved: Option<int>)

  /** The first run (no checkpoint): only the home page, only its second container. */
  function FirstRun(cfg: Config, site: Site): Cycle {
    var url := cfg.siteUrl;
    var cs := PageSpec(cfg.retry, site, url);
    if cs == [] then Cycle(Returned([]), [url], None)
    else if |cs| < 2 then Cycle(Raised(IndexError), [url], None)
    else match ResolveLink(cs[1])
      case None => Cycle(Returned([]), [url], None)
      case Some(link) =>
        match ExtractId(link.href)
        case None => Cycle(Returned([]), [url], None)
        case Some(id) =>
          match BuildArticle(cs[1], link.text, link.href, id)
          case Err(e) => Cycle(Raised(e), [url], None)
          case Ok(a) => Cycle(Returned([a]), [url], Some(id))
  }

  /** An incremental run from checkpoint `latest`: the new maximum is written only when it
      exceeds `latest`, and not at all when the crawl raised. */
  function IncrementalRun(cfg: Config, site: Site, latest: int): Cycle {
    var p := Paginate(PageScans(cfg, site, latest));
    var fetched := Requested(cfg, p.pages);
    if p.raised.Some? then Cycle(Raised(p.raised.value), fetched, None)
    else
      var m := MaxId(latest, p.articles);
      Cycle(Returned(p.articles), fetched, if m > latest then Some(m) else None)
  }

  /** `fetch_latest_articles()` with `checkpoint` as `_load_latest_id()` returns it. */
  function RunCycle(cfg: Config, site: Site, checkpoint: Option<int>): Cycle {
    match checkpoint
    case None => FirstRun(cfg, site)
    case Some(latest) => IncrementalRun(cfg, site, latest)
  }

  /** The checkpoint once a cycle has written what it saved. */
  function CheckpointAfter(checkpoint: Option<int>, cy: Cycle): Option<int> {
    if cy.saved.Some? then cy.saved else checkpoint
  }

  /** The articles a sequence of page scans accepts, in page order. */
  function Concat(scans: seq<Scan>): seq<Article> {
    if scans == [] then [] else scans[0].accepted + Concat(scans[1..])
  }
}
