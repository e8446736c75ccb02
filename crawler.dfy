/** `LlssCrawler`: the crawler object, its checkpoint, and `fetch_latest_articles` as the
    loops the source runs, each proved against the reference functions of `CrawlSpec`. */
module Crawler {
  import opened Wrappers
  import opened ArticleId
  import opened Urls
  import opened Fetcher
  import opened Listing
  import opened CrawlSpec
  import opened CrawlProperties

  /** The inner loop of the incremental run over one page's containers (`for art in
      articles`): it appends each accepted article, counts them in `newOnPage` and keeps the
      running maximum id; an exception ends it with what it had accepted so far. */
  method ScanListing(articles: seq<Container>, latest: int, maxIn: int)
    returns (accepted: seq<Article>, newOnPage: nat, maxOut: int, raised: Option<Exception>)
    ensures Scan(accepted, raised) == ScanPage(articles, latest)
    ensures newOnPage == |accepted|
    ensures maxOut == MaxId(maxIn, accepted)
  {
    accepted, newOnPage, maxOut, raised := [], 0, maxIn, None;
    for k := 0 to |articles|
      invariant ScanPage(articles, latest) == Join(accepted, ScanPage(articles[k..], latest))
      invariant newOnPage == |accepted|
      invariant maxOut == MaxId(maxIn, accepted)
    {
      var art := articles[k];
      ScanStep(articles, k, latest);
      var a := ResolveLink(art);
      if a.None? {
        continue;
      }
      var title := a.value.text;
      if title == "" {
        continue;
      }
      var url := a.value.href;
      var idVal := ExtractId(url);
      if idVal.None? {
        continue;
      }
      if idVal.value <= latest {
        continue;
      }
      var cover: Option<string> := None;
      if art.image.Some? {
        if art.image.value.src.None? {
          raised := Some(KeyError);
          assert accepted + [] == accepted;
          return;
        }
        cover := art.image.value.src;
      }
      if art.descBlock.None? {
        raised := Some(AttributeError);
        assert accepted + [] == accepted;
        return;
      }
      var data := Article(title, url, idVal.value, cover, art.descBlock.value);
      assert Examine(art, latest) == Accept(data);
      JoinAccept(accepted, data, ScanPage(articles[k + 1..], latest));
      MaxIdAppend(maxIn, accepted, [data]);
      accepted := accepted + [data];
      newOnPage := newOnPage + 1;
      if idVal.value > maxOut {
        maxOut := idVal.value;
      }
    }
  }

  class LlssCrawler {
    /** `site_url`, with its trailing slashes removed. */
    const siteUrl: string
    const maxPages: int
    const retry: int
    /** The checkpoint file as `_load_latest_id` reads it: `None` when the file is missing or
        does not hold an integer. */
    var checkpoint: Option<int>

    function Settings(): Config {
      Config(siteUrl, maxPages, retry)
    }

    /** `LlssCrawler(site_url, latest_id_file, max_pages, retry, retry_delay)`, over a
        checkpoint file whose current value is `stored`. */
    constructor (siteUrl0: string, maxPages0: int, retry0: int, stored: Option<int>)
      ensures siteUrl == StripTrailingSlashes(siteUrl0)
      ensures maxPages == maxPages0 && retry == retry0
      ensures checkpoint == stored
    {
      siteUrl := StripTrailingSlashes(siteUrl0);
      maxPages := maxPages0;
      retry := retry0;
      checkpoint := stored;
    }

    /** `_save_latest_id(id_val)`: overwrites the checkpoint. */
    method SaveLatestId(idVal: int)
      modifies this
      ensures checkpoint == Some(idVal)
    {
      checkpoint := Some(idVal);
    }

    /** `_fetch_page(session, page_url)`: the page's containers, or none when the fetch gives
        up. */
    method FetchPage(site: Site, pageUrl: string) returns (articles: seq<Container>)
      ensures articles == PageSpec(retry, site, pageUrl)
    {
      var html, requests, sleeps := FetchHtml(retry, ScriptFor(site, pageUrl));
      if html.None? {
        return [];
      }
      articles := html.value;
    }

    /** The first run (`latest_id is None`): only the home page, and only its second
        container; the checkpoint is written when that container yields an article. */
    method FirstRunOnce(site: Site) returns (outcome: Outcome, fetched: seq<string>)
      modifies this
      ensures var cy := FirstRun(Settings(), site);
        && outcome == cy.outcome
        && fetched == cy.fetched
        && checkpoint == CheckpointAfter(old(checkpoint), cy)
    {
      var results: seq<Article> := [];
      var articles := FetchPage(site, siteUrl);
      fetched := [siteUrl];
      if articles == [] {
        return Returned(results), fetched;
      }
      if |articles| < 2 {
        return Raised(IndexError), fetched;
      }
      var art := articles[1];
      var a := ResolveLink(art);
      if a.None? {
        return Returned(results), fetched;
      }
      var url := a.value.href;
      var idVal := ExtractId(url);
      if idVal.None? {
        return Returned(results), fetched;
      }
      var cover: Option<string> := None;
      if art.image.Some? {
        if art.image.value.src.None? {
          return Raised(KeyError), fetched;
        }
        cover := art.image.value.src;
      }
      if art.descBlock.None? {
        return Raised(AttributeError), fetched;
      }
      var data := Article(a.value.text, url, idVal.value, cover, art.descBlock.value);
      results := results + [data];
      SaveLatestId(idVal.value);
      return Returned(results), fetched;
    }

    /** The pagination loop of an incremental run from checkpoint `latest` (`for page_index
        in range(1, max_pages + 1)`): the articles it gathers, the URLs it requests, the
        running maximum id, and the exception that ended it, if one did. */
    method CrawlPages(site: Site, latest: int)
      returns (results: seq<Article>, fetched: seq<string>, maxNewId: int, raised: Option<Exception>)
      ensures Paginate(PageScans(Settings(), site, latest)) == Pagination(results, |fetched|, raised)
      ensures fetched == Requested(Settings(), |fetched|)
      ensures maxNewId == MaxId(latest, results)
    {
      results, fetched, maxNewId, raised := [], [], latest, None;
      ghost var cfg := Settings();
      ghost var scans := PageScans(cfg, site, latest);
      var pageIndex := 1;
      while pageIndex <= maxPages
        invariant 1 <= pageIndex <= |scans| + 1
        invariant fetched == Requested(cfg, pageIndex - 1)
        invariant Paginate(scans) == Resumed(results, pageIndex - 1, Paginate(scans[pageIndex - 1..]))
        invariant maxNewId == MaxId(latest, results)
        invariant raised == None
        decreases maxPages - pageIndex
      {
        var pageUrl := PageUrl(siteUrl, pageIndex);
        var articles := FetchPage(site, pageUrl);
        RequestedNext(cfg, pageIndex - 1);
        fetched := fetched + [pageUrl];
        PageScanAt(cfg, site, latest, pageIndex);
        if articles == [] {
          ResumeStops(scans, results, pageIndex - 1);
          assert results + [] == results;
          return;
        }
        var accepted, newOnPage, maxOut;
        accepted, newOnPage, maxOut, raised := ScanListing(articles, latest, maxNewId);
        MaxIdAppend(latest, results, accepted);
        if raised.Some? || newOnPage == 0 {
          ResumeStops(scans, results, pageIndex - 1);
          results, maxNewId := results + accepted, maxOut;
          return;
        }
        ResumeContinues(scans, results, pageIndex - 1);
        results, maxNewId := results + accepted, maxOut;
        pageIndex := pageIndex + 1;
      }
      assert pageIndex - 1 == |scans|;
      ResumeExhausted(scans, results);
    }

    /** `fetch_latest_articles()`: a first run without a checkpoint, an incremental run with
        one. It returns what the cycle returns or raises and the URLs it requested, and
        leaves the checkpoint as the cycle wrote it. */
    method FetchLatestArticles(site: Site) returns (outcome: Outcome, fetched: seq<string>)
      modifies this
      ensures old(checkpoint).None? ==>
        var cy := FirstRun(Settings(), site);
        outcome == cy.outcome && fetched == cy.fetched && checkpoint == CheckpointAfter(old(checkpoint), cy)
      ensures old(checkpoint).Some? ==>
        var cy := IncrementalRun(Settings(), site, old(checkpoint).value);
        outcome == cy.outcome && fetched == cy.fetched && checkpoint == CheckpointAfter(old(checkpoint), cy)
    {
      var latestId := checkpoint;
      if latestId.None? {
        outcome, fetched := FirstRunOnce(site);
        return;
      }
      var latest := latestId.value;
      var results, maxNewId, raised;
      results, fetched, maxNewId, raised := CrawlPages(site, latest);
      if raised.Some? {
        return Raised(raised.value), fetched;
      }
      if maxNewId > latest {
        SaveLatestId(maxNewId);
      }
      outcome := Returned(results);
    }
  }
}
