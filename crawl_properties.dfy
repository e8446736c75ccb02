/** What a crawl cycle guarantees: the pagination bound and stop rules, the order and the
    filtering of the returned articles, the checkpoint's monotonicity, the first run, and
    the idempotence of an incremental cycle. */
module CrawlProperties {
  import opened Wrappers
  import opened ArticleId
  import opened Urls
  import opened Listing
  import opened CrawlSpec

  /** Pagination: the loop requests at least one page when it may request any, and never more
      than it may; every page before the last one requested went on; it stops before its bound
      only at a page that does not go on; the loop raises exactly what the last page it
      requested raised, so an exception there escapes and none comes from elsewhere. */
  lemma {:induction false} PaginateShape(scans: seq<Scan>)
    ensures var p := Paginate(scans);
      && p.pages <= |scans|
      && (p.pages == 0 <==> scans == [])
      && (forall i :: 0 <= i < p.pages - 1 ==> Continues(scans[i]))
      && (0 < p.pages < |scans| ==> !Continues(scans[p.pages - 1]))
      && (p.pages > 0 ==> p.raised == scans[p.pages - 1].raised)
      && (p.raised.Some? ==> p.pages > 0)
    decreases |scans|
  {
    if scans != [] && Continues(scans[0]) {
      PaginateShape(scans[1..]);
    }
  }

  /** The loop raises exactly when a page it requested raised, and then with that page's
      exception. */
  lemma PaginateRaises(scans: seq<Scan>)
    ensures var p := Paginate(scans);
      && (p.raised.Some? <==> exists i :: 0 <= i < p.pages && scans[i].raised.Some?)
      && (forall i, e :: 0 <= i < p.pages && scans[i].raised == Some(e) ==> p.raised == Some(e))
  {
    var p := Paginate(scans);
    PaginateShape(scans);
    forall i | 0 <= i < p.pages && scans[i].raised.Some? ensures i == p.pages - 1 { }
    if p.raised.Some? {
      assert scans[p.pages - 1].raised.Some?;
    }
  }

  /** Order: the articles are those the requested pages accept, in page order, and within a
      page in container order. */
  lemma {:induction false} PaginateArticles(scans: seq<Scan>)
    ensures Paginate(scans).articles == Concat(scans[..Paginate(scans).pages])
    decreases |scans|
  {
    if scans != [] {
      var p := Paginate(scans);
      if Continues(scans[0]) {
        PaginateArticles(scans[1..]);
        assert scans[..p.pages][1..] == scans[1..][..p.pages - 1];
      } else {
        assert scans[..1][1..] == [];
        assert scans[0].accepted + [] == scans[0].accepted;
      }
    }
  }

  /** Within the scans, the loop reaches page `q` exactly when every page before it went on. */
  lemma PaginateReaches(scans: seq<Scan>, q: nat)
    requires 1 <= q <= |scans|
    ensures q <= Paginate(scans).pages <==> forall i :: 0 <= i < q - 1 ==> Continues(scans[i])
  {
    PaginateShape(scans);
  }

  /** The URLs of pages `1..n` are pairwise distinct. */
  lemma RequestedDistinct(cfg: Config, n: nat)
    ensures forall k, l :: 0 <= k < l < n ==> Requested(cfg, n)[k] != Requested(cfg, n)[l]
  {
    forall k, l | 0 <= k < l < n ensures Requested(cfg, n)[k] != Requested(cfg, n)[l] {
      PageUrlInjective(cfg.siteUrl, k + 1, l + 1);
    }
  }

  /** The URL of page `q` is among those of pages `1..n` exactly when `q <= n`. */
  lemma RequestedHas(cfg: Config, n: nat, q: nat)
    requires q >= 1
    ensures PageUrl(cfg.siteUrl, q) in Requested(cfg, n) <==> q <= n
  {
    var urls := Requested(cfg, n);
    if PageUrl(cfg.siteUrl, q) in urls {
      var k :| 0 <= k < n && urls[k] == PageUrl(cfg.siteUrl, q);
      PageUrlInjective(cfg.siteUrl, k + 1, q);
    }
    if q <= n {
      assert urls[q - 1] == PageUrl(cfg.siteUrl, q);
    }
  }

  /** At most `max_pages` pages are requested, page 1 first, in index order, each once. */
  lemma PagesRequested(cfg: Config, site: Site, latest: int)
    ensures var f := IncrementalRun(cfg, site, latest).fetched;
      && |f| <= PageBudget(cfg)
      && (forall k :: 0 <= k < |f| ==> f[k] == PageUrl(cfg.siteUrl, k + 1))
      && (forall k, l :: 0 <= k < l < |f| ==> f[k] != f[l])
  {
    var n := Paginate(PageScans(cfg, site, latest)).pages;
    assert IncrementalRun(cfg, site, latest).fetched == Requested(cfg, n);
    RequestedDistinct(cfg, n);
  }

  /** Within the page bound the loop requests page `q` exactly when every page before it went
      on. */
  lemma ReachesPage(cfg: Config, site: Site, latest: int, q: nat)
    requires 1 <= q <= PageBudget(cfg)
    ensures var scans := PageScans(cfg, site, latest);
      PageUrl(cfg.siteUrl, q) in IncrementalRun(cfg, site, latest).fetched <==>
        forall i :: 0 <= i < q - 1 ==> Continues(scans[i])
  {
    var scans := PageScans(cfg, site, latest);
    var n := Paginate(scans).pages;
    assert IncrementalRun(cfg, site, latest).fetched == Requested(cfg, n);
    RequestedHas(cfg, n, q);
    PaginateReaches(scans, q);
  }

  lemma PageScanAt(cfg: Config, site: Site, latest: int, p: nat)
    requires p >= 1
    ensures p <= PageBudget(cfg) ==>
      PageScans(cfg, site, latest)[p - 1] == ScanPage(ListingAt(cfg, site, p), latest)
  {
  }

  /** One step of the pagination loop: from page `i + 1` it either stops there or goes on
      to the pages after it. */
  lemma PaginateStep(scans: seq<Scan>, i: nat)
    requires i < |scans|
    ensures var here, next := Paginate(scans[i..]), Paginate(scans[i + 1..]);
      here == if Continues(scans[i]) then Pagination(scans[i].accepted + next.articles, 1 + next.pages, next.raised)
        else Pagination(scans[i].accepted, 1, scans[i].raised)
  {
    assert scans[i..][0] == scans[i];
    assert scans[i..][1..] == scans[i + 1..];
  }

  /** The pagination of the whole run, once pages `1..done` gathered `results` and the pages
      after them are still to come with pagination `p`. */
  function Resumed(results: seq<Article>, done: nat, p: Pagination): Pagination {
    Pagination(results + p.articles, done + p.pages, p.raised)
  }

  /** A page that goes on hands the rest of the run to the next page. */
  lemma ResumeContinues(scans: seq<Scan>, results: seq<Article>, i: nat)
    requires i < |scans| && Continues(scans[i])
    ensures Resumed(results, i, Paginate(scans[i..])) ==
      Resumed(results + scans[i].accepted, i + 1, Paginate(scans[i + 1..]))
  {
    PaginateStep(scans, i);
    var next := Paginate(scans[i + 1..]);
    assert results + (scans[i].accepted + next.articles) == results + scans[i].accepted + next.articles;
  }

  /** A page that does not go on ends the run there. */
  lemma ResumeStops(scans: seq<Scan>, results: seq<Article>, i: nat)
    requires i < |scans| && !Continues(scans[i])
    ensures Resumed(results, i, Paginate(scans[i..])) ==
      Pagination(results + scans[i].accepted, i + 1, scans[i].raised)
  {
    PaginateStep(scans, i);
  }

  /** Past the last page the loop may reach, nothing is left to gather. */
  lemma ResumeExhausted(scans: seq<Scan>, results: seq<Article>)
    ensures Resumed(results, |scans|, Paginate(scans[|scans|..])) == Pagination(results, |scans|, None)
  {
    assert scans[|scans|..] == [];
    assert results + [] == results;
  }

  /** Requesting one more page appends its URL. */
  lemma RequestedNext(cfg: Config, n: nat)
    ensures Requested(cfg, n + 1) == Requested(cfg, n) + [PageUrl(cfg.siteUrl, n + 1)]
  {
    var longer, shorter := Requested(cfg, n + 1), Requested(cfg, n);
    forall k | 0 <= k < n ensures longer[k] == shorter[k] { }
  }

  /** Stop rule: once a page is unavailable, empty, raises, or accepts nothing, no later page
      is requested. */
  lemma StopsAfterBarrenPage(cfg: Config, site: Site, latest: int, p: nat, q: nat)
    requires 1 <= p < q
    requires !Continues(ScanPage(ListingAt(cfg, site, p), latest))
    ensures PageUrl(cfg.siteUrl, q) !in IncrementalRun(cfg, site, latest).fetched
  {
    var scans := PageScans(cfg, site, latest);
    var n := Paginate(scans).pages;
    assert IncrementalRun(cfg, site, latest).fetched == Requested(cfg, n);
    PaginateShape(scans);
    PageScanAt(cfg, site, latest, p);
    assert n <= p;
    RequestedHas(cfg, n, q);
  }

  /** An unavailable or empty page scans to nothing, so it ends the loop. */
  lemma EmptyPageStops(cfg: Config, site: Site, latest: int, p: nat)
    requires p >= 1 && ListingAt(cfg, site, p) == []
    ensures !Continues(ScanPage(ListingAt(cfg, site, p), latest))
  {
  }

  /** Filtering, per page: every article the scans accept is new. */
  lemma {:induction false} ConcatAreNew(scans: seq<Scan>, latest: int)
    requires forall i :: 0 <= i < |scans| ==> forall a :: a in scans[i].accepted ==> IsNew(a, latest)
    ensures forall a :: a in Concat(scans) ==> IsNew(a, latest)
    decreases |scans|
  {
    if scans != [] {
      ConcatAreNew(scans[1..], latest);
      assert forall i :: 1 <= i < |scans| ==> scans[1..][i - 1] == scans[i];
    }
  }

  /** Filtering: every article an incremental run returns has a non-empty title, a
      resolvable id, and an id strictly above the loaded checkpoint. */
  lemma IncrementalArticlesAreNew(cfg: Config, site: Site, latest: int)
    ensures var cy := IncrementalRun(cfg, site, latest);
      cy.outcome.Returned? ==> forall a :: a in cy.outcome.articles ==> IsNew(a, latest)
  {
    var scans := PageScans(cfg, site, latest);
    var n := Paginate(scans).pages;
    PaginateArticles(scans);
    forall i | 0 <= i < n ensures forall a :: a in scans[..n][i].accepted ==> IsNew(a, latest) {
      ScanAcceptedAreNew(ListingAt(cfg, site, i + 1), latest);
    }
    ConcatAreNew(scans[..n], latest);
  }

  /** Checkpoint of an incremental run: it becomes the maximum of the old checkpoint and
      every returned id, so it never decreases; it is written exactly when that maximum is
      above the old value, which is exactly when some article was returned; a raising run
      writes nothing. */
  lemma IncrementalCheckpoint(cfg: Config, site: Site, latest: int)
    ensures var cy := IncrementalRun(cfg, site, latest);
      && (cy.saved.Some? <==> cy.outcome.Returned? && cy.outcome.articles != [])
      && (cy.saved.Some? ==> cy.saved.value > latest)
      && (cy.outcome.Raised? ==> CheckpointAfter(Some(latest), cy) == Some(latest))
      && (cy.outcome.Returned? ==>
            CheckpointAfter(Some(latest), cy) == Some(MaxId(latest, cy.outcome.articles)))
  {
    IncrementalArticlesAreNew(cfg, site, latest);
    var p := Paginate(PageScans(cfg, site, latest));
    if p.raised.None? {
      MaxIdGrows(latest, p.articles);
    }
  }

  /** Exceptions: an incremental run raises exactly when a page it requested raised, and
      then with that page's exception. */
  lemma IncrementalRaises(cfg: Config, site: Site, latest: int)
    ensures var scans := PageScans(cfg, site, latest);
      var p := Paginate(scans);
      && (IncrementalRun(cfg, site, latest).outcome.Raised? <==>
            exists i :: 0 <= i < p.pages && scans[i].raised.Some?)
      && (forall i, e :: 0 <= i < p.pages && scans[i].raised == Some(e) ==>
            IncrementalRun(cfg, site, latest).outcome == Raised(e))
  {
    PaginateRaises(PageScans(cfg, site, latest));
  }

  /** Monotonicity: whatever the network does, a cycle never lowers an existing checkpoint
      and never removes it. */
  lemma CheckpointNeverDecreases(cfg: Config, site: Site, checkpoint: Option<int>)
    ensures var after := CheckpointAfter(checkpoint, RunCycle(cfg, site, checkpoint));
      checkpoint.Some? ==> after.Some? && after.value >= checkpoint.value
  {
    if checkpoint.Some? {
      IncrementalCheckpoint(cfg, site, checkpoint.value);
    }
  }

  /** First run: only the home page is requested; at most one article is returned, built
      from the page's second container; the checkpoint is written exactly when one is
      returned, with its id; an empty page, a missing link or an id that does not resolve
      return nothing and write nothing, and a page with one container raises. */
  lemma FirstRunProperties(cfg: Config, site: Site)
    ensures var cs := ListingAt(cfg, site, 1);
      var cy := FirstRun(cfg, site);
      && cy.fetched == [cfg.siteUrl]
      && (cy.outcome.Returned? ==> |cy.outcome.articles| <= 1)
      && (cy.saved.Some? <==> cy.outcome.Returned? && |cy.outcome.articles| == 1)
      && (cy.outcome.Returned? && |cy.outcome.articles| == 1 ==>
            var a := cy.outcome.articles[0];
            && cy.saved == Some(a.id)
            && |cs| >= 2
            && ResolveLink(cs[1]) == Some(Link(a.title, a.url))
            && ExtractId(a.url) == Some(a.id))
      && (cs == [] ==> cy.outcome == Returned([]))
      && (|cs| == 1 ==> cy.outcome == Raised(IndexError))
      && (|cs| >= 2 && ResolveLink(cs[1]).None? ==> cy.outcome == Returned([]))
      && (|cs| >= 2 && ResolveLink(cs[1]).Some? && ExtractId(ResolveLink(cs[1]).value.href).None? ==>
            cy.outcome == Returned([]))
      && (|cs| >= 2 && ResolveLink(cs[1]).Some? && ExtractId(ResolveLink(cs[1]).value.href).Some? ==>
            var link := ResolveLink(cs[1]).value;
            var id := ExtractId(link.href).value;
            match BuildArticle(cs[1], link.text, link.href, id)
            case Ok(a) => cy == Cycle(Returned([a]), [cfg.siteUrl], Some(id))
            case Err(e) => cy == Cycle(Raised(e), [cfg.siteUrl], None))
  {
  }

  /** A scan in which every container is skipped accepts nothing and raises nothing. */
  lemma AllSkipped(cs: seq<Container>, latest: int)
    requires forall i :: 0 <= i < |cs| ==> Examine(cs[i], latest).Skip?
    ensures ScanPage(cs, latest) == Scan([], None)
  {
    ScanPageCorrect(cs, latest);
  }

  /** Idempotence of dedup: with the network unchanged, an incremental cycle that returned
      normally is followed by one that returns nothing and leaves the checkpoint as it is. */
  lemma IncrementalIdempotent(cfg: Config, site: Site, latest: int)
    requires IncrementalRun(cfg, site, latest).outcome.Returned?
    ensures var cp := CheckpointAfter(Some(latest), IncrementalRun(cfg, site, latest));
      var second := RunCycle(cfg, site, cp);
      && second.outcome == Returned([])
      && CheckpointAfter(cp, second) == cp
  {
    var scans := PageScans(cfg, site, latest);
    var first := Paginate(scans);
    IncrementalCheckpoint(cfg, site, latest);
    var m := MaxId(latest, first.articles);
    if cfg.maxPages >= 1 {
      var cs := ListingAt(cfg, site, 1);
      var scan := ScanPage(cs, latest);
      assert scan == scans[0];
      assert scan.raised.None?;
      assert forall a :: a in scan.accepted ==> a in first.articles;
      ScanPageCorrect(cs, latest);
      forall i | 0 <= i < |cs| ensures Examine(cs[i], m).Skip? {
      }
      AllSkipped(cs, m);
      assert PageScans(cfg, site, m)[0] == Scan([], None);
    }
  }

  /** A listing entry whose only link points at `/<n>.html`. */
  function Entry(n: nat): Container {
    Container(Some(Link("t", "/" + Decimal.Show(n) + Suffix)), None, None, None, Some(""))
  }

  function EntryArticle(n: nat): Article {
    Article("t", "/" + Decimal.Show(n) + Suffix, n, None, "")
  }

  lemma EntryVerdict(n: nat, latest: int)
    ensures Examine(Entry(n), latest) == if n > latest then Accept(EntryArticle(n)) else Skip
  {
    ExtractIdOfArticleUrl("", n, "");
    assert "" + "/" + Decimal.Show(n) + Suffix + "" == "/" + Decimal.Show(n) + Suffix;
  }

  /** Accept boundary: from checkpoint 100, a page with ids 103, 102, 100, 99 accepts exactly
      103 and 102, in that order, and moves the maximum to 103. */
  lemma AcceptBoundaryExample()
    ensures ScanPage([Entry(103), Entry(102), Entry(100), Entry(99)], 100)
      == Scan([EntryArticle(103), EntryArticle(102)], None)
    ensures MaxId(100, [EntryArticle(103), EntryArticle(102)]) == 103
  {
    EntryVerdict(103, 100);
    EntryVerdict(102, 100);
    EntryVerdict(100, 100);
    EntryVerdict(99, 100);
    var cs := [Entry(103), Entry(102), Entry(100), Entry(99)];
    ScanStep(cs, 3, 100);
    ScanStep(cs, 2, 100);
    ScanStep(cs, 1, 100);
    ScanStep(cs, 0, 100);
    assert cs[4..] == [] && cs[0..] == cs;
  }

  /** First run on a home page whose entries have ids 105, 104, 103: it returns the entry
      with id 104 alone and stores 104. */
  lemma FirstRunExample(cfg: Config, site: Site)
    requires ListingAt(cfg, site, 1) == [Entry(105), Entry(104), Entry(103)]
    ensures FirstRun(cfg, site) == Cycle(Returned([EntryArticle(104)]), [cfg.siteUrl], Some(104))
  {
    EntryVerdict(104, 0);
  }
}
