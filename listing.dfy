/** The records of a listing page and the per-container rules of the incremental run:
    link resolution with its selector fallback, the skip rules, and the reading of cover and
    description. HTML parsing itself is abstracted: a container is what the selectors find. */
module Listing {
  import opened Wrappers
  import opened ArticleId

  /** An `<a>` element as the crawler reads it: its stripped text and `get("href", "")`. */
  datatype Link = Link(text: string, href: string)

  /** An `<img>` element; `src` is `None` when the element has no such attribute. */
  datatype Image = Image(src: Option<string>)

  /** One `<article>` container, as the selectors of the crawler see it. */
  datatype Container = Container(
    headerH1Link: Option<Link>,  // select_one("header h1 a")
    h1Link: Option<Link>,        // select_one("h1 a")
    anyLink: Option<Link>,       // select_one("a")
    image: Option<Image>,        // select_one("div p img")
    descBlock: Option<string>)   // text of select_one("div p"), lines joined by "\n", stripped

  /** One returned record: `{"title", "url", "id", "cover", "desc"}`. */
  datatype Article = Article(title: string, url: string, id: nat, cover: Option<string>, desc: string)

  /** The exceptions the source lets escape from a crawl cycle. */
  datatype Exception =
    | IndexError      // `articles[1]` on a first page holding a single container
    | KeyError        // `img["src"]` on an image without a `src` attribute
    | AttributeError  // `.get_text` on the `None` that `select_one("div p")` returns

  /** The first link found by the chain `header h1 a`, `h1 a`, `a`. */
  function ResolveLink(c: Container): (r: Option<Link>)
    ensures r.None? <==> c.headerH1Link.None? && c.h1Link.None? && c.anyLink.None?
    ensures c.headerH1Link.Some? ==> r == c.headerH1Link
    ensures c.headerH1Link.None? && c.h1Link.Some? ==> r == c.h1Link
    ensures c.headerH1Link.None? && c.h1Link.None? ==> r == c.anyLink
  {
    if c.headerH1Link.Some? then c.headerH1Link
    else if c.h1Link.Some? then c.h1Link
    else c.anyLink
  }

  /** Reads the cover, then the description, of a container whose link gave `title`, `url`
      and `id`. */
  function BuildArticle(c: Container, title: string, url: string, id: nat): (r: Result<Article, Exception>)
    ensures r.Ok? <==> (c.image.Some? ==> c.image.value.src.Some?) && c.descBlock.Some?
    ensures r.Ok? ==> r.value.title == title && r.value.url == url && r.value.id == id
    ensures r.Ok? ==> (r.value.cover.None? <==> c.image.None?)
    ensures r.Ok? && c.image.Some? ==> r.value.cover == c.image.value.src
    ensures r.Ok? ==> c.descBlock == Some(r.value.desc)
    ensures r == Err(KeyError) <==> c.image.Some? && c.image.value.src.None?
    ensures r == Err(AttributeError) <==> !(c.image.Some? && c.image.value.src.None?) && c.descBlock.None?
  {
    if c.image.Some? && c.image.value.src.None? then Err(KeyError)
    else if c.descBlock.None? then Err(AttributeError)
    else Ok(Article(title, url, id, if c.image.Some? then c.image.value.src else None, c.descBlock.value))
  }

  /** What one iteration of the incremental run's inner loop does with a container. */
  datatype Verdict = Skip | Accept(article: Article) | Raise(error: Exception)

  /** The incremental run's treatment of one container, given the loaded checkpoint
      `latest`: a container without a link, with an empty title, without an id, or with an id
      not above `latest` is skipped; any other container is accepted, unless reading its cover
      or description raises. */
  function Examine(c: Container, latest: int): (v: Verdict)
    ensures v.Skip? <==>
      || ResolveLink(c).None?
      || ResolveLink(c).value.text == ""
      || ExtractId(ResolveLink(c).value.href).None?
      || ExtractId(ResolveLink(c).value.href).value <= latest
    ensures v.Accept? ==>
      && ResolveLink(c) == Some(Link(v.article.title, v.article.url))
      && v.article.title != ""
      && ExtractId(v.article.url) == Some(v.article.id)
      && v.article.id > latest
    ensures v.Accept? ==> (v.article.cover.None? <==> c.image.None?)
    ensures v.Accept? && c.image.Some? ==> v.article.cover == c.image.value.src
    ensures v.Accept? ==> c.descBlock == Some(v.article.desc)
    ensures !v.Skip? ==> (v.Raise? <==> (c.image.Some? && c.image.value.src.None?) || c.descBlock.None?)
    ensures v.Raise? ==> v.error == if c.image.Some? && c.image.value.src.None? then KeyError else AttributeError
  {
    match ResolveLink(c)
    case None => Skip
    case Some(link) =>
      if link.text == "" then Skip
      else match ExtractId(link.href)
        case None => Skip
        case Some(id) =>
          if id <= latest then Skip
          else match BuildArticle(c, link.text, link.href, id)
            case Ok(a) => Accept(a)
            case Err(e) => Raise(e)
  }

  /** The articles one page contributes, and the exception that ended its scan, if any. */
  datatype Scan = Scan(accepted: seq<Article>, raised: Option<Exception>)

  /** The inner loop of the incremental run over the containers of one page, in order;
      an exception ends the scan, keeping what was accepted before it. */
  function ScanPage(cs: seq<Container>, latest: int): Scan
    decreases |cs|
  {
    if cs == [] then Scan([], None)
    else match Examine(cs[0], latest)
      case Skip => ScanPage(cs[1..], latest)
      case Accept(a) =>
        var rest := ScanPage(cs[1..], latest);
        Scan([a] + rest.accepted, rest.raised)
      case Raise(e) => Scan([], Some(e))
  }

  /** Scanning `cs` after having accepted `acc`. */
  function Join(acc: seq<Article>, s: Scan): Scan {
    Scan(acc + s.accepted, s.raised)
  }

  /** Accepting `a` after `acc` is accepting `acc + [a]`. */
  lemma JoinAccept(acc: seq<Article>, a: Article, s: Scan)
    ensures Join(acc, Join([a], s)) == Join(acc + [a], s)
  {
    assert acc + ([a] + s.accepted) == acc + [a] + s.accepted;
  }

  /** Order: scanning two pieces of a page one after the other is scanning the whole page. */
  lemma {:induction false} ScanAppend(xs: seq<Container>, ys: seq<Container>, latest: int)
    ensures ScanPage(xs + ys, latest) ==
      if ScanPage(xs, latest).raised.Some? then ScanPage(xs, latest)
      else Join(ScanPage(xs, latest).accepted, ScanPage(ys, latest))
    decreases |xs|
  {
    if xs != [] {
      assert (xs + ys)[0] == xs[0];
      assert (xs + ys)[1..] == xs[1..] + ys;
      ScanAppend(xs[1..], ys, latest);
    } else {
      assert xs + ys == ys;
    }
  }

  /** One step of the scan: the container at `k` decides how the scan of `cs[k..]` relates
      to the scan of `cs[k + 1..]`. */
  lemma ScanStep(cs: seq<Container>, k: nat, latest: int)
    requires k < |cs|
    ensures var here, next := ScanPage(cs[k..], latest), ScanPage(cs[k + 1..], latest);
      match Examine(cs[k], latest)
      case Skip => here == next
      case Accept(a) => here == Join([a], next)
      case Raise(e) => here == Scan([], Some(e))
  {
    assert cs[k..][0] == cs[k];
    assert cs[k..][1..] == cs[k + 1..];
  }

  /** A container that is skipped never aborts its page: removing it changes nothing. */
  lemma SkippedContainerIsInert(xs: seq<Container>, c: Container, ys: seq<Container>, latest: int)
    requires Examine(c, latest).Skip?
    ensures ScanPage(xs + [c] + ys, latest) == ScanPage(xs + ys, latest)
  {
    assert xs + [c] + ys == xs + ([c] + ys);
    ScanAppend(xs, [c] + ys, latest);
    ScanAppend(xs, ys, latest);
    assert ([c] + ys)[1..] == ys;
  }

  /** A page's scan accepts exactly its acceptable containers, in order, unless a container
      raises: then it stops at the first one that does. */
  lemma {:induction false} ScanPageCorrect(cs: seq<Container>, latest: int)
    ensures forall a :: a in ScanPage(cs, latest).accepted ==>
      exists i :: 0 <= i < |cs| && Examine(cs[i], latest) == Accept(a)
    ensures ScanPage(cs, latest).raised.None? <==>
      forall i :: 0 <= i < |cs| ==> !Examine(cs[i], latest).Raise?
    ensures ScanPage(cs, latest).raised.None? ==>
      forall i :: 0 <= i < |cs| && Examine(cs[i], latest).Accept? ==>
        Examine(cs[i], latest).article in ScanPage(cs, latest).accepted
    ensures forall e :: ScanPage(cs, latest).raised == Some(e) ==>
      exists i :: 0 <= i < |cs| && Examine(cs[i], latest) == Raise(e) &&
        forall j :: 0 <= j < i ==> !Examine(cs[j], latest).Raise?
    decreases |cs|
  {
    if cs != [] {
      ScanPageCorrect(cs[1..], latest);
      forall i | 1 <= i < |cs| ensures cs[i] == cs[1..][i - 1] { }
    }
  }

  /** What the filter lets through: a non-empty title, a resolvable id, above `latest`. */
  predicate IsNew(a: Article, latest: int) {
    a.title != "" && ExtractId(a.url) == Some(a.id) && a.id > latest
  }

  /** Every accepted article has a non-empty title, a resolvable id, and an id above the
      checkpoint. */
  lemma ScanAcceptedAreNew(cs: seq<Container>, latest: int)
    ensures forall a :: a in ScanPage(cs, latest).accepted ==> IsNew(a, latest)
  {
    ScanPageCorrect(cs, latest);
    forall a | a in ScanPage(cs, latest).accepted
      ensures IsNew(a, latest)
    {
      var i :| 0 <= i < |cs| && Examine(cs[i], latest) == Accept(a);
    }
  }

  /** A container that only has a bare `<a>` link (no heading) is still accepted, with the
      id read from the end of its URL. */
  lemma BareLinkAccepted(prefix: string, n: nat, title: string, desc: string, latest: int)
    requires forall k :: !SuffixAt(prefix, k)
    requires title != "" && n > latest
    ensures var url := prefix + "/" + Decimal.Show(n) + Suffix;
      Examine(Container(None, None, Some(Link(title, url)), None, Some(desc)), latest)
        == Accept(Article(title, url, n, None, desc))
  {
    ExtractIdOfArticleUrl(prefix, n, "");
    assert prefix + "/" + Decimal.Show(n) + Suffix + "" == prefix + "/" + Decimal.Show(n) + Suffix;
  }

  /** The running maximum `max_new_id`, starting from `m`, over the ids of `arts`. */
  function MaxId(m: int, arts: seq<Article>): (r: int)
    ensures r >= m
    ensures forall a :: a in arts ==> a.id <= r
    ensures r == m || exists a :: a in arts && a.id == r
    decreases |arts|
  {
    if arts == [] then m
    else MaxId(if arts[0].id > m then arts[0].id else m, arts[1..])
  }

  lemma {:induction false} MaxIdAppend(m: int, xs: seq<Article>, ys: seq<Article>)
    ensures MaxId(m, xs + ys) == MaxId(MaxId(m, xs), ys)
    decreases |xs|
  {
    if xs != [] {
      assert (xs + ys)[0] == xs[0];
      assert (xs + ys)[1..] == xs[1..] + ys;
      MaxIdAppend(if xs[0].id > m then xs[0].id else m, xs[1..], ys);
    }
  }

  /** When every id lies above `m`, the maximum exceeds `m` exactly when there is an id. */
  lemma MaxIdGrows(m: int, arts: seq<Article>)
    requires forall a :: a in arts ==> a.id > m
    ensures MaxId(m, arts) > m <==> arts != []
  {
    if arts != [] {
      assert arts[0] in arts;
    }
  }
}
