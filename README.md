# LLSS crawler core, modelled in Dafny

This project models `LlssCrawler` from `llss.py`, the crawler of a bot plugin that watches a
WordPress-style listing site and reports new posts. One crawl cycle works as follows:

1. It loads a checkpoint: the highest article id it has already seen.
2. On the first run, when there is no checkpoint, it reads only the home page. It takes the
   page's second `<article>` container and stores that container's id as the checkpoint.
3. On later runs it pages through at most `max_pages` listing pages. It keeps every container
   whose link, title and id are present and whose id is above the checkpoint.
4. It stops paging at an empty page or at a page without new articles.
5. It raises the checkpoint to the largest id it accepted.

Every HTTP GET goes through a loop that makes at most `retry` attempts. The loop sleeps with
exponential backoff between attempts.

The modules follow the structure of the source:

- `Decimal`: decimal digit strings, their value (`int(...)`) and `str(n)`.
- `ArticleId`: `_extract_id`. It is the leftmost match of `/(\d+)\.html`, against a reference
  definition of what a match is.
- `Urls`: `rstrip("/")` on the site URL and the page URL scheme `<site>/page/<n>/`.
- `Fetcher`: `_fetch_html`, the retry and backoff loop. It is a method proved against a
  reference function.
- `Listing`: the per-container rules. These are the link selector chain, the skip rules, and
  the cover and description reads that can raise. It also holds the scan of one page and the
  running maximum id.
- `CrawlSpec`: one crawl cycle as a function of the configuration, the network and the
  loaded checkpoint. It covers the first run, the pagination loop and the checkpoint write.
- `CrawlProperties`: lemmas about `CrawlSpec`. They cover the pagination bound and stop
  rules, page URLs, order, filtering, checkpoint monotonicity, the first run and idempotence.
- `Crawler`: the class `LlssCrawler`. Its checkpoint field is updated in place, and
  `fetch_latest_articles` is written as the source's loops. Each method that computes is
  proved equal to a reference function:
  - `ScanListing` to `ScanPage`;
  - `FetchPage` to `PageSpec`;
  - `FirstRunOnce` to `FirstRun`;
  - `CrawlPages` to `Paginate` and `Requested`;
  - `FetchLatestArticles` to `FirstRun` or `IncrementalRun`.

  `SaveLatestId` states the checkpoint it writes.

The network is a parameter rather than I/O. A `Site` maps each URL to the outcomes of its
successive GET attempts. A successful body is the page's parsed `<article>` containers.
Attempts beyond the list fail, and so does every attempt at a URL that is not in the map.
A sleep is recorded as its multiple of `retry_delay`. The checkpoint file is the
`checkpoint: Option<int>` field: `None` stands for a missing file and for a file that does
not parse as an integer.

Exceptions that escape `fetch_latest_articles` are modelled as a `Raised` outcome that
leaves the checkpoint untouched. The code raises the following:

- `IndexError`: `articles[1]` on a first page that holds one container.
- `KeyError`: `img["src"]` on an image that has no `src` attribute.
- `AttributeError`: a container that has a link and a new id but no `div p` block.

A crawl cycle is meant never to raise and always to return a list, but the code raises at
llss.py:111, llss.py:128 and llss.py:130 (llss.py:179 and llss.py:181 on later runs); the model
follows the code. Empty titles are meant to be discarded as non-articles, but the first run
(llss.py:101-138) does not check the title; the model follows the code there too.

## Model

| member | source | states |
|---|---|---|
| Decimal.Show | llss.py:62 | `str(n)` of a natural number is a non-empty digit string, without a leading zero unless it is `"0"` |
| Decimal.ValueOfShow | llss.py:56-62 | `int` of `str(n)` is `n`: the id written to the checkpoint reads back unchanged |
| Decimal.ShowInjective | llss.py:62 | distinct ids are written as distinct strings |
| ArticleId.DigitRunEnd | llss.py:48 | greedy `\d+` from a position ends at the first non-digit, and every character before that end is a digit |
| ArticleId.MatchAtCorrect | llss.py:48 | trying the greedy digit run at a position decides whether `/(\d+)\.html` matches there, and gives the value of its digit group |
| ArticleId.SearchFromCorrect | llss.py:48-49 | searching from a position with no match before it returns `None` exactly when nothing matches, and otherwise the value of the leftmost match |
| ArticleId.ExtractIdNone | llss.py:47-49 | `_extract_id` returns `None` if and only if the pattern matches nowhere in the URL |
| ArticleId.ExtractIdSome | llss.py:47-49 | `_extract_id` returns `n` if and only if `n` is the integer value of the digit group of the leftmost match |
| ArticleId.ExtractIdOfArticleUrl | llss.py:47-49 | a URL `<prefix>/<str(n)>.html<rest>` whose prefix holds no `.html` yields `n` |
| Urls.StripTrailingSlashes | llss.py:32 | `rstrip("/")` gives a prefix of the input that does not end in `/`; everything removed is `/` |
| Urls.StripIdempotent | llss.py:32 | stripping an already stripped URL changes nothing |
| Urls.PageUrl | llss.py:143-145 | the URL of page `n` extends the site URL, and equals it exactly for page 1 |
| Urls.PageUrlInjective | llss.py:143-145 | distinct page numbers have distinct URLs |
| Fetcher.Backoff | llss.py:67-81 | the first `n` backoff sleeps are `n` sleeps |
| Fetcher.BackoffDoubles | llss.py:67-81 | the `k`-th sleep (from 0) is `2^k * retry_delay` |
| Fetcher.BackoffTotal | llss.py:67-81 | the `n` sleeps before attempt `n + 1` add up to `(2^n - 1) * retry_delay` |
| Fetcher.FirstSuccess | llss.py:69-74 | the earliest successful attempt among the first `n`: `None` exactly when all of them fail, and every earlier attempt failed |
| Fetcher.FetchHtml | llss.py:65-83 | the loop does what the reference fetch does: at most `retry` requests; it returns the body of the first success, which every earlier attempt failed before; `None` only after all `retry` attempts failed; one sleep after each failed attempt but the last allowed, the k-th one `2^k` times the delay |
| Fetcher.FetchSpecCorrect | llss.py:65-83 | the reference fetch makes at most `retry` requests, returns `None` exactly when every allowed attempt fails, and returns `b` exactly when some allowed attempt is the first to succeed and receives `b` |
| Fetcher.ThirdAttemptSucceeds | llss.py:65-83 | with `retry == 3`, two failures then a success give the third body, after sleeps of 1 and 2 delays (3 in total) |
| Listing.ResolveLink | llss.py:156-160 | the `or` chain yields `header h1 a` when present, otherwise `h1 a` when present, otherwise `a`; nothing exactly when all three are absent |
| Listing.BuildArticle | llss.py:178-183 | the record is built exactly when an image, if present, has a `src` and a `div p` block exists; it keeps the link's title, URL and id, its cover is the image's `src` (none without an image) and its description the `div p` text; a `src`-less image raises `KeyError`, otherwise a missing `div p` raises `AttributeError` |
| Listing.Examine | llss.py:155-189 | a container is skipped exactly when it has no link, an empty title, no id, or an id not above the checkpoint; a container that is not skipped raises exactly when its image lacks `src` (`KeyError`) or it has no `div p` (`AttributeError`), and is accepted otherwise; an accepted one carries the link's text and URL, a non-empty title, the id extracted from its URL, above the checkpoint, the image's `src` as cover and the `div p` text as description |
| Listing.ScanAppend | llss.py:155-189 | scanning two consecutive runs of containers is scanning the first, then (unless it raised) the second |
| Listing.SkippedContainerIsInert | llss.py:161-176 | removing a skipped container from a page does not change the page's scan |
| Listing.ScanPageCorrect | llss.py:155-189 | a page's scan accepts only articles of its containers; it raises exactly when some container raises, and then with the exception of the first container that raises; when it does not raise it accepts every acceptable container |
| Listing.ScanAcceptedAreNew | llss.py:161-176 | every article a page accepts has a non-empty title, an id extracted from its URL, and an id above the checkpoint |
| Listing.BareLinkAccepted | llss.py:156-160 | a container with only a bare `<a>` link to `<prefix>/<n>.html` and a new `n` is accepted with id `n` |
| Listing.MaxId | llss.py:187-189 | the running maximum is at least its start, at least every accepted id, and is its start or one of those ids |
| Listing.MaxIdAppend | llss.py:188-189 | the running maximum over two runs of articles is the running maximum of the second, starting where the first ended |
| Listing.MaxIdGrows | llss.py:187-196 | when all ids are above the start, the maximum exceeds the start exactly when there is at least one id |
| CrawlSpec.Paginate | llss.py:142-193 | the pagination loop never requests more pages than it may |
| CrawlProperties.PaginateShape | llss.py:142-193 | the loop requests no page only when it may request none; every page before the last requested went on; it stops early only at a page that is empty, raises or accepts nothing; it raises exactly what the last page it requested raised, and raises nothing when it requested no page |
| CrawlProperties.PaginateRaises | llss.py:142-193 | the loop raises if and only if a page it requested raised, and then with that page's exception |
| CrawlProperties.PaginateArticles | llss.py:184 | order: the returned articles are what the requested pages accept, in page order and container order |
| CrawlProperties.PaginateReaches | llss.py:148-193 | page `q` is requested if and only if every earlier page went on |
| CrawlProperties.RequestedDistinct | llss.py:142-145 | no page URL is requested twice |
| CrawlProperties.RequestedHas | llss.py:142-145 | the URL of page `q` is among the first `n` requested if and only if `q <= n` |
| CrawlProperties.PagesRequested | llss.py:142-148 | an incremental run requests at most `max_pages` pages: page 1 (the site URL) first, then in index order, each once |
| CrawlProperties.ReachesPage | llss.py:142-193 | within the bound, an incremental run requests page `q` if and only if every earlier page went on |
| CrawlProperties.StopsAfterBarrenPage | llss.py:148-193 | after a page that is unavailable, empty, raises or accepts nothing, no later page is requested |
| CrawlProperties.EmptyPageStops | llss.py:148-151 | an unavailable or empty page does not go on |
| CrawlProperties.IncrementalArticlesAreNew | llss.py:161-176 | filtering: every article an incremental run returns has a non-empty title, an id extracted from its URL, and an id above the loaded checkpoint |
| CrawlProperties.IncrementalCheckpoint | llss.py:187-197 | the checkpoint is written exactly when the run returns and accepted at least one article, always above the old value; a raising run keeps the old checkpoint; otherwise the checkpoint becomes the maximum of the old one and every returned id |
| CrawlProperties.IncrementalRaises | llss.py:141-198 | an incremental run raises if and only if a page it requested raised (the exceptions of llss.py:179 and llss.py:181 are not caught), and then with that exception |
| CrawlProperties.CheckpointNeverDecreases | llss.py:93-198 | whatever the network does, a cycle never lowers or removes an existing checkpoint |
| CrawlProperties.FirstRunProperties | llss.py:101-138 | the first run requests only the site URL. An empty page, a missing link or an unresolved id return nothing and save nothing. A page with one container raises `IndexError`. Otherwise the second container decides: if its cover and description read cleanly, the run returns exactly that article and saves its id; otherwise it raises the `KeyError` or `AttributeError` of that read and saves nothing. It saves exactly when it returns an article |
| CrawlProperties.AllSkipped | llss.py:161-176 | a page whose containers are all skipped accepts nothing and raises nothing |
| CrawlProperties.IncrementalIdempotent | llss.py:93-198 | a second cycle against the same network, from the checkpoint the first one left, returns nothing and writes nothing |
| CrawlProperties.EntryVerdict | llss.py:155-189 | an entry linking to `/<n>.html` is accepted exactly when `n` is above the checkpoint |
| CrawlProperties.AcceptBoundaryExample | llss.py:175-176 | from checkpoint 100, ids 103, 102, 100, 99 yield 103 and 102 in that order, and the maximum becomes 103 |
| CrawlProperties.FirstRunExample | llss.py:101-138 | a first run over ids 105, 104, 103 returns the article with id 104 and saves 104 |
| Crawler.ScanListing | llss.py:153-189 | the container loop computes the page's scan; `new_on_page` is the number of accepted articles and `max_new_id` their running maximum |
| Crawler.LlssCrawler.constructor | llss.py:17-36 | the site URL is stored with its trailing slashes stripped; `max_pages` and `retry` unchanged; the checkpoint is what the file holds |
| Crawler.LlssCrawler.SaveLatestId | llss.py:60-62 | the checkpoint becomes the given id |
| Crawler.LlssCrawler.FetchPage | llss.py:85-90 | the page's containers as the retry policy fetches them, or none when the fetch gives up |
| Crawler.LlssCrawler.FirstRunOnce | llss.py:101-138 | the first-run branch returns, requests and saves what the reference first run does |
| Crawler.LlssCrawler.CrawlPages | llss.py:141-194 | the pagination loop gathers what the reference pagination gathers, requests exactly the URLs of the pages it reaches, and keeps the running maximum of the accepted ids |
| Crawler.LlssCrawler.FetchLatestArticles | llss.py:93-198 | without a checkpoint the cycle is the reference first run, with one the reference incremental run. It returns or raises what that run does, requests the same URLs, and leaves the checkpoint as that run writes it |

## Left out

- HTTP itself (aiohttp sessions, headers, the 60-second timeout, status checks): replaced by the per-URL attempt script, since the network cannot be modelled.
- HTML parsing with BeautifulSoup: a container is given as what its selectors find (links with their stripped text and `href`, the image, the text of `div p`), since the parser is foreign code.
- `get_text(separator="\n", strip=True)` on the description: the description is the already extracted text.
- Real sleeping and the `retry_delay` float: sleeps are recorded as integer multiples of `retry_delay`, since time and floating point are not modelled.
- The three-second pause between listing pages (llss.py:194): it has no effect on the result.
- Checkpoint file I/O and `int(f.read().strip())` in `_load_latest_id` (llss.py:51-58): the file is the `checkpoint` field. A missing file and unparsable contents both map to `None`, as the source's `except` does.
- Logging: it has no effect on the result.
- `\d` matching non-ASCII Unicode digits: only ASCII digits are modelled.
- Concurrency: the `async` structure is not modelled. A cycle is one sequential run.
- The constructor's parameter defaults (`site_url="https://www.hacg.icu/wp/"`, `max_pages=3`, `retry=3`, `retry_delay=1.0`, llss.py:17-24), the `latest_id_file` path and the request headers (llss.py:33, llss.py:38-44): the constructor takes every setting explicitly and the checkpoint file's current value instead of its path, since Dafny has no default arguments and the file is not modelled.
- utils.py and main.py are not part of this model.
