/** The listing URLs the crawler requests: the configured site URL with its trailing slashes
    removed (`site_url.rstrip("/")` in `LlssCrawler.__init__`), and one URL per page index. */
module Urls {
  import opened Decimal

  /** `s.rstrip("/")`: the longest prefix of `s` that does not end in a slash and is followed
      only by slashes. */
  function StripTrailingSlashes(s: string): (r: string)
    ensures r <= s
    ensures r == [] || r[|r| - 1] != '/'
    ensures forall k :: |r| <= k < |s| ==> s[k] == '/'
  {
    if s != [] && s[|s| - 1] == '/' then StripTrailingSlashes(s[..|s| - 1]) else s
  }

  /** Stripping twice is stripping once. */
  lemma StripIdempotent(s: string)
    ensures StripTrailingSlashes(StripTrailingSlashes(s)) == StripTrailingSlashes(s)
  {
  }

  /** URL of listing page `n`: the site URL itself for page 1, `<site>/page/<n>/` after it. */
  function PageUrl(site: string, n: nat): (url: string)
    requires n >= 1
    ensures site <= url
    ensures url == site <==> n == 1
  {
    if n == 1 then site else site + "/page/" + Show(n) + "/"
  }

  /** Distinct page indexes give distinct URLs, so no page is requested twice in one run. */
  lemma PageUrlInjective(site: string, m: nat, n: nat)
    requires m >= 1 && n >= 1
    ensures PageUrl(site, m) == PageUrl(site, n) ==> m == n
  {
    if PageUrl(site, m) == PageUrl(site, n) && m != 1 && n != 1 {
      var u := PageUrl(site, m);
      var start := |site| + |"/page/"|;
      assert u[start..|u| - 1] == Show(m) by {
        assert u == (site + "/page/") + Show(m) + "/";
      }
      assert PageUrl(site, n)[start..|u| - 1] == Show(n) by {
        assert PageUrl(site, n) == (site + "/page/") + Show(n) + "/";
      }
      ShowInjective(m, n);
    }
  }
}
