/** `LlssCrawler._extract_id`: the article id is the digit group of the leftmost match of the
    regular expression `/(\d+)\.html` in the article's URL. */
module ArticleId {
  import opened Wrappers
  import opened Decimal

  const Suffix: string := ".html"

  /** Reference semantics of the pattern: `url[i..j + 5]` is a match whose digit group is
      `url[i + 1..j]` — a slash, one or more digits, then `.html`. */
  predicate MatchesAt(url: string, i: int, j: int) {
    && 0 <= i && i + 1 < j && j + |Suffix| <= |url|
    && url[i] == '/'
    && AllDigits(url[i + 1..j])
    && url[j..j + |Suffix|] == Suffix
  }

  /** `s` holds the text `.html` at position `k`. */
  predicate SuffixAt(s: string, k: int) {
    0 <= k && k + |Suffix| <= |s| && s[k..k + |Suffix|] == Suffix
  }

  /** No match of the pattern starts before position `i`. */
  ghost predicate NoMatchBefore(url: string, i: int) {
    forall i', j' :: 0 <= i' < i ==> !MatchesAt(url, i', j')
  }

  /** End of the maximal run of digits that starts at `k`; greedy `\d+` stops there. */
  function DigitRunEnd(url: string, k: nat): (j: nat)
    requires k <= |url|
    ensures k <= j <= |url|
    ensures forall m :: k <= m < j ==> IsDigit(url[m])
    ensures j < |url| ==> !IsDigit(url[j])
    decreases |url| - k
  {
    if k < |url| && IsDigit(url[k]) then DigitRunEnd(url, k + 1) else k
  }

  /** The value of the digit group if the pattern matches at position `i`. Since `.` is not a
      digit, backtracking the greedy `\d+` can never produce a match, so trying the maximal run
      alone decides the position. */
  function MatchAt(url: string, i: nat): Option<nat>
    requires i <= |url|
  {
    if i < |url| && url[i] == '/' then
      var j := DigitRunEnd(url, i + 1);
      if i + 1 < j && j + |Suffix| <= |url| && url[j..j + |Suffix|] == Suffix
      then Some(Value(url[i + 1..j]))
      else None
    else None
  }

  /** `re.search`: try positions left to right from `i`, first match wins. */
  function SearchFrom(url: string, i: nat): Option<nat>
    requires i <= |url|
    decreases |url| - i
  {
    if i == |url| then None
    else if MatchAt(url, i).Some? then MatchAt(url, i)
    else SearchFrom(url, i + 1)
  }

  /** `_extract_id(url)`. */
  function ExtractId(url: string): Option<nat> {
    SearchFrom(url, 0)
  }

  lemma {:induction false} DigitRunEndAt(url: string, k: nat, j: nat)
    requires k <= j <= |url|
    requires forall m :: k <= m < j ==> IsDigit(url[m])
    requires j < |url| ==> !IsDigit(url[j])
    ensures DigitRunEnd(url, k) == j
    decreases j - k
  {
    if k < j {
      DigitRunEndAt(url, k + 1, j);
    }
  }

  /** `MatchAt` decides the reference pattern at a position, and reports its digit group. */
  lemma MatchAtCorrect(url: string, i: nat)
    requires i <= |url|
    ensures MatchAt(url, i).None? <==> forall j :: !MatchesAt(url, i, j)
    ensures forall j :: MatchesAt(url, i, j) ==> MatchAt(url, i) == Some(Value(url[i + 1..j]))
  {
    forall j | MatchesAt(url, i, j)
      ensures MatchAt(url, i) == Some(Value(url[i + 1..j]))
    {
      forall m | i + 1 <= m < j ensures IsDigit(url[m]) {
        assert url[i + 1..j][m - (i + 1)] == url[m];
      }
      assert url[j] == url[j..j + |Suffix|][0] == '.';
      DigitRunEndAt(url, i + 1, j);
    }
    if MatchAt(url, i).Some? {
      var j := DigitRunEnd(url, i + 1);
      assert MatchesAt(url, i, j);
    }
  }

  /** Two leftmost matches start at the same position and carry the same digit group. */
  lemma LeftmostUnique(url: string, i: int, j: int, k: int, j': int)
    requires MatchesAt(url, i, j) && NoMatchBefore(url, i)
    requires MatchesAt(url, k, j') && NoMatchBefore(url, k)
    ensures k == i && Value(url[k + 1..j']) == Value(url[i + 1..j])
  {
    MatchAtCorrect(url, i);
  }

  lemma {:induction false} SearchFromCorrect(url: string, i: nat)
    requires i <= |url|
    requires NoMatchBefore(url, i)
    ensures SearchFrom(url, i).None? <==> forall i', j' :: !MatchesAt(url, i', j')
    ensures forall n :: SearchFrom(url, i) == Some(n) <==>
      exists k, j :: MatchesAt(url, k, j) && NoMatchBefore(url, k) && n == Value(url[k + 1..j])
    decreases |url| - i
  {
    if i == |url| {
      assert forall i', j' :: !MatchesAt(url, i', j') by {
        forall i', j' | MatchesAt(url, i', j') ensures false { }
      }
    } else {
      MatchAtCorrect(url, i);
      if MatchAt(url, i).Some? {
        var j := DigitRunEnd(url, i + 1);
        assert MatchesAt(url, i, j);
        forall n | exists k, j' :: MatchesAt(url, k, j') && NoMatchBefore(url, k) && n == Value(url[k + 1..j'])
          ensures SearchFrom(url, i) == Some(n)
        {
          var k, j' :| MatchesAt(url, k, j') && NoMatchBefore(url, k) && n == Value(url[k + 1..j']);
          LeftmostUnique(url, i, j, k, j');
        }
      } else {
        assert NoMatchBefore(url, i + 1);
        SearchFromCorrect(url, i + 1);
      }
    }
  }

  /** `_extract_id` returns `None` exactly when the pattern matches nowhere in the URL. */
  lemma ExtractIdNone(url: string)
    ensures ExtractId(url).None? <==> forall i, j :: !MatchesAt(url, i, j)
  {
    SearchFromCorrect(url, 0);
  }

  /** `_extract_id` returns `n` exactly when `n` is the value of the digit group of the
      leftmost match. */
  lemma ExtractIdSome(url: string, n: nat)
    ensures ExtractId(url) == Some(n) <==>
      exists i, j :: MatchesAt(url, i, j) && NoMatchBefore(url, i) && n == Value(url[i + 1..j])
  {
    SearchFromCorrect(url, 0);
  }

  /** A URL whose prefix holds no `.html` yields the id written after its last path slash. */
  lemma ExtractIdOfArticleUrl(prefix: string, n: nat, rest: string)
    requires forall k :: !SuffixAt(prefix, k)
    ensures ExtractId(prefix + "/" + Show(n) + Suffix + rest) == Some(n)
  {
    var url := prefix + "/" + Show(n) + Suffix + rest;
    var i, j := |prefix|, |prefix| + 1 + |Show(n)|;
    assert url[i + 1..j] == Show(n) by {
      assert url == (prefix + "/") + Show(n) + (Suffix + rest);
    }
    assert url[j..j + |Suffix|] == Suffix;
    assert MatchesAt(url, i, j);
    ValueOfShow(n);
    forall i', j' | 0 <= i' < i ensures !MatchesAt(url, i', j') {
      NoMatchInPrefix(url, prefix, n, rest, i', j');
    }
    ExtractIdSome(url, n);
  }

  lemma NoMatchInPrefix(url: string, prefix: string, n: nat, rest: string, i: int, j: int)
    requires url == prefix + "/" + Show(n) + Suffix + rest
    requires forall k :: !SuffixAt(prefix, k)
    requires 0 <= i < |prefix|
    ensures !MatchesAt(url, i, j)
  {
    if 0 <= j && j + |Suffix| <= |prefix| {
      // The `.html` would lie inside the prefix.
      assert !SuffixAt(prefix, j);
      assert prefix[j..j + |Suffix|] == url[j..j + |Suffix|];
    } else if 0 <= j <= |prefix| && j + |Suffix| <= |url| {
      // The `.html` would straddle the slash that follows the prefix, but holds no slash.
      assert url[|prefix|] == '/';
      assert forall m :: 0 <= m < |Suffix| ==> Suffix[m] != '/';
      assert url[j..j + |Suffix|][|prefix| - j] == url[|prefix|];
    } else if |prefix| < j <= |url| {
      // The digit run would have to cross that slash.
      assert url[|prefix|] == '/';
      assert url[i + 1..j][|prefix| - (i + 1)] == url[|prefix|];
    }
  }
}
