/**
 * `GET /api/articles`: the query parameters, the category filter, the page of articles sorted
 * by `createdAt` newest first, the pagination fields and the per-category histogram, as pure
 * functions of the stored articles and the query.
 */
module ArticlesRoute {
  import opened Wrappers
  import opened Text
  import opened Sequences
  import opened Sorting
  import opened NewsFetcher
  import opened AIProcessor

  // ----- parseInt -----

  /** The value of `c` as a digit of radix up to 16; 16 for any other character. */
  function DigitValue(c: char): (v: nat)
    ensures v <= 16
  {
    if '0' <= c <= '9' then c as int - '0' as int
    else if 'a' <= c <= 'f' then c as int - 'a' as int + 10
    else if 'A' <= c <= 'F' then c as int - 'A' as int + 10
    else 16
  }

  predicate IsDigitIn(c: char, radix: nat) {
    DigitValue(c) < radix
  }

  /** The length of the longest prefix of `s` made of radix-`radix` digits. */
  function DigitRun(s: string, radix: nat): (n: nat)
    ensures n <= |s|
    ensures forall i :: 0 <= i < n ==> IsDigitIn(s[i], radix)
    ensures n == |s| || !IsDigitIn(s[n], radix)
  {
    if s != [] && IsDigitIn(s[0], radix) then 1 + DigitRun(s[1..], radix) else 0
  }

  /** The number the digits `ds` denote in `radix`, most significant first. */
  function DigitsValue(ds: string, radix: nat): nat {
    if ds == [] then 0 else DigitsValue(ds[..|ds| - 1], radix) * radix + DigitValue(ds[|ds| - 1])
  }

  predicate HasHexPrefix(u: string) {
    |u| >= 2 && u[0] == '0' && (u[1] == 'x' || u[1] == 'X')
  }

  /** After the leading whitespace: whether a `-` sign is there, and the text after any sign. */
  function SignOf(t: string): (bool, string) {
    if t != [] && (t[0] == '-' || t[0] == '+') then (t[0] == '-', t[1..]) else (false, t)
  }

  /** The radix, and the text after a `0x`/`0X` prefix, which selects radix 16. */
  function RadixOf(u: string): (nat, string) {
    if HasHexPrefix(u) then (16, u[2..]) else (10, u)
  }

  /**
   * `parseInt(s)` with no radix: leading whitespace skipped, an optional sign, a `0x`/`0X`
   * prefix selecting radix 16, then the longest run of digits; `None` is `NaN`.
   */
  function ParseInt(s: string): Option<int> {
    var sign := SignOf(TrimStart(s));
    var v := ParseUnsigned(sign.1);
    if v.None? then None else Some(if sign.0 then -(v.value as int) else v.value)
  }

  /** The digits after the sign: an optional `0x`/`0X` prefix, then the longest run of digits. */
  function ParseUnsigned(u: string): Option<nat> {
    var radix := RadixOf(u);
    var n := DigitRun(radix.1, radix.0);
    if n == 0 then None else Some(DigitsValue(radix.1[..n], radix.0))
  }

  lemma DigitRunOfPrefix(ds: string, rest: string, radix: nat)
    requires forall i :: 0 <= i < |ds| ==> IsDigitIn(ds[i], radix)
    requires rest == [] || !IsDigitIn(rest[0], radix)
    ensures DigitRun(ds + rest, radix) == |ds|
  {
    var s := ds + rest;
    assert forall i :: 0 <= i < |ds| ==> s[i] == ds[i];
    assert |ds| < |s| ==> s[|ds|] == rest[0];
  }

  lemma {:induction false} DecimalStringDigits(n: nat)
    ensures forall i :: 0 <= i < |DecimalString(n)| ==> '0' <= DecimalString(n)[i] <= '9'
    ensures DigitsValue(DecimalString(n), 10) == n
    ensures n > 0 ==> DecimalString(n)[0] != '0'
    ensures n >= 10 ==> |DecimalString(n)| >= 2
  {
    if n >= 10 {
      DecimalStringDigits(n / 10);
      var s := DecimalString(n);
      assert s[..|s| - 1] == DecimalString(n / 10);
      assert s[0] == DecimalString(n / 10)[0];
    }
  }

  /** A decimal rendering followed by a non-digit starts with a digit and has no hex prefix. */
  lemma DecimalHead(n: nat, rest: string)
    requires n == 0 && rest != [] ==> rest[0] != 'x' && rest[0] != 'X'
    ensures var s := DecimalString(n) + rest; '0' <= s[0] <= '9' && !HasHexPrefix(s)
  {
    var ds := DecimalString(n);
    var s := ds + rest;
    DecimalStringDigits(n);
    assert s[0] == ds[0];
    if n >= 10 {
      assert s[1] == ds[1];
    } else if n == 0 && rest != [] {
      assert s[1] == rest[0];
    }
  }

  /** The digits of a decimal rendering followed by a non-digit: no sign, no hex prefix, no whitespace. */
  lemma DecimalPrefixShape(n: nat, rest: string)
    requires n == 0 && rest != [] ==> rest[0] != 'x' && rest[0] != 'X'
    ensures var s := DecimalString(n) + rest;
      TrimStart(s) == s && SignOf(s) == (false, s) && RadixOf(s) == (10, s)
  {
    DecimalHead(n, rest);
    PlainNumberShape(DecimalString(n) + rest);
  }

  /** Text that starts with a digit and has no hex prefix: no whitespace nor sign to skip, radix 10. */
  lemma PlainNumberShape(s: string)
    requires s != [] && '0' <= s[0] <= '9' && !HasHexPrefix(s)
    ensures TrimStart(s) == s && SignOf(s) == (false, s) && RadixOf(s) == (10, s)
  {
    TrimStartNoop(s);
  }

  /** The digit run of a decimal rendering followed by a non-digit is the rendering. */
  lemma DecimalDigitRun(n: nat, rest: string)
    requires rest == [] || DigitValue(rest[0]) >= 10
    ensures var s := DecimalString(n) + rest;
      DigitRun(s, 10) == |DecimalString(n)| && s[..|DecimalString(n)|] == DecimalString(n)
  {
    var ds := DecimalString(n);
    DecimalStringDigits(n);
    DigitRunOfPrefix(ds, rest, 10);
    assert (ds + rest)[..|ds|] == ds;
  }

  /**
   * `parseInt` reads back what a decimal rendering wrote, whatever follows it that is not a
   * digit (and, after a lone `0`, not an `x`).
   */
  lemma ParseIntDecimal(n: nat, rest: string)
    requires rest == [] || DigitValue(rest[0]) >= 10
    requires n == 0 && rest != [] ==> rest[0] != 'x' && rest[0] != 'X'
    ensures ParseInt(DecimalString(n) + rest) == Some(n)
  {
    DecimalPrefixShape(n, rest);
    DecimalDigitRun(n, rest);
    DecimalStringDigits(n);
  }

  /** A leading minus sign negates. */
  lemma ParseIntNegative(n: nat, rest: string)
    requires rest == [] || DigitValue(rest[0]) >= 10
    requires n == 0 && rest != [] ==> rest[0] != 'x' && rest[0] != 'X'
    ensures ParseInt("-" + (DecimalString(n) + rest)) == Some(-(n as int))
  {
    var ds := DecimalString(n);
    var s := ds + rest;
    assert '0' <= s[0] <= '9' by {
      DecimalStringDigits(n);
      assert s[0] == ds[0];
    }
    ParseIntDecimal(n, rest);
    ParseIntMinus(s);
  }

  /** A minus sign in front of a number negates it. */
  lemma ParseIntMinus(s: string)
    requires s != [] && '0' <= s[0] <= '9'
    ensures ParseInt("-" + s) == if ParseInt(s).None? then None else Some(-ParseInt(s).value)
  {
    var neg := "-" + s;
    assert neg[0] == '-' && neg[1..] == s;
    TrimStartNoop(neg);
    TrimStartNoop(s);
  }

  /** `parseInt` of a string with no digit where the number should start is `NaN`. */
  lemma ParseIntNaN(s: string)
    requires TrimStart(s) == [] || (DigitValue(TrimStart(s)[0]) >= 10 && TrimStart(s)[0] != '-' && TrimStart(s)[0] != '+')
    ensures ParseInt(s) == None
  {
  }

  // ----- the query -----

  /**
   * `parseInt(searchParams.get(name) || fallback)`: an absent or empty parameter takes the
   * fallback, whose decimal form `parseInt` reads back (`ParseIntDecimal`).
   */
  function QueryInt(param: Option<string>, fallback: nat): (r: Option<int>)
    ensures param.None? || param.value == "" ==> r == Some(fallback)
    ensures param.Some? && param.value != "" ==> r == ParseInt(param.value)
  {
    if param.None? || param.value == "" then Some(fallback) else ParseInt(param.value)
  }

  /** The category filter: applied only for a given category other than `'all'`. */
  function CategoryFilter(param: Option<string>): (f: Option<string>)
    ensures f.Some? <==> param.Some? && param.value != "" && param.value != "all"
    ensures f.Some? ==> f == param
  {
    if param.Some? && param.value != "" && param.value != "all" then param else None
  }

  /**
   * An absent or empty parameter gives the default; a parameter holding a printed count gives
   * that count back.
   */
  lemma QueryIntRoundTrip(n: nat, fallback: nat)
    ensures QueryInt(None, fallback) == Some(fallback) && QueryInt(Some(""), fallback) == Some(fallback)
    ensures QueryInt(Some(DecimalString(n)), fallback) == Some(n)
  {
    ParseIntDecimal(n, []);
    assert DecimalString(n) + [] == DecimalString(n);
  }

  /** A named category other than `'all'` lists exactly the stored articles of that category. */
  lemma CategoryFilterSelects(docs: seq<ProcessedArticle>, c: string)
    requires c != "" && c != "all"
    ensures forall p :: p in Matching(docs, CategoryFilter(Some(c))) <==> p in docs && p.category.Name() == c
  {
  }

  predicate MatchesFilter(p: ProcessedArticle, filter: Option<string>) {
    filter.None? || p.category.Name() == filter.value
  }

  /** `find(query)`: the stored articles the filter admits, in stored order. */
  function Matching(docs: seq<ProcessedArticle>, filter: Option<string>): (r: seq<ProcessedArticle>)
    ensures |r| <= |docs|
    ensures forall p :: p in r <==> p in docs && MatchesFilter(p, filter)
    ensures filter.None? ==> r == docs
  {
    if docs == [] then []
    else (if MatchesFilter(docs[0], filter) then [docs[0]] else []) + Matching(docs[1..], filter)
  }

  function CreatedKey(p: ProcessedArticle): int {
    p.createdAt
  }

  /** `.sort({ createdAt: -1 }).skip(skip).limit(limit)` over the matching articles. */
  function PageOf(docs: seq<ProcessedArticle>, filter: Option<string>, skip: nat, limit: nat): seq<ProcessedArticle> {
    Take(Drop(SortDesc(Matching(docs, filter), CreatedKey), skip), limit)
  }

  /**
   * A page is the window `[skip, skip + limit)` of the matching articles sorted newest first:
   * sorted itself, all matching, and as long as the window is inside the matching set.
   */
  lemma PageSpec(docs: seq<ProcessedArticle>, filter: Option<string>, skip: nat, limit: nat)
    ensures var total := |Matching(docs, filter)|;
      |PageOf(docs, filter, skip, limit)| == if total <= skip then 0 else if total - skip < limit then total - skip else limit
    ensures forall i :: 0 <= i < |PageOf(docs, filter, skip, limit)| ==>
      PageOf(docs, filter, skip, limit)[i] in docs && MatchesFilter(PageOf(docs, filter, skip, limit)[i], filter)
    ensures SortedDesc(PageOf(docs, filter, skip, limit), CreatedKey)
  {
    var m := Matching(docs, filter);
    var r := PageOf(docs, filter, skip, limit);
    SortedWindow(m, CreatedKey, skip, limit);
    forall i | 0 <= i < |r| ensures r[i] in docs && MatchesFilter(r[i], filter) {
      assert r[i] in multiset(r);
      assert r[i] in m;
    }
  }

  // ----- pagination -----

  /** `skip = (page - 1) * limit`. */
  function SkipOf(page: nat, limit: nat): nat
    requires page >= 1
  {
    var before: nat := page - 1;
    before * limit
  }

  lemma MulMonotone(a: int, b: int, c: nat)
    requires a <= b
    ensures a * c <= b * c
  {
    var d: nat := b - a;
    assert b * c == a * c + d * c;
  }

  /** The next page's skip is this page's skip plus one page. */
  lemma SkipNext(page: nat, limit: nat)
    requires page >= 1
    ensures SkipOf(page + 1, limit) == SkipOf(page, limit) + limit
  {
    var before: nat := page - 1;
    assert page * limit == before * limit + limit;
  }

  /**
   * Consecutive pages are consecutive windows: the window one page further on (`SkipNext` shows
   * that page `p + 1` skips exactly one page more than page `p`) continues the sorted matches
   * where this page ends, and the two together are the double-size window.
   */
  lemma ConsecutivePages(docs: seq<ProcessedArticle>, filter: Option<string>, skip: nat, limit: nat)
    ensures PageOf(docs, filter, skip, limit) + PageOf(docs, filter, skip + limit, limit)
      == Take(Drop(SortDesc(Matching(docs, filter), CreatedKey), skip), 2 * limit)
  {
    ConsecutiveWindows(SortDesc(Matching(docs, filter), CreatedKey), skip, limit, limit);
  }

  /** `Math.ceil(n / d)`, in exact arithmetic. */
  function CeilDiv(n: nat, d: nat): nat
    requires d >= 1
  {
    (n + d - 1) / d
  }

  /** `CeilDiv(n, d)` is the least `r` with `r * d >= n`. */
  lemma CeilDivSpec(n: nat, d: nat)
    requires d >= 1
    ensures CeilDiv(n, d) * d >= n
    ensures CeilDiv(n, d) == 0 || (CeilDiv(n, d) - 1) * d < n
  {
    var r := CeilDiv(n, d);
    var q := n + d - 1;
    assert q == r * d + q % d && q % d < d;
  }

  /** Comparing a page number with the page count is comparing its window with the total. */
  lemma CeilDivCompare(page: nat, limit: nat, total: nat)
    requires page >= 1 && limit >= 1
    ensures page < CeilDiv(total, limit) <==> SkipOf(page + 1, limit) < total
    ensures page <= CeilDiv(total, limit) <==> SkipOf(page, limit) < total
    ensures CeilDiv(total, limit) == 0 <==> total == 0
  {
    var tp := CeilDiv(total, limit);
    CeilDivSpec(total, limit);
    assert SkipOf(page + 1, limit) == page * limit;
    var before: nat := page - 1;
    assert SkipOf(page, limit) == before * limit;
    if page < tp {
      MulMonotone(page, tp - 1, limit);
      MulMonotone(before, tp - 1, limit);
    } else {
      MulMonotone(tp, page, limit);
      if page > tp {
        MulMonotone(tp, before, limit);
      } else {
        MulMonotone(before, tp - 1, limit);
      }
    }
  }

  datatype Pagination = Pagination(currentPage: int, totalPages: nat, totalCount: nat, hasNextPage: bool, hasPrevPage: bool)

  function PaginationOf(page: int, limit: int, totalCount: nat): Pagination
    requires limit >= 1
  {
    var totalPages := CeilDiv(totalCount, limit);
    Pagination(page, totalPages, totalCount, page < totalPages, page > 1)
  }

  /**
   * There is a next page exactly when the articles go on past this page, that is when the next
   * page is non-empty; this page is non-empty exactly when `page <= totalPages`; there are no
   * pages exactly when nothing matches.
   */
  lemma PaginationSpec(docs: seq<ProcessedArticle>, filter: Option<string>, page: nat, limit: nat)
    requires limit >= 1 && page >= 1
    ensures var pg := PaginationOf(page, limit, |Matching(docs, filter)|);
      && (pg.hasNextPage <==> SkipOf(page + 1, limit) < |Matching(docs, filter)|)
      && (pg.hasNextPage <==> PageOf(docs, filter, SkipOf(page + 1, limit), limit) != [])
      && (PageOf(docs, filter, SkipOf(page, limit), limit) != [] <==> page <= pg.totalPages)
      && (pg.totalPages == 0 <==> |Matching(docs, filter)| == 0)
      && (pg.hasPrevPage <==> page >= 2)
  {
    var total := |Matching(docs, filter)|;
    CeilDivCompare(page, limit, total);
    PageSpec(docs, filter, SkipOf(page + 1, limit), limit);
    PageSpec(docs, filter, SkipOf(page, limit), limit);
  }

  // ----- the category histogram -----

  /** `aggregate([{ $group: { _id: '$category', count: { $sum: 1 } } }])`, reduced into an object. */
  function Histogram(docs: seq<ProcessedArticle>): map<string, nat> {
    if docs == [] then map[]
    else
      var h := Histogram(docs[..|docs| - 1]);
      var c := docs[|docs| - 1].category.Name();
      h[c := if c in h then h[c] + 1 else 1]
  }

  /** The number of stored articles of the named category. */
  function CountOf(docs: seq<ProcessedArticle>, name: string): nat {
    |Matching(docs, Some(name))|
  }

  lemma {:induction false} MatchingAppend(a: seq<ProcessedArticle>, b: seq<ProcessedArticle>, filter: Option<string>)
    ensures Matching(a + b, filter) == Matching(a, filter) + Matching(b, filter)
  {
    if a == [] {
      assert a + b == b;
    } else {
      assert (a + b)[1..] == a[1..] + b;
      MatchingAppend(a[1..], b, filter);
    }
  }

  lemma CountOfSnoc(init: seq<ProcessedArticle>, last: ProcessedArticle, name: string)
    ensures CountOf(init + [last], name) == CountOf(init, name) + (if last.category.Name() == name then 1 else 0)
  {
    MatchingAppend(init, [last], Some(name));
    assert Matching([last], Some(name)) == (if MatchesFilter(last, Some(name)) then [last] else []) + Matching([], Some(name));
  }

  /**
   * Each category present has its count as value, and a category appears exactly when some
   * stored article has it; the filter of the request plays no part.
   */
  lemma {:induction false} HistogramCounts(docs: seq<ProcessedArticle>)
    ensures forall c :: c in Histogram(docs) <==> CountOf(docs, c) > 0
    ensures forall c :: c in Histogram(docs) ==> Histogram(docs)[c] == CountOf(docs, c)
    decreases |docs|
  {
    if docs != [] {
      var init, last := docs[..|docs| - 1], docs[|docs| - 1];
      HistogramCounts(init);
      assert docs == init + [last];
      forall c ensures CountOf(docs, c) == CountOf(init, c) + (if last.category.Name() == c then 1 else 0) {
        CountOfSnoc(init, last, c);
      }
    }
  }

  /** A category has exactly one of the five names. */
  lemma OneName(c: Category)
    ensures (if c.Name() == "AI" then 1 else 0) + (if c.Name() == "Technology" then 1 else 0)
      + (if c.Name() == "Startups" then 1 else 0) + (if c.Name() == "Funding" then 1 else 0)
      + (if c.Name() == "Machine Learning" then 1 else 0) == 1
  {
    assert |"AI"| == 2 && |"Technology"| == 10 && |"Startups"| == 8 && |"Funding"| == 7 && |"Machine Learning"| == 16;
  }

  /** Every article is counted once: the five categories' counts add up to the collection size. */
  lemma {:induction false} HistogramTotal(docs: seq<ProcessedArticle>)
    ensures CountOf(docs, "AI") + CountOf(docs, "Technology") + CountOf(docs, "Startups")
      + CountOf(docs, "Funding") + CountOf(docs, "Machine Learning") == |docs|
    decreases |docs|
  {
    if docs != [] {
      var init, last := docs[..|docs| - 1], docs[|docs| - 1];
      HistogramTotal(init);
      assert docs == init + [last];
      CountOfSnoc(init, last, "AI");
      CountOfSnoc(init, last, "Technology");
      CountOfSnoc(init, last, "Startups");
      CountOfSnoc(init, last, "Funding");
      CountOfSnoc(init, last, "Machine Learning");
      OneName(last.category);
    }
  }

  /** The value the histogram object gives a category name: its count, or nothing (0) when absent. */
  function HistogramValue(h: map<string, nat>, name: string): nat {
    if name in h then h[name] else 0
  }

  /** The histogram's keys are category names. */
  lemma HistogramKeysAreNames(docs: seq<ProcessedArticle>)
    ensures forall c :: c in Histogram(docs) ==> c in {"AI", "Technology", "Startups", "Funding", "Machine Learning"}
  {
    HistogramCounts(docs);
    forall c | c in Histogram(docs) ensures c in {"AI", "Technology", "Startups", "Funding", "Machine Learning"} {
      var m := Matching(docs, Some(c));
      assert m[0] in m;
      assert c == m[0].category.Name();
    }
  }

  /** A category's value in the histogram is its count, absent ones giving 0. */
  lemma HistogramValueIsCount(docs: seq<ProcessedArticle>, name: string)
    ensures HistogramValue(Histogram(docs), name) == CountOf(docs, name)
  {
    HistogramCounts(docs);
  }

  /**
   * The histogram's keys are category names and its values add up to the collection size:
   * every stored article is counted once, under its own category.
   */
  lemma HistogramSumsToSize(docs: seq<ProcessedArticle>)
    ensures forall c :: c in Histogram(docs) ==> c in {"AI", "Technology", "Startups", "Funding", "Machine Learning"}
    ensures var h := Histogram(docs);
      HistogramValue(h, "AI") + HistogramValue(h, "Technology") + HistogramValue(h, "Startups")
        + HistogramValue(h, "Funding") + HistogramValue(h, "Machine Learning") == |docs|
  {
    HistogramKeysAreNames(docs);
    HistogramValueIsCount(docs, "AI");
    HistogramValueIsCount(docs, "Technology");
    HistogramValueIsCount(docs, "Startups");
    HistogramValueIsCount(docs, "Funding");
    HistogramValueIsCount(docs, "Machine Learning");
    HistogramTotal(docs);
  }

  // ----- the route -----

  datatype ArticlesResponse =
    | ArticlesPage(articles: seq<ProcessedArticle>, pagination: Pagination, categories: map<string, nat>)
    | ServerError(error: string)
    | OutsideModel

  /**
   * The route, for the stored `docs` and the request's parameters. `dbFault` is a failure of
   * `setupDatabase`. A `limit` or `page` that is `NaN` or below 1 is left outside the model.
   */
  function GetArticles(docs: seq<ProcessedArticle>, dbFault: Option<string>, category: Option<string>,
                       limitParam: Option<string>, pageParam: Option<string>): ArticlesResponse
  {
    if dbFault.Some? then ServerError(dbFault.value)
    else
      var limit := QueryInt(limitParam, 20);
      var page := QueryInt(pageParam, 1);
      if limit.None? || page.None? || limit.value < 1 || page.value < 1 then OutsideModel
      else
        var filter := CategoryFilter(category);
        ArticlesPage(PageOf(docs, filter, SkipOf(page.value, limit.value), limit.value),
                     PaginationOf(page.value, limit.value, |Matching(docs, filter)|),
                     Histogram(docs))
  }

  /**
   * Without parameters the route lists the newest 20 of all articles, page 1 of
   * `ceil(n / 20)`, with no previous page.
   */
  lemma GetArticlesDefaults(docs: seq<ProcessedArticle>)
    ensures GetArticles(docs, None, None, None, None)
      == ArticlesPage(Take(SortDesc(docs, CreatedKey), 20), PaginationOf(1, 20, |docs|), Histogram(docs))
    ensures !GetArticles(docs, None, None, None, None).pagination.hasPrevPage
  {
    assert SkipOf(1, 20) == 0;
    assert Drop(SortDesc(docs, CreatedKey), 0) == SortDesc(docs, CreatedKey);
  }

  /**
   * For a `limit` and `page` of at least 1, the route answers with one page, newest first and
   * all matching, no longer than `limit`; the pagination counts the matching articles and
   * announces a next page exactly when it is non-empty; the histogram covers the collection.
   */
  lemma GetArticlesPage(docs: seq<ProcessedArticle>, category: Option<string>, limitParam: Option<string>, pageParam: Option<string>)
    requires QueryInt(limitParam, 20).Some? && QueryInt(limitParam, 20).value >= 1
    requires QueryInt(pageParam, 1).Some? && QueryInt(pageParam, 1).value >= 1
    ensures var limit, page, filter := QueryInt(limitParam, 20).value, QueryInt(pageParam, 1).value, CategoryFilter(category);
      var r := GetArticles(docs, None, category, limitParam, pageParam);
      && r.ArticlesPage?
      && |r.articles| <= limit
      && SortedDesc(r.articles, CreatedKey)
      && (forall i :: 0 <= i < |r.articles| ==> r.articles[i] in docs && MatchesFilter(r.articles[i], filter))
      && r.pagination.totalCount == |Matching(docs, filter)|
      && (r.pagination.hasNextPage <==> PageOf(docs, filter, SkipOf(page + 1, limit), limit) != [])
      && r.categories == Histogram(docs)
  {
    var limit, page, filter := QueryInt(limitParam, 20).value, QueryInt(pageParam, 1).value, CategoryFilter(category);
    GetArticlesUnfolded(docs, category, limitParam, pageParam, limit, page);
    PageSpec(docs, filter, SkipOf(page, limit), limit);
    PaginationSpec(docs, filter, page, limit);
  }

  lemma GetArticlesUnfolded(docs: seq<ProcessedArticle>, category: Option<string>, limitParam: Option<string>, pageParam: Option<string>,
                            limit: nat, page: nat)
    requires QueryInt(limitParam, 20) == Some(limit as int) && limit >= 1
    requires QueryInt(pageParam, 1) == Some(page as int) && page >= 1
    ensures GetArticles(docs, None, category, limitParam, pageParam)
      == ArticlesPage(PageOf(docs, CategoryFilter(category), SkipOf(page, limit), limit),
                      PaginationOf(page, limit, |Matching(docs, CategoryFilter(category))|), Histogram(docs))
  {
  }

  /** The `'all'` category and an empty one list the same as no category at all. */
  lemma AllCategoryIsUnfiltered(docs: seq<ProcessedArticle>, dbFault: Option<string>, limitParam: Option<string>, pageParam: Option<string>)
    ensures GetArticles(docs, dbFault, Some("all"), limitParam, pageParam) == GetArticles(docs, dbFault, None, limitParam, pageParam)
    ensures GetArticles(docs, dbFault, Some(""), limitParam, pageParam) == GetArticles(docs, dbFault, None, limitParam, pageParam)
  {
  }
}
