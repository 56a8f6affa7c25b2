/**
 * Selecting the articles to process from what the news API returned: URL de-duplication,
 * the exclusion and required-field filter, the keyword categoriser, the publisher logo lookup
 * and the recency sort with its top-15 cut.
 */
module NewsFetcher {
  import opened Wrappers
  import opened Text
  import opened Sequences
  import opened Sorting

  datatype Source = Source(id: Option<string>, name: string)

  /**
   * An article as the news API delivers it. A missing optional string (`description`,
   * `author`, `content`, `source.name`) is "", which every use treats like `undefined`;
   * `publishedAt` is the instant `new Date(publishedAt)` denotes, in milliseconds.
   */
  datatype RawArticle = RawArticle(
    title: string,
    description: string,
    url: string,
    urlToImage: string,
    publishedAt: int,
    source: Source,
    author: string,
    content: string)

  datatype Category = AI | Technology | Startups | Funding | MachineLearning
  {
    /** The string stored for the category. */
    function Name(): string {
      match this
      case AI => "AI"
      case Technology => "Technology"
      case Startups => "Startups"
      case Funding => "Funding"
      case MachineLearning => "Machine Learning"
    }
  }

  // ----- filtering -----

  const ExcludeKeywords: seq<string> :=
    ["politics", "political", "war", "military", "defense", "conflict", "election", "government", "policy"]

  /** Some keyword of the list is a substring of `text`. */
  predicate MentionsAny(text: string, keywords: seq<string>) {
    exists k :: k in keywords && Contains(text, k)
  }

  /** An exclusion keyword occurs in the lowercased title, description or content. */
  predicate ContainsExcludedKeyword(a: RawArticle) {
    MentionsAny(Lower(a.title), ExcludeKeywords)
    || MentionsAny(Lower(a.description), ExcludeKeywords)
    || MentionsAny(Lower(a.content), ExcludeKeywords)
  }

  predicate HasRequiredFields(a: RawArticle) {
    a.title != "" && a.url != "" && a.urlToImage != "" && a.source.name != ""
  }

  /** The test `filterArticles` applies to each article. */
  predicate Passes(a: RawArticle) {
    !ContainsExcludedKeyword(a) && HasRequiredFields(a)
  }

  /** `filterArticles`: the articles that pass, in their original order. */
  function FilterArticles(s: seq<RawArticle>): (r: seq<RawArticle>)
    ensures |r| <= |s|
    ensures forall i :: 0 <= i < |r| ==> Passes(r[i])
    ensures forall a :: a in r <==> a in s && Passes(a)
    ensures IsSubseq(r, s)
    decreases |s|
  {
    if s == [] then []
    else
      var rest := FilterArticles(s[1..]);
      assert s == [s[0]] + s[1..];
      if Passes(s[0]) then [s[0]] + rest else rest
  }

  /** Filtering keeps every passing copy of an article and drops every other one. */
  lemma {:induction false} FilterMultiset(s: seq<RawArticle>, a: RawArticle)
    ensures multiset(FilterArticles(s))[a] == if Passes(a) then multiset(s)[a] else 0
    decreases |s|
  {
    if s != [] {
      var rest := FilterArticles(s[1..]);
      FilterMultiset(s[1..], a);
      assert s == [s[0]] + s[1..];
      assert multiset(s) == multiset([s[0]]) + multiset(s[1..]);
      if Passes(s[0]) {
        assert multiset(FilterArticles(s)) == multiset([s[0]]) + multiset(rest);
      } else {
        assert FilterArticles(s) == rest;
      }
    }
  }

  lemma {:induction false} FilterIdempotent(s: seq<RawArticle>)
    ensures FilterArticles(FilterArticles(s)) == FilterArticles(s)
    decreases |s|
  {
    if s != [] {
      FilterIdempotent(s[1..]);
      if Passes(s[0]) {
        assert ([s[0]] + FilterArticles(s[1..]))[1..] == FilterArticles(s[1..]);
      }
    }
  }

  lemma {:induction false} FilterAppend(a: seq<RawArticle>, b: seq<RawArticle>)
    ensures FilterArticles(a + b) == FilterArticles(a) + FilterArticles(b)
    decreases |a|
  {
    if a == [] {
      assert a + b == b;
    } else {
      assert (a + b)[0] == a[0];
      assert (a + b)[1..] == a[1..] + b;
      FilterAppend(a[1..], b);
    }
  }

  /** Keywords are matched as substrings: "war" is found inside "software" and "award". */
  lemma WarInsideWords()
    ensures Contains("software", "war") && Contains("award", "war")
  {
    assert OccursAt("software", "war", 4);
    assert OccursAt("award", "war", 1);
  }

  /** So a title mentioning software, or an award, is dropped as if it were about war. */
  lemma SoftwareAndAwardDropped(a: RawArticle)
    requires Contains(Lower(a.title), "software") || Contains(Lower(a.title), "award")
    ensures !Passes(a)
  {
    WarInsideWords();
    if Contains(Lower(a.title), "software") {
      ContainsTransitive(Lower(a.title), "software", "war");
    } else {
      ContainsTransitive(Lower(a.title), "award", "war");
    }
    assert "war" in ExcludeKeywords;
  }

  // ----- categorising -----

  const AIKeywords: seq<string> :=
    ["ai", "artificial intelligence", "machine learning", "neural network", "deep learning",
     "gpt", "chatbot", "automation"]
  const MLKeywords: seq<string> :=
    ["machine learning", "ml model", "algorithm", "data science", "predictive", "training model"]
  const FundingKeywords: seq<string> :=
    ["funding", "investment", "series a", "series b", "series c", "venture capital", "raised",
     "valuation", "ipo", "acquisition"]
  const StartupKeywords: seq<string> :=
    ["startup", "unicorn", "founder", "co-founder", "launch", "new company", "entrepreneur",
     "incubator"]

  /** The text the categoriser searches: lowercased title, description and content, space-separated. */
  function CategoryText(a: RawArticle): string {
    Lower(a.title) + " " + Lower(a.description) + " " + Lower(a.content)
  }

  /** `categorizeArticle`: the first rule, in the order AI, ML, Funding, Startups, whose keywords occur. */
  function Categorize(a: RawArticle): Category {
    var text := CategoryText(a);
    if MentionsAny(text, AIKeywords) then AI
    else if MentionsAny(text, MLKeywords) then MachineLearning
    else if MentionsAny(text, FundingKeywords) then Funding
    else if MentionsAny(text, StartupKeywords) then Startups
    else Technology
  }

  /** The rules as a table, for the reference definition below. */
  const CategoryRules: seq<(Category, seq<string>)> :=
    [(AI, AIKeywords), (MachineLearning, MLKeywords), (Funding, FundingKeywords), (Startups, StartupKeywords)]

  /** The category of the first rule whose keyword list matches `text`; `Technology` when none does. */
  function FirstMatchingRule(rules: seq<(Category, seq<string>)>, text: string): (c: Category)
    ensures (forall i :: 0 <= i < |rules| ==> !MentionsAny(text, rules[i].1)) ==> c == Technology
    ensures c != Technology ==>
      (exists i :: 0 <= i < |rules| && rules[i].0 == c && MentionsAny(text, rules[i].1) &&
        (forall j :: 0 <= j < i ==> !MentionsAny(text, rules[j].1)))
    ensures (exists i :: 0 <= i < |rules| && MentionsAny(text, rules[i].1)) ==>
      (exists i :: 0 <= i < |rules| && rules[i].0 == c && MentionsAny(text, rules[i].1) &&
        (forall j :: 0 <= j < i ==> !MentionsAny(text, rules[j].1)))
  {
    if rules == [] then Technology
    else if MentionsAny(text, rules[0].1) then rules[0].0
    else FirstMatchingRule(rules[1..], text)
  }

  /** The categoriser is the first-match rule table. */
  lemma CategorizeIsFirstMatch(a: RawArticle)
    ensures Categorize(a) == FirstMatchingRule(CategoryRules, CategoryText(a))
  {
    var text := CategoryText(a);
    var r := CategoryRules;
    assert FirstMatchingRule(r[1..][1..][1..][1..], text) == Technology;
    assert FirstMatchingRule(r[1..][1..][1..], text) == if MentionsAny(text, StartupKeywords) then Startups else Technology;
    assert FirstMatchingRule(r[1..][1..], text) ==
      if MentionsAny(text, FundingKeywords) then Funding else FirstMatchingRule(r[1..][1..][1..], text);
    assert FirstMatchingRule(r[1..], text) ==
      if MentionsAny(text, MLKeywords) then MachineLearning else FirstMatchingRule(r[1..][1..], text);
  }

  /** `Technology` is returned exactly when no keyword of any rule occurs. */
  lemma TechnologyIffNoKeyword(a: RawArticle)
    ensures Categorize(a) == Technology <==>
      forall keywords :: keywords in [AIKeywords, MLKeywords, FundingKeywords, StartupKeywords] ==>
        !MentionsAny(CategoryText(a), keywords)
  {
  }

  /** `Machine Learning` is returned only when no AI keyword occurs. */
  lemma MachineLearningOnlyWithoutAI(a: RawArticle)
    requires Categorize(a) == MachineLearning
    ensures forall k :: k in AIKeywords ==> !Contains(CategoryText(a), k)
    ensures MentionsAny(CategoryText(a), MLKeywords)
  {
  }

  /** Any text containing "ai" anywhere (in "said", "again", "trained") is categorised AI. */
  lemma ContainingAiIsAI(a: RawArticle)
    requires Contains(CategoryText(a), "ai")
    ensures Categorize(a) == AI
  {
    assert "ai" in AIKeywords;
  }

  /**
   * Three keywords can never decide a category: "machine learning" of the ML rule is also an AI
   * keyword, and "training model" (ML) and "raised" (Funding) contain "ai".
   */
  lemma ShadowedKeywords(a: RawArticle)
    requires Contains(CategoryText(a), "machine learning") || Contains(CategoryText(a), "training model")
      || Contains(CategoryText(a), "raised")
    ensures Categorize(a) == AI
  {
    var text := CategoryText(a);
    assert "machine learning" in AIKeywords;
    if !Contains(text, "machine learning") {
      if Contains(text, "training model") {
        assert OccursAt("training model", "ai", 2);
        ContainsTransitive(text, "training model", "ai");
      } else {
        assert OccursAt("raised", "ai", 1);
        ContainsTransitive(text, "raised", "ai");
      }
      ContainingAiIsAI(a);
    }
  }

  // ----- publisher logo -----

  const LogoUrl := "https://" + "images.unsplash.com/photo-1611224923853-80b023f02d71?w=100&h=100&fit=crop"

  /** The publishers the logo table lists; each is mapped to `LogoUrl`. */
  const LogoPublishers: set<string> :=
    {"TechCrunch", "WIRED", "The Verge", "Ars Technica", "VentureBeat", "Engadget", "Mashable",
     "Recode", "Fast Company", "MIT Technology Review"}

  /** The properties every plain JavaScript object inherits from `Object.prototype`. */
  const ObjectPrototypeMembers: set<string> :=
    {"constructor", "hasOwnProperty", "isPrototypeOf", "propertyIsEnumerable", "toLocaleString",
     "toString", "valueOf", "__proto__", "__defineGetter__", "__defineSetter__",
     "__lookupGetter__", "__lookupSetter__"}

  /** What `logoMap[name] || default` can evaluate to: a string, or an inherited function or object. */
  datatype LogoValue = Url(url: string) | InheritedProperty(name: string)

  /**
   * `getPublisherLogo` as written: the lookup in an object literal finds the inherited members of
   * `Object.prototype`, which are truthy, so `||` does not fall back to the default URL for them.
   */
  function PublisherLogoAsWritten(name: string): LogoValue {
    if name in LogoPublishers then Url(LogoUrl)
    else if name in ObjectPrototypeMembers then InheritedProperty(name)
    else Url(LogoUrl)
  }

  /** A source named "constructor" gets `Object` itself as its logo, not a URL. */
  lemma PublisherLogoInheritedMember()
    ensures PublisherLogoAsWritten("constructor") == InheritedProperty("constructor")
    ensures !PublisherLogoAsWritten("constructor").Url?
  {
    assert "constructor" !in LogoPublishers;
  }

  /** The logo every publisher gets, listed or not, as the table and its default intend. */
  function PublisherLogo(name: string): (r: string)
    ensures r == LogoUrl && StartsWith(r, "https://")
  {
    assert LogoUrl[..8] == "https://";
    LogoUrl
  }

  /** The two agree on every name that is not an `Object.prototype` member. */
  lemma PublisherLogoAgrees(name: string)
    requires name !in ObjectPrototypeMembers
    ensures PublisherLogoAsWritten(name) == Url(PublisherLogo(name))
  {
  }

  // ----- de-duplication -----

  /** `self.findIndex(a => a.url === url)`. */
  function FirstIndexOfUrl(s: seq<RawArticle>, url: string): (i: int)
    ensures -1 <= i < |s|
    ensures i >= 0 ==> s[i].url == url
    ensures forall j :: 0 <= j < |s| && (i < 0 || j < i) ==> s[j].url != url
    decreases |s|
  {
    if s == [] then -1
    else if s[0].url == url then 0
    else
      var i := FirstIndexOfUrl(s[1..], url);
      if i < 0 then -1 else i + 1
  }

  /** The elements `self[k..]` that `filter((article, index, self) => index === self.findIndex(...))` keeps. */
  function DedupFrom(s: seq<RawArticle>, k: nat): seq<RawArticle>
    requires k <= |s|
    decreases |s| - k
  {
    if k == |s| then []
    else
      var rest := DedupFrom(s, k + 1);
      if FirstIndexOfUrl(s, s[k].url) == k then [s[k]] + rest else rest
  }

  /** Every kept article is the first one in `s` with its url, found at or after `k`. */
  lemma {:induction false} DedupFromFirst(s: seq<RawArticle>, k: nat)
    requires k <= |s|
    ensures forall i :: 0 <= i < |DedupFrom(s, k)| ==>
      k <= FirstIndexOfUrl(s, DedupFrom(s, k)[i].url) && s[FirstIndexOfUrl(s, DedupFrom(s, k)[i].url)] == DedupFrom(s, k)[i]
    decreases |s| - k
  {
    if k < |s| {
      var rest := DedupFrom(s, k + 1);
      DedupFromFirst(s, k + 1);
      if FirstIndexOfUrl(s, s[k].url) == k {
        var r := [s[k]] + rest;
        forall i | 0 <= i < |r|
          ensures k <= FirstIndexOfUrl(s, r[i].url) && s[FirstIndexOfUrl(s, r[i].url)] == r[i]
        {
          if i > 0 {
            assert r[i] == rest[i - 1];
          }
        }
      }
    }
  }

  /** The kept articles appear in the order of their first occurrences. */
  lemma {:induction false} DedupFromOrdered(s: seq<RawArticle>, k: nat)
    requires k <= |s|
    ensures forall i, j :: 0 <= i < j < |DedupFrom(s, k)| ==>
      FirstIndexOfUrl(s, DedupFrom(s, k)[i].url) < FirstIndexOfUrl(s, DedupFrom(s, k)[j].url)
    decreases |s| - k
  {
    if k < |s| {
      var rest := DedupFrom(s, k + 1);
      DedupFromOrdered(s, k + 1);
      DedupFromFirst(s, k + 1);
      if FirstIndexOfUrl(s, s[k].url) == k {
        var r := [s[k]] + rest;
        forall i, j | 0 <= i < j < |r|
          ensures FirstIndexOfUrl(s, r[i].url) < FirstIndexOfUrl(s, r[j].url)
        {
          assert r[j] == rest[j - 1];
          if i > 0 {
            assert r[i] == rest[i - 1];
          }
        }
      }
    }
  }

  /** The first article with any url of `s[k..]` whose first occurrence is at or after `k` is kept. */
  lemma {:induction false} DedupFromComplete(s: seq<RawArticle>, k: nat)
    requires k <= |s|
    ensures forall m :: k <= m < |s| && k <= FirstIndexOfUrl(s, s[m].url) ==> s[FirstIndexOfUrl(s, s[m].url)] in DedupFrom(s, k)
    decreases |s| - k
  {
    if k < |s| {
      DedupFromComplete(s, k + 1);
    }
  }

  /** The de-duplicated list: the first article with each url, in order. */
  function DedupByUrl(s: seq<RawArticle>): seq<RawArticle> {
    DedupFrom(s, 0)
  }

  function Urls(s: seq<RawArticle>): (r: seq<string>)
    ensures |r| == |s| && forall i :: 0 <= i < |s| ==> r[i] == s[i].url
  {
    seq(|s|, i requires 0 <= i < |s| => s[i].url)
  }

  predicate DistinctUrls(s: seq<RawArticle>) {
    forall i, j :: 0 <= i < j < |s| ==> s[i].url != s[j].url
  }

  /**
   * De-duplication keeps exactly the first occurrence of each url: the kept urls are pairwise
   * distinct, each kept article is the first one with its url, the first article with any input
   * url is kept, and order is kept.
   */
  lemma DedupSpec(s: seq<RawArticle>)
    ensures DistinctUrls(DedupByUrl(s))
    ensures forall i :: 0 <= i < |DedupByUrl(s)| ==>
      0 <= FirstIndexOfUrl(s, DedupByUrl(s)[i].url) && DedupByUrl(s)[i] == s[FirstIndexOfUrl(s, DedupByUrl(s)[i].url)]
    ensures forall m :: 0 <= m < |s| ==> s[FirstIndexOfUrl(s, s[m].url)] in DedupByUrl(s)
    ensures IsSubseq(DedupByUrl(s), s)
  {
    DedupFromFirst(s, 0);
    DedupFromOrdered(s, 0);
    DedupFromComplete(s, 0);
    DedupSubseq(s, 0);
    var r := DedupByUrl(s);
    forall i, j | 0 <= i < j < |r| ensures r[i].url != r[j].url {
      assert FirstIndexOfUrl(s, r[i].url) < FirstIndexOfUrl(s, r[j].url);
    }
  }

  /** No url is lost and none is invented. */
  lemma DedupKeepsUrls(s: seq<RawArticle>)
    ensures forall u :: u in Urls(s) <==> u in Urls(DedupByUrl(s))
  {
    var r := DedupByUrl(s);
    DedupSpec(s);
    forall u | u in Urls(s) ensures u in Urls(r) {
      var m :| 0 <= m < |s| && Urls(s)[m] == u;
      var f := FirstIndexOfUrl(s, s[m].url);
      assert s[f] in r;
      var i :| 0 <= i < |r| && r[i] == s[f];
      assert Urls(r)[i] == u;
    }
    forall u | u in Urls(r) ensures u in Urls(s) {
      var i :| 0 <= i < |r| && Urls(r)[i] == u;
      assert Urls(s)[FirstIndexOfUrl(s, r[i].url)] == u;
    }
  }

  lemma {:induction false} DedupSubseq(s: seq<RawArticle>, k: nat)
    requires k <= |s|
    ensures IsSubseq(DedupFrom(s, k), s[k..])
    decreases |s| - k
  {
    if k < |s| {
      DedupSubseq(s, k + 1);
      assert s[k..][1..] == s[k + 1..];
    }
  }

  // ----- the tail of fetchTopTechArticles -----

  function PublishedKey(a: RawArticle): int {
    a.publishedAt
  }

  /** The reference definition: de-duplicate, filter, sort by date (newest first, stably), keep 15. */
  function TopTechArticles(all: seq<RawArticle>): seq<RawArticle> {
    Take(SortDesc(FilterArticles(DedupByUrl(all)), PublishedKey), 15)
  }

  /**
   * `fetchTopTechArticles` once both fetches have completed: `sources` is the outcome of the
   * source query (its failure rejects `Promise.all` and is re-thrown), `byCategory` the
   * keyword queries' combined articles (that fetch catches its own errors).
   */
  method FetchTopTechArticles(sources: Result<seq<RawArticle>>, byCategory: seq<RawArticle>)
    returns (r: Result<seq<RawArticle>>)
    ensures sources.Err? ==> r == Err(sources.msg)
    ensures sources.Ok? ==> r == Ok(TopTechArticles(sources.value + byCategory))
  {
    if sources.Err? {
      return Err(sources.msg);
    }
    var all := sources.value + byCategory;
    var unique := DedupByUrl(all);
    var filtered := FilterArticles(unique);
    var sorted := new RawArticle[|filtered|](i requires 0 <= i < |filtered| => filtered[i]);
    assert sorted[..] == filtered;
    SortInPlace(sorted, PublishedKey);
    return Ok(Take(sorted[..], 15));
  }

  /**
   * What the selection promises: at most 15 articles, every one passing the filter, urls
   * pairwise distinct, newest first.
   */
  lemma TopTechProperties(all: seq<RawArticle>)
    ensures |TopTechArticles(all)| <= 15
    ensures forall i :: 0 <= i < |TopTechArticles(all)| ==> Passes(TopTechArticles(all)[i])
    ensures DistinctUrls(TopTechArticles(all))
    ensures SortedDesc(TopTechArticles(all), PublishedKey)
  {
    var filtered := FilterArticles(DedupByUrl(all));
    var sorted := SortDesc(filtered, PublishedKey);
    SortDescSpec(filtered, PublishedKey);
    DedupSpec(all);
    DistinctAfterPermutation(DedupByUrl(all), filtered, sorted);
    TakeOfSorted(filtered, sorted, 15);
  }

  /** No article that passed the filter but was cut is newer than one that was kept. */
  lemma TopTechAreNewest(all: seq<RawArticle>)
    ensures forall a, b :: a in FilterArticles(DedupByUrl(all)) && a !in TopTechArticles(all) && b in TopTechArticles(all) ==>
      a.publishedAt <= b.publishedAt
  {
    var filtered := FilterArticles(DedupByUrl(all));
    var top := Take(SortDesc(filtered, PublishedKey), 15);
    assert TopTechArticles(all) == top;
    TakeSortedIsTop(filtered, PublishedKey, 15);
    forall a, b | a in filtered && a !in top && b in top ensures a.publishedAt <= b.publishedAt {
      assert PublishedKey(a) <= PublishedKey(b);
    }
  }

  /** The first `n` of a descending, url-distinct permutation of `s` are members of `s`, descending and url-distinct. */
  lemma TakeOfSorted(s: seq<RawArticle>, sorted: seq<RawArticle>, n: nat)
    requires multiset(sorted) == multiset(s) && SortedDesc(sorted, PublishedKey) && DistinctUrls(sorted)
    ensures forall i :: 0 <= i < |Take(sorted, n)| ==> Take(sorted, n)[i] in s
    ensures DistinctUrls(Take(sorted, n)) && SortedDesc(Take(sorted, n), PublishedKey)
  {
    var r := Take(sorted, n);
    forall i | 0 <= i < |r| ensures r[i] in s {
      assert r[i] == sorted[i] && sorted[i] in multiset(s);
    }
  }

  /** Filtering a list with distinct urls and permuting the result keeps the urls distinct. */
  lemma DistinctAfterPermutation(unique: seq<RawArticle>, filtered: seq<RawArticle>, sorted: seq<RawArticle>)
    requires DistinctUrls(unique) && IsSubseq(filtered, unique) && multiset(sorted) == multiset(filtered)
    ensures DistinctUrls(sorted)
  {
    SubseqMultiset(filtered, unique);
    forall x ensures multiset(sorted)[x] <= 1 {
      if x in multiset(unique) {
        var p :| 0 <= p < |unique| && unique[p] == x;
        UniqueCountOne(unique, p);
      }
    }
    forall i, j | 0 <= i < j < |sorted| ensures sorted[i].url != sorted[j].url {
      var a, b := sorted[i], sorted[j];
      assert a in multiset(unique) && b in multiset(unique);
      var p :| 0 <= p < |unique| && unique[p] == a;
      var q :| 0 <= q < |unique| && unique[q] == b;
      assert a.url == b.url ==> p == q;
      CountTwo(sorted, i, j);
    }
  }

  /** Two positions holding the same value make that value occur at least twice. */
  lemma CountTwo<T>(s: seq<T>, i: int, j: int)
    requires 0 <= i < j < |s|
    ensures multiset(s)[s[i]] >= 1 + (if s[j] == s[i] then 1 else 0)
  {
    assert s == s[..i] + [s[i]] + s[i + 1..j] + [s[j]] + s[j + 1..];
  }

  /** In a url-distinct list every element occurs once. */
  lemma {:induction false} UniqueCountOne(unique: seq<RawArticle>, p: int)
    requires DistinctUrls(unique) && 0 <= p < |unique|
    ensures multiset(unique)[unique[p]] == 1
  {
    var a := unique[p];
    assert unique == unique[..p] + [a] + unique[p + 1..];
    var head := unique[..p];
    forall x | x in head ensures x != a {
      var k :| 0 <= k < |head| && head[k] == x;
      assert unique[k].url != unique[p].url;
    }
    var tail := unique[p + 1..];
    forall x | x in tail ensures x != a {
      var k :| 0 <= k < |tail| && tail[k] == x;
      assert unique[p + 1 + k].url != unique[p].url;
    }
    assert a !in multiset(unique[..p]);
    assert a !in multiset(unique[p + 1..]);
  }
}
