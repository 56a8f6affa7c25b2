/**
 * The post-processing of the language model's answers (length clamps, newline clean-up, the
 * word-count rule of the detailed summary), the fallbacks when generation fails, the record
 * built for each article and the batch-of-3 processing of a list of articles. Each answer of
 * the model is a `Result<string>` parameter; `Err` stands for a rejected request.
 */
module AIProcessor {
  import opened Wrappers
  import opened Text
  import opened Sequences
  import opened NewsFetcher
  import opened DatabaseSetup

  // ----- clamping -----

  /** `s.length > max ? s.substring(0, max - 3) + '...' : s`. */
  function Clamp(s: string, max: nat): (r: string)
    requires max >= 3
    ensures |r| <= max
    ensures |s| <= max ==> r == s
    ensures |s| > max ==> |r| == max && r[..max - 3] == s[..max - 3] && r[max - 3..] == "..."
    ensures '\n' !in s ==> '\n' !in r
  {
    if |s| > max then
      var r := s[..max - 3] + "...";
      assert r[..max - 3] == s[..max - 3];
      assert forall i :: 0 <= i < max - 3 ==> r[i] == s[i];
      r
    else s
  }

  // ----- quick summary -----

  /** Newlines to spaces, trimmed: `summary.replace(/\n/g, ' ').trim()`. */
  function CleanQuick(summary: string): (r: string)
    ensures '\n' !in r
  {
    var spaced := ReplaceChar(summary, '\n', ' ');
    TrimMultiset(spaced);
    assert '\n' !in multiset(spaced);
    Trim(spaced)
  }

  /** `generateQuickSummary`: the cleaned answer, clamped to 500; on failure the description, else the title. */
  function QuickSummary(a: RawArticle, answer: Result<string>): (r: string)
    ensures answer.Ok? ==> |r| <= 500 && '\n' !in r
    ensures answer.Ok? && |CleanQuick(answer.value)| <= 500 ==> r == CleanQuick(answer.value)
    ensures answer.Ok? && |CleanQuick(answer.value)| > 500 ==>
      r == CleanQuick(answer.value)[..497] + "..."
    ensures answer.Err? ==> r == if a.description != "" then a.description else a.title
  {
    match answer
    case Ok(summary) => Clamp(CleanQuick(summary), 500)
    case Err(_) => if a.description != "" then a.description else a.title
  }

  // ----- detailed summary -----

  const DetailedPadding :=
    " This development represents a significant advancement in the field and has important implications for the industry and users alike."
  const DetailedFallback :=
    "This article discusses important developments in technology and their implications for the industry."

  /** `summary.replace(/\n\n+/g, '\n\n').trim()`. */
  function CleanDetailed(summary: string): string {
    Trim(CollapseBlankLines(summary))
  }

  /** The total of the sentences' word counts. */
  function WordsOf(sentences: seq<string>): nat {
    if sentences == [] then 0 else WordsOf(sentences[..|sentences| - 1]) + WordCount(sentences[|sentences| - 1])
  }

  /** The sentences, each followed by `". "`, run together: what the truncation loop builds. */
  function Terminated(sentences: seq<string>): string {
    if sentences == [] then "" else Terminated(sentences[..|sentences| - 1]) + sentences[|sentences| - 1] + ". "
  }

  /**
   * How many leading sentences the loop keeps, starting from `used` words: it stops at the
   * first sentence that would take the total over `budget`.
   */
  function GreedyCount(sentences: seq<string>, used: nat, budget: nat): (k: nat)
    ensures k <= |sentences|
  {
    if sentences == [] || used + WordCount(sentences[0]) > budget then 0
    else 1 + GreedyCount(sentences[1..], used + WordCount(sentences[0]), budget)
  }

  function Sentences(cleaned: string): seq<string> {
    SplitOn(cleaned, ". ")
  }

  /** The sentences the truncation keeps. */
  function KeptSentences(cleaned: string): (kept: seq<string>)
    ensures |kept| <= |Sentences(cleaned)| && kept == Sentences(cleaned)[..|kept|]
  {
    Sentences(cleaned)[..GreedyCount(Sentences(cleaned), 0, 500)]
  }

  /** The truncated detailed summary for a text of more than 600 words. */
  function Truncated(cleaned: string): string {
    Trim(Terminated(KeptSentences(cleaned)))
  }

  /** The word-count rule: pad below 400 words, truncate above 600, otherwise keep. */
  function FitToLength(cleaned: string): string {
    var words := WordCount(cleaned);
    if words < 400 then cleaned + DetailedPadding
    else if words > 600 then Truncated(cleaned)
    else cleaned
  }

  /** `generateDetailedSummary`. */
  function DetailedSummary(a: RawArticle, answer: Result<string>): (r: string) {
    match answer
    case Ok(summary) => FitToLength(CleanDetailed(summary))
    case Err(_) => if a.description != "" then a.description else DetailedFallback
  }

  /** Keeping sentence `i` extends the text, the word total and the kept count by that sentence. */
  lemma KeepStep(sentences: seq<string>, i: nat, used: nat)
    requires i < |sentences| && used + WordCount(sentences[i]) <= 500
    ensures Terminated(sentences[..i + 1]) == Terminated(sentences[..i]) + sentences[i] + ". "
    ensures WordsOf(sentences[..i + 1]) == WordsOf(sentences[..i]) + WordCount(sentences[i])
    ensures GreedyCount(sentences[i..], used, 500)
      == 1 + GreedyCount(sentences[i + 1..], used + WordCount(sentences[i]), 500)
  {
    assert sentences[..i + 1][..i] == sentences[..i];
    assert sentences[i..][1..] == sentences[i + 1..];
  }

  /** Where the loop stops, nothing more is kept. */
  lemma StopStep(sentences: seq<string>, i: nat, used: nat)
    requires i <= |sentences|
    requires i == |sentences| || used + WordCount(sentences[i]) > 500
    ensures GreedyCount(sentences[i..], used, 500) == 0
  {
    if i < |sentences| {
      assert sentences[i..][0] == sentences[i];
    }
  }

  /** The truncation loop of `generateDetailedSummary`, over the cleaned text. */
  method TruncateToWordBudget(cleaned: string) returns (r: string)
    ensures r == Truncated(cleaned)
  {
    var sentences := SplitOn(cleaned, ". ");
    var result := "";
    var currentWords := 0;
    var i := 0;
    while i < |sentences|
      invariant 0 <= i <= |sentences|
      invariant result == Terminated(sentences[..i])
      invariant currentWords == WordsOf(sentences[..i])
      invariant GreedyCount(sentences, 0, 500) == i + GreedyCount(sentences[i..], currentWords, 500)
    {
      var words := WordCount(sentences[i]);
      if currentWords + words <= 500 {
        KeepStep(sentences, i, currentWords);
        result := result + sentences[i] + ". ";
        currentWords := currentWords + words;
        i := i + 1;
      } else {
        break;
      }
    }
    StopStep(sentences, i, currentWords);
    assert KeptSentences(cleaned) == sentences[..i];
    r := Trim(result);
  }

  /** `generateDetailedSummary` with its truncation loop. */
  method GenerateDetailedSummary(a: RawArticle, answer: Result<string>) returns (r: string)
    ensures r == DetailedSummary(a, answer)
  {
    if answer.Err? {
      return if a.description != "" then a.description else DetailedFallback;
    }
    var cleaned := CleanDetailed(answer.value);
    var words := WordCount(cleaned);
    if words < 400 {
      r := cleaned + DetailedPadding;
    } else if words > 600 {
      r := TruncateToWordBudget(cleaned);
    } else {
      r := cleaned;
    }
  }

  lemma {:induction false} WordsOfAppend(a: seq<string>, b: seq<string>)
    ensures WordsOf(a + b) == WordsOf(a) + WordsOf(b)
    decreases |b|
  {
    if b != [] {
      var c := b[..|b| - 1];
      WordsOfAppend(a, c);
      assert (a + b)[..|a + b| - 1] == a + c;
    } else {
      assert a + b == a;
    }
  }

  /** Splitting at `". "` loses no word: the pieces' word counts add up to the text's. */
  lemma {:induction false} SentenceWordsSum(s: string)
    ensures WordsOf(Sentences(s)) == WordCount(s)
    decreases |s|
  {
    var i := IndexOf(s, ". ");
    if i < 0 {
      assert Sentences(s) == [s];
      assert WordsOf([s]) == WordsOf([]) + WordCount(s);
    } else {
      var pre, rest := s[..i], s[i + 2..];
      SentenceWordsSum(rest);
      assert Sentences(s) == [pre] + Sentences(rest);
      WordsOfAppend([pre], Sentences(rest));
      assert WordsOf([pre]) == WordsOf([]) + WordCount(pre);
      assert s[i..i + 2] == ". ";
      assert s == pre + ". " + rest;
      WordCountIsSpacesPlusOne(s);
      WordCountIsSpacesPlusOne(pre);
      WordCountIsSpacesPlusOne(rest);
      assert multiset(s) == multiset(pre) + multiset(". ") + multiset(rest);
    }
  }

  /** The kept sentences stay within the budget, counting the words already used. */
  lemma {:induction false} GreedyWithinBudget(sentences: seq<string>, used: nat, budget: nat)
    requires used <= budget
    ensures used + WordsOf(sentences[..GreedyCount(sentences, used, budget)]) <= budget
    decreases |sentences|
  {
    var k := GreedyCount(sentences, used, budget);
    if k > 0 {
      var w := WordCount(sentences[0]);
      GreedyWithinBudget(sentences[1..], used + w, budget);
      assert sentences[..k] == [sentences[0]] + sentences[1..][..k - 1];
      WordsOfAppend([sentences[0]], sentences[1..][..k - 1]);
      assert WordsOf([sentences[0]]) == WordsOf([]) + w;
    }
  }

  /** The loop stops only when the next sentence would go over the budget. */
  lemma {:induction false} GreedyMaximal(sentences: seq<string>, used: nat, budget: nat)
    requires GreedyCount(sentences, used, budget) < |sentences|
    ensures used + WordsOf(sentences[..GreedyCount(sentences, used, budget)])
      + WordCount(sentences[GreedyCount(sentences, used, budget)]) > budget
    decreases |sentences|
  {
    var k := GreedyCount(sentences, used, budget);
    if k > 0 {
      var w := WordCount(sentences[0]);
      GreedyMaximal(sentences[1..], used + w, budget);
      assert sentences[..k] == [sentences[0]] + sentences[1..][..k - 1];
      WordsOfAppend([sentences[0]], sentences[1..][..k - 1]);
      assert WordsOf([sentences[0]]) == WordsOf([]) + w;
    }
  }

  /** Everything before sentence `k`, each sentence followed by the separator, starts the joined text. */
  lemma {:induction false} TerminatedStartsJoin(parts: seq<string>, k: nat)
    requires k < |parts|
    ensures JoinWith(parts, ". ") == Terminated(parts[..k]) + JoinWith(parts[k..], ". ")
    decreases k
  {
    if k > 0 {
      TerminatedStartsJoin(parts, k - 1);
      assert parts[..k][..k - 1] == parts[..k - 1];
      assert parts[k - 1..][1..] == parts[k..];
    } else {
      assert parts[..0] == [];
      assert parts[0..] == parts;
    }
  }

  /**
   * Above 600 words the truncation always drops text: the kept sentences, each with its
   * `". "`, are a proper prefix of the cleaned text, within 500 words, and adding the next
   * sentence would exceed 500.
   */
  lemma TruncationProperties(cleaned: string)
    requires WordCount(cleaned) > 600
    ensures |KeptSentences(cleaned)| < |Sentences(cleaned)|
    ensures WordsOf(KeptSentences(cleaned)) <= 500
    ensures WordsOf(KeptSentences(cleaned)) + WordCount(Sentences(cleaned)[|KeptSentences(cleaned)|]) > 500
    ensures StartsWith(cleaned, Terminated(KeptSentences(cleaned)))
  {
    var ss := Sentences(cleaned);
    var k := GreedyCount(ss, 0, 500);
    GreedyWithinBudget(ss, 0, 500);
    SentenceWordsSum(cleaned);
    assert ss[..|ss|] == ss;
    GreedyMaximal(ss, 0, 500);
    SplitJoin(cleaned, ". ");
    TerminatedStartsJoin(ss, k);
  }

  /** A first sentence of more than 500 words leaves nothing: the detailed summary is empty. */
  lemma TruncationCanBeEmpty(cleaned: string)
    requires WordCount(Sentences(cleaned)[0]) > 500
    ensures Truncated(cleaned) == ""
  {
    assert KeptSentences(cleaned) == [];
  }

  /** Below 400 words the padding sentence is appended, so the summary grows. */
  lemma DetailedSummaryPadded(a: RawArticle, summary: string)
    requires WordCount(CleanDetailed(summary)) < 400
    ensures DetailedSummary(a, Ok(summary)) == CleanDetailed(summary) + DetailedPadding
    ensures |DetailedSummary(a, Ok(summary))| > |CleanDetailed(summary)|
  {
  }

  // ----- why it matters -----

  const WhyFallback :=
    "This development is significant for AI enthusiasts as it represents important progress in the field and has implications for future technological advancement."

  /** `whyItMatters.replace(/\n+/g, ' ').trim()`. */
  function CleanWhy(answer: string): (r: string)
    ensures '\n' !in r
  {
    var joined := ReplaceNewlineRuns(answer, 1, " ");
    ReplaceAllNewlineRuns(answer, " ");
    TrimMultiset(joined);
    assert '\n' !in multiset(joined);
    Trim(joined)
  }

  /** `generateWhyItMatters`: one paragraph of at most 1000 characters, or the fixed sentence. */
  function WhyItMatters(answer: Result<string>): (r: string)
    ensures |r| <= 1000
    ensures answer.Ok? ==> '\n' !in r
    ensures answer.Ok? && |CleanWhy(answer.value)| <= 1000 ==> r == CleanWhy(answer.value)
    ensures answer.Ok? && |CleanWhy(answer.value)| > 1000 ==> r == CleanWhy(answer.value)[..997] + "..."
    ensures answer.Err? ==> r == WhyFallback
  {
    match answer
    case Ok(s) => Clamp(CleanWhy(s), 1000)
    case Err(_) => WhyFallback
  }

  // ----- the processed record -----

  /** The three answers for one article and the instant its processing finished (`new Date()`). */
  datatype Answers = Answers(quick: Result<string>, detailed: Result<string>, why: Result<string>, at: int)

  datatype ProcessedArticle = ProcessedArticle(
    title: string,
    coverImage: string,
    publisherName: string,
    publisherLogo: string,
    authorName: string,
    datePosted: int,
    quickSummary: string,
    detailedSummary: string,
    whyItMatters: string,
    sourceUrl: string,
    category: Category,
    createdAt: int,
    updatedAt: int)

  /** `processArticle`. */
  function ProcessArticle(a: RawArticle, ans: Answers): (p: ProcessedArticle)
    ensures p.title == a.title && p.coverImage == a.urlToImage && p.publisherName == a.source.name
    ensures p.sourceUrl == a.url && p.datePosted == a.publishedAt
    ensures p.authorName == if a.author != "" then a.author else "Unknown Author"
    ensures p.category == Categorize(a) && p.publisherLogo == LogoUrl
    ensures |p.quickSummary| <= 500 || ans.quick.Err?
    ensures |p.whyItMatters| <= 1000
    ensures p.createdAt == p.updatedAt == ans.at
  {
    ProcessedArticle(
      a.title, a.urlToImage, a.source.name, PublisherLogo(a.source.name),
      if a.author != "" then a.author else "Unknown Author",
      a.publishedAt,
      QuickSummary(a, ans.quick), DetailedSummary(a, ans.detailed), WhyItMatters(ans.why),
      a.url, Categorize(a), ans.at, ans.at)
  }

  /**
   * The record's logo is what `getPublisherLogo` as written returns for every source name that is
   * not an `Object.prototype` member; for those members the code would store the inherited value.
   */
  lemma ProcessArticleLogoAsWritten(a: RawArticle, ans: Answers)
    requires a.source.name !in ObjectPrototypeMembers
    ensures PublisherLogoAsWritten(a.source.name) == Url(ProcessArticle(a, ans).publisherLogo)
  {
    PublisherLogoAgrees(a.source.name);
  }

  /** The document `insertOne` receives for a processed article. */
  function ArticleDocument(p: ProcessedArticle): (d: Document)
    ensures HasAll(d, ArticleRequired)
  {
    ArticleFields(p.title, p.coverImage, p.publisherName, p.publisherLogo, p.authorName, p.datePosted,
                  p.quickSummary, p.detailedSummary, p.whyItMatters, p.sourceUrl, p.category.Name(),
                  p.createdAt, p.updatedAt)
  }

  /**
   * What the `articles` validator asks of a processed article, field by field: the fields are
   * always present, the dates are dates and the category is in the enum, so what remains are
   * the length bounds and the three URL patterns.
   */
  predicate SchemaAccepts(p: ProcessedArticle) {
    && 1 <= |p.title| <= 500
    && HttpUrl(p.coverImage)
    && 1 <= |p.publisherName| <= 100
    && HttpUrl(p.publisherLogo)
    && 1 <= |p.authorName| <= 100
    && 10 <= |p.quickSummary| <= 500
    && 50 <= |p.detailedSummary| <= 2000
    && 50 <= |p.whyItMatters| <= 1000
    && HttpUrl(p.sourceUrl)
  }

  /** The validator, applied to the stored document, decides exactly `SchemaAccepts`. */
  lemma ProcessedArticleValidIff(p: ProcessedArticle)
    ensures ValidArticle(ArticleDocument(p)) <==> SchemaAccepts(p)
  {
    ArticleFieldsValidIff(p.title, p.coverImage, p.publisherName, p.publisherLogo, p.authorName, p.datePosted,
                          p.quickSummary, p.detailedSummary, p.whyItMatters, p.sourceUrl, p.category.Name(),
                          p.createdAt, p.updatedAt);
    assert p.category.Name() in CategoryEnum;
  }

  /** The fixed publisher logo always matches the URL pattern. */
  lemma ProcessedLogoMatches(p: ProcessedArticle)
    requires p.publisherLogo == LogoUrl
    ensures HttpUrl(p.publisherLogo)
  {
    assert LogoUrl[..8] == "https://";
  }

  /** The fixed "why it matters" sentence meets its schema bounds. */
  lemma WhyFallbackFits()
    ensures 50 <= |WhyItMatters(Err(""))| <= 1000
  {
  }

  /**
   * A detailed summary the truncation empties is below the schema's 50 characters, so such an
   * article cannot be stored.
   */
  lemma EmptyDetailedSummaryRejected(p: ProcessedArticle)
    requires p.detailedSummary == ""
    ensures !ValidArticle(ArticleDocument(p))
  {
    ProcessedArticleValidIff(p);
  }

  // ----- batches -----

  /** The articles whose processing succeeded, processed, in input order. */
  function Successful(articles: seq<RawArticle>, outcomes: seq<Result<Answers>>): (r: seq<ProcessedArticle>)
    requires |outcomes| == |articles|
    ensures |r| <= |articles|
    decreases |articles|
  {
    if articles == [] then []
    else
      var n := |articles| - 1;
      Successful(articles[..n], outcomes[..n])
        + (if outcomes[n].Ok? then [ProcessArticle(articles[n], outcomes[n].value)] else [])
  }

  function SourceUrls(ps: seq<ProcessedArticle>): (r: seq<string>)
    ensures |r| == |ps| && forall i :: 0 <= i < |ps| ==> r[i] == ps[i].sourceUrl
  {
    seq(|ps|, i requires 0 <= i < |ps| => ps[i].sourceUrl)
  }

  /** Nothing is reordered: the processed urls are a subsequence of the input urls. */
  lemma {:induction false} SuccessfulKeepsOrder(articles: seq<RawArticle>, outcomes: seq<Result<Answers>>)
    requires |outcomes| == |articles|
    ensures IsSubseqBack(SourceUrls(Successful(articles, outcomes)), Urls(articles))
    decreases |articles|
  {
    if articles != [] {
      var n := |articles| - 1;
      SuccessfulKeepsOrder(articles[..n], outcomes[..n]);
      assert Urls(articles[..n]) == Urls(articles)[..n];
      var before := SourceUrls(Successful(articles[..n], outcomes[..n]));
      if outcomes[n].Ok? {
        assert SourceUrls(Successful(articles, outcomes)) == before + [articles[n].url];
      } else {
        assert SourceUrls(Successful(articles, outcomes)) == before;
      }
    }
  }

  /**
   * `a` is a subsequence of `b`, stated from the back (every `Successful` step appends): the
   * last elements match, or `b`'s last is left out.
   */
  predicate IsSubseqBack<T(==)>(a: seq<T>, b: seq<T>)
    decreases |b|
  {
    a == [] || (b != [] && ((a[|a| - 1] == b[|b| - 1] && IsSubseqBack(a[..|a| - 1], b[..|b| - 1]))
      || IsSubseqBack(a, b[..|b| - 1])))
  }

  /** When every article succeeds, every one is in the output. */
  lemma {:induction false} SuccessfulAll(articles: seq<RawArticle>, outcomes: seq<Result<Answers>>)
    requires |outcomes| == |articles| && forall i :: 0 <= i < |outcomes| ==> outcomes[i].Ok?
    ensures |Successful(articles, outcomes)| == |articles|
    decreases |articles|
  {
    if articles != [] {
      SuccessfulAll(articles[..|articles| - 1], outcomes[..|articles| - 1]);
    }
  }

  /** How many pauses the batch loop makes for `n` articles: one between consecutive batches. */
  function Pauses(n: nat): nat {
    if n == 0 then 0 else (n + 2) / 3 - 1
  }

  /**
   * `processArticles`: batches of three, each run to completion before the next; the
   * successful results are pushed in batch order, and the loop pauses while another batch follows.
   */
  method ProcessArticles(articles: seq<RawArticle>, outcomes: seq<Result<Answers>>)
    returns (processed: seq<ProcessedArticle>, pauses: nat)
    requires |outcomes| == |articles|
    ensures processed == Successful(articles, outcomes)
    ensures pauses == Pauses(|articles|)
  {
    processed := [];
    pauses := 0;
    var n := |articles|;
    var i := 0;
    while i < n
      invariant i % 3 == 0 && 0 <= i && (i <= n || i - 3 < n)
      invariant processed == Successful(articles[..Min(i, n)], outcomes[..Min(i, n)])
      invariant pauses == if i == 0 then 0 else i / 3 - 1 + (if i < n then 1 else 0)
    {
      processed := ProcessBatch(articles, outcomes, i, Min(i + 3, n), processed);
      if i + 3 < n {
        pauses := pauses + 1;
      }
      i := i + 3;
    }
    assert articles[..n] == articles && outcomes[..n] == outcomes;
  }

  /** One batch, `articles[start..end]`: each fulfilled result is pushed, in the batch's order. */
  method ProcessBatch(articles: seq<RawArticle>, outcomes: seq<Result<Answers>>, start: nat, end: nat,
                      before: seq<ProcessedArticle>)
    returns (processed: seq<ProcessedArticle>)
    requires |outcomes| == |articles| && start <= end <= |articles|
    requires before == Successful(articles[..start], outcomes[..start])
    ensures processed == Successful(articles[..end], outcomes[..end])
  {
    processed := before;
    var j := start;
    while j < end
      invariant start <= j <= end
      invariant processed == Successful(articles[..j], outcomes[..j])
    {
      SuccessfulStep(articles, outcomes, j);
      if outcomes[j].Ok? {
        processed := processed + [ProcessArticle(articles[j], outcomes[j].value)];
      }
      j := j + 1;
    }
  }

  /** One more input extends the successful results by that input's result, if it succeeded. */
  lemma SuccessfulStep(articles: seq<RawArticle>, outcomes: seq<Result<Answers>>, j: nat)
    requires |outcomes| == |articles| && j < |articles|
    ensures Successful(articles[..j + 1], outcomes[..j + 1])
      == Successful(articles[..j], outcomes[..j])
        + (if outcomes[j].Ok? then [ProcessArticle(articles[j], outcomes[j].value)] else [])
  {
    assert articles[..j + 1][..j] == articles[..j];
    assert outcomes[..j + 1][..j] == outcomes[..j];
  }

  function Min(a: int, b: int): int {
    if a < b then a else b
  }
}
