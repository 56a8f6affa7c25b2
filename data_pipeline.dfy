/**
 * The data pipeline: the quality score and the choice of the best articles, and the run that
 * clears the `articles` collection, fetches, selects, processes and saves. The collection is
 * an `ArticleStore`: the strict schema validator and the unique index on `sourceUrl` decide
 * which inserts succeed. A database failure is a parameter (`fails`, `fault`) of the call
 * that meets it.
 */
module DataPipeline {
  import opened Wrappers
  import opened Text
  import opened Sequences
  import opened Sorting
  import opened NewsFetcher
  import opened DatabaseSetup
  import opened AIProcessor

  // ----- selecting the best articles -----

  const TrustedSources: seq<string> := ["techcrunch", "wired", "the-verge", "ars-technica", "venturebeat"]
  const DayMs: int := 1000 * 60 * 60 * 24

  function ContentBonus(a: RawArticle): nat {
    if |a.content| > 500 then 10 else 0
  }

  function ImageBonus(a: RawArticle): nat {
    if Contains(a.urlToImage, "http") then 5 else 0
  }

  function AuthorBonus(a: RawArticle): nat {
    if a.author != "" then 3 else 0
  }

  /** `(Date.now() - publishedAt) / (1000 * 60 * 60 * 24) <= 30`, in exact arithmetic. */
  function RecencyBonus(a: RawArticle, now: int): nat {
    if (now - a.publishedAt) as real / DayMs as real <= 30.0 then 5 else 0
  }

  /** `source.id?.toLowerCase().includes(s)` for one of the trusted ids; no id, no bonus. */
  function SourceBonus(a: RawArticle): nat {
    match a.source.id
    case None => 0
    case Some(id) => if MentionsAny(Lower(id), TrustedSources) then 8 else 0
  }

  /** The additive quality score of `selectBestArticles`. */
  function QualityScore(a: RawArticle, now: int): (score: nat)
    ensures score <= 31
    ensures score == ContentBonus(a) + ImageBonus(a) + AuthorBonus(a) + RecencyBonus(a, now) + SourceBonus(a)
  {
    ContentBonus(a) + ImageBonus(a) + AuthorBonus(a) + RecencyBonus(a, now) + SourceBonus(a)
  }

  /** The day count is compared after a division; it is the same as comparing milliseconds with 30 days. */
  lemma RecencyBonusIff(a: RawArticle, now: int)
    ensures RecencyBonus(a, now) == 5 <==> now - a.publishedAt <= 30 * DayMs
    ensures RecencyBonus(a, now) == 0 <==> now - a.publishedAt > 30 * DayMs
  {
    var x := (now - a.publishedAt) as real;
    var d := DayMs as real;
    assert d > 0.0;
    assert x / d <= 30.0 <==> x <= 30.0 * d;
  }

  /** An article published in the future counts as recent. */
  lemma FuturePublicationIsRecent(a: RawArticle, now: int)
    requires a.publishedAt > now
    ensures RecencyBonus(a, now) == 5
  {
    RecencyBonusIff(a, now);
  }

  lemma SourceBonusIff(a: RawArticle)
    ensures SourceBonus(a) == 8 <==> a.source.id.Some? && exists s :: s in TrustedSources && Contains(Lower(a.source.id.value), s)
    ensures SourceBonus(a) == 0 <==> !(a.source.id.Some? && exists s :: s in TrustedSources && Contains(Lower(a.source.id.value), s))
  {
  }

  function ScoreOf(now: int): RawArticle -> int {
    a => QualityScore(a, now)
  }

  /** `selectBestArticles`: stably sorted by score, highest first, cut to 15. */
  function SelectBestArticles(articles: seq<RawArticle>, now: int): seq<RawArticle> {
    Take(SortDesc(articles, ScoreOf(now)), 15)
  }

  /**
   * The selection is exactly min(n, 15) of the input articles, by score non-increasing, and
   * equal scores keep their input order.
   */
  lemma SelectBestSpec(articles: seq<RawArticle>, now: int)
    ensures |SelectBestArticles(articles, now)| == if |articles| < 15 then |articles| else 15
    ensures multiset(SelectBestArticles(articles, now)) <= multiset(articles)
    ensures SortedDesc(SelectBestArticles(articles, now), ScoreOf(now))
    ensures forall k :: IsPrefix(WithKey(SelectBestArticles(articles, now), ScoreOf(now), k), WithKey(articles, ScoreOf(now), k))
  {
    var key := ScoreOf(now);
    var sorted := SortDesc(articles, key);
    SortDescSpec(articles, key);
    TakeSortedFromInput(articles, key, 15);
    forall k ensures IsPrefix(WithKey(Take(sorted, 15), key, k), WithKey(articles, key, k)) {
      TakeSortedStable(articles, key, 15, k);
    }
    var r := Take(sorted, 15);
    assert forall i :: 0 <= i < |r| ==> r[i] == sorted[i];
  }

  /** No article left out of the selection scores higher than one kept. */
  lemma SelectBestAreTop(articles: seq<RawArticle>, now: int)
    ensures forall a, b :: a in articles && a !in SelectBestArticles(articles, now) && b in SelectBestArticles(articles, now) ==>
      QualityScore(a, now) <= QualityScore(b, now)
  {
    var key := ScoreOf(now);
    var r := SelectBestArticles(articles, now);
    TakeSortedIsTop(articles, key, 15);
    forall a, b | a in articles && a !in r && b in r ensures QualityScore(a, now) <= QualityScore(b, now) {
      assert key(a) <= key(b);
    }
  }

  // ----- the articles collection -----

  predicate DistinctSourceUrls(docs: seq<ProcessedArticle>) {
    forall i, j :: 0 <= i < j < |docs| ==> docs[i].sourceUrl != docs[j].sourceUrl
  }

  predicate UrlStored(docs: seq<ProcessedArticle>, url: string) {
    exists i :: 0 <= i < |docs| && docs[i].sourceUrl == url
  }

  /** Whether `insertOne` succeeds: no failure, the validator accepts, and the unique index does. */
  predicate InsertAccepted(docs: seq<ProcessedArticle>, p: ProcessedArticle, fails: bool) {
    !fails && SchemaAccepts(p) && !UrlStored(docs, p.sourceUrl)
  }

  class ArticleStore {
    var docs: seq<ProcessedArticle>

    /** What the validator and the unique index maintain. */
    ghost predicate Valid()
      reads this
    {
      DistinctSourceUrls(docs) && forall i :: 0 <= i < |docs| ==> SchemaAccepts(docs[i])
    }

    constructor()
      ensures Valid() && docs == []
    {
      docs := [];
    }

    /** `findOne({ sourceUrl })` when it succeeds; `fails` when it throws. */
    method FindBySourceUrl(url: string, fails: bool) returns (found: Result<bool>)
      ensures fails ==> found.Err?
      ensures !fails ==> found == Ok(UrlStored(docs, url))
    {
      if fails {
        return Err("find failed");
      }
      found := Ok(exists i :: 0 <= i < |docs| && docs[i].sourceUrl == url);
    }

    /** `insertOne`: rejected on failure, by the validator and by the unique index. */
    method InsertOne(p: ProcessedArticle, fails: bool) returns (ok: bool)
      requires Valid()
      modifies this
      ensures Valid()
      ensures ok == InsertAccepted(old(docs), p, fails)
      ensures docs == if ok then old(docs) + [p] else old(docs)
    {
      ok := !fails && SchemaAccepts(p) && !(exists i :: 0 <= i < |docs| && docs[i].sourceUrl == p.sourceUrl);
      if ok {
        docs := docs + [p];
      }
    }

    /** `deleteMany({})`: the collection is emptied unless it fails with `fault`. */
    method DeleteAll(fault: Option<string>) returns (err: Option<string>)
      requires Valid()
      modifies this
      ensures Valid() && err == fault
      ensures docs == if fault.None? then [] else old(docs)
    {
      if fault.None? {
        docs := [];
      }
      return fault;
    }
  }

  // ----- saving -----

  /** The two database failures `saveArticle` can meet: the lookup and the insert. */
  datatype SaveFaults = SaveFaults(lookupFails: bool, insertFails: bool)

  /** The collection after one `saveArticle`. */
  function SaveStep(docs: seq<ProcessedArticle>, p: ProcessedArticle, f: SaveFaults): seq<ProcessedArticle> {
    if InsertAccepted(docs, p, f.insertFails) then docs + [p] else docs
  }

  /** The collection after saving `ps` in order, the `i`-th meeting the failures `faults(i)`. */
  function SaveAll(docs: seq<ProcessedArticle>, ps: seq<ProcessedArticle>, faults: nat -> SaveFaults): seq<ProcessedArticle>
    decreases |ps|
  {
    if ps == [] then docs
    else SaveStep(SaveAll(docs, ps[..|ps| - 1], faults), ps[|ps| - 1], faults(|ps| - 1))
  }

  /**
   * Saving keeps the collection valid with distinct `sourceUrl`s, only appends, and appends
   * only articles it was given, at most one per article.
   */
  lemma {:induction false} SaveAllSpec(docs: seq<ProcessedArticle>, ps: seq<ProcessedArticle>, faults: nat -> SaveFaults)
    requires DistinctSourceUrls(docs) && forall i :: 0 <= i < |docs| ==> SchemaAccepts(docs[i])
    ensures DistinctSourceUrls(SaveAll(docs, ps, faults))
    ensures forall i :: 0 <= i < |SaveAll(docs, ps, faults)| ==> SchemaAccepts(SaveAll(docs, ps, faults)[i])
    ensures IsPrefix(docs, SaveAll(docs, ps, faults))
    ensures |SaveAll(docs, ps, faults)| <= |docs| + |ps|
    ensures forall i :: |docs| <= i < |SaveAll(docs, ps, faults)| ==> SaveAll(docs, ps, faults)[i] in ps
    decreases |ps|
  {
    if ps != [] {
      var init := ps[..|ps| - 1];
      SaveAllSpec(docs, init, faults);
      var before := SaveAll(docs, init, faults);
      var p := ps[|ps| - 1];
      if InsertAccepted(before, p, faults(|ps| - 1).insertFails) {
        var after := before + [p];
        forall i, j | 0 <= i < j < |after| ensures after[i].sourceUrl != after[j].sourceUrl {
          if j < |before| {
            assert after[i] == before[i] && after[j] == before[j];
          } else {
            assert after[i] == before[i];
          }
        }
        forall i | |docs| <= i < |after| ensures after[i] in ps {
          if i < |before| {
            assert before[i] in init;
          }
        }
      } else {
        forall i | |docs| <= i < |before| ensures before[i] in ps {
          assert before[i] in init;
        }
      }
    }
  }

  /** Without failures, and with every article acceptable to the validator, every url ends up stored. */
  lemma {:induction false} SaveAllStoresEveryUrl(docs: seq<ProcessedArticle>, ps: seq<ProcessedArticle>, faults: nat -> SaveFaults)
    requires forall i :: 0 <= i < |ps| ==> !faults(i).insertFails && SchemaAccepts(ps[i])
    ensures forall i :: 0 <= i < |ps| ==> UrlStored(SaveAll(docs, ps, faults), ps[i].sourceUrl)
    decreases |ps|
  {
    if ps != [] {
      var n := |ps| - 1;
      SaveAllStoresEveryUrl(docs, ps[..n], faults);
      var before := SaveAll(docs, ps[..n], faults);
      var after := SaveAll(docs, ps, faults);
      assert IsPrefix(before, after) by {
        if InsertAccepted(before, ps[n], faults(n).insertFails) {
          assert after == before + [ps[n]];
        }
      }
      forall i | 0 <= i < |ps| ensures UrlStored(after, ps[i].sourceUrl) {
        if i < n {
          assert ps[i] == ps[..n][i];
          var k :| 0 <= k < |before| && before[k].sourceUrl == ps[i].sourceUrl;
          assert after[k] == before[k];
        } else if !UrlStored(before, ps[n].sourceUrl) {
          assert after[|before|] == ps[n];
        } else {
          var k :| 0 <= k < |before| && before[k].sourceUrl == ps[n].sourceUrl;
          assert after[k] == before[k];
        }
      }
    }
  }

  // ----- the pipeline -----

  /** `{ success, processedCount, savedCount, errors }`. */
  datatype PipelineResult = PipelineResult(success: bool, processedCount: nat, savedCount: nat, errors: seq<string>)

  const FailurePrefix := "Pipeline execution failed: "
  const NoArticlesMessage := "No articles fetched from News API"
  /** What reading `this.db.collection` throws before `initialize` has run. */
  const UninitializedMessage := "Cannot read properties of undefined (reading 'collection')"

  /** The caught failure: not a success, the counters as far as they got, one prefixed error. */
  function Failed(msg: string): (r: PipelineResult)
    ensures !r.success && r.processedCount == 0 && r.savedCount == 0
    ensures |r.errors| == 1 && StartsWith(r.errors[0], FailurePrefix)
  {
    assert (FailurePrefix + msg)[..|FailurePrefix|] == FailurePrefix;
    PipelineResult(false, 0, 0, [FailurePrefix + msg])
  }

  /** The outcomes of processing the selected articles, the `i`-th being `answers(i)`. */
  function Outcomes(n: nat, answers: nat -> Result<Answers>): (r: seq<Result<Answers>>)
    ensures |r| == n && forall i :: 0 <= i < n ==> r[i] == answers(i)
  {
    seq(n, i requires 0 <= i < n => answers(i))
  }

  /** The processed articles a run produces from the fetched ones. */
  function ProcessedOf(fetched: seq<RawArticle>, answers: nat -> Result<Answers>, now: int): seq<ProcessedArticle> {
    var selected := SelectBestArticles(fetched, now);
    Successful(selected, Outcomes(|selected|, answers))
  }

  class Pipeline {
    var db: ArticleStore?

    constructor()
      ensures db == null
    {
      db := null;
    }

    /** `initialize`: connect and keep the database handle. */
    method Initialize(store: ArticleStore)
      modifies this
      ensures db == store
    {
      db := store;
    }

    /** `articleExists`: whether an article with `url` is stored; a failed lookup counts as "no". */
    method ArticleExists(url: string, lookupFails: bool) returns (exists_: bool)
      ensures exists_ == (db != null && !lookupFails && UrlStored(db.docs, url))
    {
      if db == null {
        return false;
      }
      var found := db.FindBySourceUrl(url, lookupFails);
      exists_ := found.Ok? && found.value;
    }

    /**
     * `saveArticle`: never throws; `true` exactly when the article was inserted. A failed lookup
     * leads to an insert attempt, which the unique index still rejects for a stored url.
     */
    method SaveArticle(p: ProcessedArticle, f: SaveFaults) returns (saved: bool)
      requires db != null ==> db.Valid()
      modifies db
      ensures db == old(db)
      ensures db != null ==> db.Valid()
      ensures db == null ==> !saved
      ensures db != null ==> saved == InsertAccepted(old(db.docs), p, f.insertFails)
      ensures db != null ==> db.docs == SaveStep(old(db.docs), p, f)
    {
      var exists_ := ArticleExists(p.sourceUrl, f.lookupFails);
      if exists_ {
        return false;
      }
      if db == null {
        return false;
      }
      saved := db.InsertOne(p, f.insertFails);
    }

    /** `clearExistingArticles`: empties the collection, or re-throws the failure. */
    method ClearExistingArticles(fault: Option<string>) returns (err: Option<string>)
      requires db != null ==> db.Valid()
      modifies db
      ensures db == old(db)
      ensures db != null ==> db.Valid() && err == fault
      ensures db != null ==> db.docs == if fault.None? then [] else old(db.docs)
      ensures db == null ==> err == Some(UninitializedMessage)
    {
      if db == null {
        return Some(UninitializedMessage);
      }
      err := db.DeleteAll(fault);
    }

    /** The saving loop of `executePipeline`: saves `processed` in order and counts the successes. */
    method SaveProcessed(processed: seq<ProcessedArticle>, faults: nat -> SaveFaults) returns (savedCount: nat)
      requires db != null && db.Valid() && db.docs == []
      modifies db
      ensures db == old(db) && db.Valid()
      ensures db.docs == SaveAll([], processed, faults) && savedCount == |db.docs|
    {
      savedCount := 0;
      var i := 0;
      while i < |processed|
        invariant 0 <= i <= |processed|
        invariant db.Valid()
        invariant db.docs == SaveAll([], processed[..i], faults)
        invariant savedCount == |db.docs|
      {
        assert processed[..i + 1][..i] == processed[..i];
        var saved := SaveArticle(processed[i], faults(i));
        if saved {
          savedCount := savedCount + 1;
        }
        i := i + 1;
      }
      assert processed[..|processed|] == processed;
    }

    /**
     * `executePipeline`, with the outside world as parameters: `clearFault` for `deleteMany`,
     * `sources` and `byCategory` for the news fetches, `answers(i)` for processing the `i`-th
     * selected article, `faults(i)` for saving the `i`-th processed one, `now` for the clock.
     */
    method ExecutePipeline(clearFault: Option<string>, sources: Result<seq<RawArticle>>, byCategory: seq<RawArticle>,
                           answers: nat -> Result<Answers>, faults: nat -> SaveFaults, now: int)
      returns (res: PipelineResult)
      requires db != null ==> db.Valid()
      modifies db
      ensures db == old(db)
      ensures db != null ==> db.Valid()
      ensures db == null ==> res == Failed(UninitializedMessage)
      ensures db != null && clearFault.Some? ==> res == Failed(clearFault.value) && db.docs == old(db.docs)
      ensures db != null && clearFault.None? && sources.Err? ==> res == Failed(sources.msg) && db.docs == []
      ensures db != null && clearFault.None? && sources.Ok? && TopTechArticles(sources.value + byCategory) == [] ==>
        res == Failed(NoArticlesMessage) && db.docs == []
      ensures db != null && clearFault.None? && sources.Ok? && TopTechArticles(sources.value + byCategory) != [] ==>
        var processed := ProcessedOf(TopTechArticles(sources.value + byCategory), answers, now);
        && db.docs == SaveAll([], processed, faults)
        && res == PipelineResult(|db.docs| > 0, |processed|, |db.docs|, [])
    {
      var cleared := ClearExistingArticles(clearFault);
      if cleared.Some? {
        return Failed(cleared.value);
      }
      var fetched := FetchTopTechArticles(sources, byCategory);
      if fetched.Err? {
        return Failed(fetched.msg);
      }
      var raw := fetched.value;
      if |raw| == 0 {
        return Failed(NoArticlesMessage);
      }
      var selected := SelectBestArticles(raw, now);
      var processed, _ := ProcessArticles(selected, Outcomes(|selected|, answers));
      var savedCount := SaveProcessed(processed, faults);
      res := PipelineResult(savedCount > 0, |processed|, savedCount, []);
    }
  }

  /** On the non-fatal path the run saves at most what it processed, and succeeds iff it saved something. */
  lemma SavedAtMostProcessed(processed: seq<ProcessedArticle>, faults: nat -> SaveFaults)
    ensures |SaveAll([], processed, faults)| <= |processed|
    ensures DistinctSourceUrls(SaveAll([], processed, faults))
  {
    SaveAllSpec([], processed, faults);
  }
}
