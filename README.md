# AI news workshop: verified model of the article pipeline and its routes

This project models the deterministic core of a Next.js news application. It also proves
properties of that model. The application works in three stages:

- It fetches technology articles from a news API.
- It filters, deduplicates, categorises and ranks them.
- It has a language model write three texts per article: a quick summary, a detailed summary
  and a "why it matters" paragraph.

It stores the results in a MongoDB `articles` collection that has a strict `$jsonSchema`
validator and a unique index on `sourceUrl`. It serves them through two routes:

- `GET /api/articles` returns one page, with pagination fields and a category histogram.
- `POST /api/chat` answers a question about a stored article and appends the exchange to a
  chat session.

The news API, the language model, MongoDB and the clock are outside the model. Their results
come in as parameters:

- fetched article lists;
- `Result<string>` answers;
- failure flags for each database call;
- `now` in integer milliseconds.

Everything the code computes from those inputs is modelled, except as listed under "## Left out".

Modules, one per source file plus shared helpers:

- `Wrappers`: `Option` and `Result`.
- `Text`: the JavaScript string operations the code uses, on `seq<char>`. They are `trim`
  (with the ECMAScript whitespace set), `toLowerCase` (ASCII), `includes`, `split`, `join`,
  `replace` with `\n`, `\n\n+` and `\n+`, and decimal printing.
- `Sequences`: `slice`, `skip`/`limit`, prefixes and subsequences.
- `Sorting`: a stable descending sort by an integer key. `Array.prototype.sort` is stable, so
  any stable sort gives the same result. It is written as a function, and as an in-place
  insertion sort on an `array` proved equal to it.
- `NewsFetcher` (`src/lib/news-fetcher.ts`): the filter, categoriser, logo lookup and URL
  deduplication, plus the tail of `fetchTopTechArticles`: combine, deduplicate, filter, sort
  in place, cut to 15.
- `DatabaseSetup` (`src/lib/database-setup.ts`): the two validators as predicates over a
  BSON-like `Value`, and the sample documents of `src/app/api/test-validation/route.ts`.
- `AIProcessor` (`src/lib/ai-processor.ts`):
  - the post-processing of the three generated texts and their fallbacks;
  - the processed record;
  - the batches of three in `processArticles`.
- `DataPipeline` (`src/lib/data-pipeline.ts`):
  - the quality score and `selectBestArticles`;
  - the `articles` collection as the class `ArticleStore`;
  - the class `Pipeline`, with `initialize`, `articleExists`, `saveArticle`,
    `clearExistingArticles` and `executePipeline`.
- `ArticlesRoute` (`src/app/api/articles/route.ts`): `parseInt`, query defaults, the category
  filter, sort/skip/limit, pagination and the histogram.
- `ChatRoute` (`src/app/api/chat/route.ts`): request checks, the article lookup, the session
  id default, and the two-message upsert on the class `ChatStore`.

Two defects of the code are recorded under Findings. For each, the model states the code as
written in one member and uses the corrected behaviour everywhere else:

- The chat route stores `articleId` as a plain string. The validator that
  `createChatsCollection` installs demands an ObjectId, so it rejects every chat document the
  route writes, and the route swallows the failure: as written, no chat is ever stored.
  `ChatStore` models the corrected document. Its `validated` flag says whether the validator is
  installed.
- `getPublisherLogo` as written returns an inherited `Object.prototype` member for a name such
  as "constructor". `ProcessArticle` uses the corrected lookup, which gives the fixed URL for
  every name.

Where the code and its surrounding description disagree, the model follows the code:

- The detailed summary has no character bound of its own, while the schema demands 50 to 2000
  characters. The model keeps that gap. `EmptyDetailedSummaryRejected` shows that an article
  whose truncation empties the summary cannot be stored.

## Model

| member | source | states |
|---|---|---|
| Text.LeadingSpaces | src/lib/ai-processor.ts:13 | the index where the leading whitespace run ends: every earlier character is whitespace, and the one there (if any) is not |
| Text.TrailingStart | src/lib/ai-processor.ts:13 | the index where the trailing whitespace run starts: every later character is whitespace, and the one before (if any) is not |
| Text.TrimStart | src/lib/ai-processor.ts:30 | the result is no longer than the input and does not start with whitespace |
| Text.TrimEnd | src/lib/ai-processor.ts:48 | the result is no longer than the input and does not end with whitespace |
| Text.TrimSpec | src/lib/ai-processor.ts:13 | `trim` returns the slice between the leading and trailing whitespace runs; everything cut away is whitespace, and the result neither starts nor ends with whitespace |
| Text.TrimIsBothEnds | src/lib/ai-processor.ts:48 | trimming both ends equals trimming the start, then the end |
| Text.TrimIdempotent | src/lib/ai-processor.ts:67 | trimming twice equals trimming once |
| Text.TrimMultiset | src/lib/ai-processor.ts:13 | trimming only removes characters |
| Text.Trim | src/lib/ai-processor.ts:13 | definition of `trim`: the slice between the leading and the trailing whitespace runs (its properties are the `Trim…` lemmas) |
| Text.LowerSpec | src/lib/news-fetcher.ts:127-129 | `toLowerCase` changes exactly the capital letters, leaves no capital behind, and a second pass changes nothing |
| Text.ContainsTransitive | src/lib/news-fetcher.ts:132-136 | a substring of a substring is a substring (why "software" implies "war") |
| Text.ReplaceCharRemoves | src/lib/ai-processor.ts:13 | after the replacement the replaced character does not occur |
| Text.NewlineRun | src/lib/ai-processor.ts:30 | the length of the newline run at the front: all newlines, followed by a non-newline or the end |
| Text.ReplaceAllNewlineRuns | src/lib/ai-processor.ts:67 | replacing every run of one or more newlines (`/\n+/g`) leaves no newline |
| Text.CollapseNoTriple | src/lib/ai-processor.ts:30 | after `replace(/\n\n+/g, '\n\n')` no three consecutive newlines remain |
| Text.CollapseKeepsText | src/lib/ai-processor.ts:30 | the collapse changes only newlines: the non-newline characters are the same, in the same order |
| Text.CollapseHead | src/lib/ai-processor.ts:30 | the collapse keeps an empty text empty and keeps a non-newline first character |
| Text.CollapseBlankLines | src/lib/ai-processor.ts:30 | definition of `replace(/\n\n+/g, '\n\n')`: each run of two or more newlines becomes exactly two (properties in `CollapseNoTriple` and `CollapseKeepsText`) |
| Text.IndexOf | src/lib/ai-processor.ts:37 | the first occurrence of the separator, or -1 exactly when it does not occur |
| Text.SplitOn | src/lib/ai-processor.ts:37 | `split(sep)`: the pieces between successive first occurrences of the separator, at least one piece |
| Text.SplitJoin | src/lib/ai-processor.ts:37 | joining the pieces of `split(sep)` with `sep` gives back the text |
| Text.SplitPiecesFree | src/lib/ai-processor.ts:37 | no piece of `split(sep)` contains `sep` |
| Text.WordCountIsSpacesPlusOne | src/lib/ai-processor.ts:33 | `split(' ').length` is the number of spaces plus one |
| Text.DigitChar | src/app/api/chat/route.ts:45 | the decimal digit character of a digit value |
| Sequences.TakeDrop | src/app/api/articles/route.ts:25-26 | `slice(0, n)` and skipping n split a sequence: their concatenation is the sequence, the first part has at most n elements, the rest is empty exactly when the sequence has at most n |
| Sequences.ConsecutiveWindows | src/app/api/articles/route.ts:25-26 | two adjacent skip/limit windows make up the window of the summed limit |
| Sequences.SubseqMultiset | src/lib/news-fetcher.ts:126 | a subsequence has no element more often than its sequence |
| Sorting.InsertMultiset | src/lib/news-fetcher.ts:233-235 | inserting adds exactly that element |
| Sorting.SortDesc | src/lib/news-fetcher.ts:233-235 | the stable descending sort by an integer key, as repeated insertion (its properties are in `SortDescSpec`) |
| Sorting.InsertSorted | src/lib/news-fetcher.ts:233-235 | inserting into a descending sequence keeps it descending |
| Sorting.InsertWithKey | src/lib/data-pipeline.ts:88 | insertion puts a new element after every equal-key element already there (stability) |
| Sorting.SortDescSpec | src/lib/data-pipeline.ts:88 | the sort is descending by key, is a permutation, and keeps the input order of every group of equal keys |
| Sorting.InsertLast | src/lib/news-fetcher.ts:233-235 | one in-place insertion step: the sorted prefix extended by the next element, the rest untouched |
| Sorting.ShiftSmaller | src/lib/news-fetcher.ts:233-235 | the shifting loop moves exactly the smaller-keyed elements one place right and stops above the insertion point |
| Sorting.SortInPlace | src/lib/news-fetcher.ts:233 | the in-place sort leaves the array equal to the sort function applied to its old contents |
| Sorting.TakeSortedIsTop | src/lib/data-pipeline.ts:87-89 | no element cut away by the top-n slice has a higher key than one kept |
| Sorting.TakeSortedStable | src/lib/data-pipeline.ts:87-89 | within the top-n slice, equal keys appear in input order, as a prefix of their input group |
| Sorting.TakeSortedFromInput | src/lib/data-pipeline.ts:89 | the top-n slice takes only input elements, each at most as often as in the input |
| Sorting.SortedWindow | src/app/api/articles/route.ts:24-26 | a skip/limit window of the sorted sequence is sorted and drawn from the input |
| NewsFetcher.FilterArticles | src/lib/news-fetcher.ts:125-146 | keeps an article exactly when it has title, url, image and source name and mentions no excluded keyword; the result is a subsequence of the input |
| NewsFetcher.FilterMultiset | src/lib/news-fetcher.ts:126 | every passing article keeps all its copies and every failing one loses them all |
| NewsFetcher.FilterIdempotent | src/lib/news-fetcher.ts:126 | filtering twice equals filtering once |
| NewsFetcher.FilterAppend | src/lib/news-fetcher.ts:126 | filtering distributes over concatenation |
| NewsFetcher.WarInsideWords | src/lib/news-fetcher.ts:22-32 | "software" and "award" contain the excluded keyword "war" |
| NewsFetcher.SoftwareAndAwardDropped | src/lib/news-fetcher.ts:132-136 | an article whose lower-cased title contains "software" or "award" is filtered out |
| NewsFetcher.FirstMatchingRule | src/lib/news-fetcher.ts:155-188 | the category of the first rule with a keyword in the text, with every earlier rule unmatched, else Technology |
| NewsFetcher.Categorize | src/lib/news-fetcher.ts:149-189 | definition of `categorizeArticle`: the keyword tests in the order AI, Machine Learning, Funding, Startups on the lower-cased title, description and content, else Technology |
| NewsFetcher.CategorizeIsFirstMatch | src/lib/news-fetcher.ts:149-189 | `categorizeArticle` is the first-match rule over the ordered AI, Machine Learning, Funding and Startups keyword lists |
| NewsFetcher.TechnologyIffNoKeyword | src/lib/news-fetcher.ts:187-188 | the category is Technology exactly when no rule's keyword occurs |
| NewsFetcher.MachineLearningOnlyWithoutAI | src/lib/news-fetcher.ts:156-168 | Machine Learning is chosen only when no AI keyword occurs and some Machine Learning keyword does |
| NewsFetcher.ContainingAiIsAI | src/lib/news-fetcher.ts:156-161 | any text containing the substring "ai" is categorised AI |
| NewsFetcher.ShadowedKeywords | src/lib/news-fetcher.ts:156-166 | "machine learning" is an AI keyword, so such a text is always AI and never Machine Learning |
| NewsFetcher.PublisherLogoInheritedMember | src/lib/news-fetcher.ts:193-206 | as written, the lookup for "constructor" yields the inherited member, not a URL |
| NewsFetcher.PublisherLogoAsWritten | src/lib/news-fetcher.ts:193-206 | `getPublisherLogo` as written: an `Object.prototype` member name yields the inherited member, every other name the fixed URL |
| NewsFetcher.PublisherLogo | src/lib/news-fetcher.ts:192-207 | the same https logo URL for every source name |
| NewsFetcher.PublisherLogoAgrees | src/lib/news-fetcher.ts:193-206 | for every name that is not an `Object.prototype` member, the code as written returns that same URL |
| NewsFetcher.FirstIndexOfUrl | src/lib/news-fetcher.ts:223 | `findIndex` by url: the first index holding the url, or -1 when none does |
| NewsFetcher.DedupByUrl | src/lib/news-fetcher.ts:222-224 | definition of the `filter`/`findIndex` deduplication: keep an article when its index is the first index of its url (properties in `DedupSpec`) |
| NewsFetcher.DedupFromFirst | src/lib/news-fetcher.ts:222-224 | every kept article is the first occurrence of its url |
| NewsFetcher.DedupFromOrdered | src/lib/news-fetcher.ts:222-224 | kept articles appear in the order of their first occurrences |
| NewsFetcher.DedupFromComplete | src/lib/news-fetcher.ts:222-224 | the first occurrence of every url is kept |
| NewsFetcher.DedupSpec | src/lib/news-fetcher.ts:221-224 | the deduplicated urls are pairwise distinct, each kept article is its url's first occurrence, every first occurrence is kept, and the result is a subsequence of the input |
| NewsFetcher.DedupKeepsUrls | src/lib/news-fetcher.ts:222-224 | a url occurs in the deduplicated list exactly when it occurs in the input |
| NewsFetcher.DedupSubseq | src/lib/news-fetcher.ts:222 | the deduplicated list is a subsequence of the input |
| NewsFetcher.TopTechArticles | src/lib/news-fetcher.ts:221-238 | definition of the tail of `fetchTopTechArticles`: deduplicate, filter, sort newest first, keep 15 (properties in `TopTechProperties`) |
| NewsFetcher.FetchTopTechArticles | src/lib/news-fetcher.ts:210-244 | a failed source fetch is re-thrown; otherwise the combined, deduplicated, filtered list, sorted in place newest first and cut to 15 |
| NewsFetcher.TopTechProperties | src/lib/news-fetcher.ts:229-238 | at most 15 articles, all passing the filter, with pairwise distinct urls, newest first |
| NewsFetcher.TopTechAreNewest | src/lib/news-fetcher.ts:233-238 | no filtered unique article left out is newer than one returned |
| NewsFetcher.TakeOfSorted | src/lib/news-fetcher.ts:238 | the cut of a sorted permutation with distinct urls keeps input articles, distinct urls and the order |
| NewsFetcher.DistinctAfterPermutation | src/lib/news-fetcher.ts:229-235 | filtering and then sorting keeps urls distinct |
| DatabaseSetup.ArticleFieldsValidIff | src/lib/database-setup.ts:23-113 | a complete article document is valid exactly when its string bounds, three URL patterns and category enum hold |
| DatabaseSetup.ValidArticle | src/lib/database-setup.ts:23-113 | the `articles` `$jsonSchema`: the 13 required fields, their BSON types, length bounds, URL patterns and category enum |
| DatabaseSetup.ArticleFieldsLookup | src/lib/database-setup.ts:26-40 | each required field of the built document holds its value, with the BSON type the schema asks for |
| DatabaseSetup.ArticleFieldsComplete | src/lib/database-setup.ts:26-40 | the built document has all 13 required fields |
| DatabaseSetup.ValidChat | src/lib/database-setup.ts:170-235 | the `chats` `$jsonSchema`: the required fields, an ObjectId `articleId`, the session id and title bounds and the message documents |
| DatabaseSetup.SampleValidArticleAccepted | src/app/api/test-validation/route.ts:17-31 | the sample valid article satisfies the articles validator |
| DatabaseSetup.SampleSummaryLengths | src/app/api/test-validation/route.ts:18-26 | the sample texts meet their length bounds |
| DatabaseSetup.SampleInvalidArticleRejected | src/app/api/test-validation/route.ts:34-39 | the sample invalid article is rejected, being incomplete |
| DatabaseSetup.SampleValidChatAccepted | src/app/api/test-validation/route.ts:63-81 | the sample valid chat satisfies the chats validator |
| DatabaseSetup.SampleInvalidChatRejected | src/app/api/test-validation/route.ts:84-95 | the sample invalid chat is rejected on every count: short session id, string article id, incomplete message, missing fields |
| AIProcessor.Clamp | src/lib/ai-processor.ts:14 | at most `max` characters: unchanged when it fits, else the first `max - 3` characters plus "..."; adds no newline |
| AIProcessor.CleanQuick | src/lib/ai-processor.ts:13 | the cleaned quick summary has no newline |
| AIProcessor.QuickSummary | src/lib/ai-processor.ts:7-21 | on success at most 500 characters and newline-free, the cleaned answer if it fits, else 497 characters plus "..."; on failure the description, else the title |
| AIProcessor.GreedyCount | src/lib/ai-processor.ts:40-47 | the number of sentences the greedy loop keeps is at most the number of sentences |
| AIProcessor.KeptSentences | src/lib/ai-processor.ts:37-47 | the kept sentences are a prefix of the `". "` pieces |
| AIProcessor.KeepStep | src/lib/ai-processor.ts:41-43 | a sentence that fits is appended with ". " and its words are counted |
| AIProcessor.StopStep | src/lib/ai-processor.ts:44-45 | after the first sentence that does not fit, nothing more is kept |
| AIProcessor.Truncated | src/lib/ai-processor.ts:36-48 | definition of the truncation above 600 words: the greedy prefix of `". "` sentences within 500 words, each followed by ". ", trimmed |
| AIProcessor.TruncateToWordBudget | src/lib/ai-processor.ts:37-48 | the loop's trimmed result equals the greedy truncation of the cleaned text |
| AIProcessor.DetailedSummary | src/lib/ai-processor.ts:24-58 | definition of `generateDetailedSummary`: pad below 400 words, truncate above 600, else the cleaned text; the description or a fixed text on failure |
| AIProcessor.GenerateDetailedSummary | src/lib/ai-processor.ts:24-58 | the post-processing equals the detailed-summary rule: pad below 400 words, truncate above 600, else unchanged; the description or a fixed text on failure |
| AIProcessor.WordsOfAppend | src/lib/ai-processor.ts:43 | word counts add over concatenated sentence lists |
| AIProcessor.SentenceWordsSum | src/lib/ai-processor.ts:37-43 | the word counts of the `". "` pieces add up to the text's word count |
| AIProcessor.GreedyWithinBudget | src/lib/ai-processor.ts:41 | the kept sentences total at most 500 words |
| AIProcessor.GreedyMaximal | src/lib/ai-processor.ts:41-45 | the first dropped sentence would exceed the budget |
| AIProcessor.TruncationProperties | src/lib/ai-processor.ts:36-48 | above 600 words some sentence is dropped: the kept ones total at most 500 words, the next would exceed 500, and the untrimmed result is a prefix of the text |
| AIProcessor.TruncationCanBeEmpty | src/lib/ai-processor.ts:40-48 | when the first sentence alone exceeds 500 words the detailed summary is empty |
| AIProcessor.DetailedSummaryPadded | src/lib/ai-processor.ts:34-35 | below 400 words the fixed sentence is appended after a space |
| AIProcessor.CleanWhy | src/lib/ai-processor.ts:67 | the cleaned "why it matters" text has no newline |
| AIProcessor.WhyItMatters | src/lib/ai-processor.ts:61-75 | at most 1000 characters: the cleaned answer if it fits, else 997 characters plus "..."; newline-free on success, a fixed sentence on failure |
| AIProcessor.ProcessArticle | src/lib/ai-processor.ts:78-119 | the direct field mapping, "Unknown Author" for a missing author, the categoriser's category, the fixed logo, the summary bounds, and creation equal to update time |
| AIProcessor.ProcessArticleLogoAsWritten | src/lib/ai-processor.ts:93-100 | for every source name that is not an `Object.prototype` member, the record's logo is what `getPublisherLogo` as written returns |
| AIProcessor.ArticleDocument | src/lib/ai-processor.ts:96-110 | the stored document of a processed article has all required fields |
| AIProcessor.SchemaAccepts | src/lib/database-setup.ts:41-109 | the `articles` validator's demands on a processed article: the length bounds and the three URL patterns |
| AIProcessor.ProcessedArticleValidIff | src/lib/database-setup.ts:41-109 | the validator accepts a processed article exactly when its length bounds and url patterns hold |
| AIProcessor.ProcessedLogoMatches | src/lib/database-setup.ts:59-63 | the fixed publisher logo meets `^https?://` |
| AIProcessor.WhyFallbackFits | src/lib/ai-processor.ts:73 | the fallback "why it matters" meets the schema's 50 to 1000 characters |
| AIProcessor.EmptyDetailedSummaryRejected | src/lib/database-setup.ts:80-85 | an empty detailed summary makes the article unstorable |
| AIProcessor.Successful | src/lib/ai-processor.ts:136-142 | there are never more results than inputs |
| AIProcessor.SuccessfulKeepsOrder | src/lib/ai-processor.ts:136-142 | the processed urls are a subsequence of the input urls |
| AIProcessor.SuccessfulAll | src/lib/ai-processor.ts:136-139 | when every article succeeds, every one is in the output |
| AIProcessor.SuccessfulStep | src/lib/ai-processor.ts:137-138 | one more input appends that input's result if it was fulfilled |
| AIProcessor.ProcessArticles | src/lib/ai-processor.ts:122-152 | batches of three give the fulfilled results in input order, with one pause between consecutive batches, ceil(n/3) - 1 in all |
| AIProcessor.ProcessBatch | src/lib/ai-processor.ts:130-142 | one batch pushes each of its fulfilled results in order |
| AIProcessor.Pauses | src/lib/ai-processor.ts:145-147 | the number of pauses: one after each batch but the last, none for an empty input |
| DataPipeline.QualityScore | src/lib/data-pipeline.ts:61-83 | the score is the sum of the five bonuses and lies in 0..31 |
| DataPipeline.ContentBonus | src/lib/data-pipeline.ts:64-65 | 10 points for content longer than 500 characters |
| DataPipeline.ImageBonus | src/lib/data-pipeline.ts:67-68 | 5 points for an image url containing "http" |
| DataPipeline.AuthorBonus | src/lib/data-pipeline.ts:70-71 | 3 points for a non-empty author |
| DataPipeline.RecencyBonus | src/lib/data-pipeline.ts:73-75 | 5 points for a publication at most 30 days before `now` |
| DataPipeline.SourceBonus | src/lib/data-pipeline.ts:77-81 | 8 points for a lower-cased source id containing a trusted id; none without an id |
| DataPipeline.RecencyBonusIff | src/lib/data-pipeline.ts:74-75 | the recency bonus applies exactly when publication is at most 30 days before `now` |
| DataPipeline.FuturePublicationIsRecent | src/lib/data-pipeline.ts:74-75 | a publication date after `now` always gets the recency bonus |
| DataPipeline.SourceBonusIff | src/lib/data-pipeline.ts:78-81 | the source bonus applies exactly when the lower-cased source id contains a trusted id; a null id gets none |
| DataPipeline.SelectBestArticles | src/lib/data-pipeline.ts:59-91 | definition of `selectBestArticles`: the stable sort by score, highest first, cut to 15 (properties in `SelectBestSpec`) |
| DataPipeline.SelectBestSpec | src/lib/data-pipeline.ts:86-90 | exactly min(n, 15) input articles, by score non-increasing, equal scores in input order |
| DataPipeline.SelectBestAreTop | src/lib/data-pipeline.ts:86-90 | no article left out scores higher than one selected |
| DataPipeline.ArticleStore.constructor | src/lib/database-setup.ts:125-129 | a fresh collection is empty and valid |
| DataPipeline.InsertAccepted | src/lib/data-pipeline.ts:37 | `insertOne` succeeds when it does not fail, the validator accepts the document and the url is not stored yet |
| DataPipeline.ArticleStore.FindBySourceUrl | src/lib/data-pipeline.ts:18 | `findOne({ sourceUrl })` reports whether that url is stored, or fails |
| DataPipeline.ArticleStore.InsertOne | src/lib/database-setup.ts:145 | the insert succeeds exactly when it does not fail, the schema accepts the document and the url is new, and then appends it |
| DataPipeline.ArticleStore.DeleteAll | src/lib/data-pipeline.ts:50 | `deleteMany({})` empties the collection unless it fails |
| DataPipeline.Failed | src/lib/data-pipeline.ts:155-165 | a failed run reports no success, zero counts and exactly one error with the "Pipeline execution failed: " prefix |
| DataPipeline.SaveStep | src/lib/data-pipeline.ts:27-45 | one `saveArticle` on the stored list: the article is appended exactly when its insert is accepted, else the list is unchanged; a failed lookup counts as absent, and the unique index still refuses a stored url |
| DataPipeline.SaveAll | src/lib/data-pipeline.ts:133-144 | the saving loop as a fold of `SaveStep` over the processed articles |
| DataPipeline.SaveAllSpec | src/lib/data-pipeline.ts:133-144 | saving keeps stored urls distinct and documents valid, only appends, and appends only given articles, at most one each |
| DataPipeline.SaveAllStoresEveryUrl | src/lib/data-pipeline.ts:27-38 | when no insert fails and every article is schema-valid, every article's url ends up stored |
| DataPipeline.SavedAtMostProcessed | src/lib/data-pipeline.ts:128-153 | on the non-fatal path at most the processed articles are saved, with distinct urls |
| DataPipeline.Pipeline.constructor | src/lib/data-pipeline.ts:7 | a new pipeline has no database handle |
| DataPipeline.Pipeline.Initialize | src/lib/data-pipeline.ts:9-13 | `initialize` keeps the handle |
| DataPipeline.Pipeline.ArticleExists | src/lib/data-pipeline.ts:16-24 | true exactly when the lookup succeeds and finds the url; a failed lookup counts as absent |
| DataPipeline.Pipeline.SaveArticle | src/lib/data-pipeline.ts:27-45 | never throws; true exactly when the article was inserted, which needs a new url, a schema-valid document and no insert failure; otherwise the store is unchanged |
| DataPipeline.Pipeline.ClearExistingArticles | src/lib/data-pipeline.ts:48-56 | empties the collection or returns the failure to re-throw |
| DataPipeline.Pipeline.SaveProcessed | src/lib/data-pipeline.ts:133-144 | the saving loop leaves exactly the saved articles stored, and counts them |
| DataPipeline.Pipeline.ExecutePipeline | src/lib/data-pipeline.ts:94-167 | each failure (clearing, fetching, no articles) gives a single prefixed error after the collection state the failure leaves; otherwise the processed count, the saved count equal to the articles stored, success exactly when one was saved, and no errors |
| ArticlesRoute.DigitValue | src/app/api/articles/route.ts:11-12 | the value of a digit character in radix up to 16 |
| ArticlesRoute.DigitRun | src/app/api/articles/route.ts:11-12 | the length of the leading digit run: all digits, then a non-digit or the end |
| ArticlesRoute.DigitRunOfPrefix | src/app/api/articles/route.ts:11-12 | the digit run stops where the digits stop |
| ArticlesRoute.ParseInt | src/app/api/articles/route.ts:11-12 | `parseInt` with no radix: leading whitespace, an optional sign, an optional `0x` prefix, the longest digit run, NaN when it is empty |
| ArticlesRoute.DecimalStringDigits | src/app/api/articles/route.ts:11-12 | a printed integer consists of digits, parses back to itself and has no leading zero |
| ArticlesRoute.ParseIntDecimal | src/app/api/articles/route.ts:11-12 | `parseInt` of a decimal followed by a non-digit is that decimal |
| ArticlesRoute.ParseIntNegative | src/app/api/articles/route.ts:11-12 | `parseInt` of "-" followed by a decimal is its negation |
| ArticlesRoute.ParseIntMinus | src/app/api/articles/route.ts:11-12 | a leading minus negates the parse of what follows |
| ArticlesRoute.ParseIntNaN | src/app/api/articles/route.ts:11-12 | a text starting, after whitespace, with no sign or digit parses to NaN |
| ArticlesRoute.QueryIntRoundTrip | src/app/api/articles/route.ts:11-12 | an absent or empty parameter gives the default, and a printed count parses back to itself |
| ArticlesRoute.CategoryFilterSelects | src/app/api/articles/route.ts:16-19 | a category other than "all" lists exactly the stored articles of that category |
| ArticlesRoute.Matching | src/app/api/articles/route.ts:23 | the matching articles are those of the collection with the filter's category, all of them without a filter |
| ArticlesRoute.PageOf | src/app/api/articles/route.ts:22-27 | definition of `find(query).sort({ createdAt: -1 }).skip(skip).limit(limit)` (properties in `PageSpec`) |
| ArticlesRoute.PageSpec | src/app/api/articles/route.ts:22-27 | a page holds min(limit, what remains after skip) matching articles, newest first |
| ArticlesRoute.SkipNext | src/app/api/articles/route.ts:13 | page p + 1 skips exactly `limit` more than page p |
| ArticlesRoute.ConsecutivePages | src/app/api/articles/route.ts:22-27 | the page after a page continues it: together they are the window of twice the limit |
| ArticlesRoute.CeilDivSpec | src/app/api/articles/route.ts:45 | `Math.ceil(n / d)` is the least integer whose multiple of d reaches n |
| ArticlesRoute.CeilDivCompare | src/app/api/articles/route.ts:45-47 | page < totalPages exactly when the next page starts inside the matches |
| ArticlesRoute.PaginationOf | src/app/api/articles/route.ts:44-48 | the pagination object: current page, `Math.ceil(totalCount / limit)` pages, the count and the two flags |
| ArticlesRoute.PaginationSpec | src/app/api/articles/route.ts:30-48 | `hasNextPage` exactly when the next page is non-empty, a page is non-empty exactly when page <= totalPages, no pages exactly when nothing matches, `hasPrevPage` exactly when page > 1 |
| ArticlesRoute.MatchingAppend | src/app/api/articles/route.ts:23 | the filter distributes over concatenation |
| ArticlesRoute.CountOfSnoc | src/app/api/articles/route.ts:34 | one more article adds one to its own category's count |
| ArticlesRoute.Histogram | src/app/api/articles/route.ts:33-53 | the `$group` by category folded into an object from category name to count (properties in `HistogramCounts`) |
| ArticlesRoute.HistogramCounts | src/app/api/articles/route.ts:33-53 | the histogram has a key exactly for each category present, mapped to its count in the whole collection |
| ArticlesRoute.HistogramTotal | src/app/api/articles/route.ts:33-53 | the five category counts add up to the collection size |
| ArticlesRoute.HistogramSumsToSize | src/app/api/articles/route.ts:33-53 | the histogram's keys are category names and its values add up to the collection size |
| ArticlesRoute.GetArticles | src/app/api/articles/route.ts:4-68 | the route's response: a 500 with the database error, or the page, its pagination and the histogram |
| ArticlesRoute.GetArticlesDefaults | src/app/api/articles/route.ts:11-48 | with no parameters the route lists the newest 20 of all articles, page 1, with no previous page |
| ArticlesRoute.GetArticlesPage | src/app/api/articles/route.ts:4-55 | for a limit and page of at least 1, the response is one page of at most `limit` matching articles, newest first, with `totalCount` the matching count, `hasNextPage` exactly when the next page is non-empty, and the histogram of the whole collection |
| ArticlesRoute.AllCategoryIsUnfiltered | src/app/api/articles/route.ts:17 | the "all" category and an empty one list the same as no category |
| ChatRoute.AsWrittenChatRejected | src/app/api/chat/route.ts:60-80 | as written, the chat document with a string `articleId` fails the chats validator |
| ChatRoute.ChatDocumentAsWritten | src/app/api/chat/route.ts:60-80 | the chat document as the route writes it, with `articleId` the request's string |
| ChatRoute.ChatDocument | src/app/api/chat/route.ts:60-80 | the corrected chat document, with `articleId` an ObjectId |
| ChatRoute.ChatSchemaAccepts | src/lib/database-setup.ts:170-235 | the `chats` validator's demands on a session: session id of 10 to 50 characters, title of 1 to 500, each message text of 1 to 2000 |
| ChatRoute.MessageValidIff | src/lib/database-setup.ts:202-222 | a message document is valid exactly when its text has 1 to 2000 characters |
| ChatRoute.ChatValidIff | src/lib/database-setup.ts:170-235 | the corrected chat document is valid exactly when the session id, title and every message text meet their bounds |
| ChatRoute.ChatStore.constructor | src/lib/database-setup.ts:247-251 | a fresh chats collection is empty |
| ChatRoute.ChatStore.Upsert | src/app/api/chat/route.ts:60-80 | applied exactly when it does not fail and the validator (if installed) accepts the result; then only that key's session changes |
| ChatRoute.UpsertOnlyAppends | src/app/api/chat/route.ts:66-77 | no message is removed or reordered, other sessions are unchanged, and exactly the new messages are added |
| ChatRoute.ExchangeAppended | src/app/api/chat/route.ts:46-79 | after the upsert the session ends with the question, as the user's message, and then the answer, both stamped `now`, after its earlier messages unchanged; a new session holds just those two |
| ChatRoute.SessionIdStable | src/app/api/chat/route.ts:45 | the session id a reply hands out is never empty, so sending it back on a later request keeps the same session |
| ChatRoute.ChatReply | src/app/api/chat/route.ts:6-106 | definition of the route's reply: 400, then the database and ObjectId failures as 500s, 404, the generation failure as a 500, else the answer and the session id |
| ChatRoute.Post | src/app/api/chat/route.ts:6-106 | the reply of the route; the store is unchanged unless the reply is success, when it holds the upserted session if the upsert applies; an upsert failure still replies success |
| ChatRoute.MissingFieldsRejected | src/app/api/chat/route.ts:10-18 | a missing or empty question or article id gives 400 |
| ChatRoute.ChatReplyOkIff | src/app/api/chat/route.ts:20-93 | success exactly when both fields are given, the database connects, the id is a valid ObjectId of a stored article and the answer is generated; the reply then carries the answer and the session id |
| ChatRoute.ChatReplyErrors | src/app/api/chat/route.ts:20-104 | with both fields given: a database failure is a 500 carrying its error text, a malformed id a 500 carrying the ObjectId error, a well-formed id of no stored article a 404, a generation failure a 500 carrying its error text |
| ChatRoute.DecimalStringLength | src/app/api/chat/route.ts:45 | a number below 10^k prints in at most k digits |
| ChatRoute.DefaultSessionIdFits | src/app/api/chat/route.ts:45 | the default session id meets the validator's 10 to 50 characters for any clock from 10 ms to the year 2286 |
| ChatRoute.NewRouteSessionStored | src/app/api/chat/route.ts:60-80 | with the corrected document, a new session whose texts fit the bounds is accepted and stored |

## Left out

- `fetchArticlesFromSources` and `fetchArticlesByCategory` (`src/lib/news-fetcher.ts:65-122`) are calls to the news API. Their results are parameters. A failed source fetch is a `Result` error. The per-category loop swallows its own errors, so it is one combined list.
- The language-model calls (`src/lib/gemini.ts`) and their prompt texts: each answer is a `Result<string>` parameter.
- `Promise.all` and `Promise.allSettled` concurrency: each batch is processed in order. A rejected `processArticle` is an `Err` outcome.
- The 2-second pause between batches is counted (`pauses`), not performed.
- Console logging throughout.
- `DataPipeline.getStatus` (`src/lib/data-pipeline.ts:170-206`), the MongoDB connection, and the index and collection creation. The `articles` collection is the one `createArticlesCollection` builds: strict validator plus unique `sourceUrl` index. The `articles/[id]` route, the UI, the client API wrapper and the administrative routes are also outside the model.
- The unreachable `catch` of the saving loop (`src/lib/data-pipeline.ts:139-143`): `saveArticle` never throws, so `errors` stays empty on the non-fatal path.
- Dates are integer milliseconds, and each `new Date()` of one call is the single `now` (or `at`). An unparsable `publishedAt` (an `Invalid Date`, NaN arithmetic) is not modelled.
- The floating-point day division is replaced by the exact integer comparison it decides for safe-range millisecond values.
- String lengths count code points (`seq<char>`), not UTF-16 code units. Lower-casing covers ASCII only.
- ArticlesRoute.GetArticles: a `limit` or `page` that is NaN or below 1 goes to an `OutsideModel` outcome. MongoDB's handling of a negative or zero skip/limit is not modelled.
- ArticlesRoute.GetArticles: the order MongoDB gives to articles with equal `createdAt` is unspecified. The model uses the stable order of the collection.
- `parseInt` is modelled on unbounded integers, with no double-precision rounding of long digit runs.
- ChatRoute.ChatReply: the body is taken as already parsed, with each field a string or absent, as `src/components/chat/AIChatbot.tsx:59-63` sends it. A body that is not JSON (or is `null`) makes `request.json()` throw, and the route answers a 500 with the parser's error text; that reply is not modelled. Nor are fields that are not strings: a numeric `articleId`, for one, passes the presence check, and `new ObjectId` accepts an integer, so such a request reaches the lookup instead of failing with a 500.
- ChatRoute.ChatReply: the ObjectId checks are those of the bson 6 library. A malformed id is a 500 whose error text is that library's message, written as a constant. Among strings it accepts only 24 hexadecimal digits. Every failure is an `Error` with a message, so the `'Unknown error'` case does not arise.
- ChatRoute.ChatStore.Upsert: with the validator installed, the upsert is accepted by `ChatSchemaAccepts`, the validator's verdict on the corrected document (`ChatValidIff`). The route as written stores no chat at all in that collection (`AsWrittenChatRejected`, see Findings), and the model does not state that.
- ChatRoute.Post: it stores through `ChatStore.Upsert`, so it too describes the corrected document. As written, a validated collection rejects every exchange and the reply is still a success.
- AIProcessor.ProcessArticle: the record's logo is the corrected `PublisherLogo`, the fixed URL. For a source named after an `Object.prototype` member such as "constructor", the code as written would record the inherited value, the validator would reject that non-string logo, and the article would not be saved. `ProcessArticleLogoAsWritten` states that the two agree for every other name.
- ArticlesRoute.Histogram: the map keeps each category's count but not the key order. The `$sort: { count: -1 }` stage (`src/app/api/articles/route.ts:35`) puts the keys in descending count order, and the page lists them in that order. The order among equal counts is unspecified.

## Findings

| source | as written | input that shows it | evidently intended | confidence | as-written member | corrected member |
|---|---|---|---|---|---|---|
| src/lib/news-fetcher.ts:193-206 | `logoMap[sourceName] \|\| url` looks the name up in a plain object literal, so names inherited from `Object.prototype` are found | source name `"constructor"` returns the `Object` constructor function rather than the logo URL | every source name gets the fixed logo URL | not executed | NewsFetcher.PublisherLogoInheritedMember | NewsFetcher.PublisherLogoAgrees |
| src/app/api/chat/route.ts:60-80 | the upsert stores `articleId` (lines 62 and 75) as the request's string, while the chats validator (`src/lib/database-setup.ts:188-191`) requires an ObjectId, and the failure is swallowed at lines 81-85 | any successful chat request, e.g. `articleId` = `"65a4f0c2e1b2c3d4e5f60718"`: the upsert is rejected, so no chat is ever stored | store `new ObjectId(articleId)` | not executed | ChatRoute.AsWrittenChatRejected | ChatRoute.NewRouteSessionStored |
