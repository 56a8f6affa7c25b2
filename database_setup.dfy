/**
 * The `$jsonSchema` validators of the `articles` and `chats` collections, as predicates over
 * documents. A property's rules apply to a field only when it is present; `required` asks for
 * presence; `additionalProperties: true` lets any other field through. Lengths count characters.
 */
module DatabaseSetup {
  import opened Text

  /** The BSON values the documents carry; `Date` is milliseconds since the epoch. */
  datatype Value =
    | Str(s: string)
    | Date(ms: int)
    | Bool(b: bool)
    | ObjectId(hex: string)
    | Num(n: int)
    | Arr(items: seq<Value>)
    | Doc(fields: map<string, Value>)
    | Null

  type Document = map<string, Value>

  /** `bsonType: 'string'` with `minLength`/`maxLength`, when the field is present. */
  predicate StringWithin(d: Document, field: string, lo: nat, hi: nat) {
    field in d ==> d[field].Str? && lo <= |d[field].s| <= hi
  }

  /** `bsonType: 'string'` with `pattern: '^https?://'`, when the field is present. */
  predicate HttpUrl(s: string) {
    StartsWith(s, "http://") || StartsWith(s, "https://")
  }

  predicate UrlField(d: Document, field: string) {
    field in d ==> d[field].Str? && HttpUrl(d[field].s)
  }

  predicate DateField(d: Document, field: string) {
    field in d ==> d[field].Date?
  }

  predicate HasAll(d: Document, fields: seq<string>) {
    forall f :: f in fields ==> f in d
  }

  const ArticleRequired: seq<string> :=
    ["title", "coverImage", "publisherName", "publisherLogo", "authorName", "datePosted",
     "quickSummary", "detailedSummary", "whyItMatters", "sourceUrl", "category", "createdAt",
     "updatedAt"]

  const CategoryEnum: set<string> := {"AI", "Technology", "Startups", "Funding", "Machine Learning"}

  /** `articlesValidation`. */
  predicate ValidArticle(d: Document) {
    && HasAll(d, ArticleRequired)
    && StringWithin(d, "title", 1, 500)
    && UrlField(d, "coverImage")
    && StringWithin(d, "publisherName", 1, 100)
    && UrlField(d, "publisherLogo")
    && StringWithin(d, "authorName", 1, 100)
    && DateField(d, "datePosted")
    && StringWithin(d, "quickSummary", 10, 500)
    && StringWithin(d, "detailedSummary", 50, 2000)
    && StringWithin(d, "whyItMatters", 50, 1000)
    && UrlField(d, "sourceUrl")
    && ("category" in d ==> d["category"].Str? && d["category"].s in CategoryEnum)
    && DateField(d, "createdAt")
    && DateField(d, "updatedAt")
  }

  const ChatRequired: seq<string> := ["sessionId", "articleId", "articleTitle", "messages", "createdAt", "updatedAt"]
  const MessageRequired: seq<string> := ["text", "isUser", "timestamp"]

  /** The `items` schema of `messages`. */
  predicate ValidMessage(v: Value) {
    && v.Doc?
    && HasAll(v.fields, MessageRequired)
    && StringWithin(v.fields, "text", 1, 2000)
    && ("isUser" in v.fields ==> v.fields["isUser"].Bool?)
    && DateField(v.fields, "timestamp")
  }

  /** `chatsValidation`. */
  predicate ValidChat(d: Document) {
    && HasAll(d, ChatRequired)
    && StringWithin(d, "sessionId", 10, 50)
    && ("articleId" in d ==> d["articleId"].ObjectId?)
    && StringWithin(d, "articleTitle", 1, 500)
    && ("messages" in d ==> d["messages"].Arr? && forall i :: 0 <= i < |d["messages"].items| ==> ValidMessage(d["messages"].items[i]))
    && DateField(d, "createdAt")
    && DateField(d, "updatedAt")
  }

  // ----- the sample documents of the validation route -----

  const SampleQuickSummary :=
    "OpenAI announces GPT-5 with advanced reasoning abilities, promising to revolutionize AI applications across industries."
  const SampleDetailedSummary :=
    "OpenAI has officially unveiled GPT-5, their most advanced language model to date, featuring unprecedented reasoning capabilities that allow it to solve complex problems across multiple domains. "
    + "The new model demonstrates significant improvements in logical reasoning, mathematical problem-solving, and creative thinking compared to its predecessors."
  const SampleWhyItMatters :=
    "This breakthrough represents a quantum leap in AI capabilities, moving us closer to artificial general intelligence. "
    + "For AI enthusiasts and learners, GPT-5's reasoning abilities open up new possibilities for human-AI collaboration."

  /** An `articles` document with every schema field, string fields as strings, dates as dates. */
  function ArticleFields(title: string, coverImage: string, publisherName: string, publisherLogo: string,
                         authorName: string, datePosted: int, quickSummary: string, detailedSummary: string,
                         whyItMatters: string, sourceUrl: string, category: string, createdAt: int, updatedAt: int): Document
  {
    map[
      "title" := Str(title),
      "coverImage" := Str(coverImage),
      "publisherName" := Str(publisherName),
      "publisherLogo" := Str(publisherLogo),
      "authorName" := Str(authorName),
      "datePosted" := Date(datePosted),
      "quickSummary" := Str(quickSummary),
      "detailedSummary" := Str(detailedSummary),
      "whyItMatters" := Str(whyItMatters),
      "sourceUrl" := Str(sourceUrl),
      "category" := Str(category),
      "createdAt" := Date(createdAt),
      "updatedAt" := Date(updatedAt)
    ]
  }

  /**
   * For a document with every field of the right type the validator decides the length
   * bounds, the URL patterns and the category enum, and nothing else.
   */
  lemma ArticleFieldsValidIff(title: string, coverImage: string, publisherName: string, publisherLogo: string,
                              authorName: string, datePosted: int, quickSummary: string, detailedSummary: string,
                              whyItMatters: string, sourceUrl: string, category: string, createdAt: int, updatedAt: int)
    ensures ValidArticle(ArticleFields(title, coverImage, publisherName, publisherLogo, authorName, datePosted,
                                       quickSummary, detailedSummary, whyItMatters, sourceUrl, category, createdAt, updatedAt))
      <==>
      && 1 <= |title| <= 500 && HttpUrl(coverImage) && 1 <= |publisherName| <= 100 && HttpUrl(publisherLogo)
      && 1 <= |authorName| <= 100 && 10 <= |quickSummary| <= 500 && 50 <= |detailedSummary| <= 2000
      && 50 <= |whyItMatters| <= 1000 && HttpUrl(sourceUrl) && category in CategoryEnum
  {
    var d := ArticleFields(title, coverImage, publisherName, publisherLogo, authorName, datePosted,
                           quickSummary, detailedSummary, whyItMatters, sourceUrl, category, createdAt, updatedAt);
    ArticleFieldsLookup(title, coverImage, publisherName, publisherLogo, authorName, datePosted,
                        quickSummary, detailedSummary, whyItMatters, sourceUrl, category, createdAt, updatedAt);
    ArticleFieldsComplete(title, coverImage, publisherName, publisherLogo, authorName, datePosted,
                          quickSummary, detailedSummary, whyItMatters, sourceUrl, category, createdAt, updatedAt);
  }

  /** Each field of `ArticleFields` holds the value it was built from. */
  lemma ArticleFieldsLookup(title: string, coverImage: string, publisherName: string, publisherLogo: string,
                            authorName: string, datePosted: int, quickSummary: string, detailedSummary: string,
                            whyItMatters: string, sourceUrl: string, category: string, createdAt: int, updatedAt: int)
    ensures var d := ArticleFields(title, coverImage, publisherName, publisherLogo, authorName, datePosted,
                                   quickSummary, detailedSummary, whyItMatters, sourceUrl, category, createdAt, updatedAt);
      && d["title"] == Str(title) && d["coverImage"] == Str(coverImage)
      && d["publisherName"] == Str(publisherName) && d["publisherLogo"] == Str(publisherLogo)
      && d["authorName"] == Str(authorName) && d["datePosted"] == Date(datePosted)
      && d["quickSummary"] == Str(quickSummary) && d["detailedSummary"] == Str(detailedSummary)
      && d["whyItMatters"] == Str(whyItMatters) && d["sourceUrl"] == Str(sourceUrl)
      && d["category"] == Str(category)
      && d["createdAt"] == Date(createdAt) && d["updatedAt"] == Date(updatedAt)
  {
    LookupHead(title, coverImage, publisherName, publisherLogo, authorName, datePosted,
               quickSummary, detailedSummary, whyItMatters, sourceUrl, category, createdAt, updatedAt);
    LookupMiddle(title, coverImage, publisherName, publisherLogo, authorName, datePosted,
                 quickSummary, detailedSummary, whyItMatters, sourceUrl, category, createdAt, updatedAt);
    LookupTail(title, coverImage, publisherName, publisherLogo, authorName, datePosted,
               quickSummary, detailedSummary, whyItMatters, sourceUrl, category, createdAt, updatedAt);
  }

  lemma LookupHead(title: string, coverImage: string, publisherName: string, publisherLogo: string,
                            authorName: string, datePosted: int, quickSummary: string, detailedSummary: string,
                            whyItMatters: string, sourceUrl: string, category: string, createdAt: int, updatedAt: int)
    ensures var d := ArticleFields(title, coverImage, publisherName, publisherLogo, authorName, datePosted,
                                   quickSummary, detailedSummary, whyItMatters, sourceUrl, category, createdAt, updatedAt);
      && d["title"] == Str(title) && d["coverImage"] == Str(coverImage)
      && d["publisherName"] == Str(publisherName) && d["publisherLogo"] == Str(publisherLogo)
  {
  }

  lemma LookupMiddle(title: string, coverImage: string, publisherName: string, publisherLogo: string,
                            authorName: string, datePosted: int, quickSummary: string, detailedSummary: string,
                            whyItMatters: string, sourceUrl: string, category: string, createdAt: int, updatedAt: int)
    ensures var d := ArticleFields(title, coverImage, publisherName, publisherLogo, authorName, datePosted,
                                   quickSummary, detailedSummary, whyItMatters, sourceUrl, category, createdAt, updatedAt);
      && d["authorName"] == Str(authorName) && d["datePosted"] == Date(datePosted)
      && d["quickSummary"] == Str(quickSummary) && d["detailedSummary"] == Str(detailedSummary)
  {
  }

  lemma LookupTail(title: string, coverImage: string, publisherName: string, publisherLogo: string,
                            authorName: string, datePosted: int, quickSummary: string, detailedSummary: string,
                            whyItMatters: string, sourceUrl: string, category: string, createdAt: int, updatedAt: int)
    ensures var d := ArticleFields(title, coverImage, publisherName, publisherLogo, authorName, datePosted,
                                   quickSummary, detailedSummary, whyItMatters, sourceUrl, category, createdAt, updatedAt);
      && d["whyItMatters"] == Str(whyItMatters) && d["sourceUrl"] == Str(sourceUrl)
      && d["category"] == Str(category)
      && d["createdAt"] == Date(createdAt) && d["updatedAt"] == Date(updatedAt)
  {
  }

  /** `ArticleFields` supplies every required field. */
  lemma ArticleFieldsComplete(title: string, coverImage: string, publisherName: string, publisherLogo: string,
                              authorName: string, datePosted: int, quickSummary: string, detailedSummary: string,
                              whyItMatters: string, sourceUrl: string, category: string, createdAt: int, updatedAt: int)
    ensures HasAll(ArticleFields(title, coverImage, publisherName, publisherLogo, authorName, datePosted,
                                 quickSummary, detailedSummary, whyItMatters, sourceUrl, category, createdAt, updatedAt),
                   ArticleRequired)
  {
  }

  const SampleTitle := "OpenAI Unveils GPT-5 with Revolutionary Reasoning Capabilities"
  const SampleCoverImage := "https://" + "images.unsplash.com/photo-1677442136019-21780ecad995?w=800&h=400&fit=crop"
  const SamplePublisherLogo := "https://" + "images.unsplash.com/photo-1611224923853-80b023f02d71?w=100&h=100&fit=crop"
  const SampleSourceUrl := "https://" + "techcrunch.com/2024/01/15/openai-gpt-5-reasoning"

  /** The valid sample article, inserted at `now`; 1705314600000 is 2024-01-15T10:30:00Z. */
  function SampleValidArticle(now: int): Document {
    ArticleFields(SampleTitle, SampleCoverImage, "TechCrunch", SamplePublisherLogo, "Sarah Chen", 1705314600000,
                  SampleQuickSummary, SampleDetailedSummary, SampleWhyItMatters, SampleSourceUrl, "AI", now, now)
  }

  /** The invalid sample article: a title, an unknown category and a creation date only. */
  function SampleInvalidArticle(now: int): Document {
    map["title" := Str("Test Article"), "category" := Str("InvalidCategory"), "createdAt" := Date(now)]
  }

  function SampleMessage(text: string, isUser: bool, now: int): Value {
    Doc(map["text" := Str(text), "isUser" := Bool(isUser), "timestamp" := Date(now)])
  }

  /** The valid sample chat, for a freshly generated ObjectId `oid`. */
  function SampleValidChat(now: int, oid: string): Document {
    map[
      "sessionId" := Str("session_12345_test"),
      "articleId" := ObjectId(oid),
      "articleTitle" := Str("OpenAI Unveils GPT-5 with Revolutionary Reasoning Capabilities"),
      "messages" := Arr([SampleMessage("Hello, can you tell me about this article?", true, now),
                         SampleMessage("I'd be happy to help explain this article about GPT-5.", false, now)]),
      "createdAt" := Date(now),
      "updatedAt" := Date(now)
    ]
  }

  /** The invalid sample chat: short session id, string article id, a message with text only, no title. */
  function SampleInvalidChat(now: int): Document {
    map[
      "sessionId" := Str("short"),
      "articleId" := Str("invalid-id"),
      "messages" := Arr([Doc(map["text" := Str("Test message")])]),
      "createdAt" := Date(now)
    ]
  }

  lemma SampleValidArticleAccepted(now: int)
    ensures ValidArticle(SampleValidArticle(now))
  {
    ArticleFieldsValidIff(SampleTitle, SampleCoverImage, "TechCrunch", SamplePublisherLogo, "Sarah Chen", 1705314600000,
                          SampleQuickSummary, SampleDetailedSummary, SampleWhyItMatters, SampleSourceUrl, "AI", now, now);
    SampleSummaryLengths();
    assert SampleCoverImage[..8] == "https://";
    assert SamplePublisherLogo[..8] == "https://";
    assert SampleSourceUrl[..8] == "https://";
    assert "AI" in CategoryEnum;
  }

  lemma SampleSummaryLengths()
    ensures 1 <= |SampleTitle| <= 500
    ensures 10 <= |SampleQuickSummary| <= 500
    ensures 50 <= |SampleDetailedSummary| <= 2000
    ensures 50 <= |SampleWhyItMatters| <= 1000
  {
  }

  /** The invalid article lacks `coverImage` (among others) and names no allowed category. */
  lemma SampleInvalidArticleRejected(now: int)
    ensures !ValidArticle(SampleInvalidArticle(now))
    ensures !HasAll(SampleInvalidArticle(now), ArticleRequired)
    ensures "InvalidCategory" !in CategoryEnum
  {
    assert "coverImage" in ArticleRequired;
  }

  lemma SampleValidChatAccepted(now: int, oid: string)
    ensures ValidChat(SampleValidChat(now, oid))
  {
    var d := SampleValidChat(now, oid);
    var items := d["messages"].items;
    assert ValidMessage(items[0]) && ValidMessage(items[1]);
  }

  /** Each of the invalid chat's defects is enough on its own to reject it. */
  lemma SampleInvalidChatRejected(now: int)
    ensures !ValidChat(SampleInvalidChat(now))
    ensures !StringWithin(SampleInvalidChat(now), "sessionId", 10, 50)
    ensures !SampleInvalidChat(now)["articleId"].ObjectId?
    ensures !ValidMessage(SampleInvalidChat(now)["messages"].items[0])
    ensures !HasAll(SampleInvalidChat(now), ChatRequired)
  {
    var d := SampleInvalidChat(now);
    assert "updatedAt" in ChatRequired && "updatedAt" !in d;
    assert "isUser" in MessageRequired;
  }
}
