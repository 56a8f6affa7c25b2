/**
 * `POST /api/chat`: request validation, the article lookup, the session id default and the
 * upsert that appends the question and the answer to the session of `(sessionId, articleId)`.
 * The `chats` collection is a `ChatStore`; the generated answer, the clock and the database
 * failures are parameters.
 */
module ChatRoute {
  import opened Wrappers
  import opened Text
  import opened DatabaseSetup
  import opened AIProcessor

  datatype Message = Message(text: string, isUser: bool, timestamp: int)

  datatype ChatSession = ChatSession(
    sessionId: string,
    articleId: string,
    articleTitle: string,
    messages: seq<Message>,
    createdAt: int,
    updatedAt: int)

  // ----- the stored document -----

  function MessageValue(m: Message): Value {
    Doc(map["text" := Str(m.text), "isUser" := Bool(m.isUser), "timestamp" := Date(m.timestamp)])
  }

  function MessagesValue(ms: seq<Message>): (v: Value)
    ensures v.Arr? && |v.items| == |ms| && forall i :: 0 <= i < |ms| ==> v.items[i] == MessageValue(ms[i])
  {
    Arr(seq(|ms|, i requires 0 <= i < |ms| => MessageValue(ms[i])))
  }

  /** The document the route writes: `articleId` is the request's string. */
  function ChatDocumentAsWritten(c: ChatSession): Document {
    map[
      "sessionId" := Str(c.sessionId),
      "articleId" := Str(c.articleId),
      "articleTitle" := Str(c.articleTitle),
      "messages" := MessagesValue(c.messages),
      "createdAt" := Date(c.createdAt),
      "updatedAt" := Date(c.updatedAt)
    ]
  }

  /** The validator asks for an ObjectId, so no document the route writes is ever accepted. */
  lemma AsWrittenChatRejected(c: ChatSession)
    ensures !ValidChat(ChatDocumentAsWritten(c))
  {
    assert ChatDocumentAsWritten(c)["articleId"] == Str(c.articleId);
  }

  /** The evidently intended document: `articleId` stored as `new ObjectId(articleId)`. */
  function ChatDocument(c: ChatSession): Document {
    map[
      "sessionId" := Str(c.sessionId),
      "articleId" := ObjectId(c.articleId),
      "articleTitle" := Str(c.articleTitle),
      "messages" := MessagesValue(c.messages),
      "createdAt" := Date(c.createdAt),
      "updatedAt" := Date(c.updatedAt)
    ]
  }

  /** What `chatsValidation` asks of a session, field by field. */
  predicate ChatSchemaAccepts(c: ChatSession) {
    && 10 <= |c.sessionId| <= 50
    && 1 <= |c.articleTitle| <= 500
    && forall i :: 0 <= i < |c.messages| ==> 1 <= |c.messages[i].text| <= 2000
  }

  lemma MessageValidIff(m: Message)
    ensures ValidMessage(MessageValue(m)) <==> 1 <= |m.text| <= 2000
  {
    var f := MessageValue(m).fields;
    assert "text" in f && "isUser" in f && "timestamp" in f;
  }

  /** With the corrected document, the validator decides exactly `ChatSchemaAccepts`. */
  lemma ChatValidIff(c: ChatSession)
    ensures ValidChat(ChatDocument(c)) <==> ChatSchemaAccepts(c)
  {
    var d := ChatDocument(c);
    var items := d["messages"].items;
    forall i | 0 <= i < |c.messages| ensures ValidMessage(items[i]) <==> 1 <= |c.messages[i].text| <= 2000 {
      MessageValidIff(c.messages[i]);
    }
    assert HasAll(d, ChatRequired) by {
      assert forall f :: f in ChatRequired ==> f in d;
    }
  }

  // ----- the chats collection -----

  type SessionKey = (string, string)

  function NewMessages(question: string, answer: string, now: int): (ms: seq<Message>)
    ensures |ms| == 2 && ms[0] == Message(question, true, now) && ms[1] == Message(answer, false, now)
  {
    [Message(question, true, now), Message(answer, false, now)]
  }

  /**
   * The session after `updateOne(filter, { $set, $push: { messages: { $each } }, $setOnInsert },
   * { upsert: true })`: title and update time overwritten, messages appended, the key and the
   * creation time set only when the session is new.
   */
  function Upserted(sessions: map<SessionKey, ChatSession>, key: SessionKey, title: string, added: seq<Message>, now: int): (c: ChatSession)
    ensures c.sessionId == key.0 && c.articleId == key.1 && c.articleTitle == title && c.updatedAt == now
    ensures key in sessions ==> c.messages == sessions[key].messages + added && c.createdAt == sessions[key].createdAt
    ensures key !in sessions ==> c.messages == added && c.createdAt == now
  {
    if key in sessions then
      // the filter matched `key`, so the session's own key fields are `key`
      ChatSession(key.0, key.1, title, sessions[key].messages + added, sessions[key].createdAt, now)
    else ChatSession(key.0, key.1, title, added, now, now)
  }

  /** Whether the upsert is applied: no failure, and the validator (when installed) accepts. */
  predicate UpsertApplied(validated: bool, c: ChatSession, fails: bool) {
    !fails && (!validated || ChatSchemaAccepts(c))
  }

  class ChatStore {
    /** Whether the collection was created with `chatsValidation`. */
    const validated: bool
    var sessions: map<SessionKey, ChatSession>

    ghost predicate Valid()
      reads this
    {
      forall k :: k in sessions ==>
        sessions[k].sessionId == k.0 && sessions[k].articleId == k.1 && (validated ==> ChatSchemaAccepts(sessions[k]))
    }

    constructor(validated: bool)
      ensures Valid() && this.validated == validated && sessions == map[]
    {
      this.validated := validated;
      sessions := map[];
    }

    method Upsert(key: SessionKey, title: string, added: seq<Message>, now: int, fails: bool) returns (ok: bool)
      requires Valid()
      modifies this
      ensures Valid()
      ensures ok == UpsertApplied(validated, Upserted(old(sessions), key, title, added, now), fails)
      ensures sessions == if ok then old(sessions)[key := Upserted(old(sessions), key, title, added, now)] else old(sessions)
    {
      var updated := Upserted(sessions, key, title, added, now);
      ok := !fails && (!validated || ChatSchemaAccepts(updated));
      if ok {
        sessions := sessions[key := updated];
      }
    }
  }

  /** The upsert never removes or reorders messages and leaves every other session alone. */
  lemma UpsertOnlyAppends(sessions: map<SessionKey, ChatSession>, key: SessionKey, title: string, added: seq<Message>, now: int)
    ensures var after := sessions[key := Upserted(sessions, key, title, added, now)];
      && (forall k :: k in sessions ==> k in after && IsMessagePrefix(sessions[k].messages, after[k].messages))
      && (forall k :: k in sessions && k != key ==> after[k] == sessions[k])
      && |after[key].messages| == (if key in sessions then |sessions[key].messages| else 0) + |added|
  {
  }

  /**
   * After the route's upsert the session holds its earlier messages (none for a new session)
   * followed by the question, from the user, and the answer, each stamped with `now`.
   */
  lemma ExchangeAppended(sessions: map<SessionKey, ChatSession>, key: SessionKey, title: string,
                         question: string, answer: string, now: int)
    ensures var ms := Upserted(sessions, key, title, NewMessages(question, answer, now), now).messages;
      && |ms| >= 2
      && ms[|ms| - 2] == Message(question, true, now) && ms[|ms| - 1] == Message(answer, false, now)
      && (key in sessions ==> IsMessagePrefix(sessions[key].messages, ms) && |ms| == |sessions[key].messages| + 2)
      && (key !in sessions ==> |ms| == 2)
  {
    var ms := Upserted(sessions, key, title, NewMessages(question, answer, now), now).messages;
    if key in sessions {
      assert ms == sessions[key].messages + NewMessages(question, answer, now);
    }
  }

  predicate IsMessagePrefix(a: seq<Message>, b: seq<Message>) {
    |a| <= |b| && b[..|a|] == a
  }

  // ----- the route -----

  /** A JSON field of the request; `None` is an absent or `null` one. */
  datatype ChatRequest = ChatRequest(question: Option<string>, articleId: Option<string>, sessionId: Option<string>)

  datatype ChatResponse =
    | ChatOk(response: string, sessionId: string)
    | ChatError(status: nat, message: string, error: Option<string>)

  const MissingFieldsMessage := "Question and articleId are required"
  const NotFoundMessage := "Article not found"
  const FailureMessage := "Failed to process chat message"
  /** What `new ObjectId(s)` of the bson 6 library throws for a string it does not accept. */
  const InvalidObjectIdMessage := "input must be a 24 character hex string, 12 byte Uint8Array, or an integer"

  /** JavaScript truthiness of a string field: present and not empty. */
  predicate Truthy(f: Option<string>) {
    f.Some? && f.value != ""
  }

  predicate IsHexDigit(c: char) {
    '0' <= c <= '9' || 'a' <= c <= 'f' || 'A' <= c <= 'F'
  }

  /** The strings `new ObjectId(s)` accepts: 24 hexadecimal digits. */
  predicate IsObjectIdHex(s: string) {
    |s| == 24 && forall i :: 0 <= i < |s| ==> IsHexDigit(s[i])
  }

  /** `sessionId || \`session_${Date.now()}\``. */
  function SessionIdOf(sessionId: Option<string>, now: nat): (id: string)
    ensures Truthy(sessionId) ==> id == sessionId.value
    ensures !Truthy(sessionId) ==> id == "session_" + DecimalString(now)
  {
    if Truthy(sessionId) then sessionId.value else "session_" + DecimalString(now)
  }

  /**
   * The id a reply hands out is never empty, so a client that sends it back on a later request
   * stays in the same session whatever the clock then says.
   */
  lemma SessionIdStable(sessionId: Option<string>, now: nat, later: nat)
    ensures SessionIdOf(sessionId, now) != ""
    ensures SessionIdOf(Some(SessionIdOf(sessionId, now)), later) == SessionIdOf(sessionId, now)
  {
    if !Truthy(sessionId) {
      assert SessionIdOf(sessionId, now)[0] == 's';
    }
  }

  /**
   * The response for a request, given a `setupDatabase` failure `dbFault`, the stored articles
   * by lower-case ObjectId hex, the generated `answer` and the clock.
   */
  function ChatReply(req: ChatRequest, dbFault: Option<string>, articles: map<string, ProcessedArticle>,
                     answer: Result<string>, now: nat): ChatResponse
  {
    if !Truthy(req.question) || !Truthy(req.articleId) then ChatError(400, MissingFieldsMessage, None)
    else if dbFault.Some? then ChatError(500, FailureMessage, Some(dbFault.value))
    else if !IsObjectIdHex(req.articleId.value) then ChatError(500, FailureMessage, Some(InvalidObjectIdMessage))
    else if Lower(req.articleId.value) !in articles then ChatError(404, NotFoundMessage, None)
    else if answer.Err? then ChatError(500, FailureMessage, Some(answer.msg))
    else ChatOk(answer.value, SessionIdOf(req.sessionId, now))
  }

  /**
   * The route: the reply, and on success the upsert for `(sessionId, articleId)`, whose
   * failure (`upsertFails`, or the validator) is swallowed.
   */
  method Post(store: ChatStore, req: ChatRequest, dbFault: Option<string>, articles: map<string, ProcessedArticle>,
              answer: Result<string>, now: nat, upsertFails: bool) returns (resp: ChatResponse)
    requires store.Valid()
    modifies store
    ensures store.Valid()
    ensures resp == ChatReply(req, dbFault, articles, answer, now)
    ensures !resp.ChatOk? ==> store.sessions == old(store.sessions)
    ensures resp.ChatOk? ==>
      var key := (resp.sessionId, req.articleId.value);
      var updated := Upserted(old(store.sessions), key, articles[Lower(req.articleId.value)].title,
                              NewMessages(req.question.value, answer.value, now), now);
      store.sessions == if UpsertApplied(store.validated, updated, upsertFails) then old(store.sessions)[key := updated] else old(store.sessions)
  {
    resp := ChatReply(req, dbFault, articles, answer, now);
    if resp.ChatOk? {
      var article := articles[Lower(req.articleId.value)];
      var key := (resp.sessionId, req.articleId.value);
      var _ := store.Upsert(key, article.title, NewMessages(req.question.value, answer.value, now), now, upsertFails);
    }
  }

  /** A missing or empty question or article id is a 400, whatever else the request holds. */
  lemma MissingFieldsRejected(req: ChatRequest, dbFault: Option<string>, articles: map<string, ProcessedArticle>, answer: Result<string>, now: nat)
    requires !Truthy(req.question) || !Truthy(req.articleId)
    ensures ChatReply(req, dbFault, articles, answer, now) == ChatError(400, MissingFieldsMessage, None)
  {
  }

  /** The reply is a success exactly when every step before the upsert succeeded. */
  lemma ChatReplyOkIff(req: ChatRequest, dbFault: Option<string>, articles: map<string, ProcessedArticle>, answer: Result<string>, now: nat)
    ensures ChatReply(req, dbFault, articles, answer, now).ChatOk? <==>
      && Truthy(req.question) && Truthy(req.articleId) && dbFault.None?
      && IsObjectIdHex(req.articleId.value) && Lower(req.articleId.value) in articles && answer.Ok?
    ensures ChatReply(req, dbFault, articles, answer, now).ChatOk? ==>
      ChatReply(req, dbFault, articles, answer, now) == ChatOk(answer.value, SessionIdOf(req.sessionId, now))
  {
  }

  /**
   * Once both fields are given, each failing step has its own response: a database failure and a
   * generation failure are 500s carrying their error text, a malformed id is a 500 carrying the
   * `ObjectId` error, and a well-formed id of no stored article is a 404.
   */
  lemma ChatReplyErrors(req: ChatRequest, dbFault: Option<string>, articles: map<string, ProcessedArticle>, answer: Result<string>, now: nat)
    requires Truthy(req.question) && Truthy(req.articleId)
    ensures dbFault.Some? ==> ChatReply(req, dbFault, articles, answer, now) == ChatError(500, FailureMessage, Some(dbFault.value))
    ensures dbFault.None? && !IsObjectIdHex(req.articleId.value) ==>
      ChatReply(req, dbFault, articles, answer, now) == ChatError(500, FailureMessage, Some(InvalidObjectIdMessage))
    ensures dbFault.None? && IsObjectIdHex(req.articleId.value) && Lower(req.articleId.value) !in articles ==>
      ChatReply(req, dbFault, articles, answer, now) == ChatError(404, NotFoundMessage, None)
    ensures dbFault.None? && IsObjectIdHex(req.articleId.value) && Lower(req.articleId.value) in articles && answer.Err? ==>
      ChatReply(req, dbFault, articles, answer, now) == ChatError(500, FailureMessage, Some(answer.msg))
  {
  }

  function Pow10(k: nat): nat {
    if k == 0 then 1 else 10 * Pow10(k - 1)
  }

  lemma {:induction false} DecimalStringLength(n: nat, k: nat)
    requires 1 <= k && n < Pow10(k)
    ensures |DecimalString(n)| <= k
    ensures n >= 10 ==> |DecimalString(n)| >= 2
    decreases k
  {
    if n >= 10 {
      DecimalStringLength(n / 10, k - 1);
    }
  }

  /** The default session id fits the validator's 10 to 50 characters for any clock from 10 ms to year 2286. */
  lemma DefaultSessionIdFits(now: nat)
    requires 10 <= now < 10000000000000
    ensures 10 <= |SessionIdOf(None, now)| <= 50
  {
    assert Pow10(13) == 10000000000000;
    DecimalStringLength(now, 13);
  }

  /**
   * With the corrected document a new session of the route is stored whenever its texts fit
   * the validator's bounds and the store does not fail.
   */
  lemma NewRouteSessionStored(sessions: map<SessionKey, ChatSession>, key: SessionKey, title: string,
                              question: string, answer: string, now: int)
    requires key !in sessions && 10 <= |key.0| <= 50 && 1 <= |title| <= 500
    requires 1 <= |question| <= 2000 && 1 <= |answer| <= 2000
    ensures UpsertApplied(true, Upserted(sessions, key, title, NewMessages(question, answer, now), now), false)
    ensures ValidChat(ChatDocument(Upserted(sessions, key, title, NewMessages(question, answer, now), now)))
  {
    var c := Upserted(sessions, key, title, NewMessages(question, answer, now), now);
    assert c.messages == NewMessages(question, answer, now);
    ChatValidIff(c);
  }
}
