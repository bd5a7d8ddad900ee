/**
 * The indexing client: the structured document `store` builds, the structured
 * index call, the query payload, and the REST calls for query, upload and
 * corpus creation.
 *
 * Remote calls are not made. Each call receives the reply the service would
 * give (`HttpReply` for REST, `RpcOutcome` for the RPC) and returns what the
 * client hands back to its caller together with the request it would send.
 */
module Semantic {
  import opened Common
  import CustomerId
  import TokenCache

  /** The only HTTP status the client treats as success. */
  const HttpOk := 200

  /** An HTTP reply: status, raw text, and the decoded JSON body. */
  datatype HttpReply<B> = HttpReply(status: int, text: string, body: B)

  /** A REST call succeeds exactly when its status is 200. */
  predicate Succeeded(status: int) {
    status == HttpOk
  }

  // ---------------------------------------------------------------------------
  // Structured documents
  // ---------------------------------------------------------------------------

  /** The prefix every structured document id carries. */
  const DocumentIdPrefix := "mvp-"

  datatype IndexSection = IndexSection(text: string)

  datatype IndexDocument = IndexDocument(documentId: string, title: string, metadataJson: string, sections: seq<IndexSection>)

  /** `json.dumps({"is_title": b})`. */
  function IsTitleJson(isTitle: bool): string {
    if isTitle then "{\"is_title\": true}" else "{\"is_title\": false}"
  }

  /** Reads the title flag back from a document's metadata, when it has the form `store` writes. */
  function ReadIsTitle(json: string): Option<bool> {
    if json == "{\"is_title\": true}" then Some(true)
    else if json == "{\"is_title\": false}" then Some(false)
    else None
  }

  /** The identifier a structured document was stored under, recovered from its id. */
  function StoredIdentifier(documentId: string): Option<string> {
    if |DocumentIdPrefix| <= |documentId| && documentId[..|DocumentIdPrefix|] == DocumentIdPrefix
    then Some(documentId[|DocumentIdPrefix|..])
    else None
  }

  /** The texts of a document's sections, in order. */
  function SectionTexts(sections: seq<IndexSection>): (texts: seq<string>)
    ensures |texts| == |sections|
    ensures forall i :: 0 <= i < |sections| ==> texts[i] == sections[i].text
  {
    if |sections| == 0 then [] else SectionTexts(sections[..|sections| - 1]) + [sections[|sections| - 1].text]
  }

  /**
   * Builds a structured document: its id is the identifier under the fixed
   * prefix, its title is copied, its metadata records only the title flag, and
   * it has one section per input text, with the same text, in the same order.
   */
  function Store(id: string, title: string, isTitle: bool, texts: seq<string>): (d: IndexDocument)
    ensures StoredIdentifier(d.documentId) == Some(id)
    ensures d.title == title
    ensures ReadIsTitle(d.metadataJson) == Some(isTitle)
    ensures SectionTexts(d.sections) == texts
  {
    var d := IndexDocument(DocumentIdPrefix + id, title, IsTitleJson(isTitle), SectionsOf(texts));
    assert (DocumentIdPrefix + id)[..|DocumentIdPrefix|] == DocumentIdPrefix;
    assert (DocumentIdPrefix + id)[|DocumentIdPrefix|..] == id;
    d
  }

  /** One section per text, in order. */
  function SectionsOf(texts: seq<string>): (sections: seq<IndexSection>)
    ensures |sections| == |texts|
    ensures forall i :: 0 <= i < |texts| ==> sections[i] == IndexSection(texts[i])
  {
    if |texts| == 0 then [] else SectionsOf(texts[..|texts| - 1]) + [IndexSection(texts[|texts| - 1])]
  }

  /** Two stored documents have the same id exactly when they were stored under the same identifier. */
  lemma StoreIdsAreInjective(id1: string, id2: string, title1: string, title2: string,
                             flag1: bool, flag2: bool, texts1: seq<string>, texts2: seq<string>)
    ensures Store(id1, title1, flag1, texts1).documentId == Store(id2, title2, flag2, texts2).documentId
            <==> id1 == id2
  {
    var d1 := Store(id1, title1, flag1, texts1);
    var d2 := Store(id2, title2, flag2, texts2);
    if d1.documentId == d2.documentId {
      assert StoredIdentifier(d1.documentId) == StoredIdentifier(d2.documentId);
    }
  }

  // ---------------------------------------------------------------------------
  // Structured index call
  // ---------------------------------------------------------------------------

  /** The RPC's outcome: it completes, or raises an RPC error. */
  datatype RpcOutcome = RpcCompleted | RpcFailed(error: string)

  /** The request and the binary customer-id header the index call sends. */
  datatype IndexRequest = IndexRequest(customerId: int, corpusId: int, document: IndexDocument, customerIdBin: seq<byte>)

  /**
   * What `index` does: a customer or corpus id outside 64 bits cannot be
   * assigned to the request's int64 field, so building the request raises
   * before the RPC's error handling is reached (the later
   * `struct.pack(">q", ...)` would reject the same customer ids); otherwise
   * the request is sent and the pair `(error, success)` comes back.
   */
  datatype IndexOutcome = IdOutOfRange | Sent(request: IndexRequest, error: Option<string>, success: bool)

  function Index(document: IndexDocument, customerId: int, corpusId: int, rpc: RpcOutcome): (r: IndexOutcome)
    ensures r.IdOutOfRange? <==> !CustomerId.InInt64(customerId) || !CustomerId.InInt64(corpusId)
    ensures r.Sent? ==> r.request.customerId == customerId && r.request.corpusId == corpusId
    ensures r.Sent? ==> r.request.document == document
    ensures r.Sent? ==> |r.request.customerIdBin| == 8 && CustomerId.Unpack(r.request.customerIdBin) == customerId
    ensures r.Sent? ==> (r.success <==> rpc.RpcCompleted?)
    ensures r.Sent? && rpc.RpcCompleted? ==> r.error.None?
    ensures r.Sent? && rpc.RpcFailed? ==> r.error == Some(rpc.error)
  {
    if !CustomerId.InInt64(customerId) || !CustomerId.InInt64(corpusId) then IdOutOfRange
    else
      var bin := CustomerId.Pack(customerId).value;
      CustomerId.PackUnpack(customerId);
      var request := IndexRequest(customerId, corpusId, document, bin);
      match rpc
      case RpcCompleted => Sent(request, None, true)
      case RpcFailed(e) => Sent(request, Some(e), false)
  }

  // ---------------------------------------------------------------------------
  // Query
  // ---------------------------------------------------------------------------

  const ResultsPerQuery := 20
  const DefaultSemantics := "DEFAULT"

  datatype CorpusKey = CorpusKey(customerId: int, corpusId: int, semantics: string)
  datatype QueryItem = QueryItem(query: string, start: int, numResults: int, corpusKey: seq<CorpusKey>)
  datatype QueryPayload = QueryPayload(query: seq<QueryItem>)

  /** The payload of a search: one query, first page of 20 results, against one corpus with default semantics. */
  function QueryPayloadFor(customerId: int, corpusId: int, text: string): (p: QueryPayload)
    ensures |p.query| == 1
    ensures p.query[0].start == 0 && p.query[0].numResults == ResultsPerQuery
    ensures p.query[0].corpusKey == [CorpusKey(customerId, corpusId, DefaultSemantics)]
    ensures p.query[0].query == text
  {
    QueryPayload([QueryItem(text, 0, ResultsPerQuery, [CorpusKey(customerId, corpusId, DefaultSemantics)])])
  }

  /** What a payload asks for, when it has the single-query, single-corpus shape the client sends. */
  datatype QueryTarget = QueryTarget(customerId: int, corpusId: int, text: string)

  function TargetOf(p: QueryPayload): Option<QueryTarget> {
    if |p.query| == 1 && p.query[0].start == 0 && p.query[0].numResults == ResultsPerQuery
       && |p.query[0].corpusKey| == 1 && p.query[0].corpusKey[0].semantics == DefaultSemantics
    then Some(QueryTarget(p.query[0].corpusKey[0].customerId, p.query[0].corpusKey[0].corpusId, p.query[0].query))
    else None
  }

  /** The payload determines the search exactly: reading it back gives the customer, corpus and text it was built from, and it is the only payload of that shape that does. */
  lemma QueryPayloadRoundTrip(customerId: int, corpusId: int, text: string, p: QueryPayload)
    ensures TargetOf(QueryPayloadFor(customerId, corpusId, text)) == Some(QueryTarget(customerId, corpusId, text))
    ensures TargetOf(p) == Some(QueryTarget(customerId, corpusId, text)) ==> p == QueryPayloadFor(customerId, corpusId, text)
  {
    if TargetOf(p) == Some(QueryTarget(customerId, corpusId, text)) {
      assert p.query == [p.query[0]];
      assert p.query[0].corpusKey == [p.query[0].corpusKey[0]];
    }
  }

  /** What `query` returns: the response, its raw text as the error slot, and the success flag. */
  datatype QueryResult<B> = QueryResult(payload: QueryPayload, response: HttpReply<B>, error: string, success: bool)

  function Query<B>(customerId: int, corpusId: int, text: string, reply: HttpReply<B>): (r: QueryResult<B>)
    ensures TargetOf(r.payload) == Some(QueryTarget(customerId, corpusId, text))
    ensures r.success <==> reply.status == 200
    ensures r.response == reply && r.error == reply.text
  {
    QueryPayloadRoundTrip(customerId, corpusId, text, QueryPayloadFor(customerId, corpusId, text));
    QueryResult(QueryPayloadFor(customerId, corpusId, text), reply, reply.text, Succeeded(reply.status))
  }

  /** A search: a bearer token from the cache, then the query; the cache moves on as the lookup says. */
  datatype SearchCall<B> = SearchCall(bearer: string, result: QueryResult<B>, cache: TokenCache.Cache)

  /**
   * `field` selects which field of the cached token is compared with the
   * clock: `ExpiresInField` is the client as written, `ExpiresAtField` the
   * evidently intended lookup.
   */
  function Search<B>(cache: TokenCache.Cache, now: int, issued: TokenCache.OAuthToken, field: TokenCache.ExpiryField,
                     customerId: int, corpusId: int, text: string, reply: HttpReply<B>): (r: SearchCall<B>)
    ensures var lookup := TokenCache.GetJwtTokenWith(cache, now, issued, field);
            && (lookup.fetched ==> r.bearer == issued.accessToken && r.cache == TokenCache.Holding(issued))
            && (!lookup.fetched ==> r.bearer == cache.token.accessToken && r.cache == cache)
    ensures TargetOf(r.result.payload) == Some(QueryTarget(customerId, corpusId, text))
    ensures r.result.success <==> reply.status == 200
  {
    var lookup := TokenCache.GetJwtTokenWith(cache, now, issued, field);
    SearchCall(lookup.accessToken, Query(customerId, corpusId, text, reply), lookup.cache)
  }

  // ---------------------------------------------------------------------------
  // Upload
  // ---------------------------------------------------------------------------

  /** The multipart upload: file name and MIME type of the part, the target corpus, the content. */
  datatype UploadRequest = UploadRequest(fileName: string, mimeType: string, corpusId: Option<int>, content: seq<byte>)

  /** What `upload` returns: the response and the success flag. */
  datatype UploadResult<B> = UploadResult(request: UploadRequest, response: HttpReply<B>, success: bool)

  function Upload<B>(content: seq<byte>, title: string, extension: string, mimeType: string,
                     corpusId: Option<int>, reply: HttpReply<B>): (r: UploadResult<B>)
    ensures |r.request.fileName| == |title| + |extension|
    ensures r.request.fileName[..|title|] == title && r.request.fileName[|title|..] == extension
    ensures r.request.mimeType == mimeType && r.request.corpusId == corpusId && r.request.content == content
    ensures r.success <==> reply.status == 200
    ensures r.response == reply
  {
    assert (title + extension)[..|title|] == title && (title + extension)[|title|..] == extension;
    UploadResult(UploadRequest(title + extension, mimeType, corpusId, content), reply, Succeeded(reply.status))
  }

  // ---------------------------------------------------------------------------
  // Corpus creation
  // ---------------------------------------------------------------------------

  datatype CorpusRequest = CorpusRequest(name: string, description: string)

  /** What `create_corpus` returns: the response and the success flag. */
  datatype CorpusResult<B> = CorpusResult(request: CorpusRequest, response: HttpReply<B>, success: bool)

  function CreateCorpus<B>(name: string, description: string, reply: HttpReply<B>): (r: CorpusResult<B>)
    ensures r.request == CorpusRequest(name, description)
    ensures r.success <==> reply.status == 200
    ensures r.response == reply
  {
    CorpusResult(CorpusRequest(name, description), reply, Succeeded(reply.status))
  }
}
