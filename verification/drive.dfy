/**
 * The Drive-style source connector: paginated listing, the choice of export
 * format, the chunked download and the file iterator.
 *
 * The provider is not called. Its answers are inputs: the listing receives the
 * sequence of responses the provider gives to successive list requests, and the
 * download receives the sequence of chunks the downloader reports.
 */
module Drive {
  import opened Common

  const GoogleDoc := "application/vnd.google-apps.document"
  const GoogleSlides := "application/vnd.google-apps.presentation"
  const DocxMime := "application/vnd.openxmlformats-officedocument.wordprocessingml.document"
  const PptxMime := "application/vnd.openxmlformats-officedocument.presentationml.presentation"
  const PlainText := "text/plain"

  /** Native Google formats and the portable format each one is exported as. */
  const MimetypesToExport: map<string, string> := map[GoogleDoc := DocxMime, GoogleSlides := PptxMime]

  /** The MIME types named by the listing's default query, in the order it names them. */
  const DefaultQueryTypes: seq<string> := [GoogleDoc, GoogleSlides]

  /** A listed file, with the fields the listing asks the provider for. */
  datatype DriveFile = DriveFile(id: string, name: string, mimeType: string, webViewLink: string, size: Option<int>)

  /** One page of the listing; either key may be missing from the provider's answer. */
  datatype Page = Page(files: Option<seq<DriveFile>>, nextPageToken: Option<string>)

  /** The provider's answer to one list request. */
  datatype PageResponse = Listed(page: Page) | HttpError(reason: string)

  /** What one list request carries besides the constant options. */
  datatype ListRequest = ListRequest(query: string, pageToken: Option<string>)

  // ---------------------------------------------------------------------------
  // The listing query
  // ---------------------------------------------------------------------------

  /** One clause of a Drive query admitting a single MIME type. */
  function MimeClause(mimeType: string): string {
    "mimeType='" + mimeType + "'"
  }

  /** A Drive query admitting exactly the given MIME types, as a disjunction. */
  function MimeQuery(types: seq<string>): string
    requires |types| > 0
  {
    if |types| == 1 then MimeClause(types[0])
    else MimeQuery(types[..|types| - 1]) + " or " + MimeClause(types[|types| - 1])
  }

  /** The query used when the caller of the listing gives none. */
  function DefaultQuery(): (q: string)
    ensures q == "mimeType='" + GoogleDoc + "' or mimeType='" + GoogleSlides + "'"
  {
    assert DefaultQueryTypes[..1] == [GoogleDoc];
    assert MimeQuery(DefaultQueryTypes) == MimeClause(GoogleDoc) + " or " + MimeClause(GoogleSlides);
    MimeQuery(DefaultQueryTypes)
  }

  /** Every type the default query admits has an export entry, so such files are never fetched as plain text. */
  lemma DefaultQueryTypesAreExported()
    ensures forall t :: t in DefaultQueryTypes <==> t in MimetypesToExport
    ensures forall t :: t in DefaultQueryTypes ==> ExportMimeType(t) != PlainText
  {
    assert DefaultQueryTypes[0] == GoogleDoc && DefaultQueryTypes[1] == GoogleSlides;
  }

  // ---------------------------------------------------------------------------
  // Export format
  // ---------------------------------------------------------------------------

  /** The MIME type a file is exported as: the table's entry, or plain text when unmapped. */
  function ExportMimeType(mimeType: string): (r: string)
    ensures mimeType == GoogleDoc ==> r == DocxMime
    ensures mimeType == GoogleSlides ==> r == PptxMime
    ensures mimeType != GoogleDoc && mimeType != GoogleSlides ==> r == PlainText
  {
    if mimeType in MimetypesToExport then MimetypesToExport[mimeType] else PlainText
  }

  /** A file is exported to a portable office format exactly when its type is one the default query admits. */
  lemma ExportedIffIndexable(mimeType: string)
    ensures ExportMimeType(mimeType) != PlainText <==> mimeType in DefaultQueryTypes
    ensures ExportMimeType(mimeType) in {DocxMime, PptxMime, PlainText}
  {
    assert DefaultQueryTypes[0] == GoogleDoc && DefaultQueryTypes[1] == GoogleSlides;
  }

  // ---------------------------------------------------------------------------
  // Pagination
  // ---------------------------------------------------------------------------

  /** The files a page contributes: none when the page has no `files` key. */
  function FilesOf(p: Page): seq<DriveFile> {
    p.files.GetOr([])
  }

  /** The listing stops after this response: it is an error or a page without a next token. */
  predicate Stops(r: PageResponse) {
    r.HttpError? || r.page.nextPageToken.None?
  }

  /** The provider eventually ends the listing. */
  predicate Ends(responses: seq<PageResponse>) {
    exists i :: 0 <= i < |responses| && Stops(responses[i])
  }

  /** The position of the response after which the listing stops. */
  function StopIndex(responses: seq<PageResponse>): (n: nat)
    requires Ends(responses)
    ensures n < |responses| && Stops(responses[n])
    ensures forall i :: 0 <= i < n ==> !Stops(responses[i])
    decreases |responses|
  {
    if Stops(responses[0]) then 0
    else
      assert Ends(responses[1..]) by {
        var i :| 0 <= i < |responses| && Stops(responses[i]);
        assert i > 0 && Stops(responses[1..][i - 1]);
      }
      1 + StopIndex(responses[1..])
  }

  /** All files of a run of successful pages, in page order. */
  function Concat(responses: seq<PageResponse>): seq<DriveFile>
    requires forall i :: 0 <= i < |responses| ==> responses[i].Listed?
  {
    if |responses| == 0 then []
    else Concat(responses[..|responses| - 1]) + FilesOf(responses[|responses| - 1].page)
  }

  /** Concatenation read from the front: the first page's files come first. */
  lemma {:induction false} ConcatCons(responses: seq<PageResponse>)
    requires |responses| > 0
    requires forall i :: 0 <= i < |responses| ==> responses[i].Listed?
    ensures Concat(responses) == FilesOf(responses[0].page) + Concat(responses[1..])
    decreases |responses|
  {
    if |responses| > 1 {
      var init := responses[..|responses| - 1];
      ConcatCons(init);
      assert init[1..] == responses[1..][..|responses[1..]| - 1];
      assert init[0] == responses[0];
    } else {
      assert responses[1..] == [];
    }
  }

  /**
   * The result of the listing as a fold over the responses: the files of every
   * page up to and including the last one, or nothing at all when a request
   * fails, whatever had been gathered before.
   */
  function ListFiles(responses: seq<PageResponse>): (r: Option<seq<DriveFile>>)
    requires Ends(responses)
    ensures r.None? <==> responses[StopIndex(responses)].HttpError?
    ensures r.Some? ==> r.value == Concat(responses[..StopIndex(responses) + 1])
    decreases |responses|
  {
    match responses[0]
    case HttpError(_) => None
    case Listed(p) =>
      if p.nextPageToken.None? then
        assert responses[..1] == [responses[0]];
        Some(FilesOf(p))
      else
        match ListFiles(responses[1..])
        case None => None
        case Some(tail) =>
          var n := StopIndex(responses);
          assert responses[n].Listed?;
          ConcatCons(responses[..n + 1]);
          assert responses[..n + 1][1..] == responses[1..][..StopIndex(responses[1..]) + 1];
          Some(FilesOf(p) + tail)
  }

  /**
   * The listing loop. The first request carries no page token and every later
   * request carries the token of the response before it; the loop issues one
   * request per response up to the stopping one, and its result agrees with
   * the fold `ListFiles`.
   */
  method ListFilesLoop(query: string, responses: seq<PageResponse>)
      returns (files: Option<seq<DriveFile>>, requests: seq<ListRequest>)
    requires Ends(responses)
    ensures |requests| == StopIndex(responses) + 1
    ensures requests[0].pageToken.None?
    ensures forall i :: 0 < i < |requests| ==>
              responses[i - 1].Listed? && requests[i].pageToken == responses[i - 1].page.nextPageToken
    ensures forall i :: 0 <= i < |requests| ==> requests[i].query == query
    ensures files == ListFiles(responses)
  {
    var n := StopIndex(responses);
    var gathered: seq<DriveFile> := [];
    var pageToken: Option<string> := None;
    var k := 0;
    requests := [];
    while true
      invariant 0 <= k <= n
      invariant |requests| == k
      invariant gathered == Concat(responses[..k])
      invariant k == 0 ==> pageToken.None?
      invariant k > 0 ==> pageToken == responses[k - 1].page.nextPageToken
      invariant forall i :: 0 < i < k ==> requests[i].pageToken == responses[i - 1].page.nextPageToken
      invariant k > 0 ==> requests[0].pageToken.None?
      invariant forall i :: 0 <= i < k ==> requests[i].query == query
      decreases n - k
    {
      requests := requests + [ListRequest(query, pageToken)];
      match responses[k]
      case HttpError(_) =>
        files := None;
        return;
      case Listed(p) =>
        assert responses[..k + 1][..k] == responses[..k];
        gathered := gathered + FilesOf(p);
        pageToken := p.nextPageToken;
        if pageToken.None? {
          files := Some(gathered);
          return;
        }
        k := k + 1;
    }
  }

  /**
   * Pagination termination: when pages 0..N-1 all carry a next token and page N
   * carries none, the listing is exactly the files of pages 0..N in order.
   */
  lemma ListingOfCompletePages(responses: seq<PageResponse>, n: nat)
    requires n < |responses|
    requires forall i :: 0 <= i < n ==> responses[i].Listed? && responses[i].page.nextPageToken.Some?
    requires responses[n].Listed? && responses[n].page.nextPageToken.None?
    ensures Ends(responses) && StopIndex(responses) == n
    ensures ListFiles(responses) == Some(Concat(responses[..n + 1]))
  {
    assert Stops(responses[n]);
  }

  /** An error at any page up to the last one discards everything gathered before it. */
  lemma ErrorDiscardsListing(responses: seq<PageResponse>, k: nat)
    requires k < |responses| && responses[k].HttpError?
    requires forall i :: 0 <= i < k ==> responses[i].Listed? && responses[i].page.nextPageToken.Some?
    ensures Ends(responses) && ListFiles(responses).None?
  {
    assert Stops(responses[k]);
  }

  // ---------------------------------------------------------------------------
  // Download
  // ---------------------------------------------------------------------------

  /** What one call to the downloader reports: the bytes it wrote and whether it is done. */
  datatype Chunk = Chunk(data: seq<byte>, done: bool)

  /** An in-memory byte stream and its read/write position. */
  datatype Buffer = Buffer(content: seq<byte>, position: nat)

  /** The downloader eventually reports that it is done. */
  predicate Finishes(chunks: seq<Chunk>) {
    exists i :: 0 <= i < |chunks| && chunks[i].done
  }

  /** The position of the first chunk reported as done. */
  function LastChunk(chunks: seq<Chunk>): (n: nat)
    requires Finishes(chunks)
    ensures n < |chunks| && chunks[n].done
    ensures forall i :: 0 <= i < n ==> !chunks[i].done
    decreases |chunks|
  {
    if chunks[0].done then 0
    else
      assert Finishes(chunks[1..]) by {
        var i :| 0 <= i < |chunks| && chunks[i].done;
        assert i > 0 && chunks[1..][i - 1].done;
      }
      1 + LastChunk(chunks[1..])
  }

  /** The bytes of a run of chunks, in order. */
  function ChunkBytes(chunks: seq<Chunk>): seq<byte> {
    if |chunks| == 0 then [] else ChunkBytes(chunks[..|chunks| - 1]) + chunks[|chunks| - 1].data
  }

  /** Appends bytes at the end of a stream, moving the position past them. */
  function Write(b: Buffer, data: seq<byte>): Buffer {
    Buffer(b.content + data, |b.content| + |data|)
  }

  /**
   * Exports one file: asks for the export type the table gives, pulls chunks
   * until the downloader reports done, and hands back the stream rewound to
   * its start. The export request itself is left to the provider.
   */
  method DownloadFile(file: DriveFile, chunks: seq<Chunk>)
      returns (exportType: string, fh: Buffer, pulled: nat)
    requires Finishes(chunks)
    ensures exportType == ExportMimeType(file.mimeType)
    ensures pulled == LastChunk(chunks) + 1
    ensures fh.content == ChunkBytes(chunks[..pulled])
    ensures fh.position == 0
  {
    exportType := ExportMimeType(file.mimeType);
    var last := LastChunk(chunks);
    var stream := Buffer([], 0);
    var done := false;
    pulled := 0;
    while !done
      invariant 0 <= pulled <= last + 1
      invariant done <==> pulled == last + 1
      invariant stream.content == ChunkBytes(chunks[..pulled])
      decreases last + 1 - pulled
    {
      var chunk := chunks[pulled];
      assert chunks[..pulled + 1][..pulled] == chunks[..pulled];
      stream := Write(stream, chunk.data);
      done := chunk.done;
      pulled := pulled + 1;
    }
    fh := stream.(position := 0);
  }

  // ---------------------------------------------------------------------------
  // Iteration
  // ---------------------------------------------------------------------------

  /** What iterating over a listing produces: the files one by one, or Python's `TypeError` for `None`. */
  datatype Iteration = Yields(files: seq<DriveFile>) | NotIterable

  /**
   * Iterating over a workspace's files lists them and yields each listed file
   * once, in listing order; a failed listing cannot be iterated.
   */
  function IterFiles(responses: seq<PageResponse>): (r: Iteration)
    requires Ends(responses)
    ensures r.NotIterable? <==> responses[StopIndex(responses)].HttpError?
    ensures r.Yields? ==> r.files == Concat(responses[..StopIndex(responses) + 1])
  {
    match ListFiles(responses)
    case None => NotIterable
    case Some(files) => Yields(files)
  }
}
