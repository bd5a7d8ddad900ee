/**
 * The workspace indexing job: make sure the workspace has a corpus, then for
 * every listed file upload its exported content and, when the upload
 * succeeds, mirror one Document and its Sections.
 *
 * The listing, the downloads and the uploads are inputs: each `Item` pairs a
 * listed file with its downloaded content and the reply its upload receives.
 */
module Tasks {
  import opened Common
  import Drive
  import Semantic
  import Models
  import Words

  /** Portable office formats and the file extension an upload gives each one. */
  const ExtensionFromMimetype: map<string, string> := map[Drive.DocxMime := ".docx", Drive.PptxMime := ".pptx"]

  /** The extension for a MIME type: the table's entry, or none at all. */
  function ExtensionFor(mimeType: string): (ext: string)
    ensures mimeType == Drive.DocxMime ==> ext == ".docx"
    ensures mimeType == Drive.PptxMime ==> ext == ".pptx"
    ensures mimeType != Drive.DocxMime && mimeType != Drive.PptxMime ==> ext == ""
  {
    if mimeType in ExtensionFromMimetype then ExtensionFromMimetype[mimeType] else ""
  }

  /** The extension table is keyed on export types: an exported file gets an extension exactly when its listed type is one the default query admits. */
  lemma ExtensionOfExport(mimeType: string)
    ensures ExtensionFor(Drive.ExportMimeType(mimeType)) != "" <==> mimeType in Drive.DefaultQueryTypes
    ensures mimeType == Drive.GoogleDoc ==> ExtensionFor(Drive.ExportMimeType(mimeType)) == ".docx"
    ensures mimeType == Drive.GoogleSlides ==> ExtensionFor(Drive.ExportMimeType(mimeType)) == ".pptx"
  {
    Drive.ExportedIffIndexable(mimeType);
  }

  // ---------------------------------------------------------------------------
  // Upload replies and items
  // ---------------------------------------------------------------------------

  /** A section of the uploaded document as the backend reports it; its text may be missing. */
  datatype BackendSection = BackendSection(id: int, text: Option<string>)

  /** The decoded body of a successful upload: the quota consumed and the document the backend made of the file. */
  datatype UploadBody = UploadBody(numChars: int, numMetadataChars: int, documentId: string, sections: seq<BackendSection>)

  /** One listed file, the content its download produced, and the reply its upload receives. */
  datatype Item = Item(file: Drive.DriveFile, content: seq<byte>, reply: Semantic.HttpReply<UploadBody>)

  predicate Uploaded(item: Item) {
    Semantic.Succeeded(item.reply.status)
  }

  /** The upload as the job writes it: extension and declared type come from the listed file's own MIME type. */
  function UploadAsWritten(corpusId: Option<int>, item: Item): Semantic.UploadResult<UploadBody> {
    Semantic.Upload(item.content, item.file.name, ExtensionFor(item.file.mimeType), item.file.mimeType, corpusId, item.reply)
  }

  /** The upload with extension and declared type taken from the type the file was exported as. */
  function UploadFor(corpusId: Option<int>, item: Item): (r: Semantic.UploadResult<UploadBody>)
    ensures r.request.mimeType == Drive.ExportMimeType(item.file.mimeType)
    ensures r.request.fileName == item.file.name + ExtensionFor(r.request.mimeType)
    ensures r.request.corpusId == corpusId && r.request.content == item.content
    ensures r.success <==> Uploaded(item)
  {
    var exported := Drive.ExportMimeType(item.file.mimeType);
    Semantic.Upload(item.content, item.file.name, ExtensionFor(exported), exported, corpusId, item.reply)
  }

  /**
   * As written, a file the default listing returns (a Google Doc or Slides
   * file) is uploaded under its bare name and its Google-native type, although
   * its content is the exported office file.
   */
  lemma AsWrittenListedFilesGetNoExtension(corpusId: Option<int>, item: Item)
    requires item.file.mimeType in Drive.DefaultQueryTypes
    ensures UploadAsWritten(corpusId, item).request.fileName == item.file.name
    ensures UploadAsWritten(corpusId, item).request.mimeType in Drive.MimetypesToExport
  {
    assert Drive.DefaultQueryTypes[0] == Drive.GoogleDoc && Drive.DefaultQueryTypes[1] == Drive.GoogleSlides;
    var r := UploadAsWritten(corpusId, item).request;
    assert r.fileName[..|item.file.name|] == item.file.name;
  }

  /**
   * With the export type, a listed Google Doc goes up as `<name>.docx` of the
   * word-processing type and a Slides file as `<name>.pptx` of the
   * presentation type; the request targets the given corpus and carries the
   * downloaded content.
   */
  lemma UploadCarriesExportType(corpusId: Option<int>, item: Item)
    requires item.file.mimeType in Drive.DefaultQueryTypes
    ensures var r := UploadFor(corpusId, item).request;
            && r.fileName[..|item.file.name|] == item.file.name
            && (item.file.mimeType == Drive.GoogleDoc ==> r.fileName[|item.file.name|..] == ".docx" && r.mimeType == Drive.DocxMime)
            && (item.file.mimeType == Drive.GoogleSlides ==> r.fileName[|item.file.name|..] == ".pptx" && r.mimeType == Drive.PptxMime)
            && r.corpusId == corpusId && r.content == item.content
  {
    assert Drive.DefaultQueryTypes[0] == Drive.GoogleDoc && Drive.DefaultQueryTypes[1] == Drive.GoogleSlides;
  }

  // ---------------------------------------------------------------------------
  // Mirror write
  // ---------------------------------------------------------------------------

  /** The mirrored section for one backend section of document `doc`: its id, its text (empty when missing) and its word count. */
  function SectionFor(doc: nat, b: BackendSection): (s: Models.Section)
    ensures s.document == doc && s.sectionId == b.id && s.text == b.text.GetOr("")
  {
    var text := b.text.GetOr("");
    Models.Section(doc, Words.WordCount(text), b.id, text)
  }

  /** The stored word count is the number of words `split()` finds in the section's text. */
  lemma SectionWordCount(doc: nat, b: BackendSection)
    ensures SectionFor(doc, b).wordCount == |Words.Split(b.text.GetOr(""))|
  {
    Words.WordCountIsSplitLength(b.text.GetOr(""));
  }

  function SectionsFor(doc: nat, ss: seq<BackendSection>): (r: seq<Models.Section>)
    ensures |r| == |ss|
    ensures forall i :: 0 <= i < |ss| ==> r[i] == SectionFor(doc, ss[i])
  {
    if |ss| == 0 then [] else SectionsFor(doc, ss[..|ss| - 1]) + [SectionFor(doc, ss[|ss| - 1])]
  }

  /** The mirrored document for a successful upload of `file` into workspace `wsId`. */
  function DocumentFor(wsId: int, file: Drive.DriveFile, body: UploadBody): Models.Document {
    Models.Document(wsId, file.webViewLink, file.name, body.documentId, body.numChars + body.numMetadataChars)
  }

  /**
   * Records one successful upload: exactly one new Document with the file's
   * link and name, the backend's document id and the consumed size, and one new
   * Section per backend section, in order, pointing at that Document, with the
   * backend's section id, the section text (empty when missing) and the number
   * of words `split()` finds in it. Nothing already in the mirror changes.
   */
  function MirrorWrite(m: Models.Mirror, wsId: int, file: Drive.DriveFile, body: UploadBody): (r: Models.Mirror)
    ensures |r.documents| == |m.documents| + 1 && r.documents[..|m.documents|] == m.documents
    ensures var d := r.documents[|m.documents|];
            && d.workspace == wsId && d.link == file.webViewLink && d.title == file.name
            && d.identifier == body.documentId && d.size == body.numChars + body.numMetadataChars
    ensures |r.sections| == |m.sections| + |body.sections| && r.sections[..|m.sections|] == m.sections
    ensures forall i :: 0 <= i < |body.sections| ==>
              var s := r.sections[|m.sections| + i];
              && s.document == |m.documents| && s.sectionId == body.sections[i].id
              && s.text == body.sections[i].text.GetOr("")
              && s.wordCount == |Words.Split(s.text)|
    ensures Models.NoOrphans(m) ==> Models.NoOrphans(r)
  {
    var added := SectionsFor(|m.documents|, body.sections);
    var sections := m.sections + added;
    assert sections[..|m.sections|] == m.sections;
    assert forall i :: 0 <= i < |body.sections| ==> sections[|m.sections| + i] == added[i];
    forall i | 0 <= i < |body.sections|
      ensures added[i].wordCount == |Words.Split(added[i].text)|
    {
      SectionWordCount(|m.documents|, body.sections[i]);
    }
    Models.Mirror(m.documents + [DocumentFor(wsId, file, body)], sections)
  }

  // ---------------------------------------------------------------------------
  // The per-item loop
  // ---------------------------------------------------------------------------

  /** One item: upload; on success mirror it, on failure leave the mirror alone. */
  function IndexItem(m: Models.Mirror, wsId: int, corpusId: Option<int>, item: Item): Models.Mirror {
    var upload := UploadFor(corpusId, item);
    if upload.success then MirrorWrite(m, wsId, item.file, item.reply.body) else m
  }

  /** Every item in listing order; a failed item does not stop the ones after it. */
  function IndexItems(m: Models.Mirror, wsId: int, corpusId: Option<int>, items: seq<Item>): Models.Mirror
    decreases |items|
  {
    if |items| == 0 then m else IndexItems(IndexItem(m, wsId, corpusId, items[0]), wsId, corpusId, items[1..])
  }

  /** The items whose upload succeeded, in order. */
  function Successful(items: seq<Item>): (r: seq<Item>)
    ensures forall k :: 0 <= k < |r| ==> Uploaded(r[k])
    ensures forall x :: x in r <==> x in items && Uploaded(x)
    ensures |r| <= |items|
  {
    if |items| == 0 then []
    else (if Uploaded(items[0]) then [items[0]] else []) + Successful(items[1..])
  }

  /** The mirrored documents for a run of successful items. */
  function DocumentsFor(wsId: int, items: seq<Item>): (r: seq<Models.Document>)
    ensures |r| == |items|
    ensures forall k :: 0 <= k < |items| ==> r[k] == DocumentFor(wsId, items[k].file, items[k].reply.body)
  {
    if |items| == 0 then [] else [DocumentFor(wsId, items[0].file, items[0].reply.body)] + DocumentsFor(wsId, items[1..])
  }

  /** The loop composes: indexing `a` then `b` is indexing `a + b`. */
  lemma {:induction false} IndexItemsAppend(m: Models.Mirror, wsId: int, corpusId: Option<int>, a: seq<Item>, b: seq<Item>)
    ensures IndexItems(m, wsId, corpusId, a + b) == IndexItems(IndexItems(m, wsId, corpusId, a), wsId, corpusId, b)
    decreases |a|
  {
    if |a| == 0 {
      assert a + b == b;
    } else {
      assert (a + b)[0] == a[0] && (a + b)[1..] == a[1..] + b;
      IndexItemsAppend(IndexItem(m, wsId, corpusId, a[0]), wsId, corpusId, a[1..], b);
    }
  }

  /** Item isolation: an item whose upload fails leaves no trace, neither in the mirror nor on the items after it. */
  lemma FailedItemLeavesNoTrace(m: Models.Mirror, wsId: int, corpusId: Option<int>, a: seq<Item>, x: Item, b: seq<Item>)
    requires !Uploaded(x)
    ensures IndexItems(m, wsId, corpusId, a + [x] + b) == IndexItems(m, wsId, corpusId, a + b)
  {
    var mid := IndexItems(m, wsId, corpusId, a);
    IndexItemsAppend(m, wsId, corpusId, a + [x], b);
    IndexItemsAppend(m, wsId, corpusId, a, [x]);
    IndexItemsAppend(m, wsId, corpusId, a, b);
    assert [x][1..] == [];
    assert IndexItems(mid, wsId, corpusId, [x]) == mid;
  }

  /**
   * The documents the loop mirrors are exactly one per successful upload, in
   * listing order, each built from its file and upload reply; documents
   * already in the mirror stay as they are.
   */
  lemma {:induction false} DocumentsPerSuccess(m: Models.Mirror, wsId: int, corpusId: Option<int>, items: seq<Item>)
    ensures IndexItems(m, wsId, corpusId, items).documents == m.documents + DocumentsFor(wsId, Successful(items))
    decreases |items|
  {
    if |items| > 0 {
      var next := IndexItem(m, wsId, corpusId, items[0]);
      DocumentsPerSuccess(next, wsId, corpusId, items[1..]);
      var rest := DocumentsFor(wsId, Successful(items[1..]));
      if Uploaded(items[0]) {
        assert Successful(items) == [items[0]] + Successful(items[1..]);
        assert DocumentsFor(wsId, Successful(items)) == [DocumentFor(wsId, items[0].file, items[0].reply.body)] + rest;
        assert next.documents == m.documents + [DocumentFor(wsId, items[0].file, items[0].reply.body)];
      } else {
        assert Successful(items) == Successful(items[1..]);
      }
    }
  }

  // ---------------------------------------------------------------------------
  // Mirror completeness
  // ---------------------------------------------------------------------------

  /** The sections of the mirror that belong to document `doc`, in creation order. */
  function SectionsOfDoc(ss: seq<Models.Section>, doc: nat): (r: seq<Models.Section>)
    ensures forall i :: 0 <= i < |r| ==> r[i].document == doc
  {
    if |ss| == 0 then []
    else SectionsOfDoc(ss[..|ss| - 1], doc) + (if ss[|ss| - 1].document == doc then [ss[|ss| - 1]] else [])
  }

  lemma {:induction false} SectionsOfDocAppend(a: seq<Models.Section>, b: seq<Models.Section>, doc: nat)
    ensures SectionsOfDoc(a + b, doc) == SectionsOfDoc(a, doc) + SectionsOfDoc(b, doc)
    decreases |b|
  {
    if |b| == 0 {
      assert a + b == a;
    } else {
      var b' := b[..|b| - 1];
      assert (a + b)[..|a + b| - 1] == a + b';
      SectionsOfDocAppend(a, b', doc);
    }
  }

  lemma {:induction false} SectionsOfDocAll(ss: seq<Models.Section>, doc: nat)
    requires forall i :: 0 <= i < |ss| ==> ss[i].document == doc
    ensures SectionsOfDoc(ss, doc) == ss
    decreases |ss|
  {
    if |ss| > 0 {
      SectionsOfDocAll(ss[..|ss| - 1], doc);
    }
  }

  lemma {:induction false} SectionsOfDocNone(ss: seq<Models.Section>, doc: nat)
    requires forall i :: 0 <= i < |ss| ==> ss[i].document != doc
    ensures SectionsOfDoc(ss, doc) == []
    decreases |ss|
  {
    if |ss| > 0 {
      SectionsOfDocNone(ss[..|ss| - 1], doc);
    }
  }

  /**
   * Documents `base`, `base + 1`, ... of the mirror carry exactly the sections
   * their uploads reported, one per backend section, in order.
   */
  predicate Complete(m: Models.Mirror, base: nat, bodies: seq<UploadBody>) {
    && |m.documents| == base + |bodies|
    && forall j :: 0 <= j < |bodies| ==> SectionsOfDoc(m.sections, base + j) == SectionsFor(base + j, bodies[j].sections)
  }

  /** Appending a new document's sections leaves every older document's sections alone and gives the new one exactly those sections. */
  lemma SectionsAfterWrite(before: seq<Models.Section>, added: seq<Models.Section>, n: nat, d: nat)
    requires forall i :: 0 <= i < |before| ==> before[i].document < n
    requires forall i :: 0 <= i < |added| ==> added[i].document == n
    requires d <= n
    ensures d < n ==> SectionsOfDoc(before + added, d) == SectionsOfDoc(before, d)
    ensures d == n ==> SectionsOfDoc(before + added, d) == added
  {
    SectionsOfDocAppend(before, added, d);
    if d < n {
      SectionsOfDocNone(added, d);
    } else {
      SectionsOfDocNone(before, d);
      SectionsOfDocAll(added, d);
    }
  }

  lemma MirrorWriteSections(m: Models.Mirror, wsId: int, file: Drive.DriveFile, body: UploadBody)
    ensures MirrorWrite(m, wsId, file, body).sections == m.sections + SectionsFor(|m.documents|, body.sections)
  {
  }

  /**
   * Read per document, a write gives the new document exactly the sections
   * its upload reported, in order, and leaves every older document with the
   * sections it had.
   */
  lemma MirrorWriteGivesOwnSections(m: Models.Mirror, wsId: int, file: Drive.DriveFile, body: UploadBody)
    requires Models.NoOrphans(m)
    ensures var r := MirrorWrite(m, wsId, file, body);
            SectionsOfDoc(r.sections, |m.documents|) == SectionsFor(|m.documents|, body.sections)
    ensures var r := MirrorWrite(m, wsId, file, body);
            forall d :: 0 <= d < |m.documents| ==> SectionsOfDoc(r.sections, d) == SectionsOfDoc(m.sections, d)
  {
    var n := |m.documents|;
    var added := SectionsFor(n, body.sections);
    MirrorWriteSections(m, wsId, file, body);
    SectionsAfterWrite(m.sections, added, n, n);
    forall d | 0 <= d < n
      ensures SectionsOfDoc(m.sections + added, d) == SectionsOfDoc(m.sections, d)
    {
      SectionsAfterWrite(m.sections, added, n, d);
    }
  }

  /** Appending one document together with its sections keeps the mirror complete for one more upload. */
  lemma AppendKeepsComplete(m: Models.Mirror, r: Models.Mirror, body: UploadBody, base: nat, bodies: seq<UploadBody>)
    requires Models.NoOrphans(m) && Complete(m, base, bodies)
    requires |r.documents| == |m.documents| + 1
    requires r.sections == m.sections + SectionsFor(|m.documents|, body.sections)
    ensures Complete(r, base, bodies + [body])
  {
    var n := |m.documents|;
    var added := SectionsFor(n, body.sections);
    var all := bodies + [body];
    forall j | 0 <= j < |all|
      ensures SectionsOfDoc(r.sections, base + j) == SectionsFor(base + j, all[j].sections)
    {
      SectionsAfterWrite(m.sections, added, n, base + j);
      if j < |bodies| {
        assert all[j] == bodies[j];
      } else {
        assert all[j] == body;
      }
    }
  }

  lemma MirrorWriteKeepsComplete(m: Models.Mirror, wsId: int, file: Drive.DriveFile, body: UploadBody,
                                 base: nat, bodies: seq<UploadBody>)
    requires Models.NoOrphans(m) && Complete(m, base, bodies)
    ensures Complete(MirrorWrite(m, wsId, file, body), base, bodies + [body])
  {
    MirrorWriteSections(m, wsId, file, body);
    AppendKeepsComplete(m, MirrorWrite(m, wsId, file, body), body, base, bodies);
  }

  /**
   * Mirror completeness: after the loop, every document it created holds
   * exactly the sections the backend reported for its upload, and no section
   * points at a document the mirror lacks.
   */
  lemma {:induction false} IndexItemsComplete(m: Models.Mirror, wsId: int, corpusId: Option<int>, items: seq<Item>,
                                              base: nat, bodies: seq<UploadBody>)
    requires Models.NoOrphans(m) && Complete(m, base, bodies)
    ensures Models.NoOrphans(IndexItems(m, wsId, corpusId, items))
    ensures Complete(IndexItems(m, wsId, corpusId, items), base, bodies + BodiesOf(Successful(items)))
    decreases |items|
  {
    if |items| == 0 {
      assert bodies + BodiesOf(Successful(items)) == bodies;
    } else {
      var x := items[0];
      var next := IndexItem(m, wsId, corpusId, x);
      IndexItemKeepsComplete(m, wsId, corpusId, x, base, bodies);
      IndexItemsComplete(next, wsId, corpusId, items[1..], base, bodies + UploadedBody(x));
      SuccessfulBodiesCons(items);
      ConcatAssoc(bodies, UploadedBody(x), BodiesOf(Successful(items[1..])));
    }
  }

  /** The body an item contributes to the mirror: its upload's, when the upload succeeded. */
  function UploadedBody(x: Item): seq<UploadBody> {
    if Uploaded(x) then [x.reply.body] else []
  }

  lemma IndexItemKeepsComplete(m: Models.Mirror, wsId: int, corpusId: Option<int>, x: Item, base: nat, bodies: seq<UploadBody>)
    requires Models.NoOrphans(m) && Complete(m, base, bodies)
    ensures Models.NoOrphans(IndexItem(m, wsId, corpusId, x))
    ensures Complete(IndexItem(m, wsId, corpusId, x), base, bodies + UploadedBody(x))
  {
    IndexItemStep(m, wsId, corpusId, x);
    if Uploaded(x) {
      MirrorWriteKeepsComplete(m, wsId, x.file, x.reply.body, base, bodies);
    } else {
      assert bodies + UploadedBody(x) == bodies;
    }
  }

  /** One item either writes its upload into the mirror or leaves it as it was. */
  lemma IndexItemStep(m: Models.Mirror, wsId: int, corpusId: Option<int>, x: Item)
    ensures Uploaded(x) ==> IndexItem(m, wsId, corpusId, x) == MirrorWrite(m, wsId, x.file, x.reply.body)
    ensures !Uploaded(x) ==> IndexItem(m, wsId, corpusId, x) == m
  {
  }

  /** The bodies of the successful items are the first item's (when it succeeded) followed by the rest's. */
  lemma SuccessfulBodiesCons(items: seq<Item>)
    requires |items| > 0
    ensures BodiesOf(Successful(items)) == UploadedBody(items[0]) + BodiesOf(Successful(items[1..]))
  {
    if Uploaded(items[0]) {
      assert Successful(items) == [items[0]] + Successful(items[1..]);
      assert BodiesOf([items[0]] + Successful(items[1..])) == [items[0].reply.body] + BodiesOf(Successful(items[1..]));
    } else {
      assert Successful(items) == Successful(items[1..]);
    }
  }

  /** The upload bodies of a run of items. */
  function BodiesOf(items: seq<Item>): (r: seq<UploadBody>)
    ensures |r| == |items|
    ensures forall k :: 0 <= k < |items| ==> r[k] == items[k].reply.body
  {
    if |items| == 0 then [] else [items[0].reply.body] + BodiesOf(items[1..])
  }

  // ---------------------------------------------------------------------------
  // The job
  // ---------------------------------------------------------------------------

  /** What the job did: the workspace afterwards, the mirror, whether it asked for a corpus, and the uploads it sent. */
  datatype Run = Run(workspace: Models.Workspace, mirror: Models.Mirror, corpusRequested: bool,
                     uploads: seq<Semantic.UploadRequest>)

  /** The corpus step of the job: create a corpus only when the workspace has no corpus id. */
  function EnsureCorpus(ws: Models.Workspace, corpusReply: Semantic.HttpReply<Models.CorpusBody>): (r: Models.Workspace)
    ensures ws.corpusId.Some? ==> r == ws
    ensures r.(corpusId := ws.corpusId) == ws
    ensures ws.corpusId.None? && corpusReply.status == 200 && Models.Truthy(corpusReply.body.corpusId) ==>
              r.corpusId == corpusReply.body.corpusId
    ensures ws.corpusId.None? && !(corpusReply.status == 200 && Models.Truthy(corpusReply.body.corpusId)) ==>
              r.corpusId.None?
  {
    if ws.corpusId.None? then Models.CreateCorpus(ws, corpusReply).workspace else ws
  }

  function UploadsFor(corpusId: Option<int>, items: seq<Item>): (r: seq<Semantic.UploadRequest>)
    ensures |r| == |items|
    ensures forall i :: 0 <= i < |items| ==> r[i] == UploadFor(corpusId, items[i]).request
  {
    if |items| == 0 then [] else [UploadFor(corpusId, items[0]).request] + UploadsFor(corpusId, items[1..])
  }

  /**
   * Indexes a workspace: a corpus is requested exactly when the workspace has
   * no corpus id, an existing id is never replaced, every upload targets the
   * same corpus id (the one the workspace holds after the corpus step), one
   * upload is sent per listed item, and the mirror grows by one document per
   * successful upload.
   */
  function IndexWorkspace(ws: Models.Workspace, corpusReply: Semantic.HttpReply<Models.CorpusBody>,
                          items: seq<Item>, m: Models.Mirror): (r: Run)
    ensures r.corpusRequested <==> ws.corpusId.None?
    ensures ws.corpusId.Some? ==> r.workspace == ws
    ensures r.workspace.(corpusId := ws.corpusId) == ws
    ensures |r.uploads| == |items|
    ensures forall i :: 0 <= i < |items| ==> r.uploads[i].corpusId == r.workspace.corpusId
    ensures forall i :: 0 <= i < |items| ==> r.uploads[i].content == items[i].content
    ensures r.mirror.documents == m.documents + DocumentsFor(ws.id, Successful(items))
  {
    var ws' := EnsureCorpus(ws, corpusReply);
    DocumentsPerSuccess(m, ws.id, ws'.corpusId, items);
    Run(ws', IndexItems(m, ws.id, ws'.corpusId, items), ws.corpusId.None?, UploadsFor(ws'.corpusId, items))
  }

  /** Once a corpus id is recorded, later runs neither request a corpus nor change the id. */
  lemma CorpusIdIsStable(ws: Models.Workspace, reply1: Semantic.HttpReply<Models.CorpusBody>,
                         reply2: Semantic.HttpReply<Models.CorpusBody>,
                         items1: seq<Item>, items2: seq<Item>, m: Models.Mirror)
    requires IndexWorkspace(ws, reply1, items1, m).workspace.corpusId.Some?
    ensures var first := IndexWorkspace(ws, reply1, items1, m);
            var second := IndexWorkspace(first.workspace, reply2, items2, first.mirror);
            !second.corpusRequested && second.workspace == first.workspace
  {
  }

  // ---------------------------------------------------------------------------
  // A worked run
  // ---------------------------------------------------------------------------

  /** `n` one-letter words separated by single spaces. */
  function SpacedWords(n: nat): string
    requires n > 0
  {
    if n == 1 then "w" else SpacedWords(n - 1) + " " + "w"
  }

  lemma {:induction false} WordsCount(n: nat)
    requires n > 0
    ensures Words.WordCount(SpacedWords(n)) == n
  {
    if n > 1 {
      WordsCount(n - 1);
      Words.WordCountAcrossSpace(SpacedWords(n - 1), "w");
    } else {
      assert Words.WordCount("w") == Words.CountStarts("w", true);
      assert "w"[1..] == [];
    }
  }

  /**
   * A workspace without a corpus: the corpus call returns id 7, and one Google
   * Doc uploads with 120 content and 30 metadata characters and two sections of
   * ten and five words. The job records corpus 7, uploads into it, and mirrors
   * one document of size 150 with two sections counting 10 and 5 words.
   */
  lemma WorkedRun(ws: Models.Workspace, file: Drive.DriveFile, content: seq<byte>)
    requires ws.corpusId.None? && file.mimeType == Drive.GoogleDoc
    ensures var corpusReply := Semantic.HttpReply(200, "", Models.CorpusBody(Some(7)));
            var body := UploadBody(120, 30, "doc-1", [BackendSection(1, Some(SpacedWords(10))), BackendSection(2, Some(SpacedWords(5)))]);
            var r := IndexWorkspace(ws, corpusReply, [Item(file, content, Semantic.HttpReply(200, "", body))], Models.Mirror([], []));
            && r.corpusRequested && r.workspace.corpusId == Some(7)
            && |r.uploads| == 1 && r.uploads[0].corpusId == Some(7) && r.uploads[0].mimeType == Drive.DocxMime
            && |r.mirror.documents| == 1 && r.mirror.documents[0].size == 150
            && r.mirror.documents[0].identifier == "doc-1" && r.mirror.documents[0].link == file.webViewLink
            && |r.mirror.sections| == 2
            && r.mirror.sections[0].wordCount == 10 && r.mirror.sections[1].wordCount == 5
            && r.mirror.sections[0].document == 0 && r.mirror.sections[1].document == 0
  {
    var corpusReply := Semantic.HttpReply(200, "", Models.CorpusBody(Some(7)));
    var body := UploadBody(120, 30, "doc-1", [BackendSection(1, Some(SpacedWords(10))), BackendSection(2, Some(SpacedWords(5)))]);
    var item := Item(file, content, Semantic.HttpReply(200, "", body));
    var empty := Models.Mirror([], []);
    var ws' := EnsureCorpus(ws, corpusReply);
    assert ws'.corpusId == Some(7);
    assert [item][1..] == [];
    IndexItemStep(empty, ws.id, ws'.corpusId, item);
    assert IndexItems(empty, ws.id, ws'.corpusId, [item]) == MirrorWrite(empty, ws.id, file, body);
    WordsCount(10);
    WordsCount(5);
    Words.WordCountIsSplitLength(SpacedWords(10));
    Words.WordCountIsSplitLength(SpacedWords(5));
  }
}
