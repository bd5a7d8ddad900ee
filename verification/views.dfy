/**
 * The search views: the form post that turns a query into a redirect, and the
 * result page that folds the backend's response sets into one entry per
 * (text, link), collects section ids, orders entries by score and builds the
 * context for the answer service.
 *
 * The backend reply, the mirror and the answer service's reply are inputs.
 */
module Views {
  import opened Common
  import Models
  import TokenCache
  import Semantic

  // ---------------------------------------------------------------------------
  // Redirects
  // ---------------------------------------------------------------------------

  /** Query-string parameters in the order `urlencode` writes them. */
  type Params = seq<(string, string)>

  /** The parameter `key` is not repeated after position `i`. */
  predicate LastWith(params: Params, key: string, i: int)
    requires 0 <= i < |params|
  {
    forall j :: i < j < |params| ==> params[j].0 != key
  }

  /** The value of the last parameter named `key`, as a query dict's `get` answers it. */
  function Lookup(params: Params, key: string): (r: Option<string>)
    ensures r.Some? <==> exists i :: 0 <= i < |params| && params[i].0 == key
    ensures forall i :: 0 <= i < |params| && params[i].0 == key && LastWith(params, key, i) ==> r == Some(params[i].1)
  {
    if |params| == 0 then None
    else if params[|params| - 1].0 == key then Some(params[|params| - 1].1)
    else
      var init := params[..|params| - 1];
      var rest := Lookup(init, key);
      assert forall i :: 0 <= i < |init| ==> init[i] == params[i];
      rest
  }

  /** What a view answers with. */
  datatype ViewResult =
    | RenderDefault
    | Redirect(route: string, params: Params)
    | ResultsPage(results: seq<Entry>, q: string, gptContext: Option<string>, gptResponse: string)
    | ServerError

  const GptOn := "on"
  const GptRequested := "true"

  /**
   * The search form: an empty (or missing) query renders the default page;
   * otherwise the view redirects to the result page with `q` set to the query
   * and `gpt=true` added exactly when the form's `gpt` box was "on".
   */
  function SearchPost(search: Option<string>, gpt: Option<string>): (r: ViewResult)
    ensures r.RenderDefault? <==> search.GetOr("") == ""
    ensures r.RenderDefault? || r.Redirect?
    ensures r.Redirect? ==> r.route == "search" && Lookup(r.params, "q") == search
    ensures r.Redirect? ==> (Lookup(r.params, "gpt") == Some(GptRequested) <==> gpt == Some(GptOn))
    ensures r.Redirect? ==> (Lookup(r.params, "gpt").None? <==> gpt != Some(GptOn))
  {
    var query := search.GetOr("");
    if query == "" then RenderDefault
    else
      var params := [("q", query)] + (if gpt == Some(GptOn) then [("gpt", GptRequested)] else []);
      assert params[0].0 == "q" && params[1..] == (if gpt == Some(GptOn) then [("gpt", GptRequested)] else []);
      Redirect("search", params)
  }

  /** The failure page shows the `reason` parameter, or "Unknown" without one. */
  function FailureReason(params: Params): (r: string)
    ensures (forall i :: 0 <= i < |params| ==> params[i].0 != "reason") ==> r == "Unknown"
    ensures forall i :: 0 <= i < |params| && params[i].0 == "reason" && LastWith(params, "reason", i) ==> r == params[i].1
  {
    Lookup(params, "reason").GetOr("Unknown")
  }

  // ---------------------------------------------------------------------------
  // Backend response sets
  // ---------------------------------------------------------------------------

  datatype Metadata = Metadata(name: Option<string>, value: int)
  datatype Hit = Hit(text: Option<string>, score: int, documentIndex: int, metadata: seq<Metadata>)
  datatype BackendDocument = BackendDocument(id: Option<string>)
  datatype ResponseSet = ResponseSet(documents: seq<BackendDocument>, hits: seq<Hit>)

  /** One rendered result. */
  datatype Entry = Entry(text: string, score: int, link: string, title: string)

  /** Python's `xs[i]`: a negative index counts from the end; `None` is an IndexError. */
  function PyIndex<T>(xs: seq<T>, i: int): (r: Option<T>)
    ensures r.Some? <==> -|xs| <= i < |xs|
    ensures 0 <= i < |xs| ==> r == Some(xs[i])
  {
    if 0 <= i < |xs| then Some(xs[i])
    else if -|xs| <= i < 0 then Some(xs[|xs| + i])
    else None
  }

  /** A negative index reaches the same element as the index `|xs|` further on. */
  lemma PyIndexWrapsOnce<T>(xs: seq<T>, i: int)
    requires 0 <= i < |xs|
    ensures PyIndex(xs, i - |xs|) == PyIndex(xs, i)
    ensures PyIndex(xs, i - 2 * |xs|).None? && PyIndex(xs, i + |xs|).None?
  {
  }

  /** `Document.objects.filter(identifier=id).first()`: the earliest mirrored document with that identifier. */
  function FindDocument(docs: seq<Models.Document>, identifier: Option<string>): (r: Option<nat>)
    ensures r.Some? ==> r.value < |docs| && identifier == Some(docs[r.value].identifier)
    ensures r.Some? ==> forall k :: 0 <= k < r.value ==> Some(docs[k].identifier) != identifier
    ensures r.None? ==> forall k :: 0 <= k < |docs| ==> Some(docs[k].identifier) != identifier
  {
    if |docs| == 0 then None
    else
      match FindDocument(docs[..|docs| - 1], identifier)
      case Some(k) => Some(k)
      case None => if Some(docs[|docs| - 1].identifier) == identifier then Some(|docs| - 1) else None
  }

  /** What a hit resolves to: the link and title of its mirrored document, and that document when there is one. */
  datatype Resolved = Resolved(link: string, title: string, document: Option<nat>)

  /**
   * Resolves a hit's document: link and title stay empty when the hit's index
   * is out of range for its response set or no mirrored document has the
   * backend's id; the document is collected only when it exists.
   */
  function ResolveHit(docs: seq<Models.Document>, rs: ResponseSet, hit: Hit): (r: Resolved)
    ensures PyIndex(rs.documents, hit.documentIndex).None? ==> r == Resolved("", "", None)
    ensures r.document.Some? <==> PyIndex(rs.documents, hit.documentIndex).Some?
                                  && FindDocument(docs, PyIndex(rs.documents, hit.documentIndex).value.id).Some?
    ensures r.document.Some? ==> r.document.value < |docs|
                                 && r.link == docs[r.document.value].link && r.title == docs[r.document.value].title
    ensures r.document.None? ==> r.link == "" && r.title == ""
  {
    match PyIndex(rs.documents, hit.documentIndex)
    case None => Resolved("", "", None)
    case Some(bd) =>
      match FindDocument(docs, bd.id)
      case None => Resolved("", "", None)
      case Some(k) => Resolved(docs[k].link, docs[k].title, Some(k))
  }

  /**
   * The lookup as written: the document's id is collected before the check
   * that a document was found, so a hit whose document is not mirrored raises
   * (AttributeError, `None` here) and fails the whole page. Whenever it does
   * not raise it agrees with `ResolveHit`.
   */
  function ResolveHitAsWritten(docs: seq<Models.Document>, rs: ResponseSet, hit: Hit): (r: Option<Resolved>)
    ensures r.None? <==> PyIndex(rs.documents, hit.documentIndex).Some?
                         && FindDocument(docs, PyIndex(rs.documents, hit.documentIndex).value.id).None?
    ensures r.Some? ==> r.value == ResolveHit(docs, rs, hit)
  {
    match PyIndex(rs.documents, hit.documentIndex)
    case None => Some(Resolved("", "", None))
    case Some(bd) =>
      var found := FindDocument(docs, bd.id);
      if found.None? then None
      else Some(Resolved(docs[found.value].link, docs[found.value].title, Some(found.value)))
  }

  /** A hit on a document the mirror does not hold: as written the page fails, corrected it renders without link or title. */
  lemma UnmirroredHitFailsAsWritten()
    ensures var rs := ResponseSet([BackendDocument(Some("doc-9"))], [Hit(Some("t"), 1, 0, [])]);
            && ResolveHitAsWritten([], rs, rs.hits[0]).None?
            && ResolveHit([], rs, rs.hits[0]) == Resolved("", "", None)
  {
  }

  // ---------------------------------------------------------------------------
  // The results dictionary
  // ---------------------------------------------------------------------------

  /** An insertion-ordered dictionary, as Python's `dict`. */
  type Results = seq<(string, Entry)>

  function Keys(d: Results): (ks: seq<string>)
    ensures |ks| == |d|
    ensures forall i :: 0 <= i < |d| ==> ks[i] == d[i].0
  {
    if |d| == 0 then [] else [d[0].0] + Keys(d[1..])
  }

  function Values(d: Results): (vs: seq<Entry>)
    ensures |vs| == |d|
    ensures forall i :: 0 <= i < |d| ==> vs[i] == d[i].1
  {
    if |d| == 0 then [] else [d[0].1] + Values(d[1..])
  }

  function Get(d: Results, k: string): Option<Entry> {
    if |d| == 0 then None else if d[0].0 == k then Some(d[0].1) else Get(d[1..], k)
  }

  predicate Distinct(s: seq<string>) {
    forall i, j :: 0 <= i < j < |s| ==> s[i] != s[j]
  }

  /**
   * `d[k] = v`: afterwards `k` maps to `v` and every other key to what it
   * mapped to before; a new key goes last and an existing key keeps its
   * position.
   */
  function Upsert(d: Results, k: string, v: Entry): (r: Results)
    ensures Get(r, k) == Some(v)
    ensures forall k' :: k' != k ==> Get(r, k') == Get(d, k')
    ensures Keys(r) == if k in Keys(d) then Keys(d) else Keys(d) + [k]
    ensures forall i :: 0 <= i < |r| ==> r[i] == (k, v) || r[i] in d
  {
    if |d| == 0 then [(k, v)]
    else if d[0].0 == k then [(k, v)] + d[1..]
    else
      var rest := Upsert(d[1..], k, v);
      assert Keys(d) == [d[0].0] + Keys(d[1..]);
      assert forall i :: 0 < i <= |rest| ==> ([d[0]] + rest)[i] == rest[i - 1];
      [d[0]] + rest
  }

  /** A run of assignments `d[k] = v`, in order. */
  function Upserts(d: Results, pairs: Results): Results {
    if |pairs| == 0 then d
    else
      var last := pairs[|pairs| - 1];
      Upsert(Upserts(d, pairs[..|pairs| - 1]), last.0, last.1)
  }

  lemma {:induction false} UpsertsAppend(d: Results, a: Results, b: Results)
    ensures Upserts(d, a + b) == Upserts(Upserts(d, a), b)
    decreases |b|
  {
    if |b| == 0 {
      assert a + b == a;
    } else {
      assert (a + b)[..|a + b| - 1] == a + b[..|b| - 1];
      assert (a + b)[|a + b| - 1] == b[|b| - 1];
      UpsertsAppend(d, a, b[..|b| - 1]);
    }
  }

  /** Reference: the value last assigned to `k`, if any. */
  function LastValue(pairs: Results, k: string): Option<Entry> {
    if |pairs| == 0 then None
    else if pairs[|pairs| - 1].0 == k then Some(pairs[|pairs| - 1].1)
    else LastValue(pairs[..|pairs| - 1], k)
  }

  /** Reference: the keys in order of first appearance. */
  function FirstOccurrences(s: seq<string>): (r: seq<string>)
    ensures forall x :: x in r <==> x in s
    ensures Distinct(r)
  {
    if |s| == 0 then []
    else
      var init := FirstOccurrences(s[..|s| - 1]);
      assert forall x :: x in s <==> x in s[..|s| - 1] || x == s[|s| - 1];
      if s[|s| - 1] in init then init else init + [s[|s| - 1]]
  }

  /**
   * Dictionary semantics: after a run of assignments into an empty dict, every
   * key maps to the value assigned to it last, the keys are distinct, and they
   * stand in the order in which each was first assigned.
   */
  lemma {:induction false} UpsertsSemantics(pairs: Results)
    ensures forall k :: Get(Upserts([], pairs), k) == LastValue(pairs, k)
    ensures Keys(Upserts([], pairs)) == FirstOccurrences(Keys(pairs))
    ensures Distinct(Keys(Upserts([], pairs)))
    decreases |pairs|
  {
    if |pairs| > 0 {
      var init := pairs[..|pairs| - 1];
      UpsertsSemantics(init);
      assert Keys(pairs)[..|pairs| - 1] == Keys(init);
    }
  }

  // ---------------------------------------------------------------------------
  // Folding the hits
  // ---------------------------------------------------------------------------

  /** The dictionary key of a hit: its text, a dash, its link. */
  function Key(text: string, link: string): string {
    text + "-" + link
  }

  /** A metadata entry that names a section. */
  predicate IsSectionEntry(m: Metadata) {
    m.name == Some("section")
  }

  /** The values of metadata entries named "section", in order. */
  function SectionIds(metadata: seq<Metadata>): (r: seq<int>)
    ensures |r| <= |metadata|
    ensures r == [] <==> forall j :: 0 <= j < |metadata| ==> metadata[j].name != Some("section")
  {
    if |metadata| == 0 then []
    else
      var last := metadata[|metadata| - 1];
      SectionIds(metadata[..|metadata| - 1]) + (if IsSectionEntry(last) then [last.value] else [])
  }

  /** The section ids are the values of the "section" entries, one per entry, in order. */
  lemma {:induction false} SectionIdsAtPositions(metadata: seq<Metadata>)
    ensures |SectionIds(metadata)| == |Positions(metadata, IsSectionEntry)|
    ensures forall k :: 0 <= k < |Positions(metadata, IsSectionEntry)| ==>
              SectionIds(metadata)[k] == metadata[Positions(metadata, IsSectionEntry)[k]].value
    decreases |metadata|
  {
    if |metadata| > 0 {
      var n := |metadata| - 1;
      SectionIdsAtPositions(metadata[..n]);
      SectionIdsAtPositionsStep(metadata[..n], metadata[n], SectionIds(metadata[..n]), Positions(metadata[..n], IsSectionEntry));
      assert metadata[..n] + [metadata[n]] == metadata;
    }
  }

  /** One more entry at the end: its value joins the ids exactly when it joins the positions. */
  lemma SectionIdsAtPositionsStep(init: seq<Metadata>, last: Metadata, ids: seq<int>, pos: seq<nat>)
    requires ids == SectionIds(init) && pos == Positions(init, IsSectionEntry)
    requires |ids| == |pos| && forall k :: 0 <= k < |pos| ==> ids[k] == init[pos[k]].value
    ensures var metadata := init + [last];
            && |SectionIds(metadata)| == |Positions(metadata, IsSectionEntry)|
            && forall k :: 0 <= k < |Positions(metadata, IsSectionEntry)| ==>
                 SectionIds(metadata)[k] == metadata[Positions(metadata, IsSectionEntry)[k]].value
  {
    var metadata := init + [last];
    var n := |init|;
    assert metadata[..n] == init && metadata[n] == last;
    var extra, extraPos := if IsSectionEntry(last) then [last.value] else [], if IsSectionEntry(last) then [n] else [];
    assert SectionIds(metadata) == ids + extra;
    assert Positions(metadata, IsSectionEntry) == pos + extraPos;
    forall k | 0 <= k < |pos + extraPos|
      ensures (ids + extra)[k] == metadata[(pos + extraPos)[k]].value
    {
      if k < |pos| {
        assert init[pos[k]] == metadata[pos[k]];
      }
    }
  }

  lemma {:induction false} SectionIdsAppend(a: seq<Metadata>, b: seq<Metadata>)
    ensures SectionIds(a + b) == SectionIds(a) + SectionIds(b)
    decreases |b|
  {
    if |b| == 0 {
      assert a + b == a;
    } else {
      assert (a + b)[..|a + b| - 1] == a + b[..|b| - 1];
      assert (a + b)[|a + b| - 1] == b[|b| - 1];
      SectionIdsAppend(a, b[..|b| - 1]);
    }
  }

  /** What the page has gathered so far: the results dict, the mirrored documents hit, and the section ids. */
  datatype Agg = Agg(results: Results, documentIds: seq<nat>, sectionIds: seq<int>)

  const EmptyAgg := Agg([], [], [])

  /** The assignment one hit makes to the results dict. */
  function HitPair(docs: seq<Models.Document>, rs: ResponseSet, hit: Hit): (p: (string, Entry))
    ensures p.0 == Key(p.1.text, p.1.link)
    ensures p.1.text == hit.text.GetOr("") && p.1.score == hit.score
    ensures p.1.link == ResolveHit(docs, rs, hit).link && p.1.title == ResolveHit(docs, rs, hit).title
  {
    var res := ResolveHit(docs, rs, hit);
    var text := hit.text.GetOr("");
    (Key(text, res.link), Entry(text, hit.score, res.link, res.title))
  }

  function AddHit(docs: seq<Models.Document>, rs: ResponseSet, agg: Agg, hit: Hit): Agg {
    var res := ResolveHit(docs, rs, hit);
    var p := HitPair(docs, rs, hit);
    Agg(Upsert(agg.results, p.0, p.1),
        agg.documentIds + (if res.document.Some? then [res.document.value] else []),
        agg.sectionIds + SectionIds(hit.metadata))
  }

  function AddHits(docs: seq<Models.Document>, rs: ResponseSet, agg: Agg, hits: seq<Hit>): Agg {
    if |hits| == 0 then agg
    else AddHit(docs, rs, AddHits(docs, rs, agg, hits[..|hits| - 1]), hits[|hits| - 1])
  }

  /** Every response set in order, every hit of each in order. */
  function Aggregate(docs: seq<Models.Document>, sets: seq<ResponseSet>, agg: Agg): Agg {
    if |sets| == 0 then agg
    else
      var last := sets[|sets| - 1];
      AddHits(docs, last, Aggregate(docs, sets[..|sets| - 1], agg), last.hits)
  }

  /** Reference: the assignments the hits of one set make, in order. */
  function HitPairs(docs: seq<Models.Document>, rs: ResponseSet, hits: seq<Hit>): (r: Results)
    ensures |r| == |hits|
    ensures forall i :: 0 <= i < |hits| ==> r[i] == HitPair(docs, rs, hits[i])
  {
    if |hits| == 0 then [] else HitPairs(docs, rs, hits[..|hits| - 1]) + [HitPair(docs, rs, hits[|hits| - 1])]
  }

  /** Reference: the assignments of all response sets, in order. */
  function Assignments(docs: seq<Models.Document>, sets: seq<ResponseSet>): Results {
    if |sets| == 0 then []
    else Assignments(docs, sets[..|sets| - 1]) + HitPairs(docs, sets[|sets| - 1], sets[|sets| - 1].hits)
  }

  /** Reference: all hits' metadata, in encounter order. */
  function HitMetadata(hits: seq<Hit>): seq<Metadata> {
    if |hits| == 0 then [] else HitMetadata(hits[..|hits| - 1]) + hits[|hits| - 1].metadata
  }

  function AllMetadata(sets: seq<ResponseSet>): seq<Metadata> {
    if |sets| == 0 then [] else AllMetadata(sets[..|sets| - 1]) + HitMetadata(sets[|sets| - 1].hits)
  }

  predicate ValidDocumentIds(docs: seq<Models.Document>, ids: seq<nat>) {
    forall i :: 0 <= i < |ids| ==> ids[i] < |docs|
  }

  /** One hit: one assignment to the dict, its section ids appended, and only a mirrored document collected. */
  lemma AddHitParts(docs: seq<Models.Document>, rs: ResponseSet, agg: Agg, hit: Hit)
    requires ValidDocumentIds(docs, agg.documentIds)
    ensures AddHit(docs, rs, agg, hit).results == Upsert(agg.results, HitPair(docs, rs, hit).0, HitPair(docs, rs, hit).1)
    ensures AddHit(docs, rs, agg, hit).sectionIds == agg.sectionIds + SectionIds(hit.metadata)
    ensures ValidDocumentIds(docs, AddHit(docs, rs, agg, hit).documentIds)
  {
  }

  lemma {:induction false} AddHitsResults(docs: seq<Models.Document>, rs: ResponseSet, agg: Agg, hits: seq<Hit>)
    requires ValidDocumentIds(docs, agg.documentIds)
    ensures AddHits(docs, rs, agg, hits).results == Upserts(agg.results, HitPairs(docs, rs, hits))
    ensures ValidDocumentIds(docs, AddHits(docs, rs, agg, hits).documentIds)
    decreases |hits|
  {
    if |hits| > 0 {
      var init := hits[..|hits| - 1];
      AddHitsResults(docs, rs, agg, init);
      AddHitParts(docs, rs, AddHits(docs, rs, agg, init), hits[|hits| - 1]);
      assert HitPairs(docs, rs, hits)[..|hits| - 1] == HitPairs(docs, rs, init);
    }
  }

  lemma {:induction false} AddHitsSections(docs: seq<Models.Document>, rs: ResponseSet, agg: Agg, hits: seq<Hit>)
    requires ValidDocumentIds(docs, agg.documentIds)
    ensures AddHits(docs, rs, agg, hits).sectionIds == agg.sectionIds + SectionIds(HitMetadata(hits))
    decreases |hits|
  {
    if |hits| == 0 {
      assert SectionIds(HitMetadata(hits)) == [];
    } else {
      var init := hits[..|hits| - 1];
      var last := hits[|hits| - 1];
      AddHitsSections(docs, rs, agg, init);
      AddHitsResults(docs, rs, agg, init);
      AddHitParts(docs, rs, AddHits(docs, rs, agg, init), last);
      SectionIdsAppend(HitMetadata(init), last.metadata);
      ConcatAssoc(agg.sectionIds, SectionIds(HitMetadata(init)), SectionIds(last.metadata));
    }
  }

  lemma AddHitsFold(docs: seq<Models.Document>, rs: ResponseSet, agg: Agg, hits: seq<Hit>)
    requires ValidDocumentIds(docs, agg.documentIds)
    ensures AddHits(docs, rs, agg, hits).results == Upserts(agg.results, HitPairs(docs, rs, hits))
    ensures AddHits(docs, rs, agg, hits).sectionIds == agg.sectionIds + SectionIds(HitMetadata(hits))
    ensures ValidDocumentIds(docs, AddHits(docs, rs, agg, hits).documentIds)
  {
    AddHitsResults(docs, rs, agg, hits);
    AddHitsSections(docs, rs, agg, hits);
  }

  lemma {:induction false} AggregateFold(docs: seq<Models.Document>, sets: seq<ResponseSet>, agg: Agg)
    requires ValidDocumentIds(docs, agg.documentIds)
    ensures Aggregate(docs, sets, agg).results == Upserts(agg.results, Assignments(docs, sets))
    ensures Aggregate(docs, sets, agg).sectionIds == agg.sectionIds + SectionIds(AllMetadata(sets))
    ensures ValidDocumentIds(docs, Aggregate(docs, sets, agg).documentIds)
    decreases |sets|
  {
    if |sets| == 0 {
      assert SectionIds(AllMetadata(sets)) == [];
    } else {
      var init := sets[..|sets| - 1];
      var last := sets[|sets| - 1];
      AggregateFold(docs, init, agg);
      var mid := Aggregate(docs, init, agg);
      AddHitsFold(docs, last, mid, last.hits);
      UpsertsAppend(agg.results, Assignments(docs, init), HitPairs(docs, last, last.hits));
      SectionIdsAppend(AllMetadata(init), HitMetadata(last.hits));
      ConcatAssoc(agg.sectionIds, SectionIds(AllMetadata(init)), SectionIds(HitMetadata(last.hits)));
    }
  }

  /**
   * The page's results: one entry per distinct `text-link` key in order of
   * first appearance, each the entry of the last hit with that key; every
   * entry sits under its own key; section ids are the "section" metadata
   * values of all hits in encounter order; collected documents are mirrored
   * ones.
   */
  lemma AggregateSemantics(docs: seq<Models.Document>, sets: seq<ResponseSet>)
    ensures var agg := Aggregate(docs, sets, EmptyAgg);
            && (forall k :: Get(agg.results, k) == LastValue(Assignments(docs, sets), k))
            && Keys(agg.results) == FirstOccurrences(Keys(Assignments(docs, sets)))
            && Distinct(Keys(agg.results))
            && agg.sectionIds == SectionIds(AllMetadata(sets))
            && ValidDocumentIds(docs, agg.documentIds)
  {
    AggregateFold(docs, sets, EmptyAgg);
    UpsertsSemantics(Assignments(docs, sets));
    assert EmptyAgg.sectionIds + SectionIds(AllMetadata(sets)) == SectionIds(AllMetadata(sets));
  }

  /** Every assignment is keyed by its own entry's text and link. */
  lemma {:induction false} AssignmentsAreKeyed(docs: seq<Models.Document>, sets: seq<ResponseSet>)
    ensures forall i :: 0 <= i < |Assignments(docs, sets)| ==>
              Assignments(docs, sets)[i].0 == Key(Assignments(docs, sets)[i].1.text, Assignments(docs, sets)[i].1.link)
    decreases |sets|
  {
    if |sets| > 0 {
      AssignmentsAreKeyed(docs, sets[..|sets| - 1]);
    }
  }

  // ---------------------------------------------------------------------------
  // Ordering by score
  // ---------------------------------------------------------------------------

  predicate NonIncreasing(xs: seq<Entry>) {
    forall i, j :: 0 <= i < j < |xs| ==> xs[i].score >= xs[j].score
  }

  /** Where a stable sort by descending score puts `e` after `xs`: behind every entry scoring at least as much. */
  function InsertPos(xs: seq<Entry>, e: Entry): (p: nat)
    ensures p <= |xs|
    ensures forall i :: p <= i < |xs| ==> xs[i].score < e.score
    ensures p > 0 ==> xs[p - 1].score >= e.score
  {
    if |xs| == 0 then 0
    else if xs[|xs| - 1].score >= e.score then |xs|
    else InsertPos(xs[..|xs| - 1], e)
  }

  function Insert(xs: seq<Entry>, e: Entry): seq<Entry> {
    var p := InsertPos(xs, e);
    xs[..p] + [e] + xs[p..]
  }

  /** `sorted(values, key=lambda r: -r["score"])`, built by stable insertion. */
  function SortByScore(xs: seq<Entry>): seq<Entry> {
    if |xs| == 0 then [] else Insert(SortByScore(xs[..|xs| - 1]), xs[|xs| - 1])
  }

  /** The entries with score `s`, in order. */
  function WithScore(xs: seq<Entry>, s: int): seq<Entry> {
    if |xs| == 0 then []
    else WithScore(xs[..|xs| - 1], s) + (if xs[|xs| - 1].score == s then [xs[|xs| - 1]] else [])
  }

  lemma {:induction false} WithScoreAppend(a: seq<Entry>, b: seq<Entry>, s: int)
    ensures WithScore(a + b, s) == WithScore(a, s) + WithScore(b, s)
    decreases |b|
  {
    if |b| == 0 {
      assert a + b == a;
    } else {
      assert (a + b)[..|a + b| - 1] == a + b[..|b| - 1];
      assert (a + b)[|a + b| - 1] == b[|b| - 1];
      WithScoreAppend(a, b[..|b| - 1], s);
    }
  }

  lemma {:induction false} WithScoreNone(xs: seq<Entry>, s: int)
    requires forall i :: 0 <= i < |xs| ==> xs[i].score != s
    ensures WithScore(xs, s) == []
    decreases |xs|
  {
    if |xs| > 0 {
      WithScoreNone(xs[..|xs| - 1], s);
    }
  }

  lemma InsertSorted(xs: seq<Entry>, e: Entry)
    requires NonIncreasing(xs)
    ensures NonIncreasing(Insert(xs, e))
  {
    var p := InsertPos(xs, e);
    var r := Insert(xs, e);
    assert forall i :: 0 <= i < p ==> r[i] == xs[i];
    assert r[p] == e;
    assert forall i :: p < i < |r| ==> r[i] == xs[i - 1];
  }

  lemma InsertMultiset(xs: seq<Entry>, e: Entry)
    ensures multiset(Insert(xs, e)) == multiset(xs) + multiset{e}
  {
    var p := InsertPos(xs, e);
    assert xs == xs[..p] + xs[p..];
  }

  lemma WithScoreSingle(e: Entry, s: int)
    ensures WithScore([e], s) == if e.score == s then [e] else []
  {
    assert [e][..0] == [];
  }

  lemma WithScoreAround(pre: seq<Entry>, e: Entry, post: seq<Entry>, s: int)
    ensures WithScore(pre + [e] + post, s) == WithScore(pre, s) + WithScore([e], s) + WithScore(post, s)
  {
    WithScoreAppend(pre + [e], post, s);
    WithScoreAppend(pre, [e], s);
  }

  /** `WithScore` across an insertion between `pre` and `post`, when nothing in `post` scores as much as `e`. */
  lemma WithScoreSplice(pre: seq<Entry>, e: Entry, post: seq<Entry>, s: int)
    requires forall i :: 0 <= i < |post| ==> post[i].score < e.score
    ensures WithScore(pre + [e] + post, s) == WithScore(pre + post, s) + (if e.score == s then [e] else [])
  {
    WithScoreAround(pre, e, post, s);
    WithScoreAppend(pre, post, s);
    WithScoreSingle(e, s);
    if e.score == s {
      WithScoreNone(post, s);
      assert WithScore(post, s) == [];
    }
  }

  lemma InsertWithScore(xs: seq<Entry>, e: Entry, s: int)
    ensures WithScore(Insert(xs, e), s) == WithScore(xs, s) + (if e.score == s then [e] else [])
  {
    var p := InsertPos(xs, e);
    var pre, post := xs[..p], xs[p..];
    assert Insert(xs, e) == pre + [e] + post;
    assert xs == pre + post;
    assert forall i :: 0 <= i < |post| ==> post[i].score < e.score by {
      forall i | 0 <= i < |post| ensures post[i].score < e.score {
        assert post[i] == xs[p + i];
      }
    }
    WithScoreSplice(pre, e, post, s);
  }

  lemma InsertProperties(xs: seq<Entry>, e: Entry)
    ensures NonIncreasing(xs) ==> NonIncreasing(Insert(xs, e))
    ensures multiset(Insert(xs, e)) == multiset(xs) + multiset{e}
    ensures forall s :: WithScore(Insert(xs, e), s) == WithScore(xs, s) + (if e.score == s then [e] else [])
  {
    if NonIncreasing(xs) {
      InsertSorted(xs, e);
    }
    InsertMultiset(xs, e);
    forall s
      ensures WithScore(Insert(xs, e), s) == WithScore(xs, s) + (if e.score == s then [e] else [])
    {
      InsertWithScore(xs, e, s);
    }
  }

  /**
   * The rendered order: scores never increase, no entry is lost or duplicated,
   * and entries with equal scores keep their dictionary order.
   */
  lemma {:induction false} SortByScoreCorrect(xs: seq<Entry>)
    ensures NonIncreasing(SortByScore(xs))
    ensures multiset(SortByScore(xs)) == multiset(xs)
    ensures forall s :: WithScore(SortByScore(xs), s) == WithScore(xs, s)
    decreases |xs|
  {
    if |xs| > 0 {
      var init := xs[..|xs| - 1];
      SortByScoreCorrect(init);
      InsertProperties(SortByScore(init), xs[|xs| - 1]);
      assert xs == init + [xs[|xs| - 1]];
    }
  }

  // ---------------------------------------------------------------------------
  // Answer context
  // ---------------------------------------------------------------------------

  const ContextLimit := 1000
  const Ellipsis := "..."

  /** A mirrored section of `doc` whose section id was hit. */
  predicate IsHit(s: Models.Section, doc: nat, sectionIds: seq<int>) {
    s.document == doc && s.sectionId in sectionIds
  }

  /** `IsHit` as a filter. */
  function HitIn(doc: nat, sectionIds: seq<int>): Models.Section -> bool {
    (s: Models.Section) => IsHit(s, doc, sectionIds)
  }

  /** The texts of the mirrored sections of `doc` whose section id was hit, in mirror order. */
  function ContextTexts(sections: seq<Models.Section>, doc: nat, sectionIds: seq<int>): (r: seq<string>)
    ensures |r| <= |sections|
  {
    if |sections| == 0 then []
    else
      var last := sections[|sections| - 1];
      ContextTexts(sections[..|sections| - 1], doc, sectionIds) + (if IsHit(last, doc, sectionIds) then [last.text] else [])
  }

  /** The context texts are the texts of the hit sections of `doc`, one per section, in mirror order. */
  lemma {:induction false} ContextTextsAtPositions(sections: seq<Models.Section>, doc: nat, sectionIds: seq<int>)
    ensures |ContextTexts(sections, doc, sectionIds)| == |Positions(sections, HitIn(doc, sectionIds))|
    ensures forall k :: 0 <= k < |Positions(sections, HitIn(doc, sectionIds))| ==>
              ContextTexts(sections, doc, sectionIds)[k] == sections[Positions(sections, HitIn(doc, sectionIds))[k]].text
    decreases |sections|
  {
    if |sections| > 0 {
      var n := |sections| - 1;
      var init, last := sections[..n], sections[n];
      var keep := HitIn(doc, sectionIds);
      ContextTextsAtPositions(init, doc, sectionIds);
      var texts, pos := ContextTexts(init, doc, sectionIds), Positions(init, keep);
      var extra, extraPos := if IsHit(last, doc, sectionIds) then [last.text] else [], if IsHit(last, doc, sectionIds) then [n] else [];
      assert keep(last) == IsHit(last, doc, sectionIds);
      assert ContextTexts(sections, doc, sectionIds) == texts + extra;
      assert Positions(sections, keep) == pos + extraPos;
      forall k | 0 <= k < |pos + extraPos|
        ensures (texts + extra)[k] == sections[(pos + extraPos)[k]].text
      {
        if k < |pos| {
          assert init[pos[k]] == sections[pos[k]];
        }
      }
    }
  }

  /**
   * The context sent to the answer service: the hit sections of the first
   * collected document, joined, cut to 1000 characters, with "..." appended.
   * Without any collected document the lookup raises IndexError (`None`).
   */
  function AnswerContext(sections: seq<Models.Section>, documentIds: seq<nat>, sectionIds: seq<int>): (r: Option<string>)
    ensures r.None? <==> documentIds == []
    ensures r.Some? ==> var joined := Join(ContextTexts(sections, documentIds[0], sectionIds));
                        && |r.value| == Min(ContextLimit, |joined|) + |Ellipsis|
                        && r.value[..|r.value| - |Ellipsis|] == joined[..Min(ContextLimit, |joined|)]
                        && r.value[|r.value| - |Ellipsis|..] == Ellipsis
  {
    if documentIds == [] then None
    else
      var joined := Join(ContextTexts(sections, documentIds[0], sectionIds));
      var cut := joined[..Min(ContextLimit, |joined|)];
      assert (cut + Ellipsis)[..|cut|] == cut && (cut + Ellipsis)[|cut|..] == Ellipsis;
      Some(cut + Ellipsis)
  }

  /** A short context is sent whole; a long one is cut to exactly 1000 characters. */
  lemma AnswerContextCut(sections: seq<Models.Section>, documentIds: seq<nat>, sectionIds: seq<int>)
    requires documentIds != []
    ensures var joined := Join(ContextTexts(sections, documentIds[0], sectionIds));
            && (|joined| <= ContextLimit ==> AnswerContext(sections, documentIds, sectionIds) == Some(joined + Ellipsis))
            && (|joined| > ContextLimit ==> |AnswerContext(sections, documentIds, sectionIds).value| == ContextLimit + |Ellipsis|)
  {
    var joined := Join(ContextTexts(sections, documentIds[0], sectionIds));
    var r := AnswerContext(sections, documentIds, sectionIds).value;
    if |joined| <= ContextLimit {
      assert joined[..|joined|] == joined;
      assert r == r[..|r| - 3] + r[|r| - 3..];
    }
  }

  // ---------------------------------------------------------------------------
  // The result page
  // ---------------------------------------------------------------------------

  /** The body of a successful search reply: its response sets (`[]` when absent). */
  type SearchBody = seq<ResponseSet>

  function ResponseSets(outcome: Models.SearchOutcome<SearchBody>): SearchBody {
    match outcome.response
    case Some(reply) => reply.body
    case None => []
  }

  /**
   * The result page. A failed search redirects to the failure page with the
   * error as `reason`. Otherwise the hits are aggregated and ordered by score;
   * when `gpt=true` the page also carries the context sent to the answer
   * service and that service's reply, or fails when no document was hit.
   */
  function SearchGet(query: string, gpt: Option<string>, outcome: Models.SearchOutcome<SearchBody>,
                     mirror: Models.Mirror, answer: string): (r: ViewResult)
    ensures !outcome.success ==> r == Redirect("search-failure", [("reason", outcome.error)])
    ensures outcome.success ==> r.ResultsPage? || r.ServerError?
    ensures r.ServerError? ==> gpt == Some(GptRequested)
    ensures r.ResultsPage? ==> r.q == query && NonIncreasing(r.results)
    ensures r.ResultsPage? ==> (r.gptContext.Some? <==> gpt == Some(GptRequested))
    ensures r.ResultsPage? && gpt != Some(GptRequested) ==> r.gptResponse == ""
    ensures outcome.success ==>
              var agg := Aggregate(mirror.documents, ResponseSets(outcome), EmptyAgg);
              && (r.ResultsPage? ==> r.results == SortByScore(Values(agg.results)))
              && (gpt == Some(GptRequested) ==> (r.ServerError? <==> agg.documentIds == []))
              && (r.ResultsPage? && gpt == Some(GptRequested) ==>
                    r.gptContext == AnswerContext(mirror.sections, agg.documentIds, agg.sectionIds) && r.gptResponse == answer)
  {
    if !outcome.success then Redirect("search-failure", [("reason", outcome.error)])
    else
      var sets := ResponseSets(outcome);
      var agg := Aggregate(mirror.documents, sets, EmptyAgg);
      var results := SortByScore(Values(agg.results));
      SortByScoreCorrect(Values(agg.results));
      if gpt == Some(GptRequested) then
        match AnswerContext(mirror.sections, agg.documentIds, agg.sectionIds)
        case None => ServerError
        case Some(context) => ResultsPage(results, query, Some(context), answer)
      else ResultsPage(results, query, None, "")
  }

  /** A failed search shows its error on the failure page. */
  lemma FailureShowsError(query: string, gpt: Option<string>, outcome: Models.SearchOutcome<SearchBody>,
                          mirror: Models.Mirror, answer: string)
    requires !outcome.success
    ensures SearchGet(query, gpt, outcome, mirror, answer).Redirect?
    ensures FailureReason(SearchGet(query, gpt, outcome, mirror, answer).params) == outcome.error
  {
  }

  /** Searching a workspace that has no corpus yet lands on the failure page saying so, without contacting the backend. */
  lemma UnindexedWorkspaceShowsMessage(ws: Models.Workspace, query: string, gpt: Option<string>, cache: TokenCache.Cache,
                                       now: int, issued: TokenCache.OAuthToken, field: TokenCache.ExpiryField, customerId: int,
                                       reply: Semantic.HttpReply<SearchBody>, mirror: Models.Mirror, answer: string)
    requires !Models.Truthy(ws.corpusId)
    ensures var outcome := Models.Search(ws, query, cache, now, issued, field, customerId, reply);
            && outcome.payload.None?
            && FailureReason(SearchGet(query, gpt, outcome, mirror, answer).params) == Models.NotIndexedMessage
  {
  }

  /** The page lists exactly the dictionary's entries, highest score first, ties in dictionary order. */
  lemma ResultsAreTheDictionary(query: string, gpt: Option<string>, outcome: Models.SearchOutcome<SearchBody>,
                                mirror: Models.Mirror, answer: string)
    requires outcome.success && outcome.response.Some?
    ensures var r := SearchGet(query, gpt, outcome, mirror, answer);
            var agg := Aggregate(mirror.documents, outcome.response.value.body, EmptyAgg);
            r.ResultsPage? ==>
              && multiset(r.results) == multiset(Values(agg.results))
              && (forall s :: WithScore(r.results, s) == WithScore(Values(agg.results), s))
  {
    var agg := Aggregate(mirror.documents, outcome.response.value.body, EmptyAgg);
    SortByScoreCorrect(Values(agg.results));
  }
}
