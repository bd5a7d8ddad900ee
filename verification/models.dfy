/**
 * The workspace (tenant) record and its rules: the ASCII name validator, the
 * validity check, the stored Google credentials, corpus creation, the search
 * guard and the admin check; and the mirrored Document and Section records.
 *
 * Persistence is a value: an operation returns the updated workspace and, where
 * the source saves, whether it saved.
 */
module Models {
  import opened Common
  import Semantic
  import TokenCache

  type UserId = int

  // ---------------------------------------------------------------------------
  // Name validation
  // ---------------------------------------------------------------------------

  const AsciiMessage := "Please only use ascii characters"

  /** A validator's verdict: accepted, or a validation error with its message. */
  datatype Validation = Valid | Invalid(message: string)

  /** The value has a character outside ASCII, i.e. with code point 128 or above. */
  predicate HasNonAscii(value: string) {
    exists i :: 0 <= i < |value| && value[i] as int >= 128
  }

  /** The ASCII name validator: it rejects a value exactly when encoding it as ASCII would fail. */
  function IsAscii(value: string): (r: Validation)
    ensures r.Invalid? <==> HasNonAscii(value)
    ensures r.Invalid? ==> r.message == AsciiMessage
    decreases |value|
  {
    if |value| == 0 then Valid
    else if value[|value| - 1] as int >= 128 then Invalid(AsciiMessage)
    else
      var r := IsAscii(value[..|value| - 1]);
      assert HasNonAscii(value) <==> HasNonAscii(value[..|value| - 1]) by {
        if HasNonAscii(value) {
          var i :| 0 <= i < |value| && value[i] as int >= 128;
          assert i < |value| - 1 && value[..|value| - 1][i] == value[i];
        }
        if HasNonAscii(value[..|value| - 1]) {
          var i :| 0 <= i < |value| - 1 && value[..|value| - 1][i] as int >= 128;
          assert value[i] == value[..|value| - 1][i];
        }
      }
      r
  }

  // ---------------------------------------------------------------------------
  // Workspace
  // ---------------------------------------------------------------------------

  /**
   * A workspace. The Google credential fields and `googleScopes` hold the
   * stored text (`googleScopes` is the `str` of the scope list, as the text
   * field saves it); `corpusId` is the indexing corpus, if any.
   */
  datatype Workspace = Workspace(
    id: int,
    owner: UserId,
    name: string,
    googleToken: Option<string>,
    googleRefreshToken: Option<string>,
    googleClientId: Option<string>,
    googleClientSecret: Option<string>,
    googleScopes: Option<string>,
    corpusId: Option<int>)

  /** A workspace is valid exactly when its name is not the empty string. */
  predicate IsValid(ws: Workspace) {
    ws.name != ""
  }

  // ---------------------------------------------------------------------------
  // Google credentials and the stored scope list
  // ---------------------------------------------------------------------------

  /** OAuth credentials as the Google client library hands them over. */
  datatype Credentials = Credentials(
    token: Option<string>,
    refreshToken: Option<string>,
    clientId: Option<string>,
    clientSecret: Option<string>,
    scopes: seq<string>)

  /** A scope-token character, section 3.3 of RFC 6749: printable ASCII except space, `"` and `\`. */
  predicate ScopeChar(c: char) {
    c == '!' || ('#' <= c <= '[') || (']' <= c <= '~')
  }

  predicate ScopeToken(s: string) {
    forall i :: 0 <= i < |s| ==> ScopeChar(s[i])
  }

  predicate Contains(s: string, c: char) {
    exists i :: 0 <= i < |s| && s[i] == c
  }

  /** Python's `repr` of a scope token: double quotes when it holds a single quote, single quotes otherwise. */
  function ReprScope(s: string): string {
    if Contains(s, '\'') then "\"" + s + "\"" else "'" + s + "'"
  }

  function ReprItems(xs: seq<string>): string
    decreases |xs|
  {
    if |xs| == 0 then ""
    else if |xs| == 1 then ReprScope(xs[0])
    else ReprScope(xs[0]) + ", " + ReprItems(xs[1..])
  }

  /** `str(scopes)`: the text the scope list is stored as. */
  function ReprList(xs: seq<string>): string {
    "[" + ReprItems(xs) + "]"
  }

  /** The first position at or after `k` holding `q`. */
  function FindFrom(t: string, q: char, k: nat): (r: Option<nat>)
    requires k <= |t|
    ensures r.Some? ==> k <= r.value < |t| && t[r.value] == q
    ensures r.Some? ==> forall j :: k <= j < r.value ==> t[j] != q
    ensures r.None? ==> forall j :: k <= j < |t| ==> t[j] != q
    decreases |t| - k
  {
    if k == |t| then None
    else if t[k] == q then Some(k)
    else FindFrom(t, q, k + 1)
  }

  /** Reads comma-separated quoted strings, the body of a list literal. */
  function ParseItems(t: string): Option<seq<string>>
    decreases |t|
  {
    if |t| < 2 || (t[0] != '\'' && t[0] != '"') then None
    else
      match FindFrom(t, t[0], 1)
      case None => None
      case Some(j) =>
        var item := t[1..j];
        var rest := t[j + 1..];
        if rest == [] then Some([item])
        else if |rest| >= 2 && rest[..2] == ", " then
          match ParseItems(rest[2..])
          case None => None
          case Some(items) => Some([item] + items)
        else None
  }

  /** `ast.literal_eval` on a stored list of strings. */
  function ParseList(t: string): Option<seq<string>> {
    if |t| >= 2 && t[0] == '[' && t[|t| - 1] == ']' then
      var body := t[1..|t| - 1];
      if body == [] then Some([]) else ParseItems(body)
    else None
  }

  lemma FindClosingQuote(x: string, q: char, tail: string)
    requires !Contains(x, q)
    ensures var t := [q] + x + [q] + tail;
            FindFrom(t, q, 1) == Some(|x| + 1)
  {
    var t := [q] + x + [q] + tail;
    var k := |x| + 1;
    while k > 1
      invariant 1 <= k <= |x| + 1
      invariant FindFrom(t, q, k) == Some(|x| + 1)
    {
      assert t[k - 1] == x[k - 2];
      k := k - 1;
    }
  }

  /** A quoted item with nothing after it is the whole list body. */
  lemma ParseItemsLast(x: string, q: char)
    requires q == '\'' || q == '"'
    requires !Contains(x, q)
    ensures ParseItems([q] + x + [q]) == Some([x])
  {
    var t := [q] + x + [q];
    FindClosingQuote(x, q, "");
    assert t == [q] + x + [q] + "";
    assert t[1..|x| + 1] == x;
    assert t[|x| + 2..] == [];
  }

  /** A quoted item followed by `, ` reads as that item in front of whatever the rest reads as. */
  lemma ParseItemsCons(x: string, q: char, rest: string, items: seq<string>)
    requires q == '\'' || q == '"'
    requires !Contains(x, q)
    requires ParseItems(rest) == Some(items)
    ensures ParseItems([q] + x + [q] + (", " + rest)) == Some([x] + items)
  {
    var tail := ", " + rest;
    var t := [q] + x + [q] + tail;
    FindClosingQuote(x, q, tail);
    assert t[0] == q && |t| >= 2;
    assert FindFrom(t, t[0], 1) == Some(|x| + 1);
    assert t[1..|x| + 1] == x;
    var after := t[|x| + 2..];
    assert after == tail;
    assert after != [] && |after| >= 2 && after[..2] == ", ";
    assert after[2..] == rest;
  }

  /** The quote character `repr` wraps a scope token in. */
  function QuoteFor(x: string): char {
    if Contains(x, '\'') then '"' else '\''
  }

  /** A scope token's `repr` is the token between two quotes it does not contain. */
  lemma ReprScopeQuoted(x: string)
    requires ScopeToken(x)
    ensures QuoteFor(x) == '\'' || QuoteFor(x) == '"'
    ensures !Contains(x, QuoteFor(x))
    ensures ReprScope(x) == [QuoteFor(x)] + x + [QuoteFor(x)]
  {
    if QuoteFor(x) == '"' {
      forall i | 0 <= i < |x| ensures x[i] != '"' { assert ScopeChar(x[i]); }
    }
  }

  lemma {:induction false} ParseReprItems(xs: seq<string>)
    requires |xs| > 0
    requires forall i :: 0 <= i < |xs| ==> ScopeToken(xs[i])
    ensures ParseItems(ReprItems(xs)) == Some(xs)
    decreases |xs|
  {
    var x, q := xs[0], QuoteFor(xs[0]);
    ReprScopeQuoted(x);
    if |xs| > 1 {
      var ys := xs[1..];
      assert forall i :: 0 <= i < |ys| ==> ScopeToken(ys[i]) by {
        forall i | 0 <= i < |ys| ensures ScopeToken(ys[i]) { assert ys[i] == xs[i + 1]; }
      }
      ParseReprItems(ys);
      assert ReprItems(xs) == [q] + x + [q] + (", " + ReprItems(ys));
      ParseItemsCons(x, q, ReprItems(ys), ys);
      assert [x] + ys == xs;
    } else {
      assert ReprItems(xs) == [q] + x + [q];
      ParseItemsLast(x, q);
      assert xs == [x];
    }
  }

  /** The stored scope text reads back as the scope list it was written from. */
  lemma ParseReprList(xs: seq<string>)
    requires forall i :: 0 <= i < |xs| ==> ScopeToken(xs[i])
    ensures ParseList(ReprList(xs)) == Some(xs)
  {
    var t := ReprList(xs);
    assert t[1..|t| - 1] == ReprItems(xs);
    if |xs| > 0 {
      ParseReprItems(xs);
      assert ReprScope(xs[0]) != [];
    }
  }

  /**
   * Stores credentials on the workspace; nothing but the five credential
   * fields changes. The scopes are kept as the text the text field saves,
   * `str(scopes)`: the workspace is the saved and reloaded row.
   */
  function AddGoogleCredentials(ws: Workspace, c: Credentials): (r: Workspace)
    ensures r.(googleToken := ws.googleToken, googleRefreshToken := ws.googleRefreshToken,
               googleClientId := ws.googleClientId, googleClientSecret := ws.googleClientSecret,
               googleScopes := ws.googleScopes) == ws
    ensures r.googleToken == c.token && r.googleRefreshToken == c.refreshToken
    ensures r.googleClientId == c.clientId && r.googleClientSecret == c.clientSecret
    ensures r.googleScopes == Some(ReprList(c.scopes))
  {
    ws.(googleToken := c.token, googleRefreshToken := c.refreshToken, googleClientId := c.clientId,
        googleClientSecret := c.clientSecret, googleScopes := Some(ReprList(c.scopes)))
  }

  /** The stored credentials, or nothing when the scope text cannot be read back (`literal_eval` raises). */
  function GoogleCredentials(ws: Workspace): (r: Option<Credentials>)
    ensures r.Some? <==> ws.googleScopes.Some? && ParseList(ws.googleScopes.value).Some?
    ensures r.Some? ==> r.value.scopes == ParseList(ws.googleScopes.value).value
    ensures r.Some? ==> && r.value.token == ws.googleToken && r.value.refreshToken == ws.googleRefreshToken
                        && r.value.clientId == ws.googleClientId && r.value.clientSecret == ws.googleClientSecret
  {
    match ws.googleScopes
    case None => None
    case Some(text) =>
      match ParseList(text)
      case None => None
      case Some(scopes) =>
        Some(Credentials(ws.googleToken, ws.googleRefreshToken, ws.googleClientId, ws.googleClientSecret, scopes))
  }

  /** Credentials stored on a workspace are read back unchanged once it is saved and reloaded, whatever was stored before. */
  lemma CredentialsRoundTrip(ws: Workspace, c: Credentials)
    requires forall i :: 0 <= i < |c.scopes| ==> ScopeToken(c.scopes[i])
    ensures GoogleCredentials(AddGoogleCredentials(ws, c)) == Some(c)
  {
    ParseReprList(c.scopes);
  }

  // ---------------------------------------------------------------------------
  // Corpus creation
  // ---------------------------------------------------------------------------

  /** The decoded body of the create-corpus reply; `corpusId` may be null. */
  datatype CorpusBody = CorpusBody(corpusId: Option<int>)

  /** Python truthiness of a nullable integer: present and non-zero. */
  predicate Truthy(id: Option<int>) {
    id.Some? && id.value != 0
  }

  /** The workspace after corpus creation, whether it was saved, and the request sent. */
  datatype CorpusStep = CorpusStep(workspace: Workspace, saved: bool, request: Semantic.CorpusRequest)

  /**
   * Corpus creation. The request names the workspace and describes the corpus
   * as the workspace's. On success with a usable id the id is recorded and the
   * workspace saved; on success without one the id is cleared and nothing is
   * saved; on failure nothing changes.
   */
  function CreateCorpus(ws: Workspace, reply: Semantic.HttpReply<CorpusBody>): (r: CorpusStep)
    ensures r.request == Semantic.CorpusRequest(ws.name, ws.name + "'s Corpus")
    ensures r.saved <==> reply.status == 200 && Truthy(reply.body.corpusId)
    ensures r.saved ==> r.workspace == ws.(corpusId := reply.body.corpusId)
    ensures reply.status == 200 && !r.saved ==> r.workspace == ws.(corpusId := None)
    ensures reply.status != 200 ==> r.workspace == ws
  {
    var call := Semantic.CreateCorpus(ws.name, ws.name + "'s Corpus", reply);
    if call.success && Truthy(reply.body.corpusId) then
      CorpusStep(ws.(corpusId := reply.body.corpusId), true, call.request)
    else if call.success then
      CorpusStep(ws.(corpusId := None), false, call.request)
    else
      CorpusStep(ws, false, call.request)
  }

  /** Corpus creation only ever touches the corpus id, so a workspace's name, validity, owner and credentials survive it. */
  lemma CreateCorpusTouchesOnlyCorpusId(ws: Workspace, reply: Semantic.HttpReply<CorpusBody>)
    ensures CreateCorpus(ws, reply).workspace.(corpusId := ws.corpusId) == ws
    ensures IsValid(CreateCorpus(ws, reply).workspace) == IsValid(ws)
    ensures Truthy(CreateCorpus(ws, reply).workspace.corpusId) ==> CreateCorpus(ws, reply).saved || Truthy(ws.corpusId)
  {
  }

  /**
   * Validity is a property of the name alone: a workspace is valid exactly
   * when its name has at least one character, and neither storing
   * credentials nor creating a corpus can change it.
   */
  lemma ValidityDependsOnName(ws: Workspace, c: Credentials, reply: Semantic.HttpReply<CorpusBody>)
    ensures IsValid(ws) <==> |ws.name| > 0
    ensures IsValid(AddGoogleCredentials(ws, c)) == IsValid(ws)
    ensures IsValid(CreateCorpus(ws, reply).workspace) == IsValid(ws)
  {
  }

  // ---------------------------------------------------------------------------
  // Search guard
  // ---------------------------------------------------------------------------

  const NotIndexedMessage := "workplace has not been indexed yet"

  /**
   * What a workspace search returns: the response (absent without a remote
   * call), the error text, the success flag; plus the payload sent, if any,
   * and the token cache afterwards.
   */
  datatype SearchOutcome<B> = SearchOutcome(
    response: Option<Semantic.HttpReply<B>>,
    error: string,
    success: bool,
    payload: Option<Semantic.QueryPayload>,
    cache: TokenCache.Cache)

  /**
   * A search on a workspace without a usable corpus id fails with the
   * "not indexed" message and makes no remote call; otherwise it is the
   * client's search against the workspace's corpus.
   */
  function Search<B>(ws: Workspace, query: string, cache: TokenCache.Cache, now: int, issued: TokenCache.OAuthToken,
                     field: TokenCache.ExpiryField, customerId: int, reply: Semantic.HttpReply<B>): (r: SearchOutcome<B>)
    ensures !Truthy(ws.corpusId) ==> r == SearchOutcome(None, NotIndexedMessage, false, None, cache)
    ensures r.payload.Some? <==> Truthy(ws.corpusId)
    ensures Truthy(ws.corpusId) ==>
              && Semantic.TargetOf(r.payload.value) == Some(Semantic.QueryTarget(customerId, ws.corpusId.value, query))
              && (r.success <==> reply.status == 200)
              && r.response == Some(reply) && r.error == reply.text
              && r.cache == TokenCache.GetJwtTokenWith(cache, now, issued, field).cache
  {
    if Truthy(ws.corpusId) then
      var call := Semantic.Search(cache, now, issued, field, customerId, ws.corpusId.value, query, reply);
      SearchOutcome(Some(call.result.response), call.result.error, call.result.success, Some(call.result.payload), call.cache)
    else
      SearchOutcome(None, NotIndexedMessage, false, None, cache)
  }

  // ---------------------------------------------------------------------------
  // Profiles
  // ---------------------------------------------------------------------------

  datatype Profile = Profile(user: UserId, currentWorkspace: Workspace, availableWorkspaces: seq<int>)

  /** A profile is admin exactly when its user owns its current workspace. */
  predicate IsAdmin(p: Profile) {
    p.user == p.currentWorkspace.owner
  }

  /** The profiles among `profiles` that are admin of workspace `ws`, in order. */
  function AdminsOf(profiles: seq<Profile>, ws: Workspace): (r: seq<Profile>)
    ensures forall k :: 0 <= k < |r| ==> r[k] in profiles && IsAdmin(r[k]) && r[k].currentWorkspace == ws
  {
    if |profiles| == 0 then []
    else
      var last := profiles[|profiles| - 1];
      AdminsOf(profiles[..|profiles| - 1], ws) + (if IsAdmin(last) && last.currentWorkspace == ws then [last] else [])
  }

  /** Each user has at most one profile (the profile's user is a one-to-one field). */
  predicate OneProfilePerUser(profiles: seq<Profile>) {
    forall i, j :: 0 <= i < j < |profiles| ==> profiles[i].user != profiles[j].user
  }

  /**
   * Among profiles of distinct users, at most one is admin of any given
   * workspace: only the owner's profile can be, and it is admin exactly when
   * that workspace is its current one.
   */
  lemma {:induction false} AtMostOneAdminPerWorkspace(profiles: seq<Profile>, ws: Workspace)
    requires OneProfilePerUser(profiles)
    ensures |AdminsOf(profiles, ws)| <= 1
    ensures forall k :: 0 <= k < |AdminsOf(profiles, ws)| ==> AdminsOf(profiles, ws)[k].user == ws.owner
    decreases |profiles|
  {
    if |profiles| > 0 {
      var init := profiles[..|profiles| - 1];
      var last := profiles[|profiles| - 1];
      assert OneProfilePerUser(init) by {
        forall i, j | 0 <= i < j < |init| ensures init[i].user != init[j].user {
          assert init[i] == profiles[i] && init[j] == profiles[j];
        }
      }
      AtMostOneAdminPerWorkspace(init, ws);
      assert forall i :: 0 <= i < |init| ==> init[i] == profiles[i];
      AdminsAvoid(init, ws, last.user);
      if IsAdmin(last) && last.currentWorkspace == ws {
        assert AdminsOf(profiles, ws) == AdminsOf(init, ws) + [last];
      }
    }
  }

  /** Without a profile of the workspace's owner there is no admin of it. */
  lemma {:induction false} AdminsAvoid(profiles: seq<Profile>, ws: Workspace, u: UserId)
    requires forall i :: 0 <= i < |profiles| ==> profiles[i].user != u
    ensures u == ws.owner ==> AdminsOf(profiles, ws) == []
    decreases |profiles|
  {
    if |profiles| > 0 {
      AdminsAvoid(profiles[..|profiles| - 1], ws, u);
    }
  }

  // ---------------------------------------------------------------------------
  // Mirrored records
  // ---------------------------------------------------------------------------

  /** A mirrored document: owning workspace, link, title, identifier and size in indexed characters. */
  datatype Document = Document(workspace: int, link: string, title: string, identifier: string, size: int)

  /** A mirrored section: the position of its document in the mirror, word count, backend id and text. */
  datatype Section = Section(document: nat, wordCount: nat, sectionId: int, text: string)

  /** The local mirror: documents and sections in creation (primary-key) order. */
  datatype Mirror = Mirror(documents: seq<Document>, sections: seq<Section>)

  /** No section refers to a document the mirror does not hold. */
  predicate NoOrphans(m: Mirror) {
    forall i :: 0 <= i < |m.sections| ==> m.sections[i].document < |m.documents|
  }
}
