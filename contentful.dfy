/**
 * The CMS client (app/contentful/contentful.go): the entries URL with its
 * query string, the mapping from the HTTP status to a result, the rich-text
 * stub, and the webhook topic names.
 *
 * The HTTP request itself is not modelled: `GetEntries` returns the URL it
 * would request and takes the transport's outcome as a parameter.
 */
module Contentful {
  import opened Wrappers
  import opened GoStrings

  /** The client; its fields are set only by New (the http.Client is left out). */
  datatype Client = Client(token: string, baseURL: string, spaceID: string, environment: string)

  /** New(token, spaceId, environment, baseURL). */
  function New(token: string, spaceId: string, environment: string, baseURL: string): (c: Client)
    ensures c.token == token && c.spaceID == spaceId && c.environment == environment && c.baseURL == baseURL
  {
    Client(token, baseURL, spaceId, environment)
  }

  // ---------------------------------------------------------------------------
  // Query strings
  // ---------------------------------------------------------------------------

  /** A query parameter: key and value, written `key=value`. */
  type Param = (string, string)

  function PairText(p: Param): string
  {
    p.0 + "=" + p.1
  }

  function PairTexts(ps: seq<Param>): (r: seq<string>)
    ensures |r| == |ps| && forall k :: 0 <= k < |ps| ==> r[k] == PairText(ps[k])
  {
    seq(|ps|, k requires 0 <= k < |ps| => PairText(ps[k]))
  }

  lemma PairTextsAppend(ps: seq<Param>, p: Param)
    ensures PairTexts(ps + [p]) == PairTexts(ps) + [PairText(p)]
  {
    var l, r := PairTexts(ps + [p]), PairTexts(ps) + [PairText(p)];
    assert |l| == |r|;
    forall k | 0 <= k < |l| ensures l[k] == r[k] {
      if k < |ps| {
        assert (ps + [p])[k] == ps[k];
      }
    }
  }

  /** The parameters joined by '&'. */
  function RenderQuery(ps: seq<Param>): string
    requires |ps| >= 1
  {
    Join(PairTexts(ps), '&')
  }

  /** One more parameter extends the query string by `&key=value`. */
  lemma RenderAppend(ps: seq<Param>, p: Param)
    requires |ps| >= 1
    ensures RenderQuery(ps + [p]) == RenderQuery(ps) + "&" + p.0 + "=" + p.1
  {
    PairTextsAppend(ps, p);
    JoinAppend(PairTexts(ps), PairText(p), '&');
  }

  /** Decoding a query string: '&'-separated `key=value` pairs. */
  function ParsePair(s: string): Option<Param>
  {
    var kv := Split(s, '=');
    if |kv| == 2 then Some((kv[0], kv[1])) else None
  }

  function ParsePairs(pieces: seq<string>): Option<seq<Param>>
    decreases |pieces|
  {
    if pieces == [] then Some([])
    else
      match ParsePair(pieces[0])
      case None => None
      case Some(p) =>
        match ParsePairs(pieces[1..])
        case None => None
        case Some(rest) => Some([p] + rest)
  }

  function ParseQuery(q: string): Option<seq<Param>>
  {
    ParsePairs(Split(q, '&'))
  }

  /** Neither key nor value holds a query-string delimiter. */
  predicate PlainParam(p: Param)
  {
    '&' !in p.0 && '=' !in p.0 && '&' !in p.1 && '=' !in p.1
  }

  lemma ParsePairText(p: Param)
    requires PlainParam(p)
    ensures ParsePair(PairText(p)) == Some(p)
  {
    SplitAtFirstSeparator(p.0, p.1, '=');
    SplitWithoutSeparator(p.1, '=');
    assert PairText(p) == p.0 + ['='] + p.1;
  }

  lemma {:induction false} ParsePairTexts(ps: seq<Param>)
    requires forall k :: 0 <= k < |ps| ==> PlainParam(ps[k])
    ensures ParsePairs(PairTexts(ps)) == Some(ps)
    decreases |ps|
  {
    if ps != [] {
      ParsePairText(ps[0]);
      ParsePairTexts(ps[1..]);
      assert PairTexts(ps)[1..] == PairTexts(ps[1..]);
      assert [ps[0]] + ps[1..] == ps;
    }
  }

  /** A query string of plain parameters decodes to exactly those parameters. */
  lemma ParseRenderQuery(ps: seq<Param>)
    requires |ps| >= 1
    requires forall k :: 0 <= k < |ps| ==> PlainParam(ps[k])
    ensures ParseQuery(RenderQuery(ps)) == Some(ps)
  {
    var texts := PairTexts(ps);
    forall k | 0 <= k < |texts| ensures '&' !in texts[k] {
      assert texts[k] == ps[k].0 + "=" + ps[k].1;
    }
    SplitJoin(texts, '&');
    ParsePairTexts(ps);
  }

  // ---------------------------------------------------------------------------
  // getEntriesURL and GetEntries
  // ---------------------------------------------------------------------------

  /** The entries path: the collection, or one entry when `id` is not empty. */
  function EntriesPath(c: Client, id: string): string
  {
    var url := c.baseURL + "/spaces/" + c.spaceID + "/environments/" + c.environment + "/entries";
    if id != "" then url + "/" + id else url
  }

  /** The query parameters GetEntries sends: the access token and content type,
      then the limit when positive, then skip and ordering when the offset is positive. */
  function EntriesParams(c: Client, contentType: string, limit: Int64, offset: Int64): (ps: seq<Param>)
    ensures |ps| >= 2
  {
    [("access_token", c.token), ("content_type", contentType)] + LimitParams(limit) + OffsetParams(offset)
  }

  function LimitParams(limit: Int64): seq<Param>
  {
    if limit > 0 then [("limit", FormatInt(limit))] else []
  }

  function OffsetParams(offset: Int64): seq<Param>
  {
    if offset > 0 then [("skip", FormatInt(offset)), ("order", "sys.createdAt")] else []
  }

  lemma RenderBaseQuery(c: Client, contentType: string)
    ensures RenderQuery(EntriesParams(c, contentType, 0, 0)) == "access_token=" + c.token + "&content_type=" + contentType
  {
    var ps := EntriesParams(c, contentType, 0, 0);
    var texts := PairTexts(ps);
    assert ps == [("access_token", c.token), ("content_type", contentType)];
    assert texts[1..] == [texts[1]];
    assert Join(texts, '&') == texts[0] + ['&'] + texts[1];
    assert texts[0] == "access_token=" + c.token;
    assert texts[1] == "content_type=" + contentType;
  }

  /** The URL getEntriesURL formats, as the entries path and the rendered query. */
  lemma BaseURLShape(path: string, c: Client, contentType: string)
    ensures path + "?access_token=" + c.token + "&content_type=" + contentType
      == path + "?" + RenderQuery(EntriesParams(c, contentType, 0, 0))
  {
    RenderBaseQuery(c, contentType);
    assert "?access_token=" == "?" + "access_token=";
  }

  /** getEntriesURL: never an error; the entries path and the token and content type. */
  function GetEntriesURL(c: Client, contentType: string, id: string): (r: Result<string, string>)
    ensures r.Ok?
    ensures r.value == EntriesPath(c, id) + "?" + RenderQuery(EntriesParams(c, contentType, 0, 0))
  {
    var url := c.baseURL + "/spaces/" + c.spaceID + "/environments/" + c.environment + "/entries";
    var url := if id != "" then url + "/" + id else url;
    BaseURLShape(url, c, contentType);
    Ok(url + "?access_token=" + c.token + "&content_type=" + contentType)
  }

  /** What the transport gave back: an error, or a response with its status and body. */
  datatype Transport = TransportError(message: string) | Response(status: Int64, body: string)

  const StatusOK: int := 200
  const StatusTooManyRequests: int := 429

  /** The status check of GetEntries: 429 is "rate limited", any other status
      but 200 is an error naming it, and 200 yields the body. */
  function StatusResult(t: Transport): (r: Result<string, string>)
    ensures t.TransportError? ==> r == Err(t.message)
    ensures r.Ok? <==> t.Response? && t.status == StatusOK
    ensures r.Ok? ==> r.value == t.body
    ensures t.Response? && t.status == StatusTooManyRequests ==> r == Err("error: rate limited")
    ensures t.Response? && t.status != StatusOK && t.status != StatusTooManyRequests ==>
      r == Err("error: " + FormatInt(t.status))
  {
    match t
    case TransportError(m) => Err(m)
    case Response(status, body) =>
      if status == StatusTooManyRequests then Err("error: rate limited")
      else if status != StatusOK then Err("error: " + FormatInt(status))
      else Ok(body)
  }

  /** The body is returned exactly for status 200; a 429 is reported as rate
      limiting; any other status can be read back from the error message. */
  lemma StatusResultCases(t: Transport)
    requires t.Response?
    ensures StatusResult(t).Ok? <==> t.status == 200
    ensures StatusResult(t).Ok? ==> StatusResult(t).value == t.body
    ensures t.status == 429 ==> StatusResult(t) == Err("error: rate limited")
    ensures t.status != 429 && t.status != 200 ==>
      var m := StatusResult(t).error;
      |m| > 7 && m[..7] == "error: " && Atoi(m[7..]) == Some(t.status)
  {
    if t.status != 429 && t.status != 200 {
      var m := StatusResult(t).error;
      assert m[7..] == FormatInt(t.status);
      AtoiFormatInt(t.status);
    }
  }

  /** Appending `&key=value` to a URL that ends in a query string appends the parameter. */
  lemma ExtendQuery(url: string, prefix: string, ps: seq<Param>, p: Param, text: string)
    requires |ps| >= 1 && url == prefix + RenderQuery(ps)
    requires text == "&" + p.0 + "="
    ensures url + text + p.1 == prefix + RenderQuery(ps + [p])
  {
    RenderAppend(ps, p);
  }

  lemma ExtendLimit(url: string, prefix: string, ps: seq<Param>, limit: Int64)
    requires |ps| >= 1 && url == prefix + RenderQuery(ps)
    ensures (if limit > 0 then url + "&limit=" + FormatInt(limit) else url) == prefix + RenderQuery(ps + LimitParams(limit))
  {
    if limit > 0 {
      ExtendQuery(url, prefix, ps, ("limit", FormatInt(limit)), "&limit=");
    } else {
      assert ps + LimitParams(limit) == ps;
    }
  }

  /** Appending skip and order, for any skip value. */
  lemma ExtendSkipOrder(url: string, prefix: string, ps: seq<Param>, skip: string)
    requires |ps| >= 1 && url == prefix + RenderQuery(ps)
    ensures url + "&skip=" + skip + "&order=sys.createdAt"
      == prefix + RenderQuery(ps + [("skip", skip), ("order", "sys.createdAt")])
  {
    ExtendQuery(url, prefix, ps, ("skip", skip), "&skip=");
    var skipped := url + "&skip=" + skip;
    ExtendQuery(skipped, prefix, ps + [("skip", skip)], ("order", "sys.createdAt"), "&order=");
    assert skipped + "&order=" + "sys.createdAt" == skipped + "&order=sys.createdAt";
    assert ps + [("skip", skip)] + [("order", "sys.createdAt")] == ps + [("skip", skip), ("order", "sys.createdAt")];
  }

  lemma ExtendOffset(url: string, prefix: string, ps: seq<Param>, offset: Int64)
    requires |ps| >= 1 && url == prefix + RenderQuery(ps)
    ensures (if offset > 0 then url + "&skip=" + FormatInt(offset) + "&order=sys.createdAt" else url)
      == prefix + RenderQuery(ps + OffsetParams(offset))
  {
    if offset > 0 {
      ExtendSkipOrder(url, prefix, ps, FormatInt(offset));
    } else {
      assert ps + OffsetParams(offset) == ps;
    }
  }

  /** The requested URL, written as GetEntries appends to the one getEntriesURL builds. */
  lemma EntriesURLSuffixes(c: Client, contentType: string, limit: Int64, offset: Int64, id: string)
    ensures var base := GetEntriesURL(c, contentType, id).value;
      var withLimit := if limit > 0 then base + "&limit=" + FormatInt(limit) else base;
      var withOffset := if offset > 0 then withLimit + "&skip=" + FormatInt(offset) + "&order=sys.createdAt" else withLimit;
      withOffset == EntriesPath(c, id) + "?" + RenderQuery(EntriesParams(c, contentType, limit, offset))
  {
    var prefix := EntriesPath(c, id) + "?";
    var base := GetEntriesURL(c, contentType, id).value;
    var ps := EntriesParams(c, contentType, 0, 0);
    var head := [("access_token", c.token), ("content_type", contentType)];
    assert LimitParams(0) == [] && OffsetParams(0) == [];
    assert ps == head;
    ExtendLimit(base, prefix, ps, limit);
    var withLimit := if limit > 0 then base + "&limit=" + FormatInt(limit) else base;
    ExtendOffset(withLimit, prefix, ps + LimitParams(limit), offset);
    assert head + LimitParams(limit) + OffsetParams(offset) == EntriesParams(c, contentType, limit, offset);
  }

  /** GetEntries: the URL it requests, and what it returns for the transport's outcome. */
  method GetEntries(c: Client, contentType: string, limit: Int64, offset: Int64, id: string, t: Transport)
    returns (requested: string, result: Result<string, string>)
    ensures requested == EntriesPath(c, id) + "?" + RenderQuery(EntriesParams(c, contentType, limit, offset))
    ensures result == StatusResult(t)
  {
    var entries := GetEntriesURL(c, contentType, id);
    var url := entries.value;
    if limit > 0 {
      url := url + "&limit=" + FormatInt(limit);
    }
    if offset > 0 {
      url := url + "&skip=" + FormatInt(offset);
      url := url + "&order=sys.createdAt";
    }
    EntriesURLSuffixes(c, contentType, limit, offset, id);
    requested := url;
    result := StatusResult(t);
  }

  /** A formatted number holds neither query delimiter. */
  lemma FormatIntPlain(n: int)
    ensures '&' !in FormatInt(n) && '=' !in FormatInt(n)
  {
    FormatIntChars(n);
  }

  /** Some parameter carries the key. */
  predicate HasKey(ps: seq<Param>, key: string)
  {
    exists k :: 0 <= k < |ps| && ps[k].0 == key
  }

  /** When the token and content type hold no delimiter, the requested query
      string decodes back to its parameters, token and content type first. */
  lemma EntriesQueryDecodes(c: Client, contentType: string, limit: Int64, offset: Int64)
    requires PlainParam(("access_token", c.token)) && PlainParam(("content_type", contentType))
    ensures var ps := EntriesParams(c, contentType, limit, offset);
      && ParseQuery(RenderQuery(ps)) == Some(ps)
      && ps[0] == ("access_token", c.token) && ps[1] == ("content_type", contentType)
  {
    var ps := EntriesParams(c, contentType, limit, offset);
    var head := [("access_token", c.token), ("content_type", contentType)];
    var lp, op := LimitParams(limit), OffsetParams(offset);
    FormatIntPlain(limit);
    FormatIntPlain(offset);
    assert forall k :: 0 <= k < |lp| ==> PlainParam(lp[k]);
    assert forall k :: 0 <= k < |op| ==> PlainParam(op[k]);
    PlainConcat(head, lp);
    PlainConcat(head + lp, op);
    ParseRenderQuery(ps);
  }

  lemma PlainConcat(a: seq<Param>, b: seq<Param>)
    requires forall k :: 0 <= k < |a| ==> PlainParam(a[k])
    requires forall k :: 0 <= k < |b| ==> PlainParam(b[k])
    ensures forall k :: 0 <= k < |a + b| ==> PlainParam((a + b)[k])
  {
  }

  /** Where a limit parameter can come from: only from the pair for the limit. */
  lemma LimitKey(head: seq<Param>, limit: string, present: bool, tail: seq<Param>)
    requires forall k :: 0 <= k < |head| ==> head[k].0 in ["access_token", "content_type"]
    requires forall k :: 0 <= k < |tail| ==> tail[k].0 in ["skip", "order"]
    ensures var ps := head + (if present then [("limit", limit)] else []) + tail;
      && (HasKey(ps, "limit") <==> present)
      && (forall k :: 0 <= k < |ps| && ps[k].0 == "limit" ==> ps[k].1 == limit)
  {
    var ps := head + (if present then [("limit", limit)] else []) + tail;
    assert "order"[0] != "limit"[0];
    if present {
      assert ps[|head|].0 == "limit";
    }
  }

  /** A limit is sent exactly when the limit is positive, and reads back as it. */
  lemma EntriesLimitParam(c: Client, contentType: string, limit: Int64, offset: Int64)
    ensures var ps := EntriesParams(c, contentType, limit, offset);
      && (HasKey(ps, "limit") <==> limit > 0)
      && forall k :: 0 <= k < |ps| && ps[k].0 == "limit" ==> Atoi(ps[k].1) == Some(limit)
  {
    var head := [("access_token", c.token), ("content_type", contentType)];
    var tail := OffsetParams(offset);
    var text := FormatInt(limit);
    assert EntriesParams(c, contentType, limit, offset)
        == head + (if limit > 0 then [("limit", text)] else []) + tail;
    assert forall k :: 0 <= k < |tail| ==> tail[k].0 in ["skip", "order"];
    LimitKey(head, text, limit > 0, tail);
    AtoiFormatInt(limit);
  }

  /** Where skip and order parameters can come from: only from the appended pair. */
  lemma SkipOrderKeys(pre: seq<Param>, skip: string, present: bool)
    requires forall k :: 0 <= k < |pre| ==> pre[k].0 in ["access_token", "content_type", "limit"]
    ensures var ps := pre + (if present then [("skip", skip), ("order", "sys.createdAt")] else []);
      && (HasKey(ps, "skip") <==> present)
      && (HasKey(ps, "order") <==> present)
      && (forall k :: 0 <= k < |ps| && ps[k].0 == "skip" ==> ps[k].1 == skip)
      && (forall k :: 0 <= k < |ps| && ps[k].0 == "order" ==> ps[k].1 == "sys.createdAt")
  {
    var ps := pre + (if present then [("skip", skip), ("order", "sys.createdAt")] else []);
    assert "order"[0] != "limit"[0];
    if present {
      assert ps[|pre|].0 == "skip" && ps[|pre| + 1].0 == "order";
    }
  }

  /** Skip and ordering are sent exactly when the offset is positive; skip reads
      back as the offset and entries are then ordered by creation time. */
  lemma EntriesOffsetParams(c: Client, contentType: string, limit: Int64, offset: Int64)
    ensures var ps := EntriesParams(c, contentType, limit, offset);
      && (HasKey(ps, "skip") <==> offset > 0)
      && (HasKey(ps, "order") <==> offset > 0)
      && (forall k :: 0 <= k < |ps| && ps[k].0 == "skip" ==> Atoi(ps[k].1) == Some(offset))
      && (forall k :: 0 <= k < |ps| && ps[k].0 == "order" ==> ps[k].1 == "sys.createdAt")
  {
    var pre := [("access_token", c.token), ("content_type", contentType)] + LimitParams(limit);
    var skip := FormatInt(offset);
    assert EntriesParams(c, contentType, limit, offset)
        == pre + (if offset > 0 then [("skip", skip), ("order", "sys.createdAt")] else []);
    assert forall k :: 0 <= k < |pre| ==> pre[k].0 in ["access_token", "content_type", "limit"];
    SkipOrderKeys(pre, skip, offset > 0);
    AtoiFormatInt(offset);
  }

  // ---------------------------------------------------------------------------
  // NodeToString and the webhook topics
  // ---------------------------------------------------------------------------

  /** NodeToString: the decoded node is never assigned (its decoding is
      commented out), so the function always returns an empty string and no
      error, whatever it is given. */
  function NodeToString<T>(data: T): (r: (string, Option<string>))
    ensures r == ("", None)
  {
    ("", None)
  }

  const WebhookPublish: string := "ContentManagement.Entry.publish"
  const WebhookUnpublish: string := "ContentManagement.Entry.unpublish"
  const WebhookArchive: string := "ContentManagement.Entry.archive"
  const WebhookUnarchive: string := "ContentManagement.Entry.unarchive"
  const WebhookDelete: string := "ContentManagement.Entry.delete"

  /** The five webhook topics are pairwise distinct, so the topic header names one event. */
  lemma WebhookTopicsDistinct()
    ensures |{WebhookPublish, WebhookUnpublish, WebhookArchive, WebhookUnarchive, WebhookDelete}| == 5
  {
    assert WebhookPublish != WebhookUnpublish && WebhookPublish != WebhookArchive;
    assert WebhookPublish != WebhookUnarchive && WebhookPublish != WebhookDelete;
    assert WebhookUnpublish != WebhookArchive && WebhookUnpublish != WebhookUnarchive;
    assert WebhookUnpublish != WebhookDelete && WebhookArchive != WebhookUnarchive;
    assert WebhookArchive != WebhookDelete && WebhookUnarchive != WebhookDelete;
  }
}
