/**
 * The pure part of the create handlers (server/index.js and
 * api/pastes/index.js share it): the request body as parsed JSON, the
 * ordered validation chain, the expiry computation and the paste URL.
 */
module CreateRules {
  import opened Wrappers
  import opened JsText

  /**
   * A field of the parsed JSON request body. `Undefined` is a key absent
   * from the body; `Fraction` is a number that is not an integer, which
   * also stands for the +-Infinity that `JSON.parse` makes of an
   * out-of-range literal such as `1e400`.
   */
  datatype Json = Undefined | Null | Bool(b: bool) | Int(i: int) | Fraction | Str(s: string) | Arr | Obj

  /** JavaScript truthiness of a JSON value. */
  predicate Truthy(v: Json) {
    match v
    case Undefined => false
    case Null => false
    case Bool(b) => b
    case Int(i) => i != 0
    case Fraction => true
    case Str(s) => s != ""
    case Arr => true
    case Obj => true
  }

  /** `Number.isInteger(v)` */
  predicate IsInteger(v: Json) {
    v.Int?
  }

  /** The fields `content`, `ttl_seconds` and `max_views` of the request body. */
  datatype CreateBody = CreateBody(content: Json, ttlSeconds: Json, maxViews: Json)

  type Pos = x: int | x >= 1 witness 1

  /** A request that passed validation. */
  datatype Accepted = Accepted(content: string, ttlSeconds: Option<Pos>, maxViews: Option<Pos>)

  /** Which guard rejected the request. */
  datatype CreateError = BadContent | BadTtl | BadMaxViews

  /** The `error` text of the 400 response for each guard. */
  function Message(e: CreateError): string {
    match e
    case BadContent => "Content is required and must be a non-empty string."
    case BadTtl => "ttl_seconds must be a positive integer."
    case BadMaxViews => "max_views must be a positive integer."
  }

  /** `!content || typeof content !== "string" || content.trim().length === 0` */
  predicate RejectsContent(content: Json)
    ensures RejectsContent(content) <==> !HasText(content)
  {
    !Truthy(content) || !content.Str? || |Trim(content.s)| == 0
  }

  /** `v !== undefined && (!Number.isInteger(v) || v < 1)` */
  predicate RejectsOptionalPositive(v: Json)
    ensures RejectsOptionalPositive(v) <==> !AbsentOrPositive(v)
  {
    v != Undefined && (!IsInteger(v) || v.i < 1)
  }

  /** The value of an optional field that passed its check. */
  function OptionalPositive(v: Json): Option<Pos>
    requires !RejectsOptionalPositive(v)
  {
    if v.Int? then Some(v.i) else None
  }

  /** A string holding at least one character that is not white space. */
  predicate HasText(v: Json) {
    v.Str? && exists i :: 0 <= i < |v.s| && !IsWhitespace(v.s[i])
  }

  /** Absent, or an integer of at least 1. */
  predicate AbsentOrPositive(v: Json) {
    v.Undefined? || (v.Int? && v.i >= 1)
  }

  /** The three guards, in order; the first one that fails decides the message. */
  function Validate(body: CreateBody): (r: Result<Accepted, CreateError>)
    ensures r.Success? <==>
              HasText(body.content) && AbsentOrPositive(body.ttlSeconds) && AbsentOrPositive(body.maxViews)
    ensures !HasText(body.content) ==> r == Failure(BadContent)
    ensures HasText(body.content) && !AbsentOrPositive(body.ttlSeconds) ==> r == Failure(BadTtl)
    ensures HasText(body.content) && AbsentOrPositive(body.ttlSeconds) && !AbsentOrPositive(body.maxViews) ==>
              r == Failure(BadMaxViews)
    ensures r.Success? ==>
              && r.value.content == body.content.s
              && (r.value.ttlSeconds.Some? <==> body.ttlSeconds != Undefined)
              && (r.value.ttlSeconds.Some? ==> r.value.ttlSeconds.value == body.ttlSeconds.i)
              && (r.value.maxViews.Some? <==> body.maxViews != Undefined)
              && (r.value.maxViews.Some? ==> r.value.maxViews.value == body.maxViews.i)
  {
    if RejectsContent(body.content) then Failure(BadContent)
    else if RejectsOptionalPositive(body.ttlSeconds) then Failure(BadTtl)
    else if RejectsOptionalPositive(body.maxViews) then Failure(BadMaxViews)
    else Success(Accepted(body.content.s, OptionalPositive(body.ttlSeconds), OptionalPositive(body.maxViews)))
  }

  /**
   * `expiresAt`: `createdAt + ttl_seconds * 1000` milliseconds when a TTL was
   * given, null otherwise.
   */
  function ExpiresAt(createdAt: int, ttlSeconds: Option<Pos>): (r: Option<int>)
    ensures r.None? <==> ttlSeconds.None?
    ensures r.Some? ==> r.value >= createdAt + 1000
    ensures r.Some? ==> (r.value - createdAt) % 1000 == 0 && (r.value - createdAt) / 1000 == ttlSeconds.value
  {
    match ttlSeconds
    case Some(ttl) => Some(createdAt + ttl * 1000)
    case None => None
  }

  /** `req.headers["x-forwarded-proto"] || fallback` */
  function SelectProtocol(forwardedProto: Option<string>, fallback: string): (protocol: string)
    ensures forwardedProto.Some? && forwardedProto.value != "" ==> protocol == forwardedProto.value
    ensures forwardedProto.None? || forwardedProto.value == "" ==> protocol == fallback
    ensures fallback != "" ==> protocol != ""
  {
    if forwardedProto.Some? && forwardedProto.value != "" then forwardedProto.value else fallback
  }

  /** `req.headers.host` inside a template literal: a missing header prints as "undefined". */
  function HostText(host: Option<string>): (text: string)
    ensures host.Some? ==> text == host.value
    ensures host.None? ==> text == "undefined"
    ensures text == "" ==> host == Some("")
  {
    if host.Some? then host.value else "undefined"
  }

  /** `${protocol}://${host}/p/${id}` */
  function PasteUrl(protocol: string, host: string, id: string): (url: string)
    ensures |url| == |protocol| + |host| + |id| + 6
    ensures url[..|protocol|] == protocol && url[|protocol|..|protocol| + 3] == "://"
    ensures url[|protocol| + 3..|protocol| + 3 + |host|] == host
    ensures url[|url| - |id| - 3..] == "/p/" + id
  {
    protocol + "://" + host + "/p/" + id
  }

  /** What the client route `/p/:id` reads back: the text after the last '/'. */
  function LastSegment(url: string): (seg: string)
    ensures '/' !in seg
    ensures |seg| <= |url| && seg == url[|url| - |seg|..]
  {
    if url == [] || url[|url| - 1] == '/' then []
    else LastSegment(url[..|url| - 1]) + [url[|url| - 1]]
  }

  lemma {:induction false} LastSegmentAfterSlash(prefix: string, id: string)
    requires '/' !in id
    ensures LastSegment(prefix + "/" + id) == id
  {
    var url := prefix + "/" + id;
    if id == [] {
      assert url[|url| - 1] == '/';
    } else {
      var shorter := id[..|id| - 1];
      assert url[..|url| - 1] == prefix + "/" + shorter;
      assert id == shorter + [id[|id| - 1]];
      LastSegmentAfterSlash(prefix, shorter);
    }
  }

  /** An id without '/' (nanoid's alphabet has none) is read back from the URL whatever the protocol and host. */
  lemma PasteUrlNamesId(protocol: string, host: string, id: string)
    requires '/' !in id
    ensures LastSegment(PasteUrl(protocol, host, id)) == id
  {
    assert PasteUrl(protocol, host, id) == (protocol + "://" + host + "/p") + "/" + id;
    LastSegmentAfterSlash(protocol + "://" + host + "/p", id);
  }
}
