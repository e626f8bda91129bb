/** middleware/responseLogger.js and middleware/errorLogger.js: the records handed to
    `ErrorLog.create`. The response logger wraps `res.status` and `res.json`, tracks the
    status code and writes a record for every reply with a status of 400 or more; the error
    logger writes one for every error that reaches it and always passes the error on.
    Both shorten the request body and headers and drop the credential headers first. */
module Logging {
  import opened Common
  import opened Schema
  import opened Responses

  /** Request headers, in the order the object lists them. */
  type Headers = seq<(string, string)>

  /** The parsed request body: its own keys, and the text `JSON.stringify` makes of it
      (None when it throws). */
  datatype Body = Body(keys: seq<string>, json: Option<string>)

  /** The parts of an Express request the loggers read; a field Express leaves undefined is
      None. `user` is what `authenticateToken` attached. */
  datatype Request = Request(user: Option<Row<User>>, verb: Option<string>,
                             originalUrl: Option<string>, url: Option<string>,
                             ip: Option<string>, remoteAddress: Option<string>,
                             userAgent: Option<string>, body: Option<Body>, headers: Headers)

  /** The attributes of one `ErrorLog.create` call. */
  datatype LogRecord = LogRecord(userId: Option<nat>, verb: Option<string>, url: Option<string>,
                                 statusCode: int, errorMessage: string, errorStack: Option<string>,
                                 requestBody: Option<string>, requestHeaders: string,
                                 ipAddress: Option<string>, userAgent: Option<string>)

  const BodyLimit: nat := 5000
  const HeadersLimit: nat := 2000
  const UnreadableBody := "[Unable to stringify request body]"
  const UnreadableHeaders := "[Unable to stringify headers]"

  /** The headers deleted from the copy before it is written out. */
  const Sensitive: set<string> := {"authorization", "cookie", "x-api-key"}

  /** A logged text cut to a limit: text longer than the limit keeps its first `limit`
      characters followed by "...", shorter text is kept whole (middleware/responseLogger.js:44). */
  function Truncate(s: string, limit: nat): (t: string)
    ensures |s| <= limit ==> t == s
    ensures |s| > limit ==> |t| == limit + 3 && t[..limit] == s[..limit] && t[limit..] == "..."
  {
    if |s| > limit then s[..limit] + "..." else s
  }

  /** What is kept is never longer than the limit plus the ellipsis, and it begins with as
      much of the text as fits. */
  lemma TruncateKeepsPrefix(s: string, limit: nat)
    ensures var t := Truncate(s, limit);
            && |t| <= limit + 3
            && (|t| <= limit <==> |s| <= limit)
            && (if |s| <= limit then t == s else StartsWith(t, s[..limit]) && StartsWith(s, t[..limit]))
  {
  }

  /** The first non-empty of two optional strings, or none (middleware/responseLogger.js:34). */
  function FirstOf(a: Option<string>, b: Option<string>): (r: Option<string>)
    ensures r.Some? <==> Truthy(a) || Truthy(b)
    ensures Truthy(a) ==> r == a
    ensures !Truthy(a) ==> r == OrNull(b)
  {
    if Truthy(a) then a else OrNull(b)
  }

  /** The first of two optional numbers that is present and not zero, otherwise the fallback
      (middleware/errorLogger.js:11). */
  function FirstNumber(a: Option<int>, b: Option<int>, fallback: int): (r: int)
    ensures a.Some? && a.value != 0 ==> r == a.value
    ensures (a.None? || a.value == 0) && b.Some? && b.value != 0 ==> r == b.value
    ensures (a.None? || a.value == 0) && (b.None? || b.value == 0) ==> r == fallback
  {
    if a.Some? && a.value != 0 then a.value
    else if b.Some? && b.value != 0 then b.value
    else fallback
  }

  // ---------------------------------------------------------------------------
  // Request body and headers (the same code in both loggers, lines 38-63 and 20-45)

  /** The logged body: nothing unless the body has at least one key; otherwise its text cut
      to 5000 characters, or a placeholder when it cannot be written out. */
  function BodyText(body: Option<Body>): Option<string> {
    if body.Some? && |body.value.keys| > 0 then
      Some(match body.value.json
           case None => UnreadableBody
           case Some(s) => Truncate(s, BodyLimit))
    else None
  }

  /** The body step of both loggers (responseLogger.js:38-48): a body with at least one key
      is logged, as a placeholder when it cannot be written out, as its whole text when that
      fits in 5000 characters, and as its first 5000 characters and "..." otherwise. */
  method SerializeBody(body: Option<Body>) returns (requestBody: Option<string>)
    ensures requestBody.Some? <==> body.Some? && |body.value.keys| > 0
    ensures requestBody.Some? && body.value.json.None? ==> requestBody.value == UnreadableBody
    ensures requestBody.Some? && body.value.json.Some? && |body.value.json.value| <= BodyLimit ==>
              requestBody.value == body.value.json.value
    ensures requestBody.Some? && body.value.json.Some? && |body.value.json.value| > BodyLimit ==>
              requestBody.value == body.value.json.value[..BodyLimit] + "..."
    ensures requestBody == BodyText(body)
  {
    requestBody := None;
    if body.Some? && |body.value.keys| > 0 {
      var bodyStr := body.value.json;
      if bodyStr.None? {
        requestBody := Some(UnreadableBody);
      } else if |bodyStr.value| > BodyLimit {
        requestBody := Some(bodyStr.value[..BodyLimit] + "...");
      } else {
        requestBody := bodyStr;
      }
    }
  }

  /** An empty or missing body is not logged; a non-empty one always is, and its text is
      the serialised body itself when it fits. */
  lemma BodyLogged(body: Option<Body>)
    ensures BodyText(body).Some? <==> body.Some? && |body.value.keys| > 0
    ensures BodyText(body).Some? ==>
              && |BodyText(body).value| <= BodyLimit + 3
              && (body.value.json.None? ==> BodyText(body).value == UnreadableBody)
              && (body.value.json.Some? && |body.value.json.value| <= BodyLimit ==>
                    BodyText(body).value == body.value.json.value)
              && (body.value.json.Some? && |body.value.json.value| > BodyLimit ==>
                    BodyText(body).value == body.value.json.value[..BodyLimit] + "...")
              && (body.value.json.Some? ==>
                    StartsWith(body.value.json.value, BodyText(body).value[..Min(|body.value.json.value|, BodyLimit)]))
  {
    if body.Some? && |body.value.keys| > 0 && body.value.json.Some? {
      TruncateKeepsPrefix(body.value.json.value, BodyLimit);
    }
  }

  function Min(a: nat, b: nat): nat {
    if a < b then a else b
  }

  /** `delete headers[key]` on the copy: every entry of that name goes, the rest keep their
      order. */
  function Without(headers: Headers, key: string): (r: Headers)
    ensures |r| <= |headers|
    ensures forall i | 0 <= i < |r| :: r[i].0 != key
  {
    if headers == [] then []
    else (if headers[0].0 == key then [] else [headers[0]]) + Without(headers[1..], key)
  }

  /** The delete keeps every entry of another name and adds none. */
  lemma {:induction false} WithoutKeeps(headers: Headers, key: string)
    ensures forall p | p in headers && p.0 != key :: p in Without(headers, key)
    ensures forall p | p in Without(headers, key) :: p in headers
  {
    if headers != [] {
      WithoutKeeps(headers[1..], key);
      assert headers == [headers[0]] + headers[1..];
    }
  }

  /** The copy of the headers after the three deletes. */
  function Redacted(headers: Headers): Headers {
    Without(Without(Without(headers, "authorization"), "cookie"), "x-api-key")
  }

  /** The entries of the headers whose name is not in `names`, in their order: a one-pass
      reference for the three deletes. */
  function Omit(headers: Headers, names: set<string>): Headers {
    if headers == [] then []
    else (if headers[0].0 in names then [] else [headers[0]]) + Omit(headers[1..], names)
  }

  /** The three deletes remove exactly the credential headers, keeping the others in order. */
  lemma {:induction false} RedactedOmitsSensitive(headers: Headers)
    ensures Redacted(headers) == Omit(headers, Sensitive)
  {
    if headers != [] {
      var h, rest := headers[0], headers[1..];
      RedactedOmitsSensitive(rest);
      assert headers == [h] + rest;
      RedactedAppend([h], rest);
      RedactedOne(h);
      assert Omit(headers, Sensitive) == (if h.0 in Sensitive then [] else [h]) + Omit(rest, Sensitive);
    }
  }

  /** The deletes act on each part of the headers separately. */
  lemma RedactedAppend(a: Headers, b: Headers)
    ensures Redacted(a + b) == Redacted(a) + Redacted(b)
  {
    WithoutAppend(a, b, "authorization");
    var a1, b1 := Without(a, "authorization"), Without(b, "authorization");
    WithoutAppend(a1, b1, "cookie");
    WithoutAppend(Without(a1, "cookie"), Without(b1, "cookie"), "x-api-key");
  }

  /** A single header survives the deletes exactly when it is not a credential. */
  lemma RedactedOne(h: (string, string))
    ensures Redacted([h]) == if h.0 in Sensitive then [] else [h]
  {
    assert [h][1..] == [];
    var a := Without([h], "authorization");
    if h.0 == "authorization" {
      assert a == [];
    } else {
      assert a == [h];
      assert a[1..] == [];
      var c := Without(a, "cookie");
      if h.0 == "cookie" {
        assert c == [];
      } else {
        assert c == [h];
        assert c[1..] == [];
      }
    }
  }

  lemma {:induction false} WithoutAppend(a: Headers, b: Headers, key: string)
    ensures Without(a + b, key) == Without(a, key) + Without(b, key)
    decreases |a|
  {
    if a == [] {
      assert a + b == b;
    } else {
      var h := if a[0].0 == key then [] else [a[0]];
      assert (a + b)[1..] == a[1..] + b;
      assert (a + b)[0] == a[0];
      assert Without(a + b, key) == h + Without(a[1..] + b, key);
      WithoutAppend(a[1..], b, key);
      assert Without(a, key) == h + Without(a[1..], key);
    }
  }

  /** No credential header reaches the log, and every other header does. */
  lemma RedactionDropsCredentials(headers: Headers)
    ensures forall p | p in Redacted(headers) :: p in headers && p.0 !in Sensitive
    ensures forall p | p in headers && p.0 !in Sensitive :: p in Redacted(headers)
  {
    var a := Without(headers, "authorization");
    var c := Without(a, "cookie");
    WithoutKeeps(headers, "authorization");
    WithoutKeeps(a, "cookie");
    WithoutKeeps(c, "x-api-key");
  }

  /** The logged headers: the redacted copy written out and cut to 2000 characters, or a
      placeholder when it cannot be written out. */
  function HeadersText(headers: Headers, stringify: Headers -> Option<string>): string {
    match stringify(Redacted(headers))
    case None => UnreadableHeaders
    case Some(s) => Truncate(s, HeadersLimit)
  }

  /** The headers step of both loggers (middleware/responseLogger.js:50-62): a copy of the
      headers loses its three sensitive entries one at a time, and is then written out and cut
      to 2000 characters. `stringify` is the behaviour of `JSON.stringify` on a headers object. */
  method SerializeHeaders(headers: Headers, stringify: Headers -> Option<string>)
    returns (requestHeaders: string)
    ensures requestHeaders == HeadersText(headers, stringify)
  {
    var copy := headers;
    copy := Without(copy, "authorization");
    copy := Without(copy, "cookie");
    copy := Without(copy, "x-api-key");
    var headersStr := stringify(copy);
    if headersStr.None? {
      requestHeaders := UnreadableHeaders;
    } else if |headersStr.value| > HeadersLimit {
      requestHeaders := headersStr.value[..HeadersLimit] + "...";
    } else {
      requestHeaders := headersStr.value;
    }
  }

  /** The logged headers are the text of an object without credentials, in full when it
      fits and otherwise its first 2000 characters and an ellipsis. */
  lemma HeadersLogged(headers: Headers, stringify: Headers -> Option<string>)
    ensures var t := HeadersText(headers, stringify);
            && |t| <= HeadersLimit + 3
            && match stringify(Omit(headers, Sensitive))
               case None => t == UnreadableHeaders
               case Some(s) => (|s| <= HeadersLimit ==> t == s)
                               && (|s| > HeadersLimit ==> t == s[..HeadersLimit] + "...")
  {
    RedactedOmitsSensitive(headers);
  }

  // ---------------------------------------------------------------------------
  // The record

  /** The request half of a record, the same for both loggers. */
  function Record(req: Request, stringify: Headers -> Option<string>, statusCode: int,
                  message: string, stack: Option<string>): LogRecord
  {
    LogRecord(if req.user.Some? then Some(req.user.value.id) else None,
              OrNull(req.verb), FirstOf(req.originalUrl, req.url), statusCode, message, stack,
              BodyText(req.body), HeadersText(req.headers, stringify),
              FirstOf(req.ip, req.remoteAddress), OrNull(req.userAgent))
  }

  /** Who and what a record names: the authenticated user's id (none without one), the
      method, the original URL before the mounted one, the client address. */
  lemma RecordOfRequest(req: Request, stringify: Headers -> Option<string>, statusCode: int,
                        message: string, stack: Option<string>)
    ensures var r := Record(req, stringify, statusCode, message, stack);
            && (r.userId.None? <==> req.user.None?)
            && (req.user.Some? ==> r.userId == Some(req.user.value.id))
            && (r.url.Some? <==> Truthy(req.originalUrl) || Truthy(req.url))
            && (Truthy(req.originalUrl) ==> r.url == req.originalUrl)
            && (r.ipAddress.Some? <==> Truthy(req.ip) || Truthy(req.remoteAddress))
            && (r.verb.Some? <==> Truthy(req.verb))
            && r.statusCode == statusCode && r.errorMessage == message && r.errorStack == stack
  {
  }

  // ---------------------------------------------------------------------------
  // Response logger

  /** The message logged for a failed reply: the envelope's message when non-empty, else its
      error text when non-empty, else "HTTP <code> Error" (middleware/responseLogger.js:28). */
  function ReplyMessage<T>(data: Envelope<T>, statusCode: int): (m: string)
    ensures m != ""
    ensures Truthy(data.message) ==> m == data.message.value
    ensures !Truthy(data.message) && Truthy(data.error) ==> m == data.error.value
    ensures !Truthy(data.message) && !Truthy(data.error) ==> m == "HTTP " + IntToString(statusCode) + " Error"
  {
    if Truthy(data.message) then data.message.value
    else if Truthy(data.error) then data.error.value
    else "HTTP " + IntToString(statusCode) + " Error"
  }

  /** The stack logged for a failed reply: the envelope's stack when non-empty, else its error
      text when non-empty, else none; the envelope's `error` is always text here
      (middleware/responseLogger.js:29). */
  function ReplyStack<T>(data: Envelope<T>): (s: Option<string>)
    ensures s.Some? <==> Truthy(data.stack) || Truthy(data.error)
  {
    FirstOf(data.stack, data.error)
  }

  /** The record written for a reply with this status and body. */
  function ReplyRecord<T>(req: Request, stringify: Headers -> Option<string>, statusCode: int,
                          data: Envelope<T>): LogRecord
  {
    Record(req, stringify, statusCode, ReplyMessage(data, statusCode), ReplyStack(data))
  }

  /** The replies of `error()`: the record carries the helper's message, and in development
      the thrown error's stack (or the thrown non-Error value, which also stands as its
      message once the helper's message is empty). */
  lemma ErrorReplyRecord<T>(req: Request, stringify: Headers -> Option<string>, message: string,
                            status: Option<int>, err: Option<ErrorDetail>, nodeEnv: Option<string>)
    ensures var reply: Response<T> := ErrorReply(message, status, err, nodeEnv);
            var r := ReplyRecord(req, stringify, reply.status, reply.body);
            && r.statusCode == reply.status
            && (message != "" ==> r.errorMessage == message)
            && (nodeEnv != Some("development") ==>
                  r.errorStack.None?
                  && (message == "" ==> r.errorMessage == "HTTP " + IntToString(reply.status) + " Error"))
            && (nodeEnv == Some("development") && err.Some? && err.value.Thrown? && Truthy(err.value.stack) ==>
                  r.errorStack == err.value.stack)
            && (nodeEnv == Some("development") && err.Some? && err.value.Value? && err.value.text != "" ==>
                  r.errorStack == Some(err.value.text)
                  && (message == "" ==> r.errorMessage == err.value.text))
  {
  }

  /** The other error helpers send their message, which becomes the record's message. */
  lemma StopReplyRecord<T>(req: Request, stringify: Headers -> Option<string>, message: Option<string>)
    ensures var r := ReplyRecord(req, stringify, 401, Unauthorized<T>(message).body);
            r.errorMessage == (if message.Some? && message.value != "" then message.value
                               else if message.Some? then "HTTP 401 Error" else "Unauthorized")
    ensures var r := ReplyRecord(req, stringify, 403, Forbidden<T>(message).body);
            r.errorMessage == (if message.Some? && message.value != "" then message.value
                               else if message.Some? then "HTTP 403 Error" else "Forbidden")
    ensures ReplyRecord(req, stringify, 400, ValidationError<T>(Many([]), None).body).errorMessage
            == "Validation error"
  {
    assert IntToString(401) == "401" && IntToString(403) == "403";
  }

  /** One request's response as seen through `responseLogger`: the status Express holds,
      the status the wrapper tracks, the records it handed to `ErrorLog.create` and the
      bodies it passed to the original `res.json`. */
  class ResponseLogger<T> {
    const request: Request
    const stringify: Headers -> Option<string>
    var resStatus: int
    var statusCode: int
    var logged: seq<LogRecord>
    var sent: seq<Envelope<T>>

    /** The middleware itself (middleware/responseLogger.js:13): the tracked status starts as
        the response's own status, or 200 when that is unset or zero. */
    constructor(request: Request, resStatus: int, stringify: Headers -> Option<string>)
      ensures this.request == request && this.stringify == stringify
      ensures this.resStatus == resStatus
      ensures statusCode == (if resStatus != 0 then resStatus else 200)
      ensures logged == [] && sent == []
    {
      this.request := request;
      this.stringify := stringify;
      this.resStatus := resStatus;
      statusCode := if resStatus != 0 then resStatus else 200;
      logged := [];
      sent := [];
    }

    /** The wrapped `res.status(code)`: the tracked status is the last one set. */
    method Status(code: int)
      modifies this
      ensures statusCode == code && resStatus == code
      ensures logged == old(logged) && sent == old(sent)
    {
      statusCode := code;
      resStatus := code;
    }

    /** The wrapped `res.json(data)`: a record when the tracked status is 400 or more, and
        the body passed on unchanged either way. */
    method Json(data: Envelope<T>) returns (payload: Envelope<T>)
      modifies this
      ensures payload == data && sent == old(sent) + [data]
      ensures logged == old(logged) + (if old(statusCode) >= 400
                                      then [ReplyRecord(request, stringify, old(statusCode), data)]
                                      else [])
      ensures statusCode == old(statusCode) && resStatus == old(resStatus)
    {
      var isError := statusCode >= 400;
      if isError {
        var errorMessage := ReplyMessage(data, statusCode);
        var errorStack := ReplyStack(data);
        var requestBody := SerializeBody(request.body);
        var requestHeaders := SerializeHeaders(request.headers, stringify);
        var userId := if request.user.Some? then Some(request.user.value.id) else None;
        logged := logged + [LogRecord(userId, OrNull(request.verb),
                                      FirstOf(request.originalUrl, request.url), statusCode,
                                      errorMessage, errorStack, requestBody, requestHeaders,
                                      FirstOf(request.ip, request.remoteAddress),
                                      OrNull(request.userAgent))];
      }
      sent := sent + [data];
      payload := data;
    }

    /** A helper's `res.status(statusCode).json(response)`: the reply is logged exactly when
        its status is 400 or more, under that status. */
    method Reply(r: Response<T>)
      modifies this
      ensures statusCode == r.status && resStatus == r.status
      ensures sent == old(sent) + [r.body]
      ensures logged == old(logged) + (if r.status >= 400
                                      then [ReplyRecord(request, stringify, r.status, r.body)]
                                      else [])
    {
      Status(r.status);
      var _ := Json(r.body);
    }
  }

  // ---------------------------------------------------------------------------
  // Error logger

  /** A value that reached the error handler: its `message`, what `toString()` gives, its
      `stack`, and its `status` and `statusCode` properties. */
  datatype Failure = Failure(message: Option<string>, text: string, stack: Option<string>,
                             status: Option<int>, statusCode: Option<int>)

  /** The message logged for a thrown error: its message when non-empty, otherwise its text
      (middleware/errorLogger.js:9). */
  function FailureMessage(err: Failure): (m: string)
    ensures Truthy(err.message) ==> m == err.message.value
    ensures !Truthy(err.message) ==> m == err.text
  {
    OrElse(err.message, err.text)
  }

  /** The status logged for a thrown error: its `status`, else its `statusCode`, else 500,
      a zero counting as not set (middleware/errorLogger.js:11). */
  function FailureStatus(err: Failure): (s: int)
    ensures s != 0
    ensures s == 500 || (err.status.Some? && s == err.status.value) || (err.statusCode.Some? && s == err.statusCode.value)
    ensures (err.status.None? || err.status.value == 0) && (err.statusCode.None? || err.statusCode.value == 0) ==> s == 500
  {
    FirstNumber(err.status, err.statusCode, 500)
  }

  /** The record written for an error. */
  function FailureRecord(err: Failure, req: Request, stringify: Headers -> Option<string>): LogRecord {
    Record(req, stringify, FailureStatus(err), FailureMessage(err), OrNull(err.stack))
  }

  /** `errorLogger(err, req, res, next)`, `err` None for `null` or `undefined` (reading
      `err.message` then throws and the catch block takes over). The error is passed to
      `next` in every case; a record is built for every error that has properties. */
  method ErrorLogger(err: Option<Failure>, req: Request, stringify: Headers -> Option<string>)
    returns (record: Option<LogRecord>, forwarded: Option<Failure>)
    ensures forwarded == err
    ensures record.Some? <==> err.Some?
    ensures record.Some? ==> record.value == FailureRecord(err.value, req, stringify)
  {
    record := None;
    if err.Some? {
      var e := err.value;
      var errorMessage := FailureMessage(e);
      var errorStack := OrNull(e.stack);
      var statusCode := FailureStatus(e);
      var requestBody := SerializeBody(req.body);
      var requestHeaders := SerializeHeaders(req.headers, stringify);
      var userId := if req.user.Some? then Some(req.user.value.id) else None;
      record := Some(LogRecord(userId, OrNull(req.verb), FirstOf(req.originalUrl, req.url),
                               statusCode, errorMessage, errorStack, requestBody, requestHeaders,
                               FirstOf(req.ip, req.remoteAddress), OrNull(req.userAgent)));
    }
    forwarded := err;
  }

  /** Both loggers shorten and redact the request in the same way: for the same request
      the two records agree on everything but the error fields. */
  lemma SameRequestFields<T>(err: Failure, req: Request, stringify: Headers -> Option<string>,
                             statusCode: int, data: Envelope<T>)
    ensures var a := FailureRecord(err, req, stringify);
            var b := ReplyRecord(req, stringify, statusCode, data);
            a.(statusCode := 0, errorMessage := "", errorStack := None)
              == b.(statusCode := 0, errorMessage := "", errorStack := None)
  {
  }
}
