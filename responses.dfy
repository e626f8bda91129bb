/** The uniform JSON envelopes of helpers/response.js. A reply is the status code given to
    `res.status()` and the body given to `res.json()`; a field the helper leaves out of the
    body is None. Parameters with a JavaScript default are `Option`s, None being "not passed". */
module Responses {
  import opened Common

  datatype Pagination = Pagination(page: int, limit: int, total: int, totalPages: int)

  /** A thrown value as `error()` sees it: an Error object (with message and maybe a stack),
      or some other value (modelled by its text). */
  datatype ErrorDetail = Thrown(message: string, stack: Option<string>) | Value(text: string)

  predicate DetailTruthy(e: Option<ErrorDetail>) {
    match e
    case None => false
    case Some(Thrown(_, _)) => true
    case Some(Value(t)) => t != ""
  }

  /** The argument of `validationError`: an array, or a single value. */
  datatype Errors = Many(list: seq<string>) | One(item: string)

  datatype Envelope<T> = Envelope(success: bool, message: Option<string>, data: Option<T>,
                                  error: Option<string>, stack: Option<string>,
                                  errors: Option<seq<string>>, pagination: Option<Pagination>)

  datatype Response<T> = Response(status: int, body: Envelope<T>)

  /** The reply a middleware or controller sends when it stops a request. */
  function Bare<T>(ok: bool, message: Option<string>, status: int): Response<T> {
    Response(status, Envelope(ok, message, None, None, None, None, None))
  }

  /** `success(res, data = null, message = null, statusCode = 200)` */
  function Success<T>(data: Option<T>, message: Option<string>, status: Option<int>): (r: Response<T>)
    ensures r.body.success
    ensures r.status == (if status.Some? then status.value else 200)
    ensures r.body.message.Some? <==> Truthy(message)
    ensures r.body.message.Some? ==> r.body.message == message
    ensures r.body.data == data
    ensures r.body.error.None? && r.body.stack.None? && r.body.errors.None? && r.body.pagination.None?
  {
    var code := if status.Some? then status.value else 200;
    Response(code, Envelope(true, OrNull(message), data, None, None, None, None))
  }

  /** `successMessage(res, message, statusCode = 200)` */
  function SuccessMessage<T>(message: string, status: Option<int>): Response<T>
  {
    Bare(true, Some(message), if status.Some? then status.value else 200)
  }

  /** The text `error()` shows of a thrown value: an Error's message, or the value itself. */
  function DetailText(e: ErrorDetail): string {
    match e
    case Thrown(m, _) => m
    case Value(t) => t
  }

  /** `error(res, message, statusCode = 500, error = null)`: the error detail and stack are
      shown only in development. */
  function ErrorReply<T>(message: string, status: Option<int>, err: Option<ErrorDetail>,
                         nodeEnv: Option<string>): (r: Response<T>)
    ensures !r.body.success && r.body.message == Some(message) && r.body.data.None?
    ensures r.status == (if status.Some? then status.value else 500)
    ensures r.body.error.Some? <==> DetailTruthy(err) && nodeEnv == Some("development")
    ensures r.body.error.Some? ==>
              r.body.error.value == (if err.value.Thrown? then err.value.message else err.value.text)
    ensures r.body.stack == (if r.body.error.Some? && err.value.Thrown? && Truthy(err.value.stack)
                             then err.value.stack else None)
  {
    var code := if status.Some? then status.value else 500;
    var shown := DetailTruthy(err) && nodeEnv == Some("development");
    var detail := if !shown then None else Some(DetailText(err.value));
    var stack := if shown && err.value.Thrown? && Truthy(err.value.stack) then err.value.stack else None;
    Response(code, Envelope(false, Some(message), None, detail, stack, None, None))
  }

  /** A 500 reply of a controller's catch block; the thrown error is not modelled. */
  function ServerError<T>(message: string): Response<T>
  {
    ErrorReply(message, Some(500), None, None)
  }

  /** `validationError(res, errors, statusCode = 400)`: always an array of errors. */
  function ValidationError<T>(errors: Errors, status: Option<int>): (r: Response<T>)
    ensures !r.body.success && r.body.message == Some("Validation error")
    ensures r.status == (if status.Some? then status.value else 400)
    ensures r.body.errors.Some?
    ensures errors.One? ==> r.body.errors.value == [errors.item]
    ensures errors.Many? ==> r.body.errors.value == errors.list
  {
    var list := match errors
      case Many(l) => l
      case One(e) => [e];
    Response(if status.Some? then status.value else 400,
             Envelope(false, Some("Validation error"), None, None, None, Some(list), None))
  }

  /** `unauthorized(res, message = 'Unauthorized')` */
  function Unauthorized<T>(message: Option<string>): Response<T>
  {
    Bare(false, Some(if message.Some? then message.value else "Unauthorized"), 401)
  }

  /** `forbidden(res, message = 'Forbidden')` */
  function Forbidden<T>(message: Option<string>): Response<T>
  {
    Bare(false, Some(if message.Some? then message.value else "Forbidden"), 403)
  }

  /** `notFound(res, message = 'Not found')` */
  function NotFound<T>(message: Option<string>): Response<T>
  {
    Bare(false, Some(if message.Some? then message.value else "Not found"), 404)
  }

  /** `badRequest(res, message)` */
  function BadRequest<T>(message: string): Response<T>
  {
    Bare(false, Some(message), 400)
  }

  /** `created(res, data = null, message = null)` */
  function Created<T>(data: Option<T>, message: Option<string>): (r: Response<T>) {
    Success(data, message, Some(201))
  }

  /** `created` is `success` with status 201. */
  lemma CreatedIsSuccess201<T>(data: Option<T>, message: Option<string>)
    ensures Created(data, message).status == 201
    ensures Created(data, message).body == Success(data, message, None).body
  {
  }

  /** `successMessage` carries exactly the message and no data, 200 unless a status is
      passed. The data type plays no part in these replies, so the type parameter is fixed. */
  lemma SuccessMessageReply(message: string, status: Option<int>)
    ensures var r: Response<()> := SuccessMessage(message, status);
            && r.body.success && r.body.message == Some(message) && r.body.data.None?
            && r.status == (if status.Some? then status.value else 200)
  {
  }

  /** A controller's catch reply is a 500 failure with the given message. */
  lemma ServerErrorReply(message: string)
    ensures var r: Response<()> := ServerError(message);
            r.status == 500 && !r.body.success && r.body.message == Some(message) && r.body.data.None?
  {
  }

  /** `unauthorized`, `forbidden`, `notFound` and `badRequest` are failures with their own
      status, the message when passed and otherwise their default one. */
  lemma StopReplies(message: Option<string>, text: string)
    ensures var r: Response<()> := Unauthorized(message);
            && r.status == 401 && !r.body.success
            && r.body.message == Some(if message.Some? then message.value else "Unauthorized")
    ensures var r: Response<()> := Forbidden(message);
            && r.status == 403 && !r.body.success
            && r.body.message == Some(if message.Some? then message.value else "Forbidden")
    ensures var r: Response<()> := NotFound(message);
            && r.status == 404 && !r.body.success
            && r.body.message == Some(if message.Some? then message.value else "Not found")
    ensures var r: Response<()> := BadRequest(text);
            r.status == 400 && !r.body.success && r.body.message == Some(text)
  {
  }

  /** `x || d` for an optional number (undefined, null and 0 are falsy). */
  function NumberOr(x: Option<int>, d: int): (r: int)
    ensures r == d || (x.Some? && r == x.value && r != 0)
    ensures x.Some? && x.value != 0 ==> r == x.value
  {
    if x.Some? && x.value != 0 then x.value else d
  }

  /** `paginated(res, data, pagination, message = null)`: falsy page, limit, total and
      totalPages become 1, 10, 0 and 0. */
  function Paginated<T>(data: T, page: Option<int>, limit: Option<int>, total: Option<int>,
                        totalPages: Option<int>, message: Option<string>): (r: Response<T>)
    ensures r.status == 200 && r.body.success && r.body.data == Some(data)
    ensures r.body.pagination.Some?
    ensures r.body.pagination.value.page != 0 && r.body.pagination.value.limit != 0
    ensures r.body.pagination.value.page == (if page.Some? && page.value != 0 then page.value else 1)
    ensures r.body.pagination.value.limit == (if limit.Some? && limit.value != 0 then limit.value else 10)
    ensures r.body.pagination.value.total == (if total.Some? && total.value != 0 then total.value else 0)
    ensures r.body.pagination.value.totalPages
              == (if totalPages.Some? && totalPages.value != 0 then totalPages.value else 0)
    ensures r.body.message.Some? <==> Truthy(message)
  {
    var p := Pagination(NumberOr(page, 1), NumberOr(limit, 10), NumberOr(total, 0), NumberOr(totalPages, 0));
    Response(200, Envelope(true, OrNull(message), Some(data), None, None, None, Some(p)))
  }

  /** A falsy pagination value is replaced by its default and a truthy one is kept, so
      paginating twice with the defaults of the first changes nothing. */
  lemma PaginatedDefaultsStable<T>(data: T, page: Option<int>, limit: Option<int>)
    ensures var p := Paginated(data, page, limit, None, None, None).body.pagination.value;
            Paginated(data, Some(p.page), Some(p.limit), Some(p.total), Some(p.totalPages), None)
              .body.pagination.value == p
  {
  }
}
