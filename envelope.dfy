/** The response middleware: every REST handler ends by calling `next` with either the
    request itself or an error, and the middleware turns that into the JSON envelope
    `{success, status, message, data, error}` and the HTTP status. */
module Envelope {

  import opened Wrappers
  import opened Schema
  import opened JsString

  /** The properties of the request the middleware reads. No handler of the core sets
      `responseStatus` or `message`, but the middleware honours them. */
  datatype Request<D> = Request(responseStatus: Option<int>, message: Option<string>, responseData: Option<D>)

  /** An error object: its stack trace, `status` property (set only on `ApiError`) and message. */
  datatype Thrown = Thrown(stack: Option<string>, status: Option<int>, message: string)

  /** What the handler passed to `next`: the request object itself, or an error. */
  datatype Passed = Forwarded | Raised(thrown: Thrown)

  /** `new ApiError(status, message)`: an Error, so it has a non-empty stack. */
  function ApiError(status: int, message: string): (e: Thrown)
    ensures Truthy(e.stack) && e.status == Some(status) && e.message == message
  {
    Thrown(Some("Error: " + message), Some(status), message)
  }

  /** What a service rejects with, as an error object: a plain Error or the driver's error,
      neither with a `status`. */
  function FromService(e: ServiceError): (t: Thrown)
    ensures Truthy(t.stack) && t.status == None && t.message == ErrorMessage(e)
  {
    Thrown(Some("Error: " + ErrorMessage(e)), None, ErrorMessage(e))
  }

  /** The first argument as an object: its `stack`, `status` and `message` properties.
      When the request is forwarded these are the request's own properties. */
  function StackOf(arg: Passed): Option<string> {
    if arg.Raised? then arg.thrown.stack else None
  }

  function StatusOf(arg: Passed): Option<int> {
    if arg.Raised? then arg.thrown.status else None
  }

  function MessageOf<D>(arg: Passed, req: Request<D>): Option<string> {
    if arg.Raised? then Some(arg.thrown.message) else req.message
  }

  datatype Body<D> = Body(success: bool, status: int, message: string, data: Option<D>, error: Option<string>)

  datatype Reply<D> = Reply(httpStatus: int, body: Body<D>)

  /** The middleware. The request metadata (`_url`, `_method`, `_ip`, `_device`, `_timestamp`)
      is not modelled. */
  function Respond<D>(arg: Passed, req: Request<D>): (r: Reply<D>)
    ensures r.httpStatus == r.body.status
    ensures r.body.success <==> !Truthy(StackOf(arg))
    ensures Truthy(StackOf(arg)) ==>
      r.body.status == (if TruthyInt(StatusOf(arg)) then StatusOf(arg).value else 500)
    ensures !Truthy(StackOf(arg)) ==>
      r.body.status == (if TruthyInt(req.responseStatus) then req.responseStatus.value else 200)
    ensures Truthy(req.message) ==> r.body.message == req.message.value
    ensures !Truthy(req.message) ==>
      r.body.message == (if r.body.success then "Request successfull" else "Request failed")
    ensures r.body.data == req.responseData
    ensures r.body.error == MessageOf(arg, req)
  {
    var failed := Truthy(StackOf(arg));
    var status :=
      if failed then (if TruthyInt(StatusOf(arg)) then StatusOf(arg).value else 500)
      else (if TruthyInt(req.responseStatus) then req.responseStatus.value else 200);
    var message :=
      if Truthy(req.message) then req.message.value
      else if failed then "Request failed" else "Request successfull";
    Reply(status, Body(!failed, status, message, req.responseData, MessageOf(arg, req)))
  }

  /** How a handler of the core ends: `next(req)` after setting `responseData` (or not),
      or `next(error)`. */
  datatype Completion<D> = NextRequest(responseData: Option<D>) | NextError(thrown: Thrown)

  /** The reply a handler's completion produces, on a request whose `responseStatus`
      and `message` are unset. */
  function Finish<D>(c: Completion<D>): Reply<D> {
    match c
    case NextRequest(data) => Respond(Forwarded, Request(None, None, data))
    case NextError(e) => Respond(Raised(e), Request(None, None, None))
  }

  /** A forwarded request always gives a success envelope, with status 200 unless the
      request names one, and the request's own `message` in the `error` field. */
  lemma ForwardedIsSuccess<D>(req: Request<D>)
    ensures Respond(Forwarded, req).body.success
    ensures Respond(Forwarded, req).httpStatus == (if TruthyInt(req.responseStatus) then req.responseStatus.value else 200)
    ensures Respond(Forwarded, req).body.error == req.message
  {
  }

  /** A handler that forwards its data answers 200 "Request successfull" with that data. */
  lemma FinishForwarded<D>(data: Option<D>)
    ensures Finish(NextRequest(data)) == Reply(200, Body(true, 200, "Request successfull", data, None))
  {
  }

  /** An `ApiError` with a non-zero status answers with that status, "Request failed",
      no data and the error's message. */
  lemma FinishApiError<D>(status: int, message: string)
    requires status != 0
    ensures Finish<D>(NextError(ApiError(status, message))) ==
      Reply(status, Body(false, status, "Request failed", None, Some(message)))
  {
  }

  /** A service error answers 500 with its message. */
  lemma FinishServiceError<D>(e: ServiceError)
    ensures Finish<D>(NextError(FromService(e))) ==
      Reply(500, Body(false, 500, "Request failed", None, Some(ErrorMessage(e))))
  {
  }
}
