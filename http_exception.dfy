/**
 * packages/node_lib/src/exceptions/http_exception.ts: the structured HTTP error.
 * An exception is a value here: its fields are assigned once, by the
 * constructor, and never changed afterwards.
 */
module HttpException {
  import opened Wrappers

  /** One entry of a validation failure, as the validator reports it. */
  datatype ValidationError = ValidationError(message: string, field: string, rule: string)

  /** `metadata`: either a record or a list of validation errors. */
  datatype Metadata = Fields(entries: map<string, string>) | Validation(errors: seq<ValidationError>)

  /** HTTPExceptionOptionsT; every member is optional. `cause` stands for ErrorOptions' cause. */
  datatype Options = Options(
    status: Option<int>,
    code: Option<string>,
    metadata: Option<Metadata>,
    reason: Option<string>,
    source: Option<string>,
    help: Option<string>,
    stack: Option<string>,
    cause: Option<string>)

  const NoOptions := Options(None, None, None, None, None, None, None, None)

  /** The constructor's first argument: a message, an options object, or nothing. */
  datatype RawMessage = Text(text: string) | OptionsArgument(options: Options) | Missing

  /**
   * A constructed exception. `message` is `None` when the constructor passed
   * `undefined` on to its base class: what text the base class then holds
   * (the empty string for a plain `Error`) is not part of this model.
   */
  datatype HttpException = HttpException(
    status: int,
    code: Option<string>,
    message: Option<string>,
    metadata: Option<Metadata>,
    reason: Option<string>,
    source: Option<string>,
    help: Option<string>,
    stack: string,
    cause: Option<string>)

  /** The options the constructor actually reads. */
  function EffectiveOptions(rawMessage: RawMessage, rawOptions: Option<Options>): Options
  {
    match rawMessage
    case Text(_) => rawOptions.GetOr(NoOptions)
    case OptionsArgument(o) => o
    case Missing => NoOptions
  }

  /**
   * `new HTTPException(rawMessage, rawOptions)` of a class whose default status
   * is `classStatus`; `defaultStack` is the stack the runtime would record.
   */
  function Construct(rawMessage: RawMessage, rawOptions: Option<Options>, classStatus: int, defaultStack: string): (e: HttpException)
    ensures rawMessage.Text? ==> e.message == Some(rawMessage.text)
    ensures !rawMessage.Text? ==> e.message == None
    ensures rawMessage.Text? && rawOptions.Some? ==> e.metadata == rawOptions.value.metadata && e.reason == rawOptions.value.reason && e.source == rawOptions.value.source && e.help == rawOptions.value.help && e.code == rawOptions.value.code
    ensures rawMessage.OptionsArgument? ==> e.metadata == rawMessage.options.metadata && e.reason == rawMessage.options.reason && e.source == rawMessage.options.source && e.help == rawMessage.options.help && e.code == rawMessage.options.code
    ensures rawMessage.Missing? ==> e.metadata == None && e.reason == None && e.source == None && e.help == None && e.code == None
    ensures e.stack != defaultStack ==> EffectiveOptions(rawMessage, rawOptions).stack == Some(e.stack)
    ensures EffectiveOptions(rawMessage, rawOptions).stack in {None, Some("")} ==> e.stack == defaultStack
    ensures e.status == EffectiveOptions(rawMessage, rawOptions).status.GetOr(classStatus)
  {
    var message := if rawMessage.Text? then Some(rawMessage.text) else None;
    var o := EffectiveOptions(rawMessage, rawOptions);
    HttpException(
      status := o.status.GetOr(classStatus),
      code := o.code,
      message := message,
      metadata := o.metadata,
      reason := o.reason,
      source := o.source,
      help := o.help,
      stack := if o.stack.Some? && o.stack.value != "" then o.stack.value else defaultStack,
      cause := o.cause)
  }

  /** When the first argument is an options object the second argument is ignored. */
  lemma OptionsArgumentIgnoresSecond(o: Options, x: Option<Options>, y: Option<Options>, classStatus: int, stack: string)
    ensures Construct(OptionsArgument(o), x, classStatus, stack) == Construct(OptionsArgument(o), y, classStatus, stack)
  {
  }

  // The exception classes the controllers throw, with their HTTP status.
  const BadRequestStatus := 400
  const UnauthorizedStatus := 401
  const ForbiddenStatus := 403
  const NotFoundStatus := 404
  const UnprocessableEntityStatus := 422
  const TooManyRequestsStatus := 429
  const InternalServerErrorStatus := 500

  function BadRequest(message: string, options: Options): (e: HttpException)
    ensures e.status == BadRequestStatus && e.message == Some(message) && e.source == options.source
  {
    Construct(Text(message), Some(options.(status := None)), BadRequestStatus, "")
  }

  function Forbidden(message: string): (e: HttpException)
    ensures e.status == ForbiddenStatus && e.message == Some(message)
  {
    Construct(Text(message), None, ForbiddenStatus, "")
  }

  function NotFound(message: string): (e: HttpException)
    ensures e.status == NotFoundStatus && e.message == Some(message)
  {
    Construct(Text(message), None, NotFoundStatus, "")
  }

  // ----- handle: the response body -----

  datatype ResponseBody = ResponseBody(
    id: string,
    status: int,
    code: Option<string>,
    message: Option<string>,
    help: Option<string>,
    metadata: Option<Metadata>,
    source: Option<string>)

  /** The JSON body `handle` sends for request `requestId`. */
  function Body(e: HttpException, requestId: string): (b: ResponseBody)
    ensures b.status == e.status && b.message == e.message && b.source == e.source
    ensures b.metadata == e.metadata && b.code == e.code && b.help == e.help
  {
    ResponseBody(requestId, e.status, e.code, e.message, e.help, e.metadata, e.source)
  }

  /** The response body never carries `reason`, nor the stack or the cause. */
  lemma BodyOmitsInternals(e: HttpException, requestId: string, reason: Option<string>, stack: string, cause: Option<string>)
    ensures Body(e, requestId) == Body(e.(reason := reason, stack := stack, cause := cause), requestId)
  {
  }

  // ----- report: the log level -----

  datatype LogLevel = Warn | Error | Info

  function ReportLevel(status: int): (level: LogLevel)
    ensures level == Warn <==> 400 <= status <= 499
    ensures level == Error <==> 500 <= status
    ensures level == Info <==> status < 400
  {
    if status >= 400 && status <= 499 then Warn
    else if status >= 500 then Error
    else Info
  }

  // ----- toJSON -----

  datatype JsonView = JsonView(
    status: int,
    code: Option<string>,
    message: Option<string>,
    help: Option<string>,
    metadata: Option<Metadata>,
    source: Option<string>,
    cause: Option<string>,
    stack: string)

  function ToJson(e: HttpException): (j: JsonView)
    ensures j.status == e.status && j.message == e.message && j.stack == e.stack && j.cause == e.cause
  {
    JsonView(e.status, e.code, e.message, e.help, e.metadata, e.source, e.cause, e.stack)
  }

  /** `toJSON` does not carry `reason` either. */
  lemma ToJsonOmitsReason(e: HttpException, reason: Option<string>)
    ensures ToJson(e) == ToJson(e.(reason := reason))
  {
  }
}
