/**
 * Errors passed to `next(err)` and the last middleware that turns them into a
 * reply: a first-match chain on the error's name, its driver code, whether it
 * is an `AppError`, and the environment.
 */
module Errors {
  import opened Wrappers
  import opened Http

  /** What an `AppError` adds to a plain `Error`. */
  datatype AppErrorInfo = AppErrorInfo(statusCode: int, isOperational: bool, errorCode: Option<string>)

  /**
   * An error object: its `name`, its `message`, the numeric `code` a driver error
   * carries, and the `AppError` fields when it is one (`err instanceof AppError`).
   */
  datatype Err = Err(name: string, message: string, code: Option<int>, app: Option<AppErrorInfo>)

  const DuplicateKeyCode: int := 11000
  const DefaultDuplicateMessage: string := "A user with this email already exists"

  /** `new AppError(message, statusCode, options)`: a plain `Error` by name, operational unless told otherwise. */
  function NewAppError(message: string, statusCode: int, isOperational: Option<bool>, errorCode: Option<string>): (e: Err)
    ensures e.name == "Error" && e.message == message && e.code.None?
    ensures e.app == Some(AppErrorInfo(statusCode, isOperational.GetOr(true), errorCode))
  {
    Err("Error", message, None, Some(AppErrorInfo(statusCode, isOperational.GetOr(true), errorCode)))
  }

  /** `new DuplicateUserError(message?)`. */
  function NewDuplicateUserError(message: Option<string>): (e: Err)
    ensures e.app == Some(AppErrorInfo(400, true, Some("DUPLICATE_EMAIL")))
    ensures e.message == message.GetOr(DefaultDuplicateMessage)
  {
    NewAppError(message.GetOr(DefaultDuplicateMessage), 400, Some(true), Some("DUPLICATE_EMAIL"))
  }

  /** A driver error for a violated unique index. */
  predicate IsDuplicateKey(err: Err)
  {
    err.name == "MongoServerError" && err.code == Some(DuplicateKeyCode)
  }

  /** None of the three branches tried before `instanceof AppError` applies. */
  predicate NoNamedBranch(err: Err)
  {
    err.name != "ValidationError" && !IsDuplicateKey(err) && err.name != "UnauthorizedError"
  }

  /** `errorHandler`: the first matching branch decides the reply. */
  function ErrorHandler(err: Err, nodeEnv: Option<string>): (r: Reply<()>)
    ensures r.data.None?
    ensures err.name == "ValidationError" ==>
      r.status == 400 && r.kind == "VALIDATION_ERROR" && r.detail == err.message
    ensures IsDuplicateKey(err) ==> r.status == 409 && r.kind == "DUPLICATE_EMAIL"
    ensures err.name == "UnauthorizedError" ==> r.status == 401 && r.kind == "AUTH_ERROR"
    ensures NoNamedBranch(err) && err.app.Some? ==>
      r.status == err.app.value.statusCode && r.message == err.message
    ensures NoNamedBranch(err) && err.app.None? && err.name == "RateLimitError" ==>
      r.status == 429 && r.kind == "RATE_LIMIT_ERROR"
    ensures NoNamedBranch(err) && err.app.None? && err.name != "RateLimitError" ==>
      r.status == 500 && r.kind == "SERVER_ERROR"
  {
    if err.name == "ValidationError" then
      Reply(400, "Validation failed", "VALIDATION_ERROR", err.message, None)
    else if IsDuplicateKey(err) then
      Reply(409, DefaultDuplicateMessage, "DUPLICATE_EMAIL", "Email is already in use", None)
    else if err.name == "UnauthorizedError" then
      Reply(401, "Unauthorized - Please login", "AUTH_ERROR", "Authentication required", None)
    else if err.app.Some? then
      var kind := match err.app.value.errorCode case Some(c) => if c != "" then c else "APP_ERROR" case None => "APP_ERROR";
      Reply(err.app.value.statusCode, err.message, kind, err.message, None)
    else if err.name == "RateLimitError" then
      Reply(429, "Too many requests, please try again later", "RATE_LIMIT_ERROR", "", None)
    else
      Reply(500, if nodeEnv == Some("development") then err.message else "Something went wrong", "SERVER_ERROR", "", None)
  }

  /** An `AppError` keeps its own status; its type is its non-empty error code, else `APP_ERROR`. */
  lemma AppErrorReply(message: string, statusCode: int, isOperational: Option<bool>, errorCode: Option<string>, nodeEnv: Option<string>)
    ensures var r := ErrorHandler(NewAppError(message, statusCode, isOperational, errorCode), nodeEnv);
      && r.status == statusCode && r.message == message
      && (Truthy(errorCode) ==> r.kind == errorCode.value)
      && (!Truthy(errorCode) ==> r.kind == "APP_ERROR")
  {
  }

  /** A `DuplicateUserError` is answered 400 through the `AppError` branch, never 409. */
  lemma DuplicateUserErrorIs400(message: Option<string>, nodeEnv: Option<string>)
    ensures var r := ErrorHandler(NewDuplicateUserError(message), nodeEnv);
      r.status == 400 && r.kind == "DUPLICATE_EMAIL" && r.message == message.GetOr(DefaultDuplicateMessage)
  {
  }

  /** The branches are tried in order: a name match wins over being an `AppError`. */
  lemma NameBeforeAppError(err: Err, nodeEnv: Option<string>)
    requires err.app.Some?
    ensures err.name == "ValidationError" ==> ErrorHandler(err, nodeEnv).status == 400
    ensures err.name == "UnauthorizedError" ==> ErrorHandler(err, nodeEnv).status == 401
    ensures err.name == "MongoServerError" && err.code == Some(DuplicateKeyCode) ==> ErrorHandler(err, nodeEnv).status == 409
    ensures err.name == "RateLimitError" ==> ErrorHandler(err, nodeEnv).status == err.app.value.statusCode
  {
  }

  /** An error no branch recognises is a 500 that hides its message outside development. */
  lemma GenericErrorHidesMessage(err: Err, nodeEnv: Option<string>)
    requires err.app.None? && err.name !in {"ValidationError", "UnauthorizedError", "RateLimitError"}
    requires !(err.name == "MongoServerError" && err.code == Some(DuplicateKeyCode))
    ensures ErrorHandler(err, nodeEnv).status == 500
    ensures nodeEnv != Some("development") ==> ErrorHandler(err, nodeEnv).message == "Something went wrong"
    ensures nodeEnv == Some("development") ==> ErrorHandler(err, nodeEnv).message == err.message
  {
  }

  /** Every reply status is one of the fixed ones, or an `AppError`'s own. */
  lemma ErrorHandlerStatuses(err: Err, nodeEnv: Option<string>)
    ensures var s := ErrorHandler(err, nodeEnv).status;
      s in {400, 409, 401, 429, 500} || (err.app.Some? && s == err.app.value.statusCode)
    ensures err.app.None? ==>
      (ErrorHandler(err, nodeEnv).status == 409 <==> err.name == "MongoServerError" && err.code == Some(DuplicateKeyCode))
  {
  }
}
