/**
 * `errorHandler`: the last Express middleware, mapping an uncaught error to a status and
 * a failure body by the error's class name.
 */
module ErrorHandler {
  import opened Base

  /** The fields of a thrown error the handler reads. */
  datatype AppError = AppError(name: string, message: string, statusCode: Option<int>, stack: Option<string>)

  /** The reply: status and `{ success, message, error }`. */
  datatype ErrorReply = ErrorReply(status: int, success: bool, message: string, error: Option<string>)

  /** `err.statusCode || 500`: a missing or zero status becomes 500. */
  function DefaultStatus(err: AppError): (s: int)
    ensures s == 500 <==> err.statusCode.None? || err.statusCode.value == 0 || err.statusCode.value == 500
    ensures err.statusCode.Some? && err.statusCode.value != 0 ==> s == err.statusCode.value
  {
    if err.statusCode.None? || err.statusCode.value == 0 then 500 else err.statusCode.value
  }

  /** `err.message || 'Internal Server Error'`. */
  function DefaultMessage(err: AppError): (m: string)
    ensures m != ""
    ensures err.message != "" ==> m == err.message
  {
    if err.message != "" then err.message else "Internal Server Error"
  }

  /** The whole mapping; `nodeEnv` is `process.env.NODE_ENV`. */
  function HandleError(err: AppError, nodeEnv: Option<string>): (r: ErrorReply)
    ensures !r.success && r.message != ""
    ensures r.error.Some? ==> nodeEnv == Some("development")
    ensures nodeEnv == Some("development") ==> r.error == err.stack
    ensures err.name == "PrismaClientKnownRequestError" ==> r.status == 400 && r.message == "Database operation failed"
    ensures err.name == "ValidationError" ==> r.status == 400 && r.message == DefaultMessage(err)
    ensures err.name == "JsonWebTokenError" ==> r.status == 401 && r.message == "Invalid token"
    ensures err.name == "TokenExpiredError" ==> r.status == 401 && r.message == "Token expired"
    ensures err.name !in KnownNames ==> r.status == DefaultStatus(err) && r.message == DefaultMessage(err)
  {
    var statusCode := DefaultStatus(err);
    var message := DefaultMessage(err);
    var (statusCode, message) :=
      if err.name == "PrismaClientKnownRequestError" then (400, "Database operation failed") else (statusCode, message);
    var statusCode := if err.name == "ValidationError" then 400 else statusCode;
    var (statusCode, message) :=
      if err.name == "JsonWebTokenError" then (401, "Invalid token") else (statusCode, message);
    var (statusCode, message) :=
      if err.name == "TokenExpiredError" then (401, "Token expired") else (statusCode, message);
    ErrorReply(statusCode, false, message, if nodeEnv == Some("development") then err.stack else None)
  }

  /** The error names the handler treats specially. */
  const KnownNames: set<string> :=
    {"PrismaClientKnownRequestError", "ValidationError", "JsonWebTokenError", "TokenExpiredError"}
}
