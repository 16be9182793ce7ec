/** Shared value wrappers: optional values, exceptions and outcomes of calls that can throw. */
module Wrappers {

  /** A PHP value that may be null (or a lookup that may find nothing). */
  datatype Option<T> = None | Some(value: T)
  {
    function GetOr(default: T): (r: T)
      ensures this.Some? ==> r == this.value
      ensures this.None? ==> r == default
    {
      match this
      case Some(v) => v
      case None => default
    }
  }

  /**
   * The exceptions the modelled code throws or passes on.
   *  - AiError(a): moodle_exception 'ai_error' with the detail text a;
   *  - AiNotConfigured: moodle_exception 'ai_not_configured';
   *  - MissingRecord(table): a MUST_EXIST lookup that found no row;
   *  - Raised(message): an exception from code outside this model, with its message.
   */
  datatype Exception =
    | AiError(detail: string)
    | AiNotConfigured
    | MissingRecord(table: string)
    | Raised(message: string)

  /** The English text of an exception's message (lang/en/googlemeet.php and Moodle core). */
  function Message(e: Exception): (m: string)
    ensures e.AiError? ==> m == "Error generating analysis: " + e.detail
    ensures e.Raised? ==> m == e.message
    ensures |m| > 0 || (e.Raised? && e.message == "")
  {
    match e
    case AiError(detail) => "Error generating analysis: " + detail
    case AiNotConfigured => "AI features are not configured. Please contact your administrator."
    case MissingRecord(table) => "Can't find data record in database table " + table + "."
    case Raised(message) => message
  }

  /** The result of a call that either returns a value or throws. */
  datatype Outcome<T> = Ok(value: T) | Raise(exc: Exception)
}
