/** The exceptions the core throws, as values (src/cas/errors.ts,
    src/intranet/errors.ts, src/http/errors.ts, and the built-in errors the
    tracker meets). */
module Errors {
  import Text

  datatype Error =
    | CASError(message: string)
    | IntranetError(message: string)
    | IntranetNotLoggedInError
      /** `new Error(message)` */
    | PlainError(message: string)
      /** what `JSON.parse` throws on text that is not JSON */
    | JsonSyntaxError(message: string)
      /** an error thrown by a collaborator outside the model (the webhook
          client), carried as the text `${e}` renders it to */
    | Foreign(rendered: string)
  {
    function Name(): string {
      match this
      case CASError(_) => "CASError"
      case IntranetError(_) => "IntranetError"
      case IntranetNotLoggedInError => "IntranetNotLoggedInError"
      case PlainError(_) => "Error"
      case JsonSyntaxError(_) => "SyntaxError"
      case Foreign(_) => ""
    }

    function Message(): string {
      match this
      case CASError(m) => m
      case IntranetError(m) => m
      case IntranetNotLoggedInError => ""
      case PlainError(m) => m
      case JsonSyntaxError(m) => m
      case Foreign(r) => r
    }

    /** `${e}`: `Error.prototype.toString`, the name alone when the message
        is empty and `name: message` otherwise. */
    function ToString(): (r: string)
      ensures !Foreign? ==> Text.StartsWith(r, Name()) && (r == Name() <==> Message() == "")
    {
      if Foreign? then rendered
      else if Message() == "" then Name()
      else Name() + ": " + Message()
    }
  }
}
