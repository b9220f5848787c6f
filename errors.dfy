/**
 * HTTP error replies (backend/src/utilities/errors.ts). Each helper starts
 * from a fixed prefix, appends ": " and the detail when a truthy detail is
 * given, and answers with a fixed status and the body `{ error: message }`.
 * The reply is returned instead of being written to an Express response.
 */
module Errors {
  import opened Common

  /** A status code and the body `{ "error": error }`. */
  datatype ErrorReply = ErrorReply(status: nat, error: string)

  const InternalServerErrorPrefix := "Internal Server Error"
  const BadRequestPrefix := "Bad Request"
  const UnauthorizedPrefix := "Unauthorized"

  /** The message every helper builds: `let message = prefix; if (msg) message += ": " + msg;`. */
  function Compose(prefix: string, msg: Option<string>): string
  {
    if Truthy(msg) then prefix + ": " + msg.value else prefix
  }

  /** The detail carried by a message built from `prefix`, if any: the inverse of `Compose`. */
  function Detail(prefix: string, message: string): Option<string>
  {
    if |message| > |prefix| + 2 && message[..|prefix| + 2] == prefix + ": "
    then Some(message[|prefix| + 2..])
    else None
  }

  /** An absent or empty detail is dropped; a non-empty one is kept. */
  function Normalized(msg: Option<string>): Option<string>
  {
    if Truthy(msg) then msg else None
  }

  function InternalServerError(msg: Option<string>): (r: ErrorReply)
    ensures r.status == 500
    ensures Truthy(msg) ==> r.error == "Internal Server Error: " + msg.value
    ensures !Truthy(msg) ==> r.error == "Internal Server Error"
  {
    ErrorReply(500, Compose(InternalServerErrorPrefix, msg))
  }

  function BadRequestError(msg: Option<string>): (r: ErrorReply)
    ensures r.status == 400
    ensures Truthy(msg) ==> r.error == "Bad Request: " + msg.value
    ensures !Truthy(msg) ==> r.error == "Bad Request"
  {
    ErrorReply(400, Compose(BadRequestPrefix, msg))
  }

  function UnauthorizedError(msg: Option<string>): (r: ErrorReply)
    ensures r.status == 401
    ensures Truthy(msg) ==> r.error == "Unauthorized: " + msg.value
    ensures !Truthy(msg) ==> r.error == "Unauthorized"
  {
    ErrorReply(401, Compose(UnauthorizedPrefix, msg))
  }

  /**
   * The message always starts with the prefix, and the detail can be read
   * back from it: a reply loses nothing but the difference between an
   * absent and an empty detail.
   */
  lemma ComposeDetail(prefix: string, msg: Option<string>)
    ensures |Compose(prefix, msg)| >= |prefix| && Compose(prefix, msg)[..|prefix|] == prefix
    ensures Detail(prefix, Compose(prefix, msg)) == Normalized(msg)
  {
    var m := Compose(prefix, msg);
    if Truthy(msg) {
      assert m[..|prefix| + 2] == prefix + ": ";
      assert m[|prefix| + 2..] == msg.value;
    }
  }

  /** `msg = ""` and no `msg` give the same reply, for every helper. */
  lemma EmptyDetailIsNoDetail()
    ensures InternalServerError(Some("")) == InternalServerError(None)
    ensures BadRequestError(Some("")) == BadRequestError(None)
    ensures UnauthorizedError(Some("")) == UnauthorizedError(None)
  {
  }
}
