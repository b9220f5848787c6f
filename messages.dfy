/**
 * The envelope exchanged over a room connection
 * (server/src/types/WebSocketMessage.ts). Optional fields are `None` when
 * the source leaves them out of the object literal.
 */
module Messages {
  import opened Common

  datatype Event = UserJoined | UserLeft | ChatMessage | Error | Code | UserSubmit | UserSubmitResult

  datatype WebSocketMessage = WebSocketMessage(
    event: Event,
    username: Option<string>,
    message: Option<string>,
    code: Option<string>,
    language: Option<string>)

  /** `{ event: "error", message }` as built by `sendError`. */
  function ErrorMessage(text: string): WebSocketMessage
  {
    WebSocketMessage(Error, None, Some(text), None, None)
  }

  /** `{ event: "userJoined", username }`. */
  function JoinedMessage(username: string): WebSocketMessage
  {
    WebSocketMessage(UserJoined, Some(username), None, None, None)
  }

  /** `{ event: "userLeft", username }`. */
  function LeftMessage(username: string): WebSocketMessage
  {
    WebSocketMessage(UserLeft, Some(username), None, None, None)
  }
}
