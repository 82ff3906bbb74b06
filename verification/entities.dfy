/**
 * The records the front end reads, reduced to the fields its logic looks at,
 * and the backend requests it can issue.
 */
module Entities {
  import opened Wrappers

  /** A message row, reduced to what the chat list's preview reads. */
  datatype Message = Message(content: string, isBot: bool)

  /**
   * A chat row. In the list queries `messages` holds at most the latest message;
   * a missing field reads as an empty list. `updatedAt` (milliseconds since the
   * epoch) is kept because the list passes it to `formatDate` as the `date` of
   * `ChatList.FormatDate`.
   */
  datatype Chat = Chat(updatedAt: int, messages: seq<Message>)

  /** The signed-in user as the session provider reports it. */
  datatype User = User(id: string)

  /** `!user?.id`: a user is present and carries a non-empty id. */
  predicate IsAuthenticated(user: Option<User>) {
    user.Some? && user.value.id != ""
  }

  /** Requests sent to the backend, in the order they are issued. */
  datatype Request =
    | InsertChat
    | InsertMessage(chatId: string, content: string, isBot: bool)
    | SendMessageAction(chatId: string, message: string, userId: string)
    | DeleteChat(chatId: string)

  /** An error thrown to the caller. */
  datatype Failure = NotAuthenticated | Backend(reason: string)

  /** How an awaited call ends: with a value, or by throwing. */
  datatype Completion<+T> = Returned(value: T) | Thrown(failure: Failure)
}
