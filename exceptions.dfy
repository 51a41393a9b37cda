/** The client's exception classes, as the error values of a Result. */
module Exceptions {

  /**
   * InvalidArgument: thrown by getReply before any network I/O.
   * ConnectionTimeout: what the socket handler throws when a write or a read
   *   raises a TimeoutException; the model also uses it for every other socket
   *   failure during a call.
   * Both carry the message they are thrown with.
   */
  datatype Error =
    | InvalidArgument(message: string)
    | ConnectionTimeout(message: string)

  /** Message of the error for a command name that is not in the catalog. */
  const InvalidCommand := "Invalid command provided!"

  /** Message of the error for a required argument the caller did not supply. */
  const InvalidCommandArgument := "Invalid command argument provided."
}
