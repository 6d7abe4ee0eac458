/**
 * The records the store keeps. Their declarations live in the sidebar
 * component, which is not part of this model; the fields here are those the
 * store writes when it builds a conversation or a message.
 */
module ChatTypes {

  /** Who wrote a message; the stored format admits only these two values. */
  datatype Role = User | Assistant

  /** One turn of a conversation. `timestamp` is a millisecond clock value. */
  datatype Message = Message(id: string, role: Role, content: string, timestamp: int)

  /** A titled, ordered list of messages with an identity and a creation time. */
  datatype Conversation = Conversation(id: string, title: string, timestamp: int, messages: seq<Message>)
}
