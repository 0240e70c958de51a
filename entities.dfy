/** Domain entities of the chat backend that the message store persists. */
module Entities {

  /** A chat message. Guids are modelled as opaque integers and
      DateTime values as integer tick counts. */
  datatype Message = Message(
    id: int,
    conversationId: int,
    senderId: string,
    content: string,
    createdAt: int,
    isDeleted: bool)
}
