/** Transfer objects exchanged between the message service and its callers. */
module Dtos {

  /** What a caller sees of a message: every field but the delete flag. */
  datatype MessageDto = MessageDto(
    messageId: int,
    conversationId: int,
    senderId: string,
    content: string,
    createdAt: int)

  /** A request to post a message into a conversation. */
  datatype SendMessageRequest = SendMessageRequest(
    conversationId: int,
    senderId: string,
    content: string)

  /** A page selector for message history (defaults: page 1 of 20). */
  datatype PagingRequest = PagingRequest(page: int, pageSize: int)
}
