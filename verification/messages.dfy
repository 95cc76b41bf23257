/** The message entities of proto/message_service.proto that the services exchange. */
module Messages {

  /** uint64 */
  type u64 = x: int | 0 <= x < 0x1_0000_0000_0000_0000

  datatype AckStatus = UNKNOWN | RECEIVED | PERSISTED | ENQUEUED | DELIVERED | READ

  datatype P2PMessage = P2PMessage(
    msgId: u64,
    senderId: u64,
    receiverId: u64,
    contentType: int,
    content: seq<int>,
    timestamp: int,
    clientMsgId: u64)
}
