/** The table rows that the room log, the migration and the gateway conversions share. */
module Rows {
  import opened Wrappers
  import opened Json

  datatype Uuid = Uuid(bits: nat)

  /** An instant, in the smallest unit the clock can show. */
  type Time = int

  const I64_MAX: int := 0x7FFF_FFFF_FFFF_FFFF

  /** One row of table `messages`. */
  datatype DbMessage = DbMessage(
    id: Uuid,
    conversationId: Uuid,
    roomId: Option<Uuid>,
    seqNo: int,
    role: string,
    content: Json,
    senderType: Option<string>,
    senderId: Option<string>,
    messageKind: string,
    visibility: string,
    parentMessageId: Option<Uuid>,
    targetAgentIds: Json,
    clientMessageId: Option<Uuid>,
    createdAt: Time)

  /** One row of table `rooms`. */
  datatype DbRoom = DbRoom(
    id: Uuid,
    tenantId: string,
    conversationId: Option<Uuid>,
    title: Option<string>,
    roomType: string,
    orchestrationMode: string,
    swarmPattern: Option<string>,
    parentRoomId: Option<Uuid>,
    visibility: string,
    metadata: Json,
    primaryAgentId: Option<Uuid>,
    createdAt: Time,
    updatedAt: Time,
    lastMessageAt: Time)
}
