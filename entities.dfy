/**
 * The persisted entities of the messaging domain, one record per row.
 * Navigation properties are replaced by their foreign-key id fields, and a
 * row's primary key is the key under which its table stores it, so it is not
 * repeated inside the record (the outbox event, whose Id is read back by
 * consumers, is the exception; see module Outbox).
 */
module Entities {
  import opened Wrappers

  datatype ChatType = Direct | Group
  datatype ChatMemberRole = Owner | Admin | Member
  datatype MessagePayloadType = Text | Image | File

  /** users (key UserId, generated). */
  datatype User = User(
    userName: string,
    displayName: string,
    createdAt: Time,
    isActive: bool,
    phoneNumber: Option<string>,
    email: Option<string>,
    passwordHash: Option<string>)

  /** devices (key DeviceId, generated); owned by `userId`. */
  datatype Device = Device(
    userId: int,
    platform: string,
    pushToken: Option<string>,
    lastSeenAt: Option<Time>,
    isTrusted: bool)

  /** user_sessions (key SessionId); `deviceId` is an optional reference. */
  datatype UserSession = UserSession(
    userId: int,
    deviceId: Option<int>,
    authTokenHash: string,
    refreshTokenHash: string,
    createdAt: Time,
    expiresAt: Time,
    revokedAt: Option<Time>)

  /** chats (key ChatId, generated). */
  datatype Chat = Chat(
    chatType: ChatType,
    createdByUserId: int,
    createdAt: Time,
    title: Option<string>,
    isEncrypted: bool)

  /** chat_members (composite key (ChatId, UserId)). */
  datatype ChatMember = ChatMember(
    role: ChatMemberRole,
    joinedAt: Time,
    mutedUntil: Option<Time>)

  /** messages (key MessageId). */
  datatype Message = Message(
    chatId: int,
    senderUserId: int,
    clientMessageId: string,
    sentAt: Time,
    editedAt: Option<Time>,
    deletedAt: Option<Time>,
    payloadType: MessagePayloadType,
    cipherText: string,
    cipherMetadata: string)

  /** message_deliveries (composite key (MessageId, UserId)). */
  datatype MessageDelivery = MessageDelivery(
    deliveredAt: Option<Time>,
    readAt: Option<Time>,
    serverSequence: int)

  /** identity_keys (key UserId: one row per user). */
  datatype IdentityKey = IdentityKey(
    publicKey: string,
    createdAt: Time,
    revokedAt: Option<Time>)

  /** device_keys (key DeviceId: one row per device). */
  datatype DeviceKey = DeviceKey(
    publicKey: string,
    createdAt: Time,
    revokedAt: Option<Time>)

  /** session_keys (key SessionKeyId); key material is opaque. */
  datatype SessionKey = SessionKey(
    chatId: Option<int>,
    localDeviceId: int,
    remoteDeviceId: int,
    keyMaterial: string,
    createdAt: Time,
    lastUsedAt: Option<Time>)

  type MemberKey = (int, int)      // (ChatId, UserId)
  type DeliveryKey = (Guid, int)   // (MessageId, UserId)
}
