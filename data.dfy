/**
 * The store: the DbSets of AppDbContext (the ten relational tables as one
 * `Tables` value, and the outbox table), plus the identity counters of the
 * auto-increment keys (UserId, DeviceId, ChatId and the event Id).
 * Every write either succeeds, or is rejected with the reason the database
 * would give and leaves every table and counter as it was.
 *
 * When several constraints are broken at once the store reports one of them;
 * the order used is: duplicate key, column length, check constraint, foreign
 * keys, unique indexes.
 */
module Data {
  import opened Wrappers
  import opened Entities
  import opened Outbox
  import opened Schema

  /** Every generated key lies below its counter, so a fresh value is never taken. */
  ghost predicate KeysBelow(t: Tables, nextUserId: int, nextDeviceId: int, nextChatId: int) {
    1 <= nextUserId && 1 <= nextDeviceId && 1 <= nextChatId &&
    (forall k :: k in t.users ==> 1 <= k < nextUserId) &&
    (forall k :: k in t.devices ==> 1 <= k < nextDeviceId) &&
    (forall k :: k in t.chats ==> 1 <= k < nextChatId)
  }

  /** The whole store invariant, over the tables and the counters. */
  ghost predicate StoreValid(t: Tables, nextUserId: int, nextDeviceId: int, nextChatId: int,
                             events: EventTable, nextEventId: int) {
    Schema.Valid(t) && KeysBelow(t, nextUserId, nextDeviceId, nextChatId) && TableValid(events, nextEventId)
  }

  /** Removing rows keeps every generated key below its counter. */
  lemma KeysBelowShrink(t: Tables, t': Tables, nextUserId: int, nextDeviceId: int, nextChatId: int)
    requires KeysBelow(t, nextUserId, nextDeviceId, nextChatId)
    requires t'.users.Keys <= t.users.Keys && t'.devices.Keys <= t.devices.Keys && t'.chats.Keys <= t.chats.Keys
    ensures KeysBelow(t', nextUserId, nextDeviceId, nextChatId)
  {
  }

  /** Enqueueing an event leaves the relational tables and their counters alone. */
  lemma EnqueueKeepsStore(t: Tables, nextUserId: int, nextDeviceId: int, nextChatId: int,
      events: EventTable, nextEventId: int, e: EventBusEvent)
    requires StoreValid(t, nextUserId, nextDeviceId, nextChatId, events, nextEventId)
    requires e.id == nextEventId && ColumnsOk(e.eventType, e.correlationId)
    ensures nextEventId !in events
    ensures StoreValid(t, nextUserId, nextDeviceId, nextChatId, events[nextEventId := e], nextEventId + 1)
  {
    EnqueueKeepsTable(events, nextEventId, e);
  }

  // Inserts into tables whose key the caller supplies leave the identity
  // counters and the outbox alone, so the store stays consistent exactly when
  // the relational constraints do.

  lemma AddUserSessionKeepsStore(t: Tables, id: Guid, s: UserSession, nextUserId: int, nextDeviceId: int, nextChatId: int,
      events: EventTable, nextEventId: int)
    requires StoreValid(t, nextUserId, nextDeviceId, nextChatId, events, nextEventId)
    requires id !in t.userSessions && s.userId in t.users && RefersTo(t.devices, s.deviceId)
    ensures StoreValid(t.(userSessions := t.userSessions[id := s]), nextUserId, nextDeviceId, nextChatId, events, nextEventId)
  {
    InsertUserSessionExact(t, id, s);
  }

  lemma AddChatMemberKeepsStore(t: Tables, key: MemberKey, m: ChatMember, nextUserId: int, nextDeviceId: int, nextChatId: int,
      events: EventTable, nextEventId: int)
    requires StoreValid(t, nextUserId, nextDeviceId, nextChatId, events, nextEventId)
    requires key !in t.chatMembers && key.0 in t.chats && key.1 in t.users
    ensures StoreValid(t.(chatMembers := t.chatMembers[key := m]), nextUserId, nextDeviceId, nextChatId, events, nextEventId)
  {
    InsertChatMemberExact(t, key, m);
  }

  lemma AddMessageKeepsStore(t: Tables, id: Guid, m: Message, nextUserId: int, nextDeviceId: int, nextChatId: int,
      events: EventTable, nextEventId: int)
    requires StoreValid(t, nextUserId, nextDeviceId, nextChatId, events, nextEventId)
    requires id !in t.messages && MessageAdmissible(t, m)
    ensures StoreValid(t.(messages := t.messages[id := m]), nextUserId, nextDeviceId, nextChatId, events, nextEventId)
  {
    InsertMessageExact(t, id, m);
  }

  lemma AddDeliveryKeepsStore(t: Tables, key: DeliveryKey, d: MessageDelivery, nextUserId: int, nextDeviceId: int, nextChatId: int,
      events: EventTable, nextEventId: int)
    requires StoreValid(t, nextUserId, nextDeviceId, nextChatId, events, nextEventId)
    requires key !in t.messageDeliveries && key.0 in t.messages && key.1 in t.users
    ensures StoreValid(t.(messageDeliveries := t.messageDeliveries[key := d]), nextUserId, nextDeviceId, nextChatId, events, nextEventId)
  {
    InsertMessageDeliveryExact(t, key, d);
  }

  lemma AddIdentityKeyKeepsStore(t: Tables, userId: int, k: IdentityKey, nextUserId: int, nextDeviceId: int, nextChatId: int,
      events: EventTable, nextEventId: int)
    requires StoreValid(t, nextUserId, nextDeviceId, nextChatId, events, nextEventId)
    requires userId !in t.identityKeys && userId in t.users
    ensures StoreValid(t.(identityKeys := t.identityKeys[userId := k]), nextUserId, nextDeviceId, nextChatId, events, nextEventId)
  {
    InsertIdentityKeyExact(t, userId, k);
  }

  lemma AddDeviceKeyKeepsStore(t: Tables, deviceId: int, k: DeviceKey, nextUserId: int, nextDeviceId: int, nextChatId: int,
      events: EventTable, nextEventId: int)
    requires StoreValid(t, nextUserId, nextDeviceId, nextChatId, events, nextEventId)
    requires deviceId !in t.deviceKeys && deviceId in t.devices
    ensures StoreValid(t.(deviceKeys := t.deviceKeys[deviceId := k]), nextUserId, nextDeviceId, nextChatId, events, nextEventId)
  {
    InsertDeviceKeyExact(t, deviceId, k);
  }

  lemma AddSessionKeyKeepsStore(t: Tables, id: Guid, sk: SessionKey, nextUserId: int, nextDeviceId: int, nextChatId: int,
      events: EventTable, nextEventId: int)
    requires StoreValid(t, nextUserId, nextDeviceId, nextChatId, events, nextEventId)
    requires id !in t.sessionKeys && SessionKeyAdmissible(t, sk)
    ensures StoreValid(t.(sessionKeys := t.sessionKeys[id := sk]), nextUserId, nextDeviceId, nextChatId, events, nextEventId)
  {
    InsertSessionKeyExact(t, id, sk);
  }

  class AppDbContext {
    /** The ten relational DbSets (users, devices, user_sessions, ... session_keys). */
    var tables: Tables
    /** The EventBusEvents DbSet. */
    var eventBusEvents: EventTable

    // next values of the auto-increment keys
    var nextUserId: int
    var nextDeviceId: int
    var nextChatId: int
    var nextEventId: int

    /** Every constraint of the schema holds and the outbox table is well formed. */
    ghost predicate Valid()
      reads this
    {
      StoreValid(tables, nextUserId, nextDeviceId, nextChatId, eventBusEvents, nextEventId)
    }

    /** An empty database. */
    constructor ()
      ensures Valid()
      ensures tables == Empty() && eventBusEvents == map[]
      ensures nextUserId == 1 && nextDeviceId == 1 && nextChatId == 1 && nextEventId == FirstId
    {
      tables := Empty();
      eventBusEvents := map[];
      nextUserId, nextDeviceId, nextChatId, nextEventId := 1, 1, 1, FirstId;
      EmptyValid();
    }

    // -------------------------------------------------------------------------
    // Inserts

    /** INSERT INTO users: the key is generated. */
    method AddUser(u: User) returns (r: Result<int, DbError>)
      requires Valid()
      modifies this`tables, this`nextUserId
      ensures Valid()
      ensures r.Success? <==> UserAdmissible(old(tables.users), u)
      ensures r.Success? ==>
        (r.value == old(nextUserId) && r.value !in old(tables.users) &&
         tables == old(tables).(users := old(tables.users)[r.value := u]) && nextUserId == old(nextUserId) + 1)
      ensures r.Failure? ==> tables == old(tables) && nextUserId == old(nextUserId)
      ensures r == Failure(MaxLengthExceeded) <==> !UserColumnsOk(u)
      ensures r == Failure(CheckConstraintViolation) <==> UserColumnsOk(u) && !PhoneOrEmail(u)
      ensures r == Failure(UniqueIndexViolation) <==>
        (UserColumnsOk(u) && PhoneOrEmail(u) &&
         (UserNameTaken(old(tables.users), u.userName) || PhoneNumberTaken(old(tables.users), u.phoneNumber) ||
          EmailTaken(old(tables.users), u.email)))
    {
      var users := tables.users;
      if !UserColumnsOk(u) {
        return Failure(MaxLengthExceeded);
      }
      if !PhoneOrEmail(u) {
        return Failure(CheckConstraintViolation);
      }
      if UserNameTaken(users, u.userName) || PhoneNumberTaken(users, u.phoneNumber) || EmailTaken(users, u.email) {
        return Failure(UniqueIndexViolation);
      }
      var id := nextUserId;
      InsertUserExact(tables, id, u);
      tables := tables.(users := users[id := u]);
      nextUserId := nextUserId + 1;
      r := Success(id);
    }

    /** INSERT INTO devices: the key is generated; the owner must exist. */
    method AddDevice(d: Device) returns (r: Result<int, DbError>)
      requires Valid()
      modifies this`tables, this`nextDeviceId
      ensures Valid()
      ensures r.Success? <==> d.userId in old(tables.users)
      ensures r.Success? ==>
        (r.value == old(nextDeviceId) && r.value !in old(tables.devices) &&
         tables == old(tables).(devices := old(tables.devices)[r.value := d]) && nextDeviceId == old(nextDeviceId) + 1)
      ensures r.Failure? ==> r.error == ForeignKeyViolation && tables == old(tables) && nextDeviceId == old(nextDeviceId)
    {
      if d.userId !in tables.users {
        return Failure(ForeignKeyViolation);
      }
      var id := nextDeviceId;
      InsertDeviceExact(tables, id, d);
      tables := tables.(devices := tables.devices[id := d]);
      nextDeviceId := nextDeviceId + 1;
      r := Success(id);
    }

    /** INSERT INTO user_sessions: the caller supplies the SessionId. */
    method AddUserSession(id: Guid, s: UserSession) returns (r: Outcome<DbError>)
      requires Valid()
      modifies this`tables
      ensures Valid()
      ensures r.Pass? <==>
        id !in old(tables.userSessions) && s.userId in old(tables.users) && RefersTo(old(tables.devices), s.deviceId)
      ensures r == Fail(DuplicateKey) <==> id in old(tables.userSessions)
      ensures r.Fail? ==> r.error in {DuplicateKey, ForeignKeyViolation} && tables == old(tables)
      ensures r.Pass? ==> tables == old(tables).(userSessions := old(tables.userSessions)[id := s])
    {
      if id in tables.userSessions {
        return Fail(DuplicateKey);
      }
      if s.userId !in tables.users || !RefersTo(tables.devices, s.deviceId) {
        return Fail(ForeignKeyViolation);
      }
      AddUserSessionKeepsStore(tables, id, s,
        nextUserId, nextDeviceId, nextChatId, eventBusEvents, nextEventId);
      tables := tables.(userSessions := tables.userSessions[id := s]);
      r := Pass;
    }

    /** INSERT INTO chats: the key is generated; the creator must exist. */
    method AddChat(c: Chat) returns (r: Result<int, DbError>)
      requires Valid()
      modifies this`tables, this`nextChatId
      ensures Valid()
      ensures r.Success? <==> c.createdByUserId in old(tables.users)
      ensures r.Success? ==>
        (r.value == old(nextChatId) && r.value !in old(tables.chats) &&
         tables == old(tables).(chats := old(tables.chats)[r.value := c]) && nextChatId == old(nextChatId) + 1)
      ensures r.Failure? ==> r.error == ForeignKeyViolation && tables == old(tables) && nextChatId == old(nextChatId)
    {
      if c.createdByUserId !in tables.users {
        return Failure(ForeignKeyViolation);
      }
      var id := nextChatId;
      InsertChatExact(tables, id, c);
      tables := tables.(chats := tables.chats[id := c]);
      nextChatId := nextChatId + 1;
      r := Success(id);
    }

    /** INSERT INTO chat_members: composite key (ChatId, UserId). */
    method AddChatMember(chatId: int, userId: int, m: ChatMember) returns (r: Outcome<DbError>)
      requires Valid()
      modifies this`tables
      ensures Valid()
      ensures r.Pass? <==>
        (chatId, userId) !in old(tables.chatMembers) && chatId in old(tables.chats) && userId in old(tables.users)
      ensures r == Fail(DuplicateKey) <==> (chatId, userId) in old(tables.chatMembers)
      ensures r.Fail? ==> r.error in {DuplicateKey, ForeignKeyViolation} && tables == old(tables)
      ensures r.Pass? ==> tables == old(tables).(chatMembers := old(tables.chatMembers)[(chatId, userId) := m])
    {
      if (chatId, userId) in tables.chatMembers {
        return Fail(DuplicateKey);
      }
      if chatId !in tables.chats || userId !in tables.users {
        return Fail(ForeignKeyViolation);
      }
      AddChatMemberKeepsStore(tables, (chatId, userId), m,
        nextUserId, nextDeviceId, nextChatId, eventBusEvents, nextEventId);
      tables := tables.(chatMembers := tables.chatMembers[(chatId, userId) := m]);
      r := Pass;
    }

    /** INSERT INTO messages: the caller supplies the MessageId. */
    method AddMessage(id: Guid, m: Message) returns (r: Outcome<DbError>)
      requires Valid()
      modifies this`tables
      ensures Valid()
      ensures r.Pass? <==> id !in old(tables.messages) && MessageAdmissible(old(tables), m)
      ensures r == Fail(DuplicateKey) <==> id in old(tables.messages)
      ensures r == Fail(MaxLengthExceeded) <==>
        id !in old(tables.messages) && |m.clientMessageId| > ClientMessageIdMaxLength
      ensures r == Fail(ForeignKeyViolation) <==>
        (id !in old(tables.messages) && |m.clientMessageId| <= ClientMessageIdMaxLength &&
         (m.chatId !in old(tables.chats) || m.senderUserId !in old(tables.users)))
      ensures r == Fail(UniqueIndexViolation) <==>
        (id !in old(tables.messages) && |m.clientMessageId| <= ClientMessageIdMaxLength &&
         m.chatId in old(tables.chats) && m.senderUserId in old(tables.users) &&
         ClientMessageIdTaken(old(tables.messages), m.chatId, m.clientMessageId))
      ensures r.Fail? ==>
        r.error in {DuplicateKey, MaxLengthExceeded, ForeignKeyViolation, UniqueIndexViolation} && tables == old(tables)
      ensures r.Pass? ==> tables == old(tables).(messages := old(tables.messages)[id := m])
    {
      if id in tables.messages {
        return Fail(DuplicateKey);
      }
      if |m.clientMessageId| > ClientMessageIdMaxLength {
        return Fail(MaxLengthExceeded);
      }
      if m.chatId !in tables.chats || m.senderUserId !in tables.users {
        return Fail(ForeignKeyViolation);
      }
      if ClientMessageIdTaken(tables.messages, m.chatId, m.clientMessageId) {
        return Fail(UniqueIndexViolation);
      }
      AddMessageKeepsStore(tables, id, m,
        nextUserId, nextDeviceId, nextChatId, eventBusEvents, nextEventId);
      tables := tables.(messages := tables.messages[id := m]);
      r := Pass;
    }

    /** INSERT INTO message_deliveries: composite key (MessageId, UserId). */
    method AddMessageDelivery(messageId: Guid, userId: int, d: MessageDelivery) returns (r: Outcome<DbError>)
      requires Valid()
      modifies this`tables
      ensures Valid()
      ensures r.Pass? <==>
        (messageId, userId) !in old(tables.messageDeliveries) && messageId in old(tables.messages) &&
        userId in old(tables.users)
      ensures r == Fail(DuplicateKey) <==> (messageId, userId) in old(tables.messageDeliveries)
      ensures r.Fail? ==> r.error in {DuplicateKey, ForeignKeyViolation} && tables == old(tables)
      ensures r.Pass? ==>
        tables == old(tables).(messageDeliveries := old(tables.messageDeliveries)[(messageId, userId) := d])
    {
      if (messageId, userId) in tables.messageDeliveries {
        return Fail(DuplicateKey);
      }
      if messageId !in tables.messages || userId !in tables.users {
        return Fail(ForeignKeyViolation);
      }
      AddDeliveryKeepsStore(tables, (messageId, userId), d,
        nextUserId, nextDeviceId, nextChatId, eventBusEvents, nextEventId);
      tables := tables.(messageDeliveries := tables.messageDeliveries[(messageId, userId) := d]);
      r := Pass;
    }

    /** INSERT INTO identity_keys: the key is the owner's UserId, so a user holds at most one. */
    method AddIdentityKey(userId: int, k: IdentityKey) returns (r: Outcome<DbError>)
      requires Valid()
      modifies this`tables
      ensures Valid()
      ensures r.Pass? <==> userId !in old(tables.identityKeys) && userId in old(tables.users)
      ensures r == Fail(DuplicateKey) <==> userId in old(tables.identityKeys)
      ensures r.Fail? ==> r.error in {DuplicateKey, ForeignKeyViolation} && tables == old(tables)
      ensures r.Pass? ==> tables == old(tables).(identityKeys := old(tables.identityKeys)[userId := k])
    {
      if userId in tables.identityKeys {
        return Fail(DuplicateKey);
      }
      if userId !in tables.users {
        return Fail(ForeignKeyViolation);
      }
      AddIdentityKeyKeepsStore(tables, userId, k,
        nextUserId, nextDeviceId, nextChatId, eventBusEvents, nextEventId);
      tables := tables.(identityKeys := tables.identityKeys[userId := k]);
      r := Pass;
    }

    /** INSERT INTO device_keys: the key is the device's DeviceId, so a device holds at most one. */
    method AddDeviceKey(deviceId: int, k: DeviceKey) returns (r: Outcome<DbError>)
      requires Valid()
      modifies this`tables
      ensures Valid()
      ensures r.Pass? <==> deviceId !in old(tables.deviceKeys) && deviceId in old(tables.devices)
      ensures r == Fail(DuplicateKey) <==> deviceId in old(tables.deviceKeys)
      ensures r.Fail? ==> r.error in {DuplicateKey, ForeignKeyViolation} && tables == old(tables)
      ensures r.Pass? ==> tables == old(tables).(deviceKeys := old(tables.deviceKeys)[deviceId := k])
    {
      if deviceId in tables.deviceKeys {
        return Fail(DuplicateKey);
      }
      if deviceId !in tables.devices {
        return Fail(ForeignKeyViolation);
      }
      AddDeviceKeyKeepsStore(tables, deviceId, k,
        nextUserId, nextDeviceId, nextChatId, eventBusEvents, nextEventId);
      tables := tables.(deviceKeys := tables.deviceKeys[deviceId := k]);
      r := Pass;
    }

    /** INSERT INTO session_keys: both devices must exist, and the chat when one is given. */
    method AddSessionKey(id: Guid, sk: SessionKey) returns (r: Outcome<DbError>)
      requires Valid()
      modifies this`tables
      ensures Valid()
      ensures r.Pass? <==> id !in old(tables.sessionKeys) && SessionKeyAdmissible(old(tables), sk)
      ensures r == Fail(DuplicateKey) <==> id in old(tables.sessionKeys)
      ensures r.Fail? ==> r.error in {DuplicateKey, ForeignKeyViolation} && tables == old(tables)
      ensures r.Pass? ==> tables == old(tables).(sessionKeys := old(tables.sessionKeys)[id := sk])
    {
      if id in tables.sessionKeys {
        return Fail(DuplicateKey);
      }
      if !SessionKeyAdmissible(tables, sk) {
        return Fail(ForeignKeyViolation);
      }
      AddSessionKeyKeepsStore(tables, id, sk,
        nextUserId, nextDeviceId, nextChatId, eventBusEvents, nextEventId);
      tables := tables.(sessionKeys := tables.sessionKeys[id := sk]);
      r := Pass;
    }

    // -------------------------------------------------------------------------
    // Deletes

    /** DELETE FROM messages: cascades to the message's delivery rows. */
    method DeleteMessage(id: Guid) returns (r: Outcome<DbError>)
      requires Valid()
      modifies this`tables
      ensures Valid()
      ensures r.Pass? <==> id in old(tables.messages)
      ensures r.Fail? ==> r.error == RowNotFound && tables == old(tables)
      ensures r.Pass? ==> tables == DeleteMessageCascade(old(tables), id)
    {
      if id !in tables.messages {
        return Fail(RowNotFound);
      }
      DeleteMessageKeepsValid(tables, id);
      tables := DeleteMessageCascade(tables, id);
      r := Pass;
    }

    /**
     * DELETE FROM devices: rejected while a session key uses the device;
     * otherwise cascades to its device key and detaches its user sessions.
     */
    method DeleteDevice(id: int) returns (r: Outcome<DbError>)
      requires Valid()
      modifies this`tables
      ensures Valid()
      ensures r.Pass? <==> id in old(tables.devices) && !DevicesInUse(old(tables), {id})
      ensures r == Fail(RowNotFound) <==> id !in old(tables.devices)
      ensures r == Fail(DeleteRestricted) <==> id in old(tables.devices) && DevicesInUse(old(tables), {id})
      ensures r.Fail? ==> tables == old(tables)
      ensures r.Pass? ==> tables == DeleteDeviceCascade(old(tables), id)
    {
      if id !in tables.devices {
        return Fail(RowNotFound);
      }
      if DevicesInUse(tables, {id}) {
        return Fail(DeleteRestricted);
      }
      DeleteDeviceKeepsValid(tables, id);
      tables := DeleteDeviceCascade(tables, id);
      r := Pass;
    }

    /**
     * DELETE FROM chats: rejected while a session key is bound to the chat;
     * otherwise cascades to its members, its messages and their deliveries.
     */
    method DeleteChat(id: int) returns (r: Outcome<DbError>)
      requires Valid()
      modifies this`tables
      ensures Valid()
      ensures r.Pass? <==> id in old(tables.chats) && !ChatInUse(old(tables), id)
      ensures r == Fail(RowNotFound) <==> id !in old(tables.chats)
      ensures r == Fail(DeleteRestricted) <==> id in old(tables.chats) && ChatInUse(old(tables), id)
      ensures r.Fail? ==> tables == old(tables)
      ensures r.Pass? ==> tables == DeleteChatCascade(old(tables), id)
    {
      if id !in tables.chats {
        return Fail(RowNotFound);
      }
      if ChatInUse(tables, id) {
        return Fail(DeleteRestricted);
      }
      DeleteChatKeepsValid(tables, id);
      tables := DeleteChatCascade(tables, id);
      r := Pass;
    }

    /**
     * DELETE FROM users: rejected while the user created a chat, sent a
     * message, or owns a device a session key uses; otherwise cascades to the
     * user's devices, keys, sessions, memberships and deliveries.
     */
    method DeleteUser(id: int) returns (r: Outcome<DbError>)
      requires Valid()
      modifies this`tables
      ensures Valid()
      ensures r.Pass? <==> id in old(tables.users) && !UserInUse(old(tables), id)
      ensures r == Fail(RowNotFound) <==> id !in old(tables.users)
      ensures r == Fail(DeleteRestricted) <==> id in old(tables.users) && UserInUse(old(tables), id)
      ensures r.Fail? ==> tables == old(tables)
      ensures r.Pass? ==> tables == DeleteUserCascade(old(tables), id)
    {
      if id !in tables.users {
        return Fail(RowNotFound);
      }
      if UserInUse(tables, id) {
        return Fail(DeleteRestricted);
      }
      DeleteUserKeepsValid(tables, id);
      var t := DeleteUserCascade(tables, id);
      assert t.devices.Keys <= tables.devices.Keys;
      KeysBelowShrink(tables, t, nextUserId, nextDeviceId, nextChatId);
      tables := t;
      r := Pass;
    }

    /** DELETE FROM session_keys: nothing references a session key. */
    method DeleteSessionKey(id: Guid) returns (r: Outcome<DbError>)
      requires Valid()
      modifies this`tables
      ensures Valid()
      ensures r.Pass? <==> id in old(tables.sessionKeys)
      ensures r.Fail? ==> r.error == RowNotFound && tables == old(tables)
      ensures r.Pass? ==> tables == old(tables).(sessionKeys := old(tables.sessionKeys) - {id})
    {
      if id !in tables.sessionKeys {
        return Fail(RowNotFound);
      }
      DeleteSessionKeyKeepsValid(tables, id);
      tables := tables.(sessionKeys := tables.sessionKeys - {id});
      r := Pass;
    }
  }
}
