/**
 * The relational constraints declared when the store's model is built: keys,
 * unique indexes, the phone-or-email check constraint, column lengths,
 * foreign keys, and what deleting a referenced row does (cascade, restrict or
 * set null). Everything here is a function of a `Tables` value; the class
 * AppDbContext (module Data) holds the tables and applies these rules.
 *
 * Keys: a table is a map from its primary key to the rest of the row, so a
 * primary key (single, composite or one-to-one) can hold at most one row.
 * Each constraint is stated over the tables it reads and no others.
 */
module Schema {
  import opened Wrappers
  import opened Entities

  const UserNameMaxLength := 50
  const DisplayNameMaxLength := 100
  const PhoneNumberMaxLength := 32
  const EmailMaxLength := 254
  const PasswordHashMaxLength := 255
  const ClientMessageIdMaxLength := 64

  /** Why the store rejects a write. */
  datatype DbError =
    | DuplicateKey              // a row with that primary key exists
    | UniqueIndexViolation      // a unique index already holds that value
    | CheckConstraintViolation  // CK_users_phone_or_email
    | MaxLengthExceeded         // a value longer than its column
    | RequiredValueMissing      // NULL in a required column
    | ForeignKeyViolation       // a referenced row does not exist
    | DeleteRestricted          // a Restrict / NO ACTION reference blocks the delete
    | RowNotFound               // the row to delete does not exist

  /** The relational tables of the store (the outbox table is kept apart, see module Outbox). */
  datatype Tables = Tables(
    users: map<int, User>,
    devices: map<int, Device>,
    userSessions: map<Guid, UserSession>,
    chats: map<int, Chat>,
    chatMembers: map<MemberKey, ChatMember>,
    messages: map<Guid, Message>,
    messageDeliveries: map<DeliveryKey, MessageDelivery>,
    identityKeys: map<int, IdentityKey>,
    deviceKeys: map<int, DeviceKey>,
    sessionKeys: map<Guid, SessionKey>)

  /** The empty store. */
  function Empty(): Tables {
    Tables(map[], map[], map[], map[], map[], map[], map[], map[], map[], map[])
  }

  predicate FitsIn(s: Option<string>, maxLength: nat) {
    s.Some? ==> |s.value| <= maxLength
  }

  /** An optional foreign key: NULL, or the key of an existing row. */
  predicate RefersTo<K, V>(table: map<K, V>, r: Option<K>) {
    r.Some? ==> r.value in table
  }

  // ---------------------------------------------------------------------------
  // users

  /** Column lengths of users. */
  predicate UserColumnsOk(u: User) {
    |u.userName| <= UserNameMaxLength &&
    |u.displayName| <= DisplayNameMaxLength &&
    FitsIn(u.phoneNumber, PhoneNumberMaxLength) &&
    FitsIn(u.email, EmailMaxLength) &&
    FitsIn(u.passwordHash, PasswordHashMaxLength)
  }

  /** CK_users_phone_or_email: (PhoneNumber IS NOT NULL) OR (Email IS NOT NULL). */
  predicate PhoneOrEmail(u: User) {
    u.phoneNumber.Some? || u.email.Some?
  }

  predicate UserNameTaken(users: map<int, User>, name: string) {
    exists k :: k in users && users[k].userName == name
  }

  /** A unique index over a nullable column ignores NULLs. */
  predicate PhoneNumberTaken(users: map<int, User>, phone: Option<string>) {
    phone.Some? && exists k :: k in users && users[k].phoneNumber == phone
  }

  predicate EmailTaken(users: map<int, User>, email: Option<string>) {
    email.Some? && exists k :: k in users && users[k].email == email
  }

  /** Unique indexes on UserName, PhoneNumber and Email (the last two for non-NULL values). */
  ghost predicate UsersUnique(users: map<int, User>) {
    forall a, b :: a in users && b in users && a != b ==>
      users[a].userName != users[b].userName &&
      (users[a].phoneNumber.Some? ==> users[a].phoneNumber != users[b].phoneNumber) &&
      (users[a].email.Some? ==> users[a].email != users[b].email)
  }

  ghost predicate UsersValid(users: map<int, User>) {
    UsersUnique(users) &&
    forall k :: k in users ==> UserColumnsOk(users[k]) && PhoneOrEmail(users[k])
  }

  /** What the store checks before inserting a user row. */
  predicate UserAdmissible(users: map<int, User>, u: User) {
    UserColumnsOk(u) && PhoneOrEmail(u) &&
    !UserNameTaken(users, u.userName) &&
    !PhoneNumberTaken(users, u.phoneNumber) &&
    !EmailTaken(users, u.email)
  }

  // ---------------------------------------------------------------------------
  // foreign keys of the other tables

  ghost predicate DevicesValid(devices: map<int, Device>, users: map<int, User>) {
    forall d :: d in devices ==> devices[d].userId in users
  }

  ghost predicate UserSessionsValid(sessions: map<Guid, UserSession>, users: map<int, User>, devices: map<int, Device>) {
    forall s :: s in sessions ==> sessions[s].userId in users && RefersTo(devices, sessions[s].deviceId)
  }

  ghost predicate ChatsValid(chats: map<int, Chat>, users: map<int, User>) {
    forall c :: c in chats ==> chats[c].createdByUserId in users
  }

  ghost predicate ChatMembersValid(members: map<MemberKey, ChatMember>, chats: map<int, Chat>, users: map<int, User>) {
    forall k :: k in members ==> k.0 in chats && k.1 in users
  }

  predicate ClientMessageIdTaken(messages: map<Guid, Message>, chatId: int, clientMessageId: string) {
    exists m :: m in messages && messages[m].chatId == chatId && messages[m].clientMessageId == clientMessageId
  }

  /** Foreign keys of messages and the ClientMessageId length. */
  ghost predicate MessagesValid(messages: map<Guid, Message>, chats: map<int, Chat>, users: map<int, User>) {
    forall m :: m in messages ==>
      messages[m].chatId in chats && messages[m].senderUserId in users &&
      |messages[m].clientMessageId| <= ClientMessageIdMaxLength
  }

  /** The unique index (ChatId, ClientMessageId). */
  ghost predicate MessagesUnique(messages: map<Guid, Message>) {
    forall a, b :: a in messages && b in messages && a != b ==>
      messages[a].chatId != messages[b].chatId || messages[a].clientMessageId != messages[b].clientMessageId
  }

  ghost predicate MessageDeliveriesValid(deliveries: map<DeliveryKey, MessageDelivery>, messages: map<Guid, Message>,
                                         users: map<int, User>) {
    forall k :: k in deliveries ==> k.0 in messages && k.1 in users
  }

  ghost predicate IdentityKeysValid(keys: map<int, IdentityKey>, users: map<int, User>) {
    forall u :: u in keys ==> u in users
  }

  ghost predicate DeviceKeysValid(keys: map<int, DeviceKey>, devices: map<int, Device>) {
    forall d :: d in keys ==> d in devices
  }

  ghost predicate SessionKeysValid(keys: map<Guid, SessionKey>, chats: map<int, Chat>, devices: map<int, Device>) {
    forall s :: s in keys ==>
      RefersTo(chats, keys[s].chatId) && keys[s].localDeviceId in devices && keys[s].remoteDeviceId in devices
  }

  /** Every constraint of the schema. */
  ghost predicate Valid(t: Tables) {
    UsersValid(t.users) &&
    DevicesValid(t.devices, t.users) &&
    UserSessionsValid(t.userSessions, t.users, t.devices) &&
    ChatsValid(t.chats, t.users) &&
    ChatMembersValid(t.chatMembers, t.chats, t.users) &&
    MessagesValid(t.messages, t.chats, t.users) &&
    MessagesUnique(t.messages) &&
    MessageDeliveriesValid(t.messageDeliveries, t.messages, t.users) &&
    IdentityKeysValid(t.identityKeys, t.users) &&
    DeviceKeysValid(t.deviceKeys, t.devices) &&
    SessionKeysValid(t.sessionKeys, t.chats, t.devices)
  }

  lemma EmptyValid()
    ensures Valid(Empty())
  {
  }

  // ---------------------------------------------------------------------------
  // A new parent row never breaks a foreign key.

  lemma UserAddedKeepsReferences(t: Tables, id: int, u: User)
    requires Valid(t)
    ensures var users := t.users[id := u];
      DevicesValid(t.devices, users) && UserSessionsValid(t.userSessions, users, t.devices) &&
      ChatsValid(t.chats, users) && ChatMembersValid(t.chatMembers, t.chats, users) &&
      MessagesValid(t.messages, t.chats, users) && MessageDeliveriesValid(t.messageDeliveries, t.messages, users) &&
      IdentityKeysValid(t.identityKeys, users)
  {
  }

  lemma DeviceAddedKeepsReferences(t: Tables, id: int, d: Device)
    requires Valid(t)
    ensures var devices := t.devices[id := d];
      UserSessionsValid(t.userSessions, t.users, devices) && DeviceKeysValid(t.deviceKeys, devices) &&
      SessionKeysValid(t.sessionKeys, t.chats, devices)
  {
    var devices := t.devices[id := d];
    forall s | s in t.userSessions ensures RefersTo(devices, t.userSessions[s].deviceId) {
      assert RefersTo(t.devices, t.userSessions[s].deviceId);
    }
  }

  lemma ChatAddedKeepsReferences(t: Tables, id: int, c: Chat)
    requires Valid(t)
    ensures var chats := t.chats[id := c];
      ChatMembersValid(t.chatMembers, chats, t.users) && MessagesValid(t.messages, chats, t.users) &&
      SessionKeysValid(t.sessionKeys, chats, t.devices)
  {
    var chats := t.chats[id := c];
    forall s | s in t.sessionKeys ensures RefersTo(chats, t.sessionKeys[s].chatId) {
      assert RefersTo(t.chats, t.sessionKeys[s].chatId);
    }
  }

  lemma MessageAddedKeepsReferences(t: Tables, id: Guid, m: Message)
    requires Valid(t)
    ensures MessageDeliveriesValid(t.messageDeliveries, t.messages[id := m], t.users)
  {
  }

  // ---------------------------------------------------------------------------
  // Inserts: the store's checks accept a new row exactly when the tables with
  // that row still satisfy every constraint.

  /** The users table accepts a new row exactly when the unique indexes, the check constraint and the lengths allow it. */
  lemma UsersInsertExact(users: map<int, User>, id: int, u: User)
    requires UsersValid(users) && id !in users
    ensures UsersValid(users[id := u]) <==> UserAdmissible(users, u)
  {
    var users' := users[id := u];
    if UserAdmissible(users, u) {
      forall a, b | a in users' && b in users' && a != b
        ensures users'[a].userName != users'[b].userName
        ensures users'[a].phoneNumber.Some? ==> users'[a].phoneNumber != users'[b].phoneNumber
        ensures users'[a].email.Some? ==> users'[a].email != users'[b].email
      {
        if a == id {
          assert users'[b] == users[b];
        } else if b == id {
          assert users'[a] == users[a];
        }
      }
    }
    if UsersValid(users') {
      forall k | k in users
        ensures users[k].userName != u.userName
        ensures u.phoneNumber.Some? ==> users[k].phoneNumber != u.phoneNumber
        ensures u.email.Some? ==> users[k].email != u.email
      {
        assert users'[k] == users[k] && users'[id] == u;
      }
      assert users'[id] == u;
    }
  }

  lemma InsertUserExact(t: Tables, id: int, u: User)
    requires Valid(t) && id !in t.users
    ensures Valid(t.(users := t.users[id := u])) <==> UserAdmissible(t.users, u)
  {
    UsersInsertExact(t.users, id, u);
    UserAddedKeepsReferences(t, id, u);
  }

  lemma InsertDeviceExact(t: Tables, id: int, d: Device)
    requires Valid(t) && id !in t.devices
    ensures Valid(t.(devices := t.devices[id := d])) <==> d.userId in t.users
  {
    var devices := t.devices[id := d];
    DeviceAddedKeepsReferences(t, id, d);
    assert DevicesValid(devices, t.users) <==> d.userId in t.users by {
      assert devices[id] == d;
    }
  }

  lemma InsertUserSessionExact(t: Tables, id: Guid, s: UserSession)
    requires Valid(t) && id !in t.userSessions
    ensures Valid(t.(userSessions := t.userSessions[id := s])) <==>
      s.userId in t.users && RefersTo(t.devices, s.deviceId)
  {
    var sessions := t.userSessions[id := s];
    assert UserSessionsValid(sessions, t.users, t.devices) <==>
      s.userId in t.users && RefersTo(t.devices, s.deviceId)
    by {
      assert sessions[id] == s;
    }
  }

  lemma InsertChatExact(t: Tables, id: int, c: Chat)
    requires Valid(t) && id !in t.chats
    ensures Valid(t.(chats := t.chats[id := c])) <==> c.createdByUserId in t.users
  {
    var chats := t.chats[id := c];
    ChatAddedKeepsReferences(t, id, c);
    assert ChatsValid(chats, t.users) <==> c.createdByUserId in t.users by {
      assert chats[id] == c;
    }
  }

  lemma InsertChatMemberExact(t: Tables, k: MemberKey, m: ChatMember)
    requires Valid(t) && k !in t.chatMembers
    ensures Valid(t.(chatMembers := t.chatMembers[k := m])) <==> k.0 in t.chats && k.1 in t.users
  {
    var members := t.chatMembers[k := m];
    assert ChatMembersValid(members, t.chats, t.users) <==> k.0 in t.chats && k.1 in t.users by {
      assert k in members;
    }
  }

  /** What the store checks before inserting a message row (besides its key). */
  predicate MessageAdmissible(t: Tables, m: Message) {
    m.chatId in t.chats && m.senderUserId in t.users &&
    |m.clientMessageId| <= ClientMessageIdMaxLength &&
    !ClientMessageIdTaken(t.messages, m.chatId, m.clientMessageId)
  }

  /** The unique index (ChatId, ClientMessageId) accepts a new row exactly when its pair is free. */
  lemma MessagesUniqueInsertExact(messages: map<Guid, Message>, id: Guid, m: Message)
    requires MessagesUnique(messages) && id !in messages
    ensures MessagesUnique(messages[id := m]) <==> !ClientMessageIdTaken(messages, m.chatId, m.clientMessageId)
  {
    var messages' := messages[id := m];
    if !ClientMessageIdTaken(messages, m.chatId, m.clientMessageId) {
      forall a, b | a in messages' && b in messages' && a != b
        ensures messages'[a].chatId != messages'[b].chatId || messages'[a].clientMessageId != messages'[b].clientMessageId
      {
        if a == id {
          assert messages'[b] == messages[b];
        } else if b == id {
          assert messages'[a] == messages[a];
        }
      }
    }
    if MessagesUnique(messages') {
      forall k | k in messages
        ensures messages[k].chatId != m.chatId || messages[k].clientMessageId != m.clientMessageId
      {
        assert messages'[k] == messages[k] && messages'[id] == m;
      }
    }
  }

  /** The foreign keys and the length of messages accept a new row exactly when its own values pass. */
  lemma MessagesInsertExact(t: Tables, id: Guid, m: Message)
    requires MessagesValid(t.messages, t.chats, t.users)
    ensures MessagesValid(t.messages[id := m], t.chats, t.users) <==>
      m.chatId in t.chats && m.senderUserId in t.users && |m.clientMessageId| <= ClientMessageIdMaxLength
  {
    var messages := t.messages[id := m];
    if m.chatId in t.chats && m.senderUserId in t.users && |m.clientMessageId| <= ClientMessageIdMaxLength {
      forall k | k in messages
        ensures messages[k].chatId in t.chats && messages[k].senderUserId in t.users &&
                |messages[k].clientMessageId| <= ClientMessageIdMaxLength
      {
        if k != id {
          assert messages[k] == t.messages[k];
        }
      }
    }
    assert messages[id] == m;
  }

  lemma InsertMessageExact(t: Tables, id: Guid, m: Message)
    requires Valid(t) && id !in t.messages
    ensures Valid(t.(messages := t.messages[id := m])) <==> MessageAdmissible(t, m)
  {
    MessagesUniqueInsertExact(t.messages, id, m);
    MessageAddedKeepsReferences(t, id, m);
    MessagesInsertExact(t, id, m);
  }

  lemma InsertMessageDeliveryExact(t: Tables, k: DeliveryKey, d: MessageDelivery)
    requires Valid(t) && k !in t.messageDeliveries
    ensures Valid(t.(messageDeliveries := t.messageDeliveries[k := d])) <==> k.0 in t.messages && k.1 in t.users
  {
    var deliveries := t.messageDeliveries[k := d];
    assert MessageDeliveriesValid(deliveries, t.messages, t.users) <==> k.0 in t.messages && k.1 in t.users by {
      assert k in deliveries;
    }
  }

  lemma InsertIdentityKeyExact(t: Tables, userId: int, key: IdentityKey)
    requires Valid(t) && userId !in t.identityKeys
    ensures Valid(t.(identityKeys := t.identityKeys[userId := key])) <==> userId in t.users
  {
    var keys := t.identityKeys[userId := key];
    assert IdentityKeysValid(keys, t.users) <==> userId in t.users by {
      assert userId in keys;
    }
  }

  lemma InsertDeviceKeyExact(t: Tables, deviceId: int, key: DeviceKey)
    requires Valid(t) && deviceId !in t.deviceKeys
    ensures Valid(t.(deviceKeys := t.deviceKeys[deviceId := key])) <==> deviceId in t.devices
  {
    var keys := t.deviceKeys[deviceId := key];
    assert DeviceKeysValid(keys, t.devices) <==> deviceId in t.devices by {
      assert deviceId in keys;
    }
  }

  /** What the store checks before inserting a session key (besides its key). */
  predicate SessionKeyAdmissible(t: Tables, sk: SessionKey) {
    RefersTo(t.chats, sk.chatId) && sk.localDeviceId in t.devices && sk.remoteDeviceId in t.devices
  }

  lemma InsertSessionKeyExact(t: Tables, id: Guid, sk: SessionKey)
    requires Valid(t) && id !in t.sessionKeys
    ensures Valid(t.(sessionKeys := t.sessionKeys[id := sk])) <==> SessionKeyAdmissible(t, sk)
  {
    var keys := t.sessionKeys[id := sk];
    if SessionKeyAdmissible(t, sk) {
      forall s | s in keys
        ensures RefersTo(t.chats, keys[s].chatId) && keys[s].localDeviceId in t.devices &&
                keys[s].remoteDeviceId in t.devices
      {
        if s != id {
          assert keys[s] == t.sessionKeys[s];
        }
      }
    }
    assert keys[id] == sk;
  }

  // ---------------------------------------------------------------------------
  // Deletes and their referential actions

  /** ON DELETE SET NULL for user_sessions.DeviceId when its device is in `gone`. */
  function DetachDevice(s: UserSession, gone: set<int>): (r: UserSession)
    ensures r.deviceId == (if s.deviceId.Some? && s.deviceId.value in gone then None else s.deviceId)
    ensures r.(deviceId := s.deviceId) == s
  {
    if s.deviceId.Some? && s.deviceId.value in gone then s.(deviceId := None) else s
  }

  /** A session key uses the device (both references are ON DELETE RESTRICT). */
  predicate UsesDevice(sk: SessionKey, gone: set<int>) {
    sk.localDeviceId in gone || sk.remoteDeviceId in gone
  }

  /** Deleting the devices in `gone` is blocked by a session key that references one of them. */
  predicate DevicesInUse(t: Tables, gone: set<int>) {
    exists s :: s in t.sessionKeys && UsesDevice(t.sessionKeys[s], gone)
  }

  /** Deleting a message cascades to its delivery rows; nothing else changes. */
  function DeleteMessageCascade(t: Tables, id: Guid): (r: Tables)
    ensures r.messages.Keys == t.messages.Keys - {id}
    ensures forall k :: k in r.messageDeliveries <==> k in t.messageDeliveries && k.0 != id
    ensures forall m :: m in r.messages ==> r.messages[m] == t.messages[m]
    ensures forall k :: k in r.messageDeliveries ==> r.messageDeliveries[k] == t.messageDeliveries[k]
    ensures r.(messages := t.messages, messageDeliveries := t.messageDeliveries) == t
  {
    t.(messages := t.messages - {id},
       messageDeliveries := map k | k in t.messageDeliveries && k.0 != id :: t.messageDeliveries[k])
  }

  /** Nothing restricts deleting a message: its cascade always keeps every constraint. */
  lemma DeleteMessageKeepsValid(t: Tables, id: Guid)
    requires Valid(t)
    ensures Valid(DeleteMessageCascade(t, id))
  {
    var r := DeleteMessageCascade(t, id);
    assert MessagesValid(r.messages, r.chats, r.users) && MessagesUnique(r.messages);
    forall k | k in r.messageDeliveries ensures k.0 in r.messages {
      assert k in t.messageDeliveries;
    }
  }

  /**
   * Deleting a device cascades to its device key and sets DeviceId to NULL on
   * the user sessions that referred to it.
   */
  function DeleteDeviceCascade(t: Tables, id: int): (r: Tables)
    ensures r.devices.Keys == t.devices.Keys - {id}
    ensures r.deviceKeys.Keys == t.deviceKeys.Keys - {id}
    ensures r.userSessions.Keys == t.userSessions.Keys
    ensures forall s :: s in t.userSessions ==>
      r.userSessions[s].deviceId == (if t.userSessions[s].deviceId == Some(id) then None else t.userSessions[s].deviceId) &&
      r.userSessions[s].(deviceId := t.userSessions[s].deviceId) == t.userSessions[s]
    ensures forall d :: d in r.devices ==> r.devices[d] == t.devices[d]
    ensures forall d :: d in r.deviceKeys ==> r.deviceKeys[d] == t.deviceKeys[d]
    ensures r.(devices := t.devices, deviceKeys := t.deviceKeys, userSessions := t.userSessions) == t
  {
    t.(devices := t.devices - {id},
       deviceKeys := t.deviceKeys - {id},
       userSessions := map s | s in t.userSessions :: DetachDevice(t.userSessions[s], {id}))
  }

  /** Deleting a session key affects no other row: nothing references it. */
  lemma DeleteSessionKeyKeepsValid(t: Tables, id: Guid)
    requires Valid(t)
    ensures Valid(t.(sessionKeys := t.sessionKeys - {id}))
  {
  }

  /** The messages of a chat. */
  function ChatMessages(t: Tables, chatId: int): set<Guid> {
    set m | m in t.messages && t.messages[m].chatId == chatId
  }

  /** Deleting a chat is blocked by a session key bound to it (optional FK without cascade). */
  predicate ChatInUse(t: Tables, chatId: int) {
    exists s :: s in t.sessionKeys && t.sessionKeys[s].chatId == Some(chatId)
  }

  /**
   * Deleting a chat cascades to its members and its messages, and through the
   * messages to their delivery rows.
   */
  function DeleteChatCascade(t: Tables, id: int): (r: Tables)
    ensures r.chats.Keys == t.chats.Keys - {id}
    ensures forall k :: k in r.chatMembers <==> k in t.chatMembers && k.0 != id
    ensures forall m :: m in r.messages <==> m in t.messages && t.messages[m].chatId != id
    ensures forall k :: k in r.messageDeliveries <==>
      k in t.messageDeliveries && (k.0 in t.messages ==> t.messages[k.0].chatId != id)
    ensures forall c :: c in r.chats ==> r.chats[c] == t.chats[c]
    ensures forall k :: k in r.chatMembers ==> r.chatMembers[k] == t.chatMembers[k]
    ensures forall m :: m in r.messages ==> r.messages[m] == t.messages[m]
    ensures forall k :: k in r.messageDeliveries ==> r.messageDeliveries[k] == t.messageDeliveries[k]
    ensures r.(chats := t.chats, chatMembers := t.chatMembers, messages := t.messages,
               messageDeliveries := t.messageDeliveries) == t
  {
    var gone := ChatMessages(t, id);
    t.(chats := t.chats - {id},
       chatMembers := map k | k in t.chatMembers && k.0 != id :: t.chatMembers[k],
       messages := t.messages - gone,
       messageDeliveries := map k | k in t.messageDeliveries && k.0 !in gone :: t.messageDeliveries[k])
  }

  /** The devices a user owns. */
  function OwnedDevices(t: Tables, userId: int): set<int> {
    set d | d in t.devices && t.devices[d].userId == userId
  }

  /** The user created a chat (chats.CreatedByUserId is ON DELETE RESTRICT). */
  predicate CreatedAChat(t: Tables, userId: int) {
    exists c :: c in t.chats && t.chats[c].createdByUserId == userId
  }

  /** The user sent a message (messages.SenderUserId is ON DELETE RESTRICT). */
  predicate SentAMessage(t: Tables, userId: int) {
    exists m :: m in t.messages && t.messages[m].senderUserId == userId
  }

  /**
   * Deleting a user is blocked while the user created a chat or sent a message,
   * and while a session key references one of the user's devices (the cascade
   * to those devices would hit that restriction).
   */
  predicate UserInUse(t: Tables, userId: int) {
    CreatedAChat(t, userId) || SentAMessage(t, userId) || DevicesInUse(t, OwnedDevices(t, userId))
  }

  /**
   * Deleting a user cascades to the user's devices (and their device keys),
   * identity key, sessions, memberships and delivery rows; sessions of other
   * users that referred to one of the deleted devices get DeviceId NULL.
   */
  function DeleteUserCascade(t: Tables, id: int): (r: Tables)
    ensures r.users.Keys == t.users.Keys - {id}
    ensures forall u :: u in r.users ==> r.users[u] == t.users[u]
    ensures forall d :: d in r.devices <==> d in t.devices && t.devices[d].userId != id
    ensures forall d :: d in r.devices ==> r.devices[d] == t.devices[d]
    ensures forall d :: d in r.deviceKeys <==> d in t.deviceKeys && (d in t.devices ==> t.devices[d].userId != id)
    ensures r.identityKeys.Keys == t.identityKeys.Keys - {id}
    ensures forall k :: k in r.chatMembers <==> k in t.chatMembers && k.1 != id
    ensures forall k :: k in r.messageDeliveries <==> k in t.messageDeliveries && k.1 != id
    ensures forall s :: s in r.userSessions <==> s in t.userSessions && t.userSessions[s].userId != id
    ensures forall s :: s in r.userSessions ==>
      r.userSessions[s] == DetachDevice(t.userSessions[s], OwnedDevices(t, id))
    ensures r.chats == t.chats && r.messages == t.messages && r.sessionKeys == t.sessionKeys
  {
    var gone := OwnedDevices(t, id);
    t.(users := t.users - {id},
       devices := t.devices - gone,
       deviceKeys := t.deviceKeys - gone,
       identityKeys := t.identityKeys - {id},
       chatMembers := map k | k in t.chatMembers && k.1 != id :: t.chatMembers[k],
       messageDeliveries := map k | k in t.messageDeliveries && k.1 != id :: t.messageDeliveries[k],
       userSessions := map s | s in t.userSessions && t.userSessions[s].userId != id ::
         DetachDevice(t.userSessions[s], gone))
  }

  // ---------------------------------------------------------------------------
  // The restrictions are exactly what keeps the store consistent: a cascade
  // leaves every constraint satisfied if and only if nothing restricts it.

  lemma DeleteDeviceKeepsValid(t: Tables, id: int)
    requires Valid(t) && !DevicesInUse(t, {id})
    ensures Valid(DeleteDeviceCascade(t, id))
  {
    var r := DeleteDeviceCascade(t, id);
    assert DevicesValid(r.devices, r.users);
    forall s | s in r.userSessions
      ensures r.userSessions[s].userId in r.users && RefersTo(r.devices, r.userSessions[s].deviceId)
    {
      assert s in t.userSessions;
    }
    forall d | d in r.deviceKeys ensures d in r.devices {
      assert d in t.deviceKeys;
    }
    forall s | s in r.sessionKeys
      ensures r.sessionKeys[s].localDeviceId in r.devices && r.sessionKeys[s].remoteDeviceId in r.devices
    {
      assert !UsesDevice(t.sessionKeys[s], {id});
    }
  }

  /** Deleting an existing device keeps every constraint exactly when no session key uses it. */
  lemma DeleteDeviceExact(t: Tables, id: int)
    requires Valid(t) && id in t.devices
    ensures Valid(DeleteDeviceCascade(t, id)) <==> !DevicesInUse(t, {id})
  {
    var r := DeleteDeviceCascade(t, id);
    if !DevicesInUse(t, {id}) {
      DeleteDeviceKeepsValid(t, id);
    } else {
      var s :| s in t.sessionKeys && UsesDevice(t.sessionKeys[s], {id});
      assert s in r.sessionKeys && id !in r.devices;
    }
  }

  lemma DeleteChatKeepsMembers(t: Tables, id: int)
    requires ChatsValid(t.chats, t.users) && ChatMembersValid(t.chatMembers, t.chats, t.users)
    ensures var r := DeleteChatCascade(t, id);
      ChatsValid(r.chats, r.users) && ChatMembersValid(r.chatMembers, r.chats, r.users)
  {
    var r := DeleteChatCascade(t, id);
    forall k | k in r.chatMembers ensures k.0 in r.chats && k.1 in r.users {
      assert k in t.chatMembers;
    }
  }

  lemma DeleteChatKeepsMessages(t: Tables, id: int)
    requires MessagesValid(t.messages, t.chats, t.users) && MessagesUnique(t.messages)
    ensures var r := DeleteChatCascade(t, id);
      MessagesValid(r.messages, r.chats, r.users) && MessagesUnique(r.messages)
  {
    var r := DeleteChatCascade(t, id);
    forall m | m in r.messages
      ensures r.messages[m].chatId in r.chats && r.messages[m].senderUserId in r.users &&
              |r.messages[m].clientMessageId| <= ClientMessageIdMaxLength
    {
      assert m in t.messages && r.messages[m] == t.messages[m];
    }
    forall a, b | a in r.messages && b in r.messages && a != b
      ensures r.messages[a].chatId != r.messages[b].chatId ||
              r.messages[a].clientMessageId != r.messages[b].clientMessageId
    {
      assert a in t.messages && b in t.messages;
    }
  }

  lemma DeleteChatKeepsDeliveries(t: Tables, id: int)
    requires MessageDeliveriesValid(t.messageDeliveries, t.messages, t.users)
    ensures var r := DeleteChatCascade(t, id);
      MessageDeliveriesValid(r.messageDeliveries, r.messages, r.users)
  {
    var r := DeleteChatCascade(t, id);
    forall k | k in r.messageDeliveries ensures k.0 in r.messages && k.1 in r.users {
      assert k in t.messageDeliveries;
    }
  }

  lemma DeleteChatKeepsKeys(t: Tables, id: int)
    requires SessionKeysValid(t.sessionKeys, t.chats, t.devices) && !ChatInUse(t, id)
    ensures var r := DeleteChatCascade(t, id);
      SessionKeysValid(r.sessionKeys, r.chats, r.devices)
  {
    var r := DeleteChatCascade(t, id);
    forall s | s in r.sessionKeys ensures RefersTo(r.chats, r.sessionKeys[s].chatId) {
      assert r.sessionKeys[s].chatId != Some(id);
    }
  }

  lemma DeleteChatKeepsValid(t: Tables, id: int)
    requires Valid(t) && !ChatInUse(t, id)
    ensures Valid(DeleteChatCascade(t, id))
  {
    DeleteChatKeepsMembers(t, id);
    DeleteChatKeepsMessages(t, id);
    DeleteChatKeepsDeliveries(t, id);
    DeleteChatKeepsKeys(t, id);
  }

  /** Deleting an existing chat keeps every constraint exactly when no session key is bound to it. */
  lemma DeleteChatExact(t: Tables, id: int)
    requires Valid(t) && id in t.chats
    ensures Valid(DeleteChatCascade(t, id)) <==> !ChatInUse(t, id)
  {
    var r := DeleteChatCascade(t, id);
    if !ChatInUse(t, id) {
      DeleteChatKeepsValid(t, id);
    } else {
      var s :| s in t.sessionKeys && t.sessionKeys[s].chatId == Some(id);
      assert s in r.sessionKeys && id !in r.chats;
    }
  }

  lemma DeleteUserKeepsUsers(t: Tables, id: int)
    requires UsersValid(t.users)
    ensures UsersValid(DeleteUserCascade(t, id).users)
  {
    var r := DeleteUserCascade(t, id);
    forall a, b | a in r.users && b in r.users && a != b
      ensures r.users[a].userName != r.users[b].userName &&
        (r.users[a].phoneNumber.Some? ==> r.users[a].phoneNumber != r.users[b].phoneNumber) &&
        (r.users[a].email.Some? ==> r.users[a].email != r.users[b].email)
    {
      assert a in t.users && b in t.users;
    }
    forall k | k in r.users ensures UserColumnsOk(r.users[k]) && PhoneOrEmail(r.users[k]) {
      assert k in t.users;
    }
  }

  lemma DeleteUserKeepsDevices(t: Tables, id: int)
    requires DevicesValid(t.devices, t.users) && UserSessionsValid(t.userSessions, t.users, t.devices)
    requires DeviceKeysValid(t.deviceKeys, t.devices)
    ensures var r := DeleteUserCascade(t, id);
      DevicesValid(r.devices, r.users) && UserSessionsValid(r.userSessions, r.users, r.devices) &&
      DeviceKeysValid(r.deviceKeys, r.devices)
  {
    var r := DeleteUserCascade(t, id);
    var gone := OwnedDevices(t, id);
    forall d | d in r.devices ensures r.devices[d].userId in r.users {
      assert d in t.devices;
    }
    forall s | s in r.userSessions
      ensures r.userSessions[s].userId in r.users && RefersTo(r.devices, r.userSessions[s].deviceId)
    {
      var before := t.userSessions[s];
      if before.deviceId.Some? && before.deviceId.value !in gone {
        assert before.deviceId.value in t.devices;
      }
    }
    forall d | d in r.deviceKeys ensures d in r.devices {
      assert d in t.deviceKeys;
    }
  }

  lemma DeleteUserKeepsChats(t: Tables, id: int)
    requires ChatsValid(t.chats, t.users) && ChatMembersValid(t.chatMembers, t.chats, t.users)
    requires !CreatedAChat(t, id)
    ensures var r := DeleteUserCascade(t, id);
      ChatsValid(r.chats, r.users) && ChatMembersValid(r.chatMembers, r.chats, r.users)
  {
    var r := DeleteUserCascade(t, id);
    forall c | c in r.chats ensures r.chats[c].createdByUserId in r.users {
      assert t.chats[c].createdByUserId != id;
    }
    forall k | k in r.chatMembers ensures k.0 in r.chats && k.1 in r.users {
      assert k in t.chatMembers;
    }
  }

  lemma DeleteUserKeepsMessages(t: Tables, id: int)
    requires MessagesValid(t.messages, t.chats, t.users) && MessagesUnique(t.messages)
    requires MessageDeliveriesValid(t.messageDeliveries, t.messages, t.users)
    requires !SentAMessage(t, id)
    ensures var r := DeleteUserCascade(t, id);
      MessagesValid(r.messages, r.chats, r.users) && MessagesUnique(r.messages) &&
      MessageDeliveriesValid(r.messageDeliveries, r.messages, r.users)
  {
    var r := DeleteUserCascade(t, id);
    forall m | m in r.messages ensures r.messages[m].senderUserId in r.users {
      assert t.messages[m].senderUserId != id;
    }
    forall k | k in r.messageDeliveries ensures k.0 in r.messages && k.1 in r.users {
      assert k in t.messageDeliveries;
    }
  }

  lemma DeleteUserKeepsKeys(t: Tables, id: int)
    requires IdentityKeysValid(t.identityKeys, t.users) && SessionKeysValid(t.sessionKeys, t.chats, t.devices)
    requires !DevicesInUse(t, OwnedDevices(t, id))
    ensures var r := DeleteUserCascade(t, id);
      IdentityKeysValid(r.identityKeys, r.users) && SessionKeysValid(r.sessionKeys, r.chats, r.devices)
  {
    var r := DeleteUserCascade(t, id);
    var gone := OwnedDevices(t, id);
    forall s | s in r.sessionKeys
      ensures r.sessionKeys[s].localDeviceId in r.devices && r.sessionKeys[s].remoteDeviceId in r.devices
    {
      assert !UsesDevice(t.sessionKeys[s], gone);
    }
  }

  lemma DeleteUserKeepsValid(t: Tables, id: int)
    requires Valid(t) && !UserInUse(t, id)
    ensures Valid(DeleteUserCascade(t, id))
  {
    DeleteUserKeepsUsers(t, id);
    DeleteUserKeepsDevices(t, id);
    DeleteUserKeepsChats(t, id);
    DeleteUserKeepsMessages(t, id);
    DeleteUserKeepsKeys(t, id);
  }

  /** A chat the user created would be left without its creator. */
  lemma DeleteUserBlockedByChat(t: Tables, id: int)
    requires id in t.users && CreatedAChat(t, id)
    ensures var r := DeleteUserCascade(t, id); !ChatsValid(r.chats, r.users)
  {
    var r := DeleteUserCascade(t, id);
    var c :| c in t.chats && t.chats[c].createdByUserId == id;
    assert c in r.chats && id !in r.users;
  }

  /** A message the user sent would be left without its sender. */
  lemma DeleteUserBlockedByMessage(t: Tables, id: int)
    requires id in t.users && SentAMessage(t, id)
    ensures var r := DeleteUserCascade(t, id); !MessagesValid(r.messages, r.chats, r.users)
  {
    var r := DeleteUserCascade(t, id);
    var m :| m in t.messages && t.messages[m].senderUserId == id;
    assert m in r.messages && id !in r.users;
  }

  /** A session key on one of the user's devices would be left without its device. */
  lemma DeleteUserBlockedBySessionKey(t: Tables, id: int)
    requires id in t.users && DevicesInUse(t, OwnedDevices(t, id))
    ensures var r := DeleteUserCascade(t, id); !SessionKeysValid(r.sessionKeys, r.chats, r.devices)
  {
    var r := DeleteUserCascade(t, id);
    var s :| s in t.sessionKeys && UsesDevice(t.sessionKeys[s], OwnedDevices(t, id));
    var sk := t.sessionKeys[s];
    assert s in r.sessionKeys;
    assert sk.localDeviceId !in r.devices || sk.remoteDeviceId !in r.devices;
  }

  /**
   * Deleting an existing user keeps every constraint exactly when the user
   * neither created a chat nor sent a message and no session key uses one of
   * the user's devices.
   */
  lemma DeleteUserExact(t: Tables, id: int)
    requires Valid(t) && id in t.users
    ensures Valid(DeleteUserCascade(t, id)) <==> !UserInUse(t, id)
  {
    if !UserInUse(t, id) {
      DeleteUserKeepsValid(t, id);
    } else if CreatedAChat(t, id) {
      DeleteUserBlockedByChat(t, id);
    } else if SentAMessage(t, id) {
      DeleteUserBlockedByMessage(t, id);
    } else {
      DeleteUserBlockedBySessionKey(t, id);
    }
  }

}
