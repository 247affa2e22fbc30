# Messaging store and event outbox — a Dafny model

This project models the data layer of a small end-to-end-encrypted messaging
back end. It has two parts: the relational store configured in
`AppDbContext.OnModelCreating`, and the durable event outbox that lives in the
same database.

- **The store** (`class Data.AppDbContext`) holds the ten relational tables
  (users, devices, user sessions, chats, chat members, messages, message
  deliveries, identity keys, device keys, session keys) as one `Tables` value.
  It also holds the outbox table, and the identity counters of the
  auto-increment keys (UserId, DeviceId, ChatId, event Id).
  - Each table is a map from its primary key to the row. Navigation
    properties are replaced by foreign-key ids, so single, composite
    ((ChatId, UserId), (MessageId, UserId)) and one-to-one (identity key =
    UserId, device key = DeviceId) keys hold at most one row each.
  - Every `Add*`/`Delete*` method either succeeds or fails with the reason
    a relational database would give, and a failure leaves every table and
    counter as it was. Strings compare character by character, and the
    collation and change-tracker differences listed under "Left out" are
    not modelled.
  - `Schema.Valid` is the conjunction of every declared constraint: the
    unique indexes on UserName, PhoneNumber, Email and (ChatId,
    ClientMessageId), the check constraint `CK_users_phone_or_email`, the
    column lengths, and the foreign keys. Every method keeps it.
  - The `Insert*Exact` and `Delete*Exact` lemmas show that each write's
    checks are exact. A write is accepted precisely when the result still
    satisfies every constraint, and a delete is rejected precisely when a
    Restrict (or NO ACTION) reference would be left dangling.
  - The cascade functions spell out what a delete does: Cascade removes
    dependent rows, SetNull clears `UserSession.DeviceId`, and Restrict
    blocks the delete.
- **The outbox** (module `Outbox`, classes `EventBus.EventBusWriter` and
  `EventBus.EventBusReader`):
  - `Enqueue` appends one row under the next Id.
  - `GetPending` returns the first `batchSize` unprocessed rows in Id order.
  - `MarkAsProcessed` stamps `ProcessedAt`.
  - `IncrementRetry` adds one to `RetryCount`.
- **Two read queries** (module `Queries`):
  - a user's deliveries in ServerSequence order;
  - a user's active sessions.
- **The test suite's sample user** (module `Fixtures`) checked against the
  users constraints (see "Findings").

Modelling choices:

- The clock is a `now` parameter, and `Time` is an integer.
- GUID keys are natural numbers.
- The JSON payload is its already serialized text.
- Strings are character sequences.

Several points of the code differ from what a reader of the outbox and
schema design would expect; the model follows the code:

- **Re-marking an event:** marking an already processed event could be
  expected to be a no-op. The code's `ExecuteUpdate` stamps `ProcessedAt`
  again with the new time, so it re-stamps (`Outbox.ProcessedTwiceRestamps`).
- **Identity and device keys:** the key tables could be expected to allow a
  new key once the old one is revoked (at most one *active* key). The code
  makes the owner's id the primary key, so any existing key blocks a second
  one, even a revoked one (`Data.AppDbContext.AddIdentityKey`,
  `Data.AppDbContext.AddDeviceKey`).
- **Enqueue and transactions:** an outbox write could be expected to share
  the domain write's transaction. `EnqueueAsync` calls its own
  `SaveChangesAsync`, so the model's `Enqueue` is a write of its own.
- **Fetching a new event:** an event just enqueued could be expected in the
  next fetch for any `batchSize >= 1`. The code returns it only when fewer
  than `batchSize` older events are still pending
  (`Outbox.EnqueuedEventFetched` states the exact condition).
- **`SessionKey.ChatId`:** this optional foreign key has no delete behaviour
  configured (AppDbContext.cs:192-194), so the migration creates it as
  NO ACTION, and the database refuses to delete a chat a session key is
  bound to. The model rejects that delete; the change tracker's client-side
  null-out of tracked session keys is listed under "Left out".
- **Users without contact fields:** the `User` entity class declares no
  PhoneNumber, Email or PasswordHash; those columns exist only in the
  context's configuration (AppDbContext.cs:40-49) and the contact-fields
  migration. The model follows the configuration, check constraint included,
  so the test suite's sample user (no phone, no e-mail) is rejected; see
  "Findings".

## Model

| member | source | states |
|---|---|---|
| Outbox.Take | DM.Infrastructure/EventBus/EventBusReader.cs:26 | `Take(n)` keeps the first `min(n, len)` elements in order, and none when n is not positive |
| Outbox.PendingBelowSound | DM.Infrastructure/EventBus/EventBusReader.cs:24-25 | every scanned row is a pending row of the table stored under its Id, and the Ids strictly ascend |
| Outbox.PendingBelowCount | DM.Infrastructure/EventBus/EventBusReader.cs:24 | the scan has exactly one entry per pending row |
| Outbox.PendingBelowComplete | DM.Infrastructure/EventBus/EventBusReader.cs:24-25 | the scan misses no pending row |
| Outbox.PendingBatchSpec | DM.Infrastructure/EventBus/EventBusReader.cs:23-28 | the batch holds only pending rows of the table, in strictly ascending Id order. Its length is min(batchSize, #pending), or 0 for batchSize <= 0. A pending row left out has a larger Id than every returned row and the batch is full |
| Outbox.Processed | DM.Infrastructure/EventBus/EventBusReader.cs:38-44 | only the row with that Id gets `ProcessedAt = now`; the other fields and rows and the key set are unchanged, and an unknown Id changes nothing |
| Outbox.Retried | DM.Infrastructure/EventBus/EventBusReader.cs:54-60 | only the row with that Id gets `RetryCount + 1`; `ProcessedAt`, the other fields and rows and the key set are unchanged, and an unknown Id changes nothing |
| Outbox.NewEvent | DM.Infrastructure/EventBus/EventBusWriter.cs:20-27 | the new row is pending with RetryCount 0 and CreatedAt = now, and keeps the given EventType, payload and CorrelationId |
| Outbox.EventTypeIdUnique | DM.Infrastructure/Data/AppDbContext.cs:238-240 | rows stored under their own Ids never share an (EventType, Id) pair, so that unique index never rejects a row |
| Outbox.EnqueueKeepsTable | DM.Infrastructure/Data/AppDbContext.cs:211-236 | a row stored under the counter, with the counter advanced, keeps the table invariant exactly when the row has that Id, its EventType is at most 255 characters and its CorrelationId at most 36; the counter's Id is free beforehand |
| Outbox.EnqueueAppendsPending | DM.Infrastructure/EventBus/EventBusWriter.cs:29-30 | appending a pending row at the counter extends the pending scan by exactly that row |
| Outbox.EnqueuedEventFetched | DM.Infrastructure/EventBus/EventBusWriter.cs:20-30 | a freshly enqueued event is in the next batch exactly when fewer than batchSize older events are pending, and is then its last element |
| Outbox.ProcessedNotPending | DM.Infrastructure/EventBus/EventBusReader.cs:38-44 | once an event is marked processed, no pending batch returns its Id |
| Outbox.ProcessedTwiceRestamps | DM.Infrastructure/EventBus/EventBusReader.cs:40-43 | marking twice equals marking once with the second time; the event holds the second stamp |
| Outbox.RetryKeepsPendingOrder | DM.Infrastructure/EventBus/EventBusReader.cs:54-60 | a retry increment leaves the Ids of the pending scan and their order unchanged |
| Outbox.RetryProcessedCommute | DM.Infrastructure/EventBus/EventBusReader.cs:38-60 | a retry increment and a processed stamp commute, for any two Ids |
| EventBus.EventBusWriter.constructor | DM.Infrastructure/EventBus/EventBusWriter.cs:10-13 | the writer wraps the given store |
| EventBus.EventBusWriter.Enqueue | DM.Infrastructure/EventBus/EventBusWriter.cs:15-31 | missing EventType fails with RequiredValueMissing and an over-long EventType/CorrelationId with MaxLengthExceeded, changing nothing. Otherwise it adds exactly one row `NewEvent(...)` under the old counter, which was free and exceeds every stored Id. Existing rows are unchanged, the counter advances, the pending scan gains exactly that event at its end, and the store invariant holds |
| EventBus.EventBusReader.constructor | DM.Infrastructure/EventBus/EventBusReader.cs:11-14 | the reader wraps the given store |
| EventBus.EventBusReader.GetPending | DM.Infrastructure/EventBus/EventBusReader.cs:19-29 | read-only (no modifies clause); the result is the first batchSize pending rows (the properties of `Outbox.PendingBatchSpec`, stated on the store's own table) |
| EventBus.EventBusReader.MarkAsProcessed | DM.Infrastructure/EventBus/EventBusReader.cs:34-45 | the table becomes `Processed(old, id, now)` and the store invariant holds. An unknown Id changes nothing, and the default-size pending batch afterwards does not contain the Id |
| EventBus.EventBusReader.IncrementRetry | DM.Infrastructure/EventBus/EventBusReader.cs:50-61 | the table becomes `Retried(old, id)`, the store invariant holds, an unknown Id changes nothing, and the pending Ids keep their order |
| Schema.UsersInsertExact | DM.Infrastructure/Data/AppDbContext.cs:35-49 | a new user keeps the users constraints exactly when the column lengths fit, phone or email is set, and UserName, PhoneNumber and Email (non-NULL) are all free |
| Schema.InsertUserExact | DM.Infrastructure/Data/AppDbContext.cs:30-51 | inserting a user keeps the whole schema valid exactly when the user is admissible; no reference to users is broken |
| Schema.InsertDeviceExact | DM.Infrastructure/Data/AppDbContext.cs:60-62 | a new device keeps the schema valid exactly when its owner exists |
| Schema.InsertUserSessionExact | DM.Infrastructure/Data/AppDbContext.cs:71-78 | a new session keeps the schema valid exactly when its user exists and its DeviceId is NULL or an existing device |
| Schema.InsertChatExact | DM.Infrastructure/Data/AppDbContext.cs:89-92 | a new chat keeps the schema valid exactly when its creator exists |
| Schema.InsertChatMemberExact | DM.Infrastructure/Data/AppDbContext.cs:99-109 | a new (ChatId, UserId) member keeps the schema valid exactly when the chat and the user exist |
| Schema.MessagesUniqueInsertExact | DM.Infrastructure/Data/AppDbContext.cs:131 | the (ChatId, ClientMessageId) index accepts a new message exactly when no message of that chat has that ClientMessageId |
| Schema.MessagesInsertExact | DM.Infrastructure/Data/AppDbContext.cs:120-140 | a new message keeps the message foreign keys and length rule exactly when its chat and sender exist and ClientMessageId is at most 64 characters |
| Schema.InsertMessageExact | DM.Infrastructure/Data/AppDbContext.cs:113-141 | inserting a message keeps the schema valid exactly when it is admissible (chat, sender, length, unique pair) |
| Schema.InsertMessageDeliveryExact | DM.Infrastructure/Data/AppDbContext.cs:147-160 | a new (MessageId, UserId) delivery keeps the schema valid exactly when the message and the user exist |
| Schema.InsertIdentityKeyExact | DM.Infrastructure/Data/AppDbContext.cs:168-172 | a new identity key keeps the schema valid exactly when its user exists |
| Schema.InsertDeviceKeyExact | DM.Infrastructure/Data/AppDbContext.cs:179-183 | a new device key keeps the schema valid exactly when its device exists |
| Schema.InsertSessionKeyExact | DM.Infrastructure/Data/AppDbContext.cs:192-204 | a new session key keeps the schema valid exactly when both devices exist and the chat, if given, exists |
| Schema.DetachDevice | DM.Infrastructure/Data/AppDbContext.cs:75-78 | SetNull: the session's DeviceId becomes NULL when it points at a deleted device; every other field is kept |
| Schema.DeleteMessageCascade | DM.Infrastructure/Data/AppDbContext.cs:152-155 | deleting a message removes it and exactly its delivery rows; the remaining rows and all other tables are unchanged |
| Schema.DeleteMessageKeepsValid | DM.Infrastructure/Data/AppDbContext.cs:152-155 | nothing restricts a message delete: the cascade always keeps the schema valid |
| Schema.DeleteDeviceCascade | DM.Infrastructure/Data/AppDbContext.cs:75-78 | deleting a device removes it and its device key, and sets DeviceId NULL on exactly the sessions that used it. Each session keeps its other fields, and the other tables are unchanged |
| Schema.DeleteDeviceKeepsValid | DM.Infrastructure/Data/AppDbContext.cs:196-204 | with no session key using the device, the device cascade keeps the schema valid |
| Schema.DeleteDeviceExact | DM.Infrastructure/Data/AppDbContext.cs:196-204 | deleting an existing device keeps the schema valid exactly when no session key references it as local or remote device |
| Schema.DeleteSessionKeyKeepsValid | DM.Infrastructure/Data/AppDbContext.cs:187-205 | nothing references a session key: removing one keeps the schema valid |
| Schema.DeleteChatCascade | DM.Infrastructure/Data/AppDbContext.cs:103-155 | deleting a chat removes exactly its members, its messages, and those messages' deliveries; everything else is kept unchanged |
| Schema.DeleteChatKeepsValid | DM.Infrastructure/Data/AppDbContext.cs:192-194 | with no session key bound to the chat, the chat cascade keeps the schema valid |
| Schema.DeleteChatExact | DM.Infrastructure/Data/AppDbContext.cs:192-194 | deleting an existing chat keeps the schema valid exactly when no session key is bound to it |
| Schema.DeleteUserCascade | DM.Infrastructure/Data/AppDbContext.cs:60-172 | deleting a user removes the user and exactly their devices, device keys of those devices, identity key, sessions, memberships and deliveries. Other sessions that used one of those devices get DeviceId NULL, and chats, messages and session keys are unchanged |
| Schema.DeleteUserKeepsValid | DM.Infrastructure/Data/AppDbContext.cs:89-204 | with no Restrict reference to the user or to their devices, the user cascade keeps the schema valid |
| Schema.DeleteUserBlockedByChat | DM.Infrastructure/Data/AppDbContext.cs:89-92 | a chat the user created would lose its creator |
| Schema.DeleteUserBlockedByMessage | DM.Infrastructure/Data/AppDbContext.cs:137-140 | a message the user sent would lose its sender |
| Schema.DeleteUserBlockedBySessionKey | DM.Infrastructure/Data/AppDbContext.cs:196-204 | a session key on one of the user's devices would lose that device |
| Schema.DeleteUserExact | DM.Infrastructure/Data/AppDbContext.cs:89-140 | deleting an existing user keeps the schema valid exactly when the user created no chat, sent no message, and owns no device a session key uses |
| Data.AppDbContext.constructor | DM.Infrastructure/Data/AppDbContext.cs:9-25 | a new store is empty, valid, and its counters start at 1 |
| Data.AppDbContext.AddUser | DM.Infrastructure/Data/AppDbContext.cs:30-51 | succeeds exactly when the user is admissible, storing it under the fresh UserId the counter gives. Reports MaxLengthExceeded exactly on a length violation, CheckConstraintViolation exactly when lengths fit but neither phone nor email is set, and UniqueIndexViolation exactly when those pass but UserName/PhoneNumber/Email is taken. A failure changes nothing |
| Data.AppDbContext.AddDevice | DM.Infrastructure/Data/AppDbContext.cs:55-63 | succeeds exactly when the owner exists, under a fresh DeviceId; otherwise ForeignKeyViolation and nothing changes |
| Data.AppDbContext.AddUserSession | DM.Infrastructure/Data/AppDbContext.cs:66-79 | DuplicateKey exactly when the SessionId exists, ForeignKeyViolation when the user or the (non-NULL) device is missing; success stores exactly that row |
| Data.AppDbContext.AddChat | DM.Infrastructure/Data/AppDbContext.cs:82-93 | succeeds exactly when the creator exists, under a fresh ChatId; otherwise ForeignKeyViolation and nothing changes |
| Data.AppDbContext.AddChatMember | DM.Infrastructure/Data/AppDbContext.cs:96-110 | DuplicateKey exactly when (ChatId, UserId) is taken, ForeignKeyViolation when the chat or user is missing; success stores exactly that row |
| Data.AppDbContext.AddMessage | DM.Infrastructure/Data/AppDbContext.cs:113-141 | DuplicateKey exactly when the MessageId exists. MaxLengthExceeded exactly when it does not and ClientMessageId exceeds 64. ForeignKeyViolation exactly when those pass but the chat or the sender is missing. UniqueIndexViolation exactly when all of those pass but the (ChatId, ClientMessageId) pair is taken. Success happens exactly when the message is admissible, and a failure changes nothing |
| Data.AppDbContext.AddMessageDelivery | DM.Infrastructure/Data/AppDbContext.cs:144-162 | DuplicateKey exactly when (MessageId, UserId) is taken; success exactly when, in addition, the message and user exist |
| Data.AppDbContext.AddIdentityKey | DM.Infrastructure/Data/AppDbContext.cs:165-173 | a second key for the same user is DuplicateKey (whether or not the first is revoked); success exactly when the user exists |
| Data.AppDbContext.AddDeviceKey | DM.Infrastructure/Data/AppDbContext.cs:176-184 | a second key for the same device is DuplicateKey; success exactly when the device exists |
| Data.AppDbContext.AddSessionKey | DM.Infrastructure/Data/AppDbContext.cs:187-205 | DuplicateKey exactly when the SessionKeyId exists; success exactly when both devices and the optional chat exist |
| Data.AppDbContext.DeleteMessage | DM.Infrastructure/Data/AppDbContext.cs:152-155 | RowNotFound exactly for an unknown message; otherwise the tables become the message cascade |
| Data.AppDbContext.DeleteDevice | DM.Infrastructure/Data/AppDbContext.cs:196-204 | RowNotFound for an unknown device, DeleteRestricted exactly when a session key uses it; otherwise the tables become the device cascade |
| Data.AppDbContext.DeleteChat | DM.Infrastructure/Data/AppDbContext.cs:192-194 | RowNotFound for an unknown chat, DeleteRestricted exactly when a session key is bound to it; otherwise the chat cascade |
| Data.AppDbContext.DeleteUser | DM.Infrastructure/Data/AppDbContext.cs:89-92 | RowNotFound for an unknown user, DeleteRestricted exactly when the user created a chat, sent a message or owns a device a session key uses; otherwise the user cascade |
| Data.AppDbContext.DeleteSessionKey | DM.Infrastructure/Data/AppDbContext.cs:187-190 | RowNotFound for an unknown key; otherwise exactly that row is removed |
| Queries.InOrderSpec | DM.Infrastructure.Tests/MessagesTests.cs:210 | ordering a set of (MessageId, ServerSequence) rows lists every row exactly once, strictly ascending by sequence (ties by MessageId) |
| Queries.InOrderUnique | DM.Infrastructure.Tests/MessagesTests.cs:210 | any strictly ascending listing of the set is that ordering |
| Queries.DeliveryStreamSpec | DM.Infrastructure.Tests/MessagesTests.cs:208-212 | the stream holds exactly the messages delivered to the user, each once, with non-decreasing ServerSequence |
| Queries.DeliveryStreamExample | DM.Infrastructure.Tests/MessagesTests.cs:200-218 | deliveries with sequence 20, 10, 30 come back as the second, first, third message |
| Queries.OtherUsersDoNotAffectStream | DM.Infrastructure.Tests/MessagesTests.cs:209 | a delivery row of another user does not change the stream |
| Queries.DeleteMessageLeavesStream | DM.Infrastructure/Data/AppDbContext.cs:152-155 | deleting a message removes it from every user's stream and keeps the others in order |
| Queries.ActiveSessionsOnlyExpire | DM.Infrastructure.Tests/UserSessionsTests.cs:143-148 | a session active at a later time was active at an earlier one |
| Queries.RevokeEndsSession | DM.Infrastructure.Tests/UserSessionsTests.cs:135-147 | setting RevokedAt ends exactly that session |
| Queries.DeleteDeviceKeepsSessions | DM.Infrastructure/Data/AppDbContext.cs:75-78 | deleting a device ends no session (SetNull only detaches them) |
| Queries.DeleteUserEndsSessions | DM.Infrastructure/Data/AppDbContext.cs:71-73 | deleting a user leaves them no active session and keeps every other user's active sessions |
| Queries.ActiveSessionsExample | DM.Infrastructure.Tests/UserSessionsTests.cs:131-151 | of an active, an expired and a revoked session only the active one is returned |
| Fixtures.SampleUserRejected | DM.Infrastructure.Tests/KeysTests.cs:14-21 | the test helper's user (no phone, no e-mail) fits every column but breaks `CK_users_phone_or_email`, so in any valid store it is not admissible and storing it breaks the schema |
| Fixtures.SampleUserWithEmailAccepted | DM.Infrastructure/Data/AppDbContext.cs:40-50 | the same user with an e-mail address no user has is admissible, and storing it keeps the schema valid |

## Left out

- Asynchrony, `CancellationToken`, concurrent consumers and `ExecuteUpdate`
  batching: the model is sequential.
- The serializer (`JsonSerializer.Serialize`): a foreign call. The payload is
  the serialized text.
- The clock: each time-stamping operation takes `now` as a parameter.
- Behaviour the code does not implement is not invented: MarkDelivered/MarkRead
  transitions, fan-out of deliveries, ServerSequence assignment, key
  revocation, and the Direct-chat member rule.
- Transactional atomicity between a domain write and `Enqueue`: the code saves
  the event in a separate `SaveChangesAsync`.
- Migrations, the seeder, MAUI start-up and the design-time factory; the EF
  metadata tests (`Model_*`).
- Provider differences: the in-memory provider enforces no foreign keys or
  lengths, and SQLite enforces no lengths. The model gives the relational
  outcome for constraints, with lengths checked as a strict-mode database
  does. The EF change tracker rejects a second tracked entity with the same
  key at `Add` rather than at save; the model reports DuplicateKey for both.
- Outbox.Take: a negative `batchSize` gives the LINQ-to-Objects result (no
  rows), as the in-memory provider returns. A relational provider turns
  `.Take(batchSize)` into `LIMIT`: SQLite reads a negative limit as no limit
  and returns every pending row, and MySQL rejects it. Neither database's
  behaviour for a negative size is modelled; for `batchSize >= 0` the three
  agree with the model.
- Schema.UsersUnique: the unique indexes (UserName, PhoneNumber, Email, and
  (ChatId, ClientMessageId) in `Schema.MessagesUnique`) compare strings
  character for character, as SQLite's default BINARY collation does. The
  production MySQL tables use the server's default utf8mb4 collation, which
  ignores case and accents, so there "bob" and "Bob" collide on the UserName
  index while the model accepts both. Collations are not modelled.
- Data.AppDbContext.DeleteChat: when session keys bound to the chat are
  tracked by the context, EF's default `ClientSetNull` clears their `ChatId`
  before the DELETE and the delete succeeds. The model gives the database's
  NO ACTION refusal, which is what happens when those session keys are not
  tracked; the change tracker's client-side null-out is not modelled.
- Exception types: the different EF and database exceptions are collapsed into
  one `DbError` value each. When a write breaks several constraints at once,
  the store reports one of them in a fixed order (duplicate key, length,
  check constraint, foreign key, unique index), and the database's own choice
  is not modelled.
- `SaveChanges` flushing other tracked changes: each write is saved alone.
- The auto-increment counters are not advanced by a failed insert. A real
  database may burn an Id, and only uniqueness and growth matter.
- Outbox.Retried: `RetryCount` is an unbounded integer; the 32-bit `int`
  column would overflow only after 2^31 retries. Event Ids (`long`) are
  unbounded likewise.
- The index on (ChatId, SentAt), (UserId, ReadAt) and (UserId,
  ServerSequence) are not unique and only speed up queries. Among delivery
  rows with the same ServerSequence the stream order is by MessageId, where
  SQL leaves it open.
- NULL in required text columns: every required text column other than
  EventType (UserName, DisplayName, Platform, AuthTokenHash,
  RefreshTokenHash, ClientMessageId, CipherText, CipherMetadata, KeyMaterial,
  PublicKey, Payload) has a non-NULL type in the model, so a NULL value and
  its RequiredValueMissing failure cannot be expressed there.

## Findings

| source | as written | input that shows it | evidently intended | confidence | as-written member | corrected member |
|---|---|---|---|---|---|---|
| DM.Infrastructure.Tests/KeysTests.cs:14-21 | the sample user sets neither PhoneNumber nor Email, and `Sqlite_Allows_IdentityKey_For_Existing_User` (KeysTests.cs:57-82) expects saving it to succeed, although the schema it creates carries `CK_users_phone_or_email` (AppDbContext.cs:47-50); the `User` entity class (DM.Domain/Entities/User.cs:5-20) does not even declare the two columns | `CreateSampleUser("user_identity")` saved into an empty SQLite store | users have a phone number or an e-mail address, as the check constraint and the contact-fields migration require; the test's sample user should carry one | medium, not executed | Fixtures.SampleUserRejected | Fixtures.SampleUserWithEmailAccepted |
