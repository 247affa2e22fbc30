/**
 * The two read queries the store is used for:
 *  - a user's delivery stream: the MessageIds of the user's delivery rows in
 *    ServerSequence order;
 *  - a user's active sessions: not revoked and not yet expired at `now`.
 *
 * The (UserId, ServerSequence) index is not unique, so SQL leaves the order of
 * two rows with the same sequence number open; the model orders such rows by
 * MessageId.
 */
module Queries {
  import opened Wrappers
  import opened Entities
  import opened Schema

  // ---------------------------------------------------------------------------
  // Deliveries in server order

  /** A delivery row as the stream sees it: (MessageId, ServerSequence). */
  type Entry = (Guid, int)

  /** The stream order: by ServerSequence, ties by MessageId. */
  predicate Before(a: Entry, b: Entry) {
    a.1 < b.1 || (a.1 == b.1 && a.0 <= b.0)
  }

  /** The user's delivery rows. */
  function UserEntries(deliveries: map<DeliveryKey, MessageDelivery>, userId: int): set<Entry> {
    set k | k in deliveries && k.1 == userId :: (k.0, deliveries[k].serverSequence)
  }

  /** Strictly ascending in the stream order. */
  predicate Ascending(s: seq<Entry>) {
    forall i, j :: 0 <= i < j < |s| ==> Before(s[i], s[j]) && s[i] != s[j]
  }

  /** Every non-empty finite set of entries has a least element. */
  lemma {:induction false} LeastExists(s: set<Entry>)
    requires s != {}
    ensures exists x :: x in s && forall y :: y in s ==> Before(x, y)
    decreases |s|
  {
    var z :| z in s;
    if s - {z} == {} {
      assert s == {z};
    } else {
      LeastExists(s - {z});
      var m :| m in s - {z} && forall y :: y in s - {z} ==> Before(m, y);
      if !Before(m, z) {
        forall y | y in s ensures Before(z, y) {
          if y != z {
            assert y in s - {z} && Before(m, y);
          }
        }
      }
    }
  }

  /** The entries in stream order (selection of the least entry, repeatedly). */
  ghost function InOrder(s: set<Entry>): seq<Entry>
    decreases |s|
  {
    if s == {} then []
    else
      LeastExists(s);
      var x :| x in s && forall y :: y in s ==> Before(x, y);
      [x] + InOrder(s - {x})
  }

  /** The MessageIds of a sequence of entries. */
  function MessageIds(s: seq<Entry>): (r: seq<Guid>)
    ensures |r| == |s|
    ensures forall i :: 0 <= i < |s| ==> r[i] == s[i].0
  {
    seq(|s|, i requires 0 <= i < |s| => s[i].0)
  }

  /**
   * `MessageDeliveries.Where(UserId == userId).OrderBy(ServerSequence)
   * .Select(MessageId)`.
   */
  ghost function DeliveryStream(deliveries: map<DeliveryKey, MessageDelivery>, userId: int): seq<Guid> {
    MessageIds(InOrder(UserEntries(deliveries, userId)))
  }

  /** InOrder lists every entry of the set once, in strictly ascending order. */
  lemma {:induction false} InOrderSpec(s: set<Entry>)
    ensures |InOrder(s)| == |s|
    ensures forall x :: x in InOrder(s) <==> x in s
    ensures Ascending(InOrder(s))
    decreases |s|
  {
    if s != {} {
      LeastExists(s);
      var x :| x in s && forall y :: y in s ==> Before(x, y);
      assert InOrder(s) == [x] + InOrder(s - {x});
      InOrderSpec(s - {x});
    }
  }

  /** The tail of an ascending sequence is ascending. */
  lemma AscendingTail(s: seq<Entry>)
    requires Ascending(s) && s != []
    ensures Ascending(s[1..])
  {
    var tail := s[1..];
    forall i, j | 0 <= i < j < |tail| ensures Before(tail[i], tail[j]) && tail[i] != tail[j] {
      assert tail[i] == s[i + 1] && tail[j] == s[j + 1];
    }
  }

  /** The head of a non-empty ascending listing of a set is the set's least entry. */
  lemma AscendingHeadLeast(s: set<Entry>, r: seq<Entry>)
    requires Ascending(r) && r != []
    requires forall x :: x in r <==> x in s
    ensures r[0] in s && forall y :: y in s ==> Before(r[0], y)
    ensures forall y :: y in r[1..] <==> y in s - {r[0]}
  {
    forall y | y in s ensures Before(r[0], y) {
      var j :| 0 <= j < |r| && r[j] == y;
      if j > 0 {
        assert Before(r[0], r[j]);
      }
    }
    forall y ensures y in r[1..] <==> y in s - {r[0]} {
      if y in r[1..] {
        var j :| 1 <= j < |r| && r[j] == y;
        assert r[0] != r[j];
      }
    }
  }

  /** A strictly ascending listing of a set is the one InOrder gives. */
  lemma {:induction false} InOrderUnique(s: set<Entry>, r: seq<Entry>)
    requires Ascending(r)
    requires forall x :: x in r <==> x in s
    ensures InOrder(s) == r
    decreases |r|
  {
    if r == [] {
      assert s == {};
    } else {
      AscendingHeadLeast(s, r);
      AscendingTail(r);
      var x := r[0];
      assert InOrder(s) == [x] + InOrder(s - {x});
      InOrderUnique(s - {x}, r[1..]);
    }
  }

  /**
   * The stream holds exactly the messages delivered to the user, each once,
   * in non-decreasing ServerSequence order.
   */
  lemma DeliveryStreamSpec(deliveries: map<DeliveryKey, MessageDelivery>, userId: int)
    ensures var r := DeliveryStream(deliveries, userId);
      && (forall m :: m in r <==> (m, userId) in deliveries)
      && (forall i, j :: 0 <= i < j < |r| ==> r[i] != r[j])
      && (forall i, j :: 0 <= i < j < |r| ==>
            deliveries[(r[i], userId)].serverSequence <= deliveries[(r[j], userId)].serverSequence)
  {
    var s := UserEntries(deliveries, userId);
    var e := InOrder(s);
    var r := MessageIds(e);
    InOrderSpec(s);
    forall i | 0 <= i < |e| ensures (e[i].0, userId) in deliveries && e[i].1 == deliveries[(e[i].0, userId)].serverSequence {
      assert e[i] in s;
    }
    forall m ensures m in r <==> (m, userId) in deliveries {
      if (m, userId) in deliveries {
        var x := (m, deliveries[(m, userId)].serverSequence);
        assert x in s;
        var i :| 0 <= i < |e| && e[i] == x;
        assert r[i] == m;
      }
    }
  }

  /** Delivery rows of other users do not change a user's stream. */
  lemma OtherUsersDoNotAffectStream(deliveries: map<DeliveryKey, MessageDelivery>, key: DeliveryKey,
                                     d: MessageDelivery, userId: int)
    requires key.1 != userId
    ensures DeliveryStream(deliveries[key := d], userId) == DeliveryStream(deliveries, userId)
  {
    assert UserEntries(deliveries[key := d], userId) == UserEntries(deliveries, userId);
  }

  /** The stream without one message, order kept. */
  function Without(r: seq<Guid>, m: Guid): (r': seq<Guid>)
    ensures forall x :: x in r' <==> x in r && x != m
  {
    if r == [] then []
    else (if r[0] == m then [] else [r[0]]) + Without(r[1..], m)
  }

  function DropMessage(s: seq<Entry>, m: Guid): (s': seq<Entry>)
    ensures forall x :: x in s' <==> x in s && x.0 != m
  {
    if s == [] then []
    else (if s[0].0 == m then [] else [s[0]]) + DropMessage(s[1..], m)
  }

  /** An entry before every entry of an ascending sequence can be put in front of it. */
  lemma AscendingCons(x: Entry, rest: seq<Entry>)
    requires Ascending(rest)
    requires forall y :: y in rest ==> Before(x, y) && x != y
    ensures Ascending([x] + rest)
  {
    var s := [x] + rest;
    forall i, j | 0 <= i < j < |s| ensures Before(s[i], s[j]) && s[i] != s[j] {
      assert s[j] == rest[j - 1];
      if i > 0 {
        assert s[i] == rest[i - 1];
      }
    }
  }

  lemma {:induction false} DropMessageAscending(s: seq<Entry>, m: Guid)
    requires Ascending(s)
    ensures Ascending(DropMessage(s, m))
    decreases |s|
  {
    if s != [] {
      var tail := s[1..];
      AscendingTail(s);
      DropMessageAscending(tail, m);
      var rest := DropMessage(tail, m);
      if s[0].0 != m {
        forall y | y in rest ensures Before(s[0], y) && s[0] != y {
          var j :| 0 <= j < |tail| && tail[j] == y;
          assert s[j + 1] == y;
        }
        AscendingCons(s[0], rest);
      }
    }
  }

  lemma {:induction false} DropMessageIds(s: seq<Entry>, m: Guid)
    ensures MessageIds(DropMessage(s, m)) == Without(MessageIds(s), m)
    decreases |s|
  {
    if s != [] {
      DropMessageIds(s[1..], m);
      var ids := MessageIds(s);
      assert ids[0] == s[0].0 && ids[1..] == MessageIds(s[1..]);
      var head := if s[0].0 == m then [] else [s[0]];
      assert MessageIds(head + DropMessage(s[1..], m)) == MessageIds(head) + MessageIds(DropMessage(s[1..], m));
    }
  }

  /**
   * Deleting a message removes it from every user's stream and leaves the
   * rest of the stream in the same order.
   */
  lemma DeleteMessageLeavesStream(t: Tables, id: Guid, userId: int)
    ensures DeliveryStream(DeleteMessageCascade(t, id).messageDeliveries, userId) ==
            Without(DeliveryStream(t.messageDeliveries, userId), id)
  {
    var s := UserEntries(t.messageDeliveries, userId);
    var s' := UserEntries(DeleteMessageCascade(t, id).messageDeliveries, userId);
    InOrderSpec(s);
    DropMessageAscending(InOrder(s), id);
    DropMessageIds(InOrder(s), id);
    InOrderUnique(s', DropMessage(InOrder(s), id));
  }

  /**
   * The ordering scenario of the messages test: three messages delivered to
   * Bob with sequence numbers 20, 10 and 30 come back as the second, the
   * first, the third.
   */
  lemma DeliveryStreamExample(m1: Guid, m2: Guid, m3: Guid, bob: int, d: MessageDelivery)
    requires m1 != m2 && m2 != m3 && m1 != m3
    ensures DeliveryStream(map[(m1, bob) := d.(serverSequence := 20), (m2, bob) := d.(serverSequence := 10),
                               (m3, bob) := d.(serverSequence := 30)], bob) == [m2, m1, m3]
  {
    var deliveries := map[(m1, bob) := d.(serverSequence := 20), (m2, bob) := d.(serverSequence := 10),
                          (m3, bob) := d.(serverSequence := 30)];
    var e := [(m2, 10), (m1, 20), (m3, 30)];
    assert UserEntries(deliveries, bob) == {(m1, 20), (m2, 10), (m3, 30)};
    InOrderUnique(UserEntries(deliveries, bob), e);
  }

  // ---------------------------------------------------------------------------
  // Active sessions

  /** Not revoked and not yet expired. */
  predicate IsActive(s: UserSession, now: Time) {
    s.revokedAt.None? && s.expiresAt > now
  }

  /** `UserSessions.Where(UserId == userId && RevokedAt == null && ExpiresAt > now)`. */
  function ActiveSessions(sessions: map<Guid, UserSession>, userId: int, now: Time): (r: set<Guid>)
    ensures r <= sessions.Keys
  {
    set s | s in sessions && sessions[s].userId == userId && IsActive(sessions[s], now)
  }

  /** A session that is active later was active earlier: sessions only expire. */
  lemma ActiveSessionsOnlyExpire(sessions: map<Guid, UserSession>, userId: int, now: Time, later: Time)
    requires now <= later
    ensures ActiveSessions(sessions, userId, later) <= ActiveSessions(sessions, userId, now)
  {
  }

  /** Revoking a session ends exactly that session. */
  lemma RevokeEndsSession(sessions: map<Guid, UserSession>, id: Guid, at: Time, userId: int, now: Time)
    requires id in sessions
    ensures ActiveSessions(sessions[id := sessions[id].(revokedAt := Some(at))], userId, now) ==
            ActiveSessions(sessions, userId, now) - {id}
  {
  }

  /** Deleting a device detaches its sessions (DeviceId NULL) but ends none of them. */
  lemma DeleteDeviceKeepsSessions(t: Tables, deviceId: int, userId: int, now: Time)
    ensures ActiveSessions(DeleteDeviceCascade(t, deviceId).userSessions, userId, now) ==
            ActiveSessions(t.userSessions, userId, now)
  {
    var r := DeleteDeviceCascade(t, deviceId);
    forall s | s in t.userSessions
      ensures r.userSessions[s].userId == t.userSessions[s].userId &&
              (IsActive(r.userSessions[s], now) <==> IsActive(t.userSessions[s], now))
    {
      assert r.userSessions[s].(deviceId := t.userSessions[s].deviceId) == t.userSessions[s];
    }
  }

  /**
   * Deleting a user ends all of that user's sessions and leaves the active
   * sessions of every other user as they were.
   */
  lemma DeleteUserEndsSessions(t: Tables, id: int, userId: int, now: Time)
    ensures ActiveSessions(DeleteUserCascade(t, id).userSessions, id, now) == {}
    ensures userId != id ==>
      ActiveSessions(DeleteUserCascade(t, id).userSessions, userId, now) == ActiveSessions(t.userSessions, userId, now)
  {
    var r := DeleteUserCascade(t, id);
    var gone := OwnedDevices(t, id);
    forall s | s in r.userSessions
      ensures r.userSessions[s].userId == t.userSessions[s].userId && r.userSessions[s].userId != id &&
              (IsActive(r.userSessions[s], now) <==> IsActive(t.userSessions[s], now))
    {
      assert r.userSessions[s] == DetachDevice(t.userSessions[s], gone);
    }
  }

  /**
   * The scenario of the sessions test: of an active, an expired and a revoked
   * session of one user, only the active one is returned.
   */
  lemma ActiveSessionsExample(active: Guid, expired: Guid, revoked: Guid, s: UserSession, now: Time)
    requires active != expired && expired != revoked && active != revoked
    requires IsActive(s, now)
    ensures ActiveSessions(map[active := s, expired := s.(expiresAt := now - 3600),
                               revoked := s.(revokedAt := Some(now))], s.userId, now) == {active}
  {
  }
}
