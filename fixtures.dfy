/**
 * The sample user of the store tests, against the users constraints.
 *
 * The test helper builds a user with a UserName, a DisplayName of the form
 * "Display <name>", a creation time and IsActive, and sets neither PhoneNumber
 * nor Email. The users table carries the check constraint
 * `CK_users_phone_or_email`, so such a row cannot be stored; a sample user
 * with an e-mail address can.
 */
module Fixtures {
  import opened Wrappers
  import opened Entities
  import opened Schema

  /** The test helper's user, as written: no phone number and no e-mail. */
  function SampleUser(userName: string, now: Time): User {
    User(userName, "Display " + userName, now, true, None, None, None)
  }

  /** The sample user as the check constraint needs it: with an e-mail address. */
  function SampleUserWithEmail(userName: string, email: string, now: Time): User {
    User(userName, "Display " + userName, now, true, None, Some(email), None)
  }

  /**
   * Whatever the store holds, the helper's user breaks the check constraint:
   * the insert the identity-key test expects to succeed is rejected, and
   * `AddUser` reports CheckConstraintViolation for it.
   */
  lemma SampleUserRejected(t: Tables, id: int, userName: string, now: Time)
    requires Valid(t) && id !in t.users
    requires |userName| <= UserNameMaxLength
    ensures UserColumnsOk(SampleUser(userName, now)) && !PhoneOrEmail(SampleUser(userName, now))
    ensures !UserAdmissible(t.users, SampleUser(userName, now))
    ensures !Valid(t.(users := t.users[id := SampleUser(userName, now)]))
  {
    InsertUserExact(t, id, SampleUser(userName, now));
  }

  /**
   * With an e-mail address that no user has yet, the sample user is
   * admissible and the store stays valid once it is inserted.
   */
  lemma SampleUserWithEmailAccepted(t: Tables, id: int, userName: string, email: string, now: Time)
    requires Valid(t) && id !in t.users
    requires |userName| <= UserNameMaxLength && |email| <= EmailMaxLength
    requires !UserNameTaken(t.users, userName) && !EmailTaken(t.users, Some(email))
    ensures UserAdmissible(t.users, SampleUserWithEmail(userName, email, now))
    ensures Valid(t.(users := t.users[id := SampleUserWithEmail(userName, email, now)]))
  {
    InsertUserExact(t, id, SampleUserWithEmail(userName, email, now));
  }
}
