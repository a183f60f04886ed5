/**
 * The reference scenario on the stores: Alice and Bob register, Alice (logged in) writes
 * to Bob, Bob logs in and fetches his mail twice. How the dispatcher turns each request
 * into these store operations is stated by the lemmas of `Dispatcher`.
 */
module Scenario {
  import opened Wrappers
  import opened Mail
  import Text

  function AliceRegistered(h: Hasher, salt: string): Update {
    Register(Initial, h, Some("Alice A"), Some("alice"), Some("pw1"), salt)
  }

  function BothRegistered(h: Hasher, salt: string): Update {
    Register(AliceRegistered(h, salt).stores, h, Some("Bob B"), Some("bob"), Some("pw2"), salt)
  }

  /** Both registrations succeed and leave two accounts with empty mailboxes. */
  lemma Registrations(h: Hasher, salt: string)
    ensures AliceRegistered(h, salt).response == Reply(Success, Registered)
    ensures BothRegistered(h, salt).response == Reply(Success, Registered)
    ensures BothRegistered(h, salt).stores.Valid()
    ensures BothRegistered(h, salt).stores.users
              == map["alice" := User("Alice A", h.hash(salt, "pw1")), "bob" := User("Bob B", h.hash(salt, "pw2"))]
    ensures BothRegistered(h, salt).stores.emails == map["alice" := [], "bob" := []]
  {
    var s1 := AliceRegistered(h, salt).stores;
    assert s1.users == map["alice" := User("Alice A", h.hash(salt, "pw1"))];
    assert "bob" !in s1.users;
  }

  /**
   * Both logins succeed with the registered display names; Bob's first fetch returns
   * exactly Alice's email under her display name, and his second fetch returns none.
   */
  lemma AliceWritesToBob(h: Hasher, salt: string, now: string)
    requires h.AcceptsOwn()
    ensures var s := BothRegistered(h, salt).stores;
            && s.Valid()
            && Authenticate(s, h, Some("alice"), Some("pw1")) == Granted("Alice A")
            && Deliver(s, "alice", Some("bob"), Some("Hi"), Some("Hello"), now).response == Reply(Success, Sent)
            && var t := Deliver(s, "alice", Some("bob"), Some("Hi"), Some("Hello"), now).stores;
               && Authenticate(t, h, Some("bob"), Some("pw2")) == Granted("Bob B")
               && Drain(t, "bob").emails == [Email("alice", "Alice A", "bob", now, Some("Hi"), Some("Hello"))]
               && Drain(t, "bob").response == Reply(Success, "1" + ReceivedSuffix)
               && Drain(Drain(t, "bob").stores, "bob").emails == []
  {
    Registrations(h, salt);
    var s := BothRegistered(h, salt).stores;
    assert h.check("pw1", h.hash(salt, "pw1")) && h.check("pw2", h.hash(salt, "pw2"));
    var t := Deliver(s, "alice", Some("bob"), Some("Hi"), Some("Hello"), now).stores;
    assert t.emails["bob"] == [] + [Email("alice", "Alice A", "bob", now, Some("Hi"), Some("Hello"))];
    assert Text.NatToString(1) == "1";
  }
}
