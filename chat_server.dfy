/**
 * The backend's in-memory store: a duplicate-free list of usernames and an
 * append-only list of messages, with the four request handlers
 * POST /users, GET /users, POST /messages and GET /messages.
 * Each request is one atomic call; the server clock is the `time`
 * argument of PostMessage.
 */
module ChatServer {

  /** A chat message as the server stores and returns it. */
  datatype Message = Message(username: string, text: string, time: string)

  /** No username occurs twice. */
  predicate NoDuplicates(s: seq<string>) {
    forall i, j :: 0 <= i < j < |s| ==> s[i] != s[j]
  }

  /** The user list after a join of `name`: appended when absent, unchanged
      when already present. */
  function Joined(users: seq<string>, name: string): (r: seq<string>)
    ensures name in r
    ensures name in users ==> r == users
    ensures name !in users ==> |r| == |users| + 1 && r[..|users|] == users && r[|users|] == name
    ensures forall u :: u in r <==> u in users || u == name
    ensures NoDuplicates(users) ==> NoDuplicates(r)
  {
    if name in users then users else users + [name]
  }

  /** The user list after a series of joins, in order. */
  function JoinAll(users: seq<string>, names: seq<string>): seq<string>
    decreases |names|
  {
    if names == [] then users else JoinAll(Joined(users, names[0]), names[1..])
  }

  /** A series of joins never drops or reorders an earlier entry, and ends
      up holding exactly the earlier users and the joined names. */
  lemma {:induction false} JoinAllMembers(users: seq<string>, names: seq<string>)
    ensures |users| <= |JoinAll(users, names)| && JoinAll(users, names)[..|users|] == users
    ensures forall u :: u in JoinAll(users, names) <==> u in users || u in names
    decreases |names|
  {
    if names != [] {
      var next := Joined(users, names[0]);
      JoinAllMembers(next, names[1..]);
      var r := JoinAll(next, names[1..]);
      assert r[..|users|] == r[..|next|][..|users|];
      forall u
        ensures u in r <==> u in users || u in names
      {
        assert u in names <==> u == names[0] || u in names[1..];
      }
    }
  }

  /** Any series of joins keeps the user list duplicate-free. */
  lemma {:induction false} JoinAllKeepsInvariant(users: seq<string>, names: seq<string>)
    requires NoDuplicates(users)
    ensures NoDuplicates(JoinAll(users, names))
    decreases |names|
  {
    if names != [] {
      JoinAllKeepsInvariant(Joined(users, names[0]), names[1..]);
    }
  }

  /** Joining names that are all listed already changes nothing. */
  lemma {:induction false} JoinAllOfListed(users: seq<string>, names: seq<string>)
    requires forall n :: n in names ==> n in users
    ensures JoinAll(users, names) == users
    decreases |names|
  {
    if names != [] {
      assert names[0] in names;
      forall n | n in names[1..] ensures n in users {
        assert n in names;
      }
      JoinAllOfListed(users, names[1..]);
    }
  }

  /** Joins are idempotent: repeating a whole series of joins (a single
      join included) leaves the user list as the first round left it. */
  lemma JoinIsIdempotent(users: seq<string>, names: seq<string>)
    ensures JoinAll(JoinAll(users, names), names) == JoinAll(users, names)
  {
    JoinAllMembers(users, names);
    JoinAllOfListed(JoinAll(users, names), names);
  }

  /** The message history only grows at its end: the old history is a prefix
      of the new one. */
  predicate IsPrefix(before: seq<Message>, after: seq<Message>) {
    |before| <= |after| && after[..|before|] == before
  }

  class Store {
    var users: seq<string>
    var messages: seq<Message>

    /** The store's invariant: the user list has no duplicates. */
    ghost predicate Valid()
      reads this
    {
      NoDuplicates(users)
    }

    /** Both lists start empty when the process starts. */
    constructor ()
      ensures Valid()
      ensures users == [] && messages == []
    {
      users := [];
      messages := [];
    }

    /** POST /users: append the name unless it is already there. */
    method JoinUser(username: string)
      requires Valid()
      modifies this
      ensures Valid()
      ensures users == Joined(old(users), username)
      ensures messages == old(messages)
    {
      if username !in users {
        users := users + [username];
      }
    }

    /** GET /users: the current user list, nothing changed. */
    method ListUsers() returns (r: seq<string>)
      requires Valid()
      ensures r == users
      ensures NoDuplicates(r)
    {
      r := users;
    }

    /** POST /messages: stamp, append and return the message. Whether the
        poster has joined is not checked. */
    method PostMessage(username: string, text: string, time: string) returns (m: Message)
      modifies this
      ensures m == Message(username, text, time)
      ensures messages == old(messages) + [m]
      ensures IsPrefix(old(messages), messages) && |messages| == |old(messages)| + 1
      ensures users == old(users)
    {
      m := Message(username, text, time);
      messages := messages + [m];
    }

    /** GET /messages: the whole history, nothing changed. */
    method ListMessages() returns (r: seq<Message>)
      ensures r == messages
    {
      r := messages;
    }
  }

  /** A join, a listing, a post and a listing on a fresh store give the one
      user and the one stamped message. */
  method JoinAndPostScenario(now: string) returns (listedUsers: seq<string>, posted: Message, listedMessages: seq<Message>)
    ensures listedUsers == ["alice"]
    ensures posted == Message("alice", "hi", now)
    ensures listedMessages == [posted]
  {
    var store := new Store();
    store.JoinUser("alice");
    listedUsers := store.ListUsers();
    posted := store.PostMessage("alice", "hi", now);
    listedMessages := store.ListMessages();
  }

  /** The same name joined twice is listed once. */
  method JoinTwiceScenario() returns (listed: seq<string>)
    ensures listed == ["bob"]
  {
    var store := new Store();
    store.JoinUser("bob");
    store.JoinUser("bob");
    listed := store.ListUsers();
  }

  /** Messages posted one after another are listed in arrival order, from
      any starting history and whoever posts them. */
  method ArrivalOrderScenario(store: Store, m1: Message, m2: Message, m3: Message)
      returns (listed: seq<Message>)
    modifies store
    ensures listed == old(store.messages) + [m1, m2, m3]
    ensures store.users == old(store.users)
  {
    var _ := store.PostMessage(m1.username, m1.text, m1.time);
    var _ := store.PostMessage(m2.username, m2.text, m2.time);
    var _ := store.PostMessage(m3.username, m3.text, m3.time);
    listed := store.ListMessages();
  }
}
