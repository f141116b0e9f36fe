/**
 * The document store the client talks to, as plain state.
 *
 * The store holds three collections: the per-party message logs
 * `users/{owner}/friends/{partner}/messages`, the friend-marker documents
 * `users/{owner}/friends/{partner}` and the profile documents `users/{uid}`.
 * The server clock behind `serverTimestamp()` is a counter that every
 * successful write advances by one.
 */
module Backend {

  import opened Wrappers

  /** A stored message document: `{message, from, createdAt, image}`. */
  datatype Message = Message(message: string, from: Option<string>, createdAt: nat, image: bool)

  /** The payload a client writes; the server fills in `createdAt`. */
  datatype NewMessage = NewMessage(message: string, from: Option<string>, image: bool)

  /** A profile document `users/{uid}`. */
  datatype Profile = Profile(username: string, email: string, photoURL: string)

  /** An (owner, partner) pair: the two-part key of a log and of a friend edge. */
  type Key = (string, string)

  /** The document the server stores for payload `d` written at time `t`. */
  function Stamp(d: NewMessage, t: nat): Message
  {
    Message(d.message, d.from, t, d.image)
  }

  /** The payload of a stored message: everything but the server timestamp. */
  function Payload(m: Message): NewMessage
  {
    NewMessage(m.message, m.from, m.image)
  }

  /** The payloads of a log, in log order. */
  function Payloads(s: seq<Message>): (r: seq<NewMessage>)
    ensures |r| == |s|
  {
    if s == [] then [] else Payloads(s[..|s| - 1]) + [Payload(s[|s| - 1])]
  }

  lemma {:induction false} PayloadsAt(s: seq<Message>, i: nat)
    requires i < |s|
    ensures Payloads(s)[i] == Payload(s[i])
  {
    if i < |s| - 1 {
      PayloadsAt(s[..|s| - 1], i);
    }
  }

  lemma PayloadsAppend(s: seq<Message>, m: Message)
    ensures Payloads(s + [m]) == Payloads(s) + [Payload(m)]
  {
    assert (s + [m])[..|s|] == s;
  }

  /** A log is absent until its first message is written: it reads as empty. */
  function LogOf(logs: map<Key, seq<Message>>, owner: string, partner: string): seq<Message>
  {
    if (owner, partner) in logs then logs[(owner, partner)] else []
  }

  /** `addDoc` on one log: the log, created if absent, gains `m` at its end. */
  function Append(logs: map<Key, seq<Message>>, owner: string, partner: string, m: Message): (r: map<Key, seq<Message>>)
    ensures LogOf(r, owner, partner) == LogOf(logs, owner, partner) + [m]
    ensures forall o, p :: (o, p) != (owner, partner) ==> LogOf(r, o, p) == LogOf(logs, o, p)
    ensures r.Keys == logs.Keys + {(owner, partner)}
  {
    logs[(owner, partner) := LogOf(logs, owner, partner) + [m]]
  }

  /** Strictly increasing timestamps: the order the server clock gives a log. */
  ghost predicate Chronological(s: seq<Message>)
  {
    forall i, j :: 0 <= i < j < |s| ==> s[i].createdAt < s[j].createdAt
  }

  /** Every timestamp of `s` lies before `clock`. */
  ghost predicate Before(s: seq<Message>, clock: nat)
  {
    forall i :: 0 <= i < |s| ==> s[i].createdAt < clock
  }

  /** Non-decreasing timestamps: the order the chat view promises. */
  ghost predicate OldestFirst(s: seq<Message>)
  {
    forall i, j :: 0 <= i < j < |s| ==> s[i].createdAt <= s[j].createdAt
  }

  /** Non-increasing timestamps: `orderBy("createdAt", "desc")`. */
  ghost predicate NewestFirst(s: seq<Message>)
  {
    forall i, j :: 0 <= i < j < |s| ==> s[i].createdAt >= s[j].createdAt
  }

  function Reversed<T>(s: seq<T>): (r: seq<T>)
    ensures |r| == |s|
  {
    if s == [] then [] else [s[|s| - 1]] + Reversed(s[..|s| - 1])
  }

  lemma {:induction false} ReversedAt<T>(s: seq<T>, i: nat)
    requires i < |s|
    ensures Reversed(s)[i] == s[|s| - 1 - i]
  {
    if i > 0 {
      ReversedAt(s[..|s| - 1], i - 1);
    }
  }

  lemma ReversedTwice<T>(s: seq<T>)
    ensures Reversed(Reversed(s)) == s
  {
    forall i | 0 <= i < |s|
      ensures Reversed(Reversed(s))[i] == s[i]
    {
      ReversedAt(Reversed(s), i);
      ReversedAt(s, |s| - 1 - i);
    }
  }

  /** Reading a log newest-first and reversing it yields oldest-first. */
  lemma ReversedNewestFirst(s: seq<Message>)
    requires NewestFirst(s)
    ensures OldestFirst(Reversed(s))
  {
    forall i, j | 0 <= i < j < |s|
      ensures Reversed(s)[i].createdAt <= Reversed(s)[j].createdAt
    {
      ReversedAt(s, i);
      ReversedAt(s, j);
    }
  }

  lemma ReversedChronological(s: seq<Message>)
    requires Chronological(s)
    ensures NewestFirst(Reversed(s))
  {
    forall i, j | 0 <= i < j < |s|
      ensures Reversed(s)[i].createdAt >= Reversed(s)[j].createdAt
    {
      ReversedAt(s, i);
      ReversedAt(s, j);
    }
  }

  /** The whole store. */
  class Store {
    var logs: map<Key, seq<Message>>
    var friends: map<Key, bool>
    var users: map<string, Profile>
    var clock: nat

    /** Every log is in server-clock order and was written before `clock`. */
    ghost predicate Valid()
      reads this
    {
      forall k :: k in logs ==> Chronological(logs[k]) && Before(logs[k], clock)
    }

    constructor (users: map<string, Profile>)
      ensures Valid()
      ensures logs == map[] && friends == map[] && this.users == users && clock == 0
    {
      logs, friends, this.users, clock := map[], map[], users, 0;
    }

    function Log(owner: string, partner: string): seq<Message>
      reads this
    {
      LogOf(logs, owner, partner)
    }

    /** `query(log, orderBy("createdAt", "desc"))`: the log, newest first. */
    function QueryNewestFirst(owner: string, partner: string): (q: seq<Message>)
      reads this
      requires Valid()
      ensures NewestFirst(q)
      ensures Reversed(q) == Log(owner, partner)
    {
      var log := Log(owner, partner);
      assert Chronological(log) by {
        if (owner, partner) in logs {
          assert log == logs[(owner, partner)];
        }
      }
      ReversedChronological(log);
      ReversedTwice(log);
      Reversed(log)
    }

    /** The same query with `limit(1)`: at most the newest entry. */
    function QueryLatest(owner: string, partner: string): (q: seq<Message>)
      reads this
      requires Valid()
      ensures Log(owner, partner) == [] ==> q == []
      ensures Log(owner, partner) != [] ==> q == [Log(owner, partner)[|Log(owner, partner)| - 1]]
      ensures forall i :: 0 <= i < |q| ==> forall j :: 0 <= j < |Log(owner, partner)| ==>
        Log(owner, partner)[j].createdAt <= q[i].createdAt
    {
      var all := QueryNewestFirst(owner, partner);
      if all == [] then [] else
        ReversedAt(Log(owner, partner), 0);
        ReversedTwice(Log(owner, partner));
        all[..1]
    }

    /** `addDoc` of payload `d` to the log (owner, partner); `ok` says whether the write goes through. */
    method AddDoc(owner: string, partner: string, d: NewMessage, ok: bool) returns (written: bool)
      requires Valid()
      modifies this
      ensures Valid()
      ensures written == ok
      ensures logs == if ok then Append(old(logs), owner, partner, Stamp(d, old(clock))) else old(logs)
      ensures clock == if ok then old(clock) + 1 else old(clock)
      ensures friends == old(friends) && users == old(users)
    {
      written := ok;
      if ok {
        var log := Log(owner, partner);
        assert Chronological(log) && Before(log, clock) by {
          if (owner, partner) in logs {
            assert log == logs[(owner, partner)];
          }
        }
        logs := Append(logs, owner, partner, Stamp(d, clock));
        clock := clock + 1;
        assert logs[(owner, partner)] == log + [Stamp(d, clock - 1)];
      }
    }

    /** `setDoc(users/{owner}/friends/{partner}, {friend: true})`; `ok` says whether the write goes through. */
    method SetFriend(owner: string, partner: string, ok: bool) returns (written: bool)
      requires Valid()
      modifies this`friends
      ensures Valid()
      ensures written == ok
      ensures friends == if ok then old(friends)[(owner, partner) := true] else old(friends)
    {
      written := ok;
      if ok {
        friends := friends[(owner, partner) := true];
      }
    }
  }
}
