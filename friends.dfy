/**
 * The friends list (`FriendsList`): the signed-in user's friends with their
 * profiles, and for each friend a one-line summary of the newest message in
 * the user's copy of their conversation.
 */
module Friends {

  import opened Wrappers
  import opened Backend

  /** One row of the list: `{uid, username, email, photo}`. */
  datatype FriendRecord = FriendRecord(uid: string, username: string, email: string, photo: string)

  /** `{message, sender}`: what the list shows of the newest message. */
  datatype LastMessage = LastMessage(message: string, sender: Option<string>)

  /** The text shown instead of an attachment reference. */
  const ImagePlaceholder: string := "Image"

  // ---------------------------------------------------------------------------
  // fetchFriends

  /** The row built from an existing profile document `users/{uid}`. */
  function RecordOf(uid: string, p: Profile): FriendRecord
  {
    FriendRecord(uid, p.username, p.email, p.photoURL)
  }

  /** `getDoc(users/{uid})` turned into a row, or null when the document is missing. */
  function Lookup(uid: string, users: map<string, Profile>): Option<FriendRecord>
  {
    if uid in users then Some(RecordOf(uid, users[uid])) else None
  }

  /** `friendUids.map(...)`: one lookup per id, in order. */
  function LookupAll(ids: seq<string>, users: map<string, Profile>): (r: seq<Option<FriendRecord>>)
    ensures |r| == |ids|
  {
    if ids == [] then [] else LookupAll(ids[..|ids| - 1], users) + [Lookup(ids[|ids| - 1], users)]
  }

  /** `filter(friend => friend !== null)` */
  function Present<T>(xs: seq<Option<T>>): seq<T>
  {
    if xs == [] then []
    else Present(xs[..|xs| - 1]) + (match xs[|xs| - 1] case Some(x) => [x] case None => [])
  }

  /** `fetchFriends`: the rows of the friends whose profile exists. */
  function FetchFriends(ids: seq<string>, users: map<string, Profile>): seq<FriendRecord>
  {
    Present(LookupAll(ids, users))
  }

  /** The ids, in order, whose profile document exists. */
  function KnownIds(ids: seq<string>, users: map<string, Profile>): seq<string>
  {
    if ids == [] then []
    else KnownIds(ids[..|ids| - 1], users) + (if ids[|ids| - 1] in users then [ids[|ids| - 1]] else [])
  }

  /**
   * `fetchFriends` keeps, in input order, exactly the ids whose profile
   * exists, and gives each the row built from its profile.
   */
  lemma {:induction false} FetchFriendsKeepsKnownInOrder(ids: seq<string>, users: map<string, Profile>)
    ensures |FetchFriends(ids, users)| == |KnownIds(ids, users)|
    ensures forall i :: 0 <= i < |KnownIds(ids, users)| ==>
      KnownIds(ids, users)[i] in users &&
      FetchFriends(ids, users)[i] == RecordOf(KnownIds(ids, users)[i], users[KnownIds(ids, users)[i]])
  {
    if ids != [] {
      var init := ids[..|ids| - 1];
      FetchFriendsKeepsKnownInOrder(init, users);
      assert LookupAll(ids, users)[..|ids| - 1] == LookupAll(init, users);
    }
  }

  /** The ids kept are exactly those in the input with a profile; so no friend is dropped but a missing one. */
  lemma {:induction false} KnownIdsExactly(ids: seq<string>, users: map<string, Profile>)
    ensures forall id :: id in KnownIds(ids, users) <==> id in ids && id in users
    ensures |KnownIds(ids, users)| <= |ids|
  {
    if ids != [] {
      var init := ids[..|ids| - 1];
      KnownIdsExactly(init, users);
      assert ids == init + [ids[|ids| - 1]];
    }
  }

  /** Every id with a profile appears as a row built from that profile. */
  lemma FetchFriendsComplete(ids: seq<string>, users: map<string, Profile>, id: string)
    requires id in ids && id in users
    ensures RecordOf(id, users[id]) in FetchFriends(ids, users)
  {
    KnownIdsExactly(ids, users);
    FetchFriendsKeepsKnownInOrder(ids, users);
    var i :| 0 <= i < |KnownIds(ids, users)| && KnownIds(ids, users)[i] == id;
    assert FetchFriends(ids, users)[i] == RecordOf(id, users[id]);
  }

  // ---------------------------------------------------------------------------
  // getLastMessage and the row's preview line

  /** The summary of a newest entry: its text, or the placeholder for an attachment, with its sender. */
  function Summarize(m: Message): (s: LastMessage)
  {
    if !m.image then LastMessage(m.message, m.from) else LastMessage(ImagePlaceholder, m.from)
  }

  /** A text entry is summarised by its text; an attachment never shows its raw reference. */
  lemma SummarizeShows(m: Message)
    ensures Summarize(m).sender == m.from
    ensures !m.image ==> Summarize(m).message == m.message
    ensures m.image ==> Summarize(m).message == "Image"
    ensures m.image && m.message != "Image" ==> Summarize(m).message != m.message
  {
  }

  /** What a row shows under the friend's name. */
  datatype Preview = StartConversation | Line(prefix: string, text: string)

  /** The row's preview: "You: " for the user's own message, the friend's name otherwise. */
  function PreviewOf(f: FriendRecord, lastMessages: map<string, LastMessage>, uid: string): Preview
  {
    if f.uid !in lastMessages then StartConversation
    else
      var s := lastMessages[f.uid];
      Line(if s.sender == Some(uid) then "You: " else f.username + ": ", s.message)
  }

  /** No summary yet, the user's own last message, or the friend's last message. */
  lemma PreviewCases(f: FriendRecord, lastMessages: map<string, LastMessage>, uid: string)
    ensures f.uid !in lastMessages ==> PreviewOf(f, lastMessages, uid) == StartConversation
    ensures f.uid in lastMessages && lastMessages[f.uid].sender == Some(uid) ==>
      PreviewOf(f, lastMessages, uid) == Line("You: ", lastMessages[f.uid].message)
    ensures f.uid in lastMessages && lastMessages[f.uid].sender != Some(uid) ==>
      PreviewOf(f, lastMessages, uid) == Line(f.username + ": ", lastMessages[f.uid].message)
  {
  }

  class FriendsList {
    const db: Store
    /** The signed-in user. */
    const uid: string
    var friends: seq<FriendRecord>
    var lastMessages: map<string, LastMessage>

    constructor (db: Store, uid: string)
      ensures this.db == db && this.uid == uid && friends == [] && lastMessages == map[]
    {
      this.db, this.uid := db, uid;
      friends, lastMessages := [], map[];
    }

    /** The friends subscription's callback: the ids of the friend documents, turned into rows. */
    method OnFriendsSnapshot(friendUids: seq<string>)
      requires forall id :: id in friendUids <==> (uid, id) in db.friends
      modifies this`friends
      ensures friends == FetchFriends(friendUids, db.users)
      ensures forall f :: f in friends ==> (uid, f.uid) in db.friends && f.uid in db.users
    {
      friends := FetchFriends(friendUids, db.users);
      FetchFriendsKeepsKnownInOrder(friendUids, db.users);
      KnownIdsExactly(friendUids, db.users);
      forall f | f in friends
        ensures (uid, f.uid) in db.friends && f.uid in db.users
      {
        var i :| 0 <= i < |friends| && friends[i] == f;
        assert KnownIds(friendUids, db.users)[i] in KnownIds(friendUids, db.users);
      }
    }

    /** The newest-entry subscription's callback for one friend: `snapshot.forEach` over at most one entry. */
    method OnLatestSnapshot(friendUid: string, snapshot: seq<Message>)
      modifies this`lastMessages
      ensures lastMessages == if snapshot == [] then old(lastMessages)
                              else old(lastMessages)[friendUid := Summarize(snapshot[|snapshot| - 1])]
    {
      var i := 0;
      while i < |snapshot|
        invariant 0 <= i <= |snapshot|
        invariant lastMessages == if i == 0 then old(lastMessages)
                                  else old(lastMessages)[friendUid := Summarize(snapshot[i - 1])]
      {
        lastMessages := lastMessages[friendUid := Summarize(snapshot[i])];
        i := i + 1;
      }
    }

    /**
     * `getLastMessage(friend)`: one delivery of the limit-1 newest-first query.
     * Only that friend's summary changes, and only when the log is non-empty.
     */
    method RefreshLastMessage(friendUid: string)
      requires db.Valid()
      modifies this`lastMessages
      ensures var log := db.Log(uid, friendUid);
        lastMessages == if log == [] then old(lastMessages)
                        else old(lastMessages)[friendUid := Summarize(log[|log| - 1])]
    {
      OnLatestSnapshot(friendUid, db.QueryLatest(uid, friendUid));
    }
  }
}
