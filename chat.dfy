/**
 * The conversation view (`ChatComponent`): one signed-in user, one selected
 * friend, the live log of their conversation, the attachment URL cache, and
 * the two ways of sending (text and attachment), each of which writes the same
 * payload into both parties' logs.
 */
module Chat {

  import opened Wrappers
  import opened Backend
  import opened Attachments

  /** `firebaseConfig.storageBucket` */
  const Bucket: string := "chatter-8b355.appspot.com"

  /** A download URL from the storage service: never the empty string. */
  type Url = s: string | s != "" witness "u"

  /** A truthy uid: present and not the empty string. */
  predicate SignedIn(uid: Option<string>)
  {
    uid.Some? && uid.value != ""
  }

  /** `String(x)` for a value of type `string | null`. */
  function NullString(x: Option<string>): string
  {
    match x
    case Some(s) => s
    case None => "null"
  }

  /** `String(n)` for a non-negative integer: its decimal digits. */
  function DecimalString(n: nat): (r: string)
    ensures |r| > 0 && '.' !in r
  {
    var digit := "0123456789"[n % 10];
    if n < 10 then [digit] else DecimalString(n / 10) + [digit]
  }

  // ---------------------------------------------------------------------------
  // Attachment references

  /** The storage path an attachment is uploaded to: `images/{uid}/{Date.now()}{file name}`. */
  function UploadPath(uid: Option<string>, now: nat, fileName: string): string
  {
    "images/" + NullString(uid) + "/" + DecimalString(now) + fileName
  }

  /** The reference stored in the message: `gs://{bucket}/{fullPath}`. */
  function AttachmentRef(fullPath: string): string
  {
    "gs://" + Bucket + "/" + fullPath
  }

  /** An attachment's class is decided by the uploaded file's own name, whatever the uid and time. */
  lemma AttachmentKindFollowsFileName(uid: Option<string>, now: nat, fileName: string)
    ensures Classify(AttachmentRef(UploadPath(uid, now, fileName))) == Classify(fileName)
  {
    var r := AttachmentRef(UploadPath(uid, now, fileName));
    var a := "gs://" + Bucket + "/" + "images/" + NullString(uid);
    var tail := "/" + DecimalString(now);
    var b := tail + fileName;
    assert r == a + b;
    ClassifyByExtension(r);
    ClassifyByExtension(fileName);
    ExtensionOfConcat(tail, fileName);
    ExtensionOfConcat(a, b);
    if '.' !in fileName {
      assert '.' !in tail;
      assert '.' !in b;
      if Extension(a).Some? {
        var x := Extension(a).value;
        assert (x + b)[|x|] == '/';
        KindOfSlash(x + b);
      }
    }
  }

  // ---------------------------------------------------------------------------
  // The dual write: the same payload appended to (a, b) and then to (b, a)

  /**
   * The logs and clock after the two sequential `addDoc` calls of a send.
   * A failed first write skips the second; a failed second write leaves the
   * first in place. Nothing is rolled back.
   */
  function DualAppend(logs: map<Key, seq<Message>>, clock: nat, a: string, b: string, d: NewMessage,
                      firstOk: bool, secondOk: bool): (map<Key, seq<Message>>, nat)
  {
    if !firstOk then (logs, clock)
    else
      var once := Append(logs, a, b, Stamp(d, clock));
      if !secondOk then (once, clock + 1)
      else (Append(once, b, a, Stamp(d, clock + 1)), clock + 2)
  }

  /** The two copies of a conversation hold the same payloads in the same order. */
  ghost predicate Replicated(logs: map<Key, seq<Message>>, a: string, b: string)
  {
    Payloads(LogOf(logs, a, b)) == Payloads(LogOf(logs, b, a))
  }

  /** A delivered send to another user: each log gains one entry with the same payload; no other log changes. */
  lemma DualAppendDelivered(logs: map<Key, seq<Message>>, clock: nat, a: string, b: string, d: NewMessage)
    requires a != b
    ensures var (after, clock') := DualAppend(logs, clock, a, b, d, true, true);
      && LogOf(after, a, b) == LogOf(logs, a, b) + [Stamp(d, clock)]
      && LogOf(after, b, a) == LogOf(logs, b, a) + [Stamp(d, clock + 1)]
      && clock' == clock + 2
      && forall o, p :: (o, p) != (a, b) && (o, p) != (b, a) ==> LogOf(after, o, p) == LogOf(logs, o, p)
  {
  }

  /** Writing to oneself appends the payload twice to the one log. */
  lemma DualAppendToSelf(logs: map<Key, seq<Message>>, clock: nat, a: string, d: NewMessage)
    ensures var (after, _) := DualAppend(logs, clock, a, a, d, true, true);
      LogOf(after, a, a) == LogOf(logs, a, a) + [Stamp(d, clock), Stamp(d, clock + 1)]
  {
  }

  /** A failed first write changes nothing and the second is never attempted. */
  lemma DualAppendFirstFails(logs: map<Key, seq<Message>>, clock: nat, a: string, b: string, d: NewMessage, secondOk: bool)
    ensures DualAppend(logs, clock, a, b, d, false, secondOk) == (logs, clock)
  {
  }

  /** A failed second write leaves the message in the sender's log only. */
  lemma DualAppendSecondFails(logs: map<Key, seq<Message>>, clock: nat, a: string, b: string, d: NewMessage)
    requires a != b
    ensures var (after, clock') := DualAppend(logs, clock, a, b, d, true, false);
      && LogOf(after, a, b) == LogOf(logs, a, b) + [Stamp(d, clock)]
      && LogOf(after, b, a) == LogOf(logs, b, a)
      && clock' == clock + 1
  {
  }

  /** A delivered send keeps the two copies of the conversation in step. */
  lemma DualAppendKeepsReplicated(logs: map<Key, seq<Message>>, clock: nat, a: string, b: string, d: NewMessage)
    requires Replicated(logs, a, b)
    ensures Replicated(DualAppend(logs, clock, a, b, d, true, true).0, a, b)
  {
    if a != b {
      PayloadsAppend(LogOf(logs, a, b), Stamp(d, clock));
      PayloadsAppend(LogOf(logs, b, a), Stamp(d, clock + 1));
    }
  }

  /** A send whose second write fails leaves the conversation partially replicated. */
  lemma DualAppendSecondFailsBreaksReplication(logs: map<Key, seq<Message>>, clock: nat, a: string, b: string, d: NewMessage)
    requires a != b && Replicated(logs, a, b)
    ensures !Replicated(DualAppend(logs, clock, a, b, d, true, false).0, a, b)
  {
    var after := DualAppend(logs, clock, a, b, d, true, false).0;
    assert |Payloads(LogOf(after, a, b))| == |Payloads(LogOf(logs, b, a))| + 1;
  }

  /**
   * Two sends in opposite directions whose writes interleave: a's first write,
   * then b's first, then a's second, then b's second. Each log holds both
   * payloads, but in opposite orders, so the copies are no longer replicated.
   */
  lemma InterleavedSendsBreakReplication(logs: map<Key, seq<Message>>, clock: nat, a: string, b: string,
                                         fromA: NewMessage, fromB: NewMessage)
    requires a != b && fromA != fromB && Replicated(logs, a, b)
    ensures var l1 := Append(logs, a, b, Stamp(fromA, clock));
      var l2 := Append(l1, b, a, Stamp(fromB, clock + 1));
      var l3 := Append(l2, b, a, Stamp(fromA, clock + 2));
      var l4 := Append(l3, a, b, Stamp(fromB, clock + 3));
      && LogOf(l4, a, b) == LogOf(logs, a, b) + [Stamp(fromA, clock), Stamp(fromB, clock + 3)]
      && LogOf(l4, b, a) == LogOf(logs, b, a) + [Stamp(fromB, clock + 1), Stamp(fromA, clock + 2)]
      && !Replicated(l4, a, b)
  {
    var l1 := Append(logs, a, b, Stamp(fromA, clock));
    var l2 := Append(l1, b, a, Stamp(fromB, clock + 1));
    var l3 := Append(l2, b, a, Stamp(fromA, clock + 2));
    var l4 := Append(l3, a, b, Stamp(fromB, clock + 3));
    var ab, ba := LogOf(l4, a, b), LogOf(l4, b, a);
    assert ab == LogOf(logs, a, b) + [Stamp(fromA, clock), Stamp(fromB, clock + 3)];
    assert ba == LogOf(logs, b, a) + [Stamp(fromB, clock + 1), Stamp(fromA, clock + 2)];
    var n := |LogOf(logs, a, b)|;
    assert |LogOf(logs, b, a)| == n by {
      assert |Payloads(LogOf(logs, a, b))| == |Payloads(LogOf(logs, b, a))|;
    }
    PayloadsAt(ab, n);
    PayloadsAt(ba, n);
    assert ab[n] == Stamp(fromA, clock) && ba[n] == Stamp(fromB, clock + 1);
    assert Payloads(ab)[n] != Payloads(ba)[n];
  }

  // ---------------------------------------------------------------------------
  // Filling the attachment URL cache

  /**
   * The references `fetchImages` resolves, in message order: those of attachment
   * messages not already in the cache. Every check runs against the cache as it
   * was when the fill started, because all checks happen before the first
   * resolution completes.
   */
  function Missing(cache: map<string, Url>, msgs: seq<Message>): seq<string>
  {
    if msgs == [] then []
    else
      var m := msgs[|msgs| - 1];
      Missing(cache, msgs[..|msgs| - 1]) + (if m.image && m.message !in cache then [m.message] else [])
  }

  /** The cache after resolving `refs`, or None when some resolution fails. */
  function Fill(cache: map<string, Url>, refs: seq<string>, resolve: string -> Option<Url>): Option<map<string, Url>>
  {
    if refs == [] then Some(cache)
    else
      match Fill(cache, refs[..|refs| - 1], resolve)
      case None => None
      case Some(c) =>
        match resolve(refs[|refs| - 1])
        case None => None
        case Some(u) => Some(c[refs[|refs| - 1] := u])
  }

  lemma MissingStep(cache: map<string, Url>, msgs: seq<Message>, i: nat)
    requires i < |msgs|
    ensures Missing(cache, msgs[..i + 1]) == Missing(cache, msgs[..i]) +
      (if msgs[i].image && msgs[i].message !in cache then [msgs[i].message] else [])
  {
    assert msgs[..i + 1][..i] == msgs[..i];
  }

  lemma FillStep(cache: map<string, Url>, refs: seq<string>, r: string, resolve: string -> Option<Url>)
    ensures Fill(cache, refs + [r], resolve) ==
      match Fill(cache, refs, resolve)
      case None => None
      case Some(c) => (match resolve(r) case None => None case Some(u) => Some(c[r := u]))
  {
    assert (refs + [r])[..|refs|] == refs;
  }

  /** Exactly the uncached attachment references are resolved; no cached one is resolved again. */
  lemma {:induction false} MissingExactly(cache: map<string, Url>, msgs: seq<Message>)
    ensures forall r :: r in Missing(cache, msgs) ==> r !in cache
    ensures forall r :: r in Missing(cache, msgs) ==> exists i :: 0 <= i < |msgs| && msgs[i].image && msgs[i].message == r
    ensures forall i :: 0 <= i < |msgs| && msgs[i].image && msgs[i].message !in cache ==> msgs[i].message in Missing(cache, msgs)
  {
    if msgs != [] {
      var init := msgs[..|msgs| - 1];
      MissingExactly(cache, init);
      forall r | r in Missing(cache, msgs)
        ensures exists i :: 0 <= i < |msgs| && msgs[i].image && msgs[i].message == r
      {
        if r in Missing(cache, init) {
          var i :| 0 <= i < |init| && init[i].image && init[i].message == r;
          assert msgs[i] == init[i];
        } else {
          assert msgs[|msgs| - 1].message == r;
        }
      }
      forall i | 0 <= i < |msgs| && msgs[i].image && msgs[i].message !in cache
        ensures msgs[i].message in Missing(cache, msgs)
      {
        if i < |init| {
          assert init[i] == msgs[i];
        }
      }
    }
  }

  /** A successful fill keeps every key outside `refs`, and gives each reference its resolved URL. */
  lemma {:induction false} FillResult(cache: map<string, Url>, refs: seq<string>, resolve: string -> Option<Url>)
    ensures Fill(cache, refs, resolve).None? <==> exists i :: 0 <= i < |refs| && resolve(refs[i]).None?
    ensures Fill(cache, refs, resolve).Some? ==>
      var c := Fill(cache, refs, resolve).value;
      && c.Keys == cache.Keys + (set r | r in refs)
      && (forall k :: k in cache && k !in refs ==> c[k] == cache[k])
      && (forall r :: r in refs ==> resolve(r) == Some(c[r]))
  {
    if refs != [] {
      var init, last := refs[..|refs| - 1], refs[|refs| - 1];
      FillResult(cache, init, resolve);
      assert refs == init + [last];
      if (exists i :: 0 <= i < |init| && resolve(init[i]).None?) {
        var i :| 0 <= i < |init| && resolve(init[i]).None?;
        assert refs[i] == init[i];
      }
      if (exists i :: 0 <= i < |refs| && resolve(refs[i]).None?) {
        var i :| 0 <= i < |refs| && resolve(refs[i]).None?;
        if i < |init| {
          assert init[i] == refs[i];
        }
      }
      if Fill(cache, refs, resolve).Some? {
        var c := Fill(cache, refs, resolve).value;
        var c0 := Fill(cache, init, resolve).value;
        assert c == c0[last := resolve(last).value];
        assert (set r | r in refs) == (set r | r in init) + {last};
      }
    }
  }

  /**
   * The frame of `fetchImages`: after a successful fill every cached key keeps
   * its URL, every attachment reference of the log is cached, and every new key
   * is the reference of an attachment message (text messages never add keys).
   */
  lemma FetchImagesFrame(cache: map<string, Url>, msgs: seq<Message>, resolve: string -> Option<Url>)
    requires Fill(cache, Missing(cache, msgs), resolve).Some?
    ensures var c := Fill(cache, Missing(cache, msgs), resolve).value;
      && (forall k :: k in cache ==> k in c && c[k] == cache[k])
      && (forall i :: 0 <= i < |msgs| && msgs[i].image ==> msgs[i].message in c)
      && (forall k :: k in c && k !in cache ==> exists i :: 0 <= i < |msgs| && msgs[i].image && msgs[i].message == k)
  {
    MissingExactly(cache, msgs);
    FillResult(cache, Missing(cache, msgs), resolve);
  }

  // ---------------------------------------------------------------------------
  // Rendering one message

  /**
   * Whose message a bubble shows: the user's own or the friend's. It picks the
   * bubble's colours and, for every kind but audio, its alignment; a friend's
   * audio is right-aligned like the user's own.
   */
  datatype Side = Mine | Theirs

  /** What `renderMessages` produces for one message; `src == None` is the loading placeholder. */
  datatype Bubble = TextBubble(side: Side, text: string) | MediaBubble(side: Side, kind: MediaKind, src: Option<Url>) | NoBubble

  function Render(m: Message, uid: Option<string>, urls: map<string, Url>): Bubble
  {
    var side := if m.from == uid then Mine else Theirs;
    if !m.image then TextBubble(side, m.message)
    else
      match Classify(m.message)
      case None => NoBubble
      case Some(k) => MediaBubble(side, k, if m.message in urls then Some(urls[m.message]) else None)
  }

  /** A text message renders as its text whatever its suffix, on the sender's side. */
  lemma RenderText(m: Message, uid: Option<string>, urls: map<string, Url>)
    requires !m.image
    ensures Render(m, uid, urls) == TextBubble(if m.from == uid then Mine else Theirs, m.message)
  {
  }

  /** An attachment whose reference has no class renders nothing. */
  lemma RenderUnclassified(m: Message, uid: Option<string>, urls: map<string, Url>)
    requires m.image && Classify(m.message).None?
    ensures Render(m, uid, urls) == NoBubble
  {
  }

  /** A classified attachment shows its cached URL, or a placeholder until it is resolved. */
  lemma RenderMedia(m: Message, uid: Option<string>, urls: map<string, Url>)
    requires m.image && Classify(m.message).Some?
    ensures Render(m, uid, urls).MediaBubble?
    ensures Render(m, uid, urls).kind == Classify(m.message).value
    ensures Render(m, uid, urls).src == if m.message in urls then Some(urls[m.message]) else None
  {
  }

  /** A text message that looks like a picture name is still shown as text. */
  lemma RenderTextNamedLikePhoto(uid: string)
    ensures Render(Message("a.png", Some(uid), 0, false), Some(uid), map[]) == TextBubble(Mine, "a.png")
  {
    ClassifyPhotoExample();
  }

  // ---------------------------------------------------------------------------
  // The view's state

  class ChatSession {
    const db: Store
    const friend: string
    var uid: Option<string>
    /** The text input's current value. */
    var input: string
    /** The log as displayed, oldest first. */
    var messages: seq<Message>
    /** `imageUrls`: attachment reference to download URL. */
    var imageUrls: map<string, Url>

    /** The auth callback stores `user?.uid || null`: a uid, when present, is never empty. */
    constructor (db: Store, friend: string, uid: Option<string>)
      requires uid != Some("")
      ensures this.db == db && this.friend == friend && this.uid == uid
      ensures input == "" && messages == [] && imageUrls == map[]
    {
      this.db, this.friend, this.uid := db, friend, uid;
      input, messages, imageUrls := "", [], map[];
    }

    /** The try block of a send: two `addDoc` calls in sequence, errors swallowed. */
    method PostToBoth(a: string, b: string, d: NewMessage, firstOk: bool, secondOk: bool)
      requires db.Valid()
      modifies db
      ensures db.Valid()
      ensures (db.logs, db.clock) == DualAppend(old(db.logs), old(db.clock), a, b, d, firstOk, secondOk)
      ensures db.friends == old(db.friends) && db.users == old(db.users)
    {
      var written := db.AddDoc(a, b, d, firstOk);
      if written {
        written := db.AddDoc(b, a, d, secondOk);
      }
    }

    /**
     * `sendMessage`: with a signed-in (truthy) uid and a non-empty input, clear the
     * input and write `{message: text, from: uid, image: false}` to both logs;
     * otherwise change nothing.
     */
    method SendMessage(firstOk: bool, secondOk: bool)
      requires db.Valid()
      modifies this`input, db
      ensures db.Valid()
      ensures !(SignedIn(uid) && old(input) != "") ==>
        input == old(input) && db.logs == old(db.logs) && db.clock == old(db.clock)
      ensures SignedIn(uid) && old(input) != "" ==>
        && input == ""
        && (db.logs, db.clock) == DualAppend(old(db.logs), old(db.clock), uid.value, friend,
                                             NewMessage(old(input), uid, false), firstOk, secondOk)
      ensures db.friends == old(db.friends) && db.users == old(db.users)
    {
      if SignedIn(uid) && input != "" {
        var d := NewMessage(input, uid, false);
        input := "";
        PostToBoth(uid.value, friend, d, firstOk, secondOk);
      }
    }

    /**
     * `sendImage`: upload the first chosen file (if any) and, once the upload
     * succeeds, write `{message: "gs://bucket/fullPath", from: uid, image: true}`
     * to both logs. There is no sign-in check: without a uid the path segment
     * is the string "null" and the sender is null.
     */
    method SendImage(file: Option<string>, now: nat, uploadOk: bool, firstOk: bool, secondOk: bool)
      requires db.Valid()
      modifies db
      ensures db.Valid()
      ensures (file.None? || !uploadOk) ==> db.logs == old(db.logs) && db.clock == old(db.clock)
      ensures file.Some? && uploadOk ==>
        (db.logs, db.clock) == DualAppend(old(db.logs), old(db.clock), NullString(uid), friend,
                                          NewMessage(AttachmentRef(UploadPath(uid, now, file.value)), uid, true),
                                          firstOk, secondOk)
      ensures db.friends == old(db.friends) && db.users == old(db.users)
    {
      if file.Some? {
        var fullPath := UploadPath(uid, now, file.value);
        if uploadOk {
          var d := NewMessage(AttachmentRef(fullPath), uid, true);
          PostToBoth(NullString(uid), friend, d, firstOk, secondOk);
        }
      }
    }

    /**
     * `fetchImages`: resolve every uncached attachment reference of the log
     * and, when all resolutions succeed, install the filled copy of the cache.
     * `requested` lists the references handed to the resolver.
     */
    method FetchImages(resolve: string -> Option<Url>) returns (requested: seq<string>)
      modifies this`imageUrls
      ensures requested == Missing(old(imageUrls), messages)
      ensures imageUrls == match Fill(old(imageUrls), requested, resolve)
                           case Some(c) => c
                           case None => old(imageUrls)
    {
      // Every check below runs before the first resolution completes, so it sees the cache as it was.
      var before := imageUrls;
      var newImageUrls := before;
      var failed := false;
      requested := [];
      var i := 0;
      while i < |messages|
        invariant 0 <= i <= |messages|
        invariant imageUrls == before
        invariant requested == Missing(before, messages[..i])
        invariant failed <==> Fill(before, requested, resolve).None?
        invariant !failed ==> Fill(before, requested, resolve) == Some(newImageUrls)
      {
        var m := messages[i];
        MissingStep(before, messages, i);
        if m.image && m.message !in before {
          FillStep(before, requested, m.message, resolve);
          requested := requested + [m.message];
          match resolve(m.message)
          case None =>
            failed := true;
          case Some(url) =>
            newImageUrls := newImageUrls[m.message := url];
        }
        i := i + 1;
      }
      assert messages[..i] == messages;
      if !failed {
        imageUrls := newImageUrls;
      }
    }

    /** The log subscription's callback: push every document of the snapshot, then reverse. */
    method OnLogSnapshot(snapshot: seq<Message>)
      modifies this`messages
      ensures messages == Reversed(snapshot)
      ensures NewestFirst(snapshot) ==> OldestFirst(messages)
    {
      var messagesArray: seq<Message> := [];
      var i := 0;
      while i < |snapshot|
        invariant 0 <= i <= |snapshot|
        invariant messagesArray == snapshot[..i]
      {
        messagesArray := messagesArray + [snapshot[i]];
        i := i + 1;
      }
      assert snapshot[..i] == snapshot;
      messages := Reversed(messagesArray);
      if NewestFirst(snapshot) {
        ReversedNewestFirst(snapshot);
      }
    }

    /** One delivery of the newest-first log query: the view becomes the log itself, oldest first. */
    method DeliverLog()
      requires SignedIn(uid) && db.Valid()
      modifies this`messages
      ensures messages == db.Log(uid.value, friend)
      ensures OldestFirst(messages)
    {
      OnLogSnapshot(db.QueryNewestFirst(uid.value, friend));
    }
  }
}
