/**
 * Whole-system runs over a fresh store: what two users see after a text and
 * after an attachment, derived from the components' contracts alone.
 */
module Scenarios {

  import opened Wrappers
  import opened Backend
  import opened Attachments
  import opened Chat
  import opened Friends

  /** A sends "hi" to B: both logs hold the one entry, and A's list shows it as A's own. */
  method SendTextScenario(a: string, b: string) returns (logAB: seq<Message>, logBA: seq<Message>, preview: Preview)
    requires a != b && a != ""
    ensures logAB == [Message("hi", Some(a), 0, false)]
    ensures logBA == [Message("hi", Some(a), 1, false)]
    ensures preview == Line("You: ", "hi")
  {
    var db := new Store(map[]);
    var chat := new ChatSession(db, b, Some(a));
    chat.input := "hi";
    chat.SendMessage(true, true);
    logAB, logBA := db.Log(a, b), db.Log(b, a);
    var list := new FriendsList(db, a);
    list.RefreshLastMessage(b);
    preview := PreviewOf(FriendRecord(b, "B", "b@example.com", ""), list.lastMessages, a);
  }

  /**
   * A sends the picture `123.png` to B: the stored entry is an attachment whose
   * reference classifies as a photo, and B's list shows the placeholder from A.
   */
  method SendPictureScenario(a: string, b: string, now: nat) returns (entry: Message, preview: Preview)
    requires a != b && a != ""
    ensures entry.image && entry.from == Some(a) && Classify(entry.message) == Some(Photo)
    ensures preview == Line("A: ", "Image")
  {
    var db := new Store(map[]);
    var chat := new ChatSession(db, b, Some(a));
    chat.SendImage(Some("123.png"), now, true, true, true);
    ghost var d := NewMessage(AttachmentRef(UploadPath(Some(a), now, "123.png")), Some(a), true);
    assert db.Log(b, a) == [Stamp(d, 1)];
    entry := db.Log(b, a)[0];
    assert entry.message == AttachmentRef(UploadPath(Some(a), now, "123.png"));
    PictureFileIsPhoto(Some(a), now);
    var list := new FriendsList(db, b);
    list.RefreshLastMessage(a);
    preview := PreviewOf(FriendRecord(a, "A", "a@example.com", ""), list.lastMessages, b);
  }

  /** An uploaded `123.png` is stored under a reference that classifies as a photo. */
  lemma PictureFileIsPhoto(uid: Option<string>, now: nat)
    ensures Classify(AttachmentRef(UploadPath(uid, now, "123.png"))) == Some(Photo)
  {
    AttachmentKindFollowsFileName(uid, now, "123.png");
    assert "123.png" == "123" + "." + "png";
    ClassifyNamed("123", "png");
  }
}
