# chatter: a verified model of the chat client's core

Chatter is a browser chat client for one-to-one conversations over a hosted
document database. A conversation has no shared record: each message is
written twice, once into the sender's log for the friend and once into the
friend's log for the sender. Friendship is stored the same way, as two one-way
edge documents. This project models that core in Dafny. It covers:

- the attachment classifier `isImgUrl`;
- the two senders `sendMessage` and `sendImage`, with their dual write;
- the attachment URL cache fill `fetchImages`;
- the log subscription callback, which turns the newest-first query into an
  oldest-first view;
- the selection of what a message renders as;
- the friends list: `fetchFriends`, the last-message summary `getLastMessage`
  and the preview line of each row;
- the side bar's contact search `searchEmail` and the symmetric `addFriend`.

The database is plain state: the class `Backend.Store` holds the message logs
`(owner, partner) -> seq<Message>`, the friend edges `(owner, partner) -> bool`,
the profile documents `uid -> Profile`, and a counter that stands for the
server clock. The outcome of every write is a boolean parameter: true when the
write goes through, false when it fails. The storage service's download-URL
resolver is a function parameter `string -> Option<Url>`. The upload's success,
`Date.now()` and the chosen file's name are parameters too. A query snapshot
that a component receives is a parameter of that component's callback. The
store's own query functions give those snapshots for the log queries.

Modules:

- `Wrappers`: the optional value used for `null` and `undefined`.
- `Backend`: messages, profiles, the store, its log queries, `addDoc` and
  `setDoc`.
- `Attachments`: `isImgUrl`, plus an independent definition by "the text after
  the last dot".
- `Chat`: the conversation view (`src/components/ChatComponent.tsx`).
- `Friends`: the friends list (`src/components/FriendsList.tsx`).
- `Sidebar`: the side bar (`src/components/SideBar.tsx`).
- `Scenarios`: two end-to-end runs over a fresh store.

Behaviours of the code that the model keeps as they are:

- A contact search with several candidates keeps the LAST one, because each
  candidate overwrites the result in turn.
- `isImgUrl` returns `undefined` when nothing matches. The model returns
  `None`, meaning no class.
- Five listeners are never cancelled: the last-message listeners of
  src/components/FriendsList.tsx:73, the profile listener of
  src/components/SideBar.tsx:27, and the auth listeners of the pages at
  src/pages/Chat.tsx:35, src/pages/Login.tsx:10 and src/pages/Register.tsx:21.
  Every other subscription is cancelled by its effect's cleanup. The model leaves subscription lifetimes out (see below).
- `sendImage` does not check that a user is signed in. It then writes to the
  logs named with the string `"null"` and stores a null sender. The model does
  the same: `Message.from` is an `Option`.
- `sendMessage` and the log subscription test the uid for truthiness, so the
  empty string counts as signed out (`Chat.SignedIn`). The auth callback
  never stores an empty uid, and the `ChatSession` constructor requires the same.
- `searchEmail` clears the result but not the result's uid. After a search
  with no candidate, the old uid is still there. `Sidebar.SideBar.AddFriend`
  can be called in that state and then writes edges for the stale uid. The
  component never calls it then, because the "Add friend" button is shown only
  while a result is set (src/components/SideBar.tsx:65), and a search that sets
  a result sets its uid with it.

## Model

| member | source | states |
|---|---|---|
| `Backend.Append` | src/components/ChatComponent.tsx:103-104 | one `addDoc` adds the message at the end of that one log, creating the log if it is absent; every other log is unchanged |
| `Backend.Store.AddDoc` | src/components/ChatComponent.tsx:103 | a successful write appends the payload stamped with the current server time and advances the clock; a failed write changes nothing; every log stays in server-clock order |
| `Backend.Store.SetFriend` | src/components/SideBar.tsx:89-91 | a successful `setDoc` stores the edge `(owner, partner)` with `friend: true`; a failed one changes nothing |
| `Backend.Store.QueryNewestFirst` | src/components/ChatComponent.tsx:35-38 | the `orderBy("createdAt", "desc")` query returns the log newest first, and reversing it gives back the stored log |
| `Backend.Store.QueryLatest` | src/components/FriendsList.tsx:67-71 | with `limit(1)`, the query returns nothing for an empty log and otherwise just the last entry, whose timestamp is the largest in the log |
| `Backend.ReversedNewestFirst` | src/components/ChatComponent.tsx:40-44 | reversing a newest-first snapshot gives timestamps in non-decreasing order |
| `Attachments.Classify` | src/components/ChatComponent.tsx:208-220 | `isImgUrl`: the three end-anchored patterns tried in the order photo, video, audio; the first match gives the class, and no match gives no class |
| `Attachments.EndsWithDotIff` | src/components/ChatComponent.tsx:209 | for an extension without a dot, an end-anchored match of `.ext` holds exactly when the text after the last dot is `ext` |
| `Attachments.EndsWithAnyIff` | src/components/ChatComponent.tsx:209-217 | an alternation of end-anchored extensions matches exactly when the text after the last dot is one of them |
| `Attachments.ClassifyByExtension` | src/components/ChatComponent.tsx:208-220 | `isImgUrl` gives photo, video, audio or no class by looking up the text after the last dot in the three tables (jpg jpeg png webp avif gif; mp4 webm ogg; mp3 wav); with no dot there is no class |
| `Attachments.ClassifyNamed` | src/components/ChatComponent.tsx:208-220 | a reference of the form `p.e`, with `e` dot-free, is classified by `e` alone |
| `Attachments.ClassifyPhotoExample` | src/components/ChatComponent.tsx:209-210 | `a.png` is a photo |
| `Attachments.ClassifyVideoExample` | src/components/ChatComponent.tsx:213-214 | `a.mp4` is a video |
| `Attachments.ClassifyAudioExample` | src/components/ChatComponent.tsx:217-218 | `a.mp3` is audio |
| `Attachments.ClassifyDocumentExample` | src/components/ChatComponent.tsx:208-220 | `a.pdf` has no class, because the function ends without returning |
| `Attachments.ClassifyUploadPathExample` | src/components/ChatComponent.tsx:209-210 | the storage path `images/A/123.png` is a photo |
| `Attachments.ClassifyCaseSensitiveExample` | src/components/ChatComponent.tsx:209 | matching is case-sensitive: `a.PNG` has no class |
| `Attachments.ClassifyAnchoredExample` | src/components/ChatComponent.tsx:209 | matching is anchored at the end: `a.png.txt` has no class |
| `Chat.DecimalString` | src/components/ChatComponent.tsx:228 | `String(Date.now())` is non-empty and has no dot |
| `Chat.AttachmentKindFollowsFileName` | src/components/ChatComponent.tsx:228-230 | the stored reference `gs://bucket/images/{uid}/{time}{name}` has the same class as the uploaded file's name, whatever the uid and the time |
| `Chat.UploadPath` | src/components/ChatComponent.tsx:228 | the upload path `images/{uid}/{Date.now()}{file name}`, with `String(uid)` giving `"null"` when there is no uid |
| `Chat.AttachmentRef` | src/components/ChatComponent.tsx:230 | the stored reference `gs://{bucket}/{fullPath}` |
| `Chat.DualAppend` | src/components/ChatComponent.tsx:102-107 | the logs and clock after the two sequential `addDoc` calls of a send: a failed first write skips the second, and a failed second write keeps the first |
| `Chat.DualAppendDelivered` | src/components/ChatComponent.tsx:102-104 | when both writes succeed, `log(me, friend)` and `log(friend, me)` each gain exactly one entry with the same payload, and no other log changes |
| `Chat.DualAppendToSelf` | src/components/ChatComponent.tsx:103-104 | a message to oneself lands twice in the single log `(me, me)` |
| `Chat.DualAppendFirstFails` | src/components/ChatComponent.tsx:102-107 | when the first write fails, the second is not attempted and the store is unchanged |
| `Chat.DualAppendSecondFails` | src/components/ChatComponent.tsx:102-107 | when only the second write fails, the sender's log keeps the new entry and the friend's log is unchanged; nothing is rolled back |
| `Chat.DualAppendKeepsReplicated` | src/components/ChatComponent.tsx:103-104 | a delivered send keeps the two copies of a conversation payload-identical, in the same order |
| `Chat.DualAppendSecondFailsBreaksReplication` | src/components/ChatComponent.tsx:104-107 | a send whose second write fails leaves the two copies different: the conversation is partially replicated |
| `Chat.InterleavedSendsBreakReplication` | src/components/ChatComponent.tsx:103-104 | when A's first write, B's first write, A's second and B's second happen in that order, each log holds both messages but in opposite orders, so the two copies are no longer payload-identical |
| `Chat.Missing` | src/components/ChatComponent.tsx:81-84 | the references resolved, in message order: those of attachment messages absent from the cache as it was when the fill started |
| `Chat.Fill` | src/components/ChatComponent.tsx:81-90 | the cache with each requested reference set to its resolved URL, or no cache when some resolution fails, as a rejected `Promise.all` skips `setImageUrls` |
| `Chat.MissingExactly` | src/components/ChatComponent.tsx:82-84 | the references handed to the resolver are exactly those of attachment messages that were not in the cache; a cached reference is never resolved again |
| `Chat.FillResult` | src/components/ChatComponent.tsx:81-90 | the fill fails exactly when some resolution fails; a successful fill adds exactly the resolved keys, gives each its resolved URL, and keeps every other key's value |
| `Chat.FetchImagesFrame` | src/components/ChatComponent.tsx:77-91 | after a successful fill, every cached key keeps its URL, every attachment reference of the log is cached, and every new key is an attachment's reference; text messages never add keys |
| `Chat.Render` | src/components/ChatComponent.tsx:111-206 | what one message renders as: its text for a text message; for an attachment, media of its class with the cached URL or the loader, or nothing when it has no class; the side is whether the sender is the user |
| `Chat.RenderText` | src/components/ChatComponent.tsx:111-126 | a text message renders as its text, whatever its suffix, on the right when its sender is the user and on the left otherwise |
| `Chat.RenderUnclassified` | src/components/ChatComponent.tsx:127-206 | an attachment whose reference has no class renders nothing |
| `Chat.RenderMedia` | src/components/ChatComponent.tsx:127-206 | a classified attachment renders as media of its class, showing the cached URL, or a loading placeholder while the reference is not cached |
| `Chat.RenderTextNamedLikePhoto` | src/components/ChatComponent.tsx:112-116 | a text message `a.png` from the user is shown as text, not as a photo |
| `Chat.ChatSession.PostToBoth` | src/components/ChatComponent.tsx:102-107 | the two sequential `addDoc` calls of a send leave the store exactly as `DualAppend` describes, with errors swallowed |
| `Chat.ChatSession.SendMessage` | src/components/ChatComponent.tsx:93-109 | without a truthy uid, or with an empty input, nothing changes; otherwise the input is cleared and `{message: text, from: uid, image: false}` is written to both logs |
| `Chat.ChatSession.SendImage` | src/components/ChatComponent.tsx:226-245 | with no file chosen, or when the upload fails, nothing is written; otherwise `{message: "gs://bucket/fullPath", from: uid, image: true}` is written to both logs in the same way |
| `Chat.ChatSession.FetchImages` | src/components/ChatComponent.tsx:77-91 | the resolver is asked only for the missing references; the cache becomes the filled copy when every resolution succeeds, and stays as it was when any fails |
| `Chat.ChatSession.OnLogSnapshot` | src/components/ChatComponent.tsx:39-45 | the displayed list is the reverse of the snapshot, and it is oldest first when the snapshot is newest first |
| `Chat.ChatSession.DeliverLog` | src/components/ChatComponent.tsx:33-49 | one delivery of the log subscription shows exactly the stored log `(uid, friend)`, in non-decreasing `createdAt` order |
| `Friends.FetchFriends` | src/components/FriendsList.tsx:46-59 | `fetchFriends`: one lookup per id in input order, a row from each existing profile, and missing profiles filtered out |
| `Friends.FetchFriendsKeepsKnownInOrder` | src/components/FriendsList.tsx:46-60 | `fetchFriends` returns, in input order, one row per id whose profile exists, built from that profile |
| `Friends.KnownIdsExactly` | src/components/FriendsList.tsx:51-59 | the ids kept are exactly the input ids that have a profile document; missing ones are dropped |
| `Friends.FetchFriendsComplete` | src/components/FriendsList.tsx:47-59 | every listed id with a profile appears as a row built from that profile |
| `Friends.Summarize` | src/components/FriendsList.tsx:75-89 | the summary stored for an entry: its text, or "Image" for an attachment, with its sender |
| `Friends.SummarizeShows` | src/components/FriendsList.tsx:75-89 | the summary's sender is the entry's sender; its text is the message text for a text entry and "Image" for an attachment, never the raw reference |
| `Friends.PreviewOf` | src/components/FriendsList.tsx:99-107 | the preview line of a friend row, chosen from the stored summary |
| `Friends.PreviewCases` | src/components/FriendsList.tsx:99-107 | with no summary the row shows "Start a new conversation..."; otherwise the prefix is "You: " when the sender is the user and the friend's username otherwise |
| `Friends.FriendsList.OnFriendsSnapshot` | src/components/FriendsList.tsx:22-34 | the rows shown are `fetchFriends` of the friend-document ids, so each is a stored friend edge of the user with an existing profile |
| `Friends.FriendsList.OnLatestSnapshot` | src/components/FriendsList.tsx:73-92 | an empty snapshot changes nothing; otherwise only that friend's key changes, to the summary of the entry delivered |
| `Friends.FriendsList.RefreshLastMessage` | src/components/FriendsList.tsx:66-93 | one delivery of the limit-1 query sets the friend's summary from the newest entry of `log(uid, friend)`, and changes nothing for an empty log |
| `Sidebar.LastOther` | src/components/SideBar.tsx:56-61 | the index of the last snapshot document whose e-mail differs from the caller's, and only an index inside the snapshot |
| `Sidebar.LastOtherIsLastCandidate` | src/components/SideBar.tsx:56-61 | the kept document is the last one whose e-mail differs from the caller's; there is none exactly when every document is the caller's own |
| `Sidebar.SideBar.SearchEmail` | src/components/SideBar.tsx:51-62 | the result is reset first, then set to the last matching user who is not the caller; the result uid is updated only when such a user exists |
| `Sidebar.EdgeWrites` | src/components/SideBar.tsx:89-95 | the friend edges after the two sequential `setDoc` calls; with no `try`, a failed first write stops the second |
| `Sidebar.AddFriendStoresBothEdges` | src/components/SideBar.tsx:89-95 | a completed add stores both `(uid, other)` and `(other, uid)` with `friend: true` and touches no other edge |
| `Sidebar.AddFriendKeepsSymmetric` | src/components/SideBar.tsx:89-95 | a completed add keeps the friend relation mutual |
| `Sidebar.AddFriendHalfDoneBreaksSymmetry` | src/components/SideBar.tsx:93-95 | when the second write fails, the one-way edge left behind breaks the mutual relation |
| `Sidebar.SideBar.AddFriend` | src/components/SideBar.tsx:84-96 | the input and the result are cleared only for a non-empty input; the two edge writes happen in either case, and the second only after the first succeeded; the call completes only when both succeed |
| `Scenarios.SendTextScenario` | src/components/ChatComponent.tsx:93-109 | after A sends "hi" to B, both logs hold the single entry `{hi, A, text}`, and A's friends list shows "You: hi" for B |
| `Scenarios.SendPictureScenario` | src/components/ChatComponent.tsx:226-245 | after A sends `123.png` to B, the stored entry is an attachment classified as a photo, and B's list shows "A: Image" |

## Left out

- The database, storage and auth SDK calls (`addDoc`, `setDoc`, `getDoc`, `getDocs`, `onSnapshot`, `getDownloadURL`, `uploadBytes`, `onAuthStateChanged`): they are foreign library calls. The store is a class, the resolver is a function parameter, and each write's success is a parameter.
- The e-mail `where` query of `searchEmail` and the friend-id listing of the friends subscription: their results are parameters. Their preconditions state what those snapshots contain.
- Chat.DualAppendKeepsReplicated: its same-order claim holds only for sends whose writes do not interleave. Two sends in opposite directions can interleave their writes, and then the copies hold the same messages in opposite orders (`Chat.InterleavedSendsBreakReplication`).
- Chat.Render: the side is the sender. The alignment follows it for every kind except audio: an audio attachment from the friend is right-aligned like the user's own (src/components/ChatComponent.tsx:194).
- `serverTimestamp()`: a store counter that each successful write advances by one. The two copies of one message therefore get consecutive timestamps.
- Subscription lifetimes, unsubscription and the async interleaving of `Promise.all` and listeners: this is event plumbing, not sequential logic. Each callback is modelled as one delivery. The never-cancelled listeners listed above are not captured.
- A failing `getDoc` inside `fetchFriends`: it would reject `Promise.all`. The model treats every lookup as answered, with the profile or with "not found".
- `uploadBytes`' returned `fullPath`: the model takes it to be the path the file was uploaded to.
- `messageText.current` and `search.current` being null: the inputs are always rendered while the handlers can run, so the model always has an input value.
- `fetchProfile`, `showImage`, `back`, `scrollToBottom`, `signOutUser` and the side bar's own profile subscription: these are UI or session plumbing.
- All JSX markup and styling. Rendering is modelled only as the choice of what a message or a friend row shows.
- src/components/ImagePreview.tsx, src/pages/Login.tsx, src/pages/Register.tsx, src/pages/Chat.tsx, src/App.tsx, src/config/firebase.tsx and src/config/controller.tsx are not part of this model. The storage bucket name from src/config/firebase.tsx is the one constant taken over.
