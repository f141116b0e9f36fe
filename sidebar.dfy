/**
 * The side bar (`SideBar`): the contact search by e-mail and the symmetric
 * friend add.
 */
module Sidebar {

  import opened Wrappers
  import opened Backend

  /** A document of the users collection: its id and its data. */
  datatype UserDoc = UserDoc(id: string, data: Profile)

  /** `String(x)` for a value of type `string | undefined`. */
  function UndefinedString(x: Option<string>): string
  {
    match x
    case Some(s) => s
    case None => "undefined"
  }

  // ---------------------------------------------------------------------------
  // searchEmail

  /** `doc.data().email !== email`: the document is not the caller's own (an unset caller e-mail excludes nothing). */
  predicate IsOther(doc: UserDoc, callerEmail: Option<string>)
  {
    callerEmail != Some(doc.data.email)
  }

  /** The position of the last document that is not the caller's own, if any. */
  function LastOther(docs: seq<UserDoc>, callerEmail: Option<string>): (r: Option<nat>)
    ensures r.Some? ==> r.value < |docs|
  {
    if docs == [] then None
    else if IsOther(docs[|docs| - 1], callerEmail) then Some(|docs| - 1)
    else LastOther(docs[..|docs| - 1], callerEmail)
  }

  /** With several candidates the last one wins; with none, there is no result. */
  lemma {:induction false} LastOtherIsLastCandidate(docs: seq<UserDoc>, callerEmail: Option<string>)
    ensures LastOther(docs, callerEmail).None? <==> forall i :: 0 <= i < |docs| ==> !IsOther(docs[i], callerEmail)
    ensures LastOther(docs, callerEmail).Some? ==>
      var i := LastOther(docs, callerEmail).value;
      && i < |docs| && IsOther(docs[i], callerEmail)
      && forall j :: i < j < |docs| ==> !IsOther(docs[j], callerEmail)
  {
    if docs != [] && !IsOther(docs[|docs| - 1], callerEmail) {
      var init := docs[..|docs| - 1];
      LastOtherIsLastCandidate(init, callerEmail);
      assert forall i :: 0 <= i < |init| ==> init[i] == docs[i];
    }
  }

  // ---------------------------------------------------------------------------
  // addFriend

  /** The friend edges after `setDoc(a → b)` and then, if that succeeded, `setDoc(b → a)`. */
  function EdgeWrites(friends: map<Key, bool>, a: string, b: string, firstOk: bool, secondOk: bool): map<Key, bool>
  {
    if !firstOk then friends
    else if !secondOk then friends[(a, b) := true]
    else friends[(a, b) := true][(b, a) := true]
  }

  /** Every stored edge has its reverse: the friend relation is mutual. */
  ghost predicate Symmetric(friends: map<Key, bool>)
  {
    forall a, b :: (a, b) in friends ==> (b, a) in friends
  }

  /** A completed add stores both edges with `friend: true` and touches no other edge. */
  lemma AddFriendStoresBothEdges(friends: map<Key, bool>, a: string, b: string)
    ensures var after := EdgeWrites(friends, a, b, true, true);
      && (a, b) in after && after[(a, b)]
      && (b, a) in after && after[(b, a)]
      && forall k :: k != (a, b) && k != (b, a) ==> (k in after <==> k in friends) && (k in friends ==> after[k] == friends[k])
  {
  }

  /** A completed add keeps the relation mutual. */
  lemma AddFriendKeepsSymmetric(friends: map<Key, bool>, a: string, b: string)
    requires Symmetric(friends)
    ensures Symmetric(EdgeWrites(friends, a, b, true, true))
  {
  }

  /** An add whose second write fails leaves a one-way edge: the relation is broken and nothing repairs it. */
  lemma AddFriendHalfDoneBreaksSymmetry(friends: map<Key, bool>, a: string, b: string)
    requires Symmetric(friends) && a != b && (b, a) !in friends
    ensures !Symmetric(EdgeWrites(friends, a, b, true, false))
  {
    var after := EdgeWrites(friends, a, b, true, false);
    assert (a, b) in after && (b, a) !in after;
  }

  class SideBar {
    const db: Store
    var uid: Option<string>
    /** The caller's own e-mail, as the profile subscription last set it. */
    var email: Option<string>
    /** The search input's current value. */
    var search: string
    var searchResult: Option<Profile>
    var searchResultUid: string

    constructor (db: Store, uid: Option<string>, email: Option<string>)
      ensures this.db == db && this.uid == uid && this.email == email
      ensures search == "" && searchResult == None && searchResultUid == ""
    {
      this.db, this.uid, this.email := db, uid, email;
      search, searchResult, searchResultUid := "", None, "";
    }

    /**
     * `searchEmail`, given the documents the e-mail query returned: clear the
     * result, then keep the last document that is not the caller's own. The
     * result uid is not cleared first, so a search without a candidate keeps
     * the previous one.
     */
    method SearchEmail(snapshot: seq<UserDoc>)
      requires forall i :: 0 <= i < |snapshot| ==> snapshot[i].data.email == search
      modifies this`searchResult, this`searchResultUid
      ensures searchResult.Some? ==> searchResult.value.email == search && email != Some(search)
      ensures match LastOther(snapshot, email)
              case None => searchResult == None && searchResultUid == old(searchResultUid)
              case Some(i) => searchResult == Some(snapshot[i].data) && searchResultUid == snapshot[i].id
    {
      searchResult := None;
      var i := 0;
      while i < |snapshot|
        invariant 0 <= i <= |snapshot|
        invariant match LastOther(snapshot[..i], email)
                  case None => searchResult == None && searchResultUid == old(searchResultUid)
                  case Some(j) => j < i && searchResult == Some(snapshot[j].data) && searchResultUid == snapshot[j].id
      {
        assert snapshot[..i + 1][..i] == snapshot[..i];
        if IsOther(snapshot[i], email) {
          searchResult := Some(snapshot[i].data);
          searchResultUid := snapshot[i].id;
        }
        i := i + 1;
      }
      assert snapshot[..i] == snapshot;
      LastOtherIsLastCandidate(snapshot, email);
    }

    /**
     * `addFriend`: clear the search input and result when the input is
     * non-empty, then write the edge (uid, result) and, if that write
     * succeeded, the edge (result, uid). A failed write rejects the returned
     * promise; `completed` says whether both writes went through.
     */
    method AddFriend(firstOk: bool, secondOk: bool) returns (completed: bool)
      requires db.Valid()
      modifies this`search, this`searchResult, db
      ensures db.Valid()
      ensures old(search) != "" ==> search == "" && searchResult == None
      ensures old(search) == "" ==> search == old(search) && searchResult == old(searchResult)
      ensures completed == (firstOk && secondOk)
      ensures db.friends == EdgeWrites(old(db.friends), UndefinedString(uid), searchResultUid, firstOk, secondOk)
      ensures db.logs == old(db.logs) && db.clock == old(db.clock) && db.users == old(db.users)
    {
      if search != "" {
        search := "";
        searchResult := None;
      }
      var me, other := UndefinedString(uid), searchResultUid;
      completed := db.SetFriend(me, other, firstOk);
      if completed {
        completed := db.SetFriend(other, me, secondOk);
      }
    }
  }
}
