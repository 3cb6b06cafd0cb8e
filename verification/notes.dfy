/** The note handlers as transitions over an in-memory note store. The JWT verifier is
    an oracle from a token string to the `userId` it carries (None when it throws); the
    object-store upload is an outcome passed in; fresh ids, the random file-name
    identifier and the creation time are parameters. */
module Notes {
  import opened Wrappers
  import opened Text
  import opened Http
  import opened Storage
  import Users

  type NoteId = string

  datatype Note = Note(title: string, content: string, image: string, user: Users.UserId, createdAt: int)

  type NoteStore = map<NoteId, Note>

  /** A note as returned to the client, with its id. */
  datatype Doc = Doc(id: NoteId, note: Note)

  /** The multipart file the upload middleware attaches to the request (the bytes are not modelled). */
  datatype Upload = Upload(originalName: string, mimeType: string)

  const BearerPrefix := "Bearer "

  const MissingFields := "Please provide title, content and image"
  const MissingToken := "Authentication token is missing"
  const NoteCreated := "Note created successfully"
  const Forbidden := "Unauthorized or Note not found"
  const NoteDeleted := "Note deleted successfully"

  /** `getTokenFromHeader`: absent unless the header starts with exactly "Bearer ";
      otherwise the second space-separated piece, which may be empty. */
  function GetTokenFromHeader(header: Option<string>): (r: Option<string>)
    ensures r.Some? <==> header.Some? && StartsWith(header.value, BearerPrefix)
    ensures r.Some? ==> ' ' !in r.value && StartsWith(header.value[|BearerPrefix|..], r.value)
    ensures r.Some? ==> var rest := header.value[|BearerPrefix|..];
                        |rest| == |r.value| || rest[|r.value|] == ' '
  {
    if header.None? || header.value == "" || !StartsWith(header.value, BearerPrefix) then None
    else
      var h := header.value;
      var rest := h[|BearerPrefix|..];
      assert h == "Bearer" + [' '] + rest;
      SplitAfterPiece("Bearer", rest, ' ');
      SplitHead(rest, ' ');
      Some(Split(h, ' ')[1])
  }

  /** "Bearer " followed by a space-free token and then nothing or a space yields that token:
      "Bearer a b" gives "a". */
  lemma {:induction false} TokenOfBearerHeader(token: string, rest: string)
    requires ' ' !in token
    requires rest == [] || rest[0] == ' '
    ensures GetTokenFromHeader(Some(BearerPrefix + token + rest)) == Some(token)
  {
    var h := BearerPrefix + token + rest;
    assert h == "Bearer" + [' '] + (token + rest);
    SplitAfterPiece("Bearer", token + rest, ' ');
    SplitFirstPiece(token, rest, ' ');
  }

  /** Concrete headers: a lower-case scheme is refused, a bare "Bearer " gives the empty
      (falsy) token, and "Bearer a b" gives "a". */
  lemma HeaderExamples()
    ensures GetTokenFromHeader(Some("bearer abc")) == None
    ensures GetTokenFromHeader(None) == None
    ensures GetTokenFromHeader(Some("Bearer ")) == Some("") && !Truthy(GetTokenFromHeader(Some("Bearer ")))
    ensures GetTokenFromHeader(Some("Bearer a b")) == Some("a")
  {
    assert !StartsWith("bearer abc", BearerPrefix) by { assert "bearer abc"[0] != BearerPrefix[0]; }
    TokenOfBearerHeader("a", " b");
    assert BearerPrefix + "a" + " b" == "Bearer a b";
    TokenOfBearerHeader("", "");
    assert BearerPrefix + "" + "" == "Bearer ";
  }

  /** The shared access rule of update and delete: the note exists and belongs to the caller. */
  predicate Owns(store: NoteStore, id: NoteId, uid: Users.UserId) {
    id in store && store[id].user == uid
  }

  /** `createNote`: the fields are checked before the token; then verification, upload and
      save, any of which failing is answered 500. On success exactly one note is added. */
  function CreateNote(store: NoteStore, header: Option<string>, title: Option<string>, content: Option<string>,
                      file: Option<Upload>, verify: string -> Option<Users.UserId>, baseUrl: string,
                      uuid: string, uploaded: bool, newId: NoteId, now: int): (r: Handled<Doc, NoteStore>)
    ensures !(Truthy(title) && Truthy(content) && file.Some?) ==>
              r == Handled(Reply(400, MissingFields, None), store)
    ensures Truthy(title) && Truthy(content) && file.Some? && !Truthy(GetTokenFromHeader(header)) ==>
              r == Handled(Reply(401, MissingToken, None), store)
    ensures r.reply.status == 201 <==>
              && Truthy(title) && Truthy(content) && file.Some?
              && Truthy(GetTokenFromHeader(header))
              && verify(GetTokenFromHeader(header).value).Some?
              && uploaded && newId !in store
    ensures Truthy(title) && Truthy(content) && file.Some? && Truthy(GetTokenFromHeader(header))
            && r.reply.status != 201 ==>
              r == Handled(Reply(500, ServerError, None), store)
    ensures r.reply.status in {201, 400, 401, 500}
    ensures r.reply.status != 201 ==> r.state == store && r.reply.body == None
    ensures r.reply.status == 201 ==>
              && r.state.Keys == store.Keys + {newId}
              && (forall k :: k in store ==> r.state[k] == store[k])
              && r.state[newId] == Note(title.value, content.value,
                                        baseUrl + "/" + uuid + "-" + file.value.originalName,
                                        verify(GetTokenFromHeader(header).value).value, now)
              && r.reply == Reply(201, NoteCreated, Some(Doc(newId, r.state[newId])))
  {
    if !(Truthy(title) && Truthy(content) && file.Some?) then
      Handled(Reply(400, MissingFields, None), store)
    else
      var token := GetTokenFromHeader(header);
      if !Truthy(token) then
        Handled(Reply(401, MissingToken, None), store)
      else match verify(token.value)
        case None => Handled(Reply(500, ServerError, None), store)
        case Some(uid) =>
          var key := ObjectKey(uuid, file.value.originalName);
          if !uploaded || newId in store then
            Handled(Reply(500, ServerError, None), store)
          else
            PublicUrlOfObjectKey(baseUrl, uuid, file.value.originalName);
            var note := Note(title.value, content.value, PublicUrl(baseUrl, key), uid, now);
            Handled(Reply(201, NoteCreated, Some(Doc(newId, note))), store[newId := note])
  }

  /** The ids listed in a sequence of documents. */
  function Ids(docs: seq<Doc>): set<NoteId> {
    set i | 0 <= i < |docs| :: docs[i].id
  }

  /** The ids of the notes a user owns. */
  function OwnedIds(store: NoteStore, uid: Users.UserId): set<NoteId> {
    set k | k in store && store[k].user == uid
  }

  /** Newest first: creation times never increase along the list. */
  predicate NewestFirst(docs: seq<Doc>) {
    forall i, j :: 0 <= i < j < |docs| ==> docs[i].note.createdAt >= docs[j].note.createdAt
  }

  predicate DistinctIds(docs: seq<Doc>) {
    forall i, j :: 0 <= i < j < |docs| ==> docs[i].id != docs[j].id
  }

  /** What `Note.find({ user }).sort({ createdAt: -1 })` may return: each owned note exactly
      once, as stored, newest first; the order among equal timestamps is left open. */
  predicate IsOwnedListing(store: NoteStore, uid: Users.UserId, docs: seq<Doc>) {
    && (forall i :: 0 <= i < |docs| ==> docs[i].id in store && store[docs[i].id] == docs[i].note)
    && Ids(docs) == OwnedIds(store, uid)
    && DistinctIds(docs)
    && NewestFirst(docs)
  }

  /** `getNotes`: missing token 401, failed verification 500, otherwise 200 with the
      caller's notes newest first (possibly none). */
  method GetNotes(store: NoteStore, header: Option<string>, verify: string -> Option<Users.UserId>)
    returns (r: Reply<seq<Doc>>)
    ensures !Truthy(GetTokenFromHeader(header)) ==> r == Reply(401, MissingToken, None)
    ensures Truthy(GetTokenFromHeader(header)) && verify(GetTokenFromHeader(header).value).None? ==>
              r == Reply(500, ServerError, None)
    ensures Truthy(GetTokenFromHeader(header)) && verify(GetTokenFromHeader(header).value).Some? ==>
              r.status == 200 && r.body.Some? &&
              IsOwnedListing(store, verify(GetTokenFromHeader(header).value).value, r.body.value)
  {
    var token := GetTokenFromHeader(header);
    if !Truthy(token) {
      return Reply(401, MissingToken, None);
    }
    var decoded := verify(token.value);
    if decoded.None? {
      return Reply(500, ServerError, None);
    }
    var docs := ListOwned(store, decoded.value);
    return Reply(200, "", Some(docs));
  }

  /** Collects the owned notes and keeps them newest first by insertion. */
  method ListOwned(store: NoteStore, uid: Users.UserId) returns (docs: seq<Doc>)
    ensures IsOwnedListing(store, uid, docs)
  {
    var pending := store.Keys;
    docs := [];
    while pending != {}
      invariant pending <= store.Keys
      invariant forall i :: 0 <= i < |docs| ==> docs[i].id in store && store[docs[i].id] == docs[i].note
      invariant Ids(docs) == OwnedIds(store, uid) - pending
      invariant DistinctIds(docs)
      invariant NewestFirst(docs)
      decreases pending
    {
      var k :| k in pending;
      pending := pending - {k};
      if store[k].user == uid {
        assert k !in Ids(docs);
        docs := InsertNewestFirst(docs, Doc(k, store[k]));
      }
    }
  }

  /** Inserts a document after every document at least as new. */
  method InsertNewestFirst(docs: seq<Doc>, d: Doc) returns (r: seq<Doc>)
    requires NewestFirst(docs) && DistinctIds(docs) && d.id !in Ids(docs)
    ensures NewestFirst(r) && DistinctIds(r)
    ensures Ids(r) == Ids(docs) + {d.id}
    ensures forall i :: 0 <= i < |r| ==> r[i] == d || r[i] in docs
  {
    var i := 0;
    while i < |docs| && docs[i].note.createdAt >= d.note.createdAt
      invariant 0 <= i <= |docs|
      invariant forall j :: 0 <= j < i ==> docs[j].note.createdAt >= d.note.createdAt
    {
      i := i + 1;
    }
    r := docs[..i] + [d] + docs[i..];
    InsertedAt(docs, d, i);
  }

  /** The elements of `docs[..i] + [d] + docs[i..]` by position. */
  lemma InsertedIndex(docs: seq<Doc>, d: Doc, i: nat)
    requires i <= |docs|
    ensures var r := docs[..i] + [d] + docs[i..];
            && |r| == |docs| + 1
            && r[i] == d
            && (forall j :: 0 <= j < i ==> r[j] == docs[j])
            && (forall j :: i < j < |r| ==> r[j] == docs[j - 1])
  {
  }

  /** Inserting at a position that keeps timestamps non-increasing keeps the listing
      newest first, keeps ids distinct, and adds exactly the new id. */
  lemma InsertedAt(docs: seq<Doc>, d: Doc, i: nat)
    requires i <= |docs|
    requires NewestFirst(docs) && DistinctIds(docs) && d.id !in Ids(docs)
    requires forall j :: 0 <= j < i ==> docs[j].note.createdAt >= d.note.createdAt
    requires i == |docs| || docs[i].note.createdAt < d.note.createdAt
    ensures var r := docs[..i] + [d] + docs[i..];
            && NewestFirst(r) && DistinctIds(r)
            && Ids(r) == Ids(docs) + {d.id}
            && forall j :: 0 <= j < |r| ==> r[j] == d || r[j] in docs
  {
    InsertedOrder(docs, d, i);
    InsertedDistinct(docs, d, i);
    InsertedIds(docs, d, i);
    InsertedIndex(docs, d, i);
  }

  lemma InsertedOrder(docs: seq<Doc>, d: Doc, i: nat)
    requires i <= |docs| && NewestFirst(docs)
    requires forall j :: 0 <= j < i ==> docs[j].note.createdAt >= d.note.createdAt
    requires i == |docs| || docs[i].note.createdAt < d.note.createdAt
    ensures NewestFirst(docs[..i] + [d] + docs[i..])
  {
    var r := docs[..i] + [d] + docs[i..];
    InsertedIndex(docs, d, i);
    forall a, b | 0 <= a < b < |r| ensures r[a].note.createdAt >= r[b].note.createdAt {
      if b < i {
      } else if a == i {
        assert docs[b - 1].note.createdAt <= docs[i].note.createdAt;
      } else if b == i {
      } else if a < i {
        assert docs[a].note.createdAt >= docs[b - 1].note.createdAt;
      }
    }
  }

  lemma InsertedDistinct(docs: seq<Doc>, d: Doc, i: nat)
    requires i <= |docs| && DistinctIds(docs) && d.id !in Ids(docs)
    ensures DistinctIds(docs[..i] + [d] + docs[i..])
  {
    var r := docs[..i] + [d] + docs[i..];
    InsertedIndex(docs, d, i);
    forall a, b | 0 <= a < b < |r| ensures r[a].id != r[b].id {
      if a == i {
        assert docs[b - 1].id in Ids(docs);
      } else if b == i {
        assert docs[a].id in Ids(docs);
      }
    }
  }

  lemma InsertedIds(docs: seq<Doc>, d: Doc, i: nat)
    requires i <= |docs|
    ensures Ids(docs[..i] + [d] + docs[i..]) == Ids(docs) + {d.id}
  {
    var r := docs[..i] + [d] + docs[i..];
    InsertedIndex(docs, d, i);
    forall x | x in Ids(r) ensures x in Ids(docs) + {d.id} {
      var j :| 0 <= j < |r| && r[j].id == x;
      if j < i { assert docs[j].id == x; } else if j > i { assert docs[j - 1].id == x; }
    }
    forall x | x in Ids(docs) ensures x in Ids(r) {
      var j :| 0 <= j < |docs| && docs[j].id == x;
      if j < i { assert r[j].id == x; } else { assert r[j + 1].id == x; }
    }
    assert r[i].id == d.id;
  }

  /** `deleteNote`: missing token 401, failed verification 500, a missing or foreign note
      403 with one message for both, otherwise exactly that note is removed. */
  function DeleteNote(store: NoteStore, header: Option<string>, id: NoteId,
                      verify: string -> Option<Users.UserId>): (r: Handled<(), NoteStore>)
    ensures !Truthy(GetTokenFromHeader(header)) ==> r == Handled(Reply(401, MissingToken, None), store)
    ensures Truthy(GetTokenFromHeader(header)) && verify(GetTokenFromHeader(header).value).None? ==>
              r == Handled(Reply(500, ServerError, None), store)
    ensures Truthy(GetTokenFromHeader(header)) && verify(GetTokenFromHeader(header).value).Some? ==>
              var uid := verify(GetTokenFromHeader(header).value).value;
              && (!Owns(store, id, uid) ==> r == Handled(Reply(403, Forbidden, None), store))
              && (Owns(store, id, uid) ==> r.reply == Reply(200, NoteDeleted, None))
    ensures r.reply.status == 200 ==>
              && id in store && r.state.Keys == store.Keys - {id}
              && forall k :: k in r.state ==> r.state[k] == store[k]
  {
    var token := GetTokenFromHeader(header);
    if !Truthy(token) then
      Handled(Reply(401, MissingToken, None), store)
    else match verify(token.value)
      case None => Handled(Reply(500, ServerError, None), store)
      case Some(uid) =>
        if !Owns(store, id, uid) then
          Handled(Reply(403, Forbidden, None), store)
        else
          Handled(Reply(200, NoteDeleted, None), store - {id})
  }

  /** `updateNote`: the same 401/500/403 rule as delete; then a partial update in which
      only the title and content that were sent change. The uploaded file, if any, is
      never read, so the image, the owner and every other note stay as they were. */
  function UpdateNote(store: NoteStore, header: Option<string>, id: NoteId, title: Option<string>,
                      content: Option<string>, file: Option<Upload>,
                      verify: string -> Option<Users.UserId>): (r: Handled<Doc, NoteStore>)
    ensures !Truthy(GetTokenFromHeader(header)) ==> r == Handled(Reply(401, MissingToken, None), store)
    ensures Truthy(GetTokenFromHeader(header)) && verify(GetTokenFromHeader(header).value).None? ==>
              r == Handled(Reply(500, ServerError, None), store)
    ensures Truthy(GetTokenFromHeader(header)) && verify(GetTokenFromHeader(header).value).Some? ==>
              var uid := verify(GetTokenFromHeader(header).value).value;
              && (!Owns(store, id, uid) ==> r == Handled(Reply(403, Forbidden, None), store))
              && (Owns(store, id, uid) ==> r.reply.status == 200)
    ensures r.reply.status == 200 ==>
              && id in store && r.state.Keys == store.Keys
              && (forall k :: k in store && k != id ==> r.state[k] == store[k])
              && r.state[id].title == title.GetOr(store[id].title)
              && r.state[id].content == content.GetOr(store[id].content)
              && r.state[id].image == store[id].image
              && r.state[id].user == store[id].user
              && r.state[id].createdAt == store[id].createdAt
              && r.reply == Reply(200, "", Some(Doc(id, r.state[id])))
  {
    var token := GetTokenFromHeader(header);
    if !Truthy(token) then
      Handled(Reply(401, MissingToken, None), store)
    else match verify(token.value)
      case None => Handled(Reply(500, ServerError, None), store)
      case Some(uid) =>
        if !Owns(store, id, uid) then
          Handled(Reply(403, Forbidden, None), store)
        else
          var prev := store[id];
          var note := prev.(title := title.GetOr(prev.title), content := content.GetOr(prev.content));
          Handled(Reply(200, "", Some(Doc(id, note))), store[id := note])
  }

  /** A note as listed by `getAllNotes`, with its owner's id, name and email populated
      (None when no user has that id). */
  datatype Listed = Listed(note: Note, owner: Option<Users.Summary>)

  /** `getAllNotes`: every note of every user, with no owner filter and no token check. */
  function GetAllNotes(store: NoteStore, users: Users.UserStore): (r: Reply<map<NoteId, Listed>>)
    ensures r.status == 200 && r.body.Some?
    ensures r.body.value.Keys == store.Keys
    ensures forall k :: k in store ==> r.body.value[k].note == store[k]
    ensures forall k :: k in store ==>
              (r.body.value[k].owner.Some? <==> exists i :: 0 <= i < |users| && users[i].id == store[k].user)
    ensures forall k :: k in store && r.body.value[k].owner.Some? ==>
              r.body.value[k].owner.value.id == store[k].user
    ensures forall k :: k in store && r.body.value[k].owner.Some? ==>
              exists i :: 0 <= i < |users| && users[i].id == store[k].user
                          && r.body.value[k].owner.value == Users.Summary(users[i].id, users[i].name, users[i].email)
  {
    var listed := map k | k in store :: Listed(store[k], PopulateOwner(users, store[k].user));
    Reply(200, "", Some(listed))
  }

  /** The unfiltered list contains each user's filtered list: every entry of an owned listing
      is in the full list unchanged, and every note of the full list owned by that user is listed. */
  lemma AllNotesContainListing(store: NoteStore, users: Users.UserStore, uid: Users.UserId, docs: seq<Doc>)
    requires IsOwnedListing(store, uid, docs)
    ensures var all := GetAllNotes(store, users).body.value;
            && (forall i :: 0 <= i < |docs| ==> docs[i].id in all && all[docs[i].id].note == docs[i].note)
            && (forall k :: k in all && all[k].note.user == uid ==> k in Ids(docs))
  {
    var all := GetAllNotes(store, users).body.value;
    forall k | k in all && all[k].note.user == uid ensures k in Ids(docs) {
      assert k in OwnedIds(store, uid);
    }
  }

  /** `populate("user", "name email")`: the first user with that id, as id, name and email. */
  function PopulateOwner(users: Users.UserStore, uid: Users.UserId): (r: Option<Users.Summary>)
    ensures r.Some? <==> exists i :: 0 <= i < |users| && users[i].id == uid
    ensures r.Some? ==> r.value.id == uid
    ensures r.Some? ==>
              exists i :: 0 <= i < |users| && users[i].id == uid && (forall j :: 0 <= j < i ==> users[j].id != uid)
                          && r.value == Users.Summary(uid, users[i].name, users[i].email)
  {
    match Users.FindById(users, uid)
    case None => None
    case Some(i) => Some(Users.Summary(users[i].id, users[i].name, users[i].email))
  }

  /** Distinct ids: the listing is exactly as long as its set of ids. */
  lemma {:induction false} DistinctIdsCount(docs: seq<Doc>)
    requires DistinctIds(docs)
    ensures |Ids(docs)| == |docs|
    decreases |docs|
  {
    if |docs| > 0 {
      var tail := docs[1..];
      assert DistinctIds(tail);
      DistinctIdsCount(tail);
      IdsCons(docs);
      assert docs[0].id !in Ids(tail) by {
        forall j | 0 <= j < |tail| ensures tail[j].id != docs[0].id {
          assert tail[j] == docs[j + 1];
        }
      }
    }
  }

  /** The ids of a non-empty listing: its head's id and its tail's ids. */
  lemma IdsCons(docs: seq<Doc>)
    requires |docs| > 0
    ensures Ids(docs) == {docs[0].id} + Ids(docs[1..])
  {
    forall x | x in Ids(docs) ensures x in {docs[0].id} + Ids(docs[1..]) {
      var j :| 0 <= j < |docs| && docs[j].id == x;
      if j > 0 { assert docs[1..][j - 1].id == x; }
    }
    forall x | x in Ids(docs[1..]) ensures x in Ids(docs) {
      var j :| 0 <= j < |docs[1..]| && docs[1..][j].id == x;
      assert docs[j + 1].id == x;
    }
  }

  /** A listing has one entry per owned note: no note is missed or repeated. */
  lemma ListingLength(store: NoteStore, uid: Users.UserId, docs: seq<Doc>)
    requires IsOwnedListing(store, uid, docs)
    ensures |docs| == |OwnedIds(store, uid)|
  {
    DistinctIdsCount(docs);
  }

  /** A user who owns nothing gets the empty list, not an error. */
  lemma EmptyListing(store: NoteStore, uid: Users.UserId, docs: seq<Doc>)
    requires IsOwnedListing(store, uid, docs)
    requires forall k :: k in store ==> store[k].user != uid
    ensures docs == []
  {
    assert OwnedIds(store, uid) == {};
    ListingLength(store, uid, docs);
  }

  /** A note created with a well-formed bearer token shows up in its owner's notes and
      leaves every other user's notes and listings exactly as they were. */
  lemma CreateVisibleOnlyToOwner(store: NoteStore, token: string, title: Option<string>,
                                 content: Option<string>, file: Option<Upload>,
                                 verify: string -> Option<Users.UserId>, baseUrl: string,
                                 uuid: string, newId: NoteId, now: int,
                                 other: Users.UserId, docs: seq<Doc>)
    requires token != "" && ' ' !in token && verify(token).Some?
    requires Truthy(title) && Truthy(content) && file.Some? && newId !in store
    ensures var after := CreateNote(store, Some(BearerPrefix + token), title, content, file, verify,
                                    baseUrl, uuid, true, newId, now).state;
            var owner := verify(token).value;
            && OwnedIds(after, owner) == OwnedIds(store, owner) + {newId}
            && (other != owner ==> OwnedIds(after, other) == OwnedIds(store, other))
            && (other != owner ==> (IsOwnedListing(after, other, docs) <==> IsOwnedListing(store, other, docs)))
  {
    TokenOfBearerHeader(token, "");
    assert BearerPrefix + token + "" == BearerPrefix + token;
    var after := CreateNote(store, Some(BearerPrefix + token), title, content, file, verify,
                            baseUrl, uuid, true, newId, now).state;
    assert after == store[newId := after[newId]];
    AddedNoteOwnership(store, newId, after[newId], other, docs);
  }

  /** Adding a note under a fresh id adds it to its owner's notes and to nobody else's. */
  lemma AddedNoteOwnership(store: NoteStore, newId: NoteId, n: Note, other: Users.UserId, docs: seq<Doc>)
    requires newId !in store
    ensures OwnedIds(store[newId := n], n.user) == OwnedIds(store, n.user) + {newId}
    ensures other != n.user ==> OwnedIds(store[newId := n], other) == OwnedIds(store, other)
    ensures other != n.user ==> (IsOwnedListing(store[newId := n], other, docs) <==> IsOwnedListing(store, other, docs))
  {
    var after := store[newId := n];
    if other != n.user {
      assert OwnedIds(after, other) == OwnedIds(store, other);
      if IsOwnedListing(after, other, docs) || IsOwnedListing(store, other, docs) {
        forall i | 0 <= i < |docs| ensures docs[i].id != newId {
          assert docs[i].id in Ids(docs);
        }
      }
    }
  }

  /** Deleting the note just created, with the same token, restores the store: delete undoes create. */
  lemma DeleteUndoesCreate(store: NoteStore, token: string, title: Option<string>,
                           content: Option<string>, file: Option<Upload>,
                           verify: string -> Option<Users.UserId>, baseUrl: string,
                           uuid: string, newId: NoteId, now: int)
    requires token != "" && ' ' !in token && verify(token).Some?
    requires Truthy(title) && Truthy(content) && file.Some? && newId !in store
    ensures var header := Some(BearerPrefix + token);
            var after := CreateNote(store, header, title, content, file, verify, baseUrl, uuid, true, newId, now).state;
            DeleteNote(after, header, newId, verify) == Handled(Reply(200, NoteDeleted, None), store)
  {
    TokenOfBearerHeader(token, "");
    assert BearerPrefix + token + "" == BearerPrefix + token;
    var header := Some(BearerPrefix + token);
    var after := CreateNote(store, header, title, content, file, verify, baseUrl, uuid, true, newId, now).state;
    assert after - {newId} == store;
  }

  /** A second delete of the same id is refused exactly like a delete of a foreign note. */
  lemma DeleteTwiceForbidden(store: NoteStore, header: Option<string>, id: NoteId,
                             verify: string -> Option<Users.UserId>)
    requires DeleteNote(store, header, id, verify).reply.status == 200
    ensures var after := DeleteNote(store, header, id, verify).state;
            DeleteNote(after, header, id, verify) == Handled(Reply(403, Forbidden, None), after)
  {
  }

  /** The reply of update does not depend on the file sent with it, and repeating an
      update changes nothing further. */
  lemma UpdateIgnoresFileAndIsIdempotent(store: NoteStore, header: Option<string>, id: NoteId,
                                         title: Option<string>, content: Option<string>,
                                         f1: Option<Upload>, f2: Option<Upload>,
                                         verify: string -> Option<Users.UserId>)
    ensures UpdateNote(store, header, id, title, content, f1, verify)
            == UpdateNote(store, header, id, title, content, f2, verify)
    ensures var once := UpdateNote(store, header, id, title, content, f1, verify).state;
            UpdateNote(once, header, id, title, content, f1, verify).state == once
  {
  }
}
