/** The collaboration hub (`WebSocketManager`): the handlers of the socket events, run one at a
    time over the document store, the presence store, the socket.io rooms and the connection
    counters. Each handler changes the state in one step and returns the messages it sends, as
    records of recipients, event name and payload. */
module Hub {
  import opened Js
  import Documents
  import Users

  /** The longest title `title-change` accepts. */
  const MaxTitleLength: nat := 100

  /** The longest name `update-user-info` accepts. */
  const MaxNameLength: nat := 20

  const RequiredMessage: string := "Document ID is required"
  const InvalidIdMessage: string := "Invalid document ID format"
  const JoinFailedMessage: string := "Failed to join document"
  const FullMessage: string := "Document has reached maximum user limit"
  const TooLargeMessage: string := "Document size too large"
  const NotFoundMessage: string := "Document not found"
  const UpdateFailedMessage: string := "Failed to update text"
  const InvalidTitleMessage: string := "Invalid document title"

  /** The four settings the handlers read. A limit that is `None` is `undefined`: every
      comparison with it is false, so it never rejects anything. */
  datatype Config = Config(
    maxUsersPerDocument: Option<nat>,
    maxDocumentSize: Option<nat>,
    enableCursorSharing: bool,
    enableTypingIndicators: bool)

  /** A `documentId` field as received: missing or another falsy value, a string, or a truthy
      value that is not a string. */
  datatype IdArg = Absent | Text(text: string) | NotText

  /** The `join-document` payload: the requested id and the optional `user.name` and
      `user.color`. */
  datatype JoinRequest = JoinRequest(documentId: IdArg, name: Option<string>, color: Option<string>)

  /** The `text-change` payload. */
  datatype TextChange = TextChange(content: string, documentId: string)

  /** The `update-user-info` payload. */
  datatype UserInfo = UserInfo(name: Option<string>, color: Option<string>)

  /** What a message carries; the server timestamps attached to some of them are left out. */
  datatype Payload =
    | ErrorMessage(message: string)
    | DocumentState(content: string, title: Option<string>, documentId: string, users: seq<Users.UserSummary>)
    | UserJoined(profile: Users.Profile)
    | UsersUpdate(list: seq<Users.UserSummary>)
    | TextUpdate(text: string, userId: string, userName: string, userColor: string)
    | CursorUpdate(movedBy: string, moverName: string, moverColor: string, cursor: Option<Users.Cursor>)
    | TypingUpdate(typist: string, typistName: string, typistColor: string, isTyping: bool)
    | TitleUpdated(newTitle: string, updatedBy: string)
    | UserLeft(leaver: string, leaverName: string, reason: string)

  /** One emitted message: who receives it, the event name and the payload. */
  datatype Outbound = Outbound(recipients: set<string>, event: string, payload: Payload)

  /** `socket.emit('error', {message})`: an error to the sender alone. */
  function Error(sid: string, message: string): Outbound {
    Outbound({sid}, "error", ErrorMessage(message))
  }

  /** The one id `isValidDocumentId` accepts besides uuids. */
  const DefaultDocumentId: string := "default"

  /** The length of a textual uuid: 32 hexadecimal digits and four hyphens. */
  const UuidLength: nat := 36

  /** `isValidDocumentId`: a string that is `'default'` or as long as a textual uuid. Such an
      id is never the missing one, and it is 7 or 36 characters long. */
  predicate IsValidDocumentId(id: IdArg): (r: bool)
    ensures r <==> id.Text? && (id.text == DefaultDocumentId || |id.text| == UuidLength)
    ensures r ==> !Missing(id) && (|id.text| == |DefaultDocumentId| || |id.text| == UuidLength)
    ensures r ==> |id.text| == 7 || |id.text| == 36
  {
    id.Text? && (id.text == DefaultDocumentId || |id.text| == UuidLength)
  }

  /** `!documentId`: no id was given, or the empty string. */
  predicate Missing(id: IdArg) {
    id.Absent? || id == Text("")
  }

  /** The error a `join-document` payload draws before any state is read, if any. */
  function JoinRejection(data: Option<JoinRequest>): (r: Option<string>)
    ensures data.None? ==> r == Some(JoinFailedMessage)
    ensures data.Some? && Missing(data.value.documentId) ==> r == Some(RequiredMessage)
    ensures data.Some? && !Missing(data.value.documentId) && !IsValidDocumentId(data.value.documentId)
      ==> r == Some(InvalidIdMessage)
    ensures r.None? <==> data.Some? && IsValidDocumentId(data.value.documentId)
  {
    if data.None? then Some(JoinFailedMessage)
    else if Missing(data.value.documentId) then Some(RequiredMessage)
    else if !IsValidDocumentId(data.value.documentId) then Some(InvalidIdMessage)
    else None
  }

  /** The title of the document a join under an unknown id creates. */
  function PlaceholderTitle(id: string): (r: string)
    ensures |r| == 9 + (if |id| <= 8 then |id| else 8)
    ensures r[..9] == "Document " && r[9..] <= id
  {
    "Document " + Take(id, 8)
  }

  /** `user?.name || 'User' + socket.id.substring(0, 4)`. */
  function DisplayName(sid: string, name: Option<string>): (r: string)
    ensures name.Some? && name.value != "" ==> r == name.value
    ensures (name.None? || name.value == "") ==> r == "User" + Take(sid, 4)
    ensures r != ""
  {
    if name.Some? && name.value != "" then name.value else "User" + Take(sid, 4)
  }

  /** `user?.color || <a random palette colour>`: the random choice is passed in. */
  function DisplayColor(color: Option<string>, randomColor: string): (r: string)
    ensures color.Some? && color.value != "" ==> r == color.value
    ensures (color.None? || color.value == "") ==> r == randomColor
  {
    if color.Some? && color.value != "" then color.value else randomColor
  }

  /** The rejection test of `title-change`: not a string, empty, or longer than 100. */
  predicate TitleRejected(title: Option<string>) {
    title.None? || title.value == "" || |title.value| > MaxTitleLength
  }

  /** The size test of `text-change`: non-empty content longer than a defined limit. */
  predicate TooLarge(content: string, limit: Option<nat>) {
    content != "" && limit.Some? && |content| > limit.value
  }

  /** The capacity test of `join-document`: as many users as a defined limit, or more. */
  predicate AtCapacity(userCount: nat, limit: Option<nat>) {
    limit.Some? && userCount >= limit.value
  }

  /** The name test of `update-user-info`: non-empty and at most 20 characters. */
  predicate NameApplies(name: Option<string>) {
    name.Some? && name.value != "" && |name.value| <= MaxNameLength
  }

  /** The colour test of `update-user-info`: non-empty. */
  predicate ColorApplies(color: Option<string>) {
    color.Some? && color.value != ""
  }

  /** The members of room `r`; a room nobody joined is empty. */
  function RoomOf(rooms: map<string, set<string>>, r: string): set<string> {
    if r in rooms then rooms[r] else {}
  }

  /** A participant's record names the socket itself and a stored document whose `users`
      set and room both contain the socket. */
  ghost predicate JoinedIn(docs: map<string, Documents.Document>, parts: map<string, Users.User>,
                           rooms: map<string, set<string>>, s: string)
    requires s in parts
  {
    var u := parts[s];
    && u.id == s
    && u.documentId in docs
    && s in docs[u.documentId].users
    && s in RoomOf(rooms, u.documentId)
  }

  /** Every participant is joined to its document, and every member of a room is a
      participant. */
  ghost predicate Consistent(docs: map<string, Documents.Document>, parts: map<string, Users.User>,
                             rooms: map<string, set<string>>)
  {
    && (forall s {:trigger JoinedIn(docs, parts, rooms, s)} :: s in parts ==> JoinedIn(docs, parts, rooms, s))
    && (forall r, s :: InRoom(rooms, r, s) ==> s in parts)
  }

  /** socket.io's removal of a disconnected socket from every room it is in. */
  function LeaveAll(rooms: map<string, set<string>>, sid: string): (r: map<string, set<string>>)
    ensures r.Keys == rooms.Keys
    ensures forall k :: k in r ==> sid !in r[k] && r[k] == rooms[k] - {sid}
  {
    map k | k in rooms :: rooms[k] - {sid}
  }

  /** Socket `s` is in room `r`. */
  predicate InRoom(rooms: map<string, set<string>>, r: string, s: string) {
    r in rooms && s in rooms[r]
  }

  /** Creating a document under a new key keeps every participant joined. */
  lemma ConsistentAfterCreate(docs: map<string, Documents.Document>, parts: map<string, Users.User>,
                              rooms: map<string, set<string>>, k: string, d: Documents.Document)
    requires Consistent(docs, parts, rooms)
    requires k !in docs
    ensures Consistent(docs[k := d], parts, rooms)
  {
    forall s | s in parts ensures JoinedIn(docs[k := d], parts, rooms, s) {
      assert JoinedIn(docs, parts, rooms, s);
    }
  }

  /** Changing a document but not its `users` keeps every participant joined. */
  lemma ConsistentAfterEdit(docs: map<string, Documents.Document>, parts: map<string, Users.User>,
                            rooms: map<string, set<string>>, k: string, d: Documents.Document)
    requires Consistent(docs, parts, rooms)
    requires k in docs && d.users == docs[k].users
    ensures Consistent(docs[k := d], parts, rooms)
  {
    forall s | s in parts ensures JoinedIn(docs[k := d], parts, rooms, s) {
      assert JoinedIn(docs, parts, rooms, s);
    }
  }

  /** Changing a participant's record but not its id or document keeps everyone joined. */
  lemma ConsistentAfterProfileChange(docs: map<string, Documents.Document>, parts: map<string, Users.User>,
                                     rooms: map<string, set<string>>, sid: string, u: Users.User)
    requires Consistent(docs, parts, rooms)
    requires sid in parts && u.id == parts[sid].id && u.documentId == parts[sid].documentId
    ensures Consistent(docs, parts[sid := u], rooms)
  {
    var parts' := parts[sid := u];
    forall s | s in parts' ensures JoinedIn(docs, parts', rooms, s) {
      assert JoinedIn(docs, parts, rooms, s);
    }
  }

  /** A join makes the socket a participant of the document, in its `users` set and in its
      room; the others stay joined, including a socket that re-joins elsewhere. */
  lemma ConsistentAfterJoin(docs: map<string, Documents.Document>, parts: map<string, Users.User>,
                            rooms: map<string, set<string>>, sid: string, id: string, u: Users.User)
    requires Consistent(docs, parts, rooms)
    requires id in docs && u.id == sid && u.documentId == id
    ensures var d := docs[id];
      Consistent(docs[id := d.(users := Add(d.users, sid))], parts[sid := u], rooms[id := RoomOf(rooms, id) + {sid}])
  {
    var d := docs[id];
    var docs', parts', rooms' := docs[id := d.(users := Add(d.users, sid))], parts[sid := u], rooms[id := RoomOf(rooms, id) + {sid}];
    assert sid in Elems(Add(d.users, sid));
    forall s | s in parts' ensures JoinedIn(docs', parts', rooms', s) {
      if s != sid {
        assert JoinedIn(docs, parts, rooms, s);
        var k := parts[s].documentId;
        assert s in Elems(docs[k].users);
        assert s in Elems(docs'[k].users);
      }
    }
    forall r, s | InRoom(rooms', r, s) ensures s in parts' {
      if r != id || s != sid {
        assert InRoom(rooms, r, s);
      }
    }
  }

  /** A disconnect removes the socket from every room, its document's `users` set and the
      participants; everyone else stays joined. */
  lemma ConsistentAfterLeave(docs: map<string, Documents.Document>, parts: map<string, Users.User>,
                             rooms: map<string, set<string>>, sid: string, k: string)
    requires Consistent(docs, parts, rooms)
    requires k in docs
    ensures Consistent(docs[k := docs[k].(users := Remove(docs[k].users, sid))], parts - {sid},
                       LeaveAll(rooms, sid))
  {
    var docs', parts', rooms' := docs[k := docs[k].(users := Remove(docs[k].users, sid))], parts - {sid},
                                 LeaveAll(rooms, sid);
    forall s | s in parts' ensures JoinedIn(docs', parts', rooms', s) {
      assert JoinedIn(docs, parts, rooms, s);
      var k' := parts[s].documentId;
      assert s in Elems(docs[k'].users);
      assert s in Elems(docs'[k'].users);
    }
    forall r, s | InRoom(rooms', r, s) ensures s in parts' {
      assert InRoom(rooms, r, s);
    }
  }

  /** A disconnect of a socket with no participant record only removes it from the rooms. */
  lemma ConsistentAfterStrangerLeaves(docs: map<string, Documents.Document>, parts: map<string, Users.User>,
                                      rooms: map<string, set<string>>, sid: string)
    requires Consistent(docs, parts, rooms)
    requires sid !in parts
    ensures Consistent(docs, parts, LeaveAll(rooms, sid))
  {
    var rooms' := LeaveAll(rooms, sid);
    forall s | s in parts ensures JoinedIn(docs, parts, rooms', s) {
      assert JoinedIn(docs, parts, rooms, s);
    }
    forall r, s | InRoom(rooms', r, s) ensures s in parts {
      assert InRoom(rooms, r, s);
    }
  }

  class Hub {
    const documents: Documents.DocumentManager
    const users: Users.UserManager
    const config: Config
    /** socket.io's rooms: room id to the sockets in it. */
    var rooms: map<string, set<string>>
    var totalConnections: nat
    var activeConnections: int

    function Room(r: string): set<string>
      reads this
    {
      RoomOf(rooms, r)
    }

    /** Both stores are consistent, every participant is joined to its document, and every
        member of a room is a participant. */
    ghost predicate Valid()
      reads this, documents, users
    {
      && documents.Valid()
      && users.Valid()
      && Consistent(documents.documents, users.users, rooms)
    }

    constructor (documents: Documents.DocumentManager, users: Users.UserManager, config: Config)
      requires documents.Valid() && users.Valid() && users.users == map[]
      ensures Valid()
      ensures this.documents == documents && this.users == users && this.config == config
      ensures rooms == map[] && totalConnections == 0 && activeConnections == 0
    {
      this.documents, this.users, this.config := documents, users, config;
      rooms, totalConnections, activeConnections := map[], 0, 0;
    }

    /** `broadcastUserList`: the document's user list, to the whole room. */
    function UserListBroadcast(documentId: string): (r: Outbound)
      reads this, users
      requires users.Valid()
      ensures r.recipients == Room(documentId) && r.event == "users-update"
      ensures r.payload == UsersUpdate(users.GetUsersInDocument(documentId))
    {
      Outbound(Room(documentId), "users-update", UsersUpdate(users.GetUsersInDocument(documentId)))
    }

    /** What the room is told: exactly the summaries of the document's participants,
        earliest joiner first, one per socket. */
    lemma UserListBroadcastLists(documentId: string)
      requires users.Valid()
      ensures var list := UserListBroadcast(documentId).payload.list;
        && (forall x :: x in list <==>
              exists s :: s in users.users && users.users[s].documentId == documentId && x == Users.Summarize(users.users[s]))
        && (forall i, j :: 0 <= i < j < |list| ==> list[i].joinedAt <= list[j].joinedAt)
        && |list| == |set s | s in users.users && users.users[s].documentId == documentId|
    {
      users.UsersInDocumentMembers(documentId);
      users.UsersInDocumentCount(documentId);
    }

    /** A new socket is counted in both counters. */
    method HandleConnection()
      requires Valid()
      modifies this
      ensures Valid()
      ensures totalConnections == old(totalConnections) + 1
      ensures activeConnections == old(activeConnections) + 1
      ensures rooms == old(rooms)
    {
      totalConnections := totalConnections + 1;
      activeConnections := activeConnections + 1;
    }

    /** The document a join of `id` finds: the stored one, or the one the join creates when
        the fresh uuid equals the requested id. */
    function Target(id: string, freshId: string, now: nat): Documents.Document
      reads documents
    {
      if id in documents.documents then documents.documents[id]
      else Documents.Document(freshId, Some(PlaceholderTitle(id)), "", now, now, [], 1)
    }

    /** The successful end of `join-document`: the socket becomes a participant of the stored
        document `id`, is added to its `users` set and to its room, receives the document
        state, which lists it, and the rest of the room learns of it. */
    method Admit(sid: string, id: string, profile: Users.Profile, now: nat) returns (out: seq<Outbound>)
      requires Valid()
      requires id in documents.documents && profile.id == sid
      modifies this, documents, users
      ensures Valid()
      ensures totalConnections == old(totalConnections) && activeConnections == old(activeConnections)
      ensures documents.order == old(documents.order) && users.order == Add(old(users.order), sid)
      ensures var d0 := old(documents.documents[id]);
        && users.users == old(users.users)[sid := Users.User(sid, profile.name, profile.color, profile.cursor,
                                                             profile.isTyping, profile.joinedAt, id, now, now)]
        && users.userActivity == old(users.userActivity)[sid := Users.Activity(now, now, 0)]
        && documents.documents == old(documents.documents)[id := d0.(users := Add(d0.users, sid))]
        && rooms == old(rooms)[id := old(Room(id)) + {sid}]
        && out == [
             Outbound({sid}, "document-state", DocumentState(d0.content, d0.title, d0.id, users.GetUsersInDocument(id))),
             Outbound(old(Room(id)) - {sid}, "user-joined", UserJoined(profile)),
             UserListBroadcast(id)]
      ensures Users.Summarize(users.users[sid]) in users.GetUsersInDocument(id)
    {
      var doc := documents.documents[id];
      var before := Room(id);
      var u := users.AddUser(sid, id, profile, now);
      assert unchanged(this, documents);
      assert u == Users.User(sid, profile.name, profile.color, profile.cursor, profile.isTyping,
                             profile.joinedAt, id, now, now);
      ghost var docs0, rooms0 := documents.documents, rooms;
      documents.documents := documents.documents[id := doc.(users := Add(doc.users, sid))];
      rooms := rooms[id := before + {sid}];
      assert documents.Valid() by {
        assert documents.documents.Keys == docs0.Keys;
      }
      assert Consistent(documents.documents, users.users, rooms) by {
        ConsistentAfterJoin(docs0, old(users.users), rooms0, sid, id, u);
      }
      assert Users.Summarize(users.users[sid]) in users.GetUsersInDocument(id) by {
        users.UsersInDocumentExact(id, Users.Summarize(users.users[sid]));
      }
      out := [
        Outbound({sid}, "document-state", DocumentState(doc.content, doc.title, doc.id, users.GetUsersInDocument(id))),
        Outbound(before - {sid}, "user-joined", UserJoined(profile)),
        UserListBroadcast(id)];
    }

    /** The first step of a join of a well-formed id: when no document is stored under `id`,
        the store creates one under the fresh uuid, titled after the requested id. */
    method CreateIfMissing(id: string, freshId: string, now: nat)
      requires Valid()
      requires freshId !in documents.documents
      modifies documents
      ensures Valid()
      ensures id in old(documents.documents) ==>
        documents.documents == old(documents.documents) && documents.order == old(documents.order)
      ensures id !in old(documents.documents) ==>
        && documents.documents == old(documents.documents)[freshId := old(Target(id, freshId, now))]
        && documents.order == old(documents.order) + [freshId]
    {
      if !documents.HasDocument(id) {
        ghost var docs0, target := documents.documents, Target(id, freshId, now);
        var doc := documents.CreateDocument(freshId, PlaceholderTitle(id), "", now);
        assert doc == target;
        assert Consistent(documents.documents, users.users, rooms) by {
          ConsistentAfterCreate(docs0, users.users, rooms, freshId, documents.documents[freshId]);
        }
      }
    }

    /** The rest of a join of a well-formed id, once any creation is done: the lookup of `id`,
        the capacity test and the admission. */
    method JoinStored(sid: string, id: string, request: JoinRequest, randomColor: string, now: nat)
      returns (out: seq<Outbound>)
      requires Valid()
      modifies this, documents, users
      ensures Valid()
      ensures totalConnections == old(totalConnections) && activeConnections == old(activeConnections)
      ensures documents.order == old(documents.order)
      ensures id !in old(documents.documents) ==>
        && out == [Error(sid, JoinFailedMessage)]
        && documents.documents == old(documents.documents) && unchanged(users) && rooms == old(rooms)
      ensures id in old(documents.documents) && AtCapacity(|old(documents.documents[id]).users|, config.maxUsersPerDocument) ==>
        && out == [Error(sid, FullMessage)]
        && documents.documents == old(documents.documents) && unchanged(users) && rooms == old(rooms)
      ensures id in old(documents.documents) && !AtCapacity(|old(documents.documents[id]).users|, config.maxUsersPerDocument) ==>
        var d0 := old(documents.documents[id]);
        var profile := Users.Profile(sid, DisplayName(sid, request.name), DisplayColor(request.color, randomColor),
                                     None, false, now);
        && documents.documents == old(documents.documents)[id := d0.(users := Add(d0.users, sid))]
        && users.users == old(users.users)[sid := Users.User(sid, profile.name, profile.color, None, false,
                                                             now, id, now, now)]
        && users.userActivity == old(users.userActivity)[sid := Users.Activity(now, now, 0)]
        && users.order == Add(old(users.order), sid)
        && rooms == old(rooms)[id := old(Room(id)) + {sid}]
        && out == [
             Outbound({sid}, "document-state", DocumentState(d0.content, d0.title, d0.id, users.GetUsersInDocument(id))),
             Outbound(old(Room(id)) - {sid}, "user-joined", UserJoined(profile)),
             UserListBroadcast(id)]
        && Users.Summarize(users.users[sid]) in users.GetUsersInDocument(id)
    {
      var found := documents.GetDocument(id);
      if found.None? {
        return [Error(sid, JoinFailedMessage)];
      }
      var doc := found.value;
      if AtCapacity(|doc.users|, config.maxUsersPerDocument) {
        return [Error(sid, FullMessage)];
      }
      var profile := Users.Profile(sid, DisplayName(sid, request.name), DisplayColor(request.color, randomColor),
                                   None, false, now);
      out := Admit(sid, id, profile, now);
    }

    /** `join-document`. A payload that is absent, without an id or with a malformed id is
        answered with an error and nothing changes. An id that is not stored makes the store
        create a document under the fresh uuid `freshId`; the join then looks the requested
        id up, and unless the two coincide the lookup fails and the sender gets
        'Failed to join document'. A document at capacity is refused; otherwise the socket
        joins it. A socket joined elsewhere keeps its old document's `users` entry and room. */
    method HandleJoinDocument(sid: string, data: Option<JoinRequest>, freshId: string, randomColor: string, now: nat)
      returns (out: seq<Outbound>)
      requires Valid()
      requires freshId !in documents.documents
      modifies this, documents, users
      ensures Valid()
      ensures totalConnections == old(totalConnections) && activeConnections == old(activeConnections)
      ensures JoinRejection(data).Some? ==>
        && out == [Error(sid, JoinRejection(data).value)]
        && documents.documents == old(documents.documents) && documents.order == old(documents.order)
        && unchanged(users) && rooms == old(rooms)
      ensures JoinRejection(data).None? ==>
        var id := data.value.documentId.text;
        id !in old(documents.documents) && id != freshId ==>
          && documents.documents == old(documents.documents)[freshId := old(Target(id, freshId, now))]
          && documents.order == old(documents.order) + [freshId]
          && out == [Error(sid, JoinFailedMessage)]
          && unchanged(users) && rooms == old(rooms)
      ensures JoinRejection(data).None? ==>
        var id := data.value.documentId.text;
        var d0 := old(Target(id, freshId, now));
        (id in old(documents.documents) || id == freshId) ==>
          && documents.order == (if id in old(documents.documents) then old(documents.order) else old(documents.order) + [freshId])
          && (AtCapacity(|d0.users|, config.maxUsersPerDocument) ==>
                && documents.documents == old(documents.documents)[id := d0]
                && out == [Error(sid, FullMessage)]
                && unchanged(users) && rooms == old(rooms))
          && (!AtCapacity(|d0.users|, config.maxUsersPerDocument) ==>
                var profile := Users.Profile(sid, DisplayName(sid, data.value.name),
                                             DisplayColor(data.value.color, randomColor), None, false, now);
                && documents.documents == old(documents.documents)[id := d0.(users := Add(d0.users, sid))]
                && users.users == old(users.users)[sid := Users.User(sid, profile.name, profile.color, None, false,
                                                                     now, id, now, now)]
                && users.userActivity == old(users.userActivity)[sid := Users.Activity(now, now, 0)]
                && users.order == Add(old(users.order), sid)
                && rooms == old(rooms)[id := old(Room(id)) + {sid}]
                && out == [
                     Outbound({sid}, "document-state", DocumentState(d0.content, d0.title, d0.id, users.GetUsersInDocument(id))),
                     Outbound(old(Room(id)) - {sid}, "user-joined", UserJoined(profile)),
                     UserListBroadcast(id)]
                && Users.Summarize(users.users[sid]) in users.GetUsersInDocument(id))
    {
      var rejection := JoinRejection(data);
      if rejection.Some? {
        out := [Error(sid, rejection.value)];
        return;
      }
      var request := data.value;
      var id := request.documentId.text;
      ghost var docs0, d0 := documents.documents, Target(id, freshId, now);
      CreateIfMissing(id, freshId, now);
      assert unchanged(this, users) && Room(id) == old(Room(id));
      ghost var docs1 := documents.documents;
      if id in docs0 || id == freshId {
        assert id in docs1 && docs1[id] == d0;
        assert docs1 == docs0[id := d0];
      }
      out := JoinStored(sid, id, request, randomColor, now);
      if id in docs1 {
        assert docs1[id := d0.(users := Add(d0.users, sid))] == docs0[id := d0.(users := Add(d0.users, sid))];
      }
    }

    /** `text-change`. Silent for a socket that has not joined. Otherwise an absent payload
        is an error, content over a defined size limit is refused, and a payload naming an
        unstored document is answered with 'Document not found'. Otherwise the document the
        payload names (not necessarily the sender's) takes the content, last write wins, and
        the rest of that document's room is told. */
    method HandleTextChange(sid: string, data: Option<TextChange>, now: nat) returns (out: seq<Outbound>)
      requires Valid()
      modifies documents
      ensures Valid()
      ensures documents.order == old(documents.order)
      ensures sid !in users.users ==> out == [] && documents.documents == old(documents.documents)
      ensures sid in users.users && data.None? ==>
        out == [Error(sid, UpdateFailedMessage)] && documents.documents == old(documents.documents)
      ensures sid in users.users && data.Some? && TooLarge(data.value.content, config.maxDocumentSize) ==>
        out == [Error(sid, TooLargeMessage)] && documents.documents == old(documents.documents)
      ensures sid in users.users && data.Some? && !TooLarge(data.value.content, config.maxDocumentSize) ==>
        var id := data.value.documentId;
        && (id !in old(documents.documents) ==>
              out == [Error(sid, NotFoundMessage)] && documents.documents == old(documents.documents))
        && (id in old(documents.documents) ==>
              var d0, u := old(documents.documents[id]), users.users[sid];
              && documents.documents == old(documents.documents)[id := d0.(content := data.value.content,
                                                                        updatedAt := now, version := d0.version + 1)]
              && out == [Outbound(Room(id) - {sid}, "text-update", TextUpdate(data.value.content, sid, u.name, u.color))])
    {
      var user := users.GetUser(sid);
      if user.None? {
        return [];
      }
      var u := user.value;
      if data.None? {
        return [Error(sid, UpdateFailedMessage)];
      }
      var change := data.value;
      if TooLarge(change.content, config.maxDocumentSize) {
        return [Error(sid, TooLargeMessage)];
      }
      ghost var docs0 := documents.documents;
      var ok := documents.UpdateDocument(change.documentId, Documents.DocumentPatch(None, Some(change.content)), now);
      if !ok {
        return [Error(sid, NotFoundMessage)];
      }
      assert Consistent(documents.documents, users.users, rooms) by {
        ConsistentAfterEdit(docs0, users.users, rooms, change.documentId, documents.documents[change.documentId]);
      }
      out := [Outbound(Room(change.documentId) - {sid}, "text-update", TextUpdate(change.content, sid, u.name, u.color))];
    }

    /** `cursor-move`. When cursor sharing is on and the socket has joined, its record takes
        the cursor and the rest of its document's room is told; otherwise nothing happens. */
    method HandleCursorMove(sid: string, cursor: Option<Users.Cursor>) returns (out: seq<Outbound>)
      requires Valid()
      modifies users
      ensures Valid()
      ensures users.order == old(users.order) && users.userActivity == old(users.userActivity)
      ensures !config.enableCursorSharing || sid !in old(users.users) ==> out == [] && users.users == old(users.users)
      ensures config.enableCursorSharing && sid in old(users.users) ==>
        var u := old(users.users[sid]);
        && users.users == old(users.users)[sid := u.(cursor := cursor)]
        && out == [Outbound(Room(u.documentId) - {sid}, "cursor-update", CursorUpdate(sid, u.name, u.color, cursor))]
    {
      if !config.enableCursorSharing {
        return [];
      }
      var user := users.GetUser(sid);
      if user.None? {
        return [];
      }
      var u := user.value;
      ghost var parts0 := users.users;
      users.users := users.users[sid := u.(cursor := cursor)];
      assert Consistent(documents.documents, users.users, rooms) by {
        ConsistentAfterProfileChange(documents.documents, parts0, rooms, sid, u.(cursor := cursor));
      }
      out := [Outbound(Room(u.documentId) - {sid}, "cursor-update", CursorUpdate(sid, u.name, u.color, cursor))];
    }

    /** `user-typing`. When typing indicators are on and the socket has joined, its record
        takes the flag and the rest of its document's room is told; otherwise nothing
        happens. */
    method HandleUserTyping(sid: string, isTyping: bool) returns (out: seq<Outbound>)
      requires Valid()
      modifies users
      ensures Valid()
      ensures users.order == old(users.order) && users.userActivity == old(users.userActivity)
      ensures !config.enableTypingIndicators || sid !in old(users.users) ==> out == [] && users.users == old(users.users)
      ensures config.enableTypingIndicators && sid in old(users.users) ==>
        var u := old(users.users[sid]);
        && users.users == old(users.users)[sid := u.(isTyping := isTyping)]
        && out == [Outbound(Room(u.documentId) - {sid}, "user-typing", TypingUpdate(sid, u.name, u.color, isTyping))]
    {
      if !config.enableTypingIndicators {
        return [];
      }
      var user := users.GetUser(sid);
      if user.None? {
        return [];
      }
      var u := user.value;
      ghost var parts0 := users.users;
      users.users := users.users[sid := u.(isTyping := isTyping)];
      assert Consistent(documents.documents, users.users, rooms) by {
        ConsistentAfterProfileChange(documents.documents, parts0, rooms, sid, u.(isTyping := isTyping));
      }
      out := [Outbound(Room(u.documentId) - {sid}, "user-typing", TypingUpdate(sid, u.name, u.color, isTyping))];
    }

    /** `title-change`. Silent for a socket that has not joined; an empty, non-string or
        over-long title is refused. Otherwise the sender's document takes the title and its
        whole room, the sender included, is told. */
    method HandleTitleChange(sid: string, newTitle: Option<string>, now: nat) returns (out: seq<Outbound>)
      requires Valid()
      modifies documents
      ensures Valid()
      ensures documents.order == old(documents.order)
      ensures sid !in users.users ==> out == [] && documents.documents == old(documents.documents)
      ensures sid in users.users && TitleRejected(newTitle) ==>
        out == [Error(sid, InvalidTitleMessage)] && documents.documents == old(documents.documents)
      ensures sid in users.users && !TitleRejected(newTitle) ==>
        var u := users.users[sid];
        && u.documentId in old(documents.documents)
        && var d0 := old(documents.documents[u.documentId]);
        && documents.documents == old(documents.documents)[u.documentId := d0.(title := Some(newTitle.value),
                                                                                  updatedAt := now, version := d0.version + 1)]
        && out == [Outbound(Room(u.documentId), "title-updated", TitleUpdated(newTitle.value, u.name))]
    {
      var user := users.GetUser(sid);
      if user.None? {
        return [];
      }
      var u := user.value;
      if TitleRejected(newTitle) {
        return [Error(sid, InvalidTitleMessage)];
      }
      assert JoinedIn(documents.documents, users.users, rooms, sid);
      ghost var docs0 := documents.documents;
      var ok := documents.UpdateDocument(u.documentId, Documents.DocumentPatch(Some(newTitle.value), None), now);
      if ok {
        assert Consistent(documents.documents, users.users, rooms) by {
          ConsistentAfterEdit(docs0, users.users, rooms, u.documentId, documents.documents[u.documentId]);
        }
        out := [Outbound(Room(u.documentId), "title-updated", TitleUpdated(newTitle.value, u.name))];
      } else {
        out := [];
      }
    }

    /** `update-user-info`. Silent for a socket that has not joined. Otherwise the record takes
        the name when it is non-empty and at most 20 characters and the colour when it is
        non-empty, and the whole room gets the user list, which shows the new profile. */
    method HandleUserInfoUpdate(sid: string, info: UserInfo) returns (out: seq<Outbound>)
      requires Valid()
      modifies users
      ensures Valid()
      ensures users.order == old(users.order) && users.userActivity == old(users.userActivity)
      ensures sid !in old(users.users) ==> out == [] && users.users == old(users.users)
      ensures sid in old(users.users) ==>
        var u := old(users.users[sid]);
        && users.users == old(users.users)[sid := u.(name := if NameApplies(info.name) then info.name.value else u.name,
                                                     color := if ColorApplies(info.color) then info.color.value else u.color)]
        && out == [UserListBroadcast(u.documentId)]
        && Users.Summarize(users.users[sid]) in users.GetUsersInDocument(u.documentId)
    {
      var user := users.GetUser(sid);
      if user.None? {
        return [];
      }
      var u := user.value;
      var v := u;
      if NameApplies(info.name) {
        v := v.(name := info.name.value);
      }
      if ColorApplies(info.color) {
        v := v.(color := info.color.value);
      }
      ghost var parts0 := users.users;
      users.users := users.users[sid := v];
      assert Consistent(documents.documents, users.users, rooms) by {
        ConsistentAfterProfileChange(documents.documents, parts0, rooms, sid, v);
      }
      assert Users.Summarize(users.users[sid]) in users.GetUsersInDocument(u.documentId) by {
        users.UsersInDocumentExact(u.documentId, Users.Summarize(users.users[sid]));
      }
      out := [UserListBroadcast(u.documentId)];
    }

    /** `disconnect`. The socket has already left every room. A joined socket is removed from
        its document's `users` set, the rest of the room is told it left, the room gets the
        user list computed before the record is dropped (so it still shows the departing
        user), and then the record is dropped. The active count falls in every case. */
    method HandleDisconnect(sid: string, reason: string) returns (out: seq<Outbound>)
      requires Valid()
      modifies this, documents, users
      ensures Valid()
      ensures rooms == LeaveAll(old(rooms), sid)
      ensures totalConnections == old(totalConnections) && activeConnections == old(activeConnections) - 1
      ensures documents.order == old(documents.order)
      ensures users.order == Remove(old(users.order), sid)
      ensures users.userActivity == old(users.userActivity) - {sid}
      ensures sid !in old(users.users) ==>
        out == [] && documents.documents == old(documents.documents) && users.users == old(users.users)
      ensures sid in old(users.users) ==>
        var u := old(users.users[sid]);
        && u.documentId in old(documents.documents)
        && var d0 := old(documents.documents[u.documentId]);
        && documents.documents == old(documents.documents)[u.documentId := d0.(users := Remove(d0.users, sid))]
        && users.users == old(users.users) - {sid}
        && out == [
             Outbound(Room(u.documentId) - {sid}, "user-left", UserLeft(sid, u.name, reason)),
             Outbound(Room(u.documentId), "users-update", UsersUpdate(old(users.GetUsersInDocument(u.documentId))))]
        && Users.Summarize(u) in old(users.GetUsersInDocument(u.documentId))
    {
      ghost var docs0, parts0, rooms0 := documents.documents, users.users, rooms;
      rooms := LeaveAll(rooms, sid);
      var user := users.GetUser(sid);
      out := [];
      if user.None? {
        assert Consistent(documents.documents, users.users, rooms) by {
          ConsistentAfterStrangerLeaves(docs0, parts0, rooms0, sid);
        }
      } else {
        var u := user.value;
        assert JoinedIn(docs0, parts0, rooms0, sid);
        var found := documents.GetDocument(u.documentId);
        if found.Some? {
          var doc := found.value;
          documents.documents := documents.documents[u.documentId := doc.(users := Remove(doc.users, sid))];
          assert Users.Summarize(u) in users.GetUsersInDocument(u.documentId) by {
            users.UsersInDocumentExact(u.documentId, Users.Summarize(u));
          }
          var list := users.GetUsersInDocument(u.documentId);
          out := [
            Outbound(Room(u.documentId) - {sid}, "user-left", UserLeft(sid, u.name, reason)),
            Outbound(Room(u.documentId), "users-update", UsersUpdate(list))];
        }
        var _ := users.RemoveUser(sid);
        assert Consistent(documents.documents, users.users, rooms) by {
          ConsistentAfterLeave(docs0, parts0, rooms0, sid, u.documentId);
        }
      }
      activeConnections := activeConnections - 1;
    }
  }
}
