/** The presence store (`UserManager`): a `Map` from socket id to participant record, kept in
    insertion order, beside a `Map` from socket id to activity statistics. */
module Users {
  import opened Js
  import Sorting
  import Pruning

  /** `maxInactiveMinutes * 60 * 1000`: the clock counts milliseconds. */
  const MillisPerMinute: nat := 60_000

  /** The default of `cleanupInactiveUsers`' `maxInactiveMinutes`. */
  const DefaultMaxInactiveMinutes: nat := 30

  /** The caret position a client reports with `cursor-move`. */
  datatype Cursor = Cursor(x: int, y: int, height: int)

  /** The `userData` object handed to `addUser`. */
  datatype Profile = Profile(
    id: string, name: string, color: string, cursor: Option<Cursor>, isTyping: bool, joinedAt: nat)

  /** A participant record: the profile spread out, the document joined and two timestamps. */
  datatype User = User(
    id: string,
    name: string,
    color: string,
    cursor: Option<Cursor>,
    isTyping: bool,
    joinedAt: nat,
    documentId: string,
    connectedAt: nat,
    lastActivity: nat)

  datatype Activity = Activity(joinTime: nat, lastAction: nat, actionCount: nat)

  /** An entry of `getUsersInDocument`. */
  datatype UserSummary = UserSummary(
    id: string, name: string, color: string, isTyping: bool, cursor: Option<Cursor>, joinedAt: nat)

  /** The `updates` object handed to `updateUser`: only the supplied fields are assigned.
      `cursor` is `Some(None)` when the update sets it to `null`. */
  datatype UserPatch = UserPatch(
    name: Option<string>,
    color: Option<string>,
    cursor: Option<Option<Cursor>>,
    isTyping: Option<bool>,
    documentId: Option<string>)

  /** The result of `updateUserDocument`: `{success: true, oldDocumentId, newDocumentId}` or
      `{success: false}`. */
  datatype DocumentSwitch = Switched(oldDocumentId: string, newDocumentId: string) | NoSuchUser

  function Summarize(u: User): UserSummary {
    UserSummary(u.id, u.name, u.color, u.isTyping, u.cursor, u.joinedAt)
  }

  /** The sort key of `getUsersInDocument`: the comparator `a.joinedAt - b.joinedAt` orders by
      ascending join time. */
  function JoinedAt(s: UserSummary): int {
    s.joinedAt
  }

  /** The filter of `getUsersInDocument` and `getDocumentUserCount`. */
  function InDocument(documentId: string): User -> bool {
    (u: User) => u.documentId == documentId
  }

  /** The cutoff of `cleanupInactiveUsers`: `maxInactiveMinutes` before `now`. */
  function Cutoff(now: nat, maxInactiveMinutes: nat): int {
    now - maxInactiveMinutes * MillisPerMinute
  }

  /** The cleanup condition: no activity since the cutoff. */
  function Idle(cutoff: int): (r: User -> bool)
    ensures forall u :: r(u) <==> u.lastActivity < cutoff
  {
    (u: User) => u.lastActivity < cutoff
  }

  /** `!documentId` is false: the search is restricted to one document. A missing id, `null`
      and the empty string all leave it unrestricted. */
  predicate Restricts(documentId: Option<string>) {
    documentId.Some? && documentId.value != ""
  }

  /** The filter of `findUserByName`: the lower-cased name includes the lower-cased query, and
      the user is in the requested document when one is given. */
  predicate Found(u: User, name: string, documentId: Option<string>) {
    Includes(Lower(u.name), Lower(name)) && (!Restricts(documentId) || u.documentId == documentId.value)
  }

  function Finder(name: string, documentId: Option<string>): User -> bool {
    (u: User) => Found(u, name, documentId)
  }

  /** The records stored under `ids` that satisfy `p`, in the order of `ids`. */
  function ValuesWhere(m: map<string, User>, ids: seq<string>, p: User -> bool): (r: seq<User>)
    requires forall i :: 0 <= i < |ids| ==> ids[i] in m
    ensures |r| <= |ids|
    ensures forall k :: 0 <= k < |r| ==> p(r[k])
  {
    if ids == [] then []
    else (if p(m[ids[0]]) then [m[ids[0]]] else []) + ValuesWhere(m, ids[1..], p)
  }

  /** A selected record is stored under one of `ids` and satisfies `p`, and every such record
      is selected. */
  lemma {:induction false} ValuesWhereMembers(m: map<string, User>, ids: seq<string>, p: User -> bool)
    requires forall i :: 0 <= i < |ids| ==> ids[i] in m
    ensures forall u :: u in ValuesWhere(m, ids, p) <==> exists i :: 0 <= i < |ids| && p(m[ids[i]]) && u == m[ids[i]]
  {
    if ids != [] {
      var tail := ids[1..];
      assert forall i :: 1 <= i < |ids| ==> ids[i] == tail[i - 1];
      ValuesWhereMembers(m, tail, p);
      forall u ensures u in ValuesWhere(m, ids, p) <==> exists i :: 0 <= i < |ids| && p(m[ids[i]]) && u == m[ids[i]] {
        if u in ValuesWhere(m, tail, p) {
          var j :| 0 <= j < |tail| && p(m[tail[j]]) && u == m[tail[j]];
          assert ids[j + 1] == tail[j];
        }
        if exists i :: 0 <= i < |ids| && p(m[ids[i]]) && u == m[ids[i]] {
          var i :| 0 <= i < |ids| && p(m[ids[i]]) && u == m[ids[i]];
          if i > 0 {
            assert tail[i - 1] == ids[i];
          }
        }
      }
    }
  }

  /** The keys among `ids` whose records satisfy `p`. */
  function KeysWhere(m: map<string, User>, ids: seq<string>, p: User -> bool): set<string>
    requires forall i :: 0 <= i < |ids| ==> ids[i] in m
  {
    if ids == [] then {}
    else (if p(m[ids[0]]) then {ids[0]} else {}) + KeysWhere(m, ids[1..], p)
  }

  /** Along a duplicate-free key list, one record is selected per key whose record satisfies
      `p`. */
  lemma {:induction false} ValuesWhereCount(m: map<string, User>, ids: seq<string>, p: User -> bool)
    requires forall i :: 0 <= i < |ids| ==> ids[i] in m
    requires Distinct(ids)
    ensures forall s :: s in KeysWhere(m, ids, p) <==> s in ids && p(m[s])
    ensures |ValuesWhere(m, ids, p)| == |KeysWhere(m, ids, p)|
  {
    if ids != [] {
      var tail := ids[1..];
      assert ids == [ids[0]] + tail;
      assert forall i :: 0 <= i < |tail| ==> tail[i] == ids[i + 1];
      DistinctCons(ids[0], tail);
      ValuesWhereCount(m, tail, p);
      assert ids[0] !in KeysWhere(m, tail, p);
    }
  }

  /** The summaries of `us`, in that order. */
  function Summaries(us: seq<User>): (r: seq<UserSummary>)
    ensures |r| == |us|
    ensures forall i :: 0 <= i < |us| ==> r[i] == Summarize(us[i])
  {
    seq(|us|, i requires 0 <= i < |us| => Summarize(us[i]))
  }

  class UserManager {
    /** The `users` Map and the order in which its keys were first inserted. */
    var users: map<string, User>
    var order: seq<string>
    var userActivity: map<string, Activity>

    /** The key order lists each key once, and every participant has activity statistics and
        nothing else has. */
    ghost predicate Valid()
      reads this
    {
      && Distinct(order)
      && users.Keys == Elems(order)
      && userActivity.Keys == users.Keys
    }

    lemma OrderIsStored()
      requires Valid()
      ensures forall i :: 0 <= i < |order| ==> order[i] in users
    {
      forall i | 0 <= i < |order| ensures order[i] in users {
        assert order[i] in Elems(order);
      }
    }

    lemma SizeIsOrderLength()
      requires Valid()
      ensures |users| == |order|
    {
      DistinctCard(order);
      assert |users.Keys| == |users|;
    }

    constructor ()
      ensures Valid()
      ensures users == map[] && order == [] && userActivity == map[]
    {
      users, order, userActivity := map[], [], map[];
    }

    /** Stores the record for `socketId` with the requested document and fresh timestamps,
        and resets its statistics; an earlier record for the socket is overwritten and keeps
        its place in the key order. */
    method AddUser(socketId: string, documentId: string, userData: Profile, now: nat)
      returns (user: User)
      requires Valid()
      modifies this
      ensures Valid()
      ensures user.documentId == documentId && user.connectedAt == now && user.lastActivity == now
      ensures user.id == userData.id && user.name == userData.name && user.color == userData.color
      ensures user.cursor == userData.cursor && user.isTyping == userData.isTyping
      ensures user.joinedAt == userData.joinedAt
      ensures users == old(users)[socketId := user]
      ensures userActivity == old(userActivity)[socketId := Activity(now, now, 0)]
      ensures order == Add(old(order), socketId)
    {
      user := User(userData.id, userData.name, userData.color, userData.cursor, userData.isTyping,
                   userData.joinedAt, documentId, now, now);
      users := users[socketId := user];
      order := Add(order, socketId);
      userActivity := userActivity[socketId := Activity(now, now, 0)];
    }

    function GetUser(socketId: string): (r: Option<User>)
      reads this
      ensures r.Some? <==> socketId in users
      ensures r.Some? ==> r.value == users[socketId]
    {
      if socketId in users then Some(users[socketId]) else None
    }

    /** Forgets the socket in both maps and reports whether it had a record. */
    method RemoveUser(socketId: string) returns (removed: bool)
      requires Valid()
      modifies this
      ensures Valid()
      ensures removed <==> socketId in old(users)
      ensures users == old(users) - {socketId}
      ensures userActivity == old(userActivity) - {socketId}
      ensures order == Remove(old(order), socketId)
      ensures GetUser(socketId) == None
    {
      if socketId in users {
        userActivity := userActivity - {socketId};
      }
      removed := socketId in users;
      users := users - {socketId};
      order := Remove(order, socketId);
    }

    /** The summaries of the participants of `documentId`, earliest joiner first. */
    function GetUsersInDocument(documentId: string): (r: seq<UserSummary>)
      reads this
      requires Valid()
      ensures |r| <= |users|
      ensures forall i, j :: 0 <= i < j < |r| ==> r[i].joinedAt <= r[j].joinedAt
    {
      OrderIsStored();
      SizeIsOrderLength();
      var all := Summaries(ValuesWhere(users, order, InDocument(documentId)));
      Sorting.SortSorted(all, JoinedAt);
      Sorting.SortSameElements(all, JoinedAt);
      Sorting.SortByKey(all, JoinedAt)
    }

    /** A summary is listed for a document exactly when it is the summary of a participant of
        that document. */
    lemma UsersInDocumentExact(documentId: string, x: UserSummary)
      requires Valid()
      ensures x in GetUsersInDocument(documentId) <==>
        exists s :: s in users && users[s].documentId == documentId && x == Summarize(users[s])
    {
      OrderIsStored();
      var sel := ValuesWhere(users, order, InDocument(documentId));
      var all := Summaries(sel);
      Sorting.SortSameElements(all, JoinedAt);
      ValuesWhereMembers(users, order, InDocument(documentId));
      if x in all {
        var k :| 0 <= k < |all| && all[k] == x;
        assert sel[k] in sel;
        var i :| 0 <= i < |order| && InDocument(documentId)(users[order[i]]) && sel[k] == users[order[i]];
        assert users[order[i]].documentId == documentId;
      }
      if exists s :: s in users && users[s].documentId == documentId && x == Summarize(users[s]) {
        var s :| s in users && users[s].documentId == documentId && x == Summarize(users[s]);
        assert s in Elems(order);
        var i :| 0 <= i < |order| && order[i] == s;
        assert users[s] in sel;
        var k :| 0 <= k < |sel| && sel[k] == users[s];
        assert all[k] == x;
      }
    }

    /** The listing holds exactly the summaries of the participants of the document. */
    lemma UsersInDocumentMembers(documentId: string)
      requires Valid()
      ensures forall x :: x in GetUsersInDocument(documentId) <==>
        exists s :: s in users && users[s].documentId == documentId && x == Summarize(users[s])
    {
      forall x ensures x in GetUsersInDocument(documentId) <==>
        exists s :: s in users && users[s].documentId == documentId && x == Summarize(users[s])
      {
        UsersInDocumentExact(documentId, x);
      }
    }

    /** The listing has one entry per socket in the document. */
    lemma UsersInDocumentCount(documentId: string)
      requires Valid()
      ensures |GetUsersInDocument(documentId)| == |set s | s in users && users[s].documentId == documentId|
    {
      OrderIsStored();
      var all := Summaries(ValuesWhere(users, order, InDocument(documentId)));
      Sorting.SortSameElements(all, JoinedAt);
      ValuesWhereCount(users, order, InDocument(documentId));
      forall s ensures s in KeysWhere(users, order, InDocument(documentId)) <==> s in users && users[s].documentId == documentId {
        if s in users {
          assert s in Elems(order);
        }
      }
      assert KeysWhere(users, order, InDocument(documentId))
          == (set s | s in users && users[s].documentId == documentId);
    }

    /** Participants who joined at the same time are listed in the insertion order of the
        store. */
    lemma UsersInDocumentTies(documentId: string, joinedAt: nat)
      requires Valid()
      ensures forall i :: 0 <= i < |order| ==> order[i] in users
      ensures Sorting.WithKey(GetUsersInDocument(documentId), JoinedAt, joinedAt)
           == Sorting.WithKey(Summaries(ValuesWhere(users, order, InDocument(documentId))), JoinedAt, joinedAt)
    {
      OrderIsStored();
      Sorting.SortStable(Summaries(ValuesWhere(users, order, InDocument(documentId))), JoinedAt, joinedAt);
    }

    /** When `socketId` has a record, assigns the supplied fields, stamps `lastActivity` and
        counts one more action; otherwise changes nothing. */
    method UpdateUser(socketId: string, updates: UserPatch, now: nat) returns (ok: bool)
      requires Valid()
      modifies this
      ensures Valid()
      ensures ok <==> socketId in old(users)
      ensures order == old(order)
      ensures !ok ==> users == old(users) && userActivity == old(userActivity)
      ensures ok ==> socketId in users && users == old(users)[socketId := users[socketId]]
      ensures ok ==>
        var u, u' := old(users[socketId]), users[socketId];
        && u'.name == updates.name.GetOr(u.name)
        && u'.color == updates.color.GetOr(u.color)
        && u'.cursor == updates.cursor.GetOr(u.cursor)
        && u'.isTyping == updates.isTyping.GetOr(u.isTyping)
        && u'.documentId == updates.documentId.GetOr(u.documentId)
        && u'.lastActivity == now
        && u'.id == u.id && u'.joinedAt == u.joinedAt && u'.connectedAt == u.connectedAt
      ensures ok ==>
        var a, a' := old(userActivity[socketId]), userActivity[socketId];
        && userActivity == old(userActivity)[socketId := a']
        && a'.actionCount == a.actionCount + 1 && a'.lastAction == now && a'.joinTime == a.joinTime
    {
      ok := socketId in users;
      if ok {
        var u := users[socketId];
        users := users[socketId := u.(
          name := updates.name.GetOr(u.name),
          color := updates.color.GetOr(u.color),
          cursor := updates.cursor.GetOr(u.cursor),
          isTyping := updates.isTyping.GetOr(u.isTyping),
          documentId := updates.documentId.GetOr(u.documentId),
          lastActivity := now)];
        if socketId in userActivity {
          var a := userActivity[socketId];
          userActivity := userActivity[socketId := a.(lastAction := now, actionCount := a.actionCount + 1)];
        }
      }
    }

    /** `users.size`. */
    function GetUserCount(): (n: nat)
      reads this
      requires Valid()
      ensures n == |order| && n == |userActivity|
    {
      SizeIsOrderLength();
      |users|
    }

    /** The number of participants of `documentId`: the length of its listing. */
    function GetDocumentUserCount(documentId: string): (n: nat)
      reads this
      requires Valid()
      ensures n == |GetUsersInDocument(documentId)|
    {
      OrderIsStored();
      var all := Summaries(ValuesWhere(users, order, InDocument(documentId)));
      Sorting.SortSameElements(all, JoinedAt);
      |ValuesWhere(users, order, InDocument(documentId))|
    }

    /** The records whose name contains `name` in any letter case, restricted to one document
        when `documentId` is given, in insertion order. */
    function FindUserByName(name: string, documentId: Option<string>): (r: seq<User>)
      reads this
      requires Valid()
      ensures |r| <= |users|
      ensures forall k :: 0 <= k < |r| ==> Found(r[k], name, documentId)
    {
      OrderIsStored();
      SizeIsOrderLength();
      ValuesWhere(users, order, Finder(name, documentId))
    }

    /** A record is found exactly when it is stored and matches. */
    lemma FindUserByNameExact(name: string, documentId: Option<string>, u: User)
      requires Valid()
      ensures u in FindUserByName(name, documentId) <==>
        exists s :: s in users && users[s] == u && Found(u, name, documentId)
    {
      OrderIsStored();
      ValuesWhereMembers(users, order, Finder(name, documentId));
      if exists s :: s in users && users[s] == u && Found(u, name, documentId) {
        var s :| s in users && users[s] == u && Found(u, name, documentId);
        assert s in Elems(order);
        var i :| 0 <= i < |order| && order[i] == s;
        assert Finder(name, documentId)(users[order[i]]);
      }
    }

    /** The name is matched ignoring letter case, in the query too. */
    lemma FindIgnoresQueryCase(name: string, documentId: Option<string>)
      requires Valid()
      ensures FindUserByName(name, documentId) == FindUserByName(Lower(name), documentId)
    {
      OrderIsStored();
      LowerIdempotent(name);
      SameSelection(order, Finder(name, documentId), Finder(Lower(name), documentId));
    }

    /** Without a document id, or with the empty one, every document is searched. */
    lemma FindWithoutDocument(name: string)
      requires Valid()
      ensures FindUserByName(name, None) == FindUserByName(name, Some(""))
    {
      OrderIsStored();
      SameSelection(order, Finder(name, None), Finder(name, Some("")));
    }

    lemma {:induction false} SameSelection(ids: seq<string>, p: User -> bool, q: User -> bool)
      requires forall i :: 0 <= i < |ids| ==> ids[i] in users
      requires forall u :: p(u) == q(u)
      ensures ValuesWhere(users, ids, p) == ValuesWhere(users, ids, q)
    {
      if ids != [] {
        assert forall i :: 0 <= i < |ids[1..]| ==> ids[1..][i] == ids[i + 1];
        SameSelection(ids[1..], p, q);
      }
    }

    /** Deletes exactly the participants with no activity in the last `maxInactiveMinutes`
        from both maps, keeping the others in their order, and returns how many it deleted. */
    method CleanupInactiveUsers(now: nat, maxInactiveMinutes: nat := DefaultMaxInactiveMinutes) returns (cleaned: nat)
      requires Valid()
      modifies this
      ensures Valid()
      ensures users == (map s | s in old(users) && !Idle(Cutoff(now, maxInactiveMinutes))(old(users)[s]) :: old(users)[s])
      ensures order == Pruning.Survivors(old(users), Idle(Cutoff(now, maxInactiveMinutes)), old(order))
      ensures forall s :: s in userActivity ==> s in old(userActivity) && userActivity[s] == old(userActivity)[s]
      ensures cleaned == |old(users)| - |users|
    {
      var kept, ord;
      kept, ord, cleaned := Pruning.Prune(users, Idle(Cutoff(now, maxInactiveMinutes)), order);
      var activity := map s | s in userActivity && s in kept :: userActivity[s];
      users, order, userActivity := kept, ord, activity;
    }

    /** Moves the participant to another document, stamping `lastActivity`, and reports the
        document it left; an unknown socket changes nothing. */
    method UpdateUserDocument(socketId: string, newDocumentId: string, now: nat)
      returns (r: DocumentSwitch)
      requires Valid()
      modifies this
      ensures Valid()
      ensures r.NoSuchUser? <==> socketId !in old(users)
      ensures r.NoSuchUser? ==> users == old(users)
      ensures r.Switched? ==>
        && r.oldDocumentId == old(users[socketId]).documentId
        && r.newDocumentId == newDocumentId
        && users == old(users)[socketId := old(users[socketId]).(documentId := newDocumentId, lastActivity := now)]
      ensures order == old(order) && userActivity == old(userActivity)
    {
      if socketId in users {
        var u := users[socketId];
        users := users[socketId := u.(documentId := newDocumentId, lastActivity := now)];
        r := Switched(u.documentId, newDocumentId);
      } else {
        r := NoSuchUser;
      }
    }
  }
}
