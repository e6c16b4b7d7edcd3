# Real-time collaboration server and client helpers, in Dafny

This project models the core of a small real-time collaborative editor. The server keeps
two in-memory stores and a Socket.IO hub on top of them:

- `Documents.DocumentManager` is the document store (`documentManager.js`). It is a `Map`
  from document id to document, iterated in insertion order, seeded with a welcome document.
  It supports create, read, update, delete, listing newest first, search by title or content
  ignoring letter case, pruning of stale documents and export.
- `Users.UserManager` is the presence store (`userManager.js`). It is a `Map` from socket id
  to participant record, with a second `Map` of activity statistics. It supports add, remove,
  patch, listing per document by join time, search by name, pruning of idle participants and
  moving a participant to another document.
- `Hub.Hub` is the event hub (`websocket.js`). It handles the `join-document`, `text-change`,
  `cursor-move`, `user-typing`, `title-change`, `update-user-info` and `disconnect` events and
  keeps the connection counters. Socket.IO rooms are a map from room name to a set of socket
  ids. Every handler returns the messages it sends as `Outbound` records, each with its
  recipients, its event name and its payload.
- `Client` holds three pieces of the browser client (`script.js`): `escapeHtml`,
  `getStatusText` and the reconnect-attempt counter.

Shared modules:

- `Js` holds the JavaScript built-ins the code relies on: `toLowerCase`, `substring`,
  `includes`, and `Set`'s `add` and `delete`.
- `Sorting` is the stable sort that `Array.prototype.sort` performs.
- `Pruning` is the delete-while-iterating loop that both stores run.

The hub's invariant is `Hub.Consistent`, part of `Hub.Hub.Valid`. It says that every
participant's record names its own socket id, and that the participant's document exists.
The socket is in that document's `users` set and in the room of that document. Every socket
in any room has a participant record. Every handler preserves the invariant.

These behaviours of the code are modelled as written:

- Joining an unknown, well-formed document id creates a document under a new generated id,
  not under the requested one. The lookup that follows finds nothing, and the join fails with
  "Failed to join document". The requested id is never created.
- Joining a second document does not leave the first. The old document's `users` set and the
  old room keep the socket.
- `text-change` writes to the `documentId` carried in the payload, not to the sender's
  document. The update is sent to that payload document's room.
- On `disconnect`, the final `users-update` broadcast is computed before the participant record
  is removed, so it still lists the leaving participant.
- An empty or missing title falls back to `config.DEFAULT_DOCUMENT_TITLE`, a key the configuration
  does not define (it defines `DEFAULTS.DOCUMENT_TITLE`). Such a document is stored with an
  `undefined` title, modelled as `None`. Every later search then throws when it lower-cases that
  title, so `SearchDocuments` returns `None` while any stored document is untitled.
- The welcome document's content is `config.WELCOME_DOCUMENT_CONTENT`, also undefined (the
  configuration defines `DEFAULTS.WELCOME_CONTENT`). `content || ''` turns it into the empty
  string, so the welcome document starts empty.

Side conditions and inputs:

- Clock readings are a `now: nat` argument in milliseconds.
- Generated uuids arrive as a `freshId` argument that is not yet a document id.
- The random colour arrives as a `randomColor` argument.
- Configuration values are a `Config` argument.

## Model

| member | source | states |
|---|---|---|
| Js.Take | websocket.js:113 | `substring(0, n)`: a prefix of the string, of length `min(n, |s|)` |
| Js.IncludesIffOccurs | documentManager.js:80-81 | `includes` holds exactly when the query occurs at some index of the text |
| Js.LowerIdempotent | documentManager.js:77 | lower-casing an already lower-cased string changes nothing |
| Js.Add | websocket.js:135 | `Set.add`: the elements grow by exactly `x`, no duplicate is created, and an element already present changes nothing |
| Js.Remove | websocket.js:278 | `Set.delete`: the elements lose exactly `x`, no duplicate appears, an absent element changes nothing, and a present one shortens the set by one |
| Js.RemoveSplit | websocket.js:278 | deleting an element keeps the others in their order: removing `x` from `a + [x] + b` gives `a + b` |
| Sorting.SortPermutes | userManager.js:48 | the sort returns a permutation of its input |
| Sorting.SortSorted | userManager.js:48 | the sort output is ordered by the key |
| Sorting.SortStable | userManager.js:48 | the sort is stable: elements with equal keys keep their input order |
| Sorting.SortSameElements | documentManager.js:44 | sorting keeps the length and the set of elements |
| Pruning.SurvivorsAndDropped | documentManager.js:96-101 | every visited key is kept exactly when its entry fails the condition, is deleted exactly when it satisfies it, and the kept keys stay duplicate-free |
| Pruning.Prune | documentManager.js:96-101 | deleting during iteration leaves exactly the entries that fail the condition, in their first order, and counts the deletions |
| Documents.HitsOfMembers | documentManager.js:78-88 | a search hit exists exactly for each listed document that matches the query |
| Documents.SummariesCover | documentManager.js:37-43 | every stored document's summary is among the listed summaries, and each listed summary is that of a stored document |
| Documents.ListingFacts | documentManager.js:36-45 | the listing has one entry per document, is ordered newest first, and each entry summarizes its stored document |
| Documents.DocumentManager.constructor | documentManager.js:5-13 | the store starts with only the welcome document, titled "Welcome Document", with empty content, version 1 and no participants |
| Documents.DocumentManager.CreateDocument | documentManager.js:15-30 | a new document under the fresh id, version 1, timestamps `now`, no participants, appended to the order; the count grows by one; the title is the given one, or undefined exactly when the given one is empty |
| Documents.DocumentManager.GetDocument | documentManager.js:32-34 | finds a document exactly for a stored id, and the one found carries that id |
| Documents.DocumentManager.HasDocument | documentManager.js:47-49 | true exactly when `getDocument` finds the id |
| Documents.DocumentManager.GetAllDocuments | documentManager.js:36-45 | one summary per stored document, newest update first, each equal to its document's summary |
| Documents.DocumentManager.ListingHasEveryDocument | documentManager.js:36-45 | every stored document appears in the listing |
| Documents.DocumentManager.ListingTiesInInsertionOrder | documentManager.js:44 | documents updated at the same time are listed in insertion order |
| Documents.DocumentManager.UpdateDocument | documentManager.js:51-61 | succeeds exactly for a stored id; assigns only the supplied fields, bumps the version, stamps `updatedAt`; otherwise changes nothing |
| Documents.DocumentManager.DeleteDocument | documentManager.js:63-70 | reports whether the id was stored and removes it from the map and the order |
| Documents.DocumentManager.GetDocumentCount | documentManager.js:72-74 | the count equals the length of the listing |
| Documents.DocumentManager.SearchDocuments | documentManager.js:76-89 | fails exactly when some stored document has no title; otherwise every hit is a stored document whose title or content contains the query in any letter case, the hits follow insertion order, and there are no more hits than documents |
| Documents.DocumentManager.UntitledSearchFails | documentManager.js:79-81 | a stored document without a title makes every search fail |
| Documents.DocumentManager.SearchFacts | documentManager.js:76-89 | every matching stored document is among the hits, each hit is the hit of a matching stored document, and there are no more hits than documents |
| Documents.DocumentManager.SearchKeepsOrder | documentManager.js:78-83 | the hits follow the store's insertion order: of two hits, the earlier one's document was inserted first |
| Documents.DocumentManager.SearchIsExact | documentManager.js:78-82 | when the search succeeds, a stored document is found exactly when it matches |
| Documents.DocumentManager.SearchIgnoresQueryCase | documentManager.js:77 | searching for a query and for its lower-cased form gives the same hits |
| Documents.DocumentManager.HitsOfSameQuery | documentManager.js:77-82 | two queries with the same lower-cased form select the same hits |
| Documents.DocumentManager.EmptySearchFindsAll | documentManager.js:80-81 | when every document has a title, the empty query finds every document |
| Documents.DocumentManager.HitsOfAll | documentManager.js:80-81 | the empty query selects every listed id |
| Documents.DocumentManager.CleanupOldDocuments | documentManager.js:92-108 | deletes exactly the documents that nobody is in and that were last updated more than `maxAgeHours` before `now` (24 hours by default), keeps the order of the rest, and returns how many it deleted |
| Documents.DocumentManager.ExportDocument | documentManager.js:111-121 | none exactly for an unknown id; otherwise the document's fields with the participant count |
| Users.ValuesWhere | userManager.js:38-39 | every selected record satisfies the filter, and there are no more records than ids |
| Users.ValuesWhereMembers | userManager.js:38-39 | a record is selected exactly when it is stored under a listed id and satisfies the filter |
| Users.ValuesWhereCount | userManager.js:72-76 | the number of selected records is the number of matching ids |
| Users.UserManager.constructor | userManager.js:2-5 | both maps start empty |
| Users.UserManager.AddUser | userManager.js:7-23 | stores the spread profile with the document and two timestamps, resets the activity record, and appends a new socket id to the order |
| Users.UserManager.GetUser | userManager.js:25-27 | finds a record exactly for a stored socket id, and the record found is the stored one |
| Users.UserManager.RemoveUser | userManager.js:29-35 | reports whether the socket was stored and deletes it from both maps and the order |
| Users.UserManager.GetUsersInDocument | userManager.js:37-49 | the document's participants, ordered by ascending join time |
| Users.UserManager.UsersInDocumentExact | userManager.js:37-49 | a summary is listed exactly when it summarizes a stored participant of the document |
| Users.UserManager.UsersInDocumentMembers | userManager.js:37-49 | the listing holds exactly the summaries of the participants stored in the document |
| Users.UserManager.UsersInDocumentCount | userManager.js:37-49 | the listing has one entry per socket in the document |
| Users.UserManager.UsersInDocumentTies | userManager.js:48 | participants who joined at the same time keep their insertion order |
| Users.UserManager.UpdateUser | userManager.js:51-66 | succeeds exactly for a stored socket; assigns only the supplied fields, stamps `lastActivity` and counts one more action |
| Users.UserManager.GetUserCount | userManager.js:68-70 | the count equals the number of ids in the order and of activity records |
| Users.UserManager.GetDocumentUserCount | userManager.js:72-76 | the count equals the length of the document's listing |
| Users.UserManager.FindUserByName | userManager.js:79-86 | every result's name contains the query in any letter case and is in the requested document when one is given |
| Users.UserManager.FindUserByNameExact | userManager.js:79-86 | a record is found exactly when it is stored and matches |
| Users.UserManager.FindIgnoresQueryCase | userManager.js:81 | searching for a name and for its lower-cased form gives the same records |
| Users.UserManager.FindWithoutDocument | userManager.js:82 | a missing document id and an empty one both search every document |
| Users.UserManager.SameSelection | userManager.js:80-83 | two filters that agree on every record select the same records |
| Users.UserManager.CleanupInactiveUsers | userManager.js:110-127 | deletes exactly the participants with no activity in the last `maxInactiveMinutes` (30 by default), keeps the order of the rest, keeps only the activity of survivors, and returns how many it deleted |
| Users.UserManager.UpdateUserDocument | userManager.js:130-139 | an unknown socket changes nothing and fails; otherwise moves the record, stamps `lastActivity` and reports the old and new document |
| Hub.JoinRejection | websocket.js:97-109 | a missing payload fails with "Failed to join document", a missing id with "Document ID is required", a malformed id with "Invalid document ID format"; no rejection exactly for a valid id |
| Hub.PlaceholderTitle | websocket.js:113 | "Document " followed by at most eight leading characters of the id |
| Hub.DisplayName | websocket.js:127 | the supplied name when non-empty, otherwise "User" and the first four characters of the socket id; never empty |
| Hub.LeaveAll | websocket.js:79-81 | on disconnect the socket leaves every room and nothing else changes in the rooms |
| Hub.ConsistentAfterCreate | websocket.js:111-114 | creating a document under a new id keeps the hub invariant |
| Hub.ConsistentAfterEdit | websocket.js:173 | changing a document's content or title keeps the hub invariant |
| Hub.ConsistentAfterProfileChange | websocket.js:202 | changing a participant's fields other than id and document keeps the hub invariant |
| Hub.ConsistentAfterJoin | websocket.js:134-136 | adding the record, the document membership and the room membership together keeps the hub invariant |
| Hub.ConsistentAfterLeave | websocket.js:276-287 | removing a participant from its document, the store and every room keeps the hub invariant |
| Hub.ConsistentAfterStrangerLeaves | websocket.js:270-272 | a socket that never joined leaves every room without breaking the hub invariant |
| Hub.Hub.constructor | websocket.js:5-24 | the hub starts with empty rooms, zero counters and the invariant |
| Hub.IsValidDocumentId | websocket.js:308-312 | an id is accepted exactly when it is a string equal to "default" or of length 36; an accepted id is never the missing one and has 7 or 36 characters |
| Hub.Hub.UserListBroadcast | websocket.js:294-297 | sends `users-update` to everyone in the document's room, carrying the document's listing, which `Hub.Hub.UserListBroadcastLists` shows is exactly its participants in join order |
| Hub.Hub.UserListBroadcastLists | websocket.js:294-297 | the broadcast list holds exactly the summaries of the document's participants, earliest joiner first, one per socket |
| Hub.Hub.HandleConnection | websocket.js:37-39 | both connection counters grow by one, the rooms do not change and the hub invariant is kept |
| Hub.Hub.Admit | websocket.js:124-150 | adds the record, the document membership and the room membership, and sends the document state, `user-joined` to the others and the new listing |
| Hub.Hub.CreateIfMissing | websocket.js:111-114 | a known id changes nothing; an unknown id creates a placeholder document under the fresh id |
| Hub.Hub.JoinStored | websocket.js:116-157 | a missing document fails with "Failed to join document", a full one with the capacity error, otherwise the participant is admitted under the supplied name and colour, or the defaults for empty ones |
| Hub.Hub.HandleJoinDocument | websocket.js:96-157 | every rejection sends one error and changes nothing; an unknown id creates a document under the fresh id and fails; a full document fails; otherwise the joiner is stored, belongs to the document and its room, and is listed in the state it receives |
| Hub.Hub.HandleTextChange | websocket.js:159-194 | ignores unknown sockets; rejects oversize content and unknown documents with an error; otherwise updates the payload's document and sends `text-update` to the rest of its room |
| Hub.Hub.HandleCursorMove | websocket.js:196-213 | when enabled and the socket is known, replaces the cursor, leaves everything else of the record, and sends `cursor-update` to the rest of the room |
| Hub.Hub.HandleUserTyping | websocket.js:215-232 | when enabled and the socket is known, sets the typing flag and sends `user-typing` to the rest of the room |
| Hub.Hub.HandleTitleChange | websocket.js:234-252 | ignores unknown sockets; rejects empty or overlong titles with an error; otherwise renames the sender's document and tells its whole room |
| Hub.Hub.HandleUserInfoUpdate | websocket.js:254-268 | applies a non-empty name of at most 20 characters and a non-empty colour, and sends the room a listing that holds the updated participant |
| Hub.Hub.HandleDisconnect | websocket.js:270-292 | the socket leaves every room and both stores, and the active count drops by one; a participant also leaves its document, and the others get `user-left` and the listing taken before the record was removed |
| Client.EscapeHtml | script.js:474-482 | a missing value escapes to the empty string |
| Client.ChainIsEscapeEach | script.js:476-481 | the five global replacements in order equal escaping each character on its own |
| Client.EscapeHtmlConcat | script.js:474-482 | escaping distributes over concatenation |
| Client.EscapeHtmlNoMarkup | script.js:474-482 | the output holds none of `<`, `>`, `"` and `'` |
| Client.EscapeHtmlAmpersands | script.js:474-482 | every `&` in the output starts one of the five entities |
| Client.EscapeHtmlOfEntity | script.js:477-478 | escaping is not idempotent: an `&` followed by plain text, as in an entity already in the input, becomes `&amp;` followed by the same text |
| Client.EscapeHtmlSafe | script.js:474-482 | a string without the five special characters is returned unchanged |
| Client.EscapeHtmlRoundTrip | script.js:474-482 | decoding the five entities restores the input |
| Client.GetStatusText | script.js:376-383 | "Connected", "Disconnected" and "Connecting..." exactly for the three known states, "Unknown" otherwise |
| Client.AttemptsSaturate | script.js:336-338 | repeated attempts from at most five stop at five |
| Client.Reconnector.constructor | script.js:9-10 | the counter starts at zero |
| Client.Reconnector.AttemptReconnect | script.js:336-351 | a reconnect is scheduled exactly when fewer than five attempts were made; the counter then grows by one, otherwise it stays, and a counter of at most five stays at most five |
| Client.Reconnector.Reset | script.js:149-152 | a successful connection resets the counter |
| Client.Reconnector.RecordAttempt | script.js:202-204 | the counter takes the attempt number reported by the socket |

## Left out

- Logging, `setInterval` statistics, the `welcome` and `pong` messages and the Socket.IO
  delivery itself are not modelled. Messages are returned as `Outbound` values.
- `uuidv4`, `Math.random` and `new Date()` are replaced by the `freshId`, `randomColor` and
  `now` arguments. Dates are milliseconds as `nat`, and ISO timestamps in payloads are left out.
- `toLowerCase` is modelled for ASCII letters only. String lengths count `char`s, which matches
  UTF-16 code units only for the basic plane.
- `getUserActivity` and `getAllUsersWithActivity` in `userManager.js` are not part of this model.
- Payloads that are not objects, and non-string `content`, `name`, `title` and `documentId`
  values, are not modelled beyond the `IdArg` cases of `join-document`.
- `update-user-info` with no payload throws in the code. The model always receives a
  `UserInfo`.
- `Object.assign` in `updateDocument` and `updateUser` is limited to the fields the datatypes
  declare.
- The configuration is a `Config` argument. The limits are `Option<nat>`. An unset
  `MAX_USERS_PER_DOCUMENT` or `MAX_DOCUMENT_SIZE` is `None`, because a JavaScript comparison
  with `undefined` is false: no document is then full and no content too large.
- `cleanupInactiveUsers` deletes each activity record inside the loop. The model deletes the
  same set of records after the loop, which leaves the same final state.
- A falsy title argument (`undefined`, `null` or `''`) reaches `createDocument` as the empty
  string; the three are not told apart.
- The connection counters are not tied to a set of live sockets, so `activeConnections` is an
  `int` that the model does not bound.
- `getStatusText` looks keys up in an object literal. Inherited keys such as `"constructor"`
  are not modelled.
- The reconnect delay (`Math.pow(1.5, n)`, floating point) and the timer are not modelled.
- Client.Reconnector.RecordAttempt: the counter takes whatever attempt number the socket
  reports, so the bound of five that `AttemptReconnect` keeps is not claimed after it.
- The client's other DOM and editor code is not part of this model.
