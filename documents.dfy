/** The in-memory document store (`DocumentManager`): a `Map` from document id to document,
    kept in insertion order, with creation, versioned updates, deletion, listing, search,
    age-based cleanup and export. */
module Documents {
  import opened Js
  import Sorting
  import Pruning

  /** `maxAgeHours * 60 * 60 * 1000`: the clock counts milliseconds. */
  const MillisPerHour: nat := 3_600_000

  /** The default of `cleanupOldDocuments`' `maxAgeHours`. */
  const DefaultMaxAgeHours: nat := 24

  /** The title of the document seeded when the store is constructed. */
  const WelcomeTitle: string := "Welcome Document"

  /** One shared document. `users` is the JavaScript `Set` of socket ids, kept in insertion
      order as a sequence without duplicates. A `title` of `None` is `undefined`: the store
      falls back to `config.DEFAULT_DOCUMENT_TITLE`, a key the configuration does not define. */
  datatype Document = Document(
    id: string,
    title: Option<string>,
    content: string,
    createdAt: nat,
    updatedAt: nat,
    users: seq<string>,
    version: nat)

  /** An entry of `getAllDocuments`. */
  datatype DocumentSummary = DocumentSummary(
    id: string, title: Option<string>, userCount: nat, createdAt: nat, updatedAt: nat, version: nat)

  /** An entry of `searchDocuments`. */
  datatype SearchHit = SearchHit(id: string, title: Option<string>, userCount: nat, updatedAt: nat)

  /** The copy `exportDocument` returns: the users set becomes an array, `_usersCount` its size. */
  datatype DocumentExport = DocumentExport(
    id: string, title: Option<string>, content: string, createdAt: nat, updatedAt: nat,
    users: seq<string>, version: nat, usersCount: nat)

  /** The `updates` object handed to `updateDocument`: only the supplied fields are assigned. */
  datatype DocumentPatch = DocumentPatch(title: Option<string>, content: Option<string>)

  function Summarize(d: Document): DocumentSummary {
    DocumentSummary(d.id, d.title, |d.users|, d.createdAt, d.updatedAt, d.version)
  }

  function Hit(d: Document): SearchHit {
    SearchHit(d.id, d.title, |d.users|, d.updatedAt)
  }

  /** The sort key of `getAllDocuments`: the comparator `b.updatedAt - a.updatedAt` orders by
      descending `updatedAt`, that is by ascending negated `updatedAt`. */
  function NewestFirst(s: DocumentSummary): int {
    0 - s.updatedAt
  }

  /** The search condition: the lower-cased title or content includes the lower-cased query.
      The title is read first, so a document without one never matches (the search that reads
      it fails, see `SearchDocuments`). */
  predicate Matches(d: Document, query: string) {
    d.title.Some? && (Includes(Lower(d.title.value), Lower(query)) || Includes(Lower(d.content), Lower(query)))
  }

  /** The cleanup condition: nobody is in the document and it was last updated before the cutoff. */
  predicate Stale(d: Document, cutoff: int) {
    |d.users| == 0 && d.updatedAt < cutoff
  }

  /** The cutoff of `cleanupOldDocuments`: `maxAgeHours` before `now`. */
  function AgeCutoff(now: nat, maxAgeHours: nat): int {
    now - maxAgeHours * MillisPerHour
  }

  function StaleBefore(cutoff: int): (r: Document -> bool)
    ensures forall d :: r(d) <==> Stale(d, cutoff)
  {
    (d: Document) => Stale(d, cutoff)
  }

  /** The summaries of the documents named by `ids`, in that order. */
  function SummariesOf(docs: map<string, Document>, ids: seq<string>): (r: seq<DocumentSummary>)
    requires forall i :: 0 <= i < |ids| ==> ids[i] in docs
    ensures |r| == |ids|
    ensures forall i :: 0 <= i < |ids| ==> r[i] == Summarize(docs[ids[i]])
  {
    seq(|ids|, i requires 0 <= i < |ids| => Summarize(docs[ids[i]]))
  }

  /** The search hits among the documents named by `ids`, in that order. */
  function HitsOf(docs: map<string, Document>, ids: seq<string>, query: string): (r: seq<SearchHit>)
    requires forall i :: 0 <= i < |ids| ==> ids[i] in docs
    ensures |r| <= |ids|
  {
    if ids == [] then []
    else
      var rest := HitsOf(docs, ids[1..], query);
      if Matches(docs[ids[0]], query) then [Hit(docs[ids[0]])] + rest else rest
  }

  /** A hit comes from a matching id, and every matching id gives a hit. */
  lemma {:induction false} HitsOfMembers(docs: map<string, Document>, ids: seq<string>, query: string)
    requires forall i :: 0 <= i < |ids| ==> ids[i] in docs
    ensures forall i :: 0 <= i < |ids| && Matches(docs[ids[i]], query) ==> Hit(docs[ids[i]]) in HitsOf(docs, ids, query)
    ensures forall h :: h in HitsOf(docs, ids, query) ==>
      exists i :: 0 <= i < |ids| && Matches(docs[ids[i]], query) && h == Hit(docs[ids[i]])
  {
    if ids != [] {
      var tail := ids[1..];
      assert forall i :: 1 <= i < |ids| ==> ids[i] == tail[i - 1];
      HitsOfMembers(docs, tail, query);
      var rest := HitsOf(docs, tail, query);
      forall h | h in rest
        ensures exists i :: 0 <= i < |ids| && Matches(docs[ids[i]], query) && h == Hit(docs[ids[i]])
      {
        var j :| 0 <= j < |tail| && Matches(docs[tail[j]], query) && h == Hit(docs[tail[j]]);
        assert ids[j + 1] == tail[j];
      }
    }
  }

  /** Where each hit comes from: the k-th hit is that of the document at position `pos[k]`
      of `ids`, and the positions strictly increase, so the hits keep the order of `ids`. */
  ghost predicate Sources(docs: map<string, Document>, ids: seq<string>, hits: seq<SearchHit>, pos: seq<nat>)
    requires forall i :: 0 <= i < |ids| ==> ids[i] in docs
  {
    && |pos| == |hits|
    && (forall k :: 0 <= k < |pos| ==> pos[k] < |ids| && hits[k] == Hit(docs[ids[pos[k]]]))
    && (forall k, l :: 0 <= k < l < |pos| ==> pos[k] < pos[l])
  }

  lemma {:induction false} HitsOfPositions(docs: map<string, Document>, ids: seq<string>, query: string)
    returns (pos: seq<nat>)
    requires forall i :: 0 <= i < |ids| ==> ids[i] in docs
    ensures Sources(docs, ids, HitsOf(docs, ids, query), pos)
  {
    if ids == [] {
      pos := [];
    } else {
      var p := HitsOfPositions(docs, ids[1..], query);
      pos := SourcesCons(docs, ids, HitsOf(docs, ids[1..], query), p, Matches(docs[ids[0]], query));
    }
  }

  /** One step back along `ids`: the sources of the tail's hits, shifted by one, preceded by
      the head when it is a hit. */
  lemma SourcesCons(docs: map<string, Document>, ids: seq<string>, rest: seq<SearchHit>, p: seq<nat>, head: bool)
    returns (pos: seq<nat>)
    requires |ids| > 0 && forall i :: 0 <= i < |ids| ==> ids[i] in docs
    requires Sources(docs, ids[1..], rest, p)
    ensures Sources(docs, ids, if head then [Hit(docs[ids[0]])] + rest else rest, pos)
  {
    var tail := ids[1..];
    var shifted := seq(|p|, k requires 0 <= k < |p| => p[k] + 1);
    forall k | 0 <= k < |p| ensures shifted[k] < |ids| && rest[k] == Hit(docs[ids[shifted[k]]]) {
      assert ids[shifted[k]] == tail[p[k]];
    }
    if head {
      pos := [0] + shifted;
      var hits := [Hit(docs[ids[0]])] + rest;
      forall k | 0 < k < |pos| ensures pos[k] < |ids| && hits[k] == Hit(docs[ids[pos[k]]]) {
        assert pos[k] == shifted[k - 1] && hits[k] == rest[k - 1];
      }
      forall k, l | 0 <= k < l < |pos| ensures pos[k] < pos[l] {
        assert pos[l] == shifted[l - 1];
      }
    } else {
      pos := shifted;
    }
  }

  lemma ListedIdsStored(docs: map<string, Document>, ids: seq<string>)
    requires docs.Keys == Elems(ids)
    ensures forall i :: 0 <= i < |ids| ==> ids[i] in docs
  {
    forall i | 0 <= i < |ids| ensures ids[i] in docs {
      assert ids[i] in Elems(ids);
    }
  }

  /** Sorting by `NewestFirst` puts the latest update first. */
  lemma NewestFirstOrdered(all: seq<DocumentSummary>)
    ensures var r := Sorting.SortByKey(all, NewestFirst);
      forall i, j :: 0 <= i < j < |r| ==> r[i].updatedAt >= r[j].updatedAt
  {
    var r := Sorting.SortByKey(all, NewestFirst);
    Sorting.SortSorted(all, NewestFirst);
    forall i, j | 0 <= i < j < |r| ensures r[i].updatedAt >= r[j].updatedAt {
      assert NewestFirst(r[i]) <= NewestFirst(r[j]);
    }
  }

  /** Every stored document has its summary among the summaries of the listed ids, and every
      such summary is that of a stored document. */
  lemma SummariesCover(docs: map<string, Document>, ids: seq<string>)
    requires docs.Keys == Elems(ids)
    ensures forall i :: 0 <= i < |ids| ==> ids[i] in docs
    ensures forall id :: id in docs ==> Summarize(docs[id]) in SummariesOf(docs, ids)
    ensures forall x :: x in SummariesOf(docs, ids) ==> exists id :: id in docs && x == Summarize(docs[id])
  {
    ListedIdsStored(docs, ids);
    var all := SummariesOf(docs, ids);
    forall id | id in docs ensures Summarize(docs[id]) in all {
      assert id in Elems(ids);
      var i :| 0 <= i < |ids| && ids[i] == id;
      assert all[i] == Summarize(docs[id]);
    }
    forall x | x in all ensures exists id :: id in docs && x == Summarize(docs[id]) {
      var i :| 0 <= i < |all| && all[i] == x;
      assert x == Summarize(docs[ids[i]]);
    }
  }

  /** The documents of a listing, built from the store's values, and what the listing states. */
  lemma ListingFacts(docs: map<string, Document>, ids: seq<string>)
    requires Distinct(ids) && docs.Keys == Elems(ids)
    ensures forall i :: 0 <= i < |ids| ==> ids[i] in docs
    ensures var r := Sorting.SortByKey(SummariesOf(docs, ids), NewestFirst);
      && |r| == |ids|
      && (forall i, j :: 0 <= i < j < |r| ==> r[i].updatedAt >= r[j].updatedAt)
      && (forall id :: id in docs ==> Summarize(docs[id]) in r)
      && (forall k :: 0 <= k < |r| ==> exists id :: id in docs && r[k] == Summarize(docs[id]))
  {
    SummariesCover(docs, ids);
    var all := SummariesOf(docs, ids);
    var r := Sorting.SortByKey(all, NewestFirst);
    NewestFirstOrdered(all);
    Sorting.SortSameElements(all, NewestFirst);
    forall k | 0 <= k < |r| ensures exists id :: id in docs && r[k] == Summarize(docs[id]) {
      assert r[k] in all;
    }
  }

  class DocumentManager {
    /** The `documents` Map and the order in which its keys were inserted. */
    var documents: map<string, Document>
    var order: seq<string>
    ghost predicate Valid()
      reads this
    {
      && Distinct(order)
      && documents.Keys == Elems(order)
      && forall id :: id in documents ==> documents[id].id == id && Distinct(documents[id].users)
    }

    /** Every id in the insertion order names a stored document. */
    lemma OrderIsStored()
      requires Valid()
      ensures forall i :: 0 <= i < |order| ==> order[i] in documents
    {
      forall i | 0 <= i < |order| ensures order[i] in documents {
        assert order[i] in Elems(order);
      }
    }

    /** Every key is visited once when the map is iterated. */
    lemma SizeIsOrderLength()
      requires Valid()
      ensures |documents| == |order|
    {
      DistinctCard(order);
      assert |documents.Keys| == |documents|;
    }

    /** The store starts with one document, the welcome document, under a fresh id. Its
        content is `config.WELCOME_DOCUMENT_CONTENT`, a key the configuration does not define,
        so `content || ''` stores the empty string. */
    constructor (seedId: string, now: nat)
      ensures Valid()
      ensures documents == map[seedId := Document(seedId, Some(WelcomeTitle), "", now, now, [], 1)]
      ensures order == [seedId]
      ensures AllTitled()
    {
      documents := map[seedId := Document(seedId, Some(WelcomeTitle), "", now, now, [], 1)];
      order := [seedId];
      new;
      assert Elems(order) == {seedId};
    }

    /** Adds one document under `freshId`, at version 1 with nobody in it. An empty (or
        missing) title falls back to the undefined default, so the document has no title and
        every later search fails. Documents already stored are untouched. */
    method CreateDocument(freshId: string, title: string, content: string, now: nat)
      returns (doc: Document)
      requires Valid()
      requires freshId !in documents
      modifies this
      ensures Valid()
      ensures doc.id == freshId && doc.version == 1 && doc.users == []
      ensures doc.title.None? <==> title == ""
      ensures doc.title.Some? ==> doc.title.value == title
      ensures doc.content == content
      ensures doc.createdAt == now && doc.updatedAt == now
      ensures documents == old(documents)[freshId := doc]
      ensures order == old(order) + [freshId]
      ensures |documents| == |old(documents)| + 1
    {
      doc := Document(freshId, if title == "" then None else Some(title), content, now, now, [], 1);
      assert freshId !in order;
      DistinctCons(freshId, []);
      assert Distinct(order + [freshId]) by {
        forall i, j | 0 <= i < j < |order| + 1 ensures (order + [freshId])[i] != (order + [freshId])[j] {
          if j == |order| {
            assert (order + [freshId])[i] == order[i];
          } else {
            assert (order + [freshId])[i] == order[i] && (order + [freshId])[j] == order[j];
          }
        }
      }
      documents := documents[freshId := doc];
      order := order + [freshId];
      assert Elems(order) == Elems(old(order)) + {freshId};
    }

    /** `documents.get(id)`: the document stored under `id`, which carries that id. */
    function GetDocument(id: string): (r: Option<Document>)
      reads this
      requires Valid()
      ensures r.Some? <==> id in documents
      ensures r.Some? ==> r.value.id == id && r.value == documents[id]
    {
      if id in documents then Some(documents[id]) else None
    }

    /** `hasDocument` answers exactly when `getDocument` finds a document. */
    function HasDocument(id: string): (r: bool)
      reads this
      requires Valid()
      ensures r <==> GetDocument(id).Some?
    {
      id in documents
    }

    /** One summary per document, newest update first; ties keep insertion order. */
    function GetAllDocuments(): (r: seq<DocumentSummary>)
      reads this
      requires Valid()
      ensures |r| == |documents|
      ensures forall i, j :: 0 <= i < j < |r| ==> r[i].updatedAt >= r[j].updatedAt
      ensures forall k :: 0 <= k < |r| ==> r[k].id in documents && r[k] == Summarize(documents[r[k].id])
    {
      ListingFacts(documents, order);
      SizeIsOrderLength();
      Sorting.SortByKey(SummariesOf(documents, order), NewestFirst)
    }

    /** Every stored document has its summary in `getAllDocuments`. */
    lemma ListingHasEveryDocument(id: string)
      requires Valid()
      requires id in documents
      ensures Summarize(documents[id]) in GetAllDocuments()
    {
      ListingFacts(documents, order);
    }

    /** Ties in `getAllDocuments` keep the insertion order of the store. */
    lemma ListingTiesInInsertionOrder(updatedAt: nat)
      requires Valid()
      ensures forall i :: 0 <= i < |order| ==> order[i] in documents
      ensures Sorting.WithKey(GetAllDocuments(), NewestFirst, 0 - updatedAt)
           == Sorting.WithKey(SummariesOf(documents, order), NewestFirst, 0 - updatedAt)
    {
      OrderIsStored();
      Sorting.SortStable(SummariesOf(documents, order), NewestFirst, 0 - updatedAt);
    }

    /** When `id` is stored, replaces only the supplied fields, stamps `updatedAt` and bumps
        the version by one; otherwise changes nothing. */
    method UpdateDocument(id: string, updates: DocumentPatch, now: nat) returns (ok: bool)
      requires Valid()
      modifies this
      ensures Valid()
      ensures ok <==> id in old(documents)
      ensures order == old(order)
      ensures !ok ==> documents == old(documents)
      ensures ok ==> id in documents && documents == old(documents)[id := documents[id]]
      ensures ok ==>
        var d, d' := old(documents[id]), documents[id];
        && d'.version == d.version + 1
        && d'.updatedAt == now
        && d'.title == (if updates.title.Some? then updates.title else d.title)
        && d'.content == updates.content.GetOr(d.content)
        && d'.id == d.id && d'.createdAt == d.createdAt && d'.users == d.users
    {
      ok := id in documents;
      if ok {
        var d := documents[id];
        documents := documents[id := d.(
          title := if updates.title.Some? then updates.title else d.title,
          content := updates.content.GetOr(d.content),
          updatedAt := now,
          version := d.version + 1)];
      }
    }

    /** Removes `id` when it is stored and reports whether it was. */
    method DeleteDocument(id: string) returns (ok: bool)
      requires Valid()
      modifies this
      ensures Valid()
      ensures ok <==> id in old(documents)
      ensures documents == old(documents) - {id}
      ensures order == Remove(old(order), id)
      ensures ok ==> |documents| == |old(documents)| - 1
    {
      ok := id in documents;
      if ok {
        documents := documents - {id};
        order := Remove(order, id);
        SizeIsOrderLength();
      }
    }

    /** `documents.size`: as many as the keys an iteration visits. */
    function GetDocumentCount(): (n: nat)
      reads this
      requires Valid()
      ensures n == |order|
      ensures n == |GetAllDocuments()|
    {
      SizeIsOrderLength();
      |documents|
    }

    /** Every stored document has a title. */
    predicate AllTitled()
      reads this
    {
      forall id :: id in documents ==> documents[id].title.Some?
    }

    /** The documents whose title or content contains the query, ignoring letter case, in
        insertion order. The filter reads every title, so a document without one makes the
        search fail (`None`: `toLowerCase` of `undefined` throws). */
    function SearchDocuments(query: string): (r: Option<seq<SearchHit>>)
      reads this
      requires Valid()
      ensures r.None? <==> !AllTitled()
      ensures r.Some? ==> |r.value| <= |documents|
      ensures r.Some? ==> forall k :: 0 <= k < |r.value| ==>
        r.value[k].id in documents && Matches(documents[r.value[k].id], query) && r.value[k] == Hit(documents[r.value[k].id])
      ensures r.Some? ==> forall k, l :: 0 <= k < l < |r.value| ==>
        exists i, j :: 0 <= i < j < |order| && order[i] == r.value[k].id && order[j] == r.value[l].id
    {
      OrderIsStored();
      if AllTitled() then
        SearchFacts(query);
        SearchKeepsOrder(query);
        Some(HitsOf(documents, order, query))
      else None
    }

    /** A document without a title makes every search fail. */
    lemma UntitledSearchFails(id: string, query: string)
      requires Valid()
      requires id in documents && documents[id].title.None?
      ensures SearchDocuments(query) == None
    {
    }

    lemma SearchFacts(query: string)
      requires Valid()
      ensures forall i :: 0 <= i < |order| ==> order[i] in documents
      ensures var r := HitsOf(documents, order, query);
        && |r| <= |documents|
        && (forall id :: id in documents && Matches(documents[id], query) ==> Hit(documents[id]) in r)
        && (forall k :: 0 <= k < |r| ==>
              r[k].id in documents && Matches(documents[r[k].id], query) && r[k] == Hit(documents[r[k].id]))
    {
      OrderIsStored();
      SizeIsOrderLength();
      HitsOfMembers(documents, order, query);
      var r := HitsOf(documents, order, query);
      forall id | id in documents && Matches(documents[id], query) ensures Hit(documents[id]) in r {
        assert id in Elems(order);
        var i :| 0 <= i < |order| && order[i] == id;
      }
      forall k | 0 <= k < |r|
        ensures r[k].id in documents && Matches(documents[r[k].id], query) && r[k] == Hit(documents[r[k].id])
      {
        assert r[k] in r;
        var i :| 0 <= i < |order| && Matches(documents[order[i]], query) && r[k] == Hit(documents[order[i]]);
        assert documents[order[i]].id == order[i];
      }
    }

    /** The hits follow the insertion order of the store: of two hits, the earlier one's
        document was inserted first. */
    lemma SearchKeepsOrder(query: string)
      requires Valid()
      ensures forall i :: 0 <= i < |order| ==> order[i] in documents
      ensures var r := HitsOf(documents, order, query);
        forall k, l :: 0 <= k < l < |r| ==>
          exists i, j :: 0 <= i < j < |order| && order[i] == r[k].id && order[j] == r[l].id
    {
      OrderIsStored();
      var r := HitsOf(documents, order, query);
      var pos := HitsOfPositions(documents, order, query);
      forall k, l | 0 <= k < l < |r|
        ensures exists i, j :: 0 <= i < j < |order| && order[i] == r[k].id && order[j] == r[l].id
      {
        var i, j := pos[k], pos[l];
        assert documents[order[i]].id == order[i] && documents[order[j]].id == order[j];
      }
    }

    /** When the search succeeds, a document missed by it has neither its title nor its
        content containing the query in any letter case. */
    lemma SearchIsExact(query: string, id: string)
      requires Valid()
      requires id in documents
      ensures SearchDocuments(query).Some? ==>
        (Hit(documents[id]) in SearchDocuments(query).value <==> Matches(documents[id], query))
    {
      SearchFacts(query);
      var r := SearchDocuments(query);
      if r.Some? && Hit(documents[id]) in r.value {
        var k :| 0 <= k < |r.value| && r.value[k] == Hit(documents[id]);
        assert r.value[k].id == id;
      }
    }

    /** Searching for a query and for its lower-cased form gives the same result. */
    lemma SearchIgnoresQueryCase(query: string)
      requires Valid()
      ensures SearchDocuments(query) == SearchDocuments(Lower(query))
    {
      LowerIdempotent(query);
      assert forall d: Document :: Matches(d, query) == Matches(d, Lower(query));
      OrderIsStored();
      HitsOfSameQuery(order, query, Lower(query));
    }

    lemma {:induction false} HitsOfSameQuery(ids: seq<string>, q1: string, q2: string)
      requires forall i :: 0 <= i < |ids| ==> ids[i] in documents
      requires forall d: Document :: Matches(d, q1) == Matches(d, q2)
      ensures HitsOf(documents, ids, q1) == HitsOf(documents, ids, q2)
    {
      if ids != [] {
        assert forall i :: 0 <= i < |ids[1..]| ==> ids[1..][i] == ids[i + 1];
        HitsOfSameQuery(ids[1..], q1, q2);
      }
    }

    /** When every document has a title, the empty query finds every document. */
    lemma EmptySearchFindsAll()
      requires Valid()
      ensures AllTitled() ==> SearchDocuments("").Some? && |SearchDocuments("").value| == |documents|
    {
      if AllTitled() {
        OrderIsStored();
        forall i | 0 <= i < |order| ensures Matches(documents[order[i]], "") {
          IncludesEmpty(Lower(documents[order[i]].title.value));
        }
        SizeIsOrderLength();
        HitsOfAll(order);
      }
    }

    lemma {:induction false} HitsOfAll(ids: seq<string>)
      requires forall i :: 0 <= i < |ids| ==> ids[i] in documents && Matches(documents[ids[i]], "")
      ensures |HitsOf(documents, ids, "")| == |ids|
    {
      if ids != [] {
        assert forall i :: 0 <= i < |ids[1..]| ==> ids[1..][i] == ids[i + 1];
        HitsOfAll(ids[1..]);
      }
    }

    /** Deletes exactly the documents that nobody is in and that were last updated more than
        `maxAgeHours` before `now`, keeping the others in their order, and returns how many it
        deleted. */
    method CleanupOldDocuments(now: nat, maxAgeHours: nat := DefaultMaxAgeHours) returns (cleaned: nat)
      requires Valid()
      modifies this
      ensures Valid()
      ensures documents == (map id | id in old(documents) && !StaleBefore(AgeCutoff(now, maxAgeHours))(old(documents)[id]) :: old(documents)[id])
      ensures order == Pruning.Survivors(old(documents), StaleBefore(AgeCutoff(now, maxAgeHours)), old(order))
      ensures cleaned == |old(documents)| - |documents|
    {
      var docs, ord;
      docs, ord, cleaned := Pruning.Prune(documents, StaleBefore(AgeCutoff(now, maxAgeHours)), order);
      documents, order := docs, ord;
    }

    /** A copy of the document with its users as a list and their number, or nothing for an
        unknown id. */
    function ExportDocument(id: string): (r: Option<DocumentExport>)
      reads this
      requires Valid()
      ensures r.None? <==> id !in documents
      ensures r.Some? ==>
        var d, e := documents[id], r.value;
        && e.usersCount == |e.users| && Distinct(e.users) && Elems(e.users) == Elems(d.users)
        && e.id == id && e.title == d.title && e.content == d.content
        && e.createdAt == d.createdAt && e.updatedAt == d.updatedAt && e.version == d.version
    {
      if id !in documents then None
      else
        var d := documents[id];
        Some(DocumentExport(d.id, d.title, d.content, d.createdAt, d.updatedAt, d.users, d.version, |d.users|))
    }
  }
}
