/** The deletion loop shared by `cleanupOldDocuments` and `cleanupInactiveUsers`: iterate a
    `Map` in insertion order and delete every entry whose value satisfies a condition. Deleting
    the entry being visited does not disturb a JavaScript `Map` iteration, so every key present
    when the loop starts is visited exactly once, with the value it had then. */
module Pruning {
  import opened Js

  /** The keys among `ids` whose entries the loop keeps, in their order. */
  function Survivors<V>(m: map<string, V>, drop: V -> bool, ids: seq<string>): (r: seq<string>)
    requires forall i :: 0 <= i < |ids| ==> ids[i] in m
    ensures |r| <= |ids|
  {
    if ids == [] then []
    else
      var last := ids[|ids| - 1];
      var rest := Survivors(m, drop, ids[..|ids| - 1]);
      if drop(m[last]) then rest else rest + [last]
  }

  /** The keys among `ids` whose entries the loop deletes. */
  function Dropped<V>(m: map<string, V>, drop: V -> bool, ids: seq<string>): set<string>
    requires forall i :: 0 <= i < |ids| ==> ids[i] in m
  {
    if ids == [] then {}
    else
      var last := ids[|ids| - 1];
      Dropped(m, drop, ids[..|ids| - 1]) + (if drop(m[last]) then {last} else {})
  }

  /** Every visited key is either kept or deleted, never both, and the kept keys stay
      duplicate-free. */
  lemma {:induction false} SurvivorsAndDropped<V>(m: map<string, V>, drop: V -> bool, ids: seq<string>)
    requires forall i :: 0 <= i < |ids| ==> ids[i] in m
    ensures forall x :: x in Survivors(m, drop, ids) <==> x in ids && !drop(m[x])
    ensures forall x :: x in Dropped(m, drop, ids) <==> x in ids && drop(m[x])
    ensures Distinct(ids) ==> Distinct(Survivors(m, drop, ids))
  {
    if ids != [] {
      var init, last := ids[..|ids| - 1], ids[|ids| - 1];
      assert ids == init + [last];
      assert forall i :: 0 <= i < |init| ==> init[i] == ids[i];
      SurvivorsAndDropped(m, drop, init);
      if Distinct(ids) {
        assert last !in init;
        var rest := Survivors(m, drop, init);
        forall i, j | 0 <= i < j < |rest + [last]| ensures (rest + [last])[i] != (rest + [last])[j] {
          if j == |rest| {
            assert (rest + [last])[i] == rest[i];
            assert rest[i] in rest;
          } else {
            assert (rest + [last])[i] == rest[i] && (rest + [last])[j] == rest[j];
          }
        }
      }
    }
  }

  lemma {:induction false} DroppedWithin<V>(m: map<string, V>, drop: V -> bool, ids: seq<string>)
    requires forall i :: 0 <= i < |ids| ==> ids[i] in m
    ensures Dropped(m, drop, ids) <= Elems(ids)
  {
    if ids != [] {
      var init := ids[..|ids| - 1];
      assert forall i :: 0 <= i < |init| ==> init[i] == ids[i];
      DroppedWithin(m, drop, init);
      assert ids == init + [ids[|ids| - 1]];
    }
  }

  lemma {:induction false} SurvivorsWithin<V>(m: map<string, V>, drop: V -> bool, ids: seq<string>)
    requires forall i :: 0 <= i < |ids| ==> ids[i] in m
    ensures Elems(Survivors(m, drop, ids)) <= Elems(ids)
  {
    if ids != [] {
      var init := ids[..|ids| - 1];
      assert forall i :: 0 <= i < |init| ==> init[i] == ids[i];
      SurvivorsWithin(m, drop, init);
      assert ids == init + [ids[|ids| - 1]];
      var rest := Survivors(m, drop, init);
      assert Elems(rest + [ids[|ids| - 1]]) == Elems(rest) + {ids[|ids| - 1]};
    }
  }

  /** The variables of the loop: the map, the key order and the number of deletions. */
  datatype LoopState<V> = LoopState(m: map<string, V>, ord: seq<string>, cleaned: nat)

  /** The variables of the loop after it has visited the first `i` keys of `snapshot`. */
  ghost function AfterVisits<V>(m0: map<string, V>, drop: V -> bool, snapshot: seq<string>, i: nat): LoopState<V>
    requires i <= |snapshot|
    requires forall k :: 0 <= k < |snapshot| ==> snapshot[k] in m0
  {
    var done := snapshot[..i];
    LoopState(m0 - Dropped(m0, drop, done), Survivors(m0, drop, done) + snapshot[i..],
              i - |Survivors(m0, drop, done)|)
  }

  lemma KeysListed<V>(m0: map<string, V>, snapshot: seq<string>)
    requires m0.Keys == Elems(snapshot)
    ensures forall k :: 0 <= k < |snapshot| ==> snapshot[k] in m0
  {
    forall k | 0 <= k < |snapshot| ensures snapshot[k] in m0 {
      assert snapshot[k] in Elems(snapshot);
    }
  }

  /** Before the first pass the variables hold the map, the whole key order and no deletion. */
  lemma PruneStart<V>(m0: map<string, V>, drop: V -> bool, snapshot: seq<string>)
    requires forall k :: 0 <= k < |snapshot| ==> snapshot[k] in m0
    ensures AfterVisits(m0, drop, snapshot, 0) == LoopState(m0, snapshot, 0)
  {
    assert snapshot[..0] == [] && snapshot[0..] == snapshot;
    assert m0 - {} == m0;
  }

  /** One pass of the loop: the visited key is still present with its first value, and
      deleting it when it satisfies the condition (or keeping it otherwise) moves the loop
      state one key on. */
  lemma PruneStep<V>(m0: map<string, V>, drop: V -> bool, snapshot: seq<string>, i: nat)
    requires Distinct(snapshot)
    requires i < |snapshot|
    requires forall k :: 0 <= k < |snapshot| ==> snapshot[k] in m0
    ensures var st, id := AfterVisits(m0, drop, snapshot, i), snapshot[i];
      && id in st.m && st.m[id] == m0[id]
      && AfterVisits(m0, drop, snapshot, i + 1)
         == if drop(m0[id]) then LoopState(st.m - {id}, Remove(st.ord, id), st.cleaned + 1) else st
  {
    var id, kept, gone := snapshot[i], Survivors(m0, drop, snapshot[..i]), Dropped(m0, drop, snapshot[..i]);
    var done := snapshot[..i];
    var ord := kept + snapshot[i..];
    assert snapshot[..i + 1][..i] == done;
    assert snapshot[i..] == [id] + snapshot[i + 1..];
    assert id !in Elems(done) && id !in snapshot[i + 1..] by {
      forall k | 0 <= k < |snapshot| && k != i ensures snapshot[k] != id { }
    }
    DroppedWithin(m0, drop, done);
    SurvivorsWithin(m0, drop, done);
    assert id !in kept && id !in gone;
    assert ord == kept + [id] + snapshot[i + 1..];
    if drop(m0[id]) {
      assert Dropped(m0, drop, snapshot[..i + 1]) == gone + {id};
      assert Survivors(m0, drop, snapshot[..i + 1]) == kept;
      assert (m0 - gone) - {id} == m0 - (gone + {id});
      RemoveSplit(kept, id, snapshot[i + 1..]);
    } else {
      assert Dropped(m0, drop, snapshot[..i + 1]) == gone;
      assert Survivors(m0, drop, snapshot[..i + 1]) == kept + [id];
      assert ord == (kept + [id]) + snapshot[i + 1..];
    }
  }

  /** One pass of the loop on its variables: the visited key is deleted from the map and
      the order, and counted, when its value satisfies the condition. */
  ghost function Visit<V>(st: LoopState<V>, drop: V -> bool, id: string): LoopState<V> {
    if id in st.m && drop(st.m[id]) then LoopState(st.m - {id}, Remove(st.ord, id), st.cleaned + 1)
    else st
  }

  /** The loop variables after `i` passes, by running the passes one at a time. */
  ghost function Visits<V>(m0: map<string, V>, drop: V -> bool, snapshot: seq<string>, i: nat): LoopState<V>
    requires i <= |snapshot|
  {
    if i == 0 then LoopState(m0, snapshot, 0)
    else Visit(Visits(m0, drop, snapshot, i - 1), drop, snapshot[i - 1])
  }

  /** Running the passes one at a time gives the closed form: the map less the dropped
      keys, the surviving keys followed by the unvisited ones, and the dropped count. */
  lemma {:induction false} VisitsMatch<V>(m0: map<string, V>, drop: V -> bool, snapshot: seq<string>, i: nat)
    requires Distinct(snapshot)
    requires i <= |snapshot|
    requires forall k :: 0 <= k < |snapshot| ==> snapshot[k] in m0
    ensures Visits(m0, drop, snapshot, i) == AfterVisits(m0, drop, snapshot, i)
  {
    if i == 0 {
      PruneStart(m0, drop, snapshot);
    } else {
      var id := snapshot[i - 1];
      var st := AfterVisits(m0, drop, snapshot, i - 1);
      assert Visits(m0, drop, snapshot, i - 1) == st by {
        VisitsMatch(m0, drop, snapshot, i - 1);
      }
      assert id in st.m && st.m[id] == m0[id]
        && AfterVisits(m0, drop, snapshot, i)
           == if drop(m0[id]) then LoopState(st.m - {id}, Remove(st.ord, id), st.cleaned + 1) else st by {
        PruneStep(m0, drop, snapshot, i - 1);
      }
    }
  }

  /** The entries left once the loop has deleted every satisfying key of `snapshot`. */
  lemma KeptEntries<V>(m0: map<string, V>, drop: V -> bool, snapshot: seq<string>)
    requires m0.Keys == Elems(snapshot)
    ensures forall k :: 0 <= k < |snapshot| ==> snapshot[k] in m0
    ensures m0 - Dropped(m0, drop, snapshot) == (map k | k in m0 && !drop(m0[k]) :: m0[k])
    ensures (m0 - Dropped(m0, drop, snapshot)).Keys == Elems(Survivors(m0, drop, snapshot))
  {
    KeysListed(m0, snapshot);
    SurvivorsAndDropped(m0, drop, snapshot);
    var gone := Dropped(m0, drop, snapshot);
    assert forall x :: x in m0 <==> x in snapshot by {
      forall x ensures x in m0 <==> x in snapshot {
        assert x in Elems(snapshot) <==> x in snapshot;
      }
    }
    assert forall x :: x in gone <==> x in m0 && drop(m0[x]);
  }

  /** How many entries the loop keeps: as many as it lists. */
  lemma KeptCount<V>(m0: map<string, V>, m: map<string, V>, ord: seq<string>, snapshot: seq<string>)
    requires Distinct(snapshot) && m0.Keys == Elems(snapshot)
    requires Distinct(ord) && m.Keys == Elems(ord)
    ensures |m0| == |snapshot| && |m| == |ord|
  {
    DistinctCard(ord);
    DistinctCard(snapshot);
    assert |m.Keys| == |m| && |m0.Keys| == |m0|;
  }

  /** After the last pass: the kept entries are exactly those that fail the condition, in
      their first order, and the count is the number of entries deleted. */
  lemma PruneOutcome<V>(m0: map<string, V>, drop: V -> bool, snapshot: seq<string>,
                        m: map<string, V>, ord: seq<string>, cleaned: nat)
    requires Distinct(snapshot) && m0.Keys == Elems(snapshot)
    requires forall k :: 0 <= k < |snapshot| ==> snapshot[k] in m0
    requires LoopState(m, ord, cleaned) == Visits(m0, drop, snapshot, |snapshot|)
    ensures m == (map k | k in m0 && !drop(m0[k]) :: m0[k])
    ensures ord == Survivors(m0, drop, snapshot)
    ensures Distinct(ord) && m.Keys == Elems(ord)
    ensures cleaned == |m0| - |m|
  {
    VisitsMatch(m0, drop, snapshot, |snapshot|);
    assert snapshot[..|snapshot|] == snapshot && snapshot[|snapshot|..] == [];
    KeptEntries(m0, drop, snapshot);
    assert Distinct(ord) by {
      SurvivorsAndDropped(m0, drop, snapshot);
    }
    KeptCount(m0, m, ord, snapshot);
  }

  /** The loop itself: visits the keys of `snapshot` in order and deletes each entry whose
      value satisfies `drop` from the map and from the key order. Returns the new map and
      order and the number of entries deleted. */
  method Prune<V>(m0: map<string, V>, drop: V -> bool, snapshot: seq<string>)
    returns (m: map<string, V>, ord: seq<string>, cleaned: nat)
    requires Distinct(snapshot) && m0.Keys == Elems(snapshot)
    ensures m == (map k | k in m0 && !drop(m0[k]) :: m0[k])
    ensures ord == Survivors(m0, drop, snapshot)
    ensures Distinct(ord) && m.Keys == Elems(ord)
    ensures cleaned == |m0| - |m|
  {
    assert forall k :: 0 <= k < |snapshot| ==> snapshot[k] in m0 by {
      KeysListed(m0, snapshot);
    }
    m, ord, cleaned := m0, snapshot, 0;
    var i := 0;
    while i < |snapshot|
      invariant i <= |snapshot|
      invariant LoopState(m, ord, cleaned) == Visits(m0, drop, snapshot, i)
    {
      var id := snapshot[i];
      assert id in m by {
        VisitsMatch(m0, drop, snapshot, i);
        PruneStep(m0, drop, snapshot, i);
      }
      if drop(m[id]) {
        m := m - {id};
        ord := Remove(ord, id);
        cleaned := cleaned + 1;
      }
      i := i + 1;
    }
    PruneOutcome(m0, drop, snapshot, m, ord, cleaned);
  }
}
