/**
 What holds of the breakpoint tables on every run of requests and events, and what a single
 set-breakpoints request leaves behind.
 */
module BreakpointRuns {
  import opened Results
  import opened Breakpoints

  // ---- The invariant ----

  predicate Bounded(s: State) {
    && (forall id <- s.live :: id < s.next)
    && (forall id <- s.callbacks :: id < s.next)
    && (forall id <- s.infos :: id < s.next)
  }

  /** Every breakpoint that can call back has its options recorded. */
  predicate Tracked(s: State) {
    forall id <- s.live :: id in s.callbacks ==> id in s.infos
  }

  ghost predicate TableBounded(m: map<Key, Id>, next: Id) {
    forall k :: k in m ==> m[k] < next
  }

  ghost predicate Injective(m: map<Key, Id>) {
    forall j, k :: j in m && k in m && m[j] == m[k] ==> j == k
  }

  ghost predicate Disjoint(a: map<Key, Id>, b: map<Key, Id>) {
    forall j, k :: j in a && k in b ==> a[j] != b[k]
  }

  /** No breakpoint is in two places of the tables, and none of them is an exception breakpoint. */
  ghost predicate Separate(s: State) {
    && (forall t :: t in s.tables ==> TableBounded(s.tables[t], s.next) && Injective(s.tables[t]))
    && (forall t, u :: t in s.tables && u in s.tables && t != u ==> Disjoint(s.tables[t], s.tables[u]))
    && (forall t, k :: t in s.tables && k in s.tables[t] && s.tables[t][k] in s.infos ==> !s.infos[s.tables[t][k]].kind.Exception?)
  }

  ghost predicate Inv(s: State) {
    Bounded(s) && Tracked(s) && Separate(s)
  }

  // ---- Placing the requested breakpoints ----

  function Elements(ids: seq<Id>): set<Id> {
    set id | id in ids
  }

  /** How far placing has come: the breakpoints placed are live and tracked, and nothing else changed. */
  ghost predicate Changes(s0: State, s: State, ids: seq<Id>) {
    && s.tables == s0.tables && s0.next <= s.next
    && s.live == s0.live + Elements(ids)
    && s.callbacks == s0.callbacks + Elements(ids)
    && s.infos.Keys == s0.infos.Keys + Elements(ids)
    && forall id <- s0.infos :: id in ids || s.infos[id] == s0.infos[id]
  }

  /** The table being built: each key has its old breakpoint if that is live, and otherwise a new one. */
  ghost predicate Chosen(s0: State, s: State, existing: map<Key, Id>, kind: Kind, table: map<Key, Id>, ids: seq<Id>) {
    && OfKind(s, ids, kind)
    && (forall id <- ids :: id < s0.next ==> id in s0.live && exists k :: k in table && table[k] == id)
    && (forall k :: k in table ==>
          && table[k] in ids
          && if Reusable(s0, existing, k) then table[k] == existing[k] else s0.next <= table[k])
    && Injective(table)
  }

  /** Nothing that was deleted comes back. */
  predicate OldOrNew(s0: State, ids: seq<Id>) {
    forall id <- ids :: id < s0.next ==> id in s0.live
  }

  predicate OfKind(s: State, ids: seq<Id>, kind: Kind) {
    forall id <- ids :: id < s.next && id in s.infos && s.infos[id].kind == kind
  }

  lemma ElementsMore(ids: seq<Id>, id: Id)
    ensures Elements(ids + [id]) == Elements(ids) + {id}
  {
  }

  lemma StepChanges(s0: State, s: State, ids: seq<Id>, id: Id, info: Info, s1: State)
    requires Bounded(s0) && Changes(s0, s, ids)
    requires (id in s.live && s1 == Adopt(s, id, info)) || (id == s.next && s1 == Adopt(Create(s), id, info))
    ensures Changes(s0, s1, ids + [id])
  {
    ElementsMore(ids, id);
  }

  lemma StepChosen(s0: State, s: State, existing: map<Key, Id>, kind: Kind, table: map<Key, Id>, ids: seq<Id>,
                   k: Key, id: Id, info: Info, s1: State)
    requires Bounded(s0) && Changes(s0, s, ids) && Chosen(s0, s, existing, kind, table, ids)
    requires Injective(existing) && TableBounded(existing, s0.next) && info.kind == kind
    requires if Reusable(s, existing, k) then id == existing[k] && s1 == Adopt(s, id, info)
             else id == s.next && s1 == Adopt(Create(s), id, info)
    ensures Chosen(s0, s1, existing, kind, table[k := id], ids + [id])
  {
    var table', ids' := table[k := id], ids + [id];
    assert Reusable(s, existing, k) <==> Reusable(s0, existing, k);
    OldStaysListed(s0, existing, table, ids, k, id);
    InjectiveStep(s0, s, existing, table, ids, k, id);
    KindStep(s, kind, ids, id, info, s1);
    hide Injective, OfKind, TableBounded;
    assert id in ids';
  }

  lemma KindStep(s: State, kind: Kind, ids: seq<Id>, id: Id, info: Info, s1: State)
    requires OfKind(s, ids, kind) && info.kind == kind
    requires (id < s.next && s1 == Adopt(s, id, info)) || (id == s.next && s1 == Adopt(Create(s), id, info))
    ensures OfKind(s1, ids + [id], kind)
  {
  }

  lemma OldStaysListed(s0: State, existing: map<Key, Id>, table: map<Key, Id>, ids: seq<Id>, k: Key, id: Id)
    requires forall j <- ids :: j < s0.next ==> j in s0.live && exists m :: m in table && table[m] == j
    requires forall m :: m in table ==> if Reusable(s0, existing, m) then table[m] == existing[m] else s0.next <= table[m]
    requires if Reusable(s0, existing, k) then id == existing[k] else s0.next <= id
    ensures var table' := table[k := id];
      forall j <- ids + [id] :: j < s0.next ==> j in s0.live && exists m :: m in table' && table'[m] == j
  {
    var table' := table[k := id];
    forall j | j in ids + [id] && j < s0.next
      ensures j in s0.live && exists m :: m in table' && table'[m] == j
    {
      if j == id {
        assert k in table' && table'[k] == j;
      } else {
        var m :| m in table && table[m] == j;
        assert m in table' && table'[m] == j;
      }
    }
  }

  lemma InjectiveStep(s0: State, s: State, existing: map<Key, Id>, table: map<Key, Id>, ids: seq<Id>, k: Key, id: Id)
    requires Injective(existing) && TableBounded(existing, s0.next) && Injective(table) && s0.next <= s.next
    requires forall i <- ids :: i < s.next
    requires forall j :: j in table ==>
               table[j] in ids && if Reusable(s0, existing, j) then table[j] == existing[j] else s0.next <= table[j]
    requires if Reusable(s0, existing, k) then id == existing[k] else id == s.next
    ensures Injective(table[k := id])
  {
  }

  lemma {:induction false} PlaceResult(s0: State, s: State, existing: map<Key, Id>, reqs: seq<Request>, kind: Kind,
                                       canCreate: bool, table: map<Key, Id>, ids: seq<Id>)
    requires Bounded(s0) && Changes(s0, s, ids) && Chosen(s0, s, existing, kind, table, ids)
    requires Injective(existing) && TableBounded(existing, s0.next)
    ensures var p := Place(s, existing, reqs, kind, canCreate, table, ids);
      match p
      case Aborted(s') => exists ids' :: Changes(s0, s', ids') && OfKind(s', ids', kind) && OldOrNew(s0, ids')
      case Placed(s', table', ids') =>
        && Changes(s0, s', ids') && Chosen(s0, s', existing, kind, table', ids')
        && (forall k :: k in table' <==> k in table || exists i :: 0 <= i < |reqs| && reqs[i].key == Some(k))
    decreases |reqs|
  {
    hide Changes, Chosen, PlaceOne;
    if reqs == [] {
    } else {
      var one := PlaceOne(s, existing, reqs[0], kind, canCreate);
      AbortHere(s0, s, existing, kind, table, ids);
      if one.Some? {
        OneResult(s0, s, existing, reqs[0], kind, canCreate, table, ids);
        var k, id := reqs[0].key.value, one.value.1;
        PlaceResult(s0, one.value.0, existing, reqs[1..], kind, canCreate, table[k := id], ids + [id]);
        MoreKeys(reqs, k);
      }
    }
  }

  lemma OneResult(s0: State, s: State, existing: map<Key, Id>, r: Request, kind: Kind, canCreate: bool, table: map<Key, Id>, ids: seq<Id>)
    requires Bounded(s0) && Changes(s0, s, ids) && Chosen(s0, s, existing, kind, table, ids)
    requires Injective(existing) && TableBounded(existing, s0.next)
    ensures var one := PlaceOne(s, existing, r, kind, canCreate);
      one.Some? ==>
        var (s', id) := one.value;
        && r.key.Some?
        && Changes(s0, s', ids + [id]) && Chosen(s0, s', existing, kind, table[r.key.value := id], ids + [id])
  {
    hide Changes, Chosen, Injective, TableBounded, Bounded;
    if r.key.Some? {
      var k, info := r.key.value, MakeInfo(r, kind);
      if Reusable(s, existing, k) || canCreate {
        var id := if Reusable(s, existing, k) then existing[k] else s.next;
        var s1 := Adopt(if Reusable(s, existing, k) then s else Create(s), id, info);
        StepChanges(s0, s, ids, id, info, s1);
        StepChosen(s0, s, existing, kind, table, ids, k, id, info, s1);
        ProbeKeeps(s0, s1, existing, kind, table[k := id], ids + [id], r.hint);
      }
    }
  }

  lemma AbortHere(s0: State, s: State, existing: map<Key, Id>, kind: Kind, table: map<Key, Id>, ids: seq<Id>)
    requires Changes(s0, s, ids) && Chosen(s0, s, existing, kind, table, ids)
    ensures exists ids' :: Changes(s0, s, ids') && OfKind(s, ids', kind) && OldOrNew(s0, ids')
  {
  }

  lemma MoreKeys(reqs: seq<Request>, k: Key)
    requires reqs != [] && reqs[0].key == Some(k)
    ensures forall j: Key :: (exists i :: 0 <= i < |reqs| && reqs[i].key == Some(j)) <==>
              j == k || exists i :: 0 <= i < |reqs[1..]| && reqs[1..][i].key == Some(j)
  {
    forall j: Key | j != k && exists i :: 0 <= i < |reqs| && reqs[i].key == Some(j)
      ensures exists i :: 0 <= i < |reqs[1..]| && reqs[1..][i].key == Some(j)
    {
      var i :| 0 <= i < |reqs| && reqs[i].key == Some(j);
      assert reqs[1..][i - 1].key == Some(j);
    }
    forall j: Key | exists i :: 0 <= i < |reqs[1..]| && reqs[1..][i].key == Some(j)
      ensures exists i :: 0 <= i < |reqs| && reqs[i].key == Some(j)
    {
      var i :| 0 <= i < |reqs[1..]| && reqs[1..][i].key == Some(j);
      assert reqs[i + 1].key == Some(j);
    }
  }

  lemma ProbeKeeps(s0: State, s: State, existing: map<Key, Id>, kind: Kind, table: map<Key, Id>, ids: seq<Id>, hint: bool)
    requires Changes(s0, s, ids) && Chosen(s0, s, existing, kind, table, ids)
    ensures Changes(s0, Probe(s, hint), ids) && Chosen(s0, Probe(s, hint), existing, kind, table, ids)
  {
  }

  // ---- What one request leaves behind ----

  predicate DistinctKeys(reqs: seq<Request>) {
    forall i, j :: 0 <= i < j < |reqs| ==> reqs[i].key != reqs[j].key
  }

  predicate Requested(reqs: seq<Request>, k: Key) {
    exists i :: 0 <= i < |reqs| && reqs[i].key == Some(k)
  }

  /** With distinct keys every breakpoint placed is in the table. */
  lemma {:induction false} PlaceNoLeak(s: State, existing: map<Key, Id>, reqs: seq<Request>, kind: Kind, canCreate: bool,
                                       table: map<Key, Id>, ids: seq<Id>)
    requires DistinctKeys(reqs) && forall i :: 0 <= i < |reqs| && reqs[i].key.Some? ==> reqs[i].key.value !in table
    requires forall id <- ids :: exists k :: k in table && table[k] == id
    ensures var p := Place(s, existing, reqs, kind, canCreate, table, ids);
      p.Placed? ==>
        && |p.ids| == |ids| + |reqs|
        && (forall id <- p.ids :: exists k :: k in p.table && p.table[k] == id)
    decreases |reqs|
  {
    var one := if reqs == [] then None else PlaceOne(s, existing, reqs[0], kind, canCreate);
    if one.Some? {
      var k, id := reqs[0].key.value, one.value.1;
      var table', ids' := table[k := id], ids + [id];
      forall j | j in ids' ensures exists m :: m in table' && table'[m] == j {
        if j == id {
          assert k in table' && table'[k] == j;
        } else {
          var m :| m in table && table[m] == j;
          assert m in table' && table'[m] == j;
        }
      }
      PlaceNoLeak(one.value.0, existing, reqs[1..], kind, canCreate, table', ids');
    }
  }

  lemma EntriesSeparate(s: State, t: Table)
    requires Separate(s)
    ensures Injective(Entries(s, t)) && TableBounded(Entries(s, t), s.next)
  {
  }

  /** What placing leaves for the request on table t, before the old entries are replaced. */
  lemma PlaceForRequest(s: State, t: Table, reqs: seq<Request>, kind: Kind, canCreate: bool)
    requires Inv(s)
    ensures var existing := Entries(s, t);
      match Place(s, existing, reqs, kind, canCreate, map[], [])
      case Aborted(s') => exists ids' :: Changes(s, s', ids') && OfKind(s', ids', kind) && OldOrNew(s, ids')
      case Placed(s', table, ids) =>
        && Changes(s, s', ids) && Chosen(s, s', existing, kind, table, ids)
        && (forall k :: k in table <==> Requested(reqs, k))
        && (DistinctKeys(reqs) ==> forall id <- ids :: exists k :: k in table && table[k] == id)
  {
    hide Place;
    EntriesSeparate(s, t);
    PlaceResult(s, s, Entries(s, t), reqs, kind, canCreate, map[], []);
    if DistinctKeys(reqs) {
      PlaceNoLeak(s, Entries(s, t), reqs, kind, canCreate, map[], []);
    }
  }

  /**
   After a request with distinct keys, a table holds exactly the requested keys with one live,
   tracked breakpoint each; a key keeps its breakpoint if that was live; the breakpoints of keys no
   longer requested are dead; and no other breakpoint appears or disappears.
   */
  lemma RequestResult(s: State, t: Table, reqs: seq<Request>, kind: Kind, canCreate: bool, forget: bool)
    requires Inv(s) && DistinctKeys(reqs)
    ensures var (s', reply) := SetTable(s, t, reqs, kind, canCreate, forget);
      var before, after := Entries(s, t), Entries(s', t);
      reply.Some? ==>
        && (forall k :: k in after <==> Requested(reqs, k))
        && (forall k :: k in after ==> after[k] in s'.live && after[k] in s'.callbacks && after[k] in s'.infos)
        && (forall k :: k in after ==> if Reusable(s, before, k) then after[k] == before[k] else after[k] >= s.next)
        && (forall k :: k in before && k !in after ==> before[k] !in s'.live)
        && (forall id <- s'.live :: id in s.live || exists k :: k in after && after[k] == id)
        && (forall id <- s.live :: id in s'.live || exists k :: k in before && k !in after && before[k] == id)
        && (forall u :: u != t ==> Entries(s', u) == Entries(s, u))
  {
    hide Place, Injective, TableBounded, Disjoint, Separate;
    PlaceForRequest(s, t, reqs, kind, canCreate);
    var p := Place(s, Entries(s, t), reqs, kind, canCreate, map[], []);
    if p.Placed? {
      hide Changes, Chosen;
      EntriesSeparate(s, t);
      NotDropped(s, Entries(s, t), p.s, kind, p.table, p.ids);
      TableReplaced(s, t, p.s, kind, p.table, p.ids, forget);
    }
  }

  lemma TableReplaced(s: State, t: Table, s1: State, kind: Kind, table: map<Key, Id>, ids: seq<Id>, forget: bool)
    requires Bounded(s) && Changes(s, s1, ids) && Chosen(s, s1, Entries(s, t), kind, table, ids)
    requires forall id <- ids :: id !in Dropped(Entries(s, t), table) && exists k :: k in table && table[k] == id
    ensures var before := Entries(s, t);
      var s' := Replace(s1, t, before, table, forget);
      && Entries(s', t) == table
      && (forall k :: k in table ==> table[k] in s'.live && table[k] in s'.callbacks && table[k] in s'.infos)
      && (forall k :: k in table ==> if Reusable(s, before, k) then table[k] == before[k] else table[k] >= s.next)
      && (forall k :: k in before && k !in table ==> before[k] !in s'.live)
      && (forall id <- s'.live :: id in s.live || exists k :: k in table && table[k] == id)
      && (forall id <- s.live :: id in s'.live || exists k :: k in before && k !in table && before[k] == id)
      && (forall u :: u != t ==> Entries(s', u) == Entries(s, u))
  {
    hide Injective, OfKind;
  }

  // ---- Requests that fail ----

  /** A breakpoint that cannot be placed: its key is unreadable, or it is new and cannot be created. */
  predicate Unplaceable(s: State, existing: map<Key, Id>, canCreate: bool, r: Request) {
    r.key.None? || (!canCreate && !Reusable(s, existing, r.key.value))
  }

  lemma {:induction false} PlaceAborts(s: State, existing: map<Key, Id>, reqs: seq<Request>, kind: Kind,
                                       canCreate: bool, table: map<Key, Id>, ids: seq<Id>)
    requires TableBounded(existing, s.next)
    ensures Place(s, existing, reqs, kind, canCreate, table, ids).Aborted? <==>
              exists i :: 0 <= i < |reqs| && Unplaceable(s, existing, canCreate, reqs[i])
    decreases |reqs|
  {
    if reqs == [] {
    } else {
      var one, rest := PlaceOne(s, existing, reqs[0], kind, canCreate), reqs[1..];
      assert one.None? <==> Unplaceable(s, existing, canCreate, reqs[0]);
      if one.Some? {
        var (s', id) := one.value;
        PlaceAborts(s', existing, rest, kind, canCreate, table[reqs[0].key.value := id], ids + [id]);
        SamePlaceable(s, existing, reqs[0], kind, canCreate, s');
        assert forall i :: 0 < i < |reqs| ==> reqs[i] == rest[i - 1];
        assert forall i :: 0 <= i < |rest| ==> rest[i] == reqs[i + 1];
      }
    }
  }

  lemma SamePlaceable(s: State, existing: map<Key, Id>, r: Request, kind: Kind, canCreate: bool, s': State)
    requires TableBounded(existing, s.next)
    requires var one := PlaceOne(s, existing, r, kind, canCreate); one.Some? && one.value.0 == s'
    ensures TableBounded(existing, s'.next)
    ensures forall q :: Unplaceable(s', existing, canCreate, q) <==> Unplaceable(s, existing, canCreate, q)
  {
  }

  /**
   A request fails exactly if one of its breakpoints cannot be placed. It then deletes nothing and leaves
   every table alone; the breakpoints it had created before are left live, and no table knows them.
   */
  lemma RequestFails(s: State, t: Table, reqs: seq<Request>, kind: Kind, canCreate: bool, forget: bool)
    requires Inv(s)
    ensures var (s', reply) := SetTable(s, t, reqs, kind, canCreate, forget);
      && (reply.None? <==> exists i :: 0 <= i < |reqs| && Unplaceable(s, Entries(s, t), canCreate, reqs[i]))
      && (reply.None? ==>
            && s'.tables == s.tables && s.live <= s'.live
            && forall id, u, k :: id in s'.live && id !in s.live && k in Entries(s', u) ==> Entries(s', u)[k] != id)
  {
    hide Place, Disjoint, Injective, Separate, PlaceOne;
    var existing := Entries(s, t);
    EntriesSeparate(s, t);
    PlaceAborts(s, existing, reqs, kind, canCreate, map[], []);
    PlaceForRequest(s, t, reqs, kind, canCreate);
    var p := Place(s, existing, reqs, kind, canCreate, map[], []);
    if p.Aborted? {
      var ids :| Changes(s, p.s, ids) && OfKind(p.s, ids, kind) && OldOrNew(s, ids);
      forall id, u, k | id in p.s.live && id !in s.live && k in Entries(p.s, u) ensures Entries(p.s, u)[k] != id {
        EntriesSeparate(s, u);
        assert Entries(p.s, u) == Entries(s, u) && id in ids;
      }
    }
  }

  /** The breakpoints of a new table are not among those dropped. */
  lemma NotDropped(s: State, existing: map<Key, Id>, s': State, kind: Kind, table: map<Key, Id>, ids: seq<Id>)
    requires Chosen(s, s', existing, kind, table, ids) && Injective(existing) && TableBounded(existing, s.next)
    ensures forall id <- ids :: id !in Dropped(existing, table)
  {
  }

  lemma {:induction false} PlaceReuses(s: State, existing: map<Key, Id>, reqs: seq<Request>, kind: Kind, canCreate: bool,
                                       table: map<Key, Id>, ids: seq<Id>)
    requires forall i :: 0 <= i < |reqs| ==> reqs[i].key.Some? && Reusable(s, existing, reqs[i].key.value)
    ensures var p := Place(s, existing, reqs, kind, canCreate, table, ids);
      && p.Placed? && p.s.live == s.live
      && |p.ids| == |ids| + |reqs|
      && (forall i :: 0 <= i < |ids| ==> p.ids[i] == ids[i])
      && (forall i :: 0 <= i < |reqs| ==>
            reqs[i].key.value in existing && p.ids[|ids| + i] == existing[reqs[i].key.value])
    decreases |reqs|
  {
    if reqs == [] {
    } else {
      var r, id := reqs[0], existing[reqs[0].key.value];
      PlaceReuses(Probe(Adopt(s, id, MakeInfo(r, kind)), r.hint), existing, reqs[1..], kind, canCreate,
                  table[r.key.value := id], ids + [id]);
    }
  }

  lemma {:induction false} PlacedKeys(s: State, existing: map<Key, Id>, reqs: seq<Request>, kind: Kind, canCreate: bool,
                                      table: map<Key, Id>, ids: seq<Id>)
    ensures Place(s, existing, reqs, kind, canCreate, table, ids).Placed? ==> forall i :: 0 <= i < |reqs| ==> reqs[i].key.Some?
    decreases |reqs|
  {
    var one := if reqs == [] then None else PlaceOne(s, existing, reqs[0], kind, canCreate);
    if one.Some? {
      PlacedKeys(one.value.0, existing, reqs[1..], kind, canCreate, table[reqs[0].key.value := one.value.1], ids + [one.value.1]);
    }
  }

  /** Repeating a request that succeeded succeeds again and changes no breakpoint. */
  lemma RepeatChangesNothing(s: State, t: Table, reqs: seq<Request>, kind: Kind, canCreate: bool, forget: bool)
    requires Inv(s) && DistinctKeys(reqs) && !kind.Exception?
    requires SetTable(s, t, reqs, kind, canCreate, forget).1.Some?
    ensures var (s1, _) := SetTable(s, t, reqs, kind, canCreate, forget);
      var (s2, reply) := SetTable(s1, t, reqs, kind, canCreate, forget);
      && reply.Some? && |reply.value| == |reqs|
      && s2.live == s1.live && Entries(s2, t) == Entries(s1, t)
      && forall i :: 0 <= i < |reqs| ==> reqs[i].key.Some? && reqs[i].key.value in Entries(s1, t)
                                         && reply.value[i] == Entries(s1, t)[reqs[i].key.value]
  {
    hide Place, SetTable, Inv, Reusable, Requested;
    var s1 := SetTable(s, t, reqs, kind, canCreate, forget).0;
    var existing := Entries(s1, t);
    FirstRequest(s, t, reqs, kind, canCreate, forget);
    PlaceReuses(s1, existing, reqs, kind, canCreate, map[], []);
    ReuseInTable(s1, t, reqs, kind, canCreate, forget);
  }

  /** After a successful request every requested key can be reused. */
  lemma FirstRequest(s: State, t: Table, reqs: seq<Request>, kind: Kind, canCreate: bool, forget: bool)
    requires Inv(s) && DistinctKeys(reqs) && !kind.Exception?
    requires SetTable(s, t, reqs, kind, canCreate, forget).1.Some?
    ensures var s1 := SetTable(s, t, reqs, kind, canCreate, forget).0;
      && Inv(s1)
      && (forall i :: 0 <= i < |reqs| ==> reqs[i].key.Some? && Reusable(s1, Entries(s1, t), reqs[i].key.value))
      && (forall k :: k in Entries(s1, t) ==> Requested(reqs, k) && Reusable(s1, Entries(s1, t), k))
  {
    hide Inv, Place;
    RequestResult(s, t, reqs, kind, canCreate, forget);
    SetTableKeeps(s, t, reqs, kind, canCreate, forget);
    PlacedKeys(s, Entries(s, t), reqs, kind, canCreate, map[], []);
    var s1 := SetTable(s, t, reqs, kind, canCreate, forget).0;
    forall i | 0 <= i < |reqs| ensures Reusable(s1, Entries(s1, t), reqs[i].key.value) {
      assert Requested(reqs, reqs[i].key.value);
    }
  }

  /** A request for exactly the keys of a live table leaves the table and the live breakpoints alone. */
  lemma ReuseInTable(s: State, t: Table, reqs: seq<Request>, kind: Kind, canCreate: bool, forget: bool)
    requires Inv(s) && DistinctKeys(reqs)
    requires var p := Place(s, Entries(s, t), reqs, kind, canCreate, map[], []); p.Placed? && p.s.live == s.live
    requires forall k :: k in Entries(s, t) ==> Requested(reqs, k) && Reusable(s, Entries(s, t), k)
    requires forall i :: 0 <= i < |reqs| ==> reqs[i].key.Some? && Reusable(s, Entries(s, t), reqs[i].key.value)
    ensures var (s', reply) := SetTable(s, t, reqs, kind, canCreate, forget);
      && s'.live == s.live && Entries(s', t) == Entries(s, t)
      && reply == Some(Place(s, Entries(s, t), reqs, kind, canCreate, map[], []).ids)
  {
    hide Place, Inv;
    RequestResult(s, t, reqs, kind, canCreate, forget);
    var s' := SetTable(s, t, reqs, kind, canCreate, forget).0;
    var before, after := Entries(s, t), Entries(s', t);
    assert forall k :: k in after <==> k in before;
    assert after == before;
    assert Dropped(before, after) == {};
  }

  // ---- Every step keeps the invariant ----

  lemma ChangesKeepInv(s: State, s': State, ids: seq<Id>, kind: Kind)
    requires Inv(s) && Changes(s, s', ids) && !kind.Exception?
    requires OfKind(s', ids, kind)
    ensures Inv(s')
  {
  }

  lemma ReplaceKeepsInv(s: State, t: Table, s': State, kind: Kind, table: map<Key, Id>, ids: seq<Id>, forget: bool)
    requires Inv(s) && !kind.Exception? && Inv(s') && s'.tables == s.tables && s'.next >= s.next
    requires Chosen(s, s', Entries(s, t), kind, table, ids)
    ensures Inv(Replace(s', t, Entries(s, t), table, forget))
  {
    hide Disjoint, Injective, TableBounded;
    var r := Replace(s', t, Entries(s, t), table, forget);
    TableStaysApart(s, t, s', kind, table, ids);
    assert Bounded(r);
    DroppedUntracked(s, t, s', table, forget);
    NewTableBounded(s, s', Entries(s, t), kind, table, ids);
    assert Separate(r);
  }

  lemma DroppedUntracked(s: State, t: Table, s': State, table: map<Key, Id>, forget: bool)
    requires Tracked(s')
    ensures Tracked(Replace(s', t, Entries(s, t), table, forget))
  {
  }

  lemma NewTableBounded(s: State, s': State, existing: map<Key, Id>, kind: Kind, table: map<Key, Id>, ids: seq<Id>)
    requires Chosen(s, s', existing, kind, table, ids)
    ensures TableBounded(table, s'.next) && Injective(table)
  {
  }

  /** A new table shares no breakpoint with the other tables. */
  lemma TableStaysApart(s: State, t: Table, s': State, kind: Kind, table: map<Key, Id>, ids: seq<Id>)
    requires Inv(s) && Chosen(s, s', Entries(s, t), kind, table, ids)
    ensures forall u :: u in s.tables && u != t ==> Disjoint(s.tables[u], table) && Disjoint(table, s.tables[u])
  {
    forall u, j, k | u in s.tables && u != t && j in s.tables[u] && k in table
      ensures s.tables[u][j] != table[k]
    {
      if Reusable(s, Entries(s, t), k) {
        assert t in s.tables && Disjoint(s.tables[u], s.tables[t]);
      } else {
        assert TableBounded(s.tables[u], s.next);
      }
    }
  }

  lemma SetTableKeeps(s: State, t: Table, reqs: seq<Request>, kind: Kind, canCreate: bool, forget: bool)
    requires Inv(s) && !kind.Exception?
    ensures Inv(SetTable(s, t, reqs, kind, canCreate, forget).0)
  {
    hide Inv, Changes, Chosen, Place;
    PlaceForRequest(s, t, reqs, kind, canCreate);
    match Place(s, Entries(s, t), reqs, kind, canCreate, map[], [])
    case Aborted(s') =>
      var ids' :| Changes(s, s', ids') && OfKind(s', ids', kind);
      ChangesKeepInv(s, s', ids', kind);
    case Placed(s', table, ids) =>
      ChosenKinds(s, s', Entries(s, t), kind, table, ids);
      ChangesKeepInv(s, s', ids, kind);
      ReplaceKeepsInv(s, t, s', kind, table, ids, forget);
  }

  lemma ChosenKinds(s: State, s': State, existing: map<Key, Id>, kind: Kind, table: map<Key, Id>, ids: seq<Id>)
    requires Changes(s, s', ids) && Chosen(s, s', existing, kind, table, ids)
    ensures OfKind(s', ids, kind) && s'.tables == s.tables && s'.next >= s.next
  {
  }

  lemma {:induction false} LooseKeeps(s: State, lines: nat, reqs: seq<Request>)
    requires Inv(s)
    ensures Inv(SetLoose(s, lines, reqs))
    decreases |reqs|
  {
    if reqs == [] {
    } else {
      var s1 := if OnLine(reqs[0], lines) then Adopt(Create(s), s.next, MakeInfo(reqs[0], Disassembly)) else s;
      LooseKeeps(s1, lines, reqs[1..]);
    }
  }

  lemma {:induction false} AddExceptionsKeeps(s: State, names: seq<string>)
    requires Inv(s)
    ensures Inv(AddExceptions(s, names))
    decreases |names|
  {
    if names == [] {
    } else {
      var s1 := if KnownFilter(names[0]) then Adopt(Create(s), s.next, Info(Exception(names[0]), false, None, 0)) else s;
      assert forall t, k :: t in s.tables && k in s.tables[t] ==> s.tables[t][k] < s.next;
      AddExceptionsKeeps(s1, names[1..]);
    }
  }

  lemma ExceptionsKeep(s: State, names: seq<string>)
    requires Inv(s)
    ensures Inv(SetExceptions(s, names))
  {
    var stale := ExceptionIds(s);
    var s1 := s.(live := s.live - stale, infos := s.infos - stale);
    assert Inv(s1);
    AddExceptionsKeeps(s1, names);
  }

  // ---- Runs ----

  /** A request, a hit, an event, or a change made at the debugger's own console. */
  datatype Step =
    | Request(t: Table, reqs: seq<Breakpoints.Request>, kind: Kind, canCreate: bool, forget: bool)
    | Loose(lines: nat, reqs: seq<Breakpoints.Request>)
    | Exceptions(names: seq<string>)
    | HitAt(id: Id, check: Check)
    | Added(id: Id)
    | Removed(id: Id)
    | ConsoleCreates
    | ConsoleDeletes(id: Id)

  /** Only live breakpoints with a callback are hit, and a removal is reported of a dead one. */
  predicate Enabled(s: State, step: Step) {
    match step
    case Request(_, _, kind, _, _) => !kind.Exception?
    case HitAt(id, _) => id in s.live && id in s.callbacks
    case Removed(id) => id !in s.live
    case _ => true
  }

  function Next(s: State, step: Step): State {
    match step
    case Request(t, reqs, kind, canCreate, forget) => SetTable(s, t, reqs, kind, canCreate, forget).0
    case Loose(lines, reqs) => SetLoose(s, lines, reqs)
    case Exceptions(names) => SetExceptions(s, names)
    case HitAt(id, check) => OnHit(s, id, check).0
    case Added(id) => OnAdded(s, id)
    case Removed(id) => OnRemoved(s, id)
    case ConsoleCreates => Create(s)
    case ConsoleDeletes(id) => s.(live := s.live - {id})
  }

  lemma StepKeeps(s: State, step: Step)
    requires Inv(s) && Enabled(s, step)
    ensures Inv(Next(s, step))
  {
    hide Inv, SetTable, SetLoose, SetExceptions, OnHit, OnAdded, OnRemoved;
    match step
    case Request(t, reqs, kind, canCreate, forget) => SetTableKeeps(s, t, reqs, kind, canCreate, forget);
    case Loose(lines, reqs) => LooseKeeps(s, lines, reqs);
    case Exceptions(names) => ExceptionsKeep(s, names);
    case HitAt(id, check) => HitKeeps(s, id, check);
    case Added(id) => AddedKeeps(s, id);
    case Removed(id) => RemovedKeeps(s, id);
    case ConsoleCreates => ConsoleKeeps(s, 0);
    case ConsoleDeletes(id) => ConsoleKeeps(s, id);
  }

  lemma HitKeeps(s: State, id: Id, check: Check)
    requires Inv(s)
    ensures Inv(OnHit(s, id, check).0)
  {
    if id in s.infos {
      var counted := s.(infos := s.infos[id := s.infos[id].(hitCount := s.infos[id].hitCount + 1)]);
      assert OnHit(s, id, check).0 == s || OnHit(s, id, check).0 == counted;
      assert Inv(counted);
    }
  }

  lemma AddedKeeps(s: State, id: Id)
    requires Inv(s)
    ensures Inv(OnAdded(s, id))
  {
  }

  lemma RemovedKeeps(s: State, id: Id)
    requires Inv(s) && id !in s.live
    ensures Inv(OnRemoved(s, id))
  {
  }

  lemma ConsoleKeeps(s: State, id: Id)
    requires Inv(s)
    ensures Inv(Create(s)) && Inv(s.(live := s.live - {id}))
  {
  }

  predicate IsRun(s: State, steps: seq<Step>)
    decreases |steps|
  {
    steps == [] || (Enabled(s, steps[0]) && IsRun(Next(s, steps[0]), steps[1..]))
  }

  function After(s: State, steps: seq<Step>): State
    decreases |steps|
  {
    if steps == [] then s else After(Next(s, steps[0]), steps[1..])
  }

  lemma {:induction false} RunKeeps(s: State, steps: seq<Step>)
    requires Inv(s) && IsRun(s, steps)
    ensures Inv(After(s, steps))
    decreases |steps|
  {
    if steps == [] {
    } else {
      StepKeeps(s, steps[0]);
      RunKeeps(Next(s, steps[0]), steps[1..]);
    }
  }

  /** On every run, every breakpoint that can be hit is found by the hit handler. */
  lemma HitsAreTracked(steps: seq<Step>, id: Id)
    requires IsRun(INIT, steps)
    requires var s := After(INIT, steps); id in s.live && id in s.callbacks
    ensures var s := After(INIT, steps);
      && id in s.infos
      && (OnHit(s, id, Passed).1 == Panics <==> s.infos[id].hitCondition == Some(MOD(0)))
      && OnHit(s, id, Refused) == (s, Continue) && OnHit(s, id, Unevaluable) == (s, Stop)
  {
    RunKeeps(INIT, steps);
  }

  /** An exception request deletes no breakpoint of any table, on any run. */
  lemma ExceptionsSpareTables(s: State, names: seq<string>, t: Table, k: Key)
    requires Inv(s) && k in Entries(s, t) && Entries(s, t)[k] in s.live && Entries(s, t)[k] in s.callbacks
    ensures var s' := SetExceptions(s, names); Entries(s', t) == Entries(s, t) && Entries(s, t)[k] in s'.live
  {
    var stale := ExceptionIds(s);
    AddExceptionsGrows(s.(live := s.live - stale, infos := s.infos - stale), names);
  }

  lemma {:induction false} AddExceptionsGrows(s: State, names: seq<string>)
    ensures var s' := AddExceptions(s, names); s.live <= s'.live && s'.tables == s.tables
    decreases |names|
  {
    if names == [] {
    } else {
      var s1 := if KnownFilter(names[0]) then Adopt(Create(s), s.next, Info(Exception(names[0]), false, None, 0)) else s;
      AddExceptionsGrows(s1, names[1..]);
    }
  }

  // ---- Where the bookkeeping does not hold ----

  /** How many of the requests are for a known line, counted from 0. */
  function LinesHit(lines: nat, reqs: seq<Breakpoints.Request>): nat {
    if reqs == [] then 0
    else
      var hit := match reqs[0].key case Some(Line(line)) => 0 <= line < lines case _ => false;
      (if hit then 1 else 0) + LinesHit(lines, reqs[1..])
  }

  /** Restoring breakpoints of an earlier session makes a new one for each of its lines, whatever exists already. */
  lemma {:induction false} LooseDuplicates(s: State, lines: nat, reqs: seq<Breakpoints.Request>)
    ensures var s' := SetLoose(s, lines, reqs);
      && s'.next == s.next + LinesHit(lines, reqs) && s'.tables == s.tables
      && forall id :: id in s'.live <==> id in s.live || s.next <= id < s'.next
    decreases |reqs|
  {
    if reqs == [] {
    } else {
      var s1 := if OnLine(reqs[0], lines) then Adopt(Create(s), s.next, MakeInfo(reqs[0], Disassembly)) else s;
      LooseDuplicates(s1, lines, reqs[1..]);
    }
  }

  const FILTERS := {"cpp_throw", "cpp_catch", "rust_panic", "swift_throw"}

  function KnownFilters(names: seq<string>): seq<string> {
    if names == [] then [] else (if names[0] in FILTERS then [names[0]] else []) + KnownFilters(names[1..])
  }

  ghost predicate IsException(s: State, id: Id, filter: string) {
    id in s.infos && s.infos[id].kind == Exception(filter)
  }

  lemma {:induction false} ExceptionsAdded(s: State, names: seq<string>, id: Id, f: string)
    requires Bounded(s)
    ensures var s', known := AddExceptions(s, names), KnownFilters(names);
      && s'.next == s.next + |known|
      && (IsException(s', id, f) <==> IsException(s, id, f) || (s.next <= id < s'.next && known[id - s.next] == f))
    decreases |names|
  {
    if names == [] {
    } else {
      var known := KnownFilter(names[0]);
      var s1 := if known then Adopt(Create(s), s.next, Info(Exception(names[0]), false, None, 0)) else s;
      ExceptionsAdded(s1, names[1..], id, f);
      assert IsException(s1, id, f) <==> IsException(s, id, f) || (known && id == s.next && f == names[0]);
    }
  }

  /** After an exception request the exception breakpoints are exactly the known filters requested, each new and live. */
  lemma ExceptionsRenewed(s: State, names: seq<string>)
    requires Inv(s)
    ensures var s', known := SetExceptions(s, names), KnownFilters(names);
      && s'.next == s.next + |known|
      && (forall id: Id, f :: IsException(s', id, f) <==> s.next <= id < s'.next && known[id - s.next] == f)
      && (forall id: Id :: s.next <= id < s'.next ==> id in s'.live && id in s'.callbacks)
      && (forall id: Id :: id in ExceptionIds(s) ==> id !in s'.live)
  {
    hide AddExceptions, KnownFilters, Separate;
    var stale := ExceptionIds(s);
    var s1 := s.(live := s.live - stale, infos := s.infos - stale);
    ExceptionsAdded(s1, names, 0, "");
    forall id: Id, f ensures IsException(SetExceptions(s, names), id, f) <==>
      s.next <= id < SetExceptions(s, names).next && KnownFilters(names)[id - s.next] == f
    {
      ExceptionsAdded(s1, names, id, f);
    }
    ExceptionsLive(s1, names);
  }

  lemma {:induction false} ExceptionsLive(s: State, names: seq<string>)
    ensures var s' := AddExceptions(s, names);
      && s'.next >= s.next && s.live <= s'.live && s.callbacks <= s'.callbacks
      && (forall id :: id in s'.live ==> id in s.live || s.next <= id)
      && (forall id: Id :: s.next <= id < s'.next ==> id in s'.live && id in s'.callbacks)
    decreases |names|
  {
    if names == [] {
    } else {
      var s1 := if KnownFilter(names[0]) then Adopt(Create(s), s.next, Info(Exception(names[0]), false, None, 0)) else s;
      ExceptionsLive(s1, names[1..]);
    }
  }

  // ---- Hit counting ----

  function HitTimes(s: State, id: Id, n: nat): State {
    if n == 0 then s else OnHit(HitTimes(s, id, n - 1), id, Passed).0
  }

  /** What a hit condition says of the m-th passing hit. */
  predicate Wants(c: HitCondition, m: nat) {
    && (c.LT? ==> m < c.n) && (c.LE? ==> m <= c.n) && (c.EQ? ==> m == c.n)
    && (c.GT? ==> c.n < m) && (c.GE? ==> c.n <= m)
    && (c.MOD? ==> c.n != 0 && m % c.n == 0)
  }

  /** What the m-th passing hit of a breakpoint with these options does. */
  function Verdict(logs: bool, condition: Option<HitCondition>, m: nat): Hit {
    if condition == Some(MOD(0)) then Panics
    else if condition.Some? && !Wants(condition.value, m) then Continue
    else if logs then Log
    else Stop
  }

  /** The n-th passing hit from now on is decided by the hit condition on the count so far plus n. */
  lemma {:induction false} NthHit(s: State, id: Id, n: nat)
    requires id in s.infos && n > 0
    ensures var info := s.infos[id];
      && HitTimes(s, id, n) == s.(infos := s.infos[id := info.(hitCount := info.hitCount + n)])
      && OnHit(HitTimes(s, id, n - 1), id, Passed).1 == Verdict(info.logs, info.hitCondition, info.hitCount + n)
  {
    hide OnHit, Verdict;
    var info := s.infos[id];
    if n == 1 {
      assert HitTimes(s, id, 0) == s && s.infos[id := info] == s.infos;
    } else {
      NthHit(s, id, n - 1);
      assert s.infos[id := info.(hitCount := info.hitCount + (n - 1))][id := info.(hitCount := info.hitCount + n)] ==
             s.infos[id := info.(hitCount := info.hitCount + n)];
    }
    OneHit(HitTimes(s, id, n - 1), id);
  }

  lemma OneHit(s: State, id: Id)
    requires id in s.infos
    ensures var info := s.infos[id];
      OnHit(s, id, Passed) == (s.(infos := s.infos[id := info.(hitCount := info.hitCount + 1)]),
                               Verdict(info.logs, info.hitCondition, info.hitCount + 1))
  {
  }
}
