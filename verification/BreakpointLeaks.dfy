/**
 Breakpoints that a set-breakpoints request leaves live although no table knows them: exactly when
 a successful request makes one, and exactly when a failing request does.
 */
module BreakpointLeaks {
  import opened Results
  import opened Breakpoints
  import opened BreakpointRuns

  ghost predicate InTables(s: State, id: Id) {
    exists u, k :: k in Entries(s, u) && Entries(s, u)[k] == id
  }

  /** Some breakpoint of s' is new since s and in none of the tables. */
  ghost predicate Leaks(s: State, s': State) {
    exists id :: id in s'.live && id !in s.live && !InTables(s', id)
  }

  // ---- Where each breakpoint of a request comes from ----

  predicate HasKey(reqs: seq<Breakpoints.Request>, i: nat, k: Key) {
    i < |reqs| && reqs[i].key == Some(k)
  }

  /** Request i is the last with its key among the first n. */
  ghost predicate LastOf(reqs: seq<Breakpoints.Request>, n: nat, i: nat, k: Key) {
    i < n && HasKey(reqs, i, k) && forall j: nat :: i < j < n ==> !HasKey(reqs, j, k)
  }

  predicate IsNew(s0: State, existing: map<Key, Id>, r: Breakpoints.Request) {
    r.key.Some? && !Reusable(s0, existing, r.key.value)
  }

  /**
   After the first n requests: a key that could not be reused got an id of its own for every request,
   and the table has the id of the last request with each key.
   */
  ghost predicate Logged(s0: State, s: State, existing: map<Key, Id>, reqs: seq<Breakpoints.Request>, n: nat,
                         table: map<Key, Id>, ids: seq<Id>) {
    && n == |ids| <= |reqs| && s0.next <= s.next
    && (forall i :: 0 <= i < n ==> reqs[i].key.Some? && ids[i] < s.next)
    && (forall i :: 0 <= i < n ==> if IsNew(s0, existing, reqs[i]) then s0.next <= ids[i]
                                   else ids[i] == existing[reqs[i].key.value] < s0.next)
    && (forall i, j :: 0 <= i < j < n && IsNew(s0, existing, reqs[j]) ==> ids[i] < ids[j])
    && (forall k :: k in table ==> exists i: nat :: LastOf(reqs, n, i, k) && table[k] == ids[i])
    && (forall i: nat :: i < n ==> reqs[i].key.value in table)
  }

  lemma LastLater(reqs: seq<Breakpoints.Request>, n: nat, i: nat, k: Key)
    requires n < |reqs|
    ensures LastOf(reqs, n + 1, i, k) <==> if HasKey(reqs, n, k) then i == n else LastOf(reqs, n, i, k)
  {
    if i < n && HasKey(reqs, n, k) {
      assert !LastOf(reqs, n + 1, i, k);
    }
  }

  lemma LogOne(s0: State, s: State, existing: map<Key, Id>, reqs: seq<Breakpoints.Request>, n: nat,
               kind: Kind, canCreate: bool, table: map<Key, Id>, ids: seq<Id>)
    requires Logged(s0, s, existing, reqs, n, table, ids) && n < |reqs| && TableBounded(existing, s0.next)
    requires forall k :: Reusable(s, existing, k) <==> Reusable(s0, existing, k)
    requires PlaceOne(s, existing, reqs[n], kind, canCreate).Some?
    ensures var (s', id) := PlaceOne(s, existing, reqs[n], kind, canCreate).value;
      Logged(s0, s', existing, reqs, n + 1, table[reqs[n].key.value := id], ids + [id])
  {
    var (s', id) := PlaceOne(s, existing, reqs[n], kind, canCreate).value;
    var key, table', ids' := reqs[n].key.value, table[reqs[n].key.value := id], ids + [id];
    forall k | k in table' ensures exists i: nat :: LastOf(reqs, n + 1, i, k) && table'[k] == ids'[i] {
      if k == key {
        LastLater(reqs, n, n, k);
        assert LastOf(reqs, n + 1, n, k) && table'[k] == ids'[n];
      } else {
        var i: nat :| LastOf(reqs, n, i, k) && table[k] == ids[i];
        LastLater(reqs, n, i, k);
        assert LastOf(reqs, n + 1, i, k) && table'[k] == ids'[i];
      }
    }
  }

  lemma {:induction false} PlaceLogged(s0: State, s: State, existing: map<Key, Id>, reqs: seq<Breakpoints.Request>, n: nat,
                                       kind: Kind, canCreate: bool, table: map<Key, Id>, ids: seq<Id>)
    requires Logged(s0, s, existing, reqs, n, table, ids) && TableBounded(existing, s0.next)
    requires forall k :: Reusable(s, existing, k) <==> Reusable(s0, existing, k)
    ensures var p := Place(s, existing, reqs[n..], kind, canCreate, table, ids);
      p.Placed? ==> Logged(s0, p.s, existing, reqs, |reqs|, p.table, p.ids)
    decreases |reqs| - n
  {
    if n < |reqs| {
      var one := PlaceOne(s, existing, reqs[n], kind, canCreate);
      assert reqs[n..][0] == reqs[n] && reqs[n..][1..] == reqs[n + 1..];
      if one.Some? {
        hide Logged;
        LogOne(s0, s, existing, reqs, n, kind, canCreate, table, ids);
        SameReusable(s0, s, existing, reqs[n], kind, canCreate);
        LoggedLength(s0, s, existing, reqs, n, table, ids);
        PlaceLogged(s0, one.value.0, existing, reqs, n + 1, kind, canCreate, table[reqs[n].key.value := one.value.1], ids + [one.value.1]);
      }
    }
  }

  lemma LoggedLength(s0: State, s: State, existing: map<Key, Id>, reqs: seq<Breakpoints.Request>, n: nat,
                     table: map<Key, Id>, ids: seq<Id>)
    requires Logged(s0, s, existing, reqs, n, table, ids)
    ensures s0.next <= s.next && n <= |reqs|
  {
  }

  lemma SameReusable(s0: State, s: State, existing: map<Key, Id>, r: Breakpoints.Request, kind: Kind, canCreate: bool)
    requires TableBounded(existing, s0.next)
    requires forall k :: Reusable(s, existing, k) <==> Reusable(s0, existing, k)
    requires PlaceOne(s, existing, r, kind, canCreate).Some?
    requires s0.next <= s.next
    ensures var s' := PlaceOne(s, existing, r, kind, canCreate).value.0;
      forall k :: Reusable(s', existing, k) <==> Reusable(s0, existing, k)
  {
  }

  // ---- Successful requests ----

  /** A key that is requested again later although it could not be reused. */
  ghost predicate RepeatsNew(s: State, existing: map<Key, Id>, reqs: seq<Breakpoints.Request>) {
    exists i, j :: 0 <= i < j < |reqs| && reqs[i].key == reqs[j].key && IsNew(s, existing, reqs[i])
  }

  lemma NotListed(s0: State, s: State, existing: map<Key, Id>, reqs: seq<Breakpoints.Request>,
                  table: map<Key, Id>, ids: seq<Id>, i: nat)
    requires Logged(s0, s, existing, reqs, |reqs|, table, ids) && i < |reqs| && IsNew(s0, existing, reqs[i])
    ensures (exists k :: k in table && table[k] == ids[i]) <==> LastOf(reqs, |reqs|, i, reqs[i].key.value)
  {
    var key := reqs[i].key.value;
    if k :| k in table && table[k] == ids[i] {
      var m: nat :| LastOf(reqs, |reqs|, m, k) && table[k] == ids[m];
      DistinctNew(s0, s, existing, reqs, table, ids, i, m);
    }
    if LastOf(reqs, |reqs|, i, key) {
      var m: nat :| LastOf(reqs, |reqs|, m, key) && table[key] == ids[m];
      assert m == i;
      assert key in table && table[key] == ids[i];
    }
  }

  lemma DistinctNew(s0: State, s: State, existing: map<Key, Id>, reqs: seq<Breakpoints.Request>,
                    table: map<Key, Id>, ids: seq<Id>, i: nat, m: nat)
    requires Logged(s0, s, existing, reqs, |reqs|, table, ids) && i < |reqs| && m < |reqs|
    requires IsNew(s0, existing, reqs[i]) && ids[i] == ids[m]
    ensures i == m
  {
    assert s0.next <= ids[i];
    assert IsNew(s0, existing, reqs[m]);
  }

  /**
   After a successful request some new breakpoint is live and in no table if and only if a key is
   requested twice and no live breakpoint could be reused for it.
   */
  lemma DuplicateKeyLeaks(s: State, t: Table, reqs: seq<Breakpoints.Request>, kind: Kind, canCreate: bool, forget: bool)
    requires Inv(s)
    ensures var (s', reply) := SetTable(s, t, reqs, kind, canCreate, forget);
      reply.Some? ==> (Leaks(s, s') <==> RepeatsNew(s, Entries(s, t), reqs))
  {
    hide Place, Separate, Injective, Disjoint, Logged, Changes, Chosen, TableBounded;
    var existing := Entries(s, t);
    EntriesSeparate(s, t);
    PlaceForRequest(s, t, reqs, kind, canCreate);
    var p := Place(s, existing, reqs, kind, canCreate, map[], []);
    if p.Placed? {
      EmptyLog(s, existing, reqs);
      assert reqs[0..] == reqs;
      PlaceLogged(s, s, existing, reqs, 0, kind, canCreate, map[], []);
      var s' := Replace(p.s, t, existing, p.table, forget);
      NewLive(s, t, p.s, s', existing, kind, p.table, p.ids, forget);
      if RepeatsNew(s, existing, reqs) {
        RepeatedLeaks(s, t, p.s, s', existing, reqs, p.table, p.ids);
      }
      if Leaks(s, s') {
        LeakedRepeats(s, t, p.s, s', existing, reqs, p.table, p.ids);
      }
    }
  }

  /** Two breakpoints on one new line, as at two columns of it: the first one is live and in no table. */
  lemma TwoColumnsLeak(path: string)
    ensures var r := Breakpoints.Request(Some(Line(5)), false, None, false);
      var s := SetTable(INIT, SourceFile(path), [r, r], Source, true, true).0;
      Leaks(INIT, s) && s.live == {1, 2} && Entries(s, SourceFile(path)) == map[Line(5) := 2]
  {
    var r := Breakpoints.Request(Some(Line(5)), false, None, false);
    var s1 := Adopt(Create(INIT), 1, MakeInfo(r, Source));
    var s2 := Adopt(Create(s1), 2, MakeInfo(r, Source));
    var one, two := map[Line(5) := 1], map[Line(5) := 2];
    assert [r, r][1..] == [r] && [r][1..] == [];
    assert one[Line(5) := 2] == two && [] + [1] + [2] == [1, 2];
    assert Place(s2, map[], [], Source, true, two, [1, 2]) == Placed(s2, two, [1, 2]);
    assert Place(s1, map[], [r], Source, true, one, [1]) == Placed(s2, two, [1, 2]);
    assert Place(INIT, map[], [r, r], Source, true, map[], []) == Placed(s2, two, [1, 2]);
    var s := Replace(s2, SourceFile(path), map[], two, true);
    assert 1 in s.live && 1 !in INIT.live && !InTables(s, 1);
  }

  lemma EmptyLog(s: State, existing: map<Key, Id>, reqs: seq<Breakpoints.Request>)
    ensures Logged(s, s, existing, reqs, 0, map[], [])
  {
  }

  /** What the request adds to the live breakpoints, and what the tables say of new ones. */
  lemma NewLive(s: State, t: Table, s1: State, s': State, existing: map<Key, Id>, kind: Kind, table: map<Key, Id>, ids: seq<Id>, forget: bool)
    requires Inv(s) && existing == Entries(s, t) && Changes(s, s1, ids) && Chosen(s, s1, existing, kind, table, ids)
    requires s' == Replace(s1, t, existing, table, forget)
    ensures forall id :: id in s'.live && id !in s.live <==> id in ids && s.next <= id
    ensures forall id :: s.next <= id ==> (InTables(s', id) <==> exists k :: k in table && table[k] == id)
  {
    EntriesSeparate(s, t);
    NotDropped(s, existing, s1, kind, table, ids);
    forall id | s.next <= id ensures InTables(s', id) <==> exists k :: k in table && table[k] == id {
      if k :| k in table && table[k] == id {
        assert k in Entries(s', t) && Entries(s', t)[k] == id;
      }
      if u, k :| k in Entries(s', u) && Entries(s', u)[k] == id {
        EntriesSeparate(s, u);
      }
    }
  }

  lemma NewAt(s0: State, s: State, existing: map<Key, Id>, reqs: seq<Breakpoints.Request>,
              table: map<Key, Id>, ids: seq<Id>, i: nat)
    requires Logged(s0, s, existing, reqs, |reqs|, table, ids) && i < |ids| && s0.next <= ids[i]
    ensures |ids| == |reqs| && IsNew(s0, existing, reqs[i]) && reqs[i].key.Some?
  {
  }

  lemma RepeatedLeaks(s: State, t: Table, s1: State, s': State, existing: map<Key, Id>, reqs: seq<Breakpoints.Request>,
                      table: map<Key, Id>, ids: seq<Id>)
    requires Logged(s, s1, existing, reqs, |reqs|, table, ids) && RepeatsNew(s, existing, reqs)
    requires forall id :: id in s'.live && id !in s.live <==> id in ids && s.next <= id
    requires forall id :: s.next <= id ==> (InTables(s', id) <==> exists k :: k in table && table[k] == id)
    ensures Leaks(s, s')
  {
    var i, j :| 0 <= i < j < |reqs| && reqs[i].key == reqs[j].key && IsNew(s, existing, reqs[i]);
    NotListed(s, s1, existing, reqs, table, ids, i);
    assert HasKey(reqs, j, reqs[i].key.value);
    assert ids[i] in ids && s.next <= ids[i];
  }

  lemma LeakedRepeats(s: State, t: Table, s1: State, s': State, existing: map<Key, Id>, reqs: seq<Breakpoints.Request>,
                      table: map<Key, Id>, ids: seq<Id>)
    requires Logged(s, s1, existing, reqs, |reqs|, table, ids) && Leaks(s, s')
    requires forall id :: id in s'.live && id !in s.live <==> id in ids && s.next <= id
    requires forall id :: s.next <= id ==> (InTables(s', id) <==> exists k :: k in table && table[k] == id)
    ensures RepeatsNew(s, existing, reqs)
  {
    hide Logged, InTables, IsNew;
    var id :| id in s'.live && id !in s.live && !InTables(s', id);
    var i :| 0 <= i < |ids| && ids[i] == id;
    NewAt(s, s1, existing, reqs, table, ids, i);
    NotListed(s, s1, existing, reqs, table, ids, i);
    var j: nat :| i < j < |reqs| && HasKey(reqs, j, reqs[i].key.value);
  }

  // ---- Requests that fail ----

  /** All requests up to the i-th can be placed, and that one needs a new breakpoint. */
  predicate Creates(s: State, existing: map<Key, Id>, canCreate: bool, reqs: seq<Breakpoints.Request>, i: nat) {
    i < |reqs| && IsNew(s, existing, reqs[i]) && forall j :: 0 <= j <= i ==> !Unplaceable(s, existing, canCreate, reqs[j])
  }

  ghost predicate CreatesSome(s: State, existing: map<Key, Id>, canCreate: bool, reqs: seq<Breakpoints.Request>) {
    exists i: nat :: Creates(s, existing, canCreate, reqs, i)
  }

  lemma CreatesLater(s: State, s1: State, existing: map<Key, Id>, canCreate: bool, reqs: seq<Breakpoints.Request>)
    requires reqs != [] && !Unplaceable(s, existing, canCreate, reqs[0])
    requires forall k :: Reusable(s1, existing, k) <==> Reusable(s, existing, k)
    ensures CreatesSome(s, existing, canCreate, reqs) <==>
              IsNew(s, existing, reqs[0]) || CreatesSome(s1, existing, canCreate, reqs[1..])
  {
    var rest := reqs[1..];
    if IsNew(s, existing, reqs[0]) {
      assert Creates(s, existing, canCreate, reqs, 0);
    }
    if CreatesSome(s1, existing, canCreate, rest) {
      var i: nat :| Creates(s1, existing, canCreate, rest, i);
      forall j | 0 <= j <= i + 1 ensures !Unplaceable(s, existing, canCreate, reqs[j]) {
        if j > 0 {
          assert reqs[j] == rest[j - 1];
        }
      }
      assert Creates(s, existing, canCreate, reqs, i + 1);
    }
    if CreatesSome(s, existing, canCreate, reqs) {
      var i: nat :| Creates(s, existing, canCreate, reqs, i);
      if i > 0 {
        forall j | 0 <= j <= i - 1 ensures !Unplaceable(s1, existing, canCreate, rest[j]) {
          assert rest[j] == reqs[j + 1];
        }
        assert Creates(s1, existing, canCreate, rest, i - 1);
      }
    }
  }

  function Reached(p: Placed): State {
    match p
    case Placed(s, _, _) => s
    case Aborted(s) => s
  }

  /** Placing adds to the live breakpoints exactly if it gets to a key that cannot be reused. */
  lemma {:induction false} PlaceGrows(s: State, existing: map<Key, Id>, reqs: seq<Breakpoints.Request>, kind: Kind, canCreate: bool,
                                      table: map<Key, Id>, ids: seq<Id>)
    requires TableBounded(existing, s.next) && forall id <- s.live :: id < s.next
    ensures var s' := Reached(Place(s, existing, reqs, kind, canCreate, table, ids));
      s.live <= s'.live && ((exists id :: id in s'.live && id !in s.live) <==> CreatesSome(s, existing, canCreate, reqs))
    decreases |reqs|
  {
    hide CreatesSome;
    if reqs == [] || Unplaceable(s, existing, canCreate, reqs[0]) {
      NothingCreated(s, existing, canCreate, reqs);
    } else {
      var (s1, id) := PlaceOne(s, existing, reqs[0], kind, canCreate).value;
      SameReusable(s, s, existing, reqs[0], kind, canCreate);
      CreatesLater(s, s1, existing, canCreate, reqs);
      PlaceGrows(s1, existing, reqs[1..], kind, canCreate, table[reqs[0].key.value := id], ids + [id]);
      assert IsNew(s, existing, reqs[0]) ==> id in s1.live && id !in s.live;
    }
  }

  lemma NothingCreated(s: State, existing: map<Key, Id>, canCreate: bool, reqs: seq<Breakpoints.Request>)
    requires reqs == [] || Unplaceable(s, existing, canCreate, reqs[0])
    ensures !CreatesSome(s, existing, canCreate, reqs)
  {
  }

  /**
   A request that fails leaves a new live breakpoint in no table if and only if, before the first
   breakpoint that cannot be placed, it got to a key for which none could be reused.
   */
  lemma FailedRequestLeaks(s: State, t: Table, reqs: seq<Breakpoints.Request>, kind: Kind, canCreate: bool, forget: bool)
    requires Inv(s)
    ensures var (s', reply) := SetTable(s, t, reqs, kind, canCreate, forget);
      reply.None? ==> (Leaks(s, s') <==> CreatesSome(s, Entries(s, t), canCreate, reqs))
  {
    hide Place, CreatesSome, Separate, Injective, Disjoint;
    EntriesSeparate(s, t);
    RequestFails(s, t, reqs, kind, canCreate, forget);
    PlaceGrows(s, Entries(s, t), reqs, kind, canCreate, map[], []);
  }

  /** An instruction request whose second address does not parse: its first breakpoint is live, and in no table. */
  lemma UnparsableLeaks(k: Key)
    ensures var good, bad := Breakpoints.Request(Some(k), false, None, false), Breakpoints.Request(None, false, None, false);
      var (s, reply) := SetTable(INIT, Instructions, [good, bad], Instruction, true, false);
      reply == None && s.live == {1} && s.tables == map[]
  {
    var good, bad := Breakpoints.Request(Some(k), false, None, false), Breakpoints.Request(None, false, None, false);
    var s1 := Adopt(Create(INIT), 1, MakeInfo(good, Instruction));
    assert [good, bad][1..] == [bad];
    assert Place(s1, map[], [bad], Instruction, true, map[k := 1], [1]) == Aborted(s1);
    assert Place(INIT, map[], [good, bad], Instruction, true, map[], []) == Aborted(s1);
  }
}
