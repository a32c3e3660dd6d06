/**
 The options of requested breakpoints: what each request records, that nothing else touches them, and
 that they decide every later hit.
 */
module BreakpointOptions {
  import opened Results
  import opened Breakpoints
  import opened BreakpointRuns
  import opened BreakpointLeaks

  /** The breakpoint has exactly the options of a request, and no hit counted yet. */
  ghost predicate AsRequested(s: State, id: Id, r: Breakpoints.Request, kind: Kind) {
    && id in s.infos
    && s.infos[id].kind == kind
    && s.infos[id].logs == r.logs
    && s.infos[id].hitCondition == r.hitCondition
    && s.infos[id].hitCount == 0
  }

  /** The options of a breakpoint are the same in both states, or recorded in neither. */
  ghost predicate SameOptions(s: State, s': State, id: Id) {
    (id in s'.infos <==> id in s.infos) && (id in s.infos ==> s'.infos[id] == s.infos[id])
  }

  /** Request i is the last of the first n that was answered with its breakpoint. */
  predicate LastFor(ids: seq<Id>, n: nat, i: nat) {
    i < n <= |ids| && forall j :: i < j < n ==> ids[j] != ids[i]
  }

  /**
   After the first n requests: every breakpoint placed is old for its key or new, has the options of the
   last request for it, and no other options changed.
   */
  ghost predicate Recorded(s0: State, s: State, existing: map<Key, Id>, reqs: seq<Breakpoints.Request>, n: nat,
                           kind: Kind, ids: seq<Id>) {
    && n == |ids| <= |reqs| && s0.next <= s.next
    && (forall i :: 0 <= i < n ==>
          && reqs[i].key.Some?
          && (s0.next <= ids[i] || (reqs[i].key.value in existing && ids[i] == existing[reqs[i].key.value])))
    && (forall i: nat :: LastFor(ids, n, i) ==> AsRequested(s, ids[i], reqs[i], kind))
    && (forall id: Id :: id !in ids ==> SameOptions(s0, s, id))
  }

  lemma LastForMore(ids: seq<Id>, id: Id, i: nat)
    ensures LastFor(ids + [id], |ids| + 1, i) <==> i == |ids| || (LastFor(ids, |ids|, i) && ids[i] != id)
  {
    var ids' := ids + [id];
    if i < |ids| {
      assert ids'[|ids|] == id;
      assert forall j :: i < j < |ids| ==> ids'[j] == ids[j];
    }
  }

  /** What finding or creating one breakpoint records. */
  lemma OneRecorded(s: State, existing: map<Key, Id>, r: Breakpoints.Request, kind: Kind, canCreate: bool)
    requires PlaceOne(s, existing, r, kind, canCreate).Some?
    ensures var (s', id) := PlaceOne(s, existing, r, kind, canCreate).value;
      && r.key.Some? && s.next <= s'.next
      && (s.next <= id || (r.key.value in existing && id == existing[r.key.value]))
      && AsRequested(s', id, r, kind)
      && forall j: Id :: j != id ==> SameOptions(s, s', j)
  {
  }

  lemma RecordOne(s0: State, s: State, existing: map<Key, Id>, reqs: seq<Breakpoints.Request>, n: nat,
                  kind: Kind, ids: seq<Id>, s': State, id: Id)
    requires Recorded(s0, s, existing, reqs, n, kind, ids) && n < |reqs|
    requires reqs[n].key.Some? && s.next <= s'.next
    requires s.next <= id || (reqs[n].key.value in existing && id == existing[reqs[n].key.value])
    requires AsRequested(s', id, reqs[n], kind)
    requires forall j: Id :: j != id ==> SameOptions(s, s', j)
    ensures Recorded(s0, s', existing, reqs, n + 1, kind, ids + [id])
  {
    hide AsRequested, SameOptions;
    var ids' := ids + [id];
    forall i: nat | i <= n && LastFor(ids', n + 1, i) ensures AsRequested(s', ids'[i], reqs[i], kind) {
      LastForMore(ids, id, i);
      if i < n {
        assert ids'[i] == ids[i];
        SameKeeps(s, s', ids[i], reqs[i], kind);
      }
    }
    forall j: Id | j !in ids' ensures SameOptions(s0, s', j) {
      assert ids'[n] == id && forall i :: 0 <= i < n ==> ids'[i] == ids[i];
      SameJoins(s0, s, s', j);
    }
  }

  lemma SameKeeps(s: State, s': State, id: Id, r: Breakpoints.Request, kind: Kind)
    requires AsRequested(s, id, r, kind) && SameOptions(s, s', id)
    ensures AsRequested(s', id, r, kind)
  {
  }

  lemma SameJoins(s0: State, s: State, s': State, id: Id)
    requires SameOptions(s0, s, id) && SameOptions(s, s', id)
    ensures SameOptions(s0, s', id)
  {
  }

  lemma {:induction false} PlaceRecords(s0: State, s: State, existing: map<Key, Id>, reqs: seq<Breakpoints.Request>, n: nat,
                                        kind: Kind, canCreate: bool, table: map<Key, Id>, ids: seq<Id>)
    requires Recorded(s0, s, existing, reqs, n, kind, ids)
    ensures match Place(s, existing, reqs[n..], kind, canCreate, table, ids)
      case Placed(s', _, ids') => Recorded(s0, s', existing, reqs, |reqs|, kind, ids')
      case Aborted(s') => exists ids' :: Recorded(s0, s', existing, reqs, |ids'|, kind, ids')
    decreases |reqs| - n
  {
    assert n == |ids| <= |reqs|;
    hide Recorded, PlaceOne;
    if n < |reqs| {
      var one := PlaceOne(s, existing, reqs[n], kind, canCreate);
      assert reqs[n..][0] == reqs[n] && reqs[n..][1..] == reqs[n + 1..];
      if one.Some? {
        OneRecorded(s, existing, reqs[n], kind, canCreate);
        RecordOne(s0, s, existing, reqs, n, kind, ids, one.value.0, one.value.1);
        var table' := if reqs[n].key.Some? then table[reqs[n].key.value := one.value.1] else table;
        PlaceRecords(s0, one.value.0, existing, reqs, n + 1, kind, canCreate, table', ids + [one.value.1]);
      }
    } else {
      assert reqs[n..] == [];
    }
  }

  lemma NothingRecorded(s: State, existing: map<Key, Id>, reqs: seq<Breakpoints.Request>, kind: Kind)
    ensures Recorded(s, s, existing, reqs, 0, kind, [])
  {
  }

  /** The last request with a key is the last that was answered with the key's breakpoint. */
  lemma LastKeyIsLast(s0: State, s: State, existing: map<Key, Id>, reqs: seq<Breakpoints.Request>,
                      table: map<Key, Id>, ids: seq<Id>, i: nat, k: Key)
    requires Logged(s0, s, existing, reqs, |reqs|, table, ids) && Injective(existing)
    requires LastOf(reqs, |reqs|, i, k)
    ensures LastFor(ids, |reqs|, i) && k in table && table[k] == ids[i]
  {
    forall j | i < j < |reqs| ensures ids[j] != ids[i] {
      assert !HasKey(reqs, j, k);
    }
    assert reqs[i].key.value in table;
    var m: nat :| LastOf(reqs, |reqs|, m, k) && table[k] == ids[m];
    assert m == i;
  }

  /**
   A successful request gives each breakpoint the kind asked for and the log message and hit condition of
   the last request answered with it, with no hit counted; a key's table entry is the breakpoint of the
   last request with that key. No other options change, but those of deleted breakpoints may be forgotten.
   */
  lemma OptionsRecorded(s: State, t: Table, reqs: seq<Breakpoints.Request>, kind: Kind, canCreate: bool, forget: bool)
    requires Inv(s)
    ensures var (s', reply) := SetTable(s, t, reqs, kind, canCreate, forget);
      var before, after := Entries(s, t), Entries(s', t);
      reply.Some? ==>
        && |reply.value| == |reqs|
        && (forall i: nat :: LastFor(reply.value, |reqs|, i) ==> AsRequested(s', reply.value[i], reqs[i], kind))
        && (forall i: nat, k :: LastOf(reqs, |reqs|, i, k) ==>
              k in after && after[k] == reply.value[i] && AsRequested(s', after[k], reqs[i], kind))
        && (forall id: Id :: id !in reply.value ==>
              if forget && exists k :: k in before && k !in after && before[k] == id then id !in s'.infos
              else SameOptions(s, s', id))
  {
    hide Place, Injective, Disjoint, Separate, TableBounded, Changes, Chosen, Logged, Recorded, LastOf;
    var existing := Entries(s, t);
    PlaceForRequest(s, t, reqs, kind, canCreate);
    var p := Place(s, existing, reqs, kind, canCreate, map[], []);
    if p.Placed? {
      EntriesSeparate(s, t);
      NotDropped(s, existing, p.s, kind, p.table, p.ids);
      assert reqs[0..] == reqs;
      EmptyLog(s, existing, reqs);
      PlaceLogged(s, s, existing, reqs, 0, kind, canCreate, map[], []);
      NothingRecorded(s, existing, reqs, kind);
      PlaceRecords(s, s, existing, reqs, 0, kind, canCreate, map[], []);
      RecordedMeans(s, p.s, existing, reqs, kind, p.ids);
      forall i: nat, k | LastOf(reqs, |reqs|, i, k)
        ensures LastFor(p.ids, |reqs|, i) && k in p.table && p.table[k] == p.ids[i]
      {
        LastKeyIsLast(s, p.s, existing, reqs, p.table, p.ids, i, k);
      }
    }
  }

  lemma RecordedMeans(s0: State, s: State, existing: map<Key, Id>, reqs: seq<Breakpoints.Request>, kind: Kind, ids: seq<Id>)
    requires Recorded(s0, s, existing, reqs, |reqs|, kind, ids)
    ensures |ids| == |reqs|
    ensures forall i: nat :: LastFor(ids, |reqs|, i) ==> AsRequested(s, ids[i], reqs[i], kind)
    ensures forall id: Id :: id !in ids ==> SameOptions(s0, s, id)
  {
  }

  /** Each breakpoint restored from an earlier session has the options of its own request; no other options change. */
  lemma {:induction false} LooseOptions(s: State, lines: nat, reqs: seq<Breakpoints.Request>)
    ensures var s' := SetLoose(s, lines, reqs);
      && (forall i: nat, line: int {:trigger HasKey(reqs, i, Line(line))} :: HasKey(reqs, i, Line(line)) && 0 <= line < lines ==>
            AsRequested(s', s.next + LinesHit(lines, reqs[..i]), reqs[i], Disassembly))
      && (forall id: Id :: id < s.next || s'.next <= id ==> SameOptions(s, s', id))
    decreases |reqs|
  {
    if reqs == [] {
    } else {
      var r, rest := reqs[0], reqs[1..];
      var s1 := if OnLine(r, lines) then Adopt(Create(s), s.next, MakeInfo(r, Disassembly)) else s;
      var s' := SetLoose(s, lines, reqs);
      LooseOptions(s1, lines, rest);
      LooseDuplicates(s1, lines, rest);
      hide SetLoose;
      forall i: nat, line: int {:trigger HasKey(reqs, i, Line(line))} | HasKey(reqs, i, Line(line)) && 0 <= line < lines
        ensures AsRequested(s', s.next + LinesHit(lines, reqs[..i]), reqs[i], Disassembly)
      {
        if i == 0 {
          assert AsRequested(s1, s.next, r, Disassembly);
          assert SameOptions(s1, s', s.next);
        } else {
          assert HasKey(rest, i - 1, Line(line));
          assert reqs[..i][0] == r && reqs[..i][1..] == rest[..i - 1];
        }
      }
      forall id: Id | id < s.next || s'.next <= id ensures SameOptions(s, s', id) {
        assert SameOptions(s1, s', id);
      }
    }
  }

  // ---- Later hits ----

  /** The step may change the options of a breakpoint of table t beyond counting a hit. */
  predicate Touches(step: Step, t: Table, id: Id) {
    match step
    case Request(u, _, _, _, _) => u == t
    case Removed(other) => other == id
    case _ => false
  }

  function PassingHits(steps: seq<Step>, id: Id): nat {
    if steps == [] then 0 else (if steps[0] == HitAt(id, Passed) then 1 else 0) + PassingHits(steps[1..], id)
  }

  ghost predicate Entered(s: State, t: Table, id: Id) {
    id in s.infos && exists k :: k in Entries(s, t) && Entries(s, t)[k] == id
  }

  lemma NotListedElsewhere(s: State, t: Table, id: Id, u: Table)
    requires Separate(s) && Entered(s, t, id) && u != t
    ensures id < s.next && forall k :: k in Entries(s, u) ==> Entries(s, u)[k] != id
  {
    if t in s.tables && u in s.tables {
      assert Disjoint(s.tables[t], s.tables[u]) && TableBounded(s.tables[t], s.next);
    }
  }

  lemma PlaceSpares(s: State, existing: map<Key, Id>, reqs: seq<Breakpoints.Request>, kind: Kind, canCreate: bool, id: Id)
    requires id < s.next && forall k :: k in existing ==> existing[k] != id
    ensures SameOptions(s, Reached(Place(s, existing, reqs, kind, canCreate, map[], [])), id)
  {
    hide Place, Recorded, SameOptions;
    NothingRecorded(s, existing, reqs, kind);
    assert reqs[0..] == reqs;
    PlaceRecords(s, s, existing, reqs, 0, kind, canCreate, map[], []);
    match Place(s, existing, reqs, kind, canCreate, map[], [])
    case Placed(s', _, ids) =>
      RecordedMeans(s, s', existing, reqs, kind, ids);
      NotAmong(s, s', existing, reqs, kind, ids, id);
    case Aborted(s') =>
      var ids :| Recorded(s, s', existing, reqs, |ids|, kind, ids);
      NotAmong(s, s', existing, reqs, kind, ids, id);
  }

  /** A request for one table leaves the options of the breakpoints of another alone. */
  lemma OtherTable(s: State, t: Table, id: Id, u: Table, reqs: seq<Breakpoints.Request>, kind: Kind, canCreate: bool, forget: bool)
    requires Inv(s) && Entered(s, t, id) && u != t
    ensures var s' := SetTable(s, u, reqs, kind, canCreate, forget).0;
      SameOptions(s, s', id) && Entries(s', t) == Entries(s, t)
  {
    hide Place, Separate, Entered;
    NotListedElsewhere(s, t, id, u);
    PlaceSpares(s, Entries(s, u), reqs, kind, canCreate, id);
    PlaceSameTables(s, Entries(s, u), reqs, kind, canCreate, map[], []);
  }

  lemma {:induction false} PlaceSameTables(s: State, existing: map<Key, Id>, reqs: seq<Breakpoints.Request>, kind: Kind,
                                           canCreate: bool, table: map<Key, Id>, ids: seq<Id>)
    ensures Reached(Place(s, existing, reqs, kind, canCreate, table, ids)).tables == s.tables
    decreases |reqs|
  {
    var one := if reqs == [] then None else PlaceOne(s, existing, reqs[0], kind, canCreate);
    if one.Some? {
      PlaceSameTables(one.value.0, existing, reqs[1..], kind, canCreate, table[reqs[0].key.value := one.value.1], ids + [one.value.1]);
    }
  }

  /** A breakpoint of another table is not among those placed. */
  lemma NotAmong(s0: State, s: State, existing: map<Key, Id>, reqs: seq<Breakpoints.Request>, kind: Kind, ids: seq<Id>, id: Id)
    requires Recorded(s0, s, existing, reqs, |ids|, kind, ids)
    requires id < s0.next && forall k :: k in existing ==> existing[k] != id
    ensures SameOptions(s0, s, id)
  {
    if i :| 0 <= i < |ids| && ids[i] == id {
      assert false;
    }
  }

  lemma StepCounts(s: State, t: Table, id: Id, step: Step)
    requires Inv(s) && Enabled(s, step) && Entered(s, t, id) && !Touches(step, t, id)
    ensures var s' := Next(s, step);
      && Entered(s', t, id)
      && s'.infos[id] == s.infos[id].(hitCount := s.infos[id].hitCount + if step == HitAt(id, Passed) then 1 else 0)
  {
    hide SetTable, SetLoose, SetExceptions, Separate;
    var k :| k in Entries(s, t) && Entries(s, t)[k] == id;
    match step {
      case Request(u, reqs, kind, canCreate, forget) =>
        OtherTable(s, t, id, u, reqs, kind, canCreate, forget);
      case Loose(lines, reqs) =>
        LooseOptions(s, lines, reqs);
        LooseDuplicates(s, lines, reqs);
        assert SameOptions(s, Next(s, step), id);
      case Exceptions(names) =>
        EnteredIsTabled(s, t, id);
        ExceptionsSpareOptions(s, names, id);
      case _ =>
    }
    assert k in Entries(Next(s, step), t) && Entries(Next(s, step), t)[k] == id;
  }

  lemma EnteredIsTabled(s: State, t: Table, id: Id)
    requires Separate(s) && Entered(s, t, id)
    ensures !s.infos[id].kind.Exception?
  {
  }

  lemma ExceptionsSpareOptions(s: State, names: seq<string>, id: Id)
    requires Bounded(s) && id in s.infos && !s.infos[id].kind.Exception?
    ensures var s' := SetExceptions(s, names);
      id in s'.infos && s'.infos[id] == s.infos[id] && s'.tables == s.tables
  {
    var stale := ExceptionIds(s);
    AddExceptionsSpares(s.(live := s.live - stale, infos := s.infos - stale), names, id);
  }

  lemma {:induction false} AddExceptionsSpares(s: State, names: seq<string>, id: Id)
    requires id < s.next && id in s.infos
    ensures var s' := AddExceptions(s, names);
      id in s'.infos && s'.infos[id] == s.infos[id] && s'.tables == s.tables
    decreases |names|
  {
    if names == [] {
    } else {
      var s1 := if KnownFilter(names[0]) then Adopt(Create(s), s.next, Info(Exception(names[0]), false, None, 0)) else s;
      AddExceptionsSpares(s1, names[1..], id);
    }
  }

  /** Until the next request for its table, or its removal, a breakpoint keeps its options and counts its passing hits. */
  lemma {:induction false} HitsCounted(s: State, t: Table, id: Id, steps: seq<Step>)
    requires Inv(s) && Entered(s, t, id) && IsRun(s, steps)
    requires forall i :: 0 <= i < |steps| ==> !Touches(steps[i], t, id)
    ensures var s' := After(s, steps);
      && Entered(s', t, id)
      && s'.infos[id] == s.infos[id].(hitCount := s.infos[id].hitCount + PassingHits(steps, id))
    decreases |steps|
  {
    if steps == [] {
    } else {
      hide Next, Enabled, Inv, Entered;
      StepCounts(s, t, id, steps[0]);
      StepKeeps(s, steps[0]);
      HitsCounted(Next(s, steps[0]), t, id, steps[1..]);
    }
  }

  lemma KeyRecorded(s: State, t: Table, reqs: seq<Breakpoints.Request>, kind: Kind, canCreate: bool, forget: bool, i: nat, k: Key)
    requires Inv(s) && LastOf(reqs, |reqs|, i, k) && SetTable(s, t, reqs, kind, canCreate, forget).1.Some?
    ensures var s1 := SetTable(s, t, reqs, kind, canCreate, forget).0;
      k in Entries(s1, t) && AsRequested(s1, Entries(s1, t)[k], reqs[i], kind) && Entered(s1, t, Entries(s1, t)[k])
  {
    hide SetTable, Inv, LastOf;
    OptionsRecorded(s, t, reqs, kind, canCreate, forget);
  }

  /**
   A passing hit is decided by the last successful request for its breakpoint's table alone: by the log message and
   the hit condition given with the key, on the number of passing hits since, whatever else happened.
   */
  lemma RequestDecides(s: State, t: Table, reqs: seq<Breakpoints.Request>, kind: Kind, canCreate: bool, forget: bool,
                       i: nat, k: Key, steps: seq<Step>)
    requires Inv(s) && !kind.Exception? && LastOf(reqs, |reqs|, i, k)
    requires SetTable(s, t, reqs, kind, canCreate, forget).1.Some?
    requires IsRun(SetTable(s, t, reqs, kind, canCreate, forget).0, steps)
    requires var s1 := SetTable(s, t, reqs, kind, canCreate, forget).0;
      k in Entries(s1, t) ==> forall j :: 0 <= j < |steps| ==> !Touches(steps[j], t, Entries(s1, t)[k])
    ensures var s1 := SetTable(s, t, reqs, kind, canCreate, forget).0;
      && k in Entries(s1, t)
      && var id := Entries(s1, t)[k];
         OnHit(After(s1, steps), id, Passed).1 == Verdict(reqs[i].logs, reqs[i].hitCondition, PassingHits(steps, id) + 1)
  {
    hide SetTable, Inv, LastOf, After, IsRun, OnHit, Verdict, Touches;
    var s1 := SetTable(s, t, reqs, kind, canCreate, forget).0;
    KeyRecorded(s, t, reqs, kind, canCreate, forget, i, k);
    SetTableKeeps(s, t, reqs, kind, canCreate, forget);
    var id := Entries(s1, t)[k];
    HitsCounted(s1, t, id, steps);
    OneHit(After(s1, steps), id);
  }
}
