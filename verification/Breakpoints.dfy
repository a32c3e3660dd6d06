/**
 The adapter's breakpoint tables beside the debugger's own set of breakpoints, as the request
 handlers and the debugger's asynchronous events change them.

 The tables `source`, `assembly`, `instruction` and `function` are held as one map from a
 table to its entries.
 */
module Breakpoints {
  import opened Results

  type Id = nat

  datatype Kind = Source | Disassembly | Instruction | Function | Exception(filter: string)

  datatype HitCondition = LT(n: nat) | LE(n: nat) | EQ(n: nat) | GE(n: nat) | GT(n: nat) | MOD(n: nat)

  datatype Info = Info(kind: Kind, logs: bool, hitCondition: Option<HitCondition>, hitCount: nat)

  datatype Table = SourceFile(path: string) | Assembly(handle: nat) | Instructions | Functions

  datatype Key = Line(line: int) | Address(addr: nat) | Name(name: string)

  /**
   One requested breakpoint. The key is None if it cannot be parsed; `hint` says whether a
   temporary breakpoint is made and deleted to look for a better location.
   */
  datatype Request = Request(key: Option<Key>, logs: bool, hitCondition: Option<HitCondition>, hint: bool)

  /** `live`, `callbacks` and `next` are the debugger's: its breakpoints, those with our callback, and its id supply. */
  datatype State = State(
    live: set<Id>, callbacks: set<Id>, next: Id,
    infos: map<Id, Info>, tables: map<Table, map<Key, Id>>)

  const INIT := State({}, {}, 1, map[], map[])

  function Entries(s: State, t: Table): map<Key, Id> {
    if t in s.tables then s.tables[t] else map[]
  }

  // ---- The set-breakpoints handlers ----

  function MakeInfo(r: Request, kind: Kind): Info {
    Info(kind, r.logs, r.hitCondition, 0)
  }

  /** Records a breakpoint's options and gives it the callback. */
  function Adopt(s: State, id: Id, info: Info): State {
    s.(infos := s.infos[id := info], callbacks := s.callbacks + {id})
  }

  function Create(s: State): State {
    s.(live := s.live + {s.next}, next := s.next + 1)
  }

  /** A breakpoint that is created and deleted again. */
  function Probe(s: State, hint: bool): State {
    if hint then s.(next := s.next + 1) else s
  }

  datatype Placed = Placed(s: State, table: map<Key, Id>, ids: seq<Id>) | Aborted(s: State)

  predicate Reusable(s: State, existing: map<Key, Id>, k: Key) {
    k in existing && existing[k] in s.live
  }

  /** Finds or creates the breakpoint for one request, unless its key is unreadable or it cannot be created. */
  function PlaceOne(s: State, existing: map<Key, Id>, r: Request, kind: Kind, canCreate: bool): Option<(State, Id)> {
    if r.key.None? then None
    else if Reusable(s, existing, r.key.value) then
      Some((Probe(Adopt(s, existing[r.key.value], MakeInfo(r, kind)), r.hint), existing[r.key.value]))
    else if !canCreate then None
    else Some((Probe(Adopt(Create(s), s.next, MakeInfo(r, kind)), r.hint), s.next))
  }

  /** The same for each request in turn. */
  function Place(s: State, existing: map<Key, Id>, reqs: seq<Request>, kind: Kind, canCreate: bool,
                 table: map<Key, Id>, ids: seq<Id>): Placed
    decreases |reqs|
  {
    if reqs == [] then Placed(s, table, ids)
    else
      match PlaceOne(s, existing, reqs[0], kind, canCreate)
      case None => Aborted(s)
      case Some((s', id)) =>
        Place(s', existing, reqs[1..], kind, canCreate, if reqs[0].key.Some? then table[reqs[0].key.value := id] else table, ids + [id])
  }

  /** The old breakpoints whose keys are not requested any more. */
  function Dropped(existing: map<Key, Id>, table: map<Key, Id>): set<Id> {
    set k | k in existing && k !in table :: existing[k]
  }

  function Replace(s: State, t: Table, existing: map<Key, Id>, table: map<Key, Id>, forget: bool): State {
    var dropped := Dropped(existing, table);
    s.(live := s.live - dropped, infos := if forget then s.infos - dropped else s.infos, tables := s.tables[t := table])
  }

  /**
   A set-breakpoints request for one table. Only the source handler forgets the options of the
   breakpoints it deletes; a request that fails half-way leaves the table as it was.
   */
  function SetTable(s: State, t: Table, reqs: seq<Request>, kind: Kind, canCreate: bool, forget: bool): (State, Option<seq<Id>>) {
    match Place(s, Entries(s, t), reqs, kind, canCreate, map[], [])
    case Aborted(s') => (s', None)
    case Placed(s', table, ids) => (Replace(s', t, Entries(s, t), table, forget), Some(ids))
  }

  /** The request is for one of the given number of lines. */
  predicate OnLine(r: Request, lines: nat) {
    r.key.Some? && r.key.value.Line? && 0 <= r.key.value.line < lines
  }

  /**
   Breakpoints in a disassembly of an earlier session, of which that many lines are known: created anew
   and kept in no table. Nothing is created for any other line.
   */
  function SetLoose(s: State, lines: nat, reqs: seq<Request>): State
    decreases |reqs|
  {
    if reqs == [] then s
    else SetLoose(if OnLine(reqs[0], lines) then Adopt(Create(s), s.next, MakeInfo(reqs[0], Disassembly)) else s, lines, reqs[1..])
  }

  function ExceptionIds(s: State): set<Id> {
    set id | id in s.infos && s.infos[id].kind.Exception? :: id
  }

  predicate KnownFilter(name: string) {
    name == "cpp_throw" || name == "cpp_catch" || name == "rust_panic" || name == "swift_throw"
  }

  function AddExceptions(s: State, names: seq<string>): State
    decreases |names|
  {
    if names == [] then s
    else
      AddExceptions(if KnownFilter(names[0]) then Adopt(Create(s), s.next, Info(Exception(names[0]), false, None, 0)) else s,
                    names[1..])
  }

  /** Deletes every exception breakpoint and creates those requested. */
  function SetExceptions(s: State, names: seq<string>): State {
    var stale := ExceptionIds(s);
    AddExceptions(s.(live := s.live - stale, infos := s.infos - stale), names)
  }

  // ---- Hits ----

  datatype Hit = Stop | Continue | Log | Panics

  predicate Meets(c: HitCondition, count: nat)
    requires c.MOD? ==> c.n != 0
  {
    match c
    case LT(n) => count < n
    case LE(n) => count <= n
    case EQ(n) => count == n
    case GE(n) => count >= n
    case GT(n) => count > n
    case MOD(n) => count % n == 0
  }

  /**
   What exclusions and the condition say of a hit: one of them refuses it, the condition cannot be
   evaluated, or the hit passes.
   */
  datatype Check = Refused | Unevaluable | Passed

  /**
   A hit of a breakpoint with a callback. Only hits that pass are counted; one whose condition cannot be
   evaluated stops even at a logpoint. A missing entry, or a zero modulus, panics.
   */
  function OnHit(s: State, id: Id, check: Check): (State, Hit) {
    if id !in s.infos then (s, Panics)
    else if check.Refused? then (s, Continue)
    else if check.Unevaluable? then (s, Stop)
    else
      var info := s.infos[id].(hitCount := s.infos[id].hitCount + 1);
      var s' := s.(infos := s.infos[id := info]);
      match info.hitCondition
      case Some(c) =>
        if c.MOD? && c.n == 0 then (s', Panics)
        else if !Meets(c, info.hitCount) then (s', Continue)
        else (s', if info.logs then Log else Stop)
      case None => (s', if info.logs then Log else Stop)
  }

  // ---- Events ----

  /** A breakpoint that appeared in the debugger: tracked unless it already is, or is gone again. */
  function OnAdded(s: State, id: Id): State {
    if id in s.infos || id !in s.live then s
    else s.(infos := s.infos[id := Info(Source, false, None, 0)])
  }

  function OnRemoved(s: State, id: Id): State {
    s.(callbacks := s.callbacks - {id}, infos := s.infos - {id})
  }

  // ---- The adapter's object ----

  class Session {
    var live: set<Id>
    var callbacks: set<Id>
    var next: Id
    var infos: map<Id, Info>
    var tables: map<Table, map<Key, Id>>

    ghost function View(): State
      reads this
    {
      State(live, callbacks, next, infos, tables)
    }

    constructor ()
      ensures View() == INIT
    {
      live, callbacks, next, infos, tables := {}, {}, 1, map[], map[];
    }

    method CreateBreakpoint() returns (id: Id)
      modifies this`live, this`next
      ensures View() == Create(old(View())) && id == old(next)
    {
      id := next;
      live := live + {id};
      next := next + 1;
    }

    /** Options and callback of a breakpoint that was found or created. */
    method InitActions(id: Id, info: Info)
      modifies this`infos, this`callbacks
      ensures View() == Adopt(old(View()), id, info)
    {
      callbacks := callbacks + {id};
      infos := infos[id := info];
    }

    method LookForHint(hint: bool)
      modifies this`next, this`live
      ensures View() == Probe(old(View()), hint)
    {
      if hint {
        var before := live;
        var id := CreateBreakpoint();
        live := before;
      }
    }

    method SetBreakpoints(t: Table, reqs: seq<Request>, kind: Kind, canCreate: bool, forget: bool)
      returns (reply: Option<seq<Id>>)
      modifies this
      ensures (View(), reply) == SetTable(old(View()), t, reqs, kind, canCreate, forget)
    {
      var existing := if t in tables then tables[t] else map[];
      var newBps: map<Key, Id> := map[];
      var result: seq<Id> := [];
      ghost var goal := Place(View(), existing, reqs, kind, canCreate, map[], []);
      for i := 0 to |reqs|
        invariant Place(View(), existing, reqs[i..], kind, canCreate, newBps, result) == goal
        invariant tables == old(tables)
      {
        hide PlaceOne;
        assert reqs[i..][0] == reqs[i] && reqs[i..][1..] == reqs[i + 1..];
        var id := FindOrCreate(existing, reqs[i], kind, canCreate);
        if id.None? {
          return None;
        }
        result := result + [id.value];
        newBps := newBps[reqs[i].key.value := id.value];
      }
      DeleteMissing(existing, newBps, forget);
      tables := tables[t := newBps];
      return Some(result);
    }

    method FindOrCreate(existing: map<Key, Id>, req: Request, kind: Kind, canCreate: bool) returns (id: Option<Id>)
      modifies this`live, this`next, this`infos, this`callbacks
      ensures id.None? ==> View() == old(View()) && PlaceOne(old(View()), existing, req, kind, canCreate) == None
      ensures id.Some? ==>
                req.key.Some? && PlaceOne(old(View()), existing, req, kind, canCreate) == Some((View(), id.value))
    {
      if req.key.None? {
        return None;
      }
      var key := req.key.value;
      var bp;
      if key in existing && existing[key] in live {
        bp := existing[key];
      } else if !canCreate {
        return None;
      } else {
        bp := CreateBreakpoint();
      }
      InitActions(bp, MakeInfo(req, kind));
      LookForHint(req.hint);
      return Some(bp);
    }

    method DeleteMissing(existing: map<Key, Id>, newBps: map<Key, Id>, forget: bool)
      modifies this`live, this`infos
      ensures live == old(live) - Dropped(existing, newBps)
      ensures infos == if forget then old(infos) - Dropped(existing, newBps) else old(infos)
    {
      hide Dropped;
      var rest := existing;
      ghost var done: set<Id> := {};
      Forgotten(infos, {}, {});
      while rest != map[]
        invariant Dropped(existing, newBps) == done + Dropped(rest, newBps)
        invariant live == old(live) - done
        invariant infos == if forget then old(infos) - done else old(infos)
        decreases |rest.Keys|
      {
        var key := AnyKey(rest);
        DroppedStep(rest, newBps, key);
        if key !in newBps {
          Forgotten(old(infos), done, {rest[key]});
          done := done + {rest[key]};
          DeleteBreakpoint(rest[key], forget);
        }
        rest := rest - {key};
      }
      DroppedNone(newBps);
    }

    method DeleteBreakpoint(id: Id, forget: bool)
      modifies this`live, this`infos
      ensures live == old(live) - {id}
      ensures infos == if forget then old(infos) - {id} else old(infos)
    {
      live := live - {id};
      if forget {
        infos := infos - {id};
      }
    }

    method SetNewDasmBreakpoints(lines: nat, reqs: seq<Request>)
      modifies this
      ensures View() == SetLoose(old(View()), lines, reqs)
    {
      for i := 0 to |reqs|
        invariant SetLoose(View(), lines, reqs[i..]) == SetLoose(old(View()), lines, reqs)
      {
        assert reqs[i..][0] == reqs[i] && reqs[i..][1..] == reqs[i + 1..];
        if OnLine(reqs[i], lines) {
          var id := CreateBreakpoint();
          InitActions(id, MakeInfo(reqs[i], Disassembly));
        }
      }
    }

    method SetExceptionBreakpoints(names: seq<string>)
      modifies this
      ensures View() == SetExceptions(old(View()), names)
    {
      var stale := set id | id in infos && infos[id].kind.Exception? :: id;
      live := live - stale;
      infos := infos - stale;
      for i := 0 to |names|
        invariant AddExceptions(View(), names[i..]) == SetExceptions(old(View()), names)
      {
        assert names[i..][0] == names[i] && names[i..][1..] == names[i + 1..];
        if KnownFilter(names[i]) {
          var id := CreateBreakpoint();
          InitActions(id, Info(Exception(names[i]), false, None, 0));
        }
      }
    }

    method BreakpointHit(id: Id, check: Check) returns (hit: Hit)
      modifies this`infos
      ensures (View(), hit) == OnHit(old(View()), id, check)
    {
      if id !in infos {
        return Panics;
      }
      if check.Refused? {
        return Continue;
      }
      if check.Unevaluable? {
        return Stop;
      }
      var count := infos[id].hitCount + 1;
      infos := infos[id := infos[id].(hitCount := count)];
      if infos[id].hitCondition.Some? {
        var c := infos[id].hitCondition.value;
        if c.MOD? && c.n == 0 {
          return Panics;
        }
        if !Meets(c, count) {
          return Continue;
        }
      }
      return if infos[id].logs then Log else Stop;
    }

    method BreakpointAdded(id: Id)
      modifies this`infos
      ensures View() == OnAdded(old(View()), id)
    {
      if id in infos || id !in live {
        return;
      }
      infos := infos[id := Info(Source, false, None, 0)];
    }

    method BreakpointRemoved(id: Id)
      modifies this`infos, this`callbacks
      ensures View() == OnRemoved(old(View()), id)
    {
      callbacks := callbacks - {id};
      if id in infos {
        infos := infos - {id};
      }
    }
  }

  lemma DroppedStep(rest: map<Key, Id>, table: map<Key, Id>, key: Key)
    requires key in rest
    ensures Dropped(rest, table) == Dropped(rest - {key}, table) + (if key in table then {} else {rest[key]})
  {
    forall id | id in Dropped(rest, table)
      ensures id in Dropped(rest - {key}, table) + (if key in table then {} else {rest[key]})
    {
      var k :| k in rest && k !in table && rest[k] == id;
      if k != key {
        assert k in rest - {key};
      }
    }
  }

  method AnyKey(m: map<Key, Id>) returns (key: Key)
    requires m != map[]
    ensures key in m
  {
    assert m.Keys != {} by { assert m.Keys == {} ==> m == map[]; }
    key :| key in m;
  }

  lemma DroppedNone(table: map<Key, Id>)
    ensures Dropped(map[], table) == {}
  {
  }

  lemma Forgotten(m: map<Id, Info>, a: set<Id>, b: set<Id>)
    ensures m - a - b == m - (a + b) && m - {} == m
  {
  }
}
