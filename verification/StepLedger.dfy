/**
 The per-line step costs of the performance overlay: forward steps add the cost of the line
 that was left, reverse steps take it back through an undo stack, and stops are attributed
 after an asynchronous query during which anything else may happen.
 */
module StepLedger {
  import opened Results

  datatype Loc = Loc(path: string, line: nat)

  datatype Cost = Cost(inst: int, hits: int)

  /** An undo entry: the line a forward step was charged to, and the charge. */
  datatype Entry = Entry(loc: Loc, inst: int)

  datatype Session = Session(
    id: string, prevStop: Option<Loc>, history: seq<Entry>, lastCommand: Option<string>, enabled: bool)

  /** A stop whose source location is still being queried: the command that led to it and its instruction count. */
  datatype Attribution = Attribution(command: Option<string>, inst: int)

  /** The overlay's state; the costs are keyed by file and line together. */
  datatype State = State(active: Option<Session>, costs: map<Loc, Cost>, waiting: seq<Attribution>)

  const INIT := State(None, map[], [])

  predicate IsNavigation(cmd: string) {
    IsForward(cmd) || cmd == "stepBack" || cmd == "continue" || cmd == "reverseContinue"
  }

  predicate IsForward(cmd: string) {
    cmd == "next" || cmd == "stepIn" || cmd == "stepOut" || cmd == "bs/stepIn"
  }

  // ---- Costs ----

  function Record(costs: map<Loc, Cost>, loc: Loc, inst: int): map<Loc, Cost> {
    if loc in costs then costs[loc := Cost(costs[loc].inst + inst, costs[loc].hits + 1)] else costs[loc := Cost(inst, 1)]
  }

  function Unrecord(costs: map<Loc, Cost>, loc: Loc, inst: int): map<Loc, Cost> {
    if loc !in costs then costs
    else
      var left := Cost(costs[loc].inst - inst, costs[loc].hits - 1);
      if left.hits <= 0 || left.inst <= 0 then costs - {loc} else costs[loc := left]
  }

  // ---- Events ----

  function Bind(s: State, id: string): State {
    s.(active := Some(Session(id, None, [], None, true)), costs := map[])
  }

  function OnCommand(s: State, id: string, cmd: string): State {
    if s.active.Some? && s.active.value.id == id && IsNavigation(cmd)
    then s.(active := Some(s.active.value.(lastCommand := Some(cmd))))
    else s
  }

  /** A stop: the overlay follows the session that stopped, and the attribution begins. */
  function OnStopped(s: State, id: string, followed: bool, inst: int): State {
    if (s.active.None? || s.active.value.id != id) && !followed then s
    else
      var s1 := if s.active.Some? && s.active.value.id == id then s else Bind(s, id);
      var session := s1.active.value;
      if !session.enabled then s1
      else s1.(active := Some(session.(lastCommand := None)), waiting := s1.waiting + [Attribution(session.lastCommand, inst)])
  }

  /** The location query of the k-th waiting stop has answered. */
  function OnLocated(s: State, k: nat, here: Option<Loc>): State
    requires k < |s.waiting|
  {
    var a := s.waiting[k];
    var s1 := s.(waiting := s.waiting[..k] + s.waiting[k + 1..]);
    if s1.active.None? then s1
    else
      var session := s1.active.value;
      if a.command == Some("stepBack") then
        if session.history == [] then s1.(active := Some(session.(prevStop := here)))
        else
          var last := session.history[|session.history| - 1];
          s1.(active := Some(session.(history := session.history[..|session.history| - 1], prevStop := here)),
              costs := Unrecord(s1.costs, last.loc, last.inst))
      else if a.command.Some? && IsForward(a.command.value) && session.prevStop.Some? && a.inst > 0 then
        var loc := session.prevStop.value;
        s1.(active := Some(session.(history := session.history + [Entry(loc, a.inst)], prevStop := here)),
            costs := Record(s1.costs, loc, a.inst))
      else s1.(active := Some(session.(prevStop := here)))
  }

  function OnClear(s: State): State {
    if s.active.None? then s else s.(costs := map[])
  }

  function OnToggle(s: State): State {
    if s.active.None? then s else s.(active := Some(s.active.value.(enabled := !s.active.value.enabled)))
  }

  function OnSessionStart(s: State, id: string): State {
    if s.active.None? then Bind(s, id) else s
  }

  function OnSessionEnd(s: State, id: string): State {
    if s.active.Some? && s.active.value.id == id then s.(active := None) else s
  }

  // ---- The overlay as an object ----

  class Overlay {
    var active: Option<Session>
    var stepCosts: map<Loc, Cost>
    var waiting: seq<Attribution>

    ghost function View(): State
      reads this
    {
      State(active, stepCosts, waiting)
    }

    constructor ()
      ensures View() == INIT
    {
      active, stepCosts, waiting := None, map[], [];
    }

    method BindTo(id: string)
      modifies this`active, this`stepCosts
      ensures View() == Bind(old(View()), id)
    {
      active := Some(Session(id, None, [], None, true));
      stepCosts := map[];
    }

    method Command(id: string, cmd: string)
      modifies this`active
      ensures View() == OnCommand(old(View()), id, cmd)
    {
      if active.Some? && active.value.id == id && IsNavigation(cmd) {
        active := Some(active.value.(lastCommand := Some(cmd)));
      }
    }

    method Stopped(id: string, followed: bool, inst: int)
      modifies this
      ensures View() == OnStopped(old(View()), id, followed, inst)
    {
      if active.None? || active.value.id != id {
        if !followed {
          return;
        }
        BindTo(id);
      }
      var session := active.value;
      if !session.enabled {
        return;
      }
      active := Some(session.(lastCommand := None));
      waiting := waiting + [Attribution(session.lastCommand, inst)];
    }

    method Located(k: nat, here: Option<Loc>)
      requires k < |waiting|
      modifies this
      ensures View() == OnLocated(old(View()), k, here)
    {
      var a := waiting[k];
      waiting := waiting[..k] + waiting[k + 1..];
      if active.None? {
        return;
      }
      var session := active.value;
      if a.command == Some("stepBack") {
        if |session.history| > 0 {
          var last := session.history[|session.history| - 1];
          session := session.(history := session.history[..|session.history| - 1]);
          UnrecordStepCost(last.loc, last.inst);
        }
      } else if a.command.Some? && IsForward(a.command.value) && session.prevStop.Some? && a.inst > 0 {
        var prev := session.prevStop.value;
        RecordStepCost(prev, a.inst);
        session := session.(history := session.history + [Entry(prev, a.inst)]);
      }
      active := Some(session.(prevStop := here));
    }

    method RecordStepCost(loc: Loc, inst: int)
      modifies this`stepCosts
      ensures stepCosts == Record(old(stepCosts), loc, inst)
    {
      if loc in stepCosts {
        var cur := stepCosts[loc];
        stepCosts := stepCosts[loc := Cost(cur.inst + inst, cur.hits + 1)];
      } else {
        stepCosts := stepCosts[loc := Cost(inst, 1)];
      }
    }

    method UnrecordStepCost(loc: Loc, inst: int)
      modifies this`stepCosts
      ensures stepCosts == Unrecord(old(stepCosts), loc, inst)
    {
      if loc !in stepCosts {
        return;
      }
      var cur := Cost(stepCosts[loc].inst - inst, stepCosts[loc].hits - 1);
      if cur.hits <= 0 || cur.inst <= 0 {
        stepCosts := stepCosts - {loc};
      } else {
        stepCosts := stepCosts[loc := cur];
      }
    }

    method ToggleStepCosts()
      modifies this`active
      ensures View() == OnToggle(old(View()))
    {
      if active.Some? {
        active := Some(active.value.(enabled := !active.value.enabled));
      }
    }

    method SessionStarted(id: string)
      modifies this`active, this`stepCosts
      ensures View() == OnSessionStart(old(View()), id)
    {
      if active.None? {
        BindTo(id);
      }
    }

    method SessionEnded(id: string)
      modifies this`active
      ensures View() == OnSessionEnd(old(View()), id)
    {
      if active.None? || active.value.id != id {
        return;
      }
      active := None;
    }

    method ClearStepCosts()
      modifies this`stepCosts
      ensures View() == OnClear(old(View()))
    {
      if active.None? {
        return;
      }
      stepCosts := map[];
    }
  }

  // ---- The ledger ----

  function Hits(loc: Loc, entries: seq<Entry>): nat {
    if entries == [] then 0
    else Hits(loc, entries[..|entries| - 1]) + if entries[|entries| - 1].loc == loc then 1 else 0
  }

  function Total(loc: Loc, entries: seq<Entry>): int {
    if entries == [] then 0
    else Total(loc, entries[..|entries| - 1]) + if entries[|entries| - 1].loc == loc then entries[|entries| - 1].inst else 0
  }

  predicate Positive(entries: seq<Entry>) {
    forall e <- entries :: e.inst > 0
  }

  /** The costs are exactly the sums over the entries; a line without entries is absent. */
  ghost predicate Balanced(costs: map<Loc, Cost>, entries: seq<Entry>) {
    forall loc: Loc ::
      && (loc in costs <==> Hits(loc, entries) > 0)
      && (loc in costs ==> costs[loc] == Cost(Total(loc, entries), Hits(loc, entries)))
  }

  lemma {:induction false} TotalPositive(loc: Loc, entries: seq<Entry>)
    requires Positive(entries)
    ensures Total(loc, entries) >= Hits(loc, entries)
  {
    if entries == [] {
    } else {
      TotalPositive(loc, entries[..|entries| - 1]);
    }
  }

  lemma RecordBalances(costs: map<Loc, Cost>, entries: seq<Entry>, e: Entry)
    requires Balanced(costs, entries)
    ensures Balanced(Record(costs, e.loc, e.inst), entries + [e])
  {
    assert (entries + [e])[..|entries|] == entries;
    forall loc: Loc
      ensures Hits(loc, entries + [e]) == Hits(loc, entries) + (if e.loc == loc then 1 else 0)
      ensures Total(loc, entries + [e]) == Total(loc, entries) + (if e.loc == loc then e.inst else 0)
    {
    }
    if e.loc !in costs {
      NoHitsNoTotal(e.loc, entries);
    }
  }

  lemma {:induction false} NoHitsNoTotal(loc: Loc, entries: seq<Entry>)
    requires Hits(loc, entries) == 0
    ensures Total(loc, entries) == 0
  {
    if entries == [] {
    } else {
      NoHitsNoTotal(loc, entries[..|entries| - 1]);
    }
  }

  lemma UnrecordBalances(costs: map<Loc, Cost>, entries: seq<Entry>)
    requires Balanced(costs, entries) && Positive(entries) && entries != []
    ensures var last := entries[|entries| - 1];
      Balanced(Unrecord(costs, last.loc, last.inst), entries[..|entries| - 1])
  {
    var last, rest := entries[|entries| - 1], entries[..|entries| - 1];
    TotalPositive(last.loc, rest);
    if Hits(last.loc, rest) == 0 {
      NoHitsNoTotal(last.loc, rest);
    }
    var costs' := Unrecord(costs, last.loc, last.inst);
    forall loc: Loc
      ensures (loc in costs' <==> Hits(loc, rest) > 0)
      ensures loc in costs' ==> costs'[loc] == Cost(Total(loc, rest), Hits(loc, rest))
    {
      if loc != last.loc {
        assert Hits(loc, entries) == Hits(loc, rest) && Total(loc, entries) == Total(loc, rest);
      }
    }
  }

  /** With no entries left, undoing an older charge changes nothing. */
  lemma UnrecordNothing(costs: map<Loc, Cost>, loc: Loc, inst: int)
    requires Balanced(costs, [])
    ensures Unrecord(costs, loc, inst) == costs && costs == map[]
  {
    forall l: Loc ensures l !in costs {
      assert Hits(l, []) == 0;
    }
  }

  // ---- Runs ----

  datatype Step =
    | Command(id: string, cmd: string)
    | Stopped(id: string, followed: bool, inst: int)
    | Located(k: nat, here: Option<Loc>)
    | Clear
    | Toggle
    | SessionStart(id: string)
    | SessionEnd(id: string)

  predicate Enabled(s: State, step: Step) {
    step.Located? ==> step.k < |s.waiting|
  }

  function Next(s: State, step: Step): State
    requires Enabled(s, step)
  {
    match step
    case Command(id, cmd) => OnCommand(s, id, cmd)
    case Stopped(id, followed, inst) => OnStopped(s, id, followed, inst)
    case Located(k, here) => OnLocated(s, k, here)
    case Clear => OnClear(s)
    case Toggle => OnToggle(s)
    case SessionStart(id) => OnSessionStart(s, id)
    case SessionEnd(id) => OnSessionEnd(s, id)
  }

  function History(s: State): seq<Entry> {
    if s.active.Some? then s.active.value.history else []
  }

  /** How many entries at the bottom of the undo stack are older than the last clear. */
  function Mark(s: State, mark: nat, step: Step): nat
    requires Enabled(s, step)
  {
    var s' := Next(s, step);
    if step.Clear? then |History(s')|
    else if |History(s')| < mark then |History(s')|
    else mark
  }

  /** While a session is bound, the costs are the sums over the undo entries pushed since the last clear. */
  ghost predicate Ledger(s: State, mark: nat) {
    s.active.Some? ==>
      && mark <= |History(s)| && Positive(History(s))
      && Balanced(s.costs, History(s)[mark..])
  }

  lemma StepKeeps(s: State, mark: nat, step: Step)
    requires Ledger(s, mark) && Enabled(s, step)
    ensures Ledger(Next(s, step), Mark(s, mark, step))
  {
    hide Balanced, Record, Unrecord;
    EmptyBalanced();
    if s.active.Some? {
      match step {
        case Located(k, here) => LocatedKeeps(s, mark, k, here);
        case Clear => assert History(s)[|History(s)|..] == [];
        case _ =>
      }
    }
  }

  lemma EmptyBalanced()
    ensures Balanced(map[], [])
  {
  }

  lemma LocatedKeeps(s: State, mark: nat, k: nat, here: Option<Loc>)
    requires Ledger(s, mark) && k < |s.waiting| && s.active.Some?
    ensures Ledger(OnLocated(s, k, here), Mark(s, mark, Located(k, here)))
  {
    hide Balanced, Record, Unrecord, Positive;
    var a, h := s.waiting[k], History(s);
    var s' := OnLocated(s, k, here);
    if a.command == Some("stepBack") && h != [] {
      UndoKeeps(s.costs, h, mark);
    } else if History(s') != h {
      ChargeKeeps(s.costs, h, mark, Entry(s.active.value.prevStop.value, a.inst));
    }
  }

  lemma UndoKeeps(costs: map<Loc, Cost>, h: seq<Entry>, mark: nat)
    requires h != [] && mark <= |h| && Positive(h) && Balanced(costs, h[mark..])
    ensures var last, rest := h[|h| - 1], h[..|h| - 1];
      var mark' := if |rest| < mark then |rest| else mark;
      Positive(rest) && Balanced(Unrecord(costs, last.loc, last.inst), rest[mark'..])
  {
    hide Balanced, Unrecord;
    var last, rest := h[|h| - 1], h[..|h| - 1];
    if mark < |h| {
      UnrecordBalances(costs, h[mark..]);
      assert h[mark..][..|h| - 1 - mark] == rest[mark..];
    } else {
      assert h[mark..] == [] && rest[|rest|..] == [];
      UnrecordNothing(costs, last.loc, last.inst);
    }
  }

  lemma ChargeKeeps(costs: map<Loc, Cost>, h: seq<Entry>, mark: nat, e: Entry)
    requires mark <= |h| && Positive(h) && e.inst > 0 && Balanced(costs, h[mark..])
    ensures Positive(h + [e]) && Balanced(Record(costs, e.loc, e.inst), (h + [e])[mark..])
  {
    hide Balanced, Record;
    RecordBalances(costs, h[mark..], e);
    assert h[mark..] + [e] == (h + [e])[mark..];
  }

  predicate IsRun(s: State, steps: seq<Step>)
    decreases |steps|
  {
    steps == [] || (Enabled(s, steps[0]) && IsRun(Next(s, steps[0]), steps[1..]))
  }

  function After(s: State, mark: nat, steps: seq<Step>): (State, nat)
    requires IsRun(s, steps)
    decreases |steps|
  {
    if steps == [] then (s, mark) else After(Next(s, steps[0]), Mark(s, mark, steps[0]), steps[1..])
  }

  lemma {:induction false} RunKeeps(s: State, mark: nat, steps: seq<Step>)
    requires Ledger(s, mark) && IsRun(s, steps)
    ensures Ledger(After(s, mark, steps).0, After(s, mark, steps).1)
    decreases |steps|
  {
    if steps == [] {
    } else {
      StepKeeps(s, mark, steps[0]);
      RunKeeps(Next(s, steps[0]), Mark(s, mark, steps[0]), steps[1..]);
    }
  }

  /** In every interleaving, while a session is bound, each line's cost is the sum over its undo entries since the last clear. */
  lemma CostsAreSums(steps: seq<Step>, loc: Loc)
    requires IsRun(INIT, steps)
    ensures var (s, mark) := After(INIT, 0, steps);
      s.active.Some? ==>
        && mark <= |History(s)|
        && var entries := History(s)[mark..];
        && (loc in s.costs <==> Hits(loc, entries) > 0)
        && (loc in s.costs ==> s.costs[loc].inst == Total(loc, entries) && s.costs[loc].hits == Hits(loc, entries))
  {
    RunKeeps(INIT, 0, steps);
  }

  // ---- Which session the overlay follows ----

  /** The session the overlay is bound to, and whether step costs are on, told by the events alone. */
  function Following(bound: Option<(string, bool)>, steps: seq<Step>): Option<(string, bool)>
    decreases |steps|
  {
    if steps == [] then bound
    else
      var other := match bound case Some((id, _)) => id case None => "";
      var next := match steps[0]
        case SessionStart(id) => if bound.None? then Some((id, true)) else bound
        case SessionEnd(id) => if bound.Some? && other == id then None else bound
        case Stopped(id, followed, _) => if followed && (bound.None? || other != id) then Some((id, true)) else bound
        case Toggle => if bound.Some? then Some((other, !bound.value.1)) else None
        case _ => bound;
      Following(next, steps[1..])
  }

  function BoundTo(s: State): Option<(string, bool)> {
    if s.active.Some? then Some((s.active.value.id, s.active.value.enabled)) else None
  }

  lemma BoundStep(s: State, step: Step)
    requires Enabled(s, step)
    ensures BoundTo(Next(s, step)) == Following(BoundTo(s), [step])
  {
    hide Record, Unrecord;
    assert [step][1..] == [];
  }

  lemma FollowingStep(bound: Option<(string, bool)>, steps: seq<Step>)
    requires steps != []
    ensures Following(bound, steps) == Following(Following(bound, [steps[0]]), steps[1..])
  {
    assert [steps[0]][1..] == [];
  }

  /**
   On every run: the overlay binds to a session that starts while it has none, lets go of its session only when that
   ends, and otherwise moves only to a session it may follow, when that one stops; a new binding has step costs on.
   */
  lemma {:induction false} FollowsSessions(s: State, mark: nat, steps: seq<Step>)
    requires IsRun(s, steps)
    ensures BoundTo(After(s, mark, steps).0) == Following(BoundTo(s), steps)
    decreases |steps|
  {
    if steps == [] {
    } else {
      hide Next, Mark, BoundTo, Following;
      BoundStep(s, steps[0]);
      FollowingStep(BoundTo(s), steps);
      FollowsSessions(Next(s, steps[0]), Mark(s, mark, steps[0]), steps[1..]);
    }
  }

  // ---- Stepping forward and back ----

  /** One step of the user: the command, the instructions it ran, and where it stopped. */
  datatype Walk = Walk(cmd: string, inst: int, here: Option<Loc>)

  /** The command, the stop and the answered location query of each step in turn, with k older queries still waiting. */
  function Walked(id: string, k: nat, ws: seq<Walk>): seq<Step> {
    if ws == [] then []
    else [Command(id, ws[0].cmd), Stopped(id, true, ws[0].inst), Located(k, ws[0].here)] + Walked(id, k, ws[1..])
  }

  predicate Ready(s: State, id: string, k: nat) {
    s.active.Some? && s.active.value.id == id && s.active.value.enabled && |s.waiting| == k
  }

  /** The charges of a sequence of forward steps: none for a step from an unknown line or without instructions. */
  function Charged(prev: Option<Loc>, ws: seq<Walk>): seq<Entry>
    decreases |ws|
  {
    if ws == [] then []
    else (if prev.Some? && ws[0].inst > 0 then [Entry(prev.value, ws[0].inst)] else []) + Charged(ws[0].here, ws[1..])
  }

  predicate AllCharged(prev: Option<Loc>, ws: seq<Walk>)
    decreases |ws|
  {
    ws == [] || (prev.Some? && ws[0].inst > 0 && AllCharged(ws[0].here, ws[1..]))
  }

  lemma {:induction false} ChargedLength(prev: Option<Loc>, ws: seq<Walk>)
    ensures |Charged(prev, ws)| <= |ws|
    ensures |Charged(prev, ws)| == |ws| <==> AllCharged(prev, ws)
    decreases |ws|
  {
    if ws == [] {
    } else {
      ChargedLength(ws[0].here, ws[1..]);
    }
  }

  lemma {:induction false} AfterBoth(s: State, mark: nat, a: seq<Step>, b: seq<Step>)
    requires IsRun(s, a) && IsRun(After(s, mark, a).0, b)
    ensures IsRun(s, a + b)
    ensures After(s, mark, a + b) == After(After(s, mark, a).0, After(s, mark, a).1, b)
    decreases |a|
  {
    if a == [] {
      assert a + b == b;
    } else {
      assert (a + b)[1..] == a[1..] + b;
      AfterBoth(Next(s, a[0]), Mark(s, mark, a[0]), a[1..], b);
    }
  }

  const FORWARD := {"next", "stepIn", "stepOut", "bs/stepIn"}

  const OTHER := {"stepBack", "continue", "reverseContinue"}

  /** The command a stop is taken for: the one just sent if it is a navigation command, otherwise one still pending. */
  function Acting(pending: Option<string>, cmd: string): Option<string> {
    if cmd in FORWARD || cmd in OTHER then Some(cmd) else pending
  }

  /** The undo stack after a step: a charge for the line left, one entry less, or as it was. */
  function Stacked(h: seq<Entry>, prev: Option<Loc>, acting: Option<string>, inst: int): seq<Entry> {
    if acting == Some("stepBack") then h[..Down(|h|, 1)]
    else if acting.Some? && acting.value in FORWARD && prev.Some? && inst > 0 then h + [Entry(prev.value, inst)]
    else h
  }

  function Min(a: nat, b: nat): nat {
    if a < b then a else b
  }

  /** The undo stack after a sequence of steps, and how much of it is older than the last clear. */
  function StackAfter(h: seq<Entry>, mark: nat, prev: Option<Loc>, pending: Option<string>, ws: seq<Walk>): (seq<Entry>, nat)
    decreases |ws|
  {
    if ws == [] then (h, mark)
    else
      var h' := Stacked(h, prev, Acting(pending, ws[0].cmd), ws[0].inst);
      StackAfter(h', Min(mark, |h'|), ws[0].here, None, ws[1..])
  }

  /** A number less another, but at least 0. */
  function Down(n: nat, m: nat): nat {
    if n < m then 0 else n - m
  }

  lemma AfterOne(s: State, mark: nat, a: Step)
    requires Enabled(s, a)
    ensures IsRun(s, [a]) && After(s, mark, [a]) == (Next(s, a), Mark(s, mark, a))
  {
    hide Next, Mark, Enabled;
    assert [a][1..] == [];
    assert After(Next(s, a), Mark(s, mark, a), []) == (Next(s, a), Mark(s, mark, a));
  }

  lemma AfterThree(s: State, mark: nat, a: Step, b: Step, c: Step)
    requires Enabled(s, a) && Enabled(Next(s, a), b) && Enabled(Next(Next(s, a), b), c)
    ensures IsRun(s, [a, b, c])
    ensures var s1, mark1 := Next(s, a), Mark(s, mark, a);
      var s2, mark2 := Next(s1, b), Mark(s1, mark1, b);
      After(s, mark, [a, b, c]) == (Next(s2, c), Mark(s2, mark2, c))
  {
    hide Next, Mark, Enabled;
    var s1, mark1 := Next(s, a), Mark(s, mark, a);
    var s2, mark2 := Next(s1, b), Mark(s1, mark1, b);
    assert [a, b, c][1..] == [b, c] && [b, c][1..] == [c] && [c][1..] == [];
    AfterOne(s2, mark2, c);
    assert IsRun(s1, [b, c]);
    assert After(s1, mark1, [b, c]) == After(s2, mark2, [b, c][1..]);
  }

  /**
   One command, the stop and its answer, whatever the command: a charge is pushed and recorded exactly for a
   forward step with instructions from a known line, "stepBack" takes the last charge back, and after
   any other command the undo stack and the costs are as they were.
   */
  lemma OneWalk(s: State, mark: nat, id: string, k: nat, w: Walk)
    requires Ready(s, id, k) && mark <= |History(s)|
    ensures var steps := [Command(id, w.cmd), Stopped(id, true, w.inst), Located(k, w.here)];
      && IsRun(s, steps)
      && var (s', mark') := After(s, mark, steps);
         var h, prev, acting := History(s), s.active.value.prevStop, Acting(s.active.value.lastCommand, w.cmd);
      && Ready(s', id, k) && s'.active.value.prevStop == w.here && s'.active.value.lastCommand == None
      && History(s') == Stacked(h, prev, acting, w.inst) && mark' == Min(mark, |History(s')|)
      && s'.costs ==
         (if acting == Some("stepBack") && h != [] then Unrecord(s.costs, h[|h| - 1].loc, h[|h| - 1].inst)
          else if acting.Some? && acting.value in FORWARD && prev.Some? && w.inst > 0 then Record(s.costs, prev.value, w.inst)
          else s.costs)
  {
    hide Record, Unrecord;
    var steps := [Command(id, w.cmd), Stopped(id, true, w.inst), Located(k, w.here)];
    var s1 := Next(s, steps[0]);
    var s2 := Next(s1, steps[1]);
    assert s1.active.value.lastCommand == Acting(s.active.value.lastCommand, w.cmd);
    assert s2.waiting == s.waiting + [Attribution(s1.active.value.lastCommand, w.inst)];
    assert s2.waiting[..k] + s2.waiting[k + 1..] == s.waiting;
    AfterThree(s, mark, steps[0], steps[1], steps[2]);
    var s3 := Next(s2, steps[2]);
    assert History(s1) == History(s2) == History(s);
  }

  /** After any steps forward, back and on, from a state that waits for no answer of its own, the undo stack is as told by the commands. */
  lemma {:induction false} AnyWalks(s: State, mark: nat, id: string, k: nat, ws: seq<Walk>)
    requires Ready(s, id, k) && mark <= |History(s)|
    ensures IsRun(s, Walked(id, k, ws))
    ensures var (s', mark') := After(s, mark, Walked(id, k, ws));
      && Ready(s', id, k)
      && (History(s'), mark') == StackAfter(History(s), mark, s.active.value.prevStop, s.active.value.lastCommand, ws)
      && (ws != [] ==> s'.active.value.lastCommand == None)
    decreases |ws|
  {
    if ws == [] {
    } else {
      hide IsRun, After, Next, Mark, History, Acting, Stacked;
      var first := [Command(id, ws[0].cmd), Stopped(id, true, ws[0].inst), Located(k, ws[0].here)];
      OneWalk(s, mark, id, k, ws[0]);
      var (s1, mark1) := After(s, mark, first);
      AnyWalks(s1, mark1, id, k, ws[1..]);
      AfterBoth(s, mark, first, Walked(id, k, ws[1..]));
    }
  }

  /** On every run that ends in any sequence of steps, each line's cost is the sum over the charges the commands leave. */
  lemma CostsFollowCommands(steps: seq<Step>, id: string, ws: seq<Walk>, loc: Loc)
    requires IsRun(INIT, steps)
    requires Ready(After(INIT, 0, steps).0, id, |After(INIT, 0, steps).0.waiting|)
    ensures var (s, mark) := After(INIT, 0, steps);
      var walked := Walked(id, |s.waiting|, ws);
      && IsRun(s, walked)
      && var (h, low) := StackAfter(History(s), mark, s.active.value.prevStop, s.active.value.lastCommand, ws);
         var s' := After(s, mark, walked).0;
      && low <= |h| && History(s') == h
      && (loc in s'.costs <==> Hits(loc, h[low..]) > 0)
      && (loc in s'.costs ==> s'.costs[loc].inst == Total(loc, h[low..]) && s'.costs[loc].hits == Hits(loc, h[low..]))
  {
    hide IsRun, After, Next, Mark, Walked, StackAfter;
    RunKeeps(INIT, 0, steps);
    var (s, mark) := After(INIT, 0, steps);
    AnyWalks(s, mark, id, |s.waiting|, ws);
    RunKeeps(s, mark, Walked(id, |s.waiting|, ws));
  }

  lemma {:induction false} StackForward(h: seq<Entry>, mark: nat, prev: Option<Loc>, pending: Option<string>, ws: seq<Walk>)
    requires mark <= |h| && forall w <- ws :: w.cmd in FORWARD
    ensures StackAfter(h, mark, prev, pending, ws) == (h + Charged(prev, ws), mark)
    decreases |ws|
  {
    if ws == [] {
      assert h + [] == h;
    } else {
      var h' := Stacked(h, prev, Acting(pending, ws[0].cmd), ws[0].inst);
      StackForward(h', mark, ws[0].here, None, ws[1..]);
      var rest := Charged(ws[0].here, ws[1..]);
      assert prev.Some? && ws[0].inst > 0 ==> (h + [Entry(prev.value, ws[0].inst)]) + rest == h + ([Entry(prev.value, ws[0].inst)] + rest);
      assert [] + rest == rest;
    }
  }

  lemma {:induction false} StackBack(h: seq<Entry>, mark: nat, prev: Option<Loc>, pending: Option<string>, ws: seq<Walk>)
    requires mark <= |h| && forall w <- ws :: w.cmd == "stepBack"
    ensures var h' := h[..Down(|h|, |ws|)]; StackAfter(h, mark, prev, pending, ws) == (h', Min(mark, |h'|))
    decreases |ws|
  {
    if ws == [] {
      assert h[..|h|] == h;
    } else {
      var h1 := h[..Down(|h|, 1)];
      StackBack(h1, Min(mark, |h1|), ws[0].here, None, ws[1..]);
      assert h1[..Down(|h1|, |ws| - 1)] == h[..Down(|h|, |ws|)];
    }
  }

  lemma ForwardWalks(s: State, mark: nat, id: string, k: nat, ws: seq<Walk>)
    requires Ready(s, id, k) && Ledger(s, mark) && forall w <- ws :: w.cmd in FORWARD
    ensures IsRun(s, Walked(id, k, ws))
    ensures var (s', mark') := After(s, mark, Walked(id, k, ws));
      && Ready(s', id, k) && Ledger(s', mark')
      && History(s') == History(s) + Charged(s.active.value.prevStop, ws) && mark' == mark
  {
    hide IsRun, After, Next, Mark, StackAfter, Charged, Walked;
    AnyWalks(s, mark, id, k, ws);
    StackForward(History(s), mark, s.active.value.prevStop, s.active.value.lastCommand, ws);
    RunKeeps(s, mark, Walked(id, k, ws));
  }

  lemma BackWalks(s: State, mark: nat, id: string, k: nat, ws: seq<Walk>)
    requires Ready(s, id, k) && Ledger(s, mark) && forall w <- ws :: w.cmd == "stepBack"
    ensures IsRun(s, Walked(id, k, ws))
    ensures var (s', mark') := After(s, mark, Walked(id, k, ws));
      && Ready(s', id, k) && Ledger(s', mark')
      && History(s') == History(s)[..Down(|History(s)|, |ws|)] && mark' == Min(mark, |History(s')|)
  {
    hide IsRun, After, Next, Mark, StackAfter, Walked;
    AnyWalks(s, mark, id, k, ws);
    StackBack(History(s), mark, s.active.value.prevStop, s.active.value.lastCommand, ws);
    RunKeeps(s, mark, Walked(id, k, ws));
  }

  lemma BalancedOnce(a: map<Loc, Cost>, b: map<Loc, Cost>, entries: seq<Entry>)
    requires Balanced(a, entries) && Balanced(b, entries)
    ensures a == b
  {
    forall loc: Loc ensures loc in a <==> loc in b {
      assert loc in a <==> Hits(loc, entries) > 0;
    }
  }

  lemma {:induction false} FewerHits(loc: Loc, entries: seq<Entry>, n: nat)
    requires n <= |entries|
    ensures Hits(loc, entries[..n]) <= Hits(loc, entries)
    ensures n < |entries| && entries[|entries| - 1].loc == loc ==> Hits(loc, entries[..n]) < Hits(loc, entries)
  {
    if n < |entries| {
      assert entries[..|entries| - 1][..n] == entries[..n];
      FewerHits(loc, entries[..|entries| - 1], n);
    } else {
      assert entries[..n] == entries;
    }
  }

  /** Losing the newest entries changes the costs. */
  lemma FewerDiffer(a: map<Loc, Cost>, b: map<Loc, Cost>, entries: seq<Entry>, n: nat)
    requires n < |entries| && Balanced(a, entries) && Balanced(b, entries[..n])
    ensures a != b
  {
    var loc := entries[|entries| - 1].loc;
    FewerHits(loc, entries, n);
    assert loc in a <==> Hits(loc, entries) > 0;
    assert loc in b <==> Hits(loc, entries[..n]) > 0;
  }

  /**
   From any reachable state, n steps forward and n steps back restore every line's total and hits if and
   only if every forward step was charged, or no undo entry is newer than the last clear: a step that was
   not charged is undone by taking back an older charge.
   */
  lemma ForwardAndBack(steps: seq<Step>, id: string, forward: seq<Walk>, back: seq<Walk>)
    requires IsRun(INIT, steps) && |forward| == |back|
    requires Ready(After(INIT, 0, steps).0, id, |After(INIT, 0, steps).0.waiting|)
    requires forall w <- forward :: w.cmd in {"next", "stepIn", "stepOut", "bs/stepIn"}
    requires forall w <- back :: w.cmd == "stepBack"
    ensures var (s, mark) := After(INIT, 0, steps);
      var there := Walked(id, |s.waiting|, forward);
      && IsRun(s, there)
      && var (s1, mark1) := After(s, mark, there);
      var again := Walked(id, |s.waiting|, back);
      && IsRun(s1, again)
      && (After(s1, mark1, again).0.costs == s.costs <==>
            AllCharged(s.active.value.prevStop, forward) || mark == |History(s)|)
  {
    hide IsRun, After, Walked, Ledger, Ready, AllCharged;
    RunKeeps(INIT, 0, steps);
    var (s, mark) := After(INIT, 0, steps);
    ThereAndBack(s, mark, id, |s.waiting|, forward, back);
  }

  lemma ThereAndBack(s: State, mark: nat, id: string, k: nat, forward: seq<Walk>, back: seq<Walk>)
    requires Ready(s, id, k) && Ledger(s, mark) && |forward| == |back|
    requires (forall w <- forward :: w.cmd in FORWARD) && forall w <- back :: w.cmd == "stepBack"
    ensures IsRun(s, Walked(id, k, forward))
    ensures var (s1, mark1) := After(s, mark, Walked(id, k, forward));
      && IsRun(s1, Walked(id, k, back))
      && (After(s1, mark1, Walked(id, k, back)).0.costs == s.costs <==>
            AllCharged(s.active.value.prevStop, forward) || mark == |History(s)|)
  {
    hide IsRun, After, Balanced, Charged, AllCharged, Walked, Min, Down, Positive;
    ForwardWalks(s, mark, id, k, forward);
    var (s1, mark1) := After(s, mark, Walked(id, k, forward));
    BackWalks(s1, mark1, id, k, back);
    ChargedLength(s.active.value.prevStop, forward);
    var charged := Charged(s.active.value.prevStop, forward);
    Restored(s.costs, After(s1, mark1, Walked(id, k, back)).0.costs, History(s), charged, |forward|, mark);
  }

  /** Pushing charges onto an undo stack and popping n entries, seen in the costs. */
  lemma Restored(costs: map<Loc, Cost>, costs': map<Loc, Cost>, h: seq<Entry>, charged: seq<Entry>, n: nat, mark: nat)
    requires mark <= |h| && |charged| <= n && Balanced(costs, h[mark..])
    requires var h' := (h + charged)[..Down(|h + charged|, n)];
      Balanced(costs', h'[Min(mark, |h'|)..])
    ensures costs' == costs <==> |charged| == n || mark == |h|
  {
    hide Balanced;
    var h' := (h + charged)[..Down(|h + charged|, n)];
    var mark' := Min(mark, |h'|);
    if |charged| == n {
      assert h' == h;
      BalancedOnce(costs, costs', h[mark..]);
    } else if mark == |h| {
      assert h'[mark'..] == [] && h[mark..] == [];
      BalancedOnce(costs, costs', []);
    } else {
      var kept := Down(|h'|, mark);
      assert h'[mark'..] == h[mark..][..kept];
      FewerDiffer(costs, costs', h[mark..], kept);
    }
  }

  /** A session bound, stopped at one line, and stepped on to another with five instructions. */
  function OneCharge(a: Loc, b: Loc): seq<Step> {
    [SessionStart("s")] + Walked("s", 0, [Walk("next", 5, Some(a)), Walk("next", 5, Some(b))])
  }

  lemma OneChargeRun(a: Loc, b: Loc)
    ensures IsRun(INIT, OneCharge(a, b))
    ensures var (s, mark) := After(INIT, 0, OneCharge(a, b));
      Ready(s, "s", 0) && History(s) == [Entry(a, 5)] && mark == 0 && Ledger(s, mark)
  {
    var ws := [Walk("next", 5, Some(a)), Walk("next", 5, Some(b))];
    AfterOne(INIT, 0, SessionStart("s"));
    EmptyBalanced();
    ForwardWalks(Bind(INIT, "s"), 0, "s", 0, ws);
    AfterBoth(INIT, 0, [SessionStart("s")], Walked("s", 0, ws));
    assert ws[1..] == [ws[1]] && [ws[1]][1..] == [] && Charged(Some(b), []) == [];
    assert Charged(Some(a), [ws[1]]) == [Entry(a, 5)] + [];
    assert Charged(None, ws) == [] + Charged(Some(a), [ws[1]]);
  }

  /** After one charge, a step without an instruction count and one back: the charge is gone. */
  lemma UnchargedStepUndoesOlder(a: Loc, b: Loc, c: Loc)
    ensures IsRun(INIT, OneCharge(a, b))
    ensures var (s, mark) := After(INIT, 0, OneCharge(a, b));
      var there, again := Walked("s", 0, [Walk("next", 0, Some(c))]), Walked("s", 0, [Walk("stepBack", 0, Some(b))]);
      && s.costs == map[a := Cost(5, 1)]
      && IsRun(s, there) && IsRun(After(s, mark, there).0, again)
      && After(After(s, mark, there).0, 0, again).0.costs == map[]
  {
    OneChargeRun(a, b);
    var (s, mark) := After(INIT, 0, OneCharge(a, b));
    OneEntry(a);
    assert [Entry(a, 5)][0..] == [Entry(a, 5)];
    BalancedOnce(s.costs, map[a := Cost(5, 1)], [Entry(a, 5)]);
    UndoneAfter(s, [Walk("next", 0, Some(c))], [Walk("stepBack", 0, Some(b))]);
  }

  lemma UndoneAfter(s: State, there: seq<Walk>, again: seq<Walk>)
    requires Ready(s, "s", 0) && |History(s)| == 1 && Ledger(s, 0)
    requires |there| == 1 && there[0].cmd == "next" && there[0].inst == 0 && |again| == 1 && again[0].cmd == "stepBack"
    ensures IsRun(s, Walked("s", 0, there))
    ensures var s1 := After(s, 0, Walked("s", 0, there)).0;
      IsRun(s1, Walked("s", 0, again)) && After(s1, 0, Walked("s", 0, again)).0.costs == map[]
  {
    hide IsRun, After, Next, Mark, Walked;
    ForwardWalks(s, 0, "s", 0, there);
    assert Charged(s.active.value.prevStop, there) == [] by {
      assert there[1..] == [] && Charged(there[0].here, []) == [];
    }
    var (s1, mark1) := After(s, 0, Walked("s", 0, there));
    BackWalks(s1, 0, "s", 0, again);
    EmptyBalanced();
    BalancedOnce(After(s1, 0, Walked("s", 0, again)).0.costs, map[], []);
  }

  lemma OneEntry(a: Loc)
    ensures Balanced(map[a := Cost(5, 1)], [Entry(a, 5)])
  {
    EmptyBalanced();
    RecordBalances(map[], [], Entry(a, 5));
    assert [] + [Entry(a, 5)] == [Entry(a, 5)];
  }
}
