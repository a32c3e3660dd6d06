/**
 The edit-and-continue watcher: saved files arm a debounce timer, the timer starts a run, and a run
 rebuilds until nothing fired while it was busy. A run is an asynchronous function: between its
 awaits anything else may happen, so what follows is a set of suspended runs beside the watcher states.
 */
module RebuildLoop {
  import opened Results

  datatype Watcher = Watcher(running: bool, pending: bool, armed: bool)

  /** Where a suspended run waits: for its build command to exit, or for the debugger to apply the patch. */
  datatype Await = Building | Applying

  datatype Suspended = Suspended(id: nat, at: Await)

  /** Watchers are numbered in the order in which they were started; at most one is current. */
  datatype State = State(current: Option<nat>, watchers: seq<Watcher>, runs: multiset<Suspended>)

  const INIT := State(None, [], multiset{})

  datatype Step =
    | Start
    | Stop
    | Save(generated: bool)
    | Fire
    | Built(id: nat, patched: bool)
    | Applied(id: nat)

  predicate HasCurrent(s: State) {
    s.current.Some? && s.current.value < |s.watchers|
  }

  function Set(s: State, id: nat, w: Watcher): State
    requires id < |s.watchers|
  {
    s.(watchers := s.watchers[id := w])
  }

  function Disarm(s: State): State {
    if HasCurrent(s) then Set(s, s.current.value, s.watchers[s.current.value].(armed := false)).(current := None)
    else s.(current := None)
  }

  /** The top of the loop: forget what fired before, and start the build command. */
  function BeginBuild(s: State, id: nat): State
    requires id < |s.watchers|
  {
    Set(s, id, s.watchers[id].(running := true, pending := false)).(runs := s.runs + multiset{Suspended(id, Building)})
  }

  function EndRun(s: State, id: nat): State
    requires id < |s.watchers|
  {
    Set(s, id, s.watchers[id].(running := false))
  }

  function RunEditContinue(s: State, id: nat): State
    requires id < |s.watchers|
  {
    if s.watchers[id].running then Set(s, id, s.watchers[id].(pending := true)) else BeginBuild(s, id)
  }

  function Resume(s: State, run: Suspended): State {
    s.(runs := s.runs - multiset{run})
  }

  /** A step that cannot happen, such as the end of a build that nobody started, changes nothing. */
  function Do(s: State, step: Step): State {
    match step
    case Start => Disarm(s).(watchers := Disarm(s).watchers + [Watcher(false, false, false)], current := Some(|s.watchers|))
    case Stop => Disarm(s)
    case Save(generated) =>
      if generated || !HasCurrent(s) then s
      else Set(s, s.current.value, s.watchers[s.current.value].(armed := true))
    case Fire =>
      if !Fires(s) then s
      else RunEditContinue(Set(s, s.current.value, s.watchers[s.current.value].(armed := false)), s.current.value)
    case Built(id, patched) =>
      if !CanResume(s, Suspended(id, Building)) then s
      else if patched then s.(runs := s.runs - multiset{Suspended(id, Building)} + multiset{Suspended(id, Applying)})
      else EndRun(Resume(s, Suspended(id, Building)), id)
    case Applied(id) =>
      if !CanResume(s, Suspended(id, Applying)) then s
      else if s.watchers[id].pending then BeginBuild(Resume(s, Suspended(id, Applying)), id)
      else EndRun(Resume(s, Suspended(id, Applying)), id)
  }

  predicate Fires(s: State) {
    HasCurrent(s) && s.watchers[s.current.value].armed
  }

  predicate CanResume(s: State, run: Suspended) {
    run.id < |s.watchers| && run in s.runs
  }

  class EditContinue {
    var current: Option<nat>
    var watchers: seq<Watcher>
    var runs: multiset<Suspended>

    ghost function View(): State
      reads this
    {
      State(current, watchers, runs)
    }

    constructor ()
      ensures View() == INIT
    {
      current, watchers, runs := None, [], multiset{};
    }

    method StopWatcher()
      modifies this`current, this`watchers
      ensures View() == Do(old(View()), Stop)
    {
      if current.Some? && current.value < |watchers| {
        watchers := watchers[current.value := watchers[current.value].(armed := false)];
      }
      current := None;
    }

    method StartWatcher()
      modifies this`current, this`watchers
      ensures View() == Do(old(View()), Start)
    {
      StopWatcher();
      watchers := watchers + [Watcher(false, false, false)];
      current := Some(|watchers| - 1);
    }

    method Schedule(generated: bool)
      modifies this`watchers
      ensures View() == Do(old(View()), Save(generated))
    {
      if generated || current.None? || current.value >= |watchers| {
        return;
      }
      watchers := watchers[current.value := watchers[current.value].(armed := true)];
    }

    method TimerFires()
      modifies this`watchers, this`runs
      ensures View() == Do(old(View()), Fire)
    {
      if current.None? || current.value >= |watchers| || !watchers[current.value].armed {
        return;
      }
      var id := current.value;
      var state := watchers[id].(armed := false);
      if state.running {
        state := state.(pending := true);
      } else {
        state := state.(running := true, pending := false);
        runs := runs + multiset{Suspended(id, Building)};
      }
      watchers := watchers[id := state];
    }

    method BuildExits(id: nat, patched: bool)
      modifies this`watchers, this`runs
      ensures View() == Do(old(View()), Built(id, patched))
    {
      if id >= |watchers| || Suspended(id, Building) !in runs {
        return;
      }
      runs := runs - multiset{Suspended(id, Building)};
      if patched {
        runs := runs + multiset{Suspended(id, Applying)};
      } else {
        watchers := watchers[id := watchers[id].(running := false)];
      }
    }

    method PatchApplied(id: nat)
      modifies this`watchers, this`runs
      ensures View() == Do(old(View()), Applied(id))
    {
      if id >= |watchers| || Suspended(id, Applying) !in runs {
        return;
      }
      runs := runs - multiset{Suspended(id, Applying)};
      if watchers[id].pending {
        watchers := watchers[id := watchers[id].(running := true, pending := false)];
        runs := runs + multiset{Suspended(id, Building)};
      } else {
        watchers := watchers[id := watchers[id].(running := false)];
      }
    }
  }

  function Run(run: seq<Step>): State {
    if run == [] then INIT else Do(Run(run[..|run| - 1]), run[|run| - 1])
  }

  // ---- Single flight ----

  function RunsOf(s: State, id: nat): nat {
    s.runs[Suspended(id, Building)] + s.runs[Suspended(id, Applying)]
  }

  /** The flag of a watcher tells whether a run of it is suspended, and only the current watcher's timer is armed. */
  predicate Orderly(s: State, id: nat) {
    && RunsOf(s, id) == (if id < |s.watchers| && s.watchers[id].running then 1 else 0)
    && (id < |s.watchers| && s.watchers[id].armed ==> s.current == Some(id))
  }

  ghost predicate Inv(s: State) {
    (s.current.Some? ==> HasCurrent(s)) && forall id: nat :: Orderly(s, id)
  }

  lemma OrderlyWatch(s: State, step: Step, id: nat)
    requires (step.Start? || step.Stop? || step.Save?) && Orderly(s, id) && Orderly(s, |s.watchers|) && (s.current.Some? ==> HasCurrent(s))
    ensures Orderly(Do(s, step), id)
  {
  }

  lemma OrderlyBegin(s: State, at: nat, id: nat)
    requires at < |s.watchers| && RunsOf(s, at) == 0
    requires id != at ==> Orderly(s, id)
    requires id == at && s.watchers[at].armed ==> s.current == Some(at)
    ensures Orderly(BeginBuild(s, at), id)
  {
  }

  lemma OrderlyFire(s: State, id: nat)
    requires Fires(s) && Orderly(s, id) && Orderly(s, s.current.value)
    ensures Orderly(Do(s, Fire), id)
  {
    hide RunsOf, BeginBuild;
    var at := s.current.value;
    var s1 := Set(s, at, s.watchers[at].(armed := false));
    SameRuns(s, s1, id);
    SameRuns(s, s1, at);
    if s.watchers[at].running {
      SameRuns(s, RunEditContinue(s1, at), id);
    } else {
      OrderlyBegin(s1, at, id);
    }
  }

  lemma SameRuns(s: State, s': State, id: nat)
    requires s.runs == s'.runs
    ensures RunsOf(s, id) == RunsOf(s', id)
  {
  }

  lemma OneLess(s: State, run: Suspended, id: nat)
    requires run in s.runs
    ensures RunsOf(Resume(s, run), id) == if id == run.id then RunsOf(s, id) - 1 else RunsOf(s, id)
  {
    var runs := s.runs - multiset{run};
    var b, a := Suspended(id, Building), Suspended(id, Applying);
    assert runs[b] == if run == b then s.runs[b] - 1 else s.runs[b];
    assert runs[a] == if run == a then s.runs[a] - 1 else s.runs[a];
    if id == run.id {
      match run.at
      case Building => assert run == b != a;
      case Applying => assert run == a != b;
    }
  }

  lemma Moved(s: State, at: nat, id: nat)
    requires CanResume(s, Suspended(at, Building))
    ensures RunsOf(Do(s, Built(at, true)), id) == RunsOf(s, id)
  {
  }

  lemma OrderlyResume(s: State, step: Step, id: nat)
    requires step.Built? || step.Applied?
    requires Orderly(s, id) && Orderly(s, step.id) && CanResume(s, Suspended(step.id, if step.Built? then Building else Applying))
    ensures Orderly(Do(s, step), id)
  {
    var run := Suspended(step.id, if step.Built? then Building else Applying);
    OneLess(s, run, id);
    OneLess(s, run, step.id);
    hide RunsOf;
    if step.Built? && step.patched {
      Moved(s, step.id, id);
    } else if step.Built? || !s.watchers[step.id].pending {
      SameRuns(Resume(s, run), EndRun(Resume(s, run), step.id), id);
    } else {
      hide BeginBuild;
      OrderlyBegin(Resume(s, run), step.id, id);
    }
  }

  lemma DoKeeps(s: State, step: Step)
    requires Inv(s)
    ensures Inv(Do(s, step))
  {
    KeepsCurrent(s, step);
    forall id: nat ensures Orderly(Do(s, step), id) {
      hide Do, Orderly;
      KeepsOrderly(s, step, id);
    }
  }

  lemma SameWatchers(s: State, id: nat)
    requires id < |s.watchers|
    ensures |BeginBuild(s, id).watchers| == |EndRun(s, id).watchers| == |RunEditContinue(s, id).watchers| == |s.watchers|
    ensures BeginBuild(s, id).current == EndRun(s, id).current == RunEditContinue(s, id).current == s.current
  {
  }

  lemma KeepsCurrent(s: State, step: Step)
    requires s.current.Some? ==> HasCurrent(s)
    ensures var s' := Do(s, step); s'.current.Some? ==> HasCurrent(s')
  {
    hide BeginBuild, EndRun, RunEditContinue;
    match step
    case Fire =>
      if Fires(s) {
        var at := s.current.value;
        SameWatchers(Set(s, at, s.watchers[at].(armed := false)), at);
      }
    case Built(at, _) =>
      if CanResume(s, Suspended(at, Building)) {
        SameWatchers(Resume(s, Suspended(at, Building)), at);
      }
    case Applied(at) =>
      if CanResume(s, Suspended(at, Applying)) {
        SameWatchers(Resume(s, Suspended(at, Applying)), at);
      }
    case _ =>
  }

  lemma KeepsOrderly(s: State, step: Step, id: nat)
    requires Inv(s)
    ensures Orderly(Do(s, step), id)
  {
    hide Orderly;
    match step
    case Fire =>
      if Fires(s) {
        OrderlyFire(s, id);
      }
    case Built(at, _) =>
      if CanResume(s, Suspended(at, Building)) {
        OrderlyResume(s, step, id);
      }
    case Applied(at) =>
      if CanResume(s, Suspended(at, Applying)) {
        OrderlyResume(s, step, id);
      }
    case _ => OrderlyWatch(s, step, id);
  }

  /** Of each watcher at most one run is suspended at any moment, and one exactly while its flag says so. */
  lemma {:induction false} SingleFlight(run: seq<Step>)
    ensures Inv(Run(run))
    ensures forall id: nat :: RunsOf(Run(run), id) <= 1
  {
    if run == [] {
    } else {
      hide Inv, Do;
      SingleFlight(run[..|run| - 1]);
      DoKeeps(Run(run[..|run| - 1]), run[|run| - 1]);
      AtMostOne(Run(run));
    }
  }

  lemma AtMostOne(s: State)
    requires Inv(s)
    ensures forall id: nat :: RunsOf(s, id) <= 1
  {
    forall id: nat ensures RunsOf(s, id) <= 1 {
      assert Orderly(s, id);
    }
  }

  // ---- What the last build has seen ----

  predicate FiresNow(s: State, step: Step, id: nat) {
    step.Fire? && Fires(s) && s.current == Some(id)
  }

  predicate BeginsNow(s: State, step: Step, id: nat) {
    || (FiresNow(s, step, id) && !s.watchers[id].running)
    || (step == Applied(id) && CanResume(s, Suspended(id, Applying)) && s.watchers[id].pending)
  }

  predicate SavesNow(s: State, step: Step, id: nat) {
    step == Save(false) && HasCurrent(s) && s.current == Some(id)
  }

  predicate FailsNow(s: State, step: Step, id: nat) {
    step == Built(id, false) && CanResume(s, Suspended(id, Building))
  }

  /** A timer of the watcher fired after its last build began. */
  predicate FiredSince(run: seq<Step>, id: nat) {
    run != [] &&
    var (before, last) := (run[..|run| - 1], run[|run| - 1]);
    !BeginsNow(Run(before), last, id) && (FiresNow(Run(before), last, id) || FiredSince(before, id))
  }

  /** A file the watcher cares about was saved after its last build began. */
  predicate SavedSince(run: seq<Step>, id: nat) {
    run != [] &&
    var (before, last) := (run[..|run| - 1], run[|run| - 1]);
    !BeginsNow(Run(before), last, id) && (SavesNow(Run(before), last, id) || SavedSince(before, id))
  }

  /** The watcher's last build failed or left no patch, after a timer had fired while it ran. */
  predicate FailedBehindTimer(run: seq<Step>, id: nat) {
    run != [] &&
    var (before, last) := (run[..|run| - 1], run[|run| - 1]);
    && !BeginsNow(Run(before), last, id)
    && ((FailsNow(Run(before), last, id) && FiredSince(before, id)) || FailedBehindTimer(before, id))
  }

  predicate IsPending(s: State, id: nat) {
    id < |s.watchers| && s.watchers[id].pending
  }

  predicate IsRunning(s: State, id: nat) {
    id < |s.watchers| && s.watchers[id].running
  }

  predicate IsArmed(s: State, id: nat) {
    id < |s.watchers| && s.watchers[id].armed
  }

  predicate ReturnsNow(s: State, step: Step, id: nat) {
    step == Applied(id) && CanResume(s, Suspended(id, Applying)) && !s.watchers[id].pending
  }

  lemma FlagsAfterFire(s: State, id: nat)
    ensures IsPending(Do(s, Fire), id) <==> !BeginsNow(s, Fire, id) && (FiresNow(s, Fire, id) || IsPending(s, id))
    ensures IsRunning(Do(s, Fire), id) <==> BeginsNow(s, Fire, id) || IsRunning(s, id)
  {
    if Fires(s) {
      var at := s.current.value;
      var s1 := Set(s, at, s.watchers[at].(armed := false));
      assert Do(s, Fire) == RunEditContinue(s1, at);
    }
  }

  lemma FlagsAfterBuilt(s: State, at: nat, patched: bool, id: nat)
    ensures IsPending(Do(s, Built(at, patched)), id) <==> IsPending(s, id)
    ensures IsRunning(Do(s, Built(at, patched)), id) <==> IsRunning(s, id) && !FailsNow(s, Built(at, patched), id)
  {
  }

  lemma FlagsAfterApplied(s: State, at: nat, id: nat)
    ensures var step := Applied(at);
      IsPending(Do(s, step), id) <==> IsPending(s, id) && !BeginsNow(s, step, id)
    ensures var step := Applied(at);
      IsRunning(Do(s, step), id) <==> BeginsNow(s, step, id) || (IsRunning(s, id) && !ReturnsNow(s, step, id))
  {
    if CanResume(s, Suspended(at, Applying)) {
      var s1 := Resume(s, Suspended(at, Applying));
      assert Do(s, Applied(at)) == if s.watchers[at].pending then BeginBuild(s1, at) else EndRun(s1, at);
    }
  }

  lemma FlagsAfterWatch(s: State, step: Step, id: nat)
    requires step.Start? || step.Stop? || step.Save?
    ensures IsPending(Do(s, step), id) <==> IsPending(s, id)
    ensures IsRunning(Do(s, step), id) <==> IsRunning(s, id)
  {
  }

  lemma FlagsAfter(s: State, step: Step, id: nat)
    ensures IsPending(Do(s, step), id) <==> !BeginsNow(s, step, id) && (FiresNow(s, step, id) || IsPending(s, id))
    ensures IsRunning(Do(s, step), id) <==>
      BeginsNow(s, step, id) || (IsRunning(s, id) && !FailsNow(s, step, id) && !ReturnsNow(s, step, id))
  {
    hide Do, Fires, CanResume, IsPending, IsRunning;
    match step
    case Fire => FlagsAfterFire(s, id);
    case Built(at, patched) => FlagsAfterBuilt(s, at, patched, id);
    case Applied(at) => FlagsAfterApplied(s, at, id);
    case _ => FlagsAfterWatch(s, step, id);
  }

  /** The pending flag says exactly that a timer fired after the last build began. */
  lemma {:induction false} PendingMeansFired(run: seq<Step>, id: nat)
    ensures IsPending(Run(run), id) <==> FiredSince(run, id)
  {
    if run == [] {
    } else {
      hide Do, BeginsNow, FiresNow, IsPending;
      PendingMeansFired(run[..|run| - 1], id);
      FlagsAfter(Run(run[..|run| - 1]), run[|run| - 1], id);
    }
  }

  /**
   A run ends only when its last build began after the last timer fired: the one exception is a run that
   returns early, from a failed build or one without a patch, after a timer fired during that build.
   */
  lemma RunEnds(run: seq<Step>, id: nat)
    requires run != []
    ensures var (before, last) := (run[..|run| - 1], run[|run| - 1]);
      IsRunning(Run(before), id) && !IsRunning(Run(run), id) ==>
        (FiredSince(run, id) <==> FailsNow(Run(before), last, id) && FiredSince(before, id))
  {
    hide Do, BeginsNow, FailsNow, IsPending, IsRunning;
    var s, last := Run(run[..|run| - 1]), run[|run| - 1];
    PendingMeansFired(run[..|run| - 1], id);
    FlagsAfter(s, last, id);
    SingleFlight(run[..|run| - 1]);
    assert Orderly(s, id);
    RestingStep(s, last, id);
  }

  /** A watcher at rest has a fired timer without a build after it exactly if its last build failed behind that timer. */
  lemma {:induction false} RestingBehindTimer(run: seq<Step>, id: nat)
    ensures FailedBehindTimer(run, id) <==> FiredSince(run, id) && !IsRunning(Run(run), id)
  {
    if run == [] {
    } else {
      hide Do, BeginsNow, FiresNow, FailsNow, ReturnsNow, IsPending, IsRunning;
      var before := run[..|run| - 1];
      var s, last := Run(before), run[|run| - 1];
      RestingBehindTimer(before, id);
      PendingMeansFired(before, id);
      FlagsAfter(s, last, id);
      SingleFlight(before);
      assert Orderly(s, id);
      RestingStep(s, last, id);
    }
  }

  lemma RestingStep(s: State, step: Step, id: nat)
    requires Orderly(s, id)
    ensures FiresNow(s, step, id) && !BeginsNow(s, step, id) ==> IsRunning(s, id)
    ensures FailsNow(s, step, id) ==> IsRunning(s, id) && !FiresNow(s, step, id) && !ReturnsNow(s, step, id)
    ensures ReturnsNow(s, step, id) ==> !IsPending(s, id) && !FiresNow(s, step, id)
  {
  }

  // ---- No save is lost while builds succeed ----

  lemma ArmedAfter(s: State, step: Step, id: nat)
    requires HasCurrent(s) && s.current == Some(id) && Do(s, step).current == Some(id)
    ensures IsArmed(Do(s, step), id) <==> (IsArmed(s, id) || SavesNow(s, step, id)) && !FiresNow(s, step, id)
  {
    hide Disarm, Resume, EndRun, CanResume, RunsOf;
    match step
    case Fire => assert IsArmed(Do(s, Fire), id) ==> !Fires(s);
    case Built(at, patched) => ArmedResume(s, step, id);
    case Applied(at) => ArmedResume(s, step, id);
    case _ => ArmedWatch(s, step, id);
  }

  lemma ArmedResume(s: State, step: Step, id: nat)
    requires step.Built? || step.Applied?
    ensures IsArmed(Do(s, step), id) <==> IsArmed(s, id)
  {
  }

  lemma ArmedWatch(s: State, step: Step, id: nat)
    requires step.Start? || step.Stop? || step.Save?
    requires HasCurrent(s) && s.current == Some(id) && Do(s, step).current == Some(id)
    ensures IsArmed(Do(s, step), id) <==> IsArmed(s, id) || SavesNow(s, step, id)
  {
  }

  lemma CurrentAfter(s: State, step: Step, id: nat)
    requires s.current.Some? ==> HasCurrent(s)
    ensures |Do(s, step).watchers| >= |s.watchers|
    ensures Do(s, step).current == Some(id) ==> s.current == Some(id) || id == |s.watchers|
  {
    hide BeginBuild, EndRun, RunEditContinue;
    match step
    case Fire =>
      if Fires(s) {
        var at := s.current.value;
        SameWatchers(Set(s, at, s.watchers[at].(armed := false)), at);
      }
    case Built(at, _) =>
      if CanResume(s, Suspended(at, Building)) {
        SameWatchers(Resume(s, Suspended(at, Building)), at);
      }
    case Applied(at) =>
      if CanResume(s, Suspended(at, Applying)) {
        SameWatchers(Resume(s, Suspended(at, Applying)), at);
      }
    case _ =>
  }

  /** Every save that no build has begun after is still on its way: the timer is armed, or the run will go round again. */
  lemma {:induction false} SavesOnTheWay(run: seq<Step>, id: nat)
    ensures SavedSince(run, id) ==> id < |Run(run).watchers|
    ensures SavedSince(run, id) && Run(run).current == Some(id) ==> IsArmed(Run(run), id) || IsPending(Run(run), id)
  {
    if run == [] {
    } else {
      hide Do, BeginsNow, FiresNow, SavesNow, IsPending, IsArmed, Orderly;
      var before := run[..|run| - 1];
      var s, last := Run(before), run[|run| - 1];
      SavesOnTheWay(before, id);
      SingleFlight(before);
      CurrentAfter(s, last, id);
      FlagsAfter(s, last, id);
      SavesKnown(s, last, id);
      if s.current == Some(id) && Do(s, last).current == Some(id) {
        ArmedAfter(s, last, id);
      }
    }
  }

  lemma SavesKnown(s: State, step: Step, id: nat)
    ensures SavesNow(s, step, id) ==> id < |s.watchers| && s.current == Some(id)
  {
  }

  // ---- Which saves are left behind ----

  /** The watcher is stopped, or replaced by a new one, while its timer is armed. */
  predicate StopsNow(s: State, step: Step, id: nat) {
    (step.Start? || step.Stop?) && IsArmed(s, id)
  }

  /** After the watcher's last build began, a file was saved and then a timer fired. */
  predicate SavedAndFired(run: seq<Step>, id: nat) {
    run != [] &&
    var (before, last) := (run[..|run| - 1], run[|run| - 1]);
    && !BeginsNow(Run(before), last, id)
    && ((FiresNow(Run(before), last, id) && SavedSince(before, id)) || SavedAndFired(before, id))
  }

  /** The watcher's last build failed or left no patch, after a save whose timer fired while it ran. */
  predicate LostToFailure(run: seq<Step>, id: nat) {
    run != [] &&
    var (before, last) := (run[..|run| - 1], run[|run| - 1]);
    && !BeginsNow(Run(before), last, id)
    && ((FailsNow(Run(before), last, id) && SavedAndFired(before, id)) || LostToFailure(before, id))
  }

  /** Since its last build began the watcher was stopped or replaced, after a save and before the save's timer fired. */
  predicate LostToStop(run: seq<Step>, id: nat) {
    run != [] &&
    var (before, last) := (run[..|run| - 1], run[|run| - 1]);
    && !BeginsNow(Run(before), last, id)
    && ((StopsNow(Run(before), last, id) && SavedSince(before, id)) || LostToStop(before, id))
  }

  lemma ArmedKept(s: State, step: Step, id: nat)
    requires Orderly(s, id)
    ensures IsArmed(s, id) && !FiresNow(s, step, id) && !StopsNow(s, step, id) ==> IsArmed(Do(s, step), id)
    ensures SavesNow(s, step, id) ==> IsArmed(Do(s, step), id)
  {
    hide RunsOf;
    if step.Built? || step.Applied? {
      ArmedResume(s, step, id);
    }
  }

  lemma {:induction false} LostMeansSaved(run: seq<Step>, id: nat)
    ensures SavedAndFired(run, id) ==> SavedSince(run, id) && FiredSince(run, id)
    ensures LostToFailure(run, id) || LostToStop(run, id) ==> SavedSince(run, id)
  {
    if run == [] {
    } else {
      hide Do, BeginsNow, FiresNow, FailsNow, SavesNow, StopsNow;
      LostMeansSaved(run[..|run| - 1], id);
    }
  }

  /** A save without a build after it is awaited by an armed timer or by the run in progress, or has been lost in one of two ways. */
  lemma {:induction false} SavesAccounted(run: seq<Step>, id: nat)
    ensures SavedSince(run, id) ==>
      || IsArmed(Run(run), id) || (IsRunning(Run(run), id) && SavedAndFired(run, id))
      || LostToFailure(run, id) || LostToStop(run, id)
  {
    if run == [] {
    } else {
      hide Do, BeginsNow, FiresNow, FailsNow, ReturnsNow, SavesNow, StopsNow, IsPending, IsRunning, IsArmed, Orderly;
      var before := run[..|run| - 1];
      var s, last := Run(before), run[|run| - 1];
      SavesAccounted(before, id);
      LostMeansSaved(before, id);
      PendingMeansFired(before, id);
      SingleFlight(before);
      assert Orderly(s, id);
      ArmedKept(s, last, id);
      FlagsAfter(s, last, id);
      RestingStep(s, last, id);
    }
  }

  /**
   Once a watcher is at rest with no timer armed, whether it is still current or not: a save is left without
   a build if and only if the last build failed or left no patch after the save's timer had fired, or the
   watcher was stopped or replaced before it fired.
   */
  lemma NoSaveLost(run: seq<Step>, id: nat)
    ensures !IsArmed(Run(run), id) && !IsRunning(Run(run), id) ==>
              (SavedSince(run, id) <==> LostToFailure(run, id) || LostToStop(run, id))
  {
    hide Run, SavedSince, SavedAndFired, LostToFailure, LostToStop;
    SavesAccounted(run, id);
    LostMeansSaved(run, id);
  }

  // ---- Builds of different watchers ----

  /** A timer starts a run of the current watcher while a run of another one is suspended. */
  ghost predicate OverlapsNow(s: State, step: Step) {
    && step.Fire? && Fires(s) && !s.watchers[s.current.value].running
    && exists id: nat :: id != s.current.value && IsRunning(s, id)
  }

  ghost predicate NeverTwo(run: seq<Step>) {
    forall k: nat :: k <= |run| ==> |Run(run[..k]).runs| <= 1
  }

  ghost predicate NeverOverlaps(run: seq<Step>) {
    forall k: nat :: k < |run| ==> !OverlapsNow(Run(run[..k]), run[k])
  }

  lemma SomeRunning(s: State)
    requires Inv(s)
    ensures s.runs != multiset{} <==> exists id: nat :: IsRunning(s, id)
  {
    if s.runs != multiset{} {
      var r :| r in s.runs;
      assert Orderly(s, r.id);
      assert RunsOf(s, r.id) > 0 by {
        match r.at
        case Building => assert r == Suspended(r.id, Building);
        case Applying => assert r == Suspended(r.id, Applying);
      }
      assert IsRunning(s, r.id);
    }
    if id: nat :| IsRunning(s, id) {
      assert Orderly(s, id);
      assert Suspended(id, Building) in s.runs || Suspended(id, Applying) in s.runs;
    }
  }

  lemma RunsAfter(s: State, step: Step)
    ensures |Do(s, step).runs| <= |s.runs| ||
            (step.Fire? && Fires(s) && !s.watchers[s.current.value].running && |Do(s, step).runs| == |s.runs| + 1)
    ensures step.Fire? && Fires(s) && !s.watchers[s.current.value].running ==> |Do(s, step).runs| == |s.runs| + 1
  {
    match step
    case Fire =>
    case Built(id, _) => OneRunLess(s.runs, Suspended(id, Building));
    case Applied(id) => OneRunLess(s.runs, Suspended(id, Applying));
    case _ =>
  }

  lemma OneRunLess(runs: multiset<Suspended>, r: Suspended)
    ensures r in runs ==> |runs - multiset{r}| == |runs| - 1
  {
    if r in runs {
      assert runs == runs - multiset{r} + multiset{r};
    }
  }

  lemma OverlapMeansTwo(s: State, step: Step)
    requires Inv(s) && |s.runs| <= 1
    ensures |Do(s, step).runs| <= 1 <==> !OverlapsNow(s, step)
  {
    hide Do;
    RunsAfter(s, step);
    SomeRunning(s);
    if step.Fire? && Fires(s) && !s.watchers[s.current.value].running {
      assert !IsRunning(s, s.current.value);
      if s.runs == multiset{} {
        assert |s.runs| == 0;
      } else {
        var id: nat :| IsRunning(s, id);
        assert id != s.current.value && |s.runs| == 1;
      }
    }
  }

  /**
   Across all watchers there is never more than one run in progress if and only if no timer of the current
   watcher starts one while a run of another watcher is suspended.
   */
  lemma {:induction false} OneRunAcrossWatchers(run: seq<Step>)
    ensures NeverTwo(run) <==> NeverOverlaps(run)
  {
    if run == [] {
      assert |Run(run[..0]).runs| == 0;
    } else {
      hide Do, OverlapsNow, Run;
      var last := |run| - 1;
      var before := run[..last];
      OneRunAcrossWatchers(before);
      SingleFlight(before);
      LastRun(run);
      assert before[..last] == before;
      if NeverTwo(before) {
        assert |Run(before[..last]).runs| <= 1;
        OverlapMeansTwo(Run(before), run[last]);
      }
      NeverStep(run);
    }
  }

  lemma LastRun(run: seq<Step>)
    requires run != []
    ensures Run(run) == Do(Run(run[..|run| - 1]), run[|run| - 1])
  {
  }

  lemma NeverStep(run: seq<Step>)
    requires run != []
    ensures var before := run[..|run| - 1];
      && (NeverTwo(run) <==> NeverTwo(before) && |Run(run).runs| <= 1)
      && (NeverOverlaps(run) <==> NeverOverlaps(before) && !OverlapsNow(Run(before), run[|run| - 1]))
  {
    hide OverlapsNow, Run;
    var last := |run| - 1;
    var before := run[..last];
    assert run[..|run|] == run;
    forall k: nat | k <= last ensures run[..k] == before[..k] && (k < last ==> run[k] == before[k]) {
    }
    if NeverTwo(run) {
      forall k: nat | k <= last ensures |Run(before[..k]).runs| <= 1 {
        assert |Run(run[..k]).runs| <= 1;
      }
    }
    if NeverTwo(before) && |Run(run).runs| <= 1 {
      forall k: nat | k <= |run| ensures |Run(run[..k]).runs| <= 1 {
        if k <= last {
          assert |Run(before[..k]).runs| <= 1;
        }
      }
    }
    if NeverOverlaps(run) {
      forall k: nat | k < last ensures !OverlapsNow(Run(before[..k]), before[k]) {
        assert !OverlapsNow(Run(run[..k]), run[k]);
      }
      assert !OverlapsNow(Run(run[..last]), run[last]);
    }
    if NeverOverlaps(before) && !OverlapsNow(Run(before), run[last]) {
      forall k: nat | k < |run| ensures !OverlapsNow(Run(run[..k]), run[k]) {
        if k < last {
          assert !OverlapsNow(Run(before[..k]), before[k]);
        }
      }
    }
  }

  lemma RunAppend(before: seq<Step>, step: Step)
    ensures Run(before + [step]) == Do(Run(before), step)
    ensures forall id :: SavedSince(before + [step], id) <==>
      !BeginsNow(Run(before), step, id) && (SavesNow(Run(before), step, id) || SavedSince(before, id))
  {
    assert (before + [step])[..|before|] == before;
  }

  const DURING_FAILURE := [Start, Save(false), Fire] + [Save(false)] + [Fire] + [Built(0, false)]

  /** A save whose timer fires during a failing build is left without a build until the next save. */
  lemma SaveLost()
    ensures var s := Run(DURING_FAILURE);
      SavedSince(DURING_FAILURE, 0) && s.current == Some(0) && s.watchers == [Watcher(false, true, false)] && s.runs == multiset{}
  {
    hide Run, SavedSince;
    FirstBuild();
    var run := [Start, Save(false), Fire];
    RunAppend(run, Save(false));
    RunAppend(run + [Save(false)], Fire);
    RunAppend(run + [Save(false)] + [Fire], Built(0, false));
  }

  /** A save is lost when the watcher is restarted before its timer fires. */
  lemma RestartLosesSave()
    ensures var run := [Start] + [Save(false)] + [Start];
      && SavedSince(run, 0) && Run(run).current == Some(1)
      && Run(run).watchers == [Watcher(false, false, false), Watcher(false, false, false)] && Run(run).runs == multiset{}
  {
    hide Run, SavedSince;
    EmptyRun();
    RunAppend([], Start);
    assert [] + [Start] == [Start];
    RunAppend([Start], Save(false));
    RunAppend([Start] + [Save(false)], Start);
  }

  lemma FirstBuild()
    ensures Run([Start, Save(false), Fire]) ==
      State(Some(0), [Watcher(true, false, false)], multiset{Suspended(0, Building)})
  {
    hide Run, SavedSince;
    assert Run([]) == INIT by {
      EmptyRun();
    }
    RunAppend([], Start);
    RunAppend([Start], Save(false));
    RunAppend([Start] + [Save(false)], Fire);
    assert [] + [Start] == [Start];
    assert [Start] + [Save(false)] + [Fire] == [Start, Save(false), Fire];
  }

  lemma EmptyRun()
    ensures Run([]) == INIT
  {
  }

  /** Single flight holds for each watcher, not across a restart: a new watcher builds while the old one's build still runs. */
  lemma RestartBuildsTwice()
    ensures var run := [Start, Save(false), Fire] + [Start] + [Save(false)] + [Fire];
      Run(run).runs == multiset{Suspended(0, Building), Suspended(1, Building)}
  {
    hide Run, SavedSince;
    FirstBuild();
    var run := [Start, Save(false), Fire];
    RunAppend(run, Start);
    RunAppend(run + [Start], Save(false));
    RunAppend(run + [Start] + [Save(false)], Fire);
  }
}
