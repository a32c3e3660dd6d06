/**
 What a watcher of the edit-and-continue rebuild still does after it is stopped or replaced.
 */
module RebuildStops {
  import opened Results
  import opened RebuildLoop

  /** How many builds of a watcher begin in a run from its k-th step on. */
  function BuildsFrom(run: seq<Step>, k: nat, id: nat): nat {
    if |run| <= k then 0
    else
      var before := run[..|run| - 1];
      BuildsFrom(before, k, id) + if BeginsNow(Run(before), run[|run| - 1], id) then 1 else 0
  }

  function Pending(s: State, id: nat): nat {
    if IsPending(s, id) then 1 else 0
  }

  lemma StopEnds(s: State, stop: Step, id: nat)
    requires stop.Start? || stop.Stop?
    requires id < |s.watchers|
    ensures var s' := Do(s, stop);
      s'.current != Some(id) && id < |s'.watchers| && Pending(s', id) == Pending(s, id)
  {
  }

  lemma StoppedStep(s: State, step: Step, id: nat)
    requires (s.current.Some? ==> HasCurrent(s)) && s.current != Some(id) && id < |s.watchers|
    ensures var s' := Do(s, step);
      && !FiresNow(s, step, id) && s'.current != Some(id) && id < |s'.watchers|
      && Pending(s', id) + (if BeginsNow(s, step, id) then 1 else 0) == Pending(s, id)
  {
    FlagsAfter(s, step, id);
    CurrentAfter(s, step, id);
    hide Do;
  }

  /**
   A watcher that is stopped or replaced never becomes current again and its timer starts no run any more. A build of it
   still begins only if its run was to go round again when it was stopped, and then once: a run that is suspended is
   not cancelled.
   */
  lemma {:induction false} StoppedForGood(run: seq<Step>, k: nat, id: nat)
    requires k < |run| && (run[k].Start? || run[k].Stop?) && id < |Run(run[..k]).watchers|
    ensures var s := Run(run);
      && s.current != Some(id) && id < |s.watchers| && !IsArmed(s, id)
      && (forall step :: !FiresNow(s, step, id))
      && BuildsFrom(run, k + 1, id) + Pending(s, id) == Pending(Run(run[..k]), id)
  {
    hide Do, FiresNow, BeginsNow, Pending;
    var last := |run| - 1;
    var before := run[..last];
    SingleFlight(run);
    assert Orderly(Run(run), id);
    if k == last {
      StopEnds(Run(before), run[last], id);
    } else {
      assert before[..k] == run[..k];
      StoppedForGood(before, k, id);
      SingleFlight(before);
      StoppedStep(Run(before), run[last], id);
    }
    assert forall step :: !FiresNow(Run(run), step, id) by {
      NeverFires(Run(run), id);
    }
  }

  lemma NeverFires(s: State, id: nat)
    requires s.current != Some(id)
    ensures forall step :: !FiresNow(s, step, id)
  {
  }
}
