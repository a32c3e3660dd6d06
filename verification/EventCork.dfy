/**
 The debug event listener: a thread that polls for debugger events and passes them on, and a cork
 that other threads put in and take out. Every step below is atomic; a run is any interleaving of them.
 */
module EventCork {
  import opened Results

  /**
   The debugger produces an event; the polling thread's wait returns (with the oldest event, or
   empty-handed after its second); the polling thread goes through its critical section; another
   thread corks or uncorks.
   */
  datatype Step = Produce | WaitReturns | Section | Cork | Uncork

  /** Events are numbered in the order in which the debugger produces them. */
  datatype State = State(
    corked: bool,
    wasCorked: bool,
    produced: nat,
    queue: seq<nat>,
    waiting: bool,
    received: Option<nat>,
    offered: seq<nat>)

  const INIT := State(false, false, 0, [], true, None, [])

  function Offer(s: State): seq<nat> {
    if s.received.Some? && !s.wasCorked then s.offered + [s.received.value] else s.offered
  }

  /** A step of the polling thread that is not due leaves everything as it is. */
  function Do(s: State, step: Step): State {
    match step
    case Produce => s.(produced := s.produced + 1, queue := s.queue + [s.produced])
    case WaitReturns =>
      if !s.waiting then s
      else if s.queue == [] then s.(waiting := false, received := None)
      else s.(waiting := false, received := Some(s.queue[0]), queue := s.queue[1..])
    case Section =>
      if s.waiting then s
      else s.(waiting := true, received := None, offered := Offer(s), wasCorked := s.corked)
    case Cork => s.(corked := true, wasCorked := true)
    case Uncork => s.(corked := false)
  }

  class DebugEventListener {
    var corked: bool
    var wasCorked: bool
    var offered: seq<nat>

    constructor ()
      ensures !corked && !wasCorked && offered == []
    {
      corked, wasCorked, offered := false, false, [];
    }

    /** What the polling thread does with the lock held, after a wait that received an event or none. */
    method PollSection(received: Option<nat>)
      modifies this
      ensures var before := State(old(corked), old(wasCorked), 0, [], false, received, old(offered));
        var after := Do(before, Section);
        corked == after.corked && wasCorked == after.wasCorked && offered == after.offered
    {
      if received.Some? && !wasCorked {
        offered := offered + [received.value];
      }
      wasCorked := corked;
    }

    method PutCork()
      modifies this`corked, this`wasCorked
      ensures corked && wasCorked
    {
      corked := true;
      wasCorked := true;
    }

    method TakeCorkOut()
      modifies this`corked
      ensures !corked
    {
      corked := false;
    }
  }

  function Run(run: seq<Step>): State {
    if run == [] then INIT else Do(Run(run[..|run| - 1]), run[|run| - 1])
  }

  // ---- The cork, told by the calls alone ----

  /** Whether the last call among the first k steps was one to cork. */
  predicate CorkedAt(run: seq<Step>, k: nat)
    requires k <= |run|
  {
    k > 0 && (run[k - 1] == Cork || (run[k - 1] != Uncork && CorkedAt(run, k - 1)))
  }

  /** The k-th step is a critical section of the polling thread. */
  predicate Polls(run: seq<Step>, k: nat) {
    k < |run| && run[k] == Section && !Run(run[..k]).waiting
  }

  ghost predicate NoPollBetween(run: seq<Step>, k: nat, i: nat) {
    forall j: nat :: k <= j < i ==> !Polls(run, j)
  }

  /** The listener was uncorked at every moment from the previous critical section up to moment i. */
  ghost predicate ClearUpTo(run: seq<Step>, i: nat)
    requires i <= |run|
  {
    forall k: nat :: k <= i && NoPollBetween(run, k, i) ==> !CorkedAt(run, k)
  }

  lemma {:induction false} FlagsTell(run: seq<Step>)
    ensures Run(run).corked == CorkedAt(run, |run|)
    ensures Run(run).wasCorked == !ClearUpTo(run, |run|)
  {
    if run == [] {
      assert ClearUpTo(run, 0);
    } else {
      var last := |run| - 1;
      var before := run[..last];
      FlagsTell(before);
      CorkedInPrefix(run, last, last);
      ClearStep(run);
    }
  }

  lemma {:induction false} CorkedInPrefix(run: seq<Step>, m: nat, k: nat)
    requires k <= m <= |run|
    ensures CorkedAt(run[..m], k) == CorkedAt(run, k)
  {
    if k > 0 {
      CorkedInPrefix(run, m, k - 1);
    }
  }

  lemma PollsInPrefix(run: seq<Step>, m: nat, j: nat)
    requires j < m <= |run|
    ensures Polls(run[..m], j) == Polls(run, j)
  {
    assert run[..m][..j] == run[..j];
  }

  lemma ClearInPrefix(run: seq<Step>, m: nat)
    requires m <= |run|
    ensures ClearUpTo(run[..m], m) == ClearUpTo(run, m)
  {
    forall k: nat | k <= m
      ensures CorkedAt(run[..m], k) == CorkedAt(run, k) && NoPollBetween(run[..m], k, m) == NoPollBetween(run, k, m)
    {
      CorkedInPrefix(run, m, k);
      forall j: nat | j < m ensures Polls(run[..m], j) == Polls(run, j) {
        PollsInPrefix(run, m, j);
      }
    }
  }

  lemma ClearStep(run: seq<Step>)
    requires run != []
    ensures var last := |run| - 1;
      ClearUpTo(run, |run|) <==> !CorkedAt(run, |run|) && (Polls(run, last) || ClearUpTo(run[..last], last))
  {
    var last := |run| - 1;
    ClearInPrefix(run, last);
    assert NoPollBetween(run, |run|, |run|);
    forall k: nat | k <= last
      ensures NoPollBetween(run, k, |run|) == (NoPollBetween(run, k, last) && !Polls(run, last))
    {
    }
  }

  // ---- Which events get through ----

  /**
   A received event is offered to the channel exactly when the listener was uncorked at every moment
   since the critical section before: no event from a wait that overlaps a corked window gets through.
   */
  lemma OfferedExactly(run: seq<Step>)
    requires run != [] && Polls(run, |run| - 1)
    ensures var last := |run| - 1;
      var s := Run(run[..last]);
      Run(run).offered ==
        if s.received.Some? && ClearUpTo(run, last) then s.offered + [s.received.value] else s.offered
  {
    var last := |run| - 1;
    FlagsTell(run[..last]);
    ClearInPrefix(run, last);
  }

  /** The critical section at step i passes event e on. */
  ghost predicate PassesOn(run: seq<Step>, i: nat, e: nat) {
    Polls(run, i) && Run(run[..i]).received == Some(e) && ClearUpTo(run, i)
  }

  lemma PassesOnInPrefix(run: seq<Step>, i: nat, e: nat)
    requires i < |run| - 1
    ensures PassesOn(run[..|run| - 1], i, e) <==> PassesOn(run, i, e)
  {
    var before := run[..|run| - 1];
    PollsInPrefix(run, |run| - 1, i);
    assert before[..i] == run[..i];
    ClearInPrefix(run, i);
    ClearInPrefix(before, i);
  }

  ghost predicate PassedOn(run: seq<Step>, e: nat) {
    exists i: nat :: PassesOn(run, i, e)
  }

  /** Over a whole run, the events offered are those received in a wait clear of the cork. */
  lemma {:induction false} OfferedOverRun(run: seq<Step>, e: nat)
    ensures e in Run(run).offered <==> PassedOn(run, e)
  {
    if run != [] {
      hide ClearUpTo, Do, Polls;
      var last := |run| - 1;
      var before := run[..last];
      OfferedOverRun(before, e);
      OfferedStep(run, e);
      if PassedOn(before, e) {
        var i: nat :| PassesOn(before, i, e);
        PassesOnEarly(before, i, e);
        PassesOnInPrefix(run, i, e);
      }
      if PassedOn(run, e) {
        var i: nat :| PassesOn(run, i, e);
        PassesOnEarly(run, i, e);
        if i < last {
          PassesOnInPrefix(run, i, e);
        }
      }
    } else if PassedOn(run, e) {
      assert false;
    }
  }

  lemma PassesOnEarly(run: seq<Step>, i: nat, e: nat)
    requires PassesOn(run, i, e)
    ensures i < |run|
  {
  }

  lemma OfferedStep(run: seq<Step>, e: nat)
    requires run != []
    ensures e in Run(run).offered <==> e in Run(run[..|run| - 1]).offered || PassesOn(run, |run| - 1, e)
  {
    if Polls(run, |run| - 1) {
      OfferedExactly(run);
    }
  }

  /** The critical section at step i deals with event e, whether it passes it on or drops it. */
  ghost predicate DealtWithAt(run: seq<Step>, i: nat, e: nat) {
    Polls(run, i) && Run(run[..i]).received == Some(e)
  }

  ghost predicate DealtWith(run: seq<Step>, e: nat) {
    exists i: nat :: DealtWithAt(run, i, e)
  }

  lemma DealtWithLater(run: seq<Step>, e: nat)
    requires run != []
    ensures DealtWith(run, e) <==> DealtWith(run[..|run| - 1], e) || DealtWithAt(run, |run| - 1, e)
  {
    var last := |run| - 1;
    var before := run[..last];
    forall i: nat | i < last ensures DealtWithAt(before, i, e) <==> DealtWithAt(run, i, e) {
      PollsInPrefix(run, last, i);
      assert before[..i] == run[..i];
    }
  }

  /**
   No event gets lost but in a critical section: each one produced is still queued, or received and about to be dealt
   with, or has been dealt with in a critical section, and so was offered unless the cork was in.
   */
  lemma {:induction false} EveryEventDealtWith(run: seq<Step>, e: nat)
    ensures var s := Run(run);
      e < s.produced <==> e in s.queue || s.received == Some(e) || DealtWith(run, e)
  {
    if run == [] {
      assert !DealtWith(run, e);
    } else {
      hide Do, DealtWith, Inv;
      var last := |run| - 1;
      EveryEventDealtWith(run[..last], e);
      DealtWithLater(run, e);
      RunKeeps(run[..last]);
      OneStep(Run(run[..last]), run[last], e);
    }
  }

  /** A step moves an event on its way, and only the critical section takes one off it. */
  lemma OneStep(s: State, step: Step, e: nat)
    requires Inv(s)
    ensures var s' := Do(s, step);
      && (e < s'.produced <==> e < s.produced || (step == Produce && e == s.produced))
      && (e in s'.queue || s'.received == Some(e) || (step == Section && !s.waiting && s.received == Some(e)) <==>
            e in s.queue || s.received == Some(e) || (step == Produce && e == s.produced))
  {
    assert s.queue != [] ==> s.queue == [s.queue[0]] + s.queue[1..];
  }

  /** Once uncorked with nothing to read, one idle round of the polling thread suffices: the next event is offered. */
  lemma OfferedAfterIdleRound(run: seq<Step>)
    requires Run(run).waiting && Run(run).queue == [] && !Run(run).corked
    ensures var s := Run(run);
      var later := run + [WaitReturns] + [Section] + [Produce] + [WaitReturns] + [Section];
      Run(later).offered == s.offered + [s.produced]
  {
    hide Run;
    RunAppend(run, WaitReturns);
    RunAppend(run + [WaitReturns], Section);
    RunAppend(run + [WaitReturns] + [Section], Produce);
    RunAppend(run + [WaitReturns] + [Section] + [Produce], WaitReturns);
    RunAppend(run + [WaitReturns] + [Section] + [Produce] + [WaitReturns], Section);
  }

  // ---- Order ----

  /** The next events to handle are numbered consecutively, after everything already offered. */
  ghost predicate Inv(s: State) {
    && |s.queue| <= s.produced
    && (forall k :: 0 <= k < |s.queue| ==> s.queue[k] == s.produced - |s.queue| + k)
    && (s.received.Some? ==> !s.waiting && s.received.value + 1 + |s.queue| == s.produced)
    && (forall k :: 0 <= k < |s.offered| ==> s.offered[k] + |s.queue| < s.produced)
    && (s.received.Some? ==> forall k :: 0 <= k < |s.offered| ==> s.offered[k] < s.received.value)
    && (forall j, k :: 0 <= j < k < |s.offered| ==> s.offered[j] < s.offered[k])
    && (s.corked ==> s.wasCorked)
  }

  lemma DoKeeps(s: State, step: Step)
    requires Inv(s)
    ensures Inv(Do(s, step))
  {
  }

  /** In every run events are offered in the order of their production and none of them twice. */
  lemma {:induction false} RunKeeps(run: seq<Step>)
    ensures Inv(Run(run))
  {
    if run != [] {
      hide Inv;
      RunKeeps(run[..|run| - 1]);
      DoKeeps(Run(run[..|run| - 1]), run[|run| - 1]);
    } else {
      assert Inv(INIT);
    }
  }

  // ---- Events produced behind the cork ----

  lemma {:induction false} ProducedGrows(run: seq<Step>, i: nat)
    requires i <= |run|
    ensures Run(run[..i]).produced <= Run(run).produced
  {
    if i < |run| {
      assert run[..|run| - 1][..i] == run[..i];
      ProducedGrows(run[..|run| - 1], i);
    } else {
      assert run[..i] == run;
    }
  }

  ghost predicate ProducedAt(run: seq<Step>, t: nat, e: nat) {
    t < |run| && run[t] == Produce && Run(run[..t]).produced == e
  }

  /** An event produced while the listener is corked gets through only behind an earlier poll of the same backlog. */
  lemma LeakNeedsBacklog(run: seq<Step>, t: nat, i: nat, e: nat)
    requires ProducedAt(run, t, e) && CorkedAt(run, t) && PassesOn(run, i, e)
    ensures exists p: nat :: t < p < i && Polls(run, p)
  {
    RunKeeps(run[..i]);
    if i <= t {
      assert run[..t][..i] == run[..i];
      ProducedGrows(run[..t], i);
      assert false;
    }
    assert !NoPollBetween(run, t, i);
    var p: nat :| t <= p < i && Polls(run, p);
  }

  /** The event is next in line while the cork is remembered, or has been dealt with and not offered. */
  ghost predicate Doomed(s: State, e: nat) {
    && Inv(s)
    && e !in s.offered
    && (|| (s.wasCorked && s.waiting && s.queue != [] && s.queue[0] == e)
        || (s.wasCorked && s.received == Some(e))
        || (e + |s.queue| < s.produced && s.received != Some(e)))
  }

  lemma DoomedStep(s: State, step: Step, e: nat)
    requires Doomed(s, e)
    ensures Doomed(Do(s, step), e)
  {
    DoKeeps(s, step);
  }

  lemma {:induction false} DoomedForever(run: seq<Step>, m: nat, e: nat)
    requires m <= |run| && Doomed(Run(run[..m]), e)
    ensures Doomed(Run(run), e)
    decreases |run|
  {
    hide Doomed;
    if m < |run| {
      var before := run[..|run| - 1];
      assert before[..m] == run[..m];
      DoomedForever(before, m, e);
      DoomedStep(Run(before), run[|run| - 1], e);
    } else {
      assert run[..m] == run;
    }
  }

  /** An event produced while the listener is corked and the polling thread has nothing else to read is never offered. */
  lemma CorkedEventDropped(run: seq<Step>, t: nat, e: nat)
    requires ProducedAt(run, t, e) && CorkedAt(run, t)
    requires Run(run[..t]).waiting && Run(run[..t]).queue == []
    ensures e !in Run(run).offered
  {
    RunKeeps(run[..t]);
    FlagsTell(run[..t]);
    CorkedInPrefix(run, t, t);
    assert run[..t + 1][..t] == run[..t];
    DoKeeps(Run(run[..t]), Produce);
    assert Run(run[..t + 1]) == Do(Run(run[..t]), Produce);
    assert Doomed(Run(run[..t + 1]), e);
    DoomedForever(run, t + 1, e);
  }

  lemma RunAppend(before: seq<Step>, step: Step)
    ensures Run(before + [step]) == Do(Run(before), step)
  {
    assert (before + [step])[..|before|] == before;
  }

  const BACKLOG := [Cork, Produce, Produce, Uncork, WaitReturns, Section, WaitReturns, Section]

  /** With a backlog, an event that was produced between the two calls does get through. */
  lemma BacklogLeaks()
    ensures Run(BACKLOG).offered == [1] && ProducedAt(BACKLOG, 2, 1) && CorkedAt(BACKLOG, 2)
  {
    hide Run;
    AfterCork();
    var run := [Cork, Produce, Produce, Uncork];
    RunAppend(run, WaitReturns);
    RunAppend(run + [WaitReturns], Section);
    var run2 := run + [WaitReturns] + [Section];
    assert Run(run2) == State(false, false, 2, [1], true, None, []);
    RunAppend(run2, WaitReturns);
    RunAppend(run2 + [WaitReturns], Section);
    assert BACKLOG == run2 + [WaitReturns] + [Section];
    assert BACKLOG[..2] == [Cork, Produce];
  }

  lemma AfterCork()
    ensures Run([Cork, Produce]).produced == 1
    ensures Run([Cork, Produce, Produce, Uncork]) == State(false, true, 2, [0, 1], true, None, [])
  {
    assert Run([]) == INIT;
    RunAppend([], Cork);
    RunAppend([Cork], Produce);
    RunAppend([Cork, Produce], Produce);
    RunAppend([Cork, Produce, Produce], Uncork);
    assert [] + [Cork] == [Cork];
    assert [Cork] + [Produce] == [Cork, Produce];
    assert [Cork, Produce] + [Produce] == [Cork, Produce, Produce];
    assert [Cork, Produce, Produce] + [Uncork] == [Cork, Produce, Produce, Uncork];
  }
}
