/**
 Cancellation over whole runs: the filter, with its pruned tables and its 16-bit counters,
 behaves like a plain list of requests in which every unfinished one can be found.
 */
module CancellationRuns {
  import opened Results
  import opened Cancellation

  // ---- The plain list ----

  /**
   A request as it arrived, the receivers its handlers hold, whether it was told to cancel, and whether
   some later request arrived while no receivers could be counted.
   */
  datatype Entry = Entry(number: nat, kind: Kind, receivers: nat, cancelled: bool, gone: bool)

  /** The number of receivers differs from 0 as far as 16 bits can tell. */
  predicate Counted(e: Entry) {
    e.receivers % 0x1_0000 != 0
  }

  predicate Unfinished(e: Entry) {
    !e.kind.Cancel? && !e.gone && Counted(e)
  }

  /** The latest request with a number, among the first n that were passed on. */
  function Latest(log: seq<Entry>, n: nat, number: nat): (r: Option<nat>)
    requires n <= |log|
    ensures r.Some? ==> r.value < n && log[r.value].number == number && !log[r.value].kind.Cancel?
  {
    if n == 0 then None
    else if log[n - 1].number == number && !log[n - 1].kind.Cancel? then Some(n - 1)
    else Latest(log, n - 1, number)
  }

  /** Whether an incoming request cancels the request at index j. */
  predicate Reaches(log: seq<Entry>, kind: Kind, j: nat)
    requires j < |log|
  {
    Unfinished(log[j]) &&
    match kind
    case Resumption => log[j].kind.Inspection?
    case Cancel(id) => id.Some? && Latest(log, |log|, Number(id.value)) == Some(j)
    case _ => false
  }

  function Arrive(log: seq<Entry>, number: nat, kind: Kind): seq<Entry> {
    seq(|log|, j requires 0 <= j < |log| =>
      log[j].(cancelled := log[j].cancelled || Reaches(log, kind, j), gone := log[j].gone || !Counted(log[j])))
    + [Entry(number, kind, if kind.Cancel? then 0 else 1, false, false)]
  }

  // ---- Runs ----

  datatype Step = Incoming(number: nat, kind: Kind) | Cloned(token: nat) | Dropped(token: nat)

  /** Receivers come from receivers. */
  predicate Enabled(log: seq<Entry>, step: Step) {
    match step
    case Incoming(_, _) => true
    case Cloned(i) => i < |log| && 0 < log[i].receivers
    case Dropped(i) => i < |log| && 0 < log[i].receivers
  }

  function NextLog(log: seq<Entry>, step: Step): seq<Entry>
    requires Enabled(log, step)
  {
    match step
    case Incoming(number, kind) => Arrive(log, number, kind)
    case Cloned(i) => log[i := log[i].(receivers := log[i].receivers + 1)]
    case Dropped(i) => log[i := log[i].(receivers := log[i].receivers - 1)]
  }

  function NextState(s: State, step: Step): State {
    match step
    case Incoming(number, kind) => Receive(s, number, kind)
    case Cloned(i) => if i < |s.tokens| then Clone(s, i) else s
    case Dropped(i) => if i < |s.tokens| then Drop(s, i) else s
  }

  // ---- The filter's tables agree with the list ----

  /** The requests of the list that are passed on, in order. */
  function Passed(log: seq<Entry>, n: nat): seq<Forwarded>
    requires n <= |log|
  {
    if n == 0 then []
    else Passed(log, n - 1) + (if log[n - 1].kind.Cancel? then [] else [Forwarded(log[n - 1].number, log[n - 1].kind, n - 1)])
  }

  predicate TokensAgree(s: State, log: seq<Entry>) {
    |s.tokens| == |log| &&
    forall j :: 0 <= j < |log| ==>
      && s.tokens[j].flag == log[j].cancelled && s.tokens[j].receiverCount == log[j].receivers % 0x1_0000
      && (log[j].kind.Cancel? ==> log[j].receivers == 0)
  }

  /** Every latest request that is neither gone nor cancelled is pending, and only latest requests are. */
  ghost predicate PendingAgrees(s: State, log: seq<Entry>) {
    && (forall n :: n in s.pending ==> Latest(log, |log|, n) == Some(s.pending[n]) && !log[s.pending[n]].gone)
    && (forall n: nat :: Latest(log, |log|, n).Some? && n !in s.pending ==>
          var e := log[Latest(log, |log|, n).value]; e.cancelled || e.gone)
  }

  ghost predicate CancellableAgrees(s: State, log: seq<Entry>) {
    forall j :: j in s.cancellable <==> 0 <= j < |log| && log[j].kind.Inspection? && !log[j].gone
  }

  ghost predicate Agrees(s: State, log: seq<Entry>) {
    TokensAgree(s, log) && PendingAgrees(s, log) && CancellableAgrees(s, log) && s.sent == Passed(log, |log|)
  }

  // ---- Lemmas about the tables ----

  lemma {:induction false} KeepLiveMembers(s: State, list: seq<nat>)
    ensures forall j :: j in KeepLive(s, list) <==> j in list && HasReceivers(s, j)
  {
    if list == [] {
    } else {
      KeepLiveMembers(s, list[1..]);
      assert forall j :: j in list <==> j == list[0] || j in list[1..];
    }
  }

  lemma {:induction false} SendAllFlags(tokens: seq<Token>, list: seq<nat>)
    ensures |SendAll(tokens, list)| == |tokens|
    ensures forall j :: 0 <= j < |tokens| ==> SendAll(tokens, list)[j] == tokens[j].(flag := tokens[j].flag || j in list)
    decreases |list|
  {
    if list == [] {
    } else {
      SendAllFlags(Send(tokens, list[0]), list[1..]);
      assert forall j :: j in list <==> j == list[0] || j in list[1..];
    }
  }

  lemma {:induction false} LatestSame(log: seq<Entry>, log': seq<Entry>, n: nat, number: nat)
    requires n <= |log| && n <= |log'|
    requires forall j :: 0 <= j < n ==> log'[j].number == log[j].number && log'[j].kind == log[j].kind
    ensures Latest(log', n, number) == Latest(log, n, number)
  {
    if n > 0 {
      LatestSame(log, log', n - 1, number);
    }
  }

  lemma {:induction false} PassedSame(log: seq<Entry>, log': seq<Entry>, n: nat)
    requires n <= |log| && n <= |log'|
    requires forall j :: 0 <= j < n ==> log'[j].number == log[j].number && log'[j].kind == log[j].kind
    ensures Passed(log', n) == Passed(log, n)
  {
    if n > 0 {
      PassedSame(log, log', n - 1);
    }
  }

  /** A request that arrives becomes the latest with its number unless it is a cancel request. */
  lemma LatestArrive(log: seq<Entry>, number: nat, kind: Kind)
    ensures var log' := Arrive(log, number, kind);
      && |log'| == |log| + 1
      && Passed(log', |log'|) == Passed(log, |log|) + (if kind.Cancel? then [] else [Forwarded(number, kind, |log|)])
      && forall n: nat :: Latest(log', |log'|, n) == if n == number && !kind.Cancel? then Some(|log|) else Latest(log, |log|, n)
  {
    var log' := Arrive(log, number, kind);
    PassedSame(log, log', |log|);
    forall n: nat
      ensures Latest(log', |log'|, n) == if n == number && !kind.Cancel? then Some(|log|) else Latest(log, |log|, n)
    {
      LatestSame(log, log', |log|, n);
    }
  }

  /** Adding a token and pruning: only unfinished requests stay in the tables. */
  lemma Pruned(s: State, log: seq<Entry>)
    requires Agrees(s, log)
    ensures var s1 := Prune(s.(tokens := s.tokens + [Subscribe(Token(false, 0))]));
      && s1.tokens == s.tokens + [Token(false, 1)] && s1.sent == s.sent
      && (forall n :: n in s1.pending <==> n in s.pending && Counted(log[s.pending[n]]))
      && (forall n :: n in s1.pending ==> s1.pending[n] == s.pending[n] && s1.pending[n] < |log|)
      && (forall j :: j in s1.cancellable <==> 0 <= j < |log| && log[j].kind.Inspection? && !log[j].gone && Counted(log[j]))
  {
    var s0 := s.(tokens := s.tokens + [Subscribe(Token(false, 0))]);
    KeepLiveMembers(s0, s0.cancellable);
  }

  // ---- Every step keeps the agreement ----

  lemma TokensAfter(s: State, log: seq<Entry>, number: nat, kind: Kind)
    requires Agrees(s, log)
    ensures TokensAgree(Receive(s, number, kind), Arrive(log, number, kind))
  {
    hide KeepLive, SendAll, Prune, Subscribe, Unsubscribe, Latest, Passed, PendingAgrees;
    Pruned(s, log);
    NewToken();
    var s1 := Prune(s.(tokens := s.tokens + [Subscribe(Token(false, 0))]));
    SendAllFlags(s1.tokens, s1.cancellable);
    var s', log' := Receive(s, number, kind), Arrive(log, number, kind);
    forall j | 0 <= j < |log|
      ensures s'.tokens[j] == s.tokens[j].(flag := s.tokens[j].flag || Reaches(log, kind, j))
    {
      if kind.Cancel? && kind.requestId.Some? {
        CancelReaches(s, log, s1, kind, j);
      }
    }
  }

  lemma NewToken()
    ensures Subscribe(Token(false, 0)) == Token(false, 1) && Unsubscribe(Token(false, 1)) == Token(false, 0)
  {
  }

  /** An explicit cancel finds exactly the latest request with its number, if that is unfinished and not yet cancelled. */
  lemma CancelReaches(s: State, log: seq<Entry>, s1: State, kind: Kind, j: nat)
    requires Agrees(s, log) && j < |log| && kind.Cancel? && kind.requestId.Some?
    requires forall n :: n in s1.pending <==> n in s.pending && Counted(log[s.pending[n]])
    requires forall n :: n in s1.pending ==> s1.pending[n] == s.pending[n] && s1.pending[n] < |log|
    ensures var n := Number(kind.requestId.value);
      && (n in s1.pending && s1.pending[n] == j ==> Reaches(log, kind, j))
      && (Reaches(log, kind, j) ==> log[j].cancelled || (n in s1.pending && s1.pending[n] == j))
  {
  }

  function WithToken(s: State): State {
    Prune(s.(tokens := s.tokens + [Subscribe(Token(false, 0))]))
  }

  /** What an arrival does to the tables, once they are pruned. */
  lemma ReceiveTables(s: State, number: nat, kind: Kind)
    ensures var s1, s' := WithToken(s), Receive(s, number, kind);
      && s'.cancellable == (if kind.Inspection? then s1.cancellable + [|s.tokens|] else s1.cancellable)
      && s'.pending == (if kind.Cancel? then
                          if kind.requestId.Some? then s1.pending - {Number(kind.requestId.value)} else s1.pending
                        else s1.pending[number := |s.tokens|])
  {
    hide Prune, SendAll, Subscribe, Unsubscribe;
  }

  lemma TablesAfter(s: State, log: seq<Entry>, number: nat, kind: Kind)
    requires Agrees(s, log)
    ensures var s', log' := Receive(s, number, kind), Arrive(log, number, kind);
      PendingAgrees(s', log') && CancellableAgrees(s', log')
  {
    assert |s.tokens| == |log|;
    Pruned(s, log);
    ReceiveTables(s, number, kind);
    LatestArrive(log, number, kind);
    hide Receive, Latest, Passed, Prune, Subscribe, TokensAgree;
    PendingAfter(s, log, number, kind);
  }

  lemma PendingAfter(s: State, log: seq<Entry>, number: nat, kind: Kind)
    requires PendingAgrees(s, log) && |s.tokens| == |log|
    requires var s1 := WithToken(s);
      && (forall n :: n in s1.pending <==> n in s.pending && Counted(log[s.pending[n]]))
      && (forall n :: n in s1.pending ==> s1.pending[n] == s.pending[n] && s1.pending[n] < |log|)
    ensures PendingAgrees(Receive(s, number, kind), Arrive(log, number, kind))
  {
    ReceiveTables(s, number, kind);
    LatestArrive(log, number, kind);
    hide Receive, Latest, Passed, WithToken;
    var s', log' := Receive(s, number, kind), Arrive(log, number, kind);
    forall n: nat | Latest(log', |log'|, n).Some? && n !in s'.pending
      ensures var e := log'[Latest(log', |log'|, n).value]; e.cancelled || e.gone
    {
      var j := Latest(log', |log'|, n).value;
      assert j < |log|;
      if kind.Cancel? && kind.requestId.Some? && n == Number(kind.requestId.value) && Unfinished(log[j]) {
        assert Reaches(log, kind, j);
      }
    }
  }

  lemma StepAgrees(s: State, log: seq<Entry>, step: Step)
    requires Agrees(s, log) && Enabled(log, step)
    ensures Agrees(NextState(s, step), NextLog(log, step))
  {
    match step
    case Incoming(number, kind) =>
      hide TokensAgree, PendingAgrees, CancellableAgrees, Arrive, Latest, Passed, Prune, SendAll;
      TokensAfter(s, log, number, kind);
      TablesAfter(s, log, number, kind);
      LatestArrive(log, number, kind);
    case Cloned(i) =>
      hide PendingAgrees, CancellableAgrees, Latest, Passed;
      ReceiversChange(s, log, i, log[i].receivers + 1, NextState(s, step));
    case Dropped(i) =>
      hide PendingAgrees, CancellableAgrees, Latest, Passed;
      ReceiversChange(s, log, i, log[i].receivers - 1, NextState(s, step));
  }

  /** Changing the number of receivers of an unfinished request changes nothing else. */
  lemma ReceiversChange(s: State, log: seq<Entry>, i: nat, receivers: nat, s': State)
    requires Agrees(s, log) && i < |log| && log[i].receivers > 0
    requires s' == s.(tokens := s.tokens[i := s.tokens[i].(receiverCount := receivers % 0x1_0000)])
    ensures Agrees(s', log[i := log[i].(receivers := receivers)])
  {
    hide Latest, Passed;
    var log' := log[i := log[i].(receivers := receivers)];
    PassedSame(log, log', |log|);
    forall n: nat ensures Latest(log', |log'|, n) == Latest(log, |log|, n) {
      LatestSame(log, log', |log|, n);
    }
  }

  predicate IsRun(log: seq<Entry>, steps: seq<Step>)
    decreases |steps|
  {
    steps == [] || (Enabled(log, steps[0]) && IsRun(NextLog(log, steps[0]), steps[1..]))
  }

  function AfterState(s: State, steps: seq<Step>): State
    decreases |steps|
  {
    if steps == [] then s else AfterState(NextState(s, steps[0]), steps[1..])
  }

  function AfterLog(log: seq<Entry>, steps: seq<Step>): seq<Entry>
    requires IsRun(log, steps)
    decreases |steps|
  {
    if steps == [] then log else AfterLog(NextLog(log, steps[0]), steps[1..])
  }

  lemma {:induction false} RunAgrees(s: State, log: seq<Entry>, steps: seq<Step>)
    requires Agrees(s, log) && IsRun(log, steps)
    ensures Agrees(AfterState(s, steps), AfterLog(log, steps))
    decreases |steps|
  {
    if steps == [] {
    } else {
      StepAgrees(s, log, steps[0]);
      RunAgrees(NextState(s, steps[0]), NextLog(log, steps[0]), steps[1..]);
    }
  }

  /** The requests of a run in the order of arrival, without the cancel requests. */
  function Requests(steps: seq<Step>): seq<(nat, Kind)>
    decreases |steps|
  {
    if steps == [] then []
    else (if steps[0].Incoming? && !steps[0].kind.Cancel? then [(steps[0].number, steps[0].kind)] else []) + Requests(steps[1..])
  }

  function Contents(sent: seq<Forwarded>): seq<(nat, Kind)> {
    seq(|sent|, i requires 0 <= i < |sent| => (sent[i].number, sent[i].kind))
  }

  lemma {:induction false} PassedIsRequests(log: seq<Entry>, steps: seq<Step>)
    requires IsRun(log, steps)
    ensures var log' := AfterLog(log, steps);
      Contents(Passed(log', |log'|)) == Contents(Passed(log, |log|)) + Requests(steps)
    decreases |steps|
  {
    hide Passed, Arrive, Latest, Contents, NextLog;
    if steps != [] {
      var next := NextLog(log, steps[0]);
      PassedStep(log, steps[0]);
      PassedIsRequests(next, steps[1..]);
      var first := if steps[0].Incoming? && !steps[0].kind.Cancel? then [(steps[0].number, steps[0].kind)] else [];
      var before := Contents(Passed(log, |log|));
      assert before + first + Requests(steps[1..]) == before + (first + Requests(steps[1..]));
    } else {
      assert Contents(Passed(log, |log|)) + [] == Contents(Passed(log, |log|));
    }
  }

  lemma PassedStep(log: seq<Entry>, step: Step)
    requires Enabled(log, step)
    ensures var next := NextLog(log, step);
      Contents(Passed(next, |next|)) ==
      Contents(Passed(log, |log|)) + (if step.Incoming? && !step.kind.Cancel? then [(step.number, step.kind)] else [])
  {
    hide Passed;
    match step
    case Incoming(number, kind) => LatestArrive(log, number, kind);
    case Cloned(i) => PassedSame(log, NextLog(log, step), |log|);
    case Dropped(i) => PassedSame(log, NextLog(log, step), |log|);
  }

  // ---- Main results ----

  lemma InitAgrees()
    ensures Agrees(INIT, [])
  {
  }

  /**
   On every run: the requests passed on are those that arrived, without the cancel requests and
   in order; and a token is activated exactly when its request was reached, in the sense of the
   plain list, by a request that arrived later.
   */
  lemma FilterRefinesList(steps: seq<Step>)
    requires IsRun([], steps)
    ensures var s, log := AfterState(INIT, steps), AfterLog([], steps);
      && Contents(s.sent) == Requests(steps)
      && |s.tokens| == |log|
      && forall j :: 0 <= j < |log| ==> s.tokens[j].flag == log[j].cancelled && s.tokens[j].receiverCount == log[j].receivers % 0x1_0000
  {
    InitAgrees();
    RunAgrees(INIT, [], steps);
    PassedIsRequests([], steps);
    assert Contents(Passed([], 0)) + Requests(steps) == Requests(steps);
  }

  /** Some request of the run, arriving when the list was as it then was, reached request j. */
  predicate EverReached(log: seq<Entry>, steps: seq<Step>, j: nat)
    requires IsRun(log, steps)
    decreases |steps|
  {
    steps != [] &&
    ((steps[0].Incoming? && j < |log| && Reaches(log, steps[0].kind, j)) || EverReached(NextLog(log, steps[0]), steps[1..], j))
  }

  lemma {:induction false} CancelledMeansReached(log: seq<Entry>, steps: seq<Step>, j: nat)
    requires IsRun(log, steps) && j < |AfterLog(log, steps)|
    ensures |log| <= |AfterLog(log, steps)|
    ensures AfterLog(log, steps)[j].cancelled <==> (j < |log| && log[j].cancelled) || EverReached(log, steps, j)
    decreases |steps|
  {
    if steps == [] {
    } else {
      CancelledMeansReached(NextLog(log, steps[0]), steps[1..], j);
    }
  }

  /** A token is active at the end of a run exactly if a later resumption or a cancel with its number reached it. */
  lemma ActiveMeansReached(steps: seq<Step>, j: nat)
    requires IsRun([], steps) && j < |AfterLog([], steps)|
    ensures j < |AfterState(INIT, steps).tokens|
    ensures AfterState(INIT, steps).tokens[j].flag <==> EverReached([], steps, j)
  {
    FilterRefinesList(steps);
    CancelledMeansReached([], steps, j);
  }

  /** A resumption activates every earlier unfinished inspection, on any run, and no token of any other request. */
  lemma ResumptionCancels(steps: seq<Step>, number: nat, j: nat)
    requires IsRun([], steps) && j < |AfterLog([], steps)|
    ensures var s, e := AfterState(INIT, steps), AfterLog([], steps)[j];
      var s' := Receive(s, number, Resumption);
      && j < |s.tokens| < |s'.tokens|
      && s'.tokens[j].flag == (e.cancelled || (e.kind.Inspection? && Unfinished(e)))
      && !s'.tokens[|s.tokens|].flag
  {
    InitAgrees();
    RunAgrees(INIT, [], steps);
    StepAgrees(AfterState(INIT, steps), AfterLog([], steps), Incoming(number, Resumption));
  }

  /** A cancel request activates at most the latest request with its number, and that one if it is unfinished. */
  lemma CancelReachesItsNumber(steps: seq<Step>, number: nat, id: int, j: nat)
    requires IsRun([], steps) && j < |AfterLog([], steps)|
    ensures var s, log := AfterState(INIT, steps), AfterLog([], steps);
      var s' := Receive(s, number, Cancel(Some(id)));
      && s'.sent == s.sent && j < |s'.tokens|
      && s'.tokens[j].flag == (log[j].cancelled || (Latest(log, |log|, id % 0x1_0000_0000) == Some(j) && Unfinished(log[j])))
  {
    InitAgrees();
    RunAgrees(INIT, [], steps);
    StepAgrees(AfterState(INIT, steps), AfterLog([], steps), Incoming(number, Cancel(Some(id))));
  }

  /**
   On every run, the arrival of a request keeps an inspection for later resumptions exactly while the
   number of its receivers has not been a multiple of 65536 at any arrival.
   */
  lemma CounterWraps(steps: seq<Step>, number: nat, kind: Kind, j: nat)
    requires IsRun([], steps) && j < |AfterLog([], steps)| && AfterLog([], steps)[j].kind.Inspection?
    ensures var s, e := AfterState(INIT, steps), AfterLog([], steps)[j];
      j in Receive(s, number, kind).cancellable <==> !e.gone && e.receivers % 0x1_0000 != 0
  {
    InitAgrees();
    RunAgrees(INIT, [], steps);
    StepAgrees(AfterState(INIT, steps), AfterLog([], steps), Incoming(number, kind));
  }

  // ---- Fewer than 65536 receivers ----

  predicate FewReceivers(log: seq<Entry>, steps: seq<Step>)
    requires IsRun(log, steps)
    decreases |steps|
  {
    (forall e <- log :: e.receivers < 0x1_0000) && (steps != [] ==> FewReceivers(NextLog(log, steps[0]), steps[1..]))
  }

  predicate GoneMeansNone(log: seq<Entry>) {
    forall e <- log :: e.gone ==> e.receivers == 0
  }

  lemma GoneStep(log: seq<Entry>, step: Step)
    requires GoneMeansNone(log) && Enabled(log, step) && forall e <- log :: e.receivers < 0x1_0000
    ensures GoneMeansNone(NextLog(log, step))
  {
    hide Reaches;
  }

  lemma {:induction false} GoneRun(log: seq<Entry>, steps: seq<Step>)
    requires IsRun(log, steps) && FewReceivers(log, steps) && GoneMeansNone(log)
    ensures GoneMeansNone(AfterLog(log, steps)) && forall e <- AfterLog(log, steps) :: e.receivers < 0x1_0000
    decreases |steps|
  {
    if steps == [] {
    } else {
      GoneStep(log, steps[0]);
      GoneRun(NextLog(log, steps[0]), steps[1..]);
    }
  }

  /** While no request has 65536 receivers, the unfinished requests are exactly those with a live receiver. */
  lemma HeldMeansUnfinished(steps: seq<Step>, j: nat)
    requires IsRun([], steps) && FewReceivers([], steps) && j < |AfterLog([], steps)|
    ensures var e := AfterLog([], steps)[j]; Unfinished(e) <==> !e.kind.Cancel? && e.receivers > 0
  {
    GoneRun([], steps);
  }
}
