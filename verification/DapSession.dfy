/**
 The dispatcher of a DAP session: it numbers every outgoing message, remembers which reverse requests
 still wait for a response, and hands each response to the caller that waits under its number.
 */
module DapSession {
  import opened Results

  const U32 := 0x1_0000_0000

  datatype Reply = Success(body: string) | Error(message: string)

  datatype Message = Request(name: string) | Event(name: string) | Response(requestSeq: nat, reply: Reply)

  /** A message with its number, as it goes out on the channel. */
  datatype Wire = Wire(seqNo: nat, message: Message)

  /** The one-shot channel on which the sender of a reverse request waits. */
  type Caller = nat

  /**
   What wakes the dispatcher: a message from the client, a frame whose content did not deserialise
   (with its number, if it has an unsigned one), or a message that a handler wants sent.
   */
  datatype Arrival =
    | Incoming(seqNo: nat, message: Message)
    | Malformed(number: Option<nat>)
    | Outgoing(message: Message, caller: Option<Caller>)

  /** The dispatcher's two variables, and what it has put on its three outlets so far. */
  datatype State = State(
    pending: map<nat, Caller>,
    messageSeq: nat,
    sent: seq<Wire>,
    resolved: seq<(Caller, Reply)>,
    requests: seq<(nat, string)>,
    events: seq<string>)

  const INIT := State(map[], 0, [], [], [], [])

  function Next(seqNo: nat): nat {
    (seqNo + 1) % U32
  }

  function MalformedReply(number: nat): Message {
    Response(number % U32, Error("Malformed message"))
  }

  function Receive(s: State, seqNo: nat, m: Message): State {
    match m
    case Request(name) => s.(requests := s.requests + [(seqNo, name)])
    case Event(name) => s.(events := s.events + [name])
    case Response(n, reply) =>
      if n in s.pending then s.(pending := s.pending - {n}, resolved := s.resolved + [(s.pending[n], reply)]) else s
  }

  function Send(s: State, m: Message, caller: Option<Caller>): State {
    var n := Next(s.messageSeq);
    s.(messageSeq := n,
       sent := s.sent + [Wire(n, m)],
       pending := if caller.Some? then s.pending[n := caller.value] else s.pending)
  }

  function Step(s: State, a: Arrival): State {
    match a
    case Incoming(seqNo, m) => Receive(s, seqNo, m)
    case Malformed(number) => if number.Some? then Send(s, MalformedReply(number.value), None) else s
    case Outgoing(m, caller) => Send(s, m, caller)
  }

  class Dispatcher {
    var pending: map<nat, Caller>
    var messageSeq: nat
    var sent: seq<Wire>
    var resolved: seq<(Caller, Reply)>
    var requests: seq<(nat, string)>
    var events: seq<string>

    ghost function View(): State
      reads this
    {
      State(pending, messageSeq, sent, resolved, requests, events)
    }

    constructor ()
      ensures View() == INIT
    {
      pending, messageSeq, sent, resolved, requests, events := map[], 0, [], [], [], [];
    }

    method Dispatch(a: Arrival)
      modifies this
      ensures View() == Step(old(View()), a)
    {
      match a
      case Incoming(seqNo, Request(name)) =>
        requests := requests + [(seqNo, name)];
      case Incoming(_, Event(name)) =>
        events := events + [name];
      case Incoming(_, Response(n, reply)) =>
        if n in pending {
          var sender := pending[n];
          pending := pending - {n};
          resolved := resolved + [(sender, reply)];
        }
      case Malformed(number) =>
        if number.Some? {
          messageSeq := (messageSeq + 1) % U32;
          sent := sent + [Wire(messageSeq, MalformedReply(number.value))];
        }
      case Outgoing(m, caller) =>
        messageSeq := (messageSeq + 1) % U32;
        if caller.Some? {
          pending := pending[messageSeq := caller.value];
        }
        sent := sent + [Wire(messageSeq, m)];
    }
  }

  // ---- What a whole run looks like from outside ----

  function Run(run: seq<Arrival>): State {
    if run == [] then INIT else Step(Run(run[..|run| - 1]), run[|run| - 1])
  }

  /** The messages a run sends, in the order in which they were due. */
  function Outbox(run: seq<Arrival>): seq<Message> {
    if run == [] then [] else Outbox(run[..|run| - 1]) + Due(run[|run| - 1])
  }

  /** The message that an arrival makes the dispatcher send, if any. */
  function Due(a: Arrival): seq<Message> {
    match a
    case Incoming(_, _) => []
    case Malformed(number) =>
      if number.Some? then [Response(number.value % 0x1_0000_0000, Error("Malformed message"))] else []
    case Outgoing(m, _) => [m]
  }

  lemma SendsDue(s: State, a: Arrival)
    ensures var s' := Step(s, a);
      if Due(a) == [] then s'.sent == s.sent && s'.messageSeq == s.messageSeq
      else s'.messageSeq == Next(s.messageSeq) && s'.sent == s.sent + [Wire(s'.messageSeq, Due(a)[0])] && |Due(a)| == 1
  {
    hide Next;
  }

  /** Outgoing messages, whatever their kind, are numbered 1, 2, 3, ... and none is skipped, repeated or reordered. */
  lemma {:induction false} NumberedInOrder(run: seq<Arrival>)
    ensures var s := Run(run);
      && |s.sent| == |Outbox(run)|
      && s.messageSeq == |s.sent| % 0x1_0000_0000
      && forall k :: 0 <= k < |s.sent| ==> s.sent[k] == Wire((k + 1) % 0x1_0000_0000, Outbox(run)[k])
  {
    if run == [] {
    } else {
      hide Step, Due, Next;
      NumberedInOrder(run[..|run| - 1]);
      SendsDue(Run(run[..|run| - 1]), run[|run| - 1]);
      NextNumber(|Run(run[..|run| - 1]).sent|);
    }
  }

  lemma NextNumber(n: nat)
    ensures Next(n % 0x1_0000_0000) == (n + 1) % 0x1_0000_0000
  {
  }

  function RequestsIn(run: seq<Arrival>): seq<(nat, string)> {
    if run == [] then []
    else (if run[0].Incoming? && run[0].message.Request? then [(run[0].seqNo, run[0].message.name)] else []) + RequestsIn(run[1..])
  }

  function EventsIn(run: seq<Arrival>): seq<string> {
    if run == [] then []
    else (if run[0].Incoming? && run[0].message.Event? then [run[0].message.name] else []) + EventsIn(run[1..])
  }

  lemma {:induction false} OneMoreIn(run: seq<Arrival>, a: Arrival)
    ensures RequestsIn(run + [a]) == RequestsIn(run) + RequestsIn([a])
    ensures EventsIn(run + [a]) == EventsIn(run) + EventsIn([a])
  {
    if run == [] {
      assert [] + [a] == [a];
    } else {
      assert (run + [a])[1..] == run[1..] + [a];
      OneMoreIn(run[1..], a);
    }
  }

  /** Subscribers get exactly the client's requests, with the client's numbers, and its events, in order. */
  lemma {:induction false} PassedOnInOrder(run: seq<Arrival>)
    ensures Run(run).requests == RequestsIn(run) && Run(run).events == EventsIn(run)
  {
    if run == [] {
    } else {
      var before, a := run[..|run| - 1], run[|run| - 1];
      assert run == before + [a] && [a][1..] == [];
      PassedOnInOrder(before);
      OneMoreIn(before, a);
    }
  }

  /** The number under which the message due at an arrival goes out. */
  function NumberAt(run: seq<Arrival>, i: nat): nat
    requires i < |run|
  {
    (|Outbox(run[..i])| + 1) % 0x1_0000_0000
  }

  ghost predicate Asks(run: seq<Arrival>, i: nat, c: Caller) {
    i < |run| && run[i].Outgoing? && run[i].caller == Some(c)
  }

  ghost predicate Answers(run: seq<Arrival>, j: nat, n: nat, reply: Reply) {
    j < |run| && run[j].Incoming? && run[j].message == Response(n, reply)
  }

  /** An arrival that leaves nobody waiting under a number: a response to it, or a reverse request that takes it over. */
  predicate Frees(run: seq<Arrival>, k: nat, n: nat)
    requires k < |run|
  {
    FreesUnder(run[k], NumberAt(run, k), n)
  }

  predicate RespondsTo(a: Arrival, n: nat) {
    a.Incoming? && a.message.Response? && a.message.requestSeq == n
  }

  predicate FreesUnder(a: Arrival, number: nat, n: nat) {
    || RespondsTo(a, n)
    || (a.Outgoing? && a.caller.Some? && number == n)
  }

  ghost predicate Untouched(run: seq<Arrival>, i: nat, j: nat, n: nat)
    requires j <= |run|
  {
    forall k :: i < k < j ==> !Frees(run, k, n)
  }

  /** Each reverse request has a channel of its own. */
  ghost predicate OwnCallers(run: seq<Arrival>) {
    forall i, j, c :: Asks(run, i, c) && Asks(run, j, c) ==> i == j
  }

  ghost predicate Waits(run: seq<Arrival>, i: nat, n: nat, c: Caller) {
    Asks(run, i, c) && NumberAt(run, i) == n && Untouched(run, i, |run|, n)
  }

  ghost predicate Waiting(run: seq<Arrival>, n: nat, c: Caller) {
    exists i: nat :: Waits(run, i, n, c)
  }

  /** The pending table holds exactly the reverse requests that were sent and not yet answered. */
  lemma {:induction false} PendingExactly(run: seq<Arrival>, n: nat, c: Caller)
    ensures n in Run(run).pending && Run(run).pending[n] == c <==> Waiting(run, n, c)
  {
    if run != [] {
      hide Waits, FreesUnder, Next, Step, Outbox;
      var last := |run| - 1;
      var before := run[..last];
      PendingExactly(before, n, c);
      NumberNext(run);
      PendingStep(Run(before), run[last], n, c);
      WaitsLater(run, n, c);
    } else if Waiting(run, n, c) {
      assert false;
    }
  }

  lemma NumberNext(run: seq<Arrival>)
    requires run != []
    ensures Next(Run(run[..|run| - 1]).messageSeq) == NumberAt(run, |run| - 1)
  {
    NumberedInOrder(run[..|run| - 1]);
  }

  lemma WaitsLater(run: seq<Arrival>, n: nat, c: Caller)
    requires run != []
    ensures Waiting(run, n, c) <==>
      || (Waiting(run[..|run| - 1], n, c) && !Frees(run, |run| - 1, n))
      || (Asks(run, |run| - 1, c) && NumberAt(run, |run| - 1) == n)
  {
    hide Frees, NumberAt;
    var last := |run| - 1;
    if Asks(run, last, c) && NumberAt(run, last) == n {
      assert Waits(run, last, n, c);
    }
    var before := run[..last];
    if Waiting(before, n, c) {
      var i: nat :| Waits(before, i, n, c);
      WaitsBefore(run, i, n, c);
    }
    if Waiting(run, n, c) {
      var i: nat :| Waits(run, i, n, c);
      if i < last {
        WaitsBefore(run, i, n, c);
      }
    }
  }

  lemma PendingStep(s: State, a: Arrival, n: nat, c: Caller)
    ensures var s' := Step(s, a);
      n in s'.pending && s'.pending[n] == c <==>
        || (n in s.pending && s.pending[n] == c && !FreesUnder(a, Next(s.messageSeq), n))
        || (a.Outgoing? && a.caller == Some(c) && Next(s.messageSeq) == n)
  {
    hide Next;
  }

  lemma FreesBefore(run: seq<Arrival>, k: nat, n: nat)
    requires k < |run| - 1
    ensures NumberAt(run, k) == NumberAt(run[..|run| - 1], k)
    ensures Frees(run, k, n) <==> Frees(run[..|run| - 1], k, n)
  {
    assert run[..|run| - 1][..k] == run[..k];
  }

  lemma WaitsBefore(run: seq<Arrival>, i: nat, n: nat, c: Caller)
    requires i < |run| - 1
    ensures Waits(run, i, n, c) <==> Waits(run[..|run| - 1], i, n, c) && !Frees(run, |run| - 1, n)
  {
    var before := run[..|run| - 1];
    FreesBefore(run, i, n);
    forall k: nat | i < k < |before| ensures Frees(run, k, n) <==> Frees(before, k, n) {
      FreesBefore(run, k, n);
    }
    assert Untouched(run, i, |run|, n) <==> Untouched(before, i, |before|, n) && !Frees(run, |run| - 1, n) by {
      hide Frees;
    }
  }

  // ---- Responses reach their callers ----

  /** The j-th arrival is the first response to the number of the request sent at the i-th, before that number is reused. */
  ghost predicate Matches(run: seq<Arrival>, i: nat, j: nat, c: Caller, reply: Reply) {
    && i < j
    && Asks(run, i, c)
    && Answers(run, j, NumberAt(run, i), reply)
    && Untouched(run, i, j, NumberAt(run, i))
  }

  lemma FreesInPrefix(run: seq<Arrival>, m: nat, k: nat, n: nat)
    requires k < m <= |run|
    ensures NumberAt(run[..m], k) == NumberAt(run, k)
    ensures Frees(run[..m], k, n) <==> Frees(run, k, n)
  {
    assert run[..m][..k] == run[..k];
  }

  lemma UntouchedInPrefix(run: seq<Arrival>, i: nat, j: nat, m: nat, n: nat)
    requires i < j <= m <= |run|
    ensures NumberAt(run[..m], i) == NumberAt(run, i)
    ensures Untouched(run[..m], i, j, n) <==> Untouched(run, i, j, n)
  {
    FreesInPrefix(run, m, i, n);
    forall k: nat | i < k < j ensures Frees(run[..m], k, n) <==> Frees(run, k, n) {
      FreesInPrefix(run, m, k, n);
    }
  }

  lemma MatchesInPrefix(run: seq<Arrival>, i: nat, j: nat, m: nat, c: Caller, reply: Reply)
    requires j < m <= |run|
    ensures Matches(run[..m], i, j, c, reply) <==> Matches(run, i, j, c, reply)
  {
    if i < j {
      hide NumberAt;
      UntouchedInPrefix(run, i, j, m, NumberAt(run, i));
    }
  }

  /** The last arrival answers the request sent at the i-th exactly if that one still waits for its number. */
  lemma MatchesLast(run: seq<Arrival>, i: nat, c: Caller, reply: Reply)
    requires run != []
    ensures var last := |run| - 1;
      Matches(run, i, last, c, reply) <==>
        i < last && Answers(run, last, NumberAt(run, i), reply) && Waits(run[..last], i, NumberAt(run, i), c)
  {
    var last := |run| - 1;
    if i < last {
      hide NumberAt;
      UntouchedInPrefix(run, i, last, last, NumberAt(run, i));
    }
  }

  ghost predicate Matched(run: seq<Arrival>, c: Caller, reply: Reply) {
    exists i: nat, j: nat :: Matches(run, i, j, c, reply)
  }

  /** A caller is resolved with exactly the first response that carries the number of its request. */
  lemma {:induction false} ResolvedExactly(run: seq<Arrival>, c: Caller, reply: Reply)
    ensures (c, reply) in Run(run).resolved <==> Matched(run, c, reply)
  {
    if run != [] {
      hide Matches, Step, Outbox;
      var last := |run| - 1;
      ResolvedExactly(run[..last], c, reply);
      ResolvedStep(Run(run[..last]), run[last], c, reply);
      MatchedLater(run, c, reply);
    } else if Matched(run, c, reply) {
      assert false;
    }
  }

  predicate ResolvesNow(s: State, a: Arrival, c: Caller, reply: Reply) {
    && a.Incoming? && a.message.Response? && a.message.reply == reply
    && a.message.requestSeq in s.pending && s.pending[a.message.requestSeq] == c
  }

  lemma ResolvedStep(s: State, a: Arrival, c: Caller, reply: Reply)
    ensures (c, reply) in Step(s, a).resolved <==> (c, reply) in s.resolved || ResolvesNow(s, a, c, reply)
  {
    hide Next;
  }

  lemma MatchedLater(run: seq<Arrival>, c: Caller, reply: Reply)
    requires run != []
    ensures Matched(run, c, reply) <==>
      Matched(run[..|run| - 1], c, reply) || ResolvesNow(Run(run[..|run| - 1]), run[|run| - 1], c, reply)
  {
    hide NumberAt, Waits, Run, Matches, Untouched;
    var last := |run| - 1;
    var before := run[..last];
    if Matched(before, c, reply) {
      var i: nat, j: nat :| Matches(before, i, j, c, reply);
      MatchedBefore(before, i, j, c, reply);
      MatchesInPrefix(run, i, j, last, c, reply);
    }
    if Matched(run, c, reply) {
      var i: nat, j: nat :| Matches(run, i, j, c, reply);
      MatchedBefore(run, i, j, c, reply);
      if j < last {
        MatchesInPrefix(run, i, j, last, c, reply);
      } else {
        MatchesLast(run, i, c, reply);
        PendingExactly(before, NumberAt(run, i), c);
      }
    }
    if ResolvesNow(Run(before), run[last], c, reply) {
      var n := run[last].message.requestSeq;
      PendingExactly(before, n, c);
      var i: nat :| Waits(before, i, n, c);
      WaitsNumber(run, i, n, c);
      MatchesLast(run, i, c, reply);
    }
  }

  lemma MatchedBefore(run: seq<Arrival>, i: nat, j: nat, c: Caller, reply: Reply)
    requires Matches(run, i, j, c, reply)
    ensures i < j < |run|
  {
  }

  lemma WaitsNumber(run: seq<Arrival>, i: nat, n: nat, c: Caller)
    requires run != [] && Waits(run[..|run| - 1], i, n, c)
    ensures i < |run| - 1 && NumberAt(run, i) == n
  {
    FreesInPrefix(run, |run| - 1, i, n);
  }

  // ---- At most once ----

  ghost predicate Once(s: State, run: seq<Arrival>) {
    && (forall p, q :: 0 <= p < q < |s.resolved| ==> s.resolved[p].0 != s.resolved[q].0)
    && (forall n, p :: n in s.pending && 0 <= p < |s.resolved| ==> s.pending[n] != s.resolved[p].0)
    && (forall n, m :: n in s.pending && m in s.pending && n != m ==> s.pending[n] != s.pending[m])
    && (forall n :: n in s.pending ==> Asked(run, s.pending[n]))
    && (forall p :: 0 <= p < |s.resolved| ==> Asked(run, s.resolved[p].0))
  }

  ghost predicate Asked(run: seq<Arrival>, c: Caller) {
    exists i: nat :: Asks(run, i, c)
  }

  lemma AskedLater(run: seq<Arrival>, c: Caller)
    requires run != []
    ensures Asked(run, c) <==> Asked(run[..|run| - 1], c) || Asks(run, |run| - 1, c)
  {
    var before := run[..|run| - 1];
    if Asked(before, c) {
      var i: nat :| Asks(before, i, c);
      assert Asks(run, i, c);
    }
    if Asked(run, c) {
      var i: nat :| Asks(run, i, c);
      assert i < |before| ==> Asks(before, i, c);
    }
  }

  lemma OnceStep(s: State, before: seq<Arrival>, a: Arrival)
    requires Once(s, before)
    requires a.Outgoing? && a.caller.Some? ==> !Asked(before, a.caller.value)
    requires forall c :: Asked(before, c) ==> Asked(before + [a], c)
    requires a.Outgoing? && a.caller.Some? ==> Asked(before + [a], a.caller.value)
    ensures Once(Step(s, a), before + [a])
  {
    hide Asked, Next;
  }

  /** No caller is ever resolved twice, even if the client answers twice or answers a number it was never sent. */
  lemma {:induction false} ResolvedOnce(run: seq<Arrival>)
    requires OwnCallers(run)
    ensures var resolved := Run(run).resolved;
      forall p, q :: 0 <= p < q < |resolved| ==> resolved[p].0 != resolved[q].0
    ensures Once(Run(run), run)
  {
    if run == [] {
    } else {
      var last := |run| - 1;
      var before := run[..last];
      var a := run[last];
      assert run == before + [a];
      forall i, j, c | Asks(before, i, c) && Asks(before, j, c) ensures i == j {
        assert Asks(run, i, c) && Asks(run, j, c);
      }
      ResolvedOnce(before);
      forall c ensures Asked(run, c) <==> Asked(before, c) || Asks(run, last, c) {
        AskedLater(run, c);
      }
      if a.Outgoing? && a.caller.Some? {
        NotAskedBefore(run, a.caller.value);
      }
      OnceStep(Run(before), before, a);
    }
  }

  lemma NotAskedBefore(run: seq<Arrival>, c: Caller)
    requires OwnCallers(run) && run != [] && Asks(run, |run| - 1, c)
    ensures !Asked(run[..|run| - 1], c)
  {
    var before := run[..|run| - 1];
    if Asked(before, c) {
      var i: nat :| Asks(before, i, c);
      assert Asks(run, i, c);
    }
  }

  // ---- Numbers are not reused before the counter wraps ----

  lemma {:induction false} OutboxGrows(run: seq<Arrival>, i: nat, k: nat)
    requires i <= k <= |run|
    ensures |Outbox(run[..i])| <= |Outbox(run[..k])|
    ensures i < k && Due(run[i]) != [] ==> |Outbox(run[..i])| < |Outbox(run[..k])|
    decreases k
  {
    if i < k {
      assert run[..k][..k - 1] == run[..k - 1];
      OutboxGrows(run, i, k - 1);
    }
  }

  /**
   In a session of fewer than 2^32 outgoing messages, a number is freed by a response to it and by
   nothing else: a reverse request waits exactly until the first response that carries its number.
   */
  lemma UntouchedIsUnanswered(run: seq<Arrival>, i: nat, j: nat)
    requires |Outbox(run)| < 0x1_0000_0000 && i < j <= |run| && Due(run[i]) != []
    ensures Untouched(run, i, j, NumberAt(run, i)) <==>
      forall k :: i < k < j ==> !RespondsTo(run[k], NumberAt(run, i))
  {
    forall k: nat | i < k < j ensures Frees(run, k, NumberAt(run, i)) <==> RespondsTo(run[k], NumberAt(run, i)) {
      hide NumberAt;
      if Due(run[k]) != [] {
        NumbersDiffer(run, i, k);
      }
    }
  }

  lemma NumbersDiffer(run: seq<Arrival>, i: nat, k: nat)
    requires |Outbox(run)| < 0x1_0000_0000 && i < k < |run| && Due(run[i]) != [] && Due(run[k]) != []
    ensures NumberAt(run, k) != NumberAt(run, i)
  {
    hide Outbox;
    OutboxGrows(run, i, k);
    OutboxGrows(run, k, |run|);
    assert run[..|run|] == run;
  }
}
