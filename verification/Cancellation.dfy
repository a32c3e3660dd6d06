/**
 Cancellation of requests: each incoming request is paired with a token, "cancel" requests and
 requests that resume the debuggee activate tokens, and the requests' handlers hold receivers
 of their tokens until they are done.

 Tokens are numbered in the order in which the requests arrive.
 */
module Cancellation {
  import opened Results

  const U16 := 0x1_0000
  const U32 := 0x1_0000_0000

  /** How the filter treats a request: scopes, variables and evaluate may be cancelled by resumption. */
  datatype Kind = Cancel(requestId: Option<int>) | Inspection | Resumption | Plain

  /** The state shared by a token's sender and receivers; the counter has 16 bits. */
  datatype Token = Token(flag: bool, receiverCount: nat)

  function Subscribe(t: Token): Token {
    t.(receiverCount := (t.receiverCount + 1) % U16)
  }

  function Unsubscribe(t: Token): Token {
    t.(receiverCount := (t.receiverCount + U16 - 1) % U16)
  }

  datatype Forwarded = Forwarded(number: nat, kind: Kind, token: nat)

  datatype State = State(
    tokens: seq<Token>,
    pending: map<nat, nat>,      // request number to token
    cancellable: seq<nat>,       // tokens of inspections
    sent: seq<Forwarded>)        // what was passed on to the session

  const INIT := State([], map[], [], [])

  predicate HasReceivers(s: State, token: nat) {
    token < |s.tokens| && s.tokens[token].receiverCount > 0
  }

  /** Depends only on the tokens. */
  function KeepLive(s: State, list: seq<nat>): seq<nat> {
    if list == [] then [] else (if HasReceivers(s, list[0]) then [list[0]] else []) + KeepLive(s, list[1..])
  }

  function Prune(s: State): State {
    s.(pending := map n | n in s.pending && HasReceivers(s, s.pending[n]) :: s.pending[n],
       cancellable := KeepLive(s, s.cancellable))
  }

  function Send(tokens: seq<Token>, token: nat): seq<Token> {
    if token < |tokens| then tokens[token := tokens[token].(flag := true)] else tokens
  }

  function SendAll(tokens: seq<Token>, list: seq<nat>): seq<Token>
    decreases |list|
  {
    if list == [] then tokens else SendAll(Send(tokens, list[0]), list[1..])
  }

  /** The number that a cancel request's id denotes. */
  function Number(id: int): nat {
    id % U32
  }

  /** One turn of the filter's loop for an incoming request. */
  function Receive(s: State, number: nat, kind: Kind): State {
    var token := |s.tokens|;
    var s1 := Prune(s.(tokens := s.tokens + [Subscribe(Token(false, 0))]));
    match kind
    case Cancel(id) =>
      // The new token is dropped with its receiver, and the request is not passed on.
      var s2 := if id.Some? && Number(id.value) in s1.pending then
                  s1.(tokens := Send(s1.tokens, s1.pending[Number(id.value)]), pending := s1.pending - {Number(id.value)})
                else s1;
      s2.(tokens := s2.tokens[token := Unsubscribe(s2.tokens[token])])
    case _ =>
      var s2 := if kind.Inspection? then s1.(cancellable := s1.cancellable + [token])
                else if kind.Resumption? then s1.(tokens := SendAll(s1.tokens, s1.cancellable))
                else s1;
      s2.(pending := s2.pending[number := token], sent := s2.sent + [Forwarded(number, kind, token)])
  }

  function Clone(s: State, token: nat): State
    requires token < |s.tokens|
  {
    s.(tokens := s.tokens[token := Subscribe(s.tokens[token])])
  }

  function Drop(s: State, token: nat): State
    requires token < |s.tokens|
  {
    s.(tokens := s.tokens[token := Unsubscribe(s.tokens[token])])
  }

  // ---- The filter as an object ----

  class CancellationFilter {
    var tokens: seq<Token>
    var pendingRequests: map<nat, nat>
    var cancellableRequests: seq<nat>
    var sent: seq<Forwarded>

    ghost function View(): State
      reads this
    {
      State(tokens, pendingRequests, cancellableRequests, sent)
    }

    constructor ()
      ensures View() == INIT
    {
      tokens, pendingRequests, cancellableRequests, sent := [], map[], [], [];
    }

    method OnRequest(number: nat, kind: Kind)
      modifies this
      ensures View() == Receive(old(View()), number, kind)
    {
      var token := |tokens|;
      tokens := tokens + [Subscribe(Token(false, 0))];
      RetainLive();
      match kind {
        case Cancel(id) =>
          if id.Some? && Number(id.value) in pendingRequests {
            var target := pendingRequests[Number(id.value)];
            pendingRequests := pendingRequests - {Number(id.value)};
            tokens := Send(tokens, target);
          }
          tokens := tokens[token := Unsubscribe(tokens[token])];
          return;
        case Inspection => cancellableRequests := cancellableRequests + [token];
        case Resumption => CancelInspections();
        case Plain =>
      }
      pendingRequests := pendingRequests[number := token];
      sent := sent + [Forwarded(number, kind, token)];
    }

    method CloneReceiver(token: nat)
      requires token < |tokens|
      modifies this`tokens
      ensures View() == Clone(old(View()), token)
    {
      tokens := tokens[token := Subscribe(tokens[token])];
    }

    method DropReceiver(token: nat)
      requires token < |tokens|
      modifies this`tokens
      ensures View() == Drop(old(View()), token)
    {
      tokens := tokens[token := Unsubscribe(tokens[token])];
    }

    method RetainLive()
      modifies this`pendingRequests, this`cancellableRequests
      ensures View() == Prune(old(View()))
    {
      hide KeepLive;
      pendingRequests := map n | n in pendingRequests && pendingRequests[n] < |tokens| && tokens[pendingRequests[n]].receiverCount > 0
                           :: pendingRequests[n];
      cancellableRequests := LiveOnly(cancellableRequests);
      SameTokens(old(View()), State(tokens, pendingRequests, old(cancellableRequests), sent), old(cancellableRequests));
    }

    method LiveOnly(list: seq<nat>) returns (kept: seq<nat>)
      ensures kept == KeepLive(View(), list)
    {
      kept := [];
      for i := 0 to |list|
        invariant kept + KeepLive(View(), list[i..]) == KeepLive(View(), list)
      {
        ghost var rest := KeepLive(View(), list[i + 1..]);
        assert list[i..][0] == list[i] && list[i..][1..] == list[i + 1..];
        if list[i] < |tokens| && tokens[list[i]].receiverCount > 0 {
          assert kept + ([list[i]] + rest) == kept + [list[i]] + rest;
          kept := kept + [list[i]];
        } else {
          assert [] + rest == rest;
        }
      }
      assert kept + [] == kept;
    }

    method CancelInspections()
      modifies this`tokens
      ensures tokens == SendAll(old(tokens), cancellableRequests)
    {
      for i := 0 to |cancellableRequests|
        invariant SendAll(tokens, cancellableRequests[i..]) == SendAll(old(tokens), cancellableRequests)
      {
        assert cancellableRequests[i..][1..] == cancellableRequests[i + 1..];
        tokens := Send(tokens, cancellableRequests[i]);
      }
    }
  }

  lemma {:induction false} SameTokens(s: State, t: State, list: seq<nat>)
    requires s.tokens == t.tokens
    ensures KeepLive(s, list) == KeepLive(t, list)
  {
    if list == [] {
    } else {
      SameTokens(s, t, list[1..]);
    }
  }
}
