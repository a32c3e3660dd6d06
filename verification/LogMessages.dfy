/**
 Logpoint messages: text with expressions in braces, which may themselves hold braces in pairs. Each
 expression is replaced by its value when the logpoint is hit.
 */
module LogMessages {
  import opened Results
  import opened Strings

  datatype Value = Shown(text: string) | Refused(error: string)

  function Display(v: Value): string {
    match v
    case Shown(text) => text
    case Refused(error) => "{Error: " + error + "}"
  }

  /** What is left of a scan, when the given text has been read since the last boundary at a depth of braces. */
  function Scan(m: string, text: string, nesting: nat, eval: string -> Value): string
    decreases |m|
  {
    if m == [] then text
    else if m[0] == '{' && nesting == 0 then text + Scan(m[1..], [], 1, eval)
    else if m[0] == '{' then Scan(m[1..], text + ['{'], nesting + 1, eval)
    else if m[0] == '}' && nesting == 1 then Display(eval(text)) + Scan(m[1..], [], 0, eval)
    else if m[0] == '}' && nesting > 1 then Scan(m[1..], text + ['}'], nesting - 1, eval)
    else Scan(m[1..], text + [m[0]], nesting, eval)
  }

  method ReplaceExpressions(message: string, eval: string -> Value) returns (result: string)
    ensures result == Scan(message, [], 0, eval)
  {
    var start, nesting, idx := 0, 0, 0;
    result := [];
    while idx < |message|
      invariant 0 <= start <= idx <= |message| && nesting >= 0
      invariant Scan(message, [], 0, eval) == result + Scan(message[idx..], message[start..idx], nesting, eval)
    {
      var ch := message[idx];
      assert message[idx..][0] == ch && message[idx..][1..] == message[idx + 1..];
      assert message[start..idx] + [ch] == message[start..idx + 1];
      if ch == '{' {
        if nesting == 0 {
          Assoc(result, message[start..idx], Scan(message[idx + 1..], [], 1, eval));
          result := result + message[start..idx];
          start := idx + 1;
        }
        nesting := nesting + 1;
      } else if ch == '}' && nesting > 0 {
        nesting := nesting - 1;
        if nesting == 0 {
          var value := Display(eval(message[start..idx]));
          Assoc(result, value, Scan(message[idx + 1..], [], 0, eval));
          result := result + value;
          start := idx + 1;
        }
      }
      assert start == idx + 1 ==> message[start..idx + 1] == [];
      idx := idx + 1;
    }
    result := result + message[start..];
  }

  // ---- Messages as pieces ----

  datatype Piece = Text(text: string) | Expr(source: string)

  /** The depth after reading a string from a given depth, if it never drops to zero on the way. */
  predicate StaysOpen(s: string, depth: nat) {
    depth > 0 && (s == [] || StaysOpen(s[1..], Deeper(s[0], depth)))
  }

  function Deeper(c: char, depth: nat): nat {
    if c == '{' then depth + 1 else if c == '}' && depth > 0 then depth - 1 else depth
  }

  function DepthAfter(s: string, depth: nat): nat {
    if s == [] then depth else DepthAfter(s[1..], Deeper(s[0], depth))
  }

  /** Every brace in the string has its partner in the string. */
  predicate Balanced(s: string) {
    StaysOpen(s, 1) && DepthAfter(s, 1) == 1
  }

  predicate WellFormed(p: Piece) {
    match p
    case Text(t) => '{' !in t
    case Expr(e) => Balanced(e)
  }

  function Source(ps: seq<Piece>): string {
    if ps == [] then [] else SourceOf(ps[0]) + Source(ps[1..])
  }

  function SourceOf(p: Piece): string {
    match p
    case Text(t) => t
    case Expr(e) => "{" + e + "}"
  }

  function Rendered(ps: seq<Piece>, eval: string -> Value): string {
    if ps == [] then [] else RenderedOf(ps[0], eval) + Rendered(ps[1..], eval)
  }

  /** Text as it stands; an expression as its value, or as its error in braces. */
  function RenderedOf(p: Piece, eval: string -> Value): string {
    match p
    case Text(t) => t
    case Expr(e) =>
      match eval(e)
      case Shown(shown) => shown
      case Refused(error) => "{Error: " + error + "}"
  }

  /** Text without an opening brace is read as it stands, closing braces included. */
  lemma {:induction false} ScanText(t: string, rest: string, text: string, eval: string -> Value)
    requires '{' !in t
    ensures Scan(t + rest, text, 0, eval) == Scan(rest, text + t, 0, eval)
  {
    if t == [] {
      assert t + rest == rest && text + t == text;
    } else {
      assert (t + rest)[1..] == t[1..] + rest;
      assert text + [t[0]] + t[1..] == text + t;
      ScanText(t[1..], rest, text + [t[0]], eval);
    }
  }

  /** Inside braces, everything up to the matching brace is collected. */
  lemma {:induction false} ScanInside(e: string, rest: string, text: string, depth: nat, eval: string -> Value)
    requires StaysOpen(e, depth)
    ensures Scan(e + rest, text, depth, eval) == Scan(rest, text + e, DepthAfter(e, depth), eval)
  {
    if e == [] {
      assert e + rest == rest && text + e == text;
    } else {
      assert (e + rest)[1..] == e[1..] + rest;
      assert text + [e[0]] + e[1..] == text + e;
      ScanInside(e[1..], rest, text + [e[0]], Deeper(e[0], depth), eval);
    }
  }

  /** What was read before an outermost boundary is only put in front. */
  lemma {:induction false} ScanPrefix(m: string, text: string, eval: string -> Value)
    ensures Scan(m, text, 0, eval) == text + Scan(m, [], 0, eval)
    decreases |m|
  {
    if m == [] {
    } else if m[0] == '{' {
      assert [] + Scan(m[1..], [], 1, eval) == Scan(m[1..], [], 1, eval);
    } else {
      ScanPrefix(m[1..], text + [m[0]], eval);
      ScanPrefix(m[1..], [] + [m[0]], eval);
      Assoc(text, [m[0]], Scan(m[1..], [], 0, eval));
    }
  }

  /** The scanner replaces exactly the outermost expressions, each by its own value, and keeps all other text. */
  lemma {:induction false} PiecesReplaced(ps: seq<Piece>, rest: string, eval: string -> Value)
    requires forall p <- ps :: WellFormed(p)
    ensures Scan(Source(ps) + rest, [], 0, eval) == Rendered(ps, eval) + Scan(rest, [], 0, eval)
    decreases |ps|
  {
    if ps == [] {
      assert Source(ps) + rest == rest;
    } else {
      var after := Source(ps[1..]) + rest;
      assert Source(ps) + rest == SourceOf(ps[0]) + after;
      PieceReplaced(ps[0], after, eval);
      PiecesReplaced(ps[1..], rest, eval);
      Assoc(RenderedOf(ps[0], eval), Rendered(ps[1..], eval), Scan(rest, [], 0, eval));
    }
  }

  lemma PieceReplaced(p: Piece, after: string, eval: string -> Value)
    requires WellFormed(p)
    ensures Scan(SourceOf(p) + after, [], 0, eval) == RenderedOf(p, eval) + Scan(after, [], 0, eval)
  {
    match p
    case Text(t) =>
      ScanText(t, after, [], eval);
      assert [] + t == t;
      ScanPrefix(after, t, eval);
    case Expr(e) =>
      var closing := "}" + after;
      assert "{" + e + "}" + after == "{" + (e + closing);
      assert ("{" + (e + closing))[1..] == e + closing;
      ScanInside(e, closing, [], 1, eval);
      assert [] + e == e && closing[1..] == after;
  }

  // ---- Every message has such pieces ----

  /** The pieces of a message, and what follows a brace that is never closed, if there is one. */
  datatype Parts = Parts(pieces: seq<Piece>, unclosed: Option<string>)

  function Tail(unclosed: Option<string>): string {
    if unclosed.Some? then "{" + unclosed.value else []
  }

  predicate IsReading(message: string, r: Parts) {
    && (forall p <- r.pieces :: WellFormed(p))
    && (r.unclosed.Some? ==> StaysOpen(r.unclosed.value, 1))
    && message == Source(r.pieces) + Tail(r.unclosed)
  }

  /**
   However a message reads as pieces, they are rendered one by one; and if a brace is left open at the
   end, that brace is dropped and what follows it is kept as text.
   */
  lemma ReadingRendered(message: string, r: Parts, eval: string -> Value)
    requires IsReading(message, r)
    ensures Scan(message, [], 0, eval) == Rendered(r.pieces, eval) + (if r.unclosed.Some? then r.unclosed.value else [])
  {
    PiecesReplaced(r.pieces, Tail(r.unclosed), eval);
    if r.unclosed.Some? {
      var tail := r.unclosed.value;
      assert ("{" + tail)[1..] == tail && tail + [] == tail && [] + tail == tail;
      ScanInside(tail, [], [], 1, eval);
    }
  }

  /** The length of the longest beginning of a string that stays open. */
  function OpenLength(s: string, depth: nat): (n: nat)
    requires depth > 0
    ensures n <= |s| && StaysOpen(s[..n], depth)
    ensures n < |s| ==> s[n] == '}' && DepthAfter(s[..n], depth) == 1
    decreases |s|
  {
    if s == [] || Deeper(s[0], depth) == 0 then
      assert s != [] ==> s[0] == '}' && depth == 1;
      0
    else
      var n := OpenLength(s[1..], Deeper(s[0], depth));
      assert s[..n + 1][1..] == s[1..][..n];
      n + 1
  }

  function Read(message: string): Parts
    decreases |message|
  {
    if message == [] then Parts([], None)
    else if message[0] != '{' then
      var r := Read(message[1..]);
      r.(pieces := [Text([message[0]])] + r.pieces)
    else
      var body := message[1..];
      var n := OpenLength(body, 1);
      if n == |body| then Parts([], Some(body))
      else
        var r := Read(body[n + 1..]);
        r.(pieces := [Expr(body[..n])] + r.pieces)
  }

  lemma AddPiece(first: Piece, rest: string, r: Parts)
    requires WellFormed(first) && IsReading(rest, r)
    ensures IsReading(SourceOf(first) + rest, r.(pieces := [first] + r.pieces))
  {
    assert ([first] + r.pieces)[1..] == r.pieces;
    Assoc(SourceOf(first), Source(r.pieces), Tail(r.unclosed));
  }

  /** Every message whatever has such a reading. */
  lemma {:induction false} EveryMessageReads(message: string)
    ensures IsReading(message, Read(message))
    decreases |message|
  {
    hide IsReading;
    if message == [] {
      assert IsReading(message, Parts([], None)) by {
        NothingToRead();
      }
    } else if message[0] != '{' {
      EveryMessageReads(message[1..]);
      AddPiece(Text([message[0]]), message[1..], Read(message[1..]));
      assert message == [message[0]] + message[1..];
    } else {
      var body := message[1..];
      var n := OpenLength(body, 1);
      if n == |body| {
        assert message == "{" + body && body[..n] == body;
        OnlyTail(body);
      } else {
        var rest := body[n + 1..];
        EveryMessageReads(rest);
        AddPiece(Expr(body[..n]), rest, Read(rest));
        assert message == "{" + body[..n] + "}" + rest;
      }
    }
  }

  lemma NothingToRead()
    ensures IsReading([], Parts([], None))
  {
  }

  lemma OnlyTail(body: string)
    requires StaysOpen(body, 1)
    ensures IsReading("{" + body, Parts([], Some(body)))
  {
    assert [] + ("{" + body) == "{" + body;
  }
}
