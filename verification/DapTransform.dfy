/**
 The stream transform that re-frames messages on their way from the adapter to the editor:
 each complete frame is parsed, offered to a hook and sent on, whatever the chunks in which
 the bytes arrive.
 */
module DapTransform {
  import opened Results
  import opened DapFraming

  /** JSON parsing and printing, and the hook; the hook may leave a message alone. */
  datatype Codec<!Msg> = Codec(parse: Bytes -> Option<Msg>, stringify: Msg -> Bytes, mutate: Msg -> Option<Msg>)

  /** What the hook makes of a message. */
  function Mutated<Msg>(c: Codec<Msg>, m: Msg): Msg {
    match c.mutate(m)
    case Some(changed) => changed
    case None => m
  }

  /** The frame sent on for a received frame; a body that is not JSON is sent on as it came. */
  function Reframe<Msg>(c: Codec<Msg>, f: Frame): Frame {
    match c.parse(f.body)
    case None => f
    case Some(m) => var body := c.stringify(Mutated(c, m)); Frame(LengthHeader(|body|), body)
  }

  function ReframeAll<Msg>(c: Codec<Msg>, fs: seq<Frame>): seq<Frame> {
    seq(|fs|, i requires 0 <= i < |fs| => Reframe(c, fs[i]))
  }

  /** What is sent on for a buffer, and what stays buffered. */
  function Drain<Msg>(c: Codec<Msg>, b: Bytes): (r: (Bytes, Bytes))
    decreases |b|
  {
    match Examine(b)
    case Incomplete => ("", b)
    case Broken(_) => (b, "")
    case Complete(f) => var (out, rest) := Drain(c, b[|Encode(f)|..]); (Encode(Reframe(c, f)) + out, rest)
  }

  /** The state of a stream: the bytes sent on so far and the bytes still buffered. */
  datatype Stream = Stream(pushed: Bytes, buf: Bytes)

  function Feed<Msg>(c: Codec<Msg>, s: Stream, chunk: Bytes): Stream {
    var (out, rest) := Drain(c, s.buf + chunk);
    Stream(s.pushed + out, rest)
  }

  class DapMessageTransform<!Msg> {
    const codec: Codec<Msg>
    var buf: Bytes
    var pushed: Bytes // everything handed to the consumer, in order

    ghost function State(): Stream
      reads this
    {
      Stream(pushed, buf)
    }

    constructor (codec: Codec<Msg>)
      ensures this.codec == codec && State() == Stream("", "")
    {
      this.codec := codec;
      buf, pushed := "", "";
    }

    method Transform(chunk: Bytes)
      modifies this
      ensures State() == Feed(codec, old(State()), chunk)
    {
      buf := buf + chunk;
      FlushMessages();
    }

    /** The end of the stream: what is left is incomplete and is sent on as it is. */
    method Flush()
      modifies this
      ensures State() == Stream(old(pushed) + old(buf), "")
    {
      if |buf| > 0 {
        pushed := pushed + buf;
        buf := "";
      }
    }

    method FlushMessages()
      modifies this
      ensures State() == Stream(old(pushed) + Drain(codec, old(buf)).0, Drain(codec, old(buf)).1)
    {
      hide ContentLength, LengthHeader, Decimal;
      while true
        invariant pushed + Drain(codec, buf).0 == old(pushed) + Drain(codec, old(buf)).0
        invariant Drain(codec, buf).1 == Drain(codec, old(buf)).1
        decreases |buf|
      {
        var headerEnd := IndexOfSep(buf);
        if headerEnd.None? {
          return;
        }
        var header := buf[..headerEnd.value];
        var contentLength := ContentLength(header);
        if contentLength.None? {
          pushed := pushed + buf;
          buf := "";
          return;
        }
        var bodyStart := headerEnd.value + 4;
        var total := bodyStart + contentLength.value;
        if |buf| < total {
          return;
        }
        var body := buf[bodyStart..total];
        ghost var f := Frame(header, body);
        assert Examine(buf) == Complete(f) && total == |Encode(f)|;
        ghost var (out, rest) := Drain(codec, buf[total..]);
        assert (pushed + Encode(Reframe(codec, f))) + out == pushed + (Encode(Reframe(codec, f)) + out);
        buf := buf[total..];
        match codec.parse(body) {
          case None => PushFramed(header, body);
          case Some(m) => PushSerialised(Mutated(codec, m));
        }
      }
    }

    method PushSerialised(m: Msg)
      modifies this`pushed
      ensures pushed == old(pushed) + Encode(Frame(LengthHeader(|codec.stringify(m)|), codec.stringify(m)))
    {
      var body := codec.stringify(m);
      var header := "Content-Length: " + Decimal(|body|) + "\r\n\r\n";
      pushed := pushed + (header + body);
    }

    method PushFramed(header: Bytes, body: Bytes)
      modifies this`pushed
      ensures pushed == old(pushed) + Encode(Frame(header, body))
    {
      pushed := pushed + (header + SEP + body);
    }
  }

  // ---- Re-framing: what the consumer parses ----

  lemma ReframeKeeps<Msg>(c: Codec<Msg>, f: Frame)
    requires WellFramed(f)
    ensures WellFramed(Reframe(c, f))
  {
    var m := c.parse(f.body);
    if m.Some? {
      LengthHeaderReads(|c.stringify(Mutated(c, m.value))|);
    }
  }

  /** Draining sends on the re-framed complete frames, and the rest too once its header is unreadable. */
  lemma {:induction false} DrainSendsFrames<Msg>(c: Codec<Msg>, b: Bytes)
    ensures var (fs, rest) := Parse(b);
      Drain(c, b) == if Examine(rest).Broken? then (EncodeAll(ReframeAll(c, fs)) + rest, "")
                     else (EncodeAll(ReframeAll(c, fs)), rest)
    decreases |b|
  {
    hide IndexOfSep, ContentLength, Reframe, Encode;
    match Examine(b)
    case Incomplete =>
    case Broken(_) => assert EncodeAll(ReframeAll(c, [])) + b == b;
    case Complete(f) =>
      DrainSendsFrames(c, b[|Encode(f)|..]);
      var (fs, rest) := Parse(b[|Encode(f)|..]);
      var gs := ReframeAll(c, [f] + fs);
      assert gs[1..] == ReframeAll(c, fs);
      assert EncodeAll(gs) + rest == Encode(gs[0]) + (EncodeAll(gs[1..]) + rest);
  }

  /** What stays readable as frames in the output: only an unreadable header passes through raw. */
  function SentRaw(rest: Bytes): Bytes {
    if Examine(rest).Broken? then rest else ""
  }

  /** The transform's own parser finds in its output exactly the re-framed frames, in order. */
  lemma OutputParses<Msg>(c: Codec<Msg>, b: Bytes)
    ensures Parse(Drain(c, b).0) == (ReframeAll(c, Parse(b).0), SentRaw(Parse(b).1))
  {
    hide IndexOfSep, ContentLength;
    var (fs, rest) := Parse(b);
    var gs := ReframeAll(c, fs);
    DrainSendsFrames(c, b);
    ParseSpells(b);
    forall i | 0 <= i < |gs| ensures WellFramed(gs[i]) {
      ReframeKeeps(c, fs[i]);
    }
    ParseEncoded(gs, SentRaw(rest), [], SentRaw(rest));
    assert EncodeAll(gs) + "" == EncodeAll(gs);
    assert gs + [] == gs;
  }

  /**
   Round trip: whatever the buffer, the transform's own parser finds in its output the received
   frames in order, each carrying what the hook made of its message, or unchanged when its
   body is not JSON.
   */
  lemma ReframingRoundTrip<Msg>(c: Codec<Msg>, b: Bytes)
    requires forall m: Msg {:trigger c.stringify(m)} :: c.parse(c.stringify(m)) == Some(m)
    ensures var fs, sent := Parse(b).0, Parse(Drain(c, b).0).0;
      && |sent| == |fs|
      && forall i :: 0 <= i < |fs| ==>
           match c.parse(fs[i].body)
           case Some(m) => c.parse(sent[i].body) == if c.mutate(m).Some? then c.mutate(m) else Some(m)
           case None => sent[i] == fs[i]
  {
    hide Parse, Drain, Examine, IndexOfSep, ContentLength;
    OutputParses(c, b);
    var fs, sent := Parse(b).0, Parse(Drain(c, b).0).0;
    forall i | 0 <= i < |fs|
      ensures match c.parse(fs[i].body)
        case Some(m) => c.parse(sent[i].body) == if c.mutate(m).Some? then c.mutate(m) else Some(m)
        case None => sent[i] == fs[i]
    {
      assert sent[i] == Reframe(c, fs[i]);
      var m := c.parse(fs[i].body);
      if m.Some? {
        assert sent[i].body == c.stringify(Mutated(c, m.value));
      }
    }
  }

  // ---- Chunk independence ----

  function FeedAll<Msg>(c: Codec<Msg>, s: Stream, chunks: seq<Bytes>): Stream
    decreases |chunks|
  {
    if chunks == [] then s else FeedAll(c, Feed(c, s, chunks[0]), chunks[1..])
  }

  function Join(chunks: seq<Bytes>): Bytes {
    if chunks == [] then "" else chunks[0] + Join(chunks[1..])
  }

  const START := Stream("", "")

  /** Every division of the bytes into chunks sends on and buffers what feeding them whole does. */
  ghost predicate ChunkIndependent<Msg>(c: Codec<Msg>, s: Bytes) {
    forall chunks: seq<Bytes> :: Join(chunks) == s ==> FeedAll(c, START, chunks) == Feed(c, START, s)
  }

  /** The bytes after the first header that cannot be read, if parsing reaches one. */
  function AfterBroken(b: Bytes): (r: Option<Bytes>)
    ensures r.Some? ==> |r.value| + 4 <= |b|
    decreases |b|
  {
    match Examine(b)
    case Incomplete => None
    case Broken(i) => Some(b[i + 4..])
    case Complete(f) => AfterBroken(b[|Encode(f)|..])
  }

  lemma ExamineStable(a: Bytes, x: Bytes)
    ensures Examine(a).Broken? ==> Examine(a + x) == Examine(a)
    ensures Examine(a).Complete? ==> Examine(a + x) == Examine(a)
  {
    if IndexOfSep(a).Some? {
      var i := IndexOfSep(a).value;
      SepStable(a, x);
      assert (a + x)[..i] == a[..i];
      if Examine(a).Complete? {
        var n := ContentLength(a[..i]).value;
        assert (a + x)[i + 4..i + 4 + n] == a[i + 4..i + 4 + n];
      }
    }
  }

  /** Draining one well-framed frame and more. */
  lemma DrainOne<Msg>(c: Codec<Msg>, f: Frame, tail: Bytes)
    requires WellFramed(f)
    ensures Drain(c, Encode(f) + tail) == (Encode(Reframe(c, f)) + Drain(c, tail).0, Drain(c, tail).1)
    ensures AfterBroken(Encode(f) + tail) == AfterBroken(tail)
  {
    hide IndexOfSep, ContentLength;
    ExamineEncoded(f, tail);
    assert (Encode(f) + tail)[|Encode(f)|..] == tail;
  }

  lemma DrainStops<Msg>(c: Codec<Msg>, a: Bytes)
    ensures Examine(a).Incomplete? ==> Drain(c, a) == ("", a)
    ensures Examine(a).Broken? ==> AfterBroken(a).Some?
  {
    hide IndexOfSep, ContentLength;
  }

  /** More bytes after a buffer that has met no unreadable header: draining in two steps is draining at once. */
  lemma {:induction false} DrainAppend<Msg>(c: Codec<Msg>, a: Bytes, x: Bytes)
    requires AfterBroken(a).None?
    ensures var (out, rest) := Drain(c, a);
      && Drain(c, a + x) == (out + Drain(c, rest + x).0, Drain(c, rest + x).1)
      && AfterBroken(a + x) == AfterBroken(rest + x)
    decreases |a|
  {
    hide Drain, AfterBroken, Examine, Reframe;
    match Examine(a)
    case Broken(_) => DrainStops(c, a);
    case Incomplete => DrainStops(c, a); assert "" + Drain(c, a + x).0 == Drain(c, a + x).0;
    case Complete(f) =>
      var tail := a[|Encode(f)|..];
      ExamineFrame(a);
      assert a == Encode(f) + tail && a + x == Encode(f) + (tail + x);
      DrainOne(c, f, tail);
      DrainOne(c, f, tail + x);
      DrainAppend(c, tail, x);
      var (out, rest) := Drain(c, tail);
      assert (Encode(Reframe(c, f)) + out) + Drain(c, rest + x).0 == Encode(Reframe(c, f)) + (out + Drain(c, rest + x).0);
  }

  lemma {:induction false} BrokenAppend(a: Bytes, x: Bytes)
    requires AfterBroken(a).Some?
    ensures AfterBroken(a + x) == Some(AfterBroken(a).value + x)
    decreases |a|
  {
    hide IndexOfSep, ContentLength;
    ExamineStable(a, x);
    match Examine(a)
    case Broken(i) => assert (a + x)[i + 4..] == a[i + 4..] + x;
    case Complete(f) =>
      assert (a + x)[|Encode(f)|..] == a[|Encode(f)|..] + x;
      BrokenAppend(a[|Encode(f)|..], x);
  }

  /** Once an unreadable header is met nothing stays buffered. */
  lemma {:induction false} BrokenLeavesNothing<Msg>(c: Codec<Msg>, b: Bytes)
    requires AfterBroken(b).Some?
    ensures Drain(c, b).1 == ""
    decreases |b|
  {
    hide IndexOfSep, ContentLength;
    match Examine(b)
    case Broken(_) =>
    case Complete(f) => BrokenLeavesNothing(c, b[|Encode(f)|..]);
  }

  /** Feeding the chunks after a prefix that was fed, if an unreadable header can only end the stream. */
  lemma {:induction false} FeedRest<Msg>(c: Codec<Msg>, a: Bytes, chunks: seq<Bytes>)
    requires var after := AfterBroken(a + Join(chunks)); after.None? || after.value == ""
    ensures FeedAll(c, Feed(c, START, a), chunks) == Feed(c, START, a + Join(chunks))
    decreases |chunks|
  {
    hide AfterBroken, Feed;
    assert "" + a == a && "" + (a + Join(chunks)) == a + Join(chunks);
    if chunks == [] {
      assert a + Join(chunks) == a;
    } else {
      var x := chunks[0];
      assert a + Join(chunks) == (a + x) + Join(chunks[1..]);
      FeedOne(c, a, x, Join(chunks[1..]));
      FeedRest(c, a + x, chunks[1..]);
    }
  }

  lemma FeedOne<Msg>(c: Codec<Msg>, a: Bytes, x: Bytes, more: Bytes)
    requires var after := AfterBroken((a + x) + more); after.None? || after.value == ""
    ensures Feed(c, Feed(c, START, a), x) == Feed(c, START, a + x)
  {
    hide Drain, AfterBroken;
    if AfterBroken(a).None? {
      DrainAppend(c, a, x);
      FedBuffer(c, a);
      FedBuffer(c, a + x);
    } else {
      BrokenAppend(a, x + more);
      assert a + (x + more) == (a + x) + more;
      assert x == "" && a + x == a;
      BrokenLeavesNothing(c, a);
      FedBuffer(c, a);
      var s := Feed(c, START, a);
      DrainStops(c, "");
      assert s.buf + x == "" && s.pushed + "" == s.pushed;
      assert Examine("").Incomplete?;
    }
  }

  lemma FedBuffer<Msg>(c: Codec<Msg>, a: Bytes)
    ensures Feed(c, START, a) == Stream(Drain(c, a).0, Drain(c, a).1)
  {
    hide Drain;
    assert "" + a == a;
  }

  /**
   Chunk independence, exactly: the division into chunks does not matter if and only if parsing
   reaches no unreadable header, or only one that ends the stream.
   */
  lemma ChunkIndependence<Msg>(c: Codec<Msg>, s: Bytes)
    ensures ChunkIndependent(c, s) <==> AfterBroken(s).None? || AfterBroken(s).value == ""
  {
    hide AfterBroken;
    if AfterBroken(s).None? || AfterBroken(s).value == "" {
      forall chunks: seq<Bytes> | Join(chunks) == s
        ensures FeedAll(c, START, chunks) == Feed(c, START, s)
      {
        assert "" + Join(chunks) == s;
        FeedRest(c, "", chunks);
        assert Feed(c, START, "") == START;
      }
    } else {
      LastByteApart(c, s);
    }
  }

  /** Sending the last byte on its own leaves it buffered, where the whole stream leaves nothing. */
  lemma LastByteApart<Msg>(c: Codec<Msg>, s: Bytes)
    requires AfterBroken(s).Some? && AfterBroken(s).value != ""
    ensures !ChunkIndependent(c, s)
  {
    hide Drain, AfterBroken, Examine, Feed;
    var n := |s| - 1;
    var a, x := s[..n], s[n..];
    var chunks := [a, x];
    assert s == a + x;
    assert Join([x]) == x by { assert [x][1..] == [] && x + "" == x; }
    assert Join(chunks) == s by { assert chunks[1..] == [x]; }
    BrokenBefore(a, x);
    BrokenLeavesNothing(c, a);
    BrokenLeavesNothing(c, s);
    FedBuffer(c, a);
    FedBuffer(c, s);
    FeedTwo(c, a, x);
  }

  lemma FeedTwo<Msg>(c: Codec<Msg>, a: Bytes, x: Bytes)
    requires Feed(c, START, a).buf == "" && |x| == 1
    ensures FeedAll(c, START, [a, x]).buf == x
  {
    var s := Feed(c, START, a);
    assert [a, x][1..] == [x] && [x][1..] == [];
    assert s.buf + x == x;
    assert FeedAll(c, s, [x]) == FeedAll(c, Feed(c, s, x), []);
  }

  /** An empty header and one byte more: the stream passes whole, but not its last byte on its own. */
  lemma EmptyHeaderBreaks<Msg>(c: Codec<Msg>)
    ensures AfterBroken("\r\n\r\nx") == Some("x") && !ChunkIndependent(c, "\r\n\r\nx")
  {
    var s := "\r\n\r\nx";
    assert s[..4] == SEP && s[..0] == "" && s[4..] == "x";
    assert IndexOfSep(s) == Some(0) && ContentLength("") == None;
    assert Examine(s) == Broken(0);
    LastByteApart(c, s);
  }

  /** An unreadable header with bytes after it is met without the last of them. */
  lemma {:induction false} BrokenBefore(a: Bytes, x: Bytes)
    requires |x| == 1 && AfterBroken(a + x).Some? && AfterBroken(a + x).value != ""
    ensures AfterBroken(a).Some?
    decreases |a|
  {
    hide IndexOfSep, ContentLength;
    var s := a + x;
    match Examine(s)
    case Broken(i) => ExamineShorter(a, x, i);
    case Complete(f) =>
      var n := |Encode(f)|;
      assert n + 5 <= |s|;
      ExamineFrame(s);
      var tail := a[n..];
      assert a[..n] == s[..n];
      assert a == Encode(f) + tail;
      assert s[n..] == tail + x;
      ExamineEncoded(f, tail);
      BrokenBefore(tail, x);
  }

  /** A header that ends inside a prefix is found in the prefix. */
  lemma ExamineShorter(a: Bytes, x: Bytes, i: nat)
    requires i + 4 <= |a| && Examine(a + x) == Broken(i)
    ensures Examine(a) == Broken(i)
  {
    var s := a + x;
    SepLocal(s, i, a[i + 4..]);
    assert s[..i + 4] + a[i + 4..] == a;
    assert a[..i] == s[..i];
  }
}
