/**
 The wire format of the Debug Adapter Protocol (section "Base Protocol"): header lines, an
 empty line, and as many body bytes as the Content-Length header says.

 A buffer is a string with one character for each byte.
 */
module DapFraming {
  import opened Results
  import opened Strings

  type Bytes = string

  const CRLF: Bytes := "\r\n"
  const SEP: Bytes := "\r\n\r\n"
  const KEY: Bytes := "content-length"

  // ---- Finding the end of the header ----

  /** The index of the first separator. */
  function IndexOfSep(b: Bytes): (r: Option<nat>)
    ensures r.Some? ==> r.value + 4 <= |b|
  {
    if |b| < 4 then None
    else if b[..4] == SEP then Some(0)
    else
      match IndexOfSep(b[1..])
      case None => None
      case Some(i) => Some(i + 1)
  }

  // ---- Reading the Content-Length header ----

  function IndexOf(b: Bytes, c: char): (r: Option<nat>)
    ensures r.Some? ==> r.value < |b|
  {
    if b == "" then None
    else if b[0] == c then Some(0)
    else
      match IndexOf(b[1..], c)
      case None => None
      case Some(i) => Some(i + 1)
  }

  /** The first line of a text and the text after it, if there is more. */
  function FirstLine(b: Bytes): (r: (Bytes, Option<Bytes>))
    ensures r.1.Some? ==> |r.1.value| < |b|
  {
    if b == "" then ("", None)
    else if |b| >= 2 && b[..2] == CRLF then ("", Some(b[2..]))
    else
      var (line, rest) := FirstLine(b[1..]);
      ([b[0]] + line, rest)
  }

  function Trim(b: Bytes): Bytes {
    TrimEnd(TrimStart(b))
  }

  function LowerChar(c: char): char {
    if 'A' <= c <= 'Z' then c - 'A' + 'a' else c
  }

  function Lower(b: Bytes): Bytes {
    seq(|b|, i requires 0 <= i < |b| => LowerChar(b[i]))
  }

  predicate IsDigit(c: char) {
    '0' <= c <= '9'
  }

  /** The number that the leading digits continue. */
  function Digits(acc: nat, b: Bytes): nat
    decreases |b|
  {
    if b != "" && IsDigit(b[0]) then Digits(10 * acc + (b[0] - '0') as nat, b[1..]) else acc
  }

  /** A number that starts a text, with an optional sign; None is not a number. */
  function ParseInt(b: Bytes): Option<int> {
    var unsigned := if b != "" && (b[0] == '-' || b[0] == '+') then b[1..] else b;
    if unsigned == "" || !IsDigit(unsigned[0]) then None
    else if b[0] == '-' then Some(-(Digits(0, unsigned) as int))
    else Some(Digits(0, unsigned))
  }

  /** The value of the first Content-Length line, if it is a length. */
  function ContentLength(header: Bytes): Option<nat>
    decreases |header|
  {
    var (line, rest) := FirstLine(header);
    var colon := IndexOf(line, ':');
    if colon.Some? && Lower(Trim(line[..colon.value])) == KEY then
      var n := ParseInt(Trim(line[colon.value + 1..]));
      if n.Some? && n.value >= 0 then Some(n.value) else None
    else if rest.Some? then ContentLength(rest.value)
    else None
  }

  // ---- Printing a header ----

  function Decimal(n: nat): Bytes {
    if n < 10 then ['0' + n as char] else Decimal(n / 10) + ['0' + (n % 10) as char]
  }

  function LengthHeader(n: nat): Bytes {
    "Content-Length: " + Decimal(n)
  }

  // ---- Frames ----

  datatype Frame = Frame(header: Bytes, body: Bytes)

  function Encode(f: Frame): Bytes {
    f.header + SEP + f.body
  }

  function EncodeAll(fs: seq<Frame>): Bytes {
    if fs == [] then "" else Encode(fs[0]) + EncodeAll(fs[1..])
  }

  /** The header ends at its first separator and announces the length of the body. */
  predicate WellFramed(f: Frame) {
    IndexOfSep(f.header + SEP) == Some(|f.header|) && ContentLength(f.header) == Some(|f.body|)
  }

  /** What stands at the head of a buffer. */
  datatype Head = Incomplete | Broken(headerEnd: nat) | Complete(frame: Frame)

  function Examine(b: Bytes): (h: Head)
    ensures h.Complete? ==> 4 <= |Encode(h.frame)| <= |b| && b[..|Encode(h.frame)|] == Encode(h.frame)
    ensures h.Broken? ==> h.headerEnd + 4 <= |b|
  {
    match IndexOfSep(b)
    case None => Incomplete
    case Some(i) =>
      match ContentLength(b[..i])
      case None => Broken(i)
      case Some(n) =>
        if |b| < i + 4 + n then Incomplete
        else
          SepAt(b);
          assert b[..i + 4 + n] == b[..i] + b[i..i + 4] + b[i + 4..i + 4 + n];
          Complete(Frame(b[..i], b[i + 4..i + 4 + n]))
  }

  /** The complete frames at the head of a buffer, and what remains. */
  function Parse(b: Bytes): (r: (seq<Frame>, Bytes))
    ensures |r.1| <= |b|
    decreases |b|
  {
    match Examine(b)
    case Complete(f) => var (fs, rest) := Parse(b[|Encode(f)|..]); ([f] + fs, rest)
    case _ => ([], b)
  }

  // ---- The separator search ----

  lemma {:induction false} SepAt(b: Bytes)
    ensures IndexOfSep(b).Some? ==> var i := IndexOfSep(b).value; b[i..i + 4] == SEP
  {
    if |b| >= 4 && b[..4] != SEP {
      SepAt(b[1..]);
    }
  }

  /** Only the bytes up to the end of the first separator decide where it is. */
  lemma {:induction false} SepLocal(b: Bytes, i: nat, x: Bytes)
    requires IndexOfSep(b) == Some(i)
    ensures IndexOfSep(b[..i + 4] + x) == Some(i)
  {
    var c := b[..i + 4] + x;
    assert c[..4] == b[..4];
    if i > 0 {
      SepLocal(b[1..], i - 1, x);
      assert c[1..] == b[1..][..i + 3] + x;
    }
  }

  lemma SepStable(b: Bytes, x: Bytes)
    requires IndexOfSep(b).Some?
    ensures IndexOfSep(b + x) == IndexOfSep(b)
  {
    var i := IndexOfSep(b).value;
    SepLocal(b, i, b[i + 4..] + x);
    assert b[..i + 4] + (b[i + 4..] + x) == b + x;
  }

  lemma {:induction false} SepAfter(h: Bytes)
    requires forall i :: 0 <= i < |h| ==> h[i] != '\r'
    ensures IndexOfSep(h + SEP) == Some(|h|)
  {
    var b := h + SEP;
    if h == "" {
      assert b[..4] == SEP;
    } else {
      assert b[0] == h[0] && b[..4][0] == b[0];
      assert b[1..] == h[1..] + SEP;
      SepAfter(h[1..]);
    }
  }

  // ---- Frames that are encoded are found again ----

  lemma ExamineEncoded(f: Frame, x: Bytes)
    requires WellFramed(f)
    ensures Examine(Encode(f) + x) == Complete(f)
  {
    var b := Encode(f) + x;
    SepStable(f.header + SEP, f.body + x);
    assert b == (f.header + SEP) + (f.body + x);
    assert b[..|f.header|] == f.header;
    assert b[|f.header| + 4..|Encode(f)|] == f.body;
  }

  /** A complete frame is well framed, and is found again whatever follows it. */
  lemma ExamineFrame(b: Bytes)
    requires Examine(b).Complete?
    ensures WellFramed(Examine(b).frame)
  {
    var f := Examine(b).frame;
    SepLocal(b, |f.header|, "");
    SepAt(b);
    assert b[..|f.header| + 4] == b[..|f.header|] + b[|f.header|..|f.header| + 4];
    assert b[..|f.header| + 4] + "" == f.header + SEP;
  }

  predicate AllWellFramed(fs: seq<Frame>) {
    forall i :: 0 <= i < |fs| ==> WellFramed(fs[i])
  }

  lemma ParseOne(f: Frame, tail: Bytes, gs: seq<Frame>, rest: Bytes)
    requires WellFramed(f) && Parse(tail) == (gs, rest)
    ensures Parse(Encode(f) + tail) == ([f] + gs, rest)
  {
    ExamineEncoded(f, tail);
    assert (Encode(f) + tail)[|Encode(f)|..] == tail;
  }

  lemma EncodeAllMore(f: Frame, fs: seq<Frame>, x: Bytes)
    ensures EncodeAll([f] + fs) + x == Encode(f) + (EncodeAll(fs) + x)
  {
    assert ([f] + fs)[1..] == fs;
    assert (Encode(f) + EncodeAll(fs)) + x == Encode(f) + (EncodeAll(fs) + x);
  }

  lemma {:induction false} ParseEncoded(fs: seq<Frame>, x: Bytes, gs: seq<Frame>, rest: Bytes)
    requires AllWellFramed(fs) && Parse(x) == (gs, rest)
    ensures Parse(EncodeAll(fs) + x) == (fs + gs, rest)
  {
    hide Parse, Encode, Examine, WellFramed;
    if fs == [] {
      assert EncodeAll(fs) + x == x && fs + gs == gs;
    } else {
      ParseEncoded(fs[1..], x, gs, rest);
      ParseOne(fs[0], EncodeAll(fs[1..]) + x, fs[1..] + gs, rest);
      EncodeAllMore(fs[0], fs[1..], x);
      assert [fs[0]] + fs[1..] == fs;
      assert [fs[0]] + (fs[1..] + gs) == fs + gs;
    }
  }

  /** Parsing loses nothing: the frames and the remainder spell the buffer. */
  lemma {:induction false} ParseSpells(b: Bytes)
    ensures var (fs, rest) := Parse(b);
      && b == EncodeAll(fs) + rest && !Examine(rest).Complete?
      && AllWellFramed(fs)
    decreases |b|
  {
    hide IndexOfSep, ContentLength;
    match Examine(b)
    case Complete(f) =>
      ExamineFrame(b);
      var n := |Encode(f)|;
      ParseSpells(b[n..]);
      var (fs, rest) := Parse(b[n..]);
      EncodeAllMore(f, fs, rest);
      assert b == b[..n] + b[n..];
    case _ => assert EncodeAll([]) + b == b;
  }

  // ---- A printed header announces its length ----

  lemma {:induction false} DigitsDecimal(n: nat, rest: Bytes)
    ensures Digits(0, Decimal(n) + rest) == Digits(n, rest)
  {
    if n < 10 {
      assert (Decimal(n) + rest)[1..] == rest;
    } else {
      var d := ['0' + (n % 10) as char];
      assert Decimal(n) + rest == Decimal(n / 10) + (d + rest);
      DigitsDecimal(n / 10, d + rest);
      assert (d + rest)[1..] == rest;
    }
  }

  lemma {:induction false} DecimalDigits(n: nat)
    ensures Decimal(n) != "" && forall i :: 0 <= i < |Decimal(n)| ==> IsDigit(Decimal(n)[i])
  {
    if n >= 10 {
      DecimalDigits(n / 10);
    }
  }

  lemma {:induction false} IndexAfter(b: Bytes, c: char, rest: Bytes)
    requires c !in b
    ensures IndexOf(b + [c] + rest, c) == Some(|b|)
  {
    var t := b + [c] + rest;
    if b == "" {
    } else {
      IndexAfter(b[1..], c, rest);
      assert t[1..] == b[1..] + [c] + rest;
    }
  }

  lemma {:induction false} OneLine(b: Bytes)
    requires forall i :: 0 <= i < |b| ==> b[i] != '\r'
    ensures FirstLine(b) == (b, None)
  {
    if b == "" {
    } else {
      assert |b| >= 2 ==> b[..2][0] == b[0];
      OneLine(b[1..]);
      assert [b[0]] + b[1..] == b;
    }
  }

  lemma HeaderKey()
    ensures Lower(Trim("Content-Length")) == KEY
  {
    var key := "Content-Length";
    assert TrimStart(key) == key && TrimEnd(key) == key;
    assert forall i :: 0 <= i < 14 ==> LowerChar(key[i]) == KEY[i];
  }

  lemma TrimNumber(n: nat)
    ensures Trim(" " + Decimal(n)) == Decimal(n)
  {
    var value := " " + Decimal(n);
    DecimalDigits(n);
    assert value[1..] == Decimal(n);
    assert TrimStart(Decimal(n)) == Decimal(n);
    assert TrimStart(value) == Decimal(n);
    assert TrimEnd(Decimal(n)) == Decimal(n);
  }

  lemma ParseIntReads(n: nat)
    ensures ParseInt(Decimal(n)) == Some(n)
  {
    DecimalDigits(n);
    DigitsDecimal(n, "");
    assert Decimal(n) + "" == Decimal(n);
  }

  lemma LengthHeaderReads(n: nat)
    ensures ContentLength(LengthHeader(n)) == Some(n)
    ensures IndexOfSep(LengthHeader(n) + SEP) == Some(|LengthHeader(n)|)
  {
    var key, value := "Content-Length", " " + Decimal(n);
    var h := LengthHeader(n);
    DecimalDigits(n);
    assert h == key + ":" + value;
    assert forall i :: 0 <= i < |value| ==> value[i] != '\r';
    assert forall i :: 0 <= i < |h| ==> h[i] != '\r';
    OneLine(h);
    SepAfter(h);
    IndexAfter(key, ':', value);
    HeaderKey();
    assert h[..14] == key && h[15..] == value;
    TrimNumber(n);
    ParseIntReads(n);
  }
}
