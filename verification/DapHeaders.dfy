/**
 What a whole header block announces: which of its lines is the length line, in whatever letter case and
 with whatever white space, and how its value is read.
 */
module DapHeaders {
  import opened Results
  import opened Strings
  import opened DapFraming

  const BLANKS := {' ', '\t', '\n', '\U{0B}', '\U{0C}', '\r'}

  predicate Blank(s: Bytes) {
    forall c <- s :: c in BLANKS
  }

  /** The name of the length header, in any mixture of cases. */
  predicate NamesLength(k: Bytes) {
    |k| == 14 && forall i :: 0 <= i < 14 ==> k[i] == "content-length"[i] || k[i] == "CONTENT-LENGTH"[i]
  }

  /** The line is split at its first colon into the length header's name and a value. */
  ghost predicate Announces(line: Bytes, value: Bytes) {
    exists a, k, b :: Spells(line, a, k, b, value)
  }

  predicate Spells(line: Bytes, a: Bytes, k: Bytes, b: Bytes, value: Bytes) {
    Blank(a) && NamesLength(k) && Blank(b) && line == a + k + b + ":" + value
  }

  predicate OneLineOnly(line: Bytes) {
    forall i :: 0 <= i < |line| - 1 ==> !(line[i] == '\r' && line[i + 1] == '\n')
  }

  function Join(lines: seq<Bytes>): Bytes
    requires lines != []
  {
    if |lines| == 1 then lines[0] else lines[0] + "\r\n" + Join(lines[1..])
  }

  // ---- White space ----

  lemma {:induction false} StartStripped(a: Bytes, s: Bytes)
    requires Blank(a) && (s == "" || s[0] !in BLANKS)
    ensures TrimStart(a + s) == s
  {
    if a == "" {
      assert a + s == s;
    } else {
      assert (a + s)[1..] == a[1..] + s && (a + s)[0] == a[0];
      assert a[0] in a && forall c <- a[1..] :: c in a;
      StartStripped(a[1..], s);
    }
  }

  lemma {:induction false} EndStripped(s: Bytes, b: Bytes)
    requires Blank(b) && (s == "" || s[|s| - 1] !in BLANKS)
    ensures TrimEnd(s + b) == s
  {
    if b == "" {
      assert s + b == s;
      NothingStripped(s);
    } else {
      var shorter, last := b[..|b| - 1], b[|b| - 1];
      assert s + b == (s + shorter) + [last] && last in b;
      assert forall c <- shorter :: c in b;
      LastStripped(s + shorter, last);
      EndStripped(s, shorter);
    }
  }

  lemma NothingStripped(s: Bytes)
    requires s == "" || s[|s| - 1] !in BLANKS
    ensures TrimEnd(s) == s
  {
  }

  lemma LastStripped(s: Bytes, last: char)
    requires last in BLANKS
    ensures TrimEnd(s + [last]) == TrimEnd(s)
  {
    assert (s + [last])[..|s|] == s;
  }

  lemma {:induction false} StartTrimmed(s: Bytes) returns (a: Bytes)
    ensures Blank(a) && s == a + TrimStart(s)
    ensures TrimStart(s) == "" || TrimStart(s)[0] !in BLANKS
  {
    if s != "" && IsSpace(s[0]) {
      var rest := StartTrimmed(s[1..]);
      a := [s[0]] + rest;
      assert s == [s[0]] + s[1..];
    } else {
      a := "";
    }
  }

  lemma {:induction false} EndTrimmed(s: Bytes) returns (b: Bytes)
    ensures Blank(b) && s == TrimEnd(s) + b
    ensures TrimEnd(s) == "" || TrimEnd(s)[|TrimEnd(s)| - 1] !in BLANKS
  {
    if s != "" && IsSpace(s[|s| - 1]) {
      var rest := EndTrimmed(s[..|s| - 1]);
      b := rest + [s[|s| - 1]];
      assert s == s[..|s| - 1] + [s[|s| - 1]];
    } else {
      b := "";
    }
  }

  // ---- The name ----

  lemma LowerNames(k: Bytes)
    ensures Lower(k) == KEY <==> NamesLength(k)
  {
    if Lower(k) == KEY {
      assert |k| == 14;
      forall i | 0 <= i < 14 ensures k[i] == "content-length"[i] || k[i] == "CONTENT-LENGTH"[i] {
        assert LowerChar(k[i]) == Lower(k)[i] == "content-length"[i];
      }
    }
  }

  lemma {:induction false} IndexFound(b: Bytes, c: char)
    ensures match IndexOf(b, c)
      case Some(i) => b[i] == c && c !in b[..i]
      case None => c !in b
  {
    if b != "" && b[0] != c {
      IndexFound(b[1..], c);
      if IndexOf(b, c).Some? {
        assert b[..IndexOf(b, c).value] == [b[0]] + b[1..][..IndexOf(b[1..], c).value];
      } else {
        assert b == [b[0]] + b[1..];
      }
    }
  }

  /** The part of a line before its first colon, if it has one, names the length header. */
  predicate KeyMatches(line: Bytes) {
    var colon := IndexOf(line, ':');
    colon.Some? && Lower(Trim(line[..colon.value])) == KEY
  }

  lemma AnnouncedMatches(line: Bytes, a: Bytes, k: Bytes, b: Bytes, value: Bytes)
    requires Spells(line, a, k, b, value)
    ensures KeyMatches(line) && line[IndexOf(line, ':').value + 1..] == value
  {
    var key := a + k + b;
    assert ':' !in key by {
      NoColon(k);
    }
    assert line == key + [':'] + value;
    IndexAfter(key, ':', value);
    assert line[..|key|] == key && line[|key| + 1..] == value;
    NameEnds(k);
    assert key == a + (k + b) && (k + b)[0] == k[0];
    StartStripped(a, k + b);
    EndStripped(k, b);
    LowerNames(k);
  }

  lemma NoColon(k: Bytes)
    requires NamesLength(k)
    ensures ':' !in k
  {
    forall i | 0 <= i < 14 ensures k[i] != ':' {
      assert "content-length"[i] != ':' && "CONTENT-LENGTH"[i] != ':';
    }
  }

  lemma NameEnds(k: Bytes)
    requires NamesLength(k)
    ensures k != "" && k[0] !in BLANKS && k[|k| - 1] !in BLANKS
  {
    assert k[0] == "content-length"[0] || k[0] == "CONTENT-LENGTH"[0];
    assert k[13] == "content-length"[13] || k[13] == "CONTENT-LENGTH"[13];
  }

  lemma MatchAnnounces(line: Bytes)
    requires KeyMatches(line)
    ensures Announces(line, line[IndexOf(line, ':').value + 1..])
  {
    var colon := IndexOf(line, ':').value;
    var key, value := line[..colon], line[colon + 1..];
    IndexFound(line, ':');
    var a := StartTrimmed(key);
    var b := EndTrimmed(TrimStart(key));
    var k := Trim(key);
    LowerNames(k);
    assert key == a + (k + b) == a + k + b;
    assert line == key + ":" + value;
    assert Spells(line, a, k, b, value);
  }

  // ---- Lines ----

  lemma {:induction false} FirstLineFound(line: Bytes, rest: Bytes)
    requires OneLineOnly(line)
    ensures FirstLine(line) == (line, None)
    ensures FirstLine(line + "\r\n" + rest) == (line, Some(rest))
  {
    var t := line + "\r\n" + rest;
    if line == "" {
      assert t[..2] == CRLF && t[2..] == rest;
    } else {
      FirstLineFound(line[1..], rest);
      assert t[1..] == line[1..] + "\r\n" + rest && line == [line[0]] + line[1..];
      assert t[..2][0] == line[0] && t[..2][1] == if |line| > 1 then line[1] else '\r' by {
        assert t == line + ("\r\n" + rest) && ("\r\n" + rest)[0] == '\r';
      }
      assert |line| >= 2 ==> line[..2][0] == line[0] && line[..2][1] == line[1];
    }
  }

  lemma LineSkipped(line: Bytes, rest: Bytes)
    requires OneLineOnly(line) && forall value :: !Announces(line, value)
    ensures ContentLength(line + "\r\n" + rest) == ContentLength(rest)
    ensures ContentLength(line) == None
  {
    hide Announces, OneLineOnly;
    FirstLineFound(line, rest);
    assert !KeyMatches(line) by {
      if KeyMatches(line) {
        MatchAnnounces(line);
      }
    }
  }

  /** Lines that announce no length are skipped. */
  lemma {:induction false} OtherLinesSkipped(lines: seq<Bytes>, i: nat)
    requires i < |lines| && forall j :: 0 <= j < |lines| ==> OneLineOnly(lines[j])
    requires forall j, value :: 0 <= j < i ==> !Announces(lines[j], value)
    ensures ContentLength(Join(lines)) == ContentLength(Join(lines[i..]))
  {
    hide Announces, OneLineOnly, ContentLength;
    if i == 0 {
      assert lines[0..] == lines;
    } else {
      LineSkipped(lines[0], Join(lines[1..]));
      assert lines[1..][i - 1..] == lines[i..];
      OtherLinesSkipped(lines[1..], i - 1);
    }
  }

  // ---- The value ----

  lemma {:induction false} DigitsStop(n: nat, tail: Bytes)
    requires tail == "" || !('0' <= tail[0] <= '9')
    ensures Digits(n, tail) == n
  {
  }

  lemma {:induction false} DigitsOnly(n: nat)
    ensures forall i :: 0 <= i < |Decimal(n)| ==> Decimal(n)[i] !in BLANKS
  {
    DecimalDigits(n);
  }

  /** A number after white space, with or without a plus sign, is read up to the first byte that is not a digit. */
  lemma NumberRead(a: Bytes, sign: Bytes, n: nat, tail: Bytes)
    requires Blank(a) && (sign == "" || sign == "+") && (tail == "" || !('0' <= tail[0] <= '9'))
    ensures ParseInt(Trim(a + sign + Decimal(n) + tail)) == Some(n)
  {
    var d := sign + Decimal(n);
    DecimalDigits(n);
    DigitsOnly(n);
    assert a + sign + Decimal(n) + tail == a + (d + tail) && (d + tail)[0] == d[0];
    assert d[|d| - 1] == Decimal(n)[|Decimal(n)| - 1];
    StartStripped(a, d + tail);
    var t := TailTrimmed(d, tail);
    SignedRead(sign, n, t);
  }

  lemma SignedRead(sign: Bytes, n: nat, t: Bytes)
    requires (sign == "" || sign == "+") && (t == "" || !('0' <= t[0] <= '9'))
    ensures ParseInt(sign + Decimal(n) + t) == Some(n)
  {
    DecimalDigits(n);
    DigitsDecimal(n, t);
    DigitsStop(n, t);
    assert sign == "" ==> sign + Decimal(n) + t == Decimal(n) + t;
    assert sign == "+" ==> (sign + Decimal(n) + t)[1..] == Decimal(n) + t;
    assert (Decimal(n) + t)[0] == Decimal(n)[0];
  }

  lemma {:induction false} TailTrimmed(d: Bytes, tail: Bytes) returns (t: Bytes)
    requires d != "" && d[|d| - 1] !in BLANKS
    ensures TrimEnd(d + tail) == d + t && |t| <= |tail| && t == tail[..|t|]
    decreases |tail|
  {
    var s := d + tail;
    if tail != "" && IsSpace(tail[|tail| - 1]) {
      assert s[..|s| - 1] == d + tail[..|tail| - 1];
      t := TailTrimmed(d, tail[..|tail| - 1]);
    } else {
      t := tail;
      assert tail == "" ==> s == d;
    }
  }

  /**
   The first line that names the length header, in any letter case and with white space around the name,
   decides the length, whatever the other lines say: the number after its colon, perhaps with a plus sign, up to
   the first byte that is no digit.
   */
  lemma LengthAnnounced(lines: seq<Bytes>, i: nat, a: Bytes, sign: Bytes, n: nat, tail: Bytes)
    requires i < |lines| && forall j :: 0 <= j < |lines| ==> OneLineOnly(lines[j])
    requires forall j, value :: 0 <= j < i ==> !Announces(lines[j], value)
    requires Announces(lines[i], a + sign + Decimal(n) + tail)
    requires Blank(a) && (sign == "" || sign == "+") && (tail == "" || !('0' <= tail[0] <= '9'))
    ensures ContentLength(Join(lines)) == Some(n)
  {
    DecidingLine(lines, i, a + sign + Decimal(n) + tail);
    NumberRead(a, sign, n, tail);
  }

  lemma DecidingLine(lines: seq<Bytes>, i: nat, value: Bytes)
    requires i < |lines| && forall j :: 0 <= j < |lines| ==> OneLineOnly(lines[j])
    requires forall j, v :: 0 <= j < i ==> !Announces(lines[j], v)
    requires Announces(lines[i], value)
    ensures ContentLength(Join(lines)) ==
            match ParseInt(Trim(value)) case Some(n) => (if n >= 0 then Some(n) else None) case None => None
  {
    hide OneLineOnly, Announces, ContentLength, ParseInt, Trim;
    OtherLinesSkipped(lines, i);
    FirstDecides(lines[i], if i + 1 < |lines| then Join(lines[i + 1..]) else "", value);
    assert lines[i..][1..] == lines[i + 1..];
  }

  lemma FirstDecides(line: Bytes, rest: Bytes, value: Bytes)
    requires OneLineOnly(line) && Announces(line, value)
    ensures forall header <- [line, line + "\r\n" + rest] ::
              ContentLength(header) == match ParseInt(Trim(value)) case Some(n) => (if n >= 0 then Some(n) else None) case None => None
  {
    hide OneLineOnly, Spells, ParseInt, FirstLine, IndexOf;
    FirstLineFound(line, rest);
    var a, k, b :| Spells(line, a, k, b, value);
    AnnouncedMatches(line, a, k, b, value);
  }

  /** A header none of whose lines names the length header announces none. */
  lemma NoLength(lines: seq<Bytes>)
    requires lines != [] && forall j :: 0 <= j < |lines| ==> OneLineOnly(lines[j])
    requires forall j, value :: 0 <= j < |lines| ==> !Announces(lines[j], value)
    ensures ContentLength(Join(lines)) == None
  {
    hide OneLineOnly, Announces, ContentLength;
    OtherLinesSkipped(lines, |lines| - 1);
    LineSkipped(lines[|lines| - 1], "");
  }

  /** A value that is no number, or a negative one, announces no length, even if a later line would. */
  lemma BadLength(lines: seq<Bytes>, i: nat, a: Bytes, text: Bytes)
    requires i < |lines| && forall j :: 0 <= j < |lines| ==> OneLineOnly(lines[j])
    requires forall j, value :: 0 <= j < i ==> !Announces(lines[j], value)
    requires Announces(lines[i], a + text) && Blank(a)
    requires text != "" && text[0] !in BLANKS && !('0' <= text[0] <= '9')
    requires text[0] != '+' && (text[0] == '-' ==> |text| > 1 && '1' <= text[1] <= '9')
    ensures ContentLength(Join(lines)) == None
  {
    hide ContentLength, Join, OneLineOnly, Announces, ParseInt, Trim;
    DecidingLine(lines, i, a + text);
    ValueRefused(a, text);
  }

  lemma ValueRefused(a: Bytes, text: Bytes)
    requires Blank(a) && text != "" && text[0] !in BLANKS && !('0' <= text[0] <= '9')
    requires text[0] != '+' && (text[0] == '-' ==> |text| > 1 && '1' <= text[1] <= '9')
    ensures var n := ParseInt(Trim(a + text)); n.Some? ==> n.value < 0
  {
    StartStripped(a, text);
    var t := TailTrimmed(text[..1], text[1..]);
    assert text[..1] + text[1..] == text && ([text[0]] + t)[1..] == t;
    if text[0] == '-' && t != "" {
      assert t[0] == text[1];
      DigitsGrow((text[1] - '0') as nat, t[1..]);
    }
  }

  lemma {:induction false} DigitsGrow(n: nat, b: Bytes)
    ensures Digits(n, b) >= n
    decreases |b|
  {
    if b != "" && IsDigit(b[0]) {
      DigitsGrow(10 * n + (b[0] - '0') as nat, b[1..]);
    }
  }
}
