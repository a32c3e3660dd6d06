/**
 Qualified identifiers with nested template parameters, such as `foo::bar<baz::quox<3>, 1 + 2>`:
 the recursive parser, a printer, and the round trips between them.
 */
module QualifiedIdents {
  import opened Results
  import opened Strings

  datatype Segment = Segment(ident: string, parameters: seq<Param>)

  datatype Param = QIdent(q: seq<Segment>) | Other(text: string)

  // ---- Characters ----

  predicate IsIdentStart(c: char) {
    'a' <= c <= 'z' || 'A' <= c <= 'Z' || c == '_'
  }

  predicate IsIdentChar(c: char) {
    IsIdentStart(c) || '0' <= c <= '9'
  }

  predicate EndsText(c: char) {
    c == '<' || c == ',' || c == '>'
  }

  // ---- Small parsers ----

  function SkipBlanks(s: string): (r: string)
    ensures |r| <= |s|
  {
    if s != "" && IsBlank(s[0]) then SkipBlanks(s[1..]) else s
  }

  function IdentChars(s: string): (r: (string, string))
    ensures s == r.0 + r.1
  {
    if s != "" && IsIdentChar(s[0]) then
      var (chars, rest) := IdentChars(s[1..]);
      ([s[0]] + chars, rest)
    else ("", s)
  }

  function Ident(s: string): (r: Parsed<string, char>)
    ensures r.Parsed? ==> |r.rest| < |s|
  {
    if s == "" || !IsIdentStart(s[0]) then Failed
    else
      var (chars, rest) := IdentChars(s);
      Parsed(chars, rest)
  }

  function Text(s: string): (r: (string, string))
    ensures s == r.0 + r.1
  {
    if s != "" && !EndsText(s[0]) then
      var (text, rest) := Text(s[1..]);
      ([s[0]] + text, rest)
    else ("", s)
  }

  predicate StartsWithColons(s: string) {
    |s| >= 2 && s[0] == ':' && s[1] == ':'
  }

  /** What follows an optional leading `::`. */
  function SkipLeading(s: string): (r: string)
    ensures |r| <= |s|
  {
    if StartsWithColons(s) then SkipBlanks(s[2..]) else s
  }

  /** `::` with blanks around it. */
  function Separator(s: string): (r: Parsed<(), char>)
    ensures r.Parsed? ==> |r.rest| < |s|
  {
    var t := SkipBlanks(s);
    if StartsWithColons(t) then Parsed((), SkipBlanks(t[2..])) else Failed
  }

  // ---- The grammar ----

  function QualifiedIdent(s: string): (r: Parsed<seq<Segment>, char>)
    ensures r.Parsed? ==> |r.rest| < |s|
    decreases |s|, 3
  {
    var t := SkipLeading(s);
    match QSegment(t)
    case Failed => Failed
    case Parsed(seg, rest) =>
      var (segs, rest') := MoreSegments(rest);
      Parsed([seg] + segs, rest')
  }

  /** Further segments; a separator that no segment follows is not consumed. */
  function MoreSegments(s: string): (r: (seq<Segment>, string))
    ensures |r.1| <= |s|
    decreases |s|, 3
  {
    match Separator(s)
    case Failed => ([], s)
    case Parsed(_, t) =>
      match QSegment(t)
      case Failed => ([], s)
      case Parsed(seg, rest) =>
        var (segs, rest') := MoreSegments(rest);
        ([seg] + segs, rest')
  }

  function QSegment(s: string): (r: Parsed<Segment, char>)
    ensures r.Parsed? ==> |r.rest| < |s|
    decreases |s|, 2
  {
    match Ident(s)
    case Failed => Failed
    case Parsed(ident, rest) =>
      match TemplateParams(SkipBlanks(rest))
      case Failed => Parsed(Segment(ident, []), rest)
      case Parsed(parameters, rest') => Parsed(Segment(ident, parameters), rest')
  }

  function TemplateParams(s: string): (r: Parsed<seq<Param>, char>)
    ensures r.Parsed? ==> |r.rest| < |s|
    decreases |s|, 1
  {
    if s == "" || s[0] != '<' then Failed
    else
      var (parameters, rest) := match TemplateParam(SkipBlanks(s[1..]))
        case Failed => ([], s[1..])
        case Parsed(p, rest) => var (ps, rest') := MoreParams(SkipBlanks(rest)); ([p] + ps, rest');
      if rest != "" && rest[0] == '>' then Parsed(parameters, rest[1..]) else Failed
  }

  function MoreParams(s: string): (r: (seq<Param>, string))
    ensures |r.1| <= |s|
    decreases |s|, 5
  {
    if s == "" || s[0] != ',' then ([], s)
    else
      match TemplateParam(SkipBlanks(s[1..]))
      case Failed => ([], s)
      case Parsed(p, rest) =>
        var (ps, rest') := MoreParams(SkipBlanks(rest));
        ([p] + ps, rest')
  }

  function TemplateParam(s: string): (r: Parsed<Param, char>)
    ensures r.Parsed? ==> |r.rest| < |s|
    decreases |s|, 4
  {
    match QualifiedIdent(s)
    case Parsed(q, rest) => Parsed(QIdent(q), rest)
    case Failed =>
      var (text, rest) := Text(s);
      if text == "" then Failed else Parsed(Other(TrimEnd(TrimStart(text))), rest)
  }

  // ---- Printing ----

  function Print(q: seq<Segment>): string
    decreases q, 1
  {
    if q == [] then "" else PrintSegment(q[0]) + PrintMore(q[1..])
  }

  function PrintMore(q: seq<Segment>): string
    decreases q, 1
  {
    if q == [] then "" else "::" + PrintSegment(q[0]) + PrintMore(q[1..])
  }

  function PrintSegment(seg: Segment): string
    decreases seg, 0
  {
    if seg.parameters == [] then seg.ident
    else seg.ident + "<" + PrintParam(seg.parameters[0]) + PrintMoreParams(seg.parameters[1..]) + ">"
  }

  function PrintMoreParams(ps: seq<Param>): string
    decreases ps, 1
  {
    if ps == [] then "" else "," + PrintParam(ps[0]) + PrintMoreParams(ps[1..])
  }

  function PrintParam(p: Param): string
    decreases p, 0
  {
    match p
    case QIdent(q) => Print(q)
    case Other(text) => text
  }

  // ---- Well-formed identifiers ----

  /** An ASCII letter or an underscore, by its code. */
  predicate Letter(c: char) {
    65 <= c as int <= 90 || 97 <= c as int <= 122 || c as int == 95
  }

  predicate Digit(c: char) {
    48 <= c as int <= 57
  }

  predicate IsIdentifier(s: string) {
    s != "" && Letter(s[0]) && forall i :: 0 <= i < |s| ==> Letter(s[i]) || Digit(s[i])
  }

  predicate StartsAsIdent(s: string) {
    var t := SkipLeading(s); t != "" && IsIdentStart(t[0])
  }

  /** `::` and blanks may stand before the first letter. */
  lemma {:induction false} StartsMeans(s: string)
    ensures StartsAsIdent(s) <==>
      || (s != "" && Letter(s[0]))
      || exists k :: 2 <= k < |s| && s[0] == s[1] == ':' && Letter(s[k]) && forall i :: 2 <= i < k ==> s[i] == ' ' || s[i] == '\t'
  {
    if StartsWithColons(s) {
      var k := BlanksSkipped(s[2..]);
      if k < |s[2..]| {
        assert s[2..][k] == s[k + 2];
        assert forall i :: 2 <= i < k + 2 ==> s[i] == s[2..][i - 2];
      }
      if j :| 2 <= j < |s| && Letter(s[j]) && forall i :: 2 <= i < j ==> s[i] == ' ' || s[i] == '\t' {
        assert forall i :: 0 <= i < j - 2 ==> s[2..][i] == s[i + 2];
        assert k == j - 2;
      }
    }
  }

  lemma {:induction false} BlanksSkipped(s: string) returns (k: nat)
    ensures k <= |s| && SkipBlanks(s) == s[k..]
    ensures forall i :: 0 <= i < k ==> s[i] == ' ' || s[i] == '\t'
    ensures k < |s| ==> s[k] != ' ' && s[k] != '\t'
  {
    if s != "" && IsBlank(s[0]) {
      var j := BlanksSkipped(s[1..]);
      k := j + 1;
      assert forall i :: 1 <= i < k ==> s[i] == s[1..][i - 1];
    } else {
      k := 0;
    }
  }

  /** A text parameter that is read back as it is. */
  predicate PlainText(s: string) {
    && s != "" && !IsSpace(s[0]) && !IsSpace(s[|s| - 1])
    && (forall i :: 0 <= i < |s| ==> !EndsText(s[i]))
    && !StartsAsIdent(s)
  }

  predicate WellFormed(q: seq<Segment>)
    decreases q, 1
  {
    q != [] && AllSegments(q)
  }

  predicate AllSegments(q: seq<Segment>)
    decreases q, 0
  {
    q == [] || (IsIdentifier(q[0].ident) && AllParams(q[0].parameters) && AllSegments(q[1..]))
  }

  predicate AllParams(ps: seq<Param>)
    decreases ps, 0
  {
    ps == [] || (WellFormedParam(ps[0]) && AllParams(ps[1..]))
  }

  predicate WellFormedParam(p: Param)
    decreases p, 0
  {
    match p
    case QIdent(q) => WellFormed(q)
    case Other(text) => PlainText(text)
  }

  // ---- Printing and parsing gives the same identifier ----

  /** What may follow an identifier inside a parameter list, and at the end. */
  predicate Follows(rest: string) {
    rest == "" || rest[0] == ',' || rest[0] == '>'
  }

  lemma {:induction false} IdentCharsAll(ident: string, rest: string)
    requires forall i :: 0 <= i < |ident| ==> IsIdentChar(ident[i])
    requires rest == "" || !IsIdentChar(rest[0])
    ensures IdentChars(ident + rest) == (ident, rest)
  {
    if ident == "" {
      assert ident + rest == rest;
    } else {
      assert (ident + rest)[1..] == ident[1..] + rest;
      IdentCharsAll(ident[1..], rest);
      assert [ident[0]] + ident[1..] == ident;
    }
  }

  lemma IdentRead(ident: string, rest: string)
    requires IsIdentifier(ident) && (rest == "" || !IsIdentChar(rest[0]))
    ensures Ident(ident + rest) == Parsed(ident, rest)
  {
    IdentCharsAll(ident, rest);
  }

  lemma {:induction false} TextRead(text: string, rest: string)
    requires forall i :: 0 <= i < |text| ==> !EndsText(text[i])
    requires rest != "" && EndsText(rest[0])
    ensures Text(text + rest) == (text, rest)
  {
    if text == "" {
      assert text + rest == rest;
    } else {
      assert (text + rest)[1..] == text[1..] + rest;
      TextRead(text[1..], rest);
      assert [text[0]] + text[1..] == text;
    }
  }

  lemma {:induction false} SkipBlanksAppend(s: string, rest: string)
    requires rest != "" && EndsText(rest[0])
    ensures SkipBlanks(s + rest) == SkipBlanks(s) + rest
  {
    if s == "" {
      assert s + rest == rest && SkipBlanks(s) + rest == rest;
    } else if IsBlank(s[0]) {
      assert (s + rest)[1..] == s[1..] + rest;
      SkipBlanksAppend(s[1..], rest);
    } else {
      assert (s + rest)[0] == s[0];
    }
  }

  lemma PlainTextRead(text: string, rest: string)
    requires PlainText(text) && rest != "" && Follows(rest)
    ensures SkipBlanks(text + rest) == text + rest
    ensures TemplateParam(text + rest) == Parsed(Other(text), rest)
  {
    hide QualifiedIdent, Text, TrimStart, TrimEnd;
    var s := text + rest;
    assert s[0] == text[0];
    TextRead(text, rest);
    NotIdent(text, rest);
    TrimNothing(text);
  }

  lemma TrimNothing(text: string)
    requires text != "" && !IsSpace(text[0]) && !IsSpace(text[|text| - 1])
    ensures TrimEnd(TrimStart(text)) == text
  {
    assert TrimStart(text) == text;
  }

  /** A text that does not start as an identifier is not read as one. */
  lemma NotIdent(text: string, rest: string)
    requires text != "" && !StartsAsIdent(text) && rest != "" && Follows(rest)
    ensures QualifiedIdent(text + rest) == Failed
  {
    hide QualifiedIdent;
    var s := text + rest;
    if StartsWithColons(text) {
      assert s[2..] == text[2..] + rest;
      SkipBlanksAppend(text[2..], rest);
      var t := SkipLeading(text);
      assert SkipLeading(s) == t + rest;
      assert (t + rest)[0] == if t == "" then rest[0] else t[0];
    } else {
      assert |text| == 1 ==> s[1] == rest[0];
      assert SkipLeading(s) == s && s[0] == text[0];
    }
    NoIdent(s);
  }

  lemma NoIdent(s: string)
    requires Ident(SkipLeading(s)) == Failed
    ensures QualifiedIdent(s) == Failed
  {
  }

  lemma {:induction false} SegmentRead(seg: Segment, rest: string)
    requires IsIdentifier(seg.ident) && AllParams(seg.parameters)
    requires Follows(rest) || rest[0] == ':'
    ensures QSegment(PrintSegment(seg) + rest) == Parsed(seg, rest)
    decreases seg, 0
  {
    if seg.parameters == [] {
      IdentRead(seg.ident, rest);
    } else {
      var ps := seg.parameters;
      var tail := PrintParam(ps[0]) + (PrintMoreParams(ps[1..]) + (">" + rest));
      assert PrintSegment(seg) + rest == seg.ident + ("<" + tail);
      IdentRead(seg.ident, "<" + tail);
      assert ("<" + tail)[1..] == tail;
      ParamsRead(ps, rest);
    }
  }

  lemma {:induction false} ParamsRead(ps: seq<Param>, rest: string)
    requires ps != [] && AllParams(ps)
    ensures var tail := PrintParam(ps[0]) + (PrintMoreParams(ps[1..]) + (">" + rest));
      TemplateParams("<" + tail) == Parsed(ps, rest)
    decreases ps, 2
  {
    var more := PrintMoreParams(ps[1..]) + (">" + rest);
    var tail := PrintParam(ps[0]) + more;
    MoreFollows(ps[1..], rest);
    ParamRead(ps[0], more);
    MoreParamsRead(ps[1..], rest);
    assert ("<" + tail)[1..] == tail;
    assert [ps[0]] + ps[1..] == ps;
    assert (">" + rest)[1..] == rest;
  }

  lemma MoreFollows(ps: seq<Param>, rest: string)
    ensures var more := PrintMoreParams(ps) + (">" + rest); more != "" && Follows(more) && SkipBlanks(more) == more
  {
  }

  lemma {:induction false} MoreParamsRead(ps: seq<Param>, rest: string)
    requires AllParams(ps)
    ensures MoreParams(PrintMoreParams(ps) + (">" + rest)) == (ps, ">" + rest)
    decreases ps, 1
  {
    hide TemplateParam, WellFormedParam, PrintParam, Follows;
    if ps == [] {
      assert PrintMoreParams(ps) + (">" + rest) == ">" + rest;
    } else {
      var more := PrintMoreParams(ps[1..]) + (">" + rest);
      var s := PrintMoreParams(ps) + (">" + rest);
      assert s == "," + (PrintParam(ps[0]) + more) by {
        Assoc("," + PrintParam(ps[0]), PrintMoreParams(ps[1..]), ">" + rest);
        Assoc(",", PrintParam(ps[0]), more);
      }
      assert s[1..] == PrintParam(ps[0]) + more;
      MoreFollows(ps[1..], rest);
      ParamRead(ps[0], more);
      MoreParamsRead(ps[1..], rest);
      assert [ps[0]] + ps[1..] == ps;
    }
  }

  lemma {:induction false} ParamRead(p: Param, rest: string)
    requires WellFormedParam(p) && rest != "" && Follows(rest)
    ensures var s := PrintParam(p) + rest; SkipBlanks(s) == s && TemplateParam(s) == Parsed(p, rest)
    decreases p, 0
  {
    match p
    case Other(text) => PlainTextRead(text, rest);
    case QIdent(q) =>
      PrintStarts(q);
      QualifiedRead(q, rest);
  }

  lemma PrintStarts(q: seq<Segment>)
    requires WellFormed(q)
    ensures Print(q) != "" && IsIdentStart(Print(q)[0])
  {
    assert PrintSegment(q[0])[0] == q[0].ident[0];
  }

  /** Printing a well-formed identifier and parsing it gives it back and consumes exactly its text. */
  lemma {:induction false} QualifiedRead(q: seq<Segment>, rest: string)
    requires WellFormed(q) && Follows(rest)
    ensures QualifiedIdent(Print(q) + rest) == Parsed(q, rest)
    decreases q, 2
  {
    var more := PrintMore(q[1..]) + rest;
    var s := Print(q) + rest;
    PrintStarts(q);
    assert SkipLeading(s) == s;
    Assoc(PrintSegment(q[0]), PrintMore(q[1..]), rest);
    MoreSegmentsStart(q[1..], rest);
    SegmentRead(q[0], more);
    MoreSegmentsRead(q[1..], rest);
    assert [q[0]] + q[1..] == q;
  }

  lemma MoreSegmentsStart(q: seq<Segment>, rest: string)
    requires Follows(rest)
    ensures var more := PrintMore(q) + rest; Follows(more) || more[0] == ':'
  {
    if q == [] {
      assert PrintMore(q) + rest == rest;
    }
  }

  lemma {:induction false} MoreSegmentsRead(q: seq<Segment>, rest: string)
    requires AllSegments(q) && Follows(rest)
    ensures MoreSegments(PrintMore(q) + rest) == (q, rest)
    decreases q, 1
  {
    hide QSegment, AllParams, PrintSegment, Separator;
    var s := PrintMore(q) + rest;
    if q == [] {
      assert s == rest;
      NoSeparator(rest);
    } else {
      var more := PrintMore(q[1..]) + rest;
      var t := PrintSegment(q[0]) + more;
      assert s == "::" + t by {
        Assoc("::" + PrintSegment(q[0]), PrintMore(q[1..]), rest);
        Assoc("::", PrintSegment(q[0]), more);
      }
      SeparatorRead(q[0], more);
      MoreSegmentsStart(q[1..], rest);
      SegmentRead(q[0], more);
      MoreSegmentsRead(q[1..], rest);
      assert [q[0]] + q[1..] == q;
    }
  }

  lemma NoSeparator(rest: string)
    requires Follows(rest)
    ensures Separator(rest) == Failed
  {
  }

  lemma SeparatorRead(seg: Segment, more: string)
    requires IsIdentifier(seg.ident)
    ensures Separator("::" + (PrintSegment(seg) + more)) == Parsed((), PrintSegment(seg) + more)
  {
    var t := PrintSegment(seg) + more;
    assert t[0] == seg.ident[0];
    assert ("::" + t)[2..] == t;
  }

  /** Different well-formed identifiers print differently. */
  lemma PrintInjective(p: seq<Segment>, q: seq<Segment>)
    requires WellFormed(p) && WellFormed(q) && Print(p) == Print(q)
    ensures p == q
  {
    hide QualifiedIdent, Print;
    QualifiedRead(p, "");
    QualifiedRead(q, "");
  }

  // ---- Whatever is parsed is well formed ----

  /** No white space but spaces and tabs. */
  predicate BlankOnly(s: string) {
    forall i :: 0 <= i < |s| && IsSpace(s[i]) ==> IsBlank(s[i])
  }

  lemma {:induction false} SkipBlanksSound(s: string)
    ensures SkipBlanks(s) != "" ==> !IsBlank(SkipBlanks(s)[0])
    ensures BlankOnly(s) ==> BlankOnly(SkipBlanks(s))
  {
    if s != "" && IsBlank(s[0]) {
      SkipBlanksSound(s[1..]);
    }
  }

  lemma {:induction false} IdentCharsSound(s: string)
    ensures var (chars, rest) := IdentChars(s);
      && (forall i :: 0 <= i < |chars| ==> IsIdentChar(chars[i]))
      && (BlankOnly(s) ==> BlankOnly(rest))
      && (s != "" && IsIdentChar(s[0]) ==> chars != "" && chars[0] == s[0])
  {
    if s != "" && IsIdentChar(s[0]) {
      IdentCharsSound(s[1..]);
    }
  }

  lemma {:induction false} TextSound(s: string)
    ensures var (text, rest) := Text(s);
      && (forall i :: 0 <= i < |text| ==> !EndsText(text[i]))
      && (BlankOnly(s) ==> BlankOnly(text) && BlankOnly(rest))
  {
    if s != "" && !EndsText(s[0]) {
      TextSound(s[1..]);
      var text := Text(s[1..]).0;
      assert Text(s).0 == [s[0]] + text;
      assert forall i :: 0 < i < |Text(s).0| ==> Text(s).0[i] == text[i - 1];
    }
  }

  lemma {:induction false} TrimEndSound(s: string)
    requires s != "" && !IsSpace(s[0])
    ensures var t := TrimEnd(s); t != "" && !IsSpace(t[|t| - 1]) && |t| <= |s| && t == s[..|t|]
  {
    if IsSpace(s[|s| - 1]) {
      TrimEndSound(s[..|s| - 1]);
    }
  }

  lemma SeparatorSound(s: string)
    requires BlankOnly(s)
    ensures Separator(s).Parsed? ==> BlankOnly(Separator(s).rest)
  {
    SkipBlanksSound(s);
    var t := SkipBlanks(s);
    if StartsWithColons(t) {
      SkipBlanksSound(t[2..]);
    }
  }

  /** A text that stops short of an identifier start does not become one by losing its end. */
  lemma {:induction false} PrefixStarts(s: string, n: nat)
    requires n <= |s| && StartsAsIdent(s[..n])
    ensures StartsAsIdent(s)
  {
    var t := s[..n];
    if StartsWithColons(t) {
      assert t[2..] == s[2..][..n - 2];
      SkipBlanksPrefix(s[2..], n - 2);
    }
  }

  lemma {:induction false} SkipBlanksPrefix(s: string, n: nat)
    requires n <= |s| && SkipBlanks(s[..n]) != ""
    ensures SkipBlanks(s) != "" && SkipBlanks(s)[0] == SkipBlanks(s[..n])[0]
  {
    if s[..n] != "" && IsBlank(s[0]) {
      assert s[..n][1..] == s[1..][..n - 1];
      SkipBlanksPrefix(s[1..], n - 1);
    }
  }

  lemma {:induction false} QualifiedSound(s: string)
    requires BlankOnly(s)
    ensures var r := QualifiedIdent(s);
      && (r.Parsed? <==> StartsAsIdent(s))
      && (r.Parsed? ==> WellFormed(r.value) && BlankOnly(r.rest))
    decreases |s|, 4
  {
    if StartsWithColons(s) {
      SkipBlanksSound(s[2..]);
    }
    var t := SkipLeading(s);
    SegmentSound(t);
    var seg := QSegment(t);
    if seg.Parsed? {
      MoreSegmentsSound(seg.rest);
      var segs := MoreSegments(seg.rest).0;
      assert ([seg.value] + segs)[1..] == segs;
    }
  }

  lemma {:induction false} MoreSegmentsSound(s: string)
    requires BlankOnly(s)
    ensures var (segs, rest) := MoreSegments(s); AllSegments(segs) && BlankOnly(rest)
    decreases |s|, 3
  {
    SeparatorSound(s);
    var sep := Separator(s);
    if sep.Parsed? {
      SegmentSound(sep.rest);
      var seg := QSegment(sep.rest);
      if seg.Parsed? {
        MoreSegmentsSound(seg.rest);
        var segs := MoreSegments(seg.rest).0;
        assert ([seg.value] + segs)[1..] == segs;
      }
    }
  }

  lemma {:induction false} SegmentSound(s: string)
    requires BlankOnly(s)
    ensures var r := QSegment(s);
      && (r.Parsed? <==> s != "" && IsIdentStart(s[0]))
      && (r.Parsed? ==> IsIdentifier(r.value.ident) && AllParams(r.value.parameters) && BlankOnly(r.rest))
    decreases |s|, 2
  {
    IdentCharsSound(s);
    var id := Ident(s);
    if id.Parsed? {
      SkipBlanksSound(id.rest);
      TemplateParamsSound(SkipBlanks(id.rest));
    }
  }

  lemma {:induction false} TemplateParamsSound(s: string)
    requires BlankOnly(s)
    ensures var r := TemplateParams(s); r.Parsed? ==> AllParams(r.value) && BlankOnly(r.rest)
    decreases |s|, 1
  {
    if s != "" && s[0] == '<' {
      SkipBlanksSound(s[1..]);
      ParamSound(SkipBlanks(s[1..]));
      var p := TemplateParam(SkipBlanks(s[1..]));
      if p.Parsed? {
        SkipBlanksSound(p.rest);
        MoreParamsSound(SkipBlanks(p.rest));
        var ps := MoreParams(SkipBlanks(p.rest)).0;
        assert ([p.value] + ps)[1..] == ps;
      }
    }
  }

  lemma {:induction false} MoreParamsSound(s: string)
    requires BlankOnly(s)
    ensures var (ps, rest) := MoreParams(s); AllParams(ps) && BlankOnly(rest)
    decreases |s|, 6
  {
    if s != "" && s[0] == ',' {
      SkipBlanksSound(s[1..]);
      ParamSound(SkipBlanks(s[1..]));
      var p := TemplateParam(SkipBlanks(s[1..]));
      if p.Parsed? {
        SkipBlanksSound(p.rest);
        MoreParamsSound(SkipBlanks(p.rest));
        var ps := MoreParams(SkipBlanks(p.rest)).0;
        assert ([p.value] + ps)[1..] == ps;
      }
    }
  }

  lemma {:induction false} ParamSound(s: string)
    requires BlankOnly(s) && (s != "" ==> !IsBlank(s[0]))
    ensures var r := TemplateParam(s); r.Parsed? ==> WellFormedParam(r.value) && BlankOnly(r.rest)
    decreases |s|, 5
  {
    QualifiedSound(s);
    if QualifiedIdent(s).Failed? {
      TextSound(s);
      var text := Text(s).0;
      if text != "" {
        assert text[0] == s[0] && !IsSpace(s[0]);
        TrimEndSound(text);
        var t := TrimEnd(text);
        assert t == s[..|t|];
        if StartsAsIdent(t) {
          PrefixStarts(s, |t|);
        }
      }
    }
  }

  // ---- Printing is the shortest spelling ----

  lemma {:induction false} TrimStartShortens(s: string)
    ensures |TrimStart(s)| <= |s| && (|TrimStart(s)| == |s| ==> TrimStart(s) == s && (s != "" ==> !IsSpace(s[0])))
  {
    if s != "" && IsSpace(s[0]) {
      TrimStartShortens(s[1..]);
    }
  }

  lemma {:induction false} TrimEndShortens(s: string)
    ensures |TrimEnd(s)| <= |s| && (|TrimEnd(s)| == |s| ==> TrimEnd(s) == s && (s != "" ==> !IsSpace(s[|s| - 1])))
  {
    if s != "" && IsSpace(s[|s| - 1]) {
      TrimEndShortens(s[..|s| - 1]);
    }
  }

  /** A parsed identifier prints in at most the characters it was read from, and in as many only if it is well formed. */
  lemma {:induction false} QualifiedTight(s: string)
    ensures var r := QualifiedIdent(s);
      && (r.Parsed? <==> StartsAsIdent(s))
      && (r.Parsed? ==> |Print(r.value)| <= |s| - |r.rest| && (|Print(r.value)| == |s| - |r.rest| ==> WellFormed(r.value)))
    decreases |s|, 4
  {
    hide PrintSegment, PrintMore, AllParams, QSegment;
    var t := SkipLeading(s);
    SegmentTight(t);
    var seg := QSegment(t);
    if seg.Parsed? {
      MoreSegmentsTight(seg.rest);
      var segs := MoreSegments(seg.rest).0;
      assert ([seg.value] + segs)[1..] == segs;
    }
  }

  lemma {:induction false} MoreSegmentsTight(s: string)
    ensures var (segs, rest) := MoreSegments(s);
      |PrintMore(segs)| <= |s| - |rest| && (|PrintMore(segs)| == |s| - |rest| ==> AllSegments(segs))
    decreases |s|, 3
  {
    hide PrintSegment, AllParams, QSegment;
    var sep := Separator(s);
    if sep.Parsed? {
      SegmentTight(sep.rest);
      var seg := QSegment(sep.rest);
      if seg.Parsed? {
        MoreSegmentsTight(seg.rest);
        var segs := MoreSegments(seg.rest).0;
        assert ([seg.value] + segs)[1..] == segs;
        SeparatorTight(s);
      }
    }
  }

  lemma SeparatorTight(s: string)
    ensures var sep := Separator(s); sep.Parsed? ==> |sep.rest| + 2 <= |s|
  {
  }

  lemma {:induction false} SegmentTight(s: string)
    ensures var r := QSegment(s);
      && (r.Parsed? <==> s != "" && IsIdentStart(s[0]))
      && (r.Parsed? ==>
            && IsIdentifier(r.value.ident)
            && |PrintSegment(r.value)| <= |s| - |r.rest|
            && (|PrintSegment(r.value)| == |s| - |r.rest| ==> AllParams(r.value.parameters)))
    decreases |s|, 2
  {
    hide PrintParam, PrintMoreParams, WellFormedParam, TemplateParams;
    IdentCharsSound(s);
    var id := Ident(s);
    if id.Parsed? {
      assert s == id.value + id.rest;
      TemplateParamsTight(SkipBlanks(id.rest));
    }
  }

  function PrintParams(ps: seq<Param>): string {
    if ps == [] then "" else "<" + PrintParam(ps[0]) + PrintMoreParams(ps[1..]) + ">"
  }

  lemma {:induction false} TemplateParamsTight(s: string)
    ensures var r := TemplateParams(s);
      r.Parsed? ==> |PrintParams(r.value)| <= |s| - |r.rest| && (|PrintParams(r.value)| == |s| - |r.rest| ==> AllParams(r.value))
    decreases |s|, 1
  {
    hide PrintParam, PrintMoreParams, WellFormedParam, TemplateParam, MoreParams;
    if s != "" && s[0] == '<' {
      ParamTight(SkipBlanks(s[1..]));
      var p := TemplateParam(SkipBlanks(s[1..]));
      if p.Parsed? {
        MoreParamsTight(SkipBlanks(p.rest));
        var ps := MoreParams(SkipBlanks(p.rest)).0;
        assert ([p.value] + ps)[1..] == ps;
      }
    }
  }

  lemma {:induction false} MoreParamsTight(s: string)
    ensures var (ps, rest) := MoreParams(s);
      |PrintMoreParams(ps)| <= |s| - |rest| && (|PrintMoreParams(ps)| == |s| - |rest| ==> AllParams(ps))
    decreases |s|, 6
  {
    hide PrintParam, WellFormedParam, TemplateParam;
    if s != "" && s[0] == ',' {
      ParamTight(SkipBlanks(s[1..]));
      var p := TemplateParam(SkipBlanks(s[1..]));
      if p.Parsed? {
        MoreParamsTight(SkipBlanks(p.rest));
        var ps := MoreParams(SkipBlanks(p.rest)).0;
        assert ([p.value] + ps)[1..] == ps;
      }
    }
  }

  lemma {:induction false} ParamTight(s: string)
    ensures var r := TemplateParam(s);
      r.Parsed? ==> |PrintParam(r.value)| <= |s| - |r.rest| && (|PrintParam(r.value)| == |s| - |r.rest| ==> WellFormedParam(r.value))
    decreases |s|, 5
  {
    hide QualifiedIdent;
    QualifiedTight(s);
    if QualifiedIdent(s).Failed? {
      TextSound(s);
      var text := Text(s).0;
      TrimStartShortens(text);
      TrimEndShortens(TrimStart(text));
      assert s == text + Text(s).1 && text == s[..|text|];
      if text != "" && |TrimEnd(TrimStart(text))| == |text| {
        if StartsAsIdent(text) {
          PrefixStarts(s, |text|);
        }
        assert PlainText(text);
      }
    }
  }

  /**
   A parameter that is read as text, because the text does not start as an identifier, is well formed
   exactly if trimming leaves something, and something that still does not.
   */
  lemma TextParamKept(s: string)
    requires !StartsAsIdent(s) && Text(s).0 != ""
    ensures var r, trimmed := TemplateParam(s), TrimEnd(TrimStart(Text(s).0));
      r.Parsed? && (WellFormedParam(r.value) <==> trimmed != "" && !StartsAsIdent(trimmed))
  {
    hide QualifiedIdent;
    QualifiedTight(s);
    TextSound(s);
    var text := Text(s).0;
    TrimStartSound(text);
    var start := TrimStart(text);
    if start != "" {
      TrimEndSound(start);
    }
  }

  lemma {:induction false} TrimStartSound(s: string)
    ensures var t := TrimStart(s);
      (t != "" ==> !IsSpace(t[0])) && ((forall i :: 0 <= i < |s| ==> !EndsText(s[i])) ==> forall i :: 0 <= i < |t| ==> !EndsText(t[i]))
  {
    if s != "" && IsSpace(s[0]) {
      TrimStartSound(s[1..]);
    }
  }

  /**
   Printing what was parsed and parsing that again gives the same identifier, and reads to the end,
   exactly if it is well formed; and that it is whenever the input holds no white space but spaces and tabs.
   */
  lemma ParsedIsCanonical(s: string)
    requires QualifiedIdent(s).Parsed?
    ensures var q := QualifiedIdent(s).value;
      && (QualifiedIdent(Print(q)) == Parsed(q, "") <==> WellFormed(q))
      && (BlankOnly(s) ==> WellFormed(q))
  {
    hide QualifiedIdent, Print;
    var q := QualifiedIdent(s).value;
    if BlankOnly(s) {
      QualifiedSound(s);
    }
    QualifiedTight(Print(q));
    if WellFormed(q) {
      QualifiedRead(q, "");
      assert Print(q) + "" == Print(q);
    }
  }

  /** With other white space a parameter can be trimmed to nothing, and is lost when it is printed. */
  lemma NewlineNotCanonical()
    ensures QualifiedIdent("a<\n>") == Parsed([Segment("a", [Other("")])], "")
    ensures QualifiedIdent(Print([Segment("a", [Other("")])])) == Parsed([Segment("a", [])], "")
  {
    hide TemplateParams, QualifiedIdent, Print;
    NewlineParams();
    EmptyParams();
    OneSegment("<\n>", [Other("")]);
    OneSegment("<>", []);
    assert "a" + "<\n>" == "a<\n>" && "a" + "<>" == "a<>";
    PrintsEmpty();
  }

  /** A one-letter identifier with a parameter list that is read to the end. */
  lemma OneSegment(list: string, ps: seq<Param>)
    requires TemplateParams(list) == Parsed(ps, "") && list != "" && list[0] == '<'
    ensures QualifiedIdent("a" + list) == Parsed([Segment("a", ps)], "")
  {
    hide TemplateParams;
    IdentRead("a", list);
    var s := "a" + list;
    assert SkipBlanks(list) == list && s[0] == 'a' && SkipLeading(s) == s;
    assert QSegment(s) == Parsed(Segment("a", ps), "");
    assert MoreSegments("") == ([], "");
    assert [Segment("a", ps)] + [] == [Segment("a", ps)];
  }

  lemma PrintsEmpty()
    ensures Print([Segment("a", [Other("")])]) == "a<>"
  {
    assert PrintMoreParams([]) == "" && PrintMore([]) == "";
  }

  lemma NewlineParams()
    ensures TemplateParams("<\n>") == Parsed([Other("")], "")
  {
    NewlineParam();
    hide TemplateParam;
    assert "<\n>"[1..] == "\n>" && ">"[1..] == "";
    assert MoreParams(">") == ([], ">") && [Other("")] + [] == [Other("")];
  }

  lemma NewlineParam()
    ensures TemplateParam("\n>") == Parsed(Other(""), ">")
  {
    hide QualifiedIdent;
    assert "\n>"[1..] == ">" && ['\n'] + "" == "\n" && "\n"[1..] == "";
    assert Text(">") == ("", ">");
    assert Text("\n>") == ("\n", ">");
    assert TrimStart("\n") == "";
    NoIdent("\n>");
  }

  lemma EmptyParams()
    ensures TemplateParams("<>") == Parsed([], "")
  {
    hide QualifiedIdent;
    assert "<>"[1..] == ">" && ">"[1..] == "";
    assert Text(">") == ("", ">");
    NoIdent(">");
    assert TemplateParam(">") == Failed;
  }
}
