/**
 When a name followed by `<` is read as a template name, although a comparison may be meant: a flat scan
 of the text after the `<`, delimiter by delimiter and with a counter of open brackets, decides exactly
 what the recursive parser of qualified identifiers does with it.
 */
module Comparisons {
  import opened Results
  import opened Strings
  import opened QualifiedIdents

  // ---- The scan ----

  /** Identifiers separated by `::`, and then at most blanks. */
  predicate IsPath(p: string)
    decreases |p|
  {
    match Ident(p)
    case Failed => false
    case Parsed(_, after) =>
      match Separator(after)
      case Failed => SkipBlanks(after) == ""
      case Parsed(_, more) => IsPath(more)
  }

  /**
   Whether a piece of text may stand between two delimiters `<`, `,` or `>` of a parameter list: after a
   nested list, nothing or the rest of a path; otherwise a path, or any other text that does not start as
   an identifier and is not followed by `<`.
   */
  predicate Fits(prev: char, p: string, next: char) {
    if prev == '>' then
      if SkipBlanks(p) == "" then next != '<' else Separator(p).Parsed? && IsPath(Separator(p).rest)
    else if StartsAsIdent(SkipBlanks(p)) then IsPath(SkipLeading(SkipBlanks(p)))
    else next != '<' && (SkipBlanks(p) != "" || (prev == '<' && next == '>' && p == ""))
  }

  /** What follows the `>` that closes the outermost of the open brackets, if every piece on the way fits. */
  function Closing(prev: char, t: string, depth: nat): Option<string>
    requires depth > 0
    decreases |t|
  {
    var (p, rest) := Text(t);
    if rest == "" || !Fits(prev, p, rest[0]) then None
    else if rest[0] == '>' && depth == 1 then Some(rest[1..])
    else Closing(rest[0], rest[1..], if rest[0] == '<' then depth + 1 else if rest[0] == '>' then depth - 1 else depth)
  }

  lemma {:induction false} TextStops(s: string)
    ensures var (p, rest) := Text(s);
      (forall i :: 0 <= i < |p| ==> !EndsText(p[i])) && (rest != "" ==> EndsText(rest[0]))
  {
    if s != "" && !EndsText(s[0]) {
      TextStops(s[1..]);
      assert Text(s).0 == [s[0]] + Text(s[1..]).0;
    }
  }

  /** Closing one more bracket is closing the others, and then going on after a nested list. */
  lemma {:induction false} OneDeeper(prev: char, t: string, depth: nat)
    requires depth > 0
    ensures Closing(prev, t, depth + 1) ==
            match Closing(prev, t, depth) case None => None case Some(r) => Closing('>', r, 1)
    decreases |t|
  {
    hide Fits;
    TextStops(t);
    var (p, rest) := Text(t);
    if rest != "" && Fits(prev, p, rest[0]) && !(rest[0] == '>' && depth == 1) {
      OneDeeper(rest[0], rest[1..], if rest[0] == '<' then depth + 1 else if rest[0] == '>' then depth - 1 else depth);
    }
  }

  // ---- The parser, from each point of a parameter list to the list's end ----

  function CloseAt(s: string): Option<string> {
    if s != "" && s[0] == '>' then Some(s[1..]) else None
  }

  function AfterParam(s: string): Option<string> {
    CloseAt(MoreParams(SkipBlanks(s)).1)
  }

  function FromParam(s: string): Option<string> {
    match TemplateParam(SkipBlanks(s))
    case Failed => None
    case Parsed(_, rest) => AfterParam(rest)
  }

  function FromSegments(s: string): Option<string> {
    AfterParam(MoreSegments(s).1)
  }

  function FromSegment(s: string): Option<string> {
    match QSegment(s)
    case Failed => None
    case Parsed(_, rest) => FromSegments(rest)
  }

  /** What follows a parameter list. */
  function ListEnd(s: string): Option<string> {
    match TemplateParams(s)
    case Failed => None
    case Parsed(_, rest) => Some(rest)
  }

  function FromList(s: string): Option<string> {
    match ListEnd(s)
    case None => None
    case Some(rest) => FromSegments(rest)
  }

  lemma AfterParamIs(s: string)
    ensures var t := SkipBlanks(s);
      AfterParam(s) == if t != "" && t[0] == ',' then FromParam(t[1..]) else CloseAt(t)
  {
    hide TemplateParam;
  }

  lemma FromSegmentsIs(s: string)
    ensures FromSegments(s) == if Separator(s).Parsed? then FromSegment(Separator(s).rest) else AfterParam(s)
  {
    hide QSegment;
    AfterParamIs(s);
  }

  // ---- Small parsers at the end of a piece ----

  predicate AtDelimiter(rest: string) {
    rest == "" || EndsText(rest[0])
  }

  predicate NoDelimiter(p: string) {
    forall i :: 0 <= i < |p| ==> !EndsText(p[i])
  }

  lemma NothingToSkip(rest: string)
    requires AtDelimiter(rest)
    ensures SkipBlanks(rest) == rest
  {
  }

  lemma {:induction false} BlanksBoth(p: string, rest: string)
    requires AtDelimiter(rest)
    ensures SkipBlanks(p + rest) == SkipBlanks(p) + rest
    ensures NoDelimiter(p) ==> NoDelimiter(SkipBlanks(p))
  {
    if p == "" {
      assert p + rest == rest && "" + rest == rest;
      NothingToSkip(rest);
    } else {
      assert (p + rest)[1..] == p[1..] + rest;
      if IsBlank(p[0]) {
        BlanksBoth(p[1..], rest);
      }
    }
  }

  lemma {:induction false} IdentCharsBoth(p: string, rest: string)
    requires AtDelimiter(rest)
    ensures IdentChars(p + rest) == (IdentChars(p).0, IdentChars(p).1 + rest)
    ensures NoDelimiter(p) ==> NoDelimiter(IdentChars(p).1)
  {
    if p == "" {
      assert p + rest == rest;
    } else {
      assert (p + rest)[1..] == p[1..] + rest;
      if IsIdentChar(p[0]) {
        IdentCharsBoth(p[1..], rest);
      }
    }
  }

  lemma {:induction false} TextBoth(p: string, rest: string)
    requires NoDelimiter(p) && AtDelimiter(rest)
    ensures Text(p + rest) == (p, rest)
  {
    if p == "" {
      assert p + rest == rest;
    } else {
      assert (p + rest)[1..] == p[1..] + rest;
      TextBoth(p[1..], rest);
      assert [p[0]] + p[1..] == p;
    }
  }

  lemma ColonsBoth(p: string, rest: string)
    requires AtDelimiter(rest)
    ensures StartsWithColons(p + rest) <==> StartsWithColons(p)
    ensures StartsWithColons(p) ==> (p + rest)[2..] == p[2..] + rest
  {
  }

  lemma SeparatorBoth(p: string, rest: string)
    requires AtDelimiter(rest) && NoDelimiter(p)
    ensures Separator(p + rest) ==
            match Separator(p) case Failed => Failed case Parsed(v, more) => Parsed(v, more + rest)
    ensures Separator(p).Parsed? ==> NoDelimiter(Separator(p).rest) && SkipBlanks(p) != ""
  {
    hide SkipBlanks, StartsWithColons;
    var t := SkipBlanks(p);
    BlanksBoth(p, rest);
    ColonsBoth(t, rest);
    if StartsWithColons(t) {
      ColonsStart(t);
      BlanksBoth(t[2..], rest);
    }
  }

  lemma ColonsStart(t: string)
    requires StartsWithColons(t)
    ensures |t| >= 2
  {
  }

  lemma LeadingBoth(p: string, rest: string)
    requires AtDelimiter(rest) && NoDelimiter(p)
    ensures SkipLeading(p + rest) == SkipLeading(p) + rest
    ensures NoDelimiter(SkipLeading(p))
    ensures StartsAsIdent(p + rest) <==> StartsAsIdent(p)
  {
    ColonsBoth(p, rest);
    if StartsWithColons(p) {
      BlanksBoth(p[2..], rest);
    }
    var t := SkipLeading(p);
    assert t + rest != "" ==> (t + rest)[0] == if t != "" then t[0] else rest[0];
  }

  // ---- A segment, piece by piece ----

  function Onward(rest: string): Option<string> {
    if rest == "" then None
    else if rest[0] == '>' then Some(rest[1..])
    else if rest[0] == ',' then FromParam(rest[1..])
    else FromList(rest)
  }

  /** From the start of a segment, the parser goes on at the next delimiter exactly if a path leads there. */
  lemma {:induction false} SegmentPiece(p: string, rest: string)
    requires NoDelimiter(p) && AtDelimiter(rest)
    ensures FromSegment(p + rest) == if IsPath(p) then Onward(rest) else None
    decreases |p|
  {
    hide TemplateParams, MoreParams, MoreSegments, SkipBlanks, Separator, FromParam, FromSegments, AfterParam;
    IdentBoth(p, rest);
    if Ident(p).Parsed? {
      var x := Ident(p).rest;
      BlanksBoth(x, rest);
      SeparatorBoth(x, rest);
      FromSegmentsIs(x + rest);
      AfterParamIs(x + rest);
      ListOpens(SkipBlanks(x) + rest);
      SegmentEnds(p + rest, x + rest);
      assert SkipBlanks(x) != "" ==> (SkipBlanks(x) + rest)[0] == SkipBlanks(x)[0];
      if Separator(x).Parsed? {
        SegmentPiece(Separator(x).rest, rest);
      } else if SkipBlanks(x) == "" {
        assert SkipBlanks(x) + rest == rest;
      }
    }
  }

  lemma IdentBoth(p: string, rest: string)
    requires NoDelimiter(p) && AtDelimiter(rest)
    ensures Ident(p + rest) == match Ident(p) case Failed => Failed case Parsed(v, x) => Parsed(v, x + rest)
    ensures Ident(p).Parsed? ==> NoDelimiter(Ident(p).rest)
  {
    IdentCharsBoth(p, rest);
    assert p + rest != "" ==> (p + rest)[0] == if p != "" then p[0] else rest[0];
  }

  lemma ListOpens(s: string)
    ensures TemplateParams(s).Parsed? ==> s != "" && s[0] == '<'
  {
  }

  /** What follows a segment, depending on what follows its identifier. */
  lemma SegmentEnds(s: string, x: string)
    requires Ident(s).Parsed? && Ident(s).rest == x
    ensures FromSegment(s) ==
            if TemplateParams(SkipBlanks(x)).Parsed? then FromList(SkipBlanks(x)) else FromSegments(x)
  {
    hide TemplateParams, FromSegments, Ident;
  }

  // ---- The whole list ----

  /** A parameter, piece by piece. */
  lemma ParamPiece(p: string, rest: string)
    requires NoDelimiter(p) && AtDelimiter(rest)
    ensures FromParam(p + rest) ==
            (var u := SkipBlanks(p);
             if StartsAsIdent(u) then if IsPath(SkipLeading(u)) then Onward(rest) else None
             else if u == "" then None
             else if rest != "" && rest[0] == '<' then None
             else Onward(rest))
    ensures TemplateParam(SkipBlanks(p + rest)).Failed? <==> SkipBlanks(p) == ""
  {
    hide SkipBlanks, SkipLeading, QSegment, MoreSegments, MoreParams, IsPath, FromList, StartsAsIdent;
    var u := SkipBlanks(p);
    BlanksBoth(p, rest);
    LeadingBoth(u, rest);
    QualifiedTight(u + rest);
    if StartsAsIdent(u) {
      StartsNonEmpty(u);
      SegmentPiece(SkipLeading(u), rest);
    } else {
      TextBoth(u, rest);
      AfterParamIs(rest);
      NothingToSkip(rest);
    }
  }

  lemma StartsNonEmpty(u: string)
    requires StartsAsIdent(u)
    ensures u != ""
  {
  }

  /** What the parser does after a delimiter is what the scan does, for shorter texts. */
  lemma OnwardIs(rest: string)
    requires rest != "" && EndsText(rest[0])
    requires rest[0] == ',' ==> FromParam(rest[1..]) == Closing(',', rest[1..], 1)
    requires rest[0] == '<' ==> ListEnd(rest) == Closing('<', rest[1..], 1)
    requires ListEnd(rest).Some? ==> FromSegments(ListEnd(rest).value) == Closing('>', ListEnd(rest).value, 1)
    ensures Onward(rest) ==
            if rest[0] == '>' then Some(rest[1..])
            else Closing(rest[0], rest[1..], if rest[0] == '<' then 2 else 1)
  {
    hide ListEnd, FromParam, FromSegments, Closing;
    if rest[0] == '<' {
      OneDeeper('<', rest[1..], 1);
    }
  }

  /** At every point of a parameter list the recursive parser and the flat scan agree. */
  lemma {:induction false} ParserIsScan(t: string)
    ensures FromParam(t) == Closing(',', t, 1)
    ensures FromSegments(t) == Closing('>', t, 1)
    ensures ListEnd("<" + t) == Closing('<', t, 1)
    decreases |t|
  {
    hide TemplateParam, TemplateParams, MoreParams, MoreSegments, QSegment, FromParam, FromSegments, FromList, Onward;
    TextStops(t);
    var (p, rest) := Text(t);
    assert t == p + rest;
    if rest != "" {
      ParserIsScan(rest[1..]);
      assert rest[0] == '<' ==> rest == "<" + rest[1..];
      if ListEnd(rest).Some? {
        ListShorter(rest);
        ParserIsScan(ListEnd(rest).value);
      }
      OnwardIs(rest);
    } else {
      assert Onward(rest) == None by {
        NothingOnward();
      }
    }
    ParamPiece(p, rest);
    SegmentsPiece(p, rest);
    ListIs(t);
  }

  lemma NothingOnward()
    ensures Onward("") == None
  {
  }

  lemma ListShorter(s: string)
    requires ListEnd(s).Some?
    ensures |ListEnd(s).value| < |s|
  {
  }

  /** What follows a nested list, piece by piece. */
  lemma SegmentsPiece(p: string, rest: string)
    requires NoDelimiter(p) && AtDelimiter(rest)
    ensures FromSegments(p + rest) ==
            if SkipBlanks(p) == "" then if rest != "" && rest[0] == '<' then None else Onward(rest)
            else if Separator(p).Parsed? && IsPath(Separator(p).rest) then Onward(rest) else None
  {
    hide SkipBlanks, Separator, MoreSegments, FromParam, FromSegments, AfterParam, FromSegment, FromList, IsPath;
    FromSegmentsIs(p + rest);
    AfterParamIs(p + rest);
    BlanksBoth(p, rest);
    SeparatorBoth(p, rest);
    if Separator(p).Parsed? {
      SegmentPiece(Separator(p).rest, rest);
    } else if SkipBlanks(p) == "" {
      assert SkipBlanks(p) + rest == rest;
    }
  }

  lemma ListIs(t: string)
    ensures ListEnd("<" + t) ==
            if TemplateParam(SkipBlanks(t)).Failed? then CloseAt(t) else FromParam(t)
  {
    hide TemplateParam, MoreParams, SkipBlanks;
    assert ("<" + t)[1..] == t;
  }

  // ---- Names and comparisons ----

  /** A name: a path with or without a leading `::`, and the blanks behind it. */
  predicate IsName(name: string) {
    NoDelimiter(name) && IsPath(SkipLeading(name))
  }

  /** The blanks behind a path. */
  function PathEnd(p: string): string
    decreases |p|
  {
    match Ident(p)
    case Failed => p
    case Parsed(_, after) =>
      match Separator(after)
      case Failed => after
      case Parsed(_, more) => PathEnd(more)
  }

  /** Where the parser stops that starts with a path before `<`. */
  function NameEnd(p: string, t: string): string {
    match Closing('<', t, 1)
    case Some(after) => MoreSegments(after).1
    case None => PathEnd(p) + ("<" + t)
  }

  /** From each identifier of a path the parser reads on to the end of the path. */
  lemma {:induction false} PathBeforeLess(p: string, t: string)
    requires NoDelimiter(p) && IsPath(p)
    ensures var seg := QSegment(p + ("<" + t)); seg.Parsed? && MoreSegments(seg.rest).1 == NameEnd(p, t)
    decreases |p|
  {
    hide TemplateParams, SkipBlanks, Separator, Closing;
    var rest := "<" + t;
    IdentBoth(p, rest);
    var x := Ident(p).rest;
    BlanksBoth(x, rest);
    SeparatorBoth(x, rest);
    ParserIsScan(t);
    ListOpens(SkipBlanks(x) + rest);
    assert SkipBlanks(x) != "" ==> (SkipBlanks(x) + rest)[0] == SkipBlanks(x)[0];
    if Separator(x).Parsed? {
      PathBeforeLess(Separator(x).rest, t);
    } else {
      assert SkipBlanks(x) + rest == rest;
    }
  }

  /**
   A name before `<` takes in the text behind it, as far as a closing `>`, if and only if the scan of that
   text finds one; otherwise the name ends before the `<`.
   */
  lemma NameBeforeLess(name: string, t: string)
    requires IsName(name)
    ensures var r := QualifiedIdent(name + ("<" + t)); r.Parsed? && r.rest == NameEnd(SkipLeading(name), t)
  {
    hide QSegment, MoreSegments, NameEnd, IsPath, SkipLeading;
    LeadingBoth(name, "<" + t);
    PathBeforeLess(SkipLeading(name), t);
  }

  /** With one text between `<` and the next `>`, a name swallows the comparison exactly if that text fits. */
  lemma OneComparison(name: string, left: string, right: string)
    requires IsName(name) && NoDelimiter(left)
    ensures var r := QualifiedIdent(name + ("<" + (left + (">" + right))));
      r.Parsed? && r.rest ==
        if left == "" || (SkipBlanks(left) != "" &&
                          (StartsAsIdent(SkipBlanks(left)) ==> IsPath(SkipLeading(SkipBlanks(left)))))
        then MoreSegments(right).1 else PathEnd(SkipLeading(name)) + ("<" + (left + (">" + right)))
  {
    hide QualifiedIdent, MoreSegments, IsName, IsPath, StartsAsIdent, SkipLeading;
    NameBeforeLess(name, left + (">" + right));
    TextBoth(left, ">" + right);
    assert (">" + right)[1..] == right;
    EmptyText();
  }

  /** `x < 10 && y > 5`: a template name and a number, as far as the parser is concerned. */
  lemma ComparisonSwallowed()
    ensures QualifiedIdent("x < 10 && y > 5").Parsed? && QualifiedIdent("x < 10 && y > 5").rest == " 5"
  {
    var left, right := " 10 && y ", " 5";
    hide QualifiedIdent, IsPath;
    assert SkipBlanks(left) == "10 && y " by {
      assert left[1..] == "10 && y ";
    }
    OneLetter();
    OneComparison("x ", left, right);
    assert "x < 10 && y > 5" == "x " + ("<" + (left + (">" + right)));
    assert MoreSegments(right) == ([], right) by {
      assert right[1..] == "5";
    }
  }

  lemma OneLetter()
    ensures IsName("x ")
  {
    assert IdentChars(" ") == ("", " ") && "x "[1..] == " " && ['x'] + "" == "x";
    assert IdentChars("x ") == ("x", " ");
    assert SkipBlanks(" ") == "" by {
      assert " "[1..] == "";
    }
  }

  lemma EmptyText()
    ensures SkipBlanks("") == "" && !StartsAsIdent("")
  {
  }

  /** Without a `>` behind it a name never swallows anything. */
  lemma {:induction false} NoCloser(prev: char, t: string, depth: nat)
    requires depth > 0 && '>' !in t
    ensures Closing(prev, t, depth) == None
    decreases |t|
  {
    hide Fits;
    TextStops(t);
    var rest := Text(t).1;
    assert t == Text(t).0 + rest;
    if rest == "" {
    } else {
      assert rest[0] in t && forall c :: c in rest[1..] ==> c in t;
      NoCloser(rest[0], rest[1..], if rest[0] == '<' then depth + 1 else depth);
    }
  }
}
