/**
 The command line of the edit-and-continue rebuild, and how a POSIX shell splits it into words
 (sections 2.2.1, 2.2.2 and 2.3 of the POSIX Shell Command Language).
 */
module ShellQuoting {
  import opened Results
  import opened Strings

  // ---- Building the command line ----

  predicate IsNameChar(c: char) {
    'a' <= c <= 'z' || 'A' <= c <= 'Z' || '0' <= c <= '9' || c == '_'
  }

  /** The characters that need no quotes. */
  predicate IsSafe(c: char) {
    IsNameChar(c) || c == '/' || c == ':' || c == '=' || c == '.' || c == ',' || c == '@' || c == '%' || c == '+' || c == '-'
  }

  predicate AllSafe(s: string) {
    forall i :: 0 <= i < |s| ==> IsSafe(s[i])
  }

  /** Every quote closes the quoted text, stands escaped, and opens quoted text again. */
  function EscapeQuotes(s: string): string {
    if s == "" then "" else (if s[0] == '\'' then "'\\''" else [s[0]]) + EscapeQuotes(s[1..])
  }

  function ShellQuote(value: string): string {
    if value != "" && AllSafe(value) then value else "'" + EscapeQuotes(value) + "'"
  }

  function QuoteAll(args: seq<string>): string {
    if args == [] then "" else if |args| == 1 then ShellQuote(args[0]) else ShellQuote(args[0]) + " " + QuoteAll(args[1..])
  }

  function EnvChar(c: char): char {
    if 'a' <= c <= 'z' then c - 'a' + 'A' else if c == '-' then '_' else c
  }

  function EnvName(target: string): string {
    "CARGO_TARGET_" + seq(|target|, i requires 0 <= i < |target| => EnvChar(target[i])) + "_RUSTFLAGS"
  }

  predicate MentionsTarget(args: seq<string>) {
    exists i :: 0 <= i < |args| && (args[i] == "--target" || "--target=" <= args[i])
  }

  function IndexOf(args: seq<string>, x: string): (r: Option<nat>)
    ensures r.Some? ==> r.value < |args| && args[r.value] == x && x !in args[..r.value]
    ensures r.None? ==> x !in args
  {
    if args == [] then None
    else if args[0] == x then Some(0)
    else
      match IndexOf(args[1..], x)
      case None => None
      case Some(i) => Some(i + 1)
  }

  function EnsureCargoTarget(args: seq<string>, target: string): seq<string> {
    if MentionsTarget(args) then args
    else
      match IndexOf(args, "--")
      case Some(i) => args[..i] + ["--target", target] + args[i..]
      case None => args + ["--target", target]
  }

  function CommandLine(cargoArgs: seq<string>, target: string, rustflags: string): string {
    EnvName(target) + "=" + ShellQuote(rustflags) + " cargo " + QuoteAll(EnsureCargoTarget(cargoArgs, target))
  }

  // ---- Splitting a command line ----

  /** A character of a word, and whether it was quoted. */
  datatype WordChar = WordChar(c: char, quoted: bool)

  type Word = seq<WordChar>

  function TextOf(w: Word): string {
    seq(|w|, i requires 0 <= i < |w| => w[i].c)
  }

  /** Unquoted characters that end a command, start an operator or an expansion, or are patterns. */
  predicate IsSpecial(c: char) {
    c == '\n' || c == '|' || c == '&' || c == ';' || c == '<' || c == '>' || c == '(' || c == ')' || c == '$' || c == '`'
    || c == '"' || c == '*' || c == '?' || c == '[' || c == '#' || c == '~'
  }

  function Quoted(s: string): Word {
    seq(|s|, i requires 0 <= i < |s| => WordChar(s[i], true))
  }

  function Unquoted(s: string): Word {
    seq(|s|, i requires 0 <= i < |s| => WordChar(s[i], false))
  }

  /** The text up to the closing single quote, and what follows it. */
  function UntilQuote(s: string): (r: Option<(string, string)>)
    ensures r.Some? ==> |r.value.1| < |s|
  {
    if s == "" then None
    else if s[0] == '\'' then Some(("", s[1..]))
    else
      match UntilQuote(s[1..])
      case None => None
      case Some((text, rest)) => Some(([s[0]] + text, rest))
  }

  /** The words of a line; `word` is the one being read, if any. None if the line is not a simple list of words. */
  function Words(s: string, word: Option<Word>): Option<seq<Word>>
    decreases |s|
  {
    var sofar := if word.Some? then word.value else [];
    if s == "" then Some(if word.Some? then [word.value] else [])
    else if IsBlank(s[0]) then
      match Words(s[1..], None)
      case None => None
      case Some(ws) => Some((if word.Some? then [word.value] else []) + ws)
    else if s[0] == '\'' then
      match UntilQuote(s[1..])
      case None => None
      case Some((text, rest)) => Words(rest, Some(sofar + Quoted(text)))
    else if s[0] == '\\' then
      if |s| < 2 || s[1] == '\n' then None
      else Words(s[2..], Some(sofar + [WordChar(s[1], true)]))
    else if IsSpecial(s[0]) then None
    else Words(s[1..], Some(sofar + [WordChar(s[0], false)]))
  }

  predicate IsName(w: Word) {
    w != [] && !('0' <= w[0].c <= '9') && forall i :: 0 <= i < |w| ==> IsNameChar(w[i].c) && !w[i].quoted
  }

  /** A variable assignment: an unquoted name, an unquoted `=`, and a value. */
  predicate IsAssignment(w: Word, name: string, value: string) {
    && |name| < |w|
    && IsName(w[..|name|]) && TextOf(w[..|name|]) == name
    && w[|name|] == WordChar('=', false)
    && TextOf(w[|name| + 1..]) == value
  }

  // ---- A quoted word is read back ----

  /** The word that the quoted form of a value denotes. */
  function Reading(value: string): Word {
    if value != "" && AllSafe(value) then Unquoted(value) else Quoted(value)
  }

  lemma ReadingText(value: string)
    ensures TextOf(Reading(value)) == value
  {
  }

  lemma {:induction false} UntilQuoteStops(s: string, rest: string)
    requires forall i :: 0 <= i < |s| ==> s[i] != '\''
    ensures UntilQuote(s + ("'" + rest)) == Some((s, rest))
  {
    var t := s + ("'" + rest);
    if s == "" {
      assert t[1..] == rest;
    } else {
      assert t[1..] == s[1..] + ("'" + rest);
      UntilQuoteStops(s[1..], rest);
      assert [s[0]] + s[1..] == s;
    }
  }

  lemma {:induction false} SafeRead(s: string, word: Word, rest: string)
    requires AllSafe(s)
    ensures Words(s + rest, Some(word)) == Words(rest, Some(word + Unquoted(s)))
  {
    if s == "" {
      assert s + rest == rest && word + Unquoted(s) == word;
    } else {
      var next := word + [WordChar(s[0], false)];
      assert (s + rest)[0] == s[0] && (s + rest)[1..] == s[1..] + rest;
      SafeRead(s[1..], next, rest);
      assert next + Unquoted(s[1..]) == word + Unquoted(s);
    }
  }

  /** The prefix of a text before its first quote. */
  function Head(s: string): (h: string)
    ensures |h| <= |s| && s[..|h|] == h && (|h| < |s| ==> s[|h|] == '\'')
    ensures forall i :: 0 <= i < |h| ==> h[i] != '\''
  {
    if s == "" || s[0] == '\'' then "" else [s[0]] + Head(s[1..])
  }

  lemma {:induction false} EscapeHead(s: string)
    ensures EscapeQuotes(s) == Head(s) + EscapeQuotes(s[|Head(s)|..])
  {
    if s == "" || s[0] == '\'' {
      assert s[0..] == s && "" + EscapeQuotes(s) == EscapeQuotes(s);
    } else {
      EscapeHead(s[1..]);
      assert s[1..][|Head(s[1..])|..] == s[|Head(s)|..];
      Assoc([s[0]], Head(s[1..]), EscapeQuotes(s[|Head(s)|..]));
    }
  }

  /** Escaped text in quotes, read from its opening quote on. */
  lemma {:induction false} EscapedRead(s: string, word: Option<Word>, rest: string)
    ensures Words("'" + (EscapeQuotes(s) + ("'" + rest)), word) ==
            Words(rest, Some((if word.Some? then word.value else []) + Quoted(s)))
    decreases |s|
  {
    hide Words, Head;
    var sofar := if word.Some? then word.value else [];
    var h := Head(s);
    var tail := s[|h|..];
    EscapeHead(s);
    if tail == "" {
      assert h == s && EscapeQuotes(tail) == "" && h + "" == h;
      QuotedStep(h, word, rest);
    } else {
      var after := EscapeQuotes(tail[1..]) + ("'" + rest);
      var w1 := sofar + Quoted(h);
      EscapeOne(h, tail, rest);
      QuotedStep(h, word, "\\'" + ("'" + after));
      BackslashStep(w1, "'" + after);
      EscapedRead(tail[1..], Some(w1 + [WordChar('\'', true)]), rest);
      assert w1 + [WordChar('\'', true)] + Quoted(tail[1..]) == sofar + Quoted(s);
    }
  }

  lemma EscapeOne(h: string, tail: string, rest: string)
    requires tail != "" && tail[0] == '\''
    ensures h + EscapeQuotes(tail) + ("'" + rest) ==
            h + ("'" + ("\\'" + ("'" + (EscapeQuotes(tail[1..]) + ("'" + rest)))))
  {
    var escape, more, close := "'\\''", EscapeQuotes(tail[1..]), "'" + rest;
    assert EscapeQuotes(tail) == escape + more;
    hide EscapeQuotes;
    Assoc(h, escape + more, close);
    Assoc(escape, more, close);
    assert escape + (more + close) == "'" + ("\\'" + ("'" + (more + close)));
  }

  lemma BackslashStep(word: Word, rest: string)
    ensures Words("\\'" + rest, Some(word)) == Words(rest, Some(word + [WordChar('\'', true)]))
  {
    var s := "\\'" + rest;
    assert s[0] == '\\' && s[1] == '\'' && s[2..] == rest;
  }

  lemma QuotedStep(h: string, word: Option<Word>, rest: string)
    requires forall i :: 0 <= i < |h| ==> h[i] != '\''
    ensures Words("'" + (h + ("'" + rest)), word) ==
            Words(rest, Some((if word.Some? then word.value else []) + Quoted(h)))
  {
    var s := "'" + (h + ("'" + rest));
    assert s[1..] == h + ("'" + rest);
    UntilQuoteStops(h, rest);
  }

  /** Whatever the value, its quoted form is read back as the value, as part of the word at hand. */
  lemma QuoteRead(value: string, word: Option<Word>, rest: string)
    ensures Words(ShellQuote(value) + rest, word) ==
            Words(rest, Some((if word.Some? then word.value else []) + Reading(value)))
  {
    hide Words;
    if value != "" && AllSafe(value) {
      if word.Some? {
        SafeRead(value, word.value, rest);
      } else {
        SafeStart(value, rest);
      }
    } else {
      assert ShellQuote(value) + rest == "'" + (EscapeQuotes(value) + ("'" + rest));
      EscapedRead(value, word, rest);
    }
  }

  lemma SafeStart(s: string, rest: string)
    requires s != "" && AllSafe(s)
    ensures Words(s + rest, None) == Words(rest, Some([] + Unquoted(s)))
  {
    var first := [WordChar(s[0], false)];
    assert (s + rest)[0] == s[0] && (s + rest)[1..] == s[1..] + rest;
    SafeRead(s[1..], first, rest);
    assert first + Unquoted(s[1..]) == [] + Unquoted(s);
    assert [] + first == first;
  }

  function Readings(args: seq<string>): seq<Word> {
    seq(|args|, i requires 0 <= i < |args| => Reading(args[i]))
  }

  /** Any list of arguments, quoted and joined by spaces, is read back as that list. */
  lemma {:induction false} ArgsRead(args: seq<string>)
    ensures Words(QuoteAll(args), None) == Some(Readings(args))
  {
    hide ShellQuote, Reading;
    if args != [] {
      var more := QuoteAll(args[1..]);
      var w := [] + Reading(args[0]);
      assert w == Reading(args[0]);
      if |args| == 1 {
        QuoteRead(args[0], None, "");
        assert ShellQuote(args[0]) + "" == ShellQuote(args[0]);
        assert Readings(args) == [w];
      } else {
        QuoteRead(args[0], None, " " + more);
        Assoc(ShellQuote(args[0]), " ", more);
        assert (" " + more)[1..] == more;
        ArgsRead(args[1..]);
        assert [w] + Readings(args[1..]) == Readings(args);
      }
    } else {
      assert Readings(args) == [];
    }
  }

  predicate PlainTarget(target: string) {
    forall i :: 0 <= i < |target| ==> IsNameChar(target[i]) || target[i] == '-'
  }

  /** The name of the variable that holds the flags for a target: the target in capitals, with `_` for `-`. */
  predicate NamesFlags(name: string, target: string) {
    && |name| == 13 + |target| + 10
    && name[..13] == "CARGO_TARGET_" && name[13 + |target|..] == "_RUSTFLAGS"
    && forall i :: 0 <= i < |target| ==>
         name[13 + i] as int == (if target[i] == '-' then 95 else if 97 <= target[i] as int <= 122 then target[i] as int - 32
                                 else target[i] as int)
  }

  lemma FlagsNamed(target: string)
    ensures NamesFlags(EnvName(target), target)
  {
    var name := EnvName(target);
    assert name[..13] == "CARGO_TARGET_" && name[13 + |target|..] == "_RUSTFLAGS";
    assert forall i :: 0 <= i < |target| ==> name[13 + i] == EnvChar(target[i]);
  }

  /** Letters, digits and the punctuation that no shell reads specially. */
  predicate Plain(c: char) {
    || 48 <= c as int <= 57 || 65 <= c as int <= 90 || 97 <= c as int <= 122
    || c in {'_', '/', ':', '=', '.', ',', '@', '%', '+', '-'}
  }

  lemma {:induction false} EscapeLonger(s: string)
    ensures |EscapeQuotes(s)| >= |s|
  {
    if s != "" {
      EscapeLonger(s[1..]);
    }
  }

  /** Exactly the nonempty values made of plain characters go without quotes. */
  lemma QuotedUnlessPlain(value: string)
    ensures ShellQuote(value) == value <==> value != "" && forall i :: 0 <= i < |value| ==> Plain(value[i])
    ensures ShellQuote(value) == value || (ShellQuote(value)[0] == '\'' && ShellQuote(value)[|ShellQuote(value)| - 1] == '\'')
  {
    EscapeLonger(value);
    assert forall i :: 0 <= i < |value| ==> (IsSafe(value[i]) <==> Plain(value[i]));
  }

  lemma NameRead(target: string, rest: string)
    requires PlainTarget(target)
    ensures Words(EnvName(target) + "=" + rest, None) == Words(rest, Some(Unquoted(EnvName(target) + "=")))
  {
    hide Words;
    var name := EnvName(target);
    assert forall i :: 0 <= i < |name| ==> IsNameChar(name[i]);
    SafeStart(name + "=", rest);
    assert [] + Unquoted(name + "=") == Unquoted(name + "=");
  }

  /**
   The shell splits the command line into the assignment of the flags to the target's variable,
   `cargo`, and the original arguments, whatever the arguments and the flags contain, for every
   target made of letters, digits, `_` and `-`.
   */
  lemma CommandLineRead(cargoArgs: seq<string>, target: string, rustflags: string)
    requires PlainTarget(target)
    ensures var words := Words(CommandLine(cargoArgs, target, rustflags), None);
      var args := EnsureCargoTarget(cargoArgs, target);
      && words.Some? && |words.value| == 2 + |args|
      && IsAssignment(words.value[0], EnvName(target), rustflags) && NamesFlags(EnvName(target), target)
      && TextOf(words.value[1]) == "cargo"
      && forall i :: 0 <= i < |args| ==> TextOf(words.value[2 + i]) == args[i]
  {
    hide Words, ShellQuote, Reading, Readings, QuoteAll, EnvName, EnsureCargoTarget, IsAssignment, Unquoted, TextOf, NamesFlags;
    FlagsNamed(target);
    var args := EnsureCargoTarget(cargoArgs, target);
    var name := EnvName(target);
    var tail := " cargo " + QuoteAll(args);
    var w0 := Unquoted(name + "=") + Reading(rustflags);
    assert CommandLine(cargoArgs, target, rustflags) == name + "=" + (ShellQuote(rustflags) + tail);
    NameRead(target, ShellQuote(rustflags) + tail);
    QuoteRead(rustflags, Some(Unquoted(name + "=")), tail);
    CargoRead(w0, args);
    AssignmentRead(target, rustflags, w0);
    ReadingsText(args);
  }

  lemma ReadingsText(args: seq<string>)
    ensures |Readings(args)| == |args| && forall i :: 0 <= i < |args| ==> TextOf(Readings(args)[i]) == args[i]
  {
    hide TextOf, Reading;
    forall i | 0 <= i < |args| ensures TextOf(Readings(args)[i]) == args[i] {
      ReadingText(args[i]);
    }
  }

  lemma CargoRead(w0: Word, args: seq<string>)
    ensures Words(" cargo " + QuoteAll(args), Some(w0)) == Some([w0, Unquoted("cargo")] + Readings(args))
    ensures TextOf(Unquoted("cargo")) == "cargo"
  {
    hide QuoteAll, Readings;
    var rest := " " + QuoteAll(args);
    var s := " cargo " + QuoteAll(args);
    assert s[1..] == "cargo" + rest && rest[1..] == QuoteAll(args);
    SafeStart("cargo", rest);
    assert [] + Unquoted("cargo") == Unquoted("cargo");
    ArgsRead(args);
    assert [w0] + ([Unquoted("cargo")] + Readings(args)) == [w0, Unquoted("cargo")] + Readings(args);
  }

  lemma AssignmentRead(target: string, rustflags: string, w: Word)
    requires PlainTarget(target) && w == Unquoted(EnvName(target) + "=") + Reading(rustflags)
    ensures IsAssignment(w, EnvName(target), rustflags)
  {
    hide Reading;
    var name := EnvName(target);
    ReadingText(rustflags);
    assert w[..|name|] == Unquoted(name);
    assert w[|name| + 1..] == Reading(rustflags);
    assert forall i :: 0 <= i < |name| ==> IsNameChar(name[i]);
    assert TextOf(Unquoted(name)) == name;
  }

  /** A target with any other character gives no assignment: its variable is not a shell name. */
  lemma OddTargetIsNoName(target: string, w: Word, value: string)
    requires !PlainTarget(target)
    ensures !IsAssignment(w, EnvName(target), value)
  {
    var i :| 0 <= i < |target| && !IsNameChar(target[i]) && target[i] != '-';
    var name := EnvName(target);
    assert name[13 + i] == EnvChar(target[i]) && !IsNameChar(name[13 + i]);
    if IsAssignment(w, name, value) {
      AssignedName(w, name, value);
    }
  }

  lemma AssignedName(w: Word, name: string, value: string)
    requires IsAssignment(w, name, value)
    ensures forall k :: 0 <= k < |name| ==> IsNameChar(name[k])
  {
    forall k | 0 <= k < |name| ensures IsNameChar(name[k]) {
      assert TextOf(w[..|name|])[k] == w[..|name|][k].c;
    }
  }

  /** What the quotes are for: a shell does not read a special character outside quotes as itself. */
  lemma UnquotedSpecialFails(before: string, c: char, rest: string, word: Word)
    requires AllSafe(before)
    requires c in {'\n', '|', '&', ';', '<', '>', '(', ')', '$', '`', '"', '*', '?', '[', '#', '~'}
    ensures Words(before + [c] + rest, Some(word)) == None
  {
    assert before + [c] + rest == before + ([c] + rest);
    SafeRead(before, word, [c] + rest);
  }

  // ---- The target option ----

  /** The arguments that cargo itself reads: those before `--`. */
  function CargoPart(args: seq<string>): seq<string> {
    match IndexOf(args, "--")
    case Some(i) => args[..i]
    case None => args
  }

  /**
   The arguments stay as they are exactly if one of them mentions a target. Adding the target leaves the
   program's arguments alone and only appends to cargo's own; cargo then sees a target, except when only
   the program's arguments mention one.
   */
  lemma TargetEnsured(args: seq<string>, target: string)
    requires target != "--"
    ensures EnsureCargoTarget(args, target) == args <==>
            exists i :: 0 <= i < |args| && (args[i] == "--target" || (|args[i]| >= 9 && args[i][..9] == "--target="))
    ensures var r := EnsureCargoTarget(args, target);
      && (r == args || (CargoPart(r) == CargoPart(args) + ["--target", target]
                        && r[|CargoPart(r)|..] == args[|CargoPart(args)|..]))
      && (MentionsTarget(CargoPart(r)) <==> MentionsTarget(CargoPart(args)) || !MentionsTarget(args))
      && EnsureCargoTarget(r, target) == r
  {
    var r := EnsureCargoTarget(args, target);
    if !MentionsTarget(args) {
      var before := CargoPart(args);
      var after := args[|before|..];
      assert args == before + after && r == before + ["--target", target] + after;
      assert r[|before|] == "--target";
      assert MentionsTarget(r);
      assert "--" !in before + ["--target", target];
      FirstSeparator(before + ["--target", target], after);
      assert CargoPart(r)[|before|] == "--target";
    } else if MentionsTarget(CargoPart(args)) {
      var i :| 0 <= i < |CargoPart(args)| && (CargoPart(args)[i] == "--target" || "--target=" <= CargoPart(args)[i]);
      assert args[i] == CargoPart(args)[i];
    }
  }

  lemma {:induction false} FirstSeparator(before: seq<string>, after: seq<string>)
    requires "--" !in before && (after == [] || after[0] == "--")
    ensures CargoPart(before + after) == before
  {
    if before == [] {
      assert before + after == after;
      assert after[..0] == [];
    } else {
      FirstSeparator(before[1..], after);
      assert (before + after)[1..] == before[1..] + after;
      assert "--" !in before[1..];
      SeparatorAfter(before[0], before[1..] + after);
      assert [before[0]] + (before[1..] + after) == before + after;
      assert [before[0]] + before[1..] == before;
    }
  }

  lemma SeparatorAfter(x: string, args: seq<string>)
    requires x != "--"
    ensures CargoPart([x] + args) == [x] + CargoPart(args)
  {
    assert ([x] + args)[1..] == args;
    var i := IndexOf(args, "--");
    if i.Some? {
      assert ([x] + args)[..i.value + 1] == [x] + args[..i.value];
    }
  }
}
