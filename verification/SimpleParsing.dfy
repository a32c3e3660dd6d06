/**
 The parser of simple expressions is exact: it accepts a lexeme sequence with a given tree
 precisely when the tree's lexemes are that sequence, the tree obeys the operator table and
 no subtree has one of the two shapes the parser claims for something else.
 */
module SimpleParsing {
  import opened Results
  import opened SimpleExpressions
  import opened Strings

  // ---- Soundness ----

  predicate FrameObeys(f: Frame) {
    match f
    case Pending(op) => IsPrefix(op)
    case Awaiting(lhs, op) => IsBinary(op) && ObeysTable(lhs) && FitsLeft(Level(lhs), op)
    case Suffix(post) => PostObeys(post)
  }

  predicate FrameTakes(f: Frame, level: nat) {
    match f
    case Pending(_) => level <= PREFIX_RANK
    case Awaiting(_, op) => FitsRight(level, op)
    case Suffix(_) => level <= POSTFIX_RANK
  }

  /** An operand of the given level may be placed on top of these frames. */
  predicate Accepts(frames: seq<Frame>, level: nat) {
    frames == [] ||
    var rest := frames[..|frames| - 1];
    var last := frames[|frames| - 1];
    FrameObeys(last) && FrameTakes(last, level) && Accepts(rest, FrameRank(last))
  }

  /** A parse result accounts for a text: its tree obeys the table and spells what was consumed. */
  predicate Spells(r: Parsed<Expr, Token>, text: seq<Token>) {
    r.Parsed? ==> ObeysTable(r.value) && text == Yield(r.value) + r.rest
  }

  function Unwind(frames: seq<Frame>, top: Expr): Expr {
    ApplyAll(frames, top, NothingNext).1
  }

  /** The lexemes of a frame that stand to the left of the operand to come. */
  function FrameText(f: Frame): seq<Token> {
    match f
    case Pending(op) => [Sym(op)]
    case Awaiting(lhs, op) => Yield(lhs) + [Sym(op)]
    case Suffix(_) => []
  }

  function Before(frames: seq<Frame>): seq<Token> {
    if frames == [] then [] else Before(frames[..|frames| - 1]) + FrameText(frames[|frames| - 1])
  }

  predicate NoSuffix(frames: seq<Frame>) {
    forall f <- frames :: !f.Suffix?
  }

  lemma BeforePush(frames: seq<Frame>, f: Frame)
    ensures Before(frames + [f]) == Before(frames) + FrameText(f)
  {
    assert (frames + [f])[..|frames|] == frames;
  }

  lemma {:induction false} UnwindYield(frames: seq<Frame>, top: Expr)
    requires NoSuffix(frames)
    ensures Yield(Unwind(frames, top)) == Before(frames) + Yield(top)
  {
    if frames == [] {
    } else {
      var last, rest := frames[|frames| - 1], frames[..|frames| - 1];
      assert Yield(Apply(last, top)) == FrameText(last) + Yield(top);
      UnwindYield(rest, Apply(last, top));
      Assoc(Before(rest), FrameText(last), Yield(top));
    }
  }

  lemma {:induction false} ApplyAllKeeps(frames: seq<Frame>, top: Expr, next: Incoming)
    requires Accepts(frames, Level(top)) && ObeysTable(top)
    ensures var (fs, t) := ApplyAll(frames, top, next);
      && Accepts(fs, Level(t)) && ObeysTable(t)
      && Unwind(fs, t) == Unwind(frames, top)
      && (fs == [] || !AppliesBefore(fs[|fs| - 1], next))
  {
    if frames == [] {
    } else {
      var last := frames[|frames| - 1];
      if AppliesBefore(last, next) {
        ApplyAllKeeps(frames[..|frames| - 1], Apply(last, top), next);
      }
    }
  }

  /** What the operators applied for an incoming operator leave behind. */
  lemma {:induction false} ApplyAllFits(frames: seq<Frame>, top: Expr, next: Incoming)
    requires next.BinaryNext? ==> IsBinary(next.op) && FitsLeft(Level(top), next.op)
    requires next.PostfixNext? ==> Level(top) <= POSTFIX_RANK
    ensures var t := ApplyAll(frames, top, next).1;
      && (next.BinaryNext? ==> FitsLeft(Level(t), next.op))
      && (next.PostfixNext? ==> Level(t) <= POSTFIX_RANK)
  {
    if frames == [] {
    } else {
      var last := frames[|frames| - 1];
      if AppliesBefore(last, next) {
        ApplyAllFits(frames[..|frames| - 1], Apply(last, top), next);
      }
    }
  }

  /** Suffixes are only ever on top of the stack. */
  predicate SuffixOnTop(frames: seq<Frame>) {
    frames != [] ==> NoSuffix(frames[..|frames| - 1])
  }

  lemma {:induction false} ApplyAllSuffix(frames: seq<Frame>, top: Expr, next: Incoming)
    requires SuffixOnTop(frames) && !next.NothingNext?
    ensures NoSuffix(ApplyAll(frames, top, next).0)
  {
    if frames == [] {
    } else {
      var last := frames[|frames| - 1];
      if AppliesBefore(last, next) {
        ApplyAllSuffix(frames[..|frames| - 1], Apply(last, top), next);
      }
    }
  }

  lemma {:induction false} ReadOperandSound(ts: seq<Token>, frames: seq<Frame>)
    requires Accepts(frames, 0) && NoSuffix(frames)
    ensures Spells(ReadOperand(ts, frames), Before(frames) + ts)
    decreases |ts|, 4
  {
    if ts != [] && ts[0].Sym? && IsPrefix(ts[0].symbol) {
      var f := Pending(ts[0].symbol);
      PushAccepts(frames, f);
      BeforePush(frames, f);
      ReadOperandSound(ts[1..], frames + [f]);
      Assoc(Before(frames), FrameText(f), ts[1..]);
      assert FrameText(f) + ts[1..] == ts;
    } else {
      OperandSound(ts);
      var o := Operand(ts);
      if o.Parsed? {
        UnwindYield(frames, o.value);
        ReadOperatorSound(o.rest, frames, o.value);
        Assoc(Before(frames), Yield(o.value), o.rest);
      }
    }
  }

  lemma PushAccepts(frames: seq<Frame>, f: Frame)
    requires FrameObeys(f) && Accepts(frames, FrameRank(f))
    ensures Accepts(frames + [f], if f.Suffix? then POSTFIX_RANK else 0)
  {
    assert (frames + [f])[..|frames|] == frames;
  }

  /** The parser's state after an operand: the stack takes the operand, and suffixes are on top. */
  predicate AfterOperand(frames: seq<Frame>, top: Expr) {
    && Accepts(frames, Level(top)) && ObeysTable(top)
    && SuffixOnTop(frames) && Level(top) <= POSTFIX_RANK
  }

  /** Pushing a postfix operator keeps the state and adds exactly the operator's text. */
  lemma SuffixPushed(frames: seq<Frame>, top: Expr, post: Post)
    requires AfterOperand(frames, top) && PostObeys(post)
    ensures var (fs, t) := ApplyAll(frames, top, PostfixNext);
      && AfterOperand(fs + [Suffix(post)], t)
      && Yield(Unwind(fs + [Suffix(post)], t)) == Yield(Unwind(frames, top)) + YieldPost(post)
  {
    var (fs, t) := ApplyAll(frames, top, PostfixNext);
    ApplyAllKeeps(frames, top, PostfixNext);
    ApplyAllFits(frames, top, PostfixNext);
    ApplyAllSuffix(frames, top, PostfixNext);
    AcceptsLooser(fs, Level(t), POSTFIX_RANK);
    AcceptsOperand(fs, Suffix(post), Level(t));
    SuffixText(fs, t, post);
    assert (fs + [Suffix(post)])[..|fs|] == fs;
  }

  lemma SuffixText(frames: seq<Frame>, t: Expr, post: Post)
    requires NoSuffix(frames)
    ensures Yield(Unwind(frames + [Suffix(post)], t)) == Yield(Unwind(frames, t)) + YieldPost(post)
  {
    ApplyStep(frames, Suffix(post), t, NothingNext);
    UnwindYield(frames, t);
    UnwindYield(frames, Postfix(t, post));
    Assoc(Before(frames), Yield(t), YieldPost(post));
  }

  /** Pushing a binary operator leaves a stack that waits for an operand and adds exactly its text. */
  lemma BinaryPushed(frames: seq<Frame>, top: Expr, op: Symbol)
    requires AfterOperand(frames, top) && IsBinary(op)
    ensures var (fs, t) := ApplyAll(frames, top, BinaryNext(op));
      && Accepts(fs + [Awaiting(t, op)], 0) && NoSuffix(fs + [Awaiting(t, op)])
      && Before(fs + [Awaiting(t, op)]) == Yield(Unwind(frames, top)) + [Sym(op)]
  {
    var (fs, t) := ApplyAll(frames, top, BinaryNext(op));
    ApplyAllKeeps(frames, top, BinaryNext(op));
    ApplyAllSuffix(frames, top, BinaryNext(op));
    BinaryWaits(frames, top, op);
    BeforePush(fs, Awaiting(t, op));
    UnwindYield(fs, t);
    Assoc(Before(fs), Yield(t), [Sym(op)]);
  }

  lemma BinaryWaits(frames: seq<Frame>, top: Expr, op: Symbol)
    requires AfterOperand(frames, top) && IsBinary(op)
    ensures var (fs, t) := ApplyAll(frames, top, BinaryNext(op));
      Accepts(fs + [Awaiting(t, op)], 0)
  {
    var (fs, t) := ApplyAll(frames, top, BinaryNext(op));
    assert FitsLeft(Level(top), op);
    ApplyAllKeeps(frames, top, BinaryNext(op));
    ApplyAllFits(frames, top, BinaryNext(op));
    AcceptsBelow(fs, Level(t), op);
    assert FrameObeys(Awaiting(t, op));
    AcceptsOperand(fs, Awaiting(t, op), 0);
  }

  lemma {:induction false} ReadOperatorSound(ts: seq<Token>, frames: seq<Frame>, top: Expr)
    requires AfterOperand(frames, top)
    ensures Spells(ReadOperator(ts, frames, top), Yield(Unwind(frames, top)) + ts)
    decreases |ts|, 4
  {
    var p := PostfixOp(ts);
    if p.Parsed? {
      PostfixOpSound(ts);
      ReadPostfixSound(p.value, p.rest, frames, top);
    } else if ts != [] && ts[0].Sym? && IsBinary(ts[0].symbol) {
      assert ts == [Sym(ts[0].symbol)] + ts[1..];
      ReadBinarySound(ts[0].symbol, ts[1..], frames, top);
    } else {
      ApplyAllKeeps(frames, top, NothingNext);
    }
  }

  lemma {:induction false} ReadPostfixSound(post: Post, rest: seq<Token>, frames: seq<Frame>, top: Expr)
    requires AfterOperand(frames, top) && PostObeys(post)
    ensures var (fs, t) := ApplyAll(frames, top, PostfixNext);
      Spells(ReadOperator(rest, fs + [Suffix(post)], t), Yield(Unwind(frames, top)) + (YieldPost(post) + rest))
    decreases |rest|, 5
  {
    var (fs, t) := ApplyAll(frames, top, PostfixNext);
    SuffixPushed(frames, top, post);
    ReadOperatorSound(rest, fs + [Suffix(post)], t);
    Assoc(Yield(Unwind(frames, top)), YieldPost(post), rest);
  }

  lemma {:induction false} ReadBinarySound(op: Symbol, rest: seq<Token>, frames: seq<Frame>, top: Expr)
    requires AfterOperand(frames, top) && IsBinary(op)
    ensures var (fs, t) := ApplyAll(frames, top, BinaryNext(op));
      Spells(ReadOperand(rest, fs + [Awaiting(t, op)]), Yield(Unwind(frames, top)) + ([Sym(op)] + rest))
    decreases |rest|, 5
  {
    var (fs, t) := ApplyAll(frames, top, BinaryNext(op));
    BinaryPushed(frames, top, op);
    ReadOperandSound(rest, fs + [Awaiting(t, op)]);
    Assoc(Yield(Unwind(frames, top)), [Sym(op)], rest);
  }

  lemma AcceptsTighter(frames: seq<Frame>, level: nat, tighter: nat)
    requires Accepts(frames, level) && tighter <= level
    ensures Accepts(frames, tighter)
  {
  }

  /** What stays on the stack under a postfix operator takes any postfix expression. */
  lemma AcceptsLooser(frames: seq<Frame>, level: nat, wanted: nat)
    requires Accepts(frames, level) && level <= wanted == POSTFIX_RANK
    ensures Accepts(frames, wanted)
  {
  }

  /** What stays on the stack under an incoming binary operator takes its result. */
  lemma AcceptsBelow(frames: seq<Frame>, level: nat, op: Symbol)
    requires Accepts(frames, level) && IsBinary(op)
    requires frames != [] ==> !AppliesBefore(frames[|frames| - 1], BinaryNext(op))
    ensures Accepts(frames, Rank(op))
  {
  }

  lemma {:induction false} OperandSound(ts: seq<Token>)
    ensures var r := Operand(ts);
      r.Parsed? ==> ObeysTable(r.value) && Level(r.value) == 0 && ts == Yield(r.value) + r.rest
    decreases |ts|, 2
  {
    var c := CastPrefix(ts);
    if c.Parsed? {
      var (ty, marks) := c.value;
      CastPrefixSound(ts);
      AtomSound(c.rest);
      var o := Atom(c.rest);
      if o.Parsed? {
        Assoc([LPar, ty] + Symbols(marks) + [RPar], Yield(o.value), o.rest);
      }
    } else {
      AtomSound(ts);
    }
  }

  lemma CastPrefixSound(ts: seq<Token>)
    ensures var r := CastPrefix(ts);
      r.Parsed? ==>
        && IsTypeName(r.value.0) && (forall m <- r.value.1 :: IsMark(m))
        && ts == [LPar, r.value.0] + Symbols(r.value.1) + [RPar] + r.rest
  {
    if |ts| >= 2 && ts[0].LPar? && IsTypeName(ts[1]) {
      MarksSound(ts[2..]);
      var (marks, rest) := Marks(ts[2..]);
      if rest != [] {
        CastText(ts, marks, rest);
      }
    }
  }

  lemma CastText(ts: seq<Token>, marks: seq<Symbol>, rest: seq<Token>)
    requires |ts| >= 2 && rest != [] && ts[2..] == Symbols(marks) + rest
    ensures ts == [ts[0], ts[1]] + Symbols(marks) + [rest[0]] + rest[1..]
  {
    assert ts == [ts[0], ts[1]] + ts[2..];
    Assoc([ts[0], ts[1]], Symbols(marks), rest);
    assert rest == [rest[0]] + rest[1..];
    Assoc([ts[0], ts[1]] + Symbols(marks), [rest[0]], rest[1..]);
  }

  lemma {:induction false} MarksSound(ts: seq<Token>)
    ensures var (marks, rest) := Marks(ts);
      ts == Symbols(marks) + rest && forall m <- marks :: IsMark(m)
  {
    if ts != [] && ts[0].Sym? && IsMark(ts[0].symbol) {
      MarksSound(ts[1..]);
    }
  }

  lemma {:induction false} AtomSound(ts: seq<Token>)
    ensures var r := Atom(ts);
      r.Parsed? ==>
        && ObeysTable(r.value) && (r.value.Leaf? || r.value.Group?)
        && ts == Yield(r.value) + r.rest
    decreases |ts|, 1
  {
    if ts != [] && !IsAtom(ts[0]) && ts[0].LPar? {
      ReadOperandSound(ts[1..], []);
      assert Before([]) + ts[1..] == ts[1..];
      BracketText(ts, ReadOperand(ts[1..], []));
    }
  }

  /** A bracketed expression: an opening lexeme, the expression, a closing lexeme, the rest. */
  lemma BracketText(ts: seq<Token>, r: Parsed<Expr, Token>)
    requires ts != []
    ensures r.Parsed? && ts[1..] == Yield(r.value) + r.rest && r.rest != [] ==>
      ts == [ts[0]] + Yield(r.value) + [r.rest[0]] + r.rest[1..]
  {
    assert ts == [ts[0]] + ts[1..];
    if r.Parsed? && r.rest != [] {
      assert r.rest == [r.rest[0]] + r.rest[1..];
      Assoc([ts[0]], Yield(r.value), r.rest);
      Assoc([ts[0]] + Yield(r.value), [r.rest[0]], r.rest[1..]);
    }
  }

  lemma {:induction false} PostfixOpSound(ts: seq<Token>)
    ensures var r := PostfixOp(ts);
      r.Parsed? ==> PostObeys(r.value) && ts == YieldPost(r.value) + r.rest
    decreases |ts|, 2
  {
    if |ts| >= 2 && ts[0].LBrk? {
      if ts[1].Integer? {
        assert ts[1..] == [ts[1]] + ts[2..];
        BracketText(ts, Parsed(Leaf(ts[1]), ts[2..]));
      } else {
        ReadOperandSound(ts[1..], []);
        assert Before([]) + ts[1..] == ts[1..];
        BracketText(ts, ReadOperand(ts[1..], []));
      }
    } else if |ts| >= 2 {
      assert ts == [ts[0], ts[1]] + ts[2..];
    }
  }

  /** A tree the parser returns obeys the table, and its lexemes are what was consumed. */
  lemma ExpressionSound(ts: seq<Token>)
    ensures Spells(Expression(ts), ts)
  {
    ReadOperandSound(ts, []);
    assert Before([]) + ts == ts;
  }

  // ---- Completeness ----

  /**
   The two shapes that are not read as written: a lone parenthesised name or boolean, which the cast
   rule claims, and a subscript that starts with a digit and is not just an integer literal, because
   such a literal claims what it can of it.
   */
  predicate Clean(e: Expr) {
    match e
    case Leaf(_) => true
    case Group(inner) => !IsLoneName(inner) && Clean(inner)
    case Cast(_, _, operand) => operand.Group? ==> Clean(operand.inner)
    case Prefix(_, arg) => Clean(arg)
    case Binary(lhs, _, rhs) => Clean(lhs) && Clean(rhs)
    case Postfix(base, post) => Clean(base) && CleanPost(post)
  }

  predicate CleanPost(p: Post) {
    p.Index? ==> Clean(p.index) && (StartsWithDigit(p.index) ==> p.index.Leaf? && p.index.tok.Integer?)
  }

  predicate IsLoneName(e: Expr) {
    e.Leaf? && (e.tok.Ident? || e.tok.QIdent? || e.tok.Boolean?)
  }

  predicate StartsWithDigit(e: Expr) {
    match e
    case Leaf(tok) => tok.Integer? || (tok.Float? && tok.text != "" && 48 <= tok.text[0] as int <= 57)
    case Binary(lhs, _, _) => StartsWithDigit(lhs)
    case Postfix(base, _) => StartsWithDigit(base)
    case _ => false
  }

  predicate ContinuesOperand(t: Token) {
    t.Sym? || t.Dot? || t.Arrow? || t.LBrk?
  }

  predicate Closes(ts: seq<Token>) {
    ts != [] && (ts[0].RPar? || ts[0].RBrk?)
  }

  /** How the text of a tree starts, and that a leading atom is continued or is all of it. */
  lemma {:induction false} FirstToken(e: Expr)
    requires ObeysTable(e)
    ensures var y := Yield(e);
      && y != [] && !Closes(y)
      && (y[0].Sym? ==> IsPrefix(y[0].symbol))
      && (DigitFirst(y[0]) <==> StartsWithDigit(e))
      && (IsAtom(y[0]) ==> e == Leaf(y[0]) || (|y| > 1 && ContinuesOperand(y[1])))
  {
    match e
    case Binary(lhs, op, rhs) => FirstToken(lhs);
    case Postfix(base, post) => FirstToken(base);
    case _ =>
  }

  /** Skipping marks where an operand starts never reaches a closing parenthesis. */
  lemma {:induction false} MarksBeforeOperand(e: Expr, rest: seq<Token>)
    requires ObeysTable(e)
    ensures var r := Marks(Yield(e) + rest).1; r != [] && !r[0].RPar?
  {
    FirstToken(e);
    match e
    case Prefix(op, arg) =>
      assert (Yield(e) + rest)[1..] == Yield(arg) + rest;
      MarksBeforeOperand(arg, rest);
    case Binary(lhs, op, rhs) =>
      Assoc(Yield(lhs), [Sym(op)] + Yield(rhs), rest);
      Assoc(Yield(lhs), [Sym(op)], Yield(rhs));
      MarksBeforeOperand(lhs, [Sym(op)] + Yield(rhs) + rest);
    case Postfix(base, post) =>
      Assoc(Yield(base), YieldPost(post), rest);
      MarksBeforeOperand(base, YieldPost(post) + rest);
    case _ =>
  }

  /** The same after a leading atom that is not the whole tree. */
  lemma {:induction false} MarksAfterAtom(e: Expr, rest: seq<Token>)
    requires ObeysTable(e) && Yield(e) != [] && IsAtom(Yield(e)[0]) && !e.Leaf?
    ensures var r := Marks((Yield(e) + rest)[1..]).1; r != [] && !r[0].RPar?
  {
    FirstToken(e);
    match e
    case Binary(lhs, op, rhs) =>
      Assoc(Yield(lhs), [Sym(op)] + Yield(rhs), rest);
      Assoc(Yield(lhs), [Sym(op)], Yield(rhs));
      var rest' := [Sym(op)] + Yield(rhs) + rest;
      FirstToken(lhs);
      if lhs.Leaf? {
        assert (Yield(e) + rest)[1..] == rest';
        assert rest'[1..] == Yield(rhs) + rest;
        MarksBeforeOperand(rhs, rest);
      } else {
        MarksAfterAtom(lhs, rest');
      }
    case Postfix(base, post) =>
      Assoc(Yield(base), YieldPost(post), rest);
      FirstToken(base);
      if base.Leaf? {
        assert (Yield(e) + rest)[1..] == YieldPost(post) + rest;
      } else {
        MarksAfterAtom(base, YieldPost(post) + rest);
      }
    case _ =>
  }

  /** A parenthesised expression looks like a cast exactly when it is a lone name. */
  lemma CastOrGroup(inner: Expr, rest: seq<Token>)
    requires ObeysTable(inner)
    ensures var ts := Yield(Group(inner)) + rest;
      && CastPrefix(ts).Parsed? == IsLoneName(inner)
      && (IsLoneName(inner) ==> CastPrefix(ts).rest == rest)
  {
    FirstToken(inner);
    var ts := Yield(Group(inner)) + rest;
    Assoc([LPar], Yield(inner), [RPar]);
    assert ts == [LPar] + (Yield(inner) + ([RPar] + rest));
    assert ts[2..] == (Yield(inner) + ([RPar] + rest))[1..];
    if IsLoneName(inner) {
      assert ts[2..] == [RPar] + rest;
    } else if IsTypeName(ts[1]) {
      MarksAfterAtom(inner, [RPar] + rest);
    }
  }

  lemma {:induction false} MarksRead(marks: seq<Symbol>, rest: seq<Token>)
    requires (forall m <- marks :: IsMark(m)) && (rest == [] || !rest[0].Sym?)
    ensures Marks(Symbols(marks) + rest) == (marks, rest)
  {
    if marks == [] {
      assert Symbols(marks) + rest == rest;
    } else {
      assert marks == [marks[0]] + marks[1..] && IsMark(marks[0]);
      MarksRead(marks[1..], rest);
      assert (Symbols(marks) + rest)[1..] == Symbols(marks[1..]) + rest;
    }
  }

  lemma CastRead(ty: Token, marks: seq<Symbol>, operand: Expr, rest: seq<Token>)
    requires ObeysTable(Cast(ty, marks, operand))
    ensures CastPrefix(Yield(Cast(ty, marks, operand)) + rest) == Parsed((ty, marks), Yield(operand) + rest)
  {
    var ts := Yield(Cast(ty, marks, operand)) + rest;
    var tail := [RPar] + (Yield(operand) + rest);
    Assoc([LPar, ty] + Symbols(marks) + [RPar], Yield(operand), rest);
    Assoc([LPar, ty] + Symbols(marks), [RPar], Yield(operand) + rest);
    Assoc([LPar, ty], Symbols(marks), tail);
    assert ts[2..] == Symbols(marks) + tail;
    MarksRead(marks, tail);
  }

  /** The frames a tree leaves on the stack once all its lexemes are read, and the operand above them. */
  function Spine(e: Expr): seq<Frame> {
    match e
    case Prefix(op, arg) => [Pending(op)] + Spine(arg)
    case Binary(lhs, op, rhs) => [Awaiting(lhs, op)] + Spine(rhs)
    case Postfix(base, post) => [Suffix(post)]
    case _ => []
  }

  function Tip(e: Expr): Expr {
    match e
    case Prefix(_, arg) => Tip(arg)
    case Binary(_, _, rhs) => Tip(rhs)
    case Postfix(base, _) => base
    case _ => e
  }

  lemma {:induction false} SpineApplies(e: Expr, frames: seq<Frame>, next: Incoming)
    requires ObeysTable(e)
    requires next.BinaryNext? ==> FitsLeft(Level(e), next.op) && IsBinary(next.op)
    requires next.PostfixNext? ==> Level(e) <= POSTFIX_RANK
    ensures ApplyAll(frames + Spine(e), Tip(e), next) == ApplyAll(frames, e, next)
  {
    match e
    case Prefix(op, arg) =>
      Assoc(frames, [Pending(op)], Spine(arg));
      SpineApplies(arg, frames + [Pending(op)], next);
      ApplyStep(frames, Pending(op), arg, next);
    case Binary(lhs, op, rhs) =>
      Assoc(frames, [Awaiting(lhs, op)], Spine(rhs));
      SpineApplies(rhs, frames + [Awaiting(lhs, op)], next);
      ApplyStep(frames, Awaiting(lhs, op), rhs, next);
    case Postfix(base, post) => ApplyStep(frames, Suffix(post), base, next);
    case _ => assert frames + Spine(e) == frames;
  }

  lemma ApplyStep(frames: seq<Frame>, f: Frame, top: Expr, next: Incoming)
    requires AppliesBefore(f, next)
    ensures ApplyAll(frames + [f], top, next) == ApplyAll(frames, Apply(f, top), next)
  {
    assert (frames + [f])[..|frames|] == frames;
  }

  predicate OpenOnTop(frames: seq<Frame>) {
    frames != [] ==> !frames[|frames| - 1].Suffix?
  }

  /** A frame that takes an operand does not apply itself before that operand's own operator. */
  lemma TakesMeansWaits(frames: seq<Frame>, top: Expr, next: Incoming)
    requires OpenOnTop(frames) && !next.NothingNext?
    requires next.BinaryNext? ==> IsBinary(next.op) && Accepts(frames, Rank(next.op))
    requires next.PostfixNext? ==> Accepts(frames, POSTFIX_RANK)
    ensures ApplyAll(frames, top, next) == (frames, top)
  {
  }

  /** Reading the lexemes of a clean tree where an operand may start leaves its spine on the stack. */
  lemma {:induction false} ReadTree(e: Expr, frames: seq<Frame>, rest: seq<Token>)
    requires ObeysTable(e) && Clean(e) && Accepts(frames, Level(e)) && OpenOnTop(frames)
    ensures ReadOperand(Yield(e) + rest, frames) == ReadOperator(rest, frames + Spine(e), Tip(e))
    decreases e, 2
  {
    var ts := Yield(e) + rest;
    match e
    case Prefix(op, arg) =>
      ReadPrefix(e, frames, rest);
      AcceptsOperand(frames, Pending(op), Level(arg));
      ReadTree(arg, frames + [Pending(op)], rest);
      Assoc(frames, [Pending(op)], Spine(arg));
    case Binary(lhs, op, rhs) => ReadBinary(e, frames, rest);
    case Postfix(base, post) =>
      AcceptsTighter(frames, Level(e), Level(base));
      ReadTree(base, frames, YieldPost(post) + rest);
      Assoc(Yield(base), YieldPost(post), rest);
      ReadPost(post, rest);
      SpineApplies(base, frames, PostfixNext);
      TakesMeansWaits(frames, base, PostfixNext);
    case _ =>
      ReadUnit(e, rest);
      FirstToken(e);
      assert frames + Spine(e) == frames;
  }

  lemma AcceptsOperand(frames: seq<Frame>, f: Frame, level: nat)
    requires FrameObeys(f) && FrameTakes(f, level) && Accepts(frames, FrameRank(f))
    ensures Accepts(frames + [f], level)
  {
    assert (frames + [f])[..|frames|] == frames;
  }

  lemma BinaryText(e: Expr, rest: seq<Token>)
    requires e.Binary?
    ensures Yield(e) + rest == Yield(e.lhs) + ([Sym(e.bop)] + (Yield(e.rhs) + rest))
  {
    Assoc(Yield(e.lhs) + [Sym(e.bop)], Yield(e.rhs), rest);
    Assoc(Yield(e.lhs), [Sym(e.bop)], Yield(e.rhs) + rest);
  }

  /** Once a clean left operand is read, the binary operator is pushed right above the same frames. */
  lemma {:induction false} ReadLeftOperand(e: Expr, frames: seq<Frame>, rest: seq<Token>)
    requires e.Binary? && ObeysTable(e) && Clean(e.lhs) && Accepts(frames, Level(e)) && OpenOnTop(frames)
    ensures ReadOperand(Yield(e) + rest, frames) == ReadOperand(Yield(e.rhs) + rest, frames + [Awaiting(e.lhs, e.bop)])
    decreases e, 0
  {
    var Binary(lhs, op, rhs) := e;
    var ts := [Sym(op)] + (Yield(rhs) + rest);
    BinaryText(e, rest);
    AcceptsTighter(frames, Level(e), Level(lhs));
    ReadTree(lhs, frames, ts);
    SpineApplies(lhs, frames, BinaryNext(op));
    TakesMeansWaits(frames, lhs, BinaryNext(op));
    assert PostfixOp(ts) == Failed;
    assert ts[1..] == Yield(rhs) + rest;
  }

  lemma {:induction false} ReadBinary(e: Expr, frames: seq<Frame>, rest: seq<Token>)
    requires e.Binary? && ObeysTable(e) && Clean(e) && Accepts(frames, Level(e)) && OpenOnTop(frames)
    ensures ReadOperand(Yield(e) + rest, frames) == ReadOperator(rest, frames + Spine(e), Tip(e))
    decreases e, 1
  {
    var f := Awaiting(e.lhs, e.bop);
    ReadLeftOperand(e, frames, rest);
    AcceptsOperand(frames, f, Level(e.rhs));
    ReadTree(e.rhs, frames + [f], rest);
    Assoc(frames, [f], Spine(e.rhs));
  }

  /** A leaf, a group or a cast is read as one operand. */
  lemma {:induction false} ReadUnit(e: Expr, rest: seq<Token>)
    requires ObeysTable(e) && Clean(e) && (e.Leaf? || e.Group? || e.Cast?)
    ensures Operand(Yield(e) + rest) == Parsed(e, rest)
    decreases e, 1
  {
    match e
    case Cast(ty, marks, operand) =>
      CastRead(ty, marks, operand, rest);
      ReadAtom(operand, rest);
    case Group(inner) =>
      CastOrGroup(inner, rest);
      ReadAtom(e, rest);
    case Leaf(tok) =>
      ReadAtom(e, rest);
  }

  lemma {:induction false} ReadAtom(e: Expr, rest: seq<Token>)
    requires ObeysTable(e) && (e.Leaf? || (e.Group? && Clean(e.inner)))
    ensures Atom(Yield(e) + rest) == Parsed(e, rest)
    decreases e, 0
  {
    match e
    case Leaf(tok) =>
    case Group(inner) =>
      assert Yield(e) + rest == [LPar] + (Yield(inner) + ([RPar] + rest)) by {
        Assoc([LPar] + Yield(inner), [RPar], rest);
        Assoc([LPar], Yield(inner), [RPar] + rest);
      }
      ReadWhole(inner, [RPar] + rest);
  }

  /** What may follow a complete expression: nothing that continues it. */
  predicate Stops(rest: seq<Token>) {
    rest == [] || (!rest[0].Dot? && !rest[0].Arrow? && !rest[0].LBrk? && !(rest[0].Sym? && IsBinary(rest[0].symbol)))
  }

  lemma {:induction false} ReadWhole(e: Expr, rest: seq<Token>)
    requires ObeysTable(e) && Clean(e) && Stops(rest)
    ensures ReadOperand(Yield(e) + rest, []) == Parsed(e, rest)
    decreases e, 3
  {
    ReadTree(e, [], rest);
    SpineApplies(e, [], NothingNext);
    assert PostfixOp(rest) == Failed;
  }

  lemma {:induction false} ReadPost(p: Post, rest: seq<Token>)
    requires PostObeys(p) && CleanPost(p)
    ensures PostfixOp(YieldPost(p) + rest) == Parsed(p, rest)
    decreases p, 0
  {
    if p.Index? {
      var e := p.index;
      var ts := YieldPost(p) + rest;
      assert ts == [LBrk] + (Yield(e) + ([RBrk] + rest)) by {
        Assoc([LBrk] + Yield(e), [RBrk], rest);
        Assoc([LBrk], Yield(e), [RBrk] + rest);
      }
      FirstToken(e);
      if e.Leaf? && e.tok.Integer? {
        assert ts[2..] == [RBrk] + rest;
      } else {
        ReadWhole(e, [RBrk] + rest);
      }
    }
  }

  // ---- The two misread shapes are never accepted ----

  /** Nothing that could be the operand of a cast. */
  predicate NoAtom(rest: seq<Token>) {
    rest == [] || (!IsAtom(rest[0]) && !rest[0].LPar?)
  }

  /** Parsing failed, or stopped before a subscript it could not read. */
  predicate Stuck(r: Parsed<Expr, Token>) {
    r.Parsed? ==> r.rest != [] && r.rest[0].LBrk?
  }

  lemma {:induction false} UncleanStuck(e: Expr, frames: seq<Frame>, rest: seq<Token>)
    requires ObeysTable(e) && !Clean(e) && Accepts(frames, Level(e)) && OpenOnTop(frames) && NoAtom(rest)
    ensures Stuck(ReadOperand(Yield(e) + rest, frames))
    decreases e, 2
  {
    match e
    case Prefix(op, arg) =>
      ReadPrefix(e, frames, rest);
      AcceptsOperand(frames, Pending(op), Level(arg));
      UncleanStuck(arg, frames + [Pending(op)], rest);
    case Binary(lhs, op, rhs) => UncleanBinary(e, frames, rest);
    case Postfix(base, post) => UncleanPostfix(e, frames, rest);
    case Group(_) => UncleanUnit(e, rest); OperandFails(e, frames, rest);
    case Cast(_, _, _) => UncleanUnit(e, rest); OperandFails(e, frames, rest);
    case Leaf(_) =>
  }

  lemma ReadPrefix(e: Expr, frames: seq<Frame>, rest: seq<Token>)
    requires e.Prefix? && ObeysTable(e)
    ensures ReadOperand(Yield(e) + rest, frames) == ReadOperand(Yield(e.arg) + rest, frames + [Pending(e.op)])
  {
    assert (Yield(e) + rest)[1..] == Yield(e.arg) + rest;
  }

  lemma OperandFails(e: Expr, frames: seq<Frame>, rest: seq<Token>)
    requires (e.Group? || e.Cast?) && ObeysTable(e) && Operand(Yield(e) + rest).Failed?
    ensures ReadOperand(Yield(e) + rest, frames).Failed?
  {
    FirstToken(e);
    assert (Yield(e) + rest)[0] == LPar;
  }

  lemma {:induction false} UncleanPostfix(e: Expr, frames: seq<Frame>, rest: seq<Token>)
    requires e.Postfix? && ObeysTable(e) && !Clean(e)
    requires Accepts(frames, Level(e)) && OpenOnTop(frames) && NoAtom(rest)
    ensures Stuck(ReadOperand(Yield(e) + rest, frames))
    decreases e, 0
  {
    var Postfix(base, post) := e;
    var ts := YieldPost(post) + rest;
    assert Yield(e) + rest == Yield(base) + ts by { Assoc(Yield(base), YieldPost(post), rest); }
    AcceptsTighter(frames, Level(e), Level(base));
    if !Clean(base) {
      UncleanStuck(base, frames, ts);
    } else {
      ReadTree(base, frames, ts);
      UncleanPost(post, rest);
      assert ts[0].LBrk?;
    }
  }

  lemma {:induction false} UncleanBinary(e: Expr, frames: seq<Frame>, rest: seq<Token>)
    requires e.Binary? && ObeysTable(e) && !Clean(e)
    requires Accepts(frames, Level(e)) && OpenOnTop(frames) && NoAtom(rest)
    ensures Stuck(ReadOperand(Yield(e) + rest, frames))
    decreases e, 1
  {
    var Binary(lhs, op, rhs) := e;
    var ts := [Sym(op)] + (Yield(rhs) + rest);
    if !Clean(lhs) {
      BinaryText(e, rest);
      AcceptsTighter(frames, Level(e), Level(lhs));
      assert NoAtom(ts);
      UncleanStuck(lhs, frames, ts);
    } else {
      UncleanRight(e, frames, rest);
    }
  }

  lemma {:induction false} UncleanRight(e: Expr, frames: seq<Frame>, rest: seq<Token>)
    requires e.Binary? && ObeysTable(e) && Clean(e.lhs) && !Clean(e.rhs)
    requires Accepts(frames, Level(e)) && OpenOnTop(frames) && NoAtom(rest)
    ensures Stuck(ReadOperand(Yield(e) + rest, frames))
    decreases e, 0
  {
    var f := Awaiting(e.lhs, e.bop);
    ReadLeftOperand(e, frames, rest);
    AcceptsOperand(frames, f, Level(e.rhs));
    UncleanStuck(e.rhs, frames + [f], rest);
  }

  lemma {:induction false} UncleanUnit(e: Expr, rest: seq<Token>)
    requires ObeysTable(e) && !Clean(e) && (e.Leaf? || e.Group? || e.Cast?) && NoAtom(rest)
    ensures Operand(Yield(e) + rest).Failed?
    decreases e, 0
  {
    match e
    case Cast(ty, marks, operand) =>
      CastRead(ty, marks, operand, rest);
      UncleanAtom(operand.inner, rest);
    case Group(inner) =>
      CastOrGroup(inner, rest);
      if !IsLoneName(inner) {
        UncleanAtom(inner, rest);
      }
  }

  lemma {:induction false} UncleanAtom(inner: Expr, rest: seq<Token>)
    requires ObeysTable(inner) && !Clean(inner)
    ensures Atom(Yield(Group(inner)) + rest).Failed?
    decreases inner, 3
  {
    assert Yield(Group(inner)) + rest == [LPar] + (Yield(inner) + ([RPar] + rest)) by {
      Assoc([LPar] + Yield(inner), [RPar], rest);
      Assoc([LPar], Yield(inner), [RPar] + rest);
    }
    UncleanStuck(inner, [], [RPar] + rest);
  }

  lemma {:induction false} UncleanPost(p: Post, rest: seq<Token>)
    requires PostObeys(p) && !CleanPost(p)
    ensures PostfixOp(YieldPost(p) + rest).Failed?
    decreases p, 0
  {
    var e := p.index;
    var ts := YieldPost(p) + rest;
    assert ts == [LBrk] + (Yield(e) + ([RBrk] + rest)) by {
      Assoc([LBrk] + Yield(e), [RBrk], rest);
      Assoc([LBrk], Yield(e), [RBrk] + rest);
    }
    FirstToken(e);
    if !StartsWithDigit(e) {
      UncleanStuck(e, [], [RBrk] + rest);
    } else if ts[1].Integer? {
      assert ts[2] == Yield(e)[1];
    }
  }

  // ---- Main results ----

  /**
   A lexeme sequence is accepted with a tree exactly when the tree spells it, obeys the
   operator table and contains neither misread shape.
   */
  lemma AcceptedExactly(ts: seq<Token>, e: Expr)
    ensures Expression(ts) == Parsed(e, []) <==> Yield(e) == ts && ObeysTable(e) && Clean(e)
  {
    if Expression(ts) == Parsed(e, []) {
      ExpressionSound(ts);
      assert Yield(e) + [] == Yield(e);
      if !Clean(e) {
        UncleanStuck(e, [], []);
      }
    }
    if Yield(e) == ts && ObeysTable(e) && Clean(e) {
      assert Yield(e) + [] == Yield(e);
      ReadWhole(e, []);
    }
  }

  /** The accepted tree is the only tree with these lexemes that obeys the operator table. */
  lemma AcceptedUniquely(ts: seq<Token>, e: Expr, other: Expr)
    requires Expression(ts) == Parsed(e, [])
    requires Yield(other) == ts && ObeysTable(other)
    ensures other == e
  {
    assert Yield(other) + [] == ts;
    if !Clean(other) {
      UncleanStuck(other, [], []);
    } else {
      AcceptedExactly(ts, other);
    }
  }

  lemma NotAccepted(e: Expr)
    requires ObeysTable(e) && !Clean(e)
    ensures forall r: Expr :: Expression(Yield(e)) != Parsed(r, [])
  {
    assert Yield(e) + [] == Yield(e);
    UncleanStuck(e, [], []);
  }

  /** "a[1 + 2]" and "a[1.5]" obey the table and are not accepted: the literal 1 is taken as the subscript. */
  lemma SubscriptNotAccepted()
    ensures var a, one, two, float := Leaf(Ident("a")), Leaf(Integer("1")), Leaf(Integer("2")), Leaf(Float("1.5"));
      forall i <- [Binary(one, Plus, two), float] ::
        ObeysTable(Postfix(a, Index(i))) && forall r: Expr :: Expression(Yield(Postfix(a, Index(i)))) != Parsed(r, [])
  {
    var a, one, two, float := Leaf(Ident("a")), Leaf(Integer("1")), Leaf(Integer("2")), Leaf(Float("1.5"));
    assert StartsWithDigit(Binary(one, Plus, two)) && StartsWithDigit(float);
    NotAccepted(Postfix(a, Index(Binary(one, Plus, two))));
    NotAccepted(Postfix(a, Index(float)));
  }

  /** "(true) && b" obeys the table and is not accepted: "(true)" is taken as a cast. */
  lemma BooleanNotAccepted()
    ensures var e := Binary(Group(Leaf(Boolean("true"))), AmpAmp, Leaf(Ident("b")));
      ObeysTable(e) && forall r: Expr :: Expression(Yield(e)) != Parsed(r, [])
  {
    var e := Binary(Group(Leaf(Boolean("true"))), AmpAmp, Leaf(Ident("b")));
    assert IsLoneName(Leaf(Boolean("true"))) && !Clean(e.lhs);
    NotAccepted(e);
  }

  lemma OperationAccepted(lhs: Expr, op: Symbol, rhs: Expr)
    requires ObeysTable(lhs) && ObeysTable(rhs) && Clean(lhs) && Clean(rhs) && IsBinary(op)
    requires FitsLeft(Level(lhs), op) && FitsRight(Level(rhs), op)
    ensures ObeysTable(Binary(lhs, op, rhs))
    ensures Expression(Yield(lhs) + [Sym(op)] + Yield(rhs)) == Parsed(Binary(lhs, op, rhs), [])
  {
    AcceptedExactly(Yield(lhs) + [Sym(op)] + Yield(rhs), Binary(lhs, op, rhs));
  }

  /** Three operands and two binary operators: grouped to the left, or to the right, as the table asks. */
  lemma GroupsOfThree(a: Token, p: Symbol, b: Token, q: Symbol, c: Token)
    requires IsAtom(a) && IsAtom(b) && IsAtom(c) && IsBinary(p) && IsBinary(q)
    ensures Rank(p) < Rank(q) || (Rank(p) == Rank(q) && !RightAssoc(q)) ==>
              Expression([a, Sym(p), b, Sym(q), c]) == Parsed(Binary(Binary(Leaf(a), p, Leaf(b)), q, Leaf(c)), [])
    ensures Rank(q) < Rank(p) || (Rank(q) == Rank(p) && RightAssoc(p)) ==>
              Expression([a, Sym(p), b, Sym(q), c]) == Parsed(Binary(Leaf(a), p, Binary(Leaf(b), q, Leaf(c))), [])
  {
    var x, y, z := Leaf(a), Leaf(b), Leaf(c);
    assert [a] + [Sym(p)] + [b] == [a, Sym(p), b] && [b] + [Sym(q)] + [c] == [b, Sym(q), c];
    assert [a, Sym(p), b] + [Sym(q)] + [c] == [a, Sym(p), b, Sym(q), c];
    assert [a] + [Sym(p)] + [b, Sym(q), c] == [a, Sym(p), b, Sym(q), c];
    OperationAccepted(x, p, y);
    OperationAccepted(y, q, z);
    if FitsLeft(Rank(p), q) {
      OperationAccepted(Binary(x, p, y), q, z);
    }
    if FitsRight(Rank(q), p) {
      OperationAccepted(x, p, Binary(y, q, z));
    }
  }

  /**
   The table orders the operators as C++ does, with `**` above the multiplications:
   `**`, then `*` `//` `/` `%`, then `+` `-`, then shifts, relations, equalities, `&`, `^`, `|`,
   `and`, `or`; and every binary operator binds more loosely than a prefix operator, which
   binds more loosely than a postfix operator.
   */
  lemma TableOrder()
    ensures POSTFIX_RANK < PREFIX_RANK < Rank(StarStar) < Rank(Star)
    ensures Rank(Star) == Rank(SlashSlash) == Rank(Slash) == Rank(Percent) < Rank(Plus) == Rank(Minus)
    ensures Rank(Plus) < Rank(ShiftLeft) == Rank(ShiftRight) < Rank(Less) == Rank(LessEq) == Rank(Greater) == Rank(GreaterEq)
    ensures Rank(Less) < Rank(EqualEqual) == Rank(NotEqual) < Rank(Amp) < Rank(Caret) < Rank(Bar)
    ensures Rank(Bar) < Rank(AndWord) == Rank(AmpAmp) < Rank(OrWord) == Rank(BarBar)
    ensures forall s: Symbol :: RightAssoc(s) <==> s == StarStar
  {
  }
}
