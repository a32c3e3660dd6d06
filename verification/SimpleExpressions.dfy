/**
 The language of "simple" debugger expressions: its lexemes, its syntax trees, its operator
 table, and the parser that `expression` assembles from `precedence`, `prefix`, `postfix`,
 `binary` and `operand`.

 The parser works on lexemes. A lexeme that is an operator is read as a prefix operator
 where an operand may start and as a postfix or binary operator after an operand.
 */
module SimpleExpressions {
  import opened Results

  datatype Symbol =
    | Bang | NotWord | Tilde | Plus | Minus | Star | Amp
    | OrWord | BarBar | AndWord | AmpAmp | ShiftLeft | ShiftRight | StarStar
    | GreaterEq | Greater | LessEq | Less | SlashSlash | Slash | Percent
    | Bar | Caret | EqualEqual | NotEqual

  datatype Token =
    | Integer(text: string) | Float(text: string) | Boolean(text: string) | Str(text: string)
    | Ident(text: string)      // a plain identifier
    | QIdent(text: string)     // a qualified or templated identifier
    | Native(text: string)     // $name or ${ ... }
    | Sym(symbol: Symbol)
    | Dot | Arrow | LPar | RPar | LBrk | RBrk

  datatype Expr =
    | Leaf(tok: Token)
    | Group(inner: Expr)
    | Cast(ty: Token, marks: seq<Symbol>, operand: Expr)
    | Prefix(op: Symbol, arg: Expr)
    | Binary(lhs: Expr, bop: Symbol, rhs: Expr)
    | Postfix(base: Expr, post: Post)

  datatype Post =
    | Member(name: Token)
    | ArrowMember(name: Token)
    | Index(index: Expr)

  // ---- Lexical classes ----

  /** What the cast rule reads as a type name; the words for booleans are identifiers to it. */
  predicate IsTypeName(t: Token) {
    t.Ident? || t.QIdent? || t.Boolean?
  }

  /** What may follow a dot or an arrow; here, too, a boolean is an identifier. */
  predicate IsMemberName(t: Token) {
    t.Ident? || t.Boolean?
  }

  /** A number in decimal digits. */
  predicate IsUnsigned(t: Token) {
    t.Integer? && t.text != "" && forall i :: 0 <= i < |t.text| ==> '0' <= t.text[i] <= '9'
  }

  /** A number whose first character is a digit, where an integer literal can be read. */
  predicate DigitFirst(t: Token) {
    t.Integer? || (t.Float? && t.text != "" && '0' <= t.text[0] <= '9')
  }

  predicate IsAtom(t: Token) {
    t.Integer? || t.Float? || t.Boolean? || t.Str? || t.Ident? || t.QIdent? || t.Native?
  }

  predicate IsPrefix(s: Symbol) {
    s.Bang? || s.NotWord? || s.Minus? || s.Plus? || s.Tilde? || s.Star? || s.Amp?
  }

  predicate IsBinary(s: Symbol) {
    !s.Bang? && !s.NotWord? && !s.Tilde?
  }

  /** Pointer and reference marks after the type name of a cast. */
  predicate IsMark(s: Symbol) {
    s.Star? || s.Amp? || s.StarStar? || s.AmpAmp?
  }

  // ---- The operator table: a lower number binds tighter ----

  const POSTFIX_RANK := 2
  const PREFIX_RANK := 3

  function Rank(s: Symbol): nat {
    match s
    case OrWord | BarBar => 15
    case AndWord | AmpAmp => 14
    case ShiftLeft | ShiftRight => 7
    case StarStar => 4
    case GreaterEq | Greater | LessEq | Less => 9
    case Plus | Minus => 6
    case Star | SlashSlash | Slash | Percent => 5
    case Bar => 13
    case Caret => 12
    case Amp => 11
    case EqualEqual | NotEqual => 10
    case Bang | NotWord | Tilde => 16 // never read as binary operators
  }

  predicate RightAssoc(s: Symbol) {
    s == StarStar
  }

  // ---- What a tree means as text, and which trees the table allows ----

  /** The lexemes of a tree from left to right. */
  function Yield(e: Expr): seq<Token> {
    match e
    case Leaf(tok) => [tok]
    case Group(inner) => [LPar] + Yield(inner) + [RPar]
    case Cast(ty, marks, operand) => [LPar, ty] + Symbols(marks) + [RPar] + Yield(operand)
    case Prefix(op, arg) => [Sym(op)] + Yield(arg)
    case Binary(lhs, op, rhs) => Yield(lhs) + [Sym(op)] + Yield(rhs)
    case Postfix(base, post) => Yield(base) + YieldPost(post)
  }

  function YieldPost(p: Post): seq<Token> {
    match p
    case Member(name) => [Dot, name]
    case ArrowMember(name) => [Arrow, name]
    case Index(index) => [LBrk] + Yield(index) + [RBrk]
  }

  function Symbols(marks: seq<Symbol>): seq<Token> {
    if marks == [] then [] else [Sym(marks[0])] + Symbols(marks[1..])
  }

  /** How loosely the outermost operator of a tree binds. */
  function Level(e: Expr): nat {
    match e
    case Leaf(_) => 0
    case Group(_) => 0
    case Cast(_, _, _) => 0
    case Postfix(_, _) => POSTFIX_RANK
    case Prefix(_, _) => PREFIX_RANK
    case Binary(_, op, _) => Rank(op)
  }

  predicate FitsLeft(level: nat, op: Symbol) {
    level < Rank(op) || (level == Rank(op) && !RightAssoc(op))
  }

  predicate FitsRight(level: nat, op: Symbol) {
    level < Rank(op) || (level == Rank(op) && RightAssoc(op))
  }

  /** Every operator of the tree has operands that bind as tightly as the table asks. */
  predicate ObeysTable(e: Expr) {
    match e
    case Leaf(tok) => IsAtom(tok)
    case Group(inner) => ObeysTable(inner)
    case Cast(ty, marks, operand) =>
      && IsTypeName(ty)
      && (forall m <- marks :: IsMark(m))
      && (operand.Leaf? || operand.Group?)
      && ObeysTable(operand)
    case Prefix(op, arg) => IsPrefix(op) && ObeysTable(arg) && Level(arg) <= PREFIX_RANK
    case Binary(lhs, op, rhs) =>
      && IsBinary(op)
      && ObeysTable(lhs) && FitsLeft(Level(lhs), op)
      && ObeysTable(rhs) && FitsRight(Level(rhs), op)
    case Postfix(base, post) => ObeysTable(base) && Level(base) <= POSTFIX_RANK && PostObeys(post)
  }

  predicate PostObeys(p: Post) {
    match p
    case Member(name) => IsMemberName(name) || IsUnsigned(name)
    case ArrowMember(name) => IsMemberName(name)
    case Index(index) => ObeysTable(index)
  }

  // ---- The parser ----

  /** An operator that has been read but not yet applied, with its left operand if it has one. */
  datatype Frame =
    | Pending(op: Symbol)
    | Awaiting(lhs: Expr, bop: Symbol)
    | Suffix(post: Post)

  datatype Incoming = BinaryNext(op: Symbol) | PostfixNext | NothingNext

  function FrameRank(f: Frame): nat {
    match f
    case Pending(_) => PREFIX_RANK
    case Awaiting(_, op) => Rank(op)
    case Suffix(_) => POSTFIX_RANK
  }

  /** Whether the operator on top of the stack is applied before the incoming one is pushed. */
  predicate AppliesBefore(f: Frame, next: Incoming) {
    match next
    case BinaryNext(op) =>
      || FrameRank(f) < Rank(op)
      || (!RightAssoc(op) && FrameRank(f) == Rank(op))
      || f.Suffix?
    case PostfixNext => FrameRank(f) <= POSTFIX_RANK
    case NothingNext => true
  }

  function Apply(f: Frame, top: Expr): Expr {
    match f
    case Pending(op) => Prefix(op, top)
    case Awaiting(lhs, op) => Binary(lhs, op, top)
    case Suffix(post) => Postfix(top, post)
  }

  function ApplyAll(frames: seq<Frame>, top: Expr, next: Incoming): (r: (seq<Frame>, Expr))
    ensures |r.0| <= |frames|
  {
    if frames == [] then (frames, top)
    else
      var last := frames[|frames| - 1];
      if AppliesBefore(last, next) then ApplyAll(frames[..|frames| - 1], Apply(last, top), next)
      else (frames, top)
  }

  /** Reads prefix operators, then an operand, then what may follow an operand. */
  function ReadOperand(ts: seq<Token>, frames: seq<Frame>): (r: Parsed<Expr, Token>)
    ensures r.Parsed? ==> |r.rest| < |ts|
    decreases |ts|, 3
  {
    if ts != [] && ts[0].Sym? && IsPrefix(ts[0].symbol) then
      ReadOperand(ts[1..], frames + [Pending(ts[0].symbol)])
    else
      match Operand(ts)
      case Failed => Failed
      case Parsed(e, rest) => ReadOperator(rest, frames, e)
  }

  /** Reads postfix operators, then a binary operator and its operand, or stops. */
  function ReadOperator(ts: seq<Token>, frames: seq<Frame>, top: Expr): (r: Parsed<Expr, Token>)
    ensures r.Parsed? ==> |r.rest| <= |ts|
    decreases |ts|, 3
  {
    match PostfixOp(ts)
    case Parsed(post, rest) =>
      var (fs, t) := ApplyAll(frames, top, PostfixNext);
      ReadOperator(rest, fs + [Suffix(post)], t)
    case Failed =>
      if ts != [] && ts[0].Sym? && IsBinary(ts[0].symbol) then
        var (fs, t) := ApplyAll(frames, top, BinaryNext(ts[0].symbol));
        ReadOperand(ts[1..], fs + [Awaiting(t, ts[0].symbol)])
      else
        Parsed(ApplyAll(frames, top, NothingNext).1, ts)
  }

  /** An optional cast and an atom. A cast that matches is never given back. */
  function Operand(ts: seq<Token>): (r: Parsed<Expr, Token>)
    ensures r.Parsed? ==> |r.rest| < |ts|
    decreases |ts|, 2
  {
    match CastPrefix(ts)
    case Failed => Atom(ts)
    case Parsed((ty, marks), rest) =>
      match Atom(rest)
      case Failed => Failed
      case Parsed(e, rest') => Parsed(Cast(ty, marks, e), rest')
  }

  function Atom(ts: seq<Token>): (r: Parsed<Expr, Token>)
    ensures r.Parsed? ==> |r.rest| < |ts|
    decreases |ts|, 1
  {
    if ts == [] then Failed
    else if IsAtom(ts[0]) then Parsed(Leaf(ts[0]), ts[1..])
    else if ts[0].LPar? then
      match ReadOperand(ts[1..], [])
      case Failed => Failed
      case Parsed(e, rest) => if rest != [] && rest[0].RPar? then Parsed(Group(e), rest[1..]) else Failed
    else Failed
  }

  function PostfixOp(ts: seq<Token>): (r: Parsed<Post, Token>)
    ensures r.Parsed? ==> |r.rest| < |ts|
    decreases |ts|, 2
  {
    if |ts| < 2 then Failed
    else if ts[0].Dot? && (IsMemberName(ts[1]) || IsUnsigned(ts[1])) then Parsed(Member(ts[1]), ts[2..])
    else if ts[0].Arrow? && IsMemberName(ts[1]) then Parsed(ArrowMember(ts[1]), ts[2..])
    else if ts[0].LBrk? then
      // An integer literal after the bracket is taken as the whole subscript, even if it is the head of a float.
      var subscript := if ts[1].Integer? then Parsed(Leaf(ts[1]), ts[2..])
                       else if DigitFirst(ts[1]) then Failed
                       else ReadOperand(ts[1..], []);
      if subscript.Parsed? && subscript.rest != [] && subscript.rest[0].RBrk? then
        Parsed(Index(subscript.value), subscript.rest[1..])
      else Failed
    else Failed
  }

  /** "(" type-name marks ")" */
  function CastPrefix(ts: seq<Token>): (r: Parsed<(Token, seq<Symbol>), Token>)
    ensures r.Parsed? ==> |r.rest| < |ts|
  {
    if |ts| >= 2 && ts[0].LPar? && IsTypeName(ts[1]) then
      var (marks, rest) := Marks(ts[2..]);
      if rest != [] && rest[0].RPar? then Parsed((ts[1], marks), rest[1..]) else Failed
    else Failed
  }

  function Marks(ts: seq<Token>): (r: (seq<Symbol>, seq<Token>))
    ensures |r.1| <= |ts|
  {
    if ts != [] && ts[0].Sym? && IsMark(ts[0].symbol) then
      var (marks, rest) := Marks(ts[1..]);
      ([ts[0].symbol] + marks, rest)
    else ([], ts)
  }

  function Expression(ts: seq<Token>): Parsed<Expr, Token> {
    ReadOperand(ts, [])
  }
}
