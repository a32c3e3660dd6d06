/**
 The expression language stated as a grammar: which operators there are, and which of them may stand as
 operands of which, by the order of C++'s operators.
 */
module SimpleGrammar {
  import opened Results
  import opened SimpleExpressions
  import opened SimpleParsing

  /** The place of a binary operator in the order of C++, from tight to loose, with `**` in front; 11 is none. */
  function Looseness(s: Symbol): nat {
    if s in {StarStar} then 0
    else if s in {Star, SlashSlash, Slash, Percent} then 1
    else if s in {Plus, Minus} then 2
    else if s in {ShiftLeft, ShiftRight} then 3
    else if s in {Less, LessEq, Greater, GreaterEq} then 4
    else if s in {EqualEqual, NotEqual} then 5
    else if s in {Amp} then 6
    else if s in {Caret} then 7
    else if s in {Bar} then 8
    else if s in {AndWord, AmpAmp} then 9
    else if s in {OrWord, BarBar} then 10
    else 11
  }

  /** Digits are read as a member's name only if there is nothing else in the number. */
  predicate DigitsOnly(text: string) {
    text != "" && forall i :: 0 <= i < |text| ==> 48 <= text[i] as int <= 57
  }

  predicate Grammatical(e: Expr) {
    match e
    case Leaf(tok) =>
      tok.Integer? || tok.Float? || tok.Boolean? || tok.Str? || tok.Ident? || tok.QIdent? || tok.Native?
    case Group(inner) => Grammatical(inner)
    case Cast(ty, marks, operand) =>
      && (ty.Ident? || ty.QIdent? || ty.Boolean?)
      && (forall m <- marks :: m in {Star, Amp, StarStar, AmpAmp})
      && (operand.Leaf? || operand.Group?) && Grammatical(operand)
    case Prefix(op, arg) =>
      op in {Bang, NotWord, Minus, Plus, Tilde, Star, Amp} && Grammatical(arg) && !arg.Binary?
    case Binary(lhs, op, rhs) =>
      && Looseness(op) < 11
      && Grammatical(lhs)
      && (lhs.Binary? ==> Looseness(lhs.bop) < Looseness(op) || (Looseness(lhs.bop) == Looseness(op) && op != StarStar))
      && Grammatical(rhs)
      && (rhs.Binary? ==> Looseness(rhs.bop) < Looseness(op) || rhs.bop == op == StarStar)
    case Postfix(base, post) => Grammatical(base) && !base.Binary? && !base.Prefix? && GrammaticalPost(post)
  }

  predicate GrammaticalPost(p: Post) {
    match p
    case Member(name) => name.Ident? || name.Boolean? || (name.Integer? && DigitsOnly(name.text))
    case ArrowMember(name) => name.Ident? || name.Boolean?
    case Index(index) => Grammatical(index)
  }

  lemma LoosenessIsRank(a: Symbol, b: Symbol)
    ensures Looseness(a) < 11 <==> IsBinary(a)
    ensures IsBinary(a) && IsBinary(b) ==> (Looseness(a) < Looseness(b) <==> Rank(a) < Rank(b))
    ensures IsBinary(a) ==> Rank(a) > PREFIX_RANK
  {
  }

  /** The trees of the grammar are those whose operators obey the table of ranks. */
  lemma {:induction false} GrammarIsTable(e: Expr)
    ensures Grammatical(e) <==> ObeysTable(e)
  {
    hide Looseness, Rank, IsBinary;
    match e
    case Leaf(_) =>
    case Group(inner) => GrammarIsTable(inner);
    case Cast(_, _, operand) => GrammarIsTable(operand);
    case Prefix(_, arg) =>
      GrammarIsTable(arg);
      if arg.Binary? {
        LoosenessIsRank(arg.bop, arg.bop);
      }
    case Binary(lhs, op, rhs) => BinaryIsTable(e);
    case Postfix(base, post) =>
      GrammarIsTable(base);
      PostIsTable(post);
      if base.Binary? {
        LoosenessIsRank(base.bop, base.bop);
      }
  }

  lemma {:induction false} BinaryIsTable(e: Expr)
    requires e.Binary?
    ensures Grammatical(e) <==> ObeysTable(e)
    decreases e, 0
  {
    hide Looseness, Rank, IsBinary;
    var Binary(lhs, op, rhs) := e;
    GrammarIsTable(lhs);
    GrammarIsTable(rhs);
    LoosenessIsRank(op, op);
    if lhs.Binary? {
      LoosenessIsRank(lhs.bop, op);
      LoosenessIsRank(op, lhs.bop);
    }
    if rhs.Binary? {
      LoosenessIsRank(rhs.bop, op);
      LoosenessIsRank(op, rhs.bop);
      OnlyPower(rhs.bop);
    }
  }

  lemma OnlyPower(s: Symbol)
    ensures Looseness(s) == Looseness(StarStar) <==> s == StarStar
    ensures RightAssoc(s) <==> s == StarStar
  {
  }

  lemma {:induction false} PostIsTable(p: Post)
    ensures GrammaticalPost(p) <==> PostObeys(p)
  {
    match p
    case Member(name) =>
      if name.Integer? {
        assert forall i :: 0 <= i < |name.text| ==> ('0' <= name.text[i] <= '9' <==> 48 <= name.text[i] as int <= 57);
      }
    case ArrowMember(_) =>
    case Index(index) => GrammarIsTable(index);
  }

  /**
   The parser accepts a sequence of lexemes with a tree if and only if the tree is one of the grammar, its lexemes
   are that sequence, and it contains neither of the two misread shapes.
   */
  lemma GrammarAccepted(ts: seq<Token>, e: Expr)
    ensures Expression(ts) == Parsed(e, []) <==> Yield(e) == ts && Grammatical(e) && Clean(e)
  {
    AcceptedExactly(ts, e);
    GrammarIsTable(e);
  }
}
