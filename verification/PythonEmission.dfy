/**
 The Python code that `expression` builds from a syntax tree, and what Python makes of it.

 Python reads the code as the tree that the operator table chose, unless a unary `-`, `+`
 or `~` stands as the left operand of `**`: that operator is emitted without parentheses,
 and Python's `**` binds more tightly than the sign.
 */
module PythonEmission {
  import opened PythonGrammar
  import opened Results
  import opened SimpleExpressions
  import opened Strings
  import SimpleGrammar
  import SimpleParsing

  // ---- The fold that emits Python ----

  function Emit(e: Expr): seq<PyTok> {
    match e
    case Leaf(tok) => EmitAtom(tok)
    case Group(inner) => [PLPar] + Emit(inner) + [PRPar]
    case Cast(ty, marks, operand) =>
      [Name("Value"), PDot, Name("cast"), PLPar, Quoted([ty] + Symbols(marks)), Comma] + Emit(operand) + [PRPar]
    case Prefix(op, arg) =>
      if op.Star? then Helper("dereference") + Emit(arg) + [PRPar]
      else if op.Amp? then Helper("address_of") + Emit(arg) + [PRPar]
      else if op.Bang? || op.NotWord? then [PLPar, Op(Not)] + Emit(arg) + [PRPar]
      else [Op(PySign(op))] + Emit(arg)
    case Binary(lhs, op, rhs) => [PLPar] + Emit(lhs) + [Op(PyBinary(op))] + Emit(rhs) + [PRPar]
    case Postfix(base, post) =>
      match post
      case Member(name) => Emit(base) + GetAttr(name)
      case ArrowMember(name) => Helper("dereference") + Emit(base) + [PRPar] + GetAttr(name)
      case Index(index) => Emit(base) + [PLBrk] + Emit(index) + [PRBrk]
  }

  function EmitAtom(tok: Token): seq<PyTok> {
    match tok
    case Boolean(text) => [Name(PyTruth(text))]
    case Ident(_) => [Name("__eval"), PLPar, Quoted([tok]), PRPar]
    case QIdent(_) => [Name("__eval"), PLPar, Quoted([tok]), PRPar]
    case Native(_) => [Name("__eval"), PLPar, Quoted([tok]), PRPar]
    case _ => [Literal(tok)]
  }

  /** `true` and `True` are both written as Python's name. */
  function PyTruth(text: string): string {
    if text == "true" || text == "True" then "True" else "False"
  }

  function Helper(name: string): seq<PyTok> {
    [Name("Value"), PDot, Name(name), PLPar]
  }

  function GetAttr(name: Token): seq<PyTok> {
    [PDot, Name("__getattr__"), PLPar, Quoted([name]), PRPar]
  }

  function PySign(op: Symbol): PyOp {
    if op.Minus? then Sub else if op.Plus? then Add else Invert
  }

  function PyBinary(op: Symbol): PyOp {
    match op
    case OrWord | BarBar => Or
    case AndWord | AmpAmp => And
    case ShiftLeft => Shl
    case ShiftRight => Shr
    case StarStar => Pow
    case GreaterEq => Ge
    case Greater => Gt
    case LessEq => Le
    case Less => Lt
    case Plus => Add
    case Minus => Sub
    case Star => Mul
    case SlashSlash => FloorDiv
    case Slash => Div
    case Percent => Mod
    case Bar => BitOr
    case Caret => BitXor
    case Amp => BitAnd
    case EqualEqual => Eq
    case NotEqual => Ne
    case Bang | NotWord | Tilde => Not // not binary operators
  }

  /** The whole translation: None is a syntax error. */
  function Compile(ts: seq<Token>): Option<seq<PyTok>> {
    match Expression(ts)
    case Parsed(e, rest) => if rest == [] then Some(Emit(e)) else None
    case Failed => None
  }

  // ---- The intended meaning, and the meaning Python finds ----

  /** The words that mean Python's `True`; the other two words for booleans mean `False`. */
  const TRUE_WORDS := {"true", "True"}

  /** The Python tree with the same shape as the source tree. */
  function Translate(e: Expr): Py {
    match e
    case Leaf(tok) => AtomMeaning(tok)
    case Group(inner) => Translate(inner)
    case Cast(ty, marks, operand) => CastMeaning(ty, marks, Translate(operand))
    case Prefix(op, arg) => PrefixMeaning(op, Translate(arg))
    case Binary(lhs, op, rhs) => BinaryMeaning(Translate(lhs), PyBinary(op), Translate(rhs))
    case Postfix(base, post) =>
      match post
      case Member(name) => AttrMeaning(Translate(base), name)
      case ArrowMember(name) => AttrMeaning(HelperMeaning("dereference", Translate(base)), name)
      case Index(index) => Subscript(Translate(base), Translate(index))
  }

  function AtomMeaning(tok: Token): Py {
    match tok
    case Boolean(text) => PyAtom(Name(if text in TRUE_WORDS then "True" else "False"))
    case Ident(_) => Call(PyAtom(Name("__eval")), [PyAtom(Quoted([tok]))])
    case QIdent(_) => Call(PyAtom(Name("__eval")), [PyAtom(Quoted([tok]))])
    case Native(_) => Call(PyAtom(Name("__eval")), [PyAtom(Quoted([tok]))])
    case _ => PyAtom(Literal(tok))
  }

  function HelperMeaning(name: string, arg: Py): Py {
    Call(Attribute(PyAtom(Name("Value")), name), [arg])
  }

  function CastMeaning(ty: Token, marks: seq<Symbol>, arg: Py): Py {
    Call(Attribute(PyAtom(Name("Value")), "cast"), [PyAtom(Quoted([ty] + Symbols(marks))), arg])
  }

  function AttrMeaning(value: Py, name: Token): Py {
    Call(Attribute(value, "__getattr__"), [PyAtom(Quoted([name]))])
  }

  function PrefixMeaning(op: Symbol, arg: Py): Py {
    if op.Star? then HelperMeaning("dereference", arg)
    else if op.Amp? then HelperMeaning("address_of", arg)
    else if op.Bang? || op.NotWord? then Unary(Not, arg)
    else Unary(PySign(op), arg)
  }

  function BinaryMeaning(lhs: Py, op: PyOp, rhs: Py): Py {
    if LevelOf(op) == COMPARISON then Compare(lhs, [op], [rhs]) else BinOp(lhs, op, rhs)
  }

  /** A unary operator that is emitted without parentheses. */
  predicate BareSign(e: Expr) {
    e.Prefix? && (e.op.Minus? || e.op.Plus? || e.op.Tilde?)
  }

  /** The tree Python reads from the emitted code: a bare sign on the left of `**` takes in the power. */
  function Meaning(e: Expr): Py
    decreases e, 0
  {
    match e
    case Leaf(tok) => AtomMeaning(tok)
    case Group(inner) => Meaning(inner)
    case Cast(ty, marks, operand) => CastMeaning(ty, marks, Meaning(operand))
    case Prefix(op, arg) => PrefixMeaning(op, Meaning(arg))
    case Binary(lhs, op, rhs) =>
      if op.StarStar? then PowerMeaning(lhs, Meaning(rhs))
      else BinaryMeaning(Meaning(lhs), PyBinary(op), Meaning(rhs))
    case Postfix(base, post) =>
      match post
      case Member(name) => AttrMeaning(Meaning(base), name)
      case ArrowMember(name) => AttrMeaning(HelperMeaning("dereference", Meaning(base)), name)
      case Index(index) => Subscript(Meaning(base), Meaning(index))
  }

  function PowerMeaning(lhs: Expr, exponent: Py): Py
    decreases lhs, 1
  {
    if BareSign(lhs) then Unary(PySign(lhs.op), PowerMeaning(lhs.arg, exponent))
    else BinOp(Meaning(lhs), Pow, exponent)
  }

  /** No bare sign is the left operand of `**` anywhere in the tree. */
  predicate NoSignedPower(e: Expr) {
    match e
    case Leaf(_) => true
    case Group(inner) => NoSignedPower(inner)
    case Cast(_, _, operand) => NoSignedPower(operand)
    case Prefix(_, arg) => NoSignedPower(arg)
    case Binary(lhs, op, rhs) => NoSignedPower(lhs) && NoSignedPower(rhs) && (op.StarStar? ==> !BareSign(lhs))
    case Postfix(base, post) => NoSignedPower(base) && (post.Index? ==> NoSignedPower(post.index))
  }

  lemma {:induction false} MeaningIsTranslation(e: Expr)
    requires ObeysTable(e)
    ensures Meaning(e) == Translate(e) <==> NoSignedPower(e)
  {
    match e
    case Leaf(_) =>
    case Group(inner) => MeaningIsTranslation(inner);
    case Cast(_, _, operand) => MeaningIsTranslation(operand);
    case Prefix(_, arg) => MeaningIsTranslation(arg);
    case Binary(lhs, op, rhs) => MeaningIsTranslation(lhs); MeaningIsTranslation(rhs);
    case Postfix(base, post) =>
      MeaningIsTranslation(base);
      if post.Index? { MeaningIsTranslation(post.index); }
  }

  // ---- Python reads the emitted code as its meaning ----

  /** What may follow a unary expression so that it is complete. */
  predicate Ends(rest: seq<PyTok>) {
    rest == [] || !(rest[0].PDot? || rest[0].PLPar? || rest[0].PLBrk? || rest[0] == Op(Pow))
  }

  predicate Closes(rest: seq<PyTok>) {
    rest != [] && (rest[0].PRPar? || rest[0].PRBrk? || rest[0].Comma?)
  }

  /** What is read at a tight level is read the same at every looser level that nothing continues. */
  lemma {:induction false} Lift(low: nat, high: nat, ts: seq<PyTok>)
    requires UNARY <= low <= high <= OR_TEST && Read(low, ts).Parsed? && ts != [] && ts[0] != Op(Not)
    requires var rest := Read(low, ts).rest;
      rest != [] && rest[0].Op? ==> !(low < LevelOf(rest[0].op) <= high)
    ensures Read(high, ts) == Read(low, ts)
    decreases high
  {
    if low < high {
      Lift(low, high - 1, ts);
    }
  }

  /** How emitted code starts. */
  lemma {:induction false} FirstToken(e: Expr)
    requires ObeysTable(e)
    ensures Emit(e) != [] && (Emit(e)[0].Op? <==> BareSign(e))
    ensures var t := Emit(e)[0]; t.Name? || t.Literal? || t.PLPar? || t == Op(Sub) || t == Op(Add) || t == Op(Invert)
  {
    if e.Postfix? {
      FirstToken(e.base);
    }
  }

  /** A primary is a unary expression, unless a power follows. */
  lemma PrimaryIsUnary(ts: seq<PyTok>, e: Py, rest: seq<PyTok>)
    requires ts != [] && !ts[0].Op? && Ends(rest)
    requires ReadPrimary(ts) == ReadTrailers(e, rest)
    ensures Read(UNARY, ts) == Parsed(e, rest)
  {
    assert Read(PRIMARY, ts) == Parsed(e, rest);
    assert Read(POWER, ts) == Parsed(e, rest);
  }

  lemma PrimaryThenPower(ts: seq<PyTok>, e: Py, right: seq<PyTok>, exponent: Py, rest: seq<PyTok>)
    requires ts != [] && !ts[0].Op?
    requires ReadPrimary(ts) == ReadTrailers(e, [Op(Pow)] + right)
    requires Read(UNARY, right) == Parsed(exponent, rest)
    ensures Read(UNARY, ts) == Parsed(BinOp(e, Pow, exponent), rest)
  {
    assert ([Op(Pow)] + right)[1..] == right;
    assert Read(PRIMARY, ts) == Parsed(e, [Op(Pow)] + right);
    assert Read(POWER, ts) == Parsed(BinOp(e, Pow, exponent), rest);
  }

  /** A unary expression, if nothing after it binds more tightly. */
  lemma {:induction false} ReadsUnary(e: Expr, rest: seq<PyTok>)
    requires ObeysTable(e) && Ends(rest)
    ensures Read(UNARY, Emit(e) + rest) == Parsed(Meaning(e), rest)
    decreases e, 4
  {
    FirstToken(e);
    if BareSign(e) {
      assert (Emit(e) + rest)[1..] == Emit(e.arg) + rest;
      ReadsUnary(e.arg, rest);
    } else {
      ReadsPrimary(e, rest);
      PrimaryIsUnary(Emit(e) + rest, Meaning(e), rest);
    }
  }

  /** A whole expression in front of a closing bracket or a comma. */
  lemma {:induction false} ReadsWhole(e: Expr, rest: seq<PyTok>)
    requires ObeysTable(e) && (Closes(rest) || rest == [])
    ensures Read(OR_TEST, Emit(e) + rest) == Parsed(Meaning(e), rest)
    decreases e, 5
  {
    FirstToken(e);
    ReadsUnary(e, rest);
    Lift(UNARY, OR_TEST, Emit(e) + rest);
  }

  /** The left operand of `**`: a bare sign applies to the whole power. */
  lemma {:induction false} ReadsPower(lhs: Expr, right: seq<PyTok>, exponent: Py, rest: seq<PyTok>)
    requires ObeysTable(lhs) && Read(UNARY, right) == Parsed(exponent, rest)
    ensures Read(UNARY, Emit(lhs) + ([Op(Pow)] + right)) == Parsed(PowerMeaning(lhs, exponent), rest)
    decreases lhs, 4
  {
    hide ObeysTable;
    var tail := [Op(Pow)] + right;
    FirstToken(lhs);
    if BareSign(lhs) {
      SignObeys(lhs);
      assert (Emit(lhs) + tail)[1..] == Emit(lhs.arg) + tail;
      ReadsPower(lhs.arg, right, exponent, rest);
    } else {
      ReadsPrimary(lhs, tail);
      PrimaryThenPower(Emit(lhs) + tail, Meaning(lhs), right, exponent, rest);
    }
  }

  lemma SignObeys(e: Expr)
    requires ObeysTable(e) && BareSign(e)
    ensures ObeysTable(e.arg)
  {
  }

  /** A binary operation in front of a closing parenthesis. */
  lemma {:induction false} ReadsOperation(lhs: Expr, op: Symbol, rhs: Expr, rest: seq<PyTok>)
    requires ObeysTable(lhs) && ObeysTable(rhs) && IsBinary(op) && Closes(rest)
    ensures Read(OR_TEST, Emit(lhs) + ([Op(PyBinary(op))] + (Emit(rhs) + rest))) == Parsed(Meaning(Binary(lhs, op, rhs)), rest)
    decreases Binary(lhs, op, rhs), 0
  {
    var right := Emit(rhs) + rest;
    ReadsUnary(rhs, rest);
    if op.StarStar? {
      ReadsPowerOperation(lhs, right, Meaning(rhs), rest);
    } else {
      FirstToken(rhs);
      BinaryLevels(op);
      ReadsPlainOperation(lhs, PyBinary(op), right, Meaning(rhs), rest);
    }
  }

  lemma {:induction false} ReadsPlainOperation(lhs: Expr, op: PyOp, right: seq<PyTok>, rhs: Py, rest: seq<PyTok>)
    requires ObeysTable(lhs) && Read(UNARY, right) == Parsed(rhs, rest) && Closes(rest)
    requires right != [] && right[0] != Op(Not) && UNARY < LevelOf(op) <= OR_TEST && op != Not
    ensures Read(OR_TEST, Emit(lhs) + ([Op(op)] + right)) == Parsed(BinaryMeaning(Meaning(lhs), op, rhs), rest)
    decreases lhs, 5
  {
    FirstToken(lhs);
    ReadsUnary(lhs, [Op(op)] + right);
    ReadsChain(op, Emit(lhs) + ([Op(op)] + right), Meaning(lhs), right, rhs, rest);
  }

  lemma {:induction false} ReadsPowerOperation(lhs: Expr, right: seq<PyTok>, exponent: Py, rest: seq<PyTok>)
    requires ObeysTable(lhs) && Read(UNARY, right) == Parsed(exponent, rest) && Closes(rest)
    ensures Read(OR_TEST, Emit(lhs) + ([Op(Pow)] + right)) == Parsed(PowerMeaning(lhs, exponent), rest)
    decreases lhs, 5
  {
    FirstToken(lhs);
    ReadsPower(lhs, right, exponent, rest);
    Lift(UNARY, OR_TEST, Emit(lhs) + ([Op(Pow)] + right));
  }

  lemma BinaryLevels(op: Symbol)
    requires IsBinary(op) && !op.StarStar?
    ensures var o := PyBinary(op); UNARY < LevelOf(o) <= OR_TEST && o != Not && o != Pow
  {
  }

  /** One binary operator between two unary expressions is read at its own level, and at all looser ones. */
  lemma ReadsChain(op: PyOp, ts: seq<PyTok>, lhs: Py, right: seq<PyTok>, rhs: Py, rest: seq<PyTok>)
    requires ts != [] && right != [] && ts[0] != Op(Not) && right[0] != Op(Not) && Closes(rest)
    requires UNARY < LevelOf(op) <= OR_TEST && op != Not
    requires Read(UNARY, ts) == Parsed(lhs, [Op(op)] + right)
    requires Read(UNARY, right) == Parsed(rhs, rest)
    ensures Read(OR_TEST, ts) == Parsed(BinaryMeaning(lhs, op, rhs), rest)
  {
    var level := LevelOf(op);
    Lift(UNARY, level - 1, ts);
    Lift(UNARY, level - 1, right);
    if level == COMPARISON {
      OneComparison(lhs, op, right, rhs, rest);
    } else {
      OneMore(level, lhs, op, right, rhs, rest);
    }
    assert Read(level, ts) == Parsed(BinaryMeaning(lhs, op, rhs), rest);
    Lift(level, OR_TEST, ts);
  }

  lemma OneComparison(lhs: Py, op: PyOp, right: seq<PyTok>, rhs: Py, rest: seq<PyTok>)
    requires LevelOf(op) == COMPARISON && Closes(rest) && Read(COMPARISON - 1, right) == Parsed(rhs, rest)
    ensures ReadComparisons(lhs, [], [], [Op(op)] + right) == Parsed(Compare(lhs, [op], [rhs]), rest)
  {
    assert ([Op(op)] + right)[1..] == right;
    assert [] + [op] == [op] && [] + [rhs] == [rhs];
  }

  lemma OneMore(level: nat, lhs: Py, op: PyOp, right: seq<PyTok>, rhs: Py, rest: seq<PyTok>)
    requires UNARY < level == LevelOf(op) <= OR_TEST && Closes(rest) && Read(level - 1, right) == Parsed(rhs, rest)
    ensures ReadMore(level, lhs, [Op(op)] + right) == Parsed(BinOp(lhs, op, rhs), rest)
  {
    assert ([Op(op)] + right)[1..] == right;
  }

  /** Emitted code that is one primary: everything but a bare sign. */
  lemma {:induction false} ReadsPrimary(e: Expr, rest: seq<PyTok>)
    requires ObeysTable(e) && !BareSign(e)
    ensures ReadPrimary(Emit(e) + rest) == ReadTrailers(Meaning(e), rest)
    decreases e, 3
  {
    match e
    case Leaf(tok) => ReadsLeaf(tok, rest);
    case Group(inner) => ReadsGroup(inner, rest);
    case Cast(ty, marks, operand) => ReadsCast(e, rest);
    case Prefix(op, arg) => ReadsPrefix(e, rest);
    case Binary(lhs, op, rhs) => ReadsBinary(e, rest);
    case Postfix(base, post) => ReadsPostfix(e, rest);
  }

  /** A call with the one argument `quoted`. */
  lemma ReadsQuotedCall(fn: Py, quoted: PyTok, rest: seq<PyTok>)
    requires quoted.Quoted?
    ensures ReadTrailers(fn, [PLPar, quoted, PRPar] + rest) == ReadTrailers(Call(fn, [PyAtom(quoted)]), rest)
  {
    var ts := [PLPar, quoted, PRPar] + rest;
    assert ts[1..] == [quoted, PRPar] + rest;
    ReadsAtom(quoted, [PRPar] + rest);
    assert [quoted] + ([PRPar] + rest) == ts[1..];
    assert ([PRPar] + rest)[1..] == rest;
    assert [] + [PyAtom(quoted)] == [PyAtom(quoted)];
  }

  /** A single-token atom before a closing bracket or comma. */
  lemma ReadsAtom(tok: PyTok, rest: seq<PyTok>)
    requires (tok.Name? || tok.Literal? || tok.Quoted?) && Closes(rest)
    ensures Read(OR_TEST, [tok] + rest) == Parsed(PyAtom(tok), rest)
  {
    var ts := [tok] + rest;
    assert ts[1..] == rest;
    assert ReadPrimary(ts) == Parsed(PyAtom(tok), rest);
    assert Read(PRIMARY, ts) == Parsed(PyAtom(tok), rest);
    assert Read(POWER, ts) == Parsed(PyAtom(tok), rest);
    Lift(UNARY, OR_TEST, ts);
  }

  lemma ReadsLeaf(tok: Token, rest: seq<PyTok>)
    requires IsAtom(tok)
    ensures ReadPrimary(EmitAtom(tok) + rest) == ReadTrailers(AtomMeaning(tok), rest)
  {
    var ts := EmitAtom(tok) + rest;
    if tok.Ident? || tok.QIdent? || tok.Native? {
      assert ts[1..] == [PLPar, Quoted([tok]), PRPar] + rest;
      ReadsQuotedCall(PyAtom(Name("__eval")), Quoted([tok]), rest);
    } else {
      assert ts[1..] == rest;
    }
  }

  lemma {:induction false} ReadsGroup(inner: Expr, rest: seq<PyTok>)
    requires ObeysTable(inner)
    ensures ReadPrimary([PLPar] + Emit(inner) + [PRPar] + rest) == ReadTrailers(Meaning(inner), rest)
    decreases inner, 6
  {
    var ts := [PLPar] + Emit(inner) + [PRPar] + rest;
    assert ts[1..] == Emit(inner) + ([PRPar] + rest);
    ReadsWhole(inner, [PRPar] + rest);
    assert ([PRPar] + rest)[1..] == rest;
  }

  /** Value.name( */
  lemma ReadsValueMethod(name: string, rest: seq<PyTok>)
    ensures ReadPrimary(Helper(name) + rest) == ReadTrailers(Attribute(PyAtom(Name("Value")), name), [PLPar] + rest)
  {
    var ts := Helper(name) + rest;
    assert ts[1..] == [PDot, Name(name), PLPar] + rest;
    assert ts[1..][2..] == [PLPar] + rest;
  }

  lemma {:induction false} ReadsHelper(name: string, arg: Expr, rest: seq<PyTok>)
    requires ObeysTable(arg)
    ensures ReadPrimary(Helper(name) + Emit(arg) + [PRPar] + rest) == ReadTrailers(HelperMeaning(name, Meaning(arg)), rest)
    decreases arg, 6
  {
    var tail := Emit(arg) + ([PRPar] + rest);
    assert Helper(name) + Emit(arg) + [PRPar] + rest == Helper(name) + tail;
    ReadsValueMethod(name, tail);
    assert ([PLPar] + tail)[1..] == tail;
    ReadsWhole(arg, [PRPar] + rest);
    FirstToken(arg);
    assert ([PRPar] + rest)[1..] == rest;
    assert [] + [Meaning(arg)] == [Meaning(arg)];
  }

  lemma {:induction false} ReadsCast(e: Expr, rest: seq<PyTok>)
    requires e.Cast? && ObeysTable(e)
    ensures ReadPrimary(Emit(e) + rest) == ReadTrailers(Meaning(e), rest)
    decreases e, 0
  {
    var quoted := Quoted([e.ty] + Symbols(e.marks));
    var after := Emit(e.operand) + ([PRPar] + rest);
    var tail := [quoted] + ([Comma] + after);
    assert Emit(e) + rest == Helper("cast") + tail;
    ReadsValueMethod("cast", tail);
    ReadsWhole(e.operand, [PRPar] + rest);
    FirstToken(e.operand);
    ReadsTwoArgs(quoted, after, Meaning(e.operand), rest);
    assert ([PLPar] + tail)[1..] == tail;
  }

  lemma ReadsTwoArgs(quoted: PyTok, after: seq<PyTok>, arg: Py, rest: seq<PyTok>)
    requires quoted.Quoted? && after != [] && !after[0].PRPar?
    requires Read(OR_TEST, after) == Parsed(arg, [PRPar] + rest)
    ensures ReadArgs([], [quoted] + ([Comma] + after)) == Parsed([PyAtom(quoted), arg], rest)
  {
    ReadsAtom(quoted, [Comma] + after);
    assert ([Comma] + after)[1..] == after;
    assert ([PRPar] + rest)[1..] == rest;
    assert [] + [PyAtom(quoted)] == [PyAtom(quoted)];
    assert [PyAtom(quoted)] + [arg] == [PyAtom(quoted), arg];
    assert ReadArgs([PyAtom(quoted)], after) == Parsed([PyAtom(quoted), arg], rest);
  }

  lemma {:induction false} ReadsPrefix(e: Expr, rest: seq<PyTok>)
    requires e.Prefix? && !BareSign(e) && ObeysTable(e)
    ensures ReadPrimary(Emit(e) + rest) == ReadTrailers(Meaning(e), rest)
    decreases e, 0
  {
    var arg := e.arg;
    if e.op.Star? {
      ReadsHelper("dereference", arg, rest);
    } else if e.op.Amp? {
      ReadsHelper("address_of", arg, rest);
    } else {
      var ts := Emit(e) + rest;
      var inner := [Op(Not)] + (Emit(arg) + ([PRPar] + rest));
      assert ts[1..] == inner;
      assert inner[1..] == Emit(arg) + ([PRPar] + rest);
      ReadsUnary(arg, [PRPar] + rest);
      FirstToken(arg);
      Lift(UNARY, NOT_TEST, inner[1..]);
      assert Read(NOT_TEST, inner) == Parsed(Unary(Not, Meaning(arg)), [PRPar] + rest);
      assert Read(NOT_TEST + 1, inner) == Read(NOT_TEST, inner);
      assert Read(OR_TEST, inner) == Read(NOT_TEST, inner);
      assert ([PRPar] + rest)[1..] == rest;
    }
  }

  lemma {:induction false} ReadsBinary(e: Expr, rest: seq<PyTok>)
    requires e.Binary? && ObeysTable(e)
    ensures ReadPrimary(Emit(e) + rest) == ReadTrailers(Meaning(e), rest)
    decreases e, 1
  {
    var ts := Emit(e) + rest;
    assert ts[1..] == Emit(e.lhs) + ([Op(PyBinary(e.bop))] + (Emit(e.rhs) + ([PRPar] + rest)));
    ReadsOperation(e.lhs, e.bop, e.rhs, [PRPar] + rest);
    assert ([PRPar] + rest)[1..] == rest;
  }

  lemma ReadsGetAttr(value: Py, name: Token, rest: seq<PyTok>)
    ensures ReadTrailers(value, GetAttr(name) + rest) == ReadTrailers(AttrMeaning(value, name), rest)
  {
    var ts := GetAttr(name) + rest;
    assert ts[2..] == [PLPar, Quoted([name]), PRPar] + rest;
    ReadsQuotedCall(Attribute(value, "__getattr__"), Quoted([name]), rest);
  }

  lemma {:induction false} ReadsPostfix(e: Expr, rest: seq<PyTok>)
    requires e.Postfix? && ObeysTable(e)
    ensures ReadPrimary(Emit(e) + rest) == ReadTrailers(Meaning(e), rest)
    decreases e, 1
  {
    var base := e.base;
    match e.post
    case Member(name) =>
      Assoc(Emit(base), GetAttr(name), rest);
      ReadsPrimary(base, GetAttr(name) + rest);
      ReadsGetAttr(Meaning(base), name, rest);
    case ArrowMember(name) =>
      Assoc(Helper("dereference") + Emit(base) + [PRPar], GetAttr(name), rest);
      ReadsHelper("dereference", base, GetAttr(name) + rest);
      ReadsGetAttr(HelperMeaning("dereference", Meaning(base)), name, rest);
    case Index(index) =>
      var tail := [PLBrk] + (Emit(index) + ([PRBrk] + rest));
      assert Emit(e) + rest == Emit(base) + tail;
      ReadsPrimary(base, tail);
      assert tail[1..] == Emit(index) + ([PRBrk] + rest);
      ReadsWhole(index, [PRBrk] + rest);
      assert ([PRBrk] + rest)[1..] == rest;
  }

  // ---- The operators keep their spelling ----

  function Spelling(s: Symbol): string {
    match s
    case Bang => "!" case NotWord => "not" case Tilde => "~" case Plus => "+" case Minus => "-"
    case Star => "*" case Amp => "&" case OrWord => "or" case BarBar => "||" case AndWord => "and"
    case AmpAmp => "&&" case ShiftLeft => "<<" case ShiftRight => ">>" case StarStar => "**"
    case GreaterEq => ">=" case Greater => ">" case LessEq => "<=" case Less => "<"
    case SlashSlash => "//" case Slash => "/" case Percent => "%" case Bar => "|" case Caret => "^"
    case EqualEqual => "==" case NotEqual => "!="
  }

  function PySpelling(op: PyOp): string {
    match op
    case Or => "or" case And => "and" case Not => "not"
    case Lt => "<" case Gt => ">" case Le => "<=" case Ge => ">=" case Eq => "==" case Ne => "!="
    case BitOr => "|" case BitXor => "^" case BitAnd => "&" case Shl => "<<" case Shr => ">>"
    case Add => "+" case Sub => "-" case Mul => "*" case FloorDiv => "//" case Div => "/" case Mod => "%"
    case Invert => "~" case Pow => "**"
  }

  /** Operators are emitted as they are spelled, except that `||` and `&&` become `or` and `and`. */
  lemma OperatorsKeepSpelling(s: Symbol)
    ensures IsBinary(s) ==> PySpelling(PyBinary(s)) ==
                            (if s.BarBar? then "or" else if s.AmpAmp? then "and" else Spelling(s))
    ensures s.Minus? || s.Plus? || s.Tilde? ==> PySpelling(PySign(s)) == Spelling(s)
  {
  }

  // ---- Main results ----

  /** Python reads every accepted expression as its meaning. */
  lemma PythonReadsMeaning(ts: seq<Token>, e: Expr)
    requires Expression(ts) == Parsed(e, [])
    ensures Compile(ts).Some? && PyRead(Compile(ts).value) == Some(Meaning(e))
    ensures Read(OR_TEST, Compile(ts).value) == Parsed(Meaning(e), [])
  {
    SimpleParsing.ExpressionSound(ts);
    ReadsWhole(e, []);
    assert Emit(e) + [] == Emit(e);
  }

  /**
   Compiling preserves the tree that the operator table chose exactly when no bare sign is the
   left operand of `**`.
   */
  lemma CompilePreservesMeaning(ts: seq<Token>, e: Expr)
    requires Expression(ts) == Parsed(e, [])
    ensures Compile(ts).Some?
    ensures PyRead(Compile(ts).value) == Some(Translate(e)) <==> NoSignedPower(e)
  {
    SimpleParsing.ExpressionSound(ts);
    PythonReadsMeaning(ts, e);
    MeaningIsTranslation(e);
  }

  /** Code comes out for exactly the texts that are a whole expression of the grammar without a misread shape. */
  lemma CompilesExactly(ts: seq<Token>)
    ensures Compile(ts).Some? <==> exists e: Expr :: Yield(e) == ts && SimpleGrammar.Grammatical(e) && SimpleParsing.Clean(e)
  {
    if Compile(ts).Some? {
      SimpleGrammar.GrammarAccepted(ts, Expression(ts).value);
    }
    if e: Expr :| Yield(e) == ts && SimpleGrammar.Grammatical(e) && SimpleParsing.Clean(e) {
      SimpleGrammar.GrammarAccepted(ts, e);
    }
  }

  /** Each of the four words for booleans compiles to Python's constant for it. */
  lemma BooleansCompile(text: string)
    requires text in {"true", "True", "false", "False"}
    ensures Compile([Boolean(text)]) == Some([Name(if text == "true" || text == "True" then "True" else "False")])
  {
    var e := Leaf(Boolean(text));
    SimpleParsing.AcceptedExactly([Boolean(text)], e);
    assert Emit(e) == [Name(PyTruth(text))];
  }

  /** `-x ** y` is accepted as a power of `-x` and read by Python as the negation of a power. */
  lemma SignedPowerMisread(x: string, y: string)
    ensures var ts := [Sym(Minus), Ident(x), Sym(StarStar), Ident(y)];
      var e := Binary(Prefix(Minus, Leaf(Ident(x))), StarStar, Leaf(Ident(y)));
      && Expression(ts) == Parsed(e, [])
      && Translate(e).BinOp?
      && PyRead(Compile(ts).value) == Some(Unary(Sub, BinOp(AtomMeaning(Ident(x)), Pow, AtomMeaning(Ident(y)))))
  {
    var ts := [Sym(Minus), Ident(x), Sym(StarStar), Ident(y)];
    var lhs := Prefix(Minus, Leaf(Ident(x)));
    var e := Binary(lhs, StarStar, Leaf(Ident(y)));
    assert Yield(lhs) + [Sym(StarStar)] + [Ident(y)] == ts;
    assert Level(Leaf(Ident(x))) == Level(Leaf(Ident(y))) == 0;
    assert ObeysTable(lhs);
    SimpleParsing.OperationAccepted(lhs, StarStar, Leaf(Ident(y)));
    PythonReadsMeaning(ts, e);
    var power := AtomMeaning(Ident(y));
    assert Meaning(e.rhs) == power;
    assert PowerMeaning(lhs.arg, power) == BinOp(AtomMeaning(Ident(x)), Pow, power);
    assert PowerMeaning(lhs, power) == Unary(Sub, PowerMeaning(lhs.arg, power));
    assert Translate(e) == BinOp(Translate(lhs), Pow, power);
  }
}
