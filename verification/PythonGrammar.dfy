/**
 How Python reads an expression: the productions of chapter 6 of the Python Language
 Reference from `or_test` down to `primary`, in the order of section 6.17,
 "Operator precedence". Only the forms that generated code can contain are included.
 */
module PythonGrammar {
  import opened Results
  import S = SimpleExpressions

  datatype PyOp =
    | Or | And | Not
    | Lt | Gt | Le | Ge | Eq | Ne
    | BitOr | BitXor | BitAnd | Shl | Shr | Add | Sub
    | Mul | FloorDiv | Div | Mod | Invert | Pow

  datatype PyTok =
    | Name(id: string)
    | Literal(src: S.Token)        // a literal carried over as it was written
    | Quoted(text: seq<S.Token>)   // a quoted piece of the original expression
    | Op(op: PyOp)
    | PDot | Comma | PLPar | PRPar | PLBrk | PRBrk

  datatype Py =
    | PyAtom(tok: PyTok)
    | Attribute(value: Py, name: string)
    | Call(fn: Py, args: seq<Py>)
    | Subscript(value: Py, index: Py)
    | Unary(op: PyOp, arg: Py)
    | BinOp(lhs: Py, op: PyOp, rhs: Py)
    | Compare(first: Py, ops: seq<PyOp>, others: seq<Py>)

  // ---- Precedence levels, tightest first ----

  const PRIMARY := 0
  const POWER := 1
  const UNARY := 2
  const COMPARISON := 9
  const NOT_TEST := 10
  const OR_TEST := 12

  /** The level at which an operator is read as a binary operator. */
  function LevelOf(op: PyOp): nat {
    match op
    case Pow => POWER
    case Invert => UNARY
    case Mul | FloorDiv | Div | Mod => 3
    case Add | Sub => 4
    case Shl | Shr => 5
    case BitAnd => 6
    case BitXor => 7
    case BitOr => 8
    case Lt | Gt | Le | Ge | Eq | Ne => COMPARISON
    case Not => NOT_TEST
    case And => 11
    case Or => OR_TEST
  }

  predicate IsSign(op: PyOp) {
    op.Sub? || op.Add? || op.Invert?
  }

  // ---- The productions ----

  function Read(level: nat, ts: seq<PyTok>): (r: Parsed<Py, PyTok>)
    requires level <= OR_TEST
    ensures r.Parsed? ==> |r.rest| < |ts|
    decreases |ts|, level, 1
  {
    if level == PRIMARY then ReadPrimary(ts)
    else if level == POWER then
      match Read(PRIMARY, ts)
      case Failed => Failed
      case Parsed(base, rest) =>
        if rest != [] && rest[0] == Op(Pow) then
          match Read(UNARY, rest[1..])
          case Failed => Failed
          case Parsed(exponent, rest') => Parsed(BinOp(base, Pow, exponent), rest')
        else Parsed(base, rest)
    else if level == UNARY && ts != [] && ts[0].Op? && IsSign(ts[0].op) then
      match Read(UNARY, ts[1..])
      case Failed => Failed
      case Parsed(e, rest) => Parsed(Unary(ts[0].op, e), rest)
    else if level == NOT_TEST && ts != [] && ts[0] == Op(Not) then
      match Read(NOT_TEST, ts[1..])
      case Failed => Failed
      case Parsed(e, rest) => Parsed(Unary(Not, e), rest)
    else
      match Read(level - 1, ts)
      case Failed => Failed
      case Parsed(e, rest) =>
        if level == UNARY || level == NOT_TEST then Parsed(e, rest)
        else if level == COMPARISON then ReadComparisons(e, [], [], rest)
        else ReadMore(level, e, rest)
  }

  /** A left-associative chain at one level. */
  function ReadMore(level: nat, lhs: Py, ts: seq<PyTok>): (r: Parsed<Py, PyTok>)
    requires UNARY < level <= OR_TEST
    ensures r.Parsed? ==> |r.rest| <= |ts|
    decreases |ts|, level, 0
  {
    if ts != [] && ts[0].Op? && LevelOf(ts[0].op) == level then
      match Read(level - 1, ts[1..])
      case Failed => Failed
      case Parsed(rhs, rest) => ReadMore(level, BinOp(lhs, ts[0].op, rhs), rest)
    else Parsed(lhs, ts)
  }

  /** Comparisons chain: `a < b < c` is one comparison with two operators. */
  function ReadComparisons(first: Py, ops: seq<PyOp>, others: seq<Py>, ts: seq<PyTok>): (r: Parsed<Py, PyTok>)
    ensures r.Parsed? ==> |r.rest| <= |ts|
    decreases |ts|, COMPARISON, 0
  {
    if ts != [] && ts[0].Op? && LevelOf(ts[0].op) == COMPARISON then
      match Read(COMPARISON - 1, ts[1..])
      case Failed => Failed
      case Parsed(e, rest) => ReadComparisons(first, ops + [ts[0].op], others + [e], rest)
    else Parsed(if ops == [] then first else Compare(first, ops, others), ts)
  }

  function ReadPrimary(ts: seq<PyTok>): (r: Parsed<Py, PyTok>)
    ensures r.Parsed? ==> |r.rest| < |ts|
    decreases |ts|, 0, 0
  {
    if ts == [] then Failed
    else if ts[0].Name? || ts[0].Literal? || ts[0].Quoted? then ReadTrailers(PyAtom(ts[0]), ts[1..])
    else if ts[0].PLPar? then
      match Read(OR_TEST, ts[1..])
      case Failed => Failed
      case Parsed(e, rest) => if rest != [] && rest[0].PRPar? then ReadTrailers(e, rest[1..]) else Failed
    else Failed
  }

  /** Attribute references, calls and subscriptions after an atom. */
  function ReadTrailers(e: Py, ts: seq<PyTok>): (r: Parsed<Py, PyTok>)
    ensures r.Parsed? ==> |r.rest| <= |ts|
    decreases |ts|, 0, 0
  {
    if ts == [] then Parsed(e, ts)
    else if ts[0].PDot? then
      if |ts| >= 2 && ts[1].Name? then ReadTrailers(Attribute(e, ts[1].id), ts[2..]) else Failed
    else if ts[0].PLPar? then
      match ReadArgs([], ts[1..])
      case Failed => Failed
      case Parsed(args, rest) => ReadTrailers(Call(e, args), rest)
    else if ts[0].PLBrk? then
      match Read(OR_TEST, ts[1..])
      case Failed => Failed
      case Parsed(i, rest) => if rest != [] && rest[0].PRBrk? then ReadTrailers(Subscript(e, i), rest[1..]) else Failed
    else Parsed(e, ts)
  }

  /** Arguments up to and including the closing parenthesis; a trailing comma is allowed. */
  function ReadArgs(args: seq<Py>, ts: seq<PyTok>): (r: Parsed<seq<Py>, PyTok>)
    ensures r.Parsed? ==> |r.rest| < |ts|
    decreases |ts|, OR_TEST, 2
  {
    if ts == [] then Failed
    else if ts[0].PRPar? then Parsed(args, ts[1..])
    else
      match Read(OR_TEST, ts)
      case Failed => Failed
      case Parsed(e, rest) =>
        if rest == [] then Failed
        else if rest[0].PRPar? then Parsed(args + [e], rest[1..])
        else if rest[0].Comma? then ReadArgs(args + [e], rest[1..])
        else Failed
  }

  function PyRead(ts: seq<PyTok>): Option<Py> {
    match Read(OR_TEST, ts)
    case Parsed(e, rest) => if rest == [] then Some(e) else None
    case Failed => None
  }

  /**
   The order of section 6.17, from tight to loose: `**`, the signs, products, sums, shifts, `&`, `^`, `|`,
   comparisons, `not`, `and`, `or`. The sign `~` is no binary operator.
   */
  lemma PythonTableOrder()
    ensures PRIMARY < POWER == LevelOf(Pow) < UNARY < LevelOf(Mul) && LevelOf(Invert) <= UNARY
    ensures LevelOf(Mul) == LevelOf(FloorDiv) == LevelOf(Div) == LevelOf(Mod) < LevelOf(Add) == LevelOf(Sub)
    ensures LevelOf(Add) < LevelOf(Shl) == LevelOf(Shr) < LevelOf(BitAnd) < LevelOf(BitXor) < LevelOf(BitOr) < COMPARISON
    ensures forall op <- [Lt, Gt, Le, Ge, Eq, Ne] :: LevelOf(op) == COMPARISON
    ensures COMPARISON < NOT_TEST == LevelOf(Not) < LevelOf(And) < OR_TEST == LevelOf(Or)
    ensures forall op: PyOp :: IsSign(op) <==> op in {Sub, Add, Invert}
  {
  }
}
