/**
 * Values, tuples and the bound expressions of the execution engine, together
 * with their two evaluators: one over a single tuple, one over the pair of
 * tuples a join looks at.
 */
module Expressions {
  import opened Common

  datatype TypeId = BOOLEAN | INTEGER | VARCHAR

  /** Columns hold 32-bit integers and booleans here; `Null` is the SQL null. */
  datatype Value = Int(i: int) | Bool(b: bool) | Null

  type Row = seq<Value>

  function Nulls(n: nat): (r: Row)
    ensures |r| == n
  {
    seq(n, _ => Null)
  }

  datatype CompareOp = Equal | NotEqual | LessThan | LessThanOrEqual | GreaterThan | GreaterThanOrEqual

  datatype ArithOp = Plus | Minus

  datatype LogicOp = And | Or

  datatype Expr =
    | Column(tupleIdx: nat, colIdx: nat, ty: TypeId)
    | Const(value: Value)
    | Compare(cmp: CompareOp, left: Expr, right: Expr)
    | Arith(arith: ArithOp, left: Expr, right: Expr)
    | Logic(logic: LogicOp, left: Expr, right: Expr)

  /** The order of two values of one kind; false across kinds and on nulls. */
  predicate Less(v: Value, w: Value) {
    match (v, w)
    case (Int(i), Int(j)) => i < j
    case (Bool(a), Bool(b)) => !a && b
    case _ => false
  }

  predicate Comparable(v: Value, w: Value) {
    (v.Int? && w.Int?) || (v.Bool? && w.Bool?)
  }

  /** A comparison is null as soon as one side is. */
  function CompareValues(op: CompareOp, v: Value, w: Value): Value {
    if !Comparable(v, w) then Null
    else match op
      case Equal => Bool(v == w)
      case NotEqual => Bool(v != w)
      case LessThan => Bool(Less(v, w))
      case LessThanOrEqual => Bool(!Less(w, v))
      case GreaterThan => Bool(Less(w, v))
      case GreaterThanOrEqual => Bool(!Less(v, w))
  }

  /** Two's-complement reading of an integer in 32 bits. */
  function Int32(x: int): (r: int)
    ensures -0x8000_0000 <= r < 0x8000_0000 && (r - x) % 0x1_0000_0000 == 0
  {
    (x + 0x8000_0000) % 0x1_0000_0000 - 0x8000_0000
  }

  function ArithValues(op: ArithOp, v: Value, w: Value): Value {
    if !v.Int? || !w.Int? then Null
    else match op
      case Plus => Int(Int32(v.i + w.i))
      case Minus => Int(Int32(v.i - w.i))
  }

  /** Three-valued conjunction and disjunction. */
  function LogicValues(op: LogicOp, v: Value, w: Value): Value {
    match op
    case And =>
      if v == Bool(false) || w == Bool(false) then Bool(false)
      else if v == Bool(true) && w == Bool(true) then Bool(true)
      else Null
    case Or =>
      if v == Bool(false) && w == Bool(false) then Bool(false)
      else if v == Bool(true) || w == Bool(true) then Bool(true)
      else Null
  }

  function ValueAt(row: Row, i: nat): Value {
    if i < |row| then row[i] else Null
  }

  /** Evaluation on one tuple: the tuple index of a column is not looked at. */
  function Eval(e: Expr, row: Row): Value {
    match e
    case Column(_, col, _) => ValueAt(row, col)
    case Const(v) => v
    case Compare(op, l, r) => CompareValues(op, Eval(l, row), Eval(r, row))
    case Arith(op, l, r) => ArithValues(op, Eval(l, row), Eval(r, row))
    case Logic(op, l, r) => LogicValues(op, Eval(l, row), Eval(r, row))
  }

  /** Evaluation on a pair: tuple index 0 reads the left tuple, any other the right one. */
  function EvalJoin(e: Expr, left: Row, right: Row): Value {
    match e
    case Column(t, col, _) => ValueAt(if t == 0 then left else right, col)
    case Const(v) => v
    case Compare(op, l, r) => CompareValues(op, EvalJoin(l, left, right), EvalJoin(r, left, right))
    case Arith(op, l, r) => ArithValues(op, EvalJoin(l, left, right), EvalJoin(r, left, right))
    case Logic(op, l, r) => LogicValues(op, EvalJoin(l, left, right), EvalJoin(r, left, right))
  }

  /** Every column of `e` names tuple 0 and one of its first `n` columns. */
  predicate Fits(e: Expr, n: nat) {
    match e
    case Column(t, col, _) => t == 0 && col < n
    case Const(_) => true
    case Compare(_, l, r) => Fits(l, n) && Fits(r, n)
    case Arith(_, l, r) => Fits(l, n) && Fits(r, n)
    case Logic(_, l, r) => Fits(l, n) && Fits(r, n)
  }

  /** Every column of `e` names a column of the left tuple (0) or of the right one (1). */
  predicate FitsJoin(e: Expr, leftCount: nat, rightCount: nat) {
    match e
    case Column(t, col, _) => (t == 0 && col < leftCount) || (t == 1 && col < rightCount)
    case Const(_) => true
    case Compare(_, l, r) => FitsJoin(l, leftCount, rightCount) && FitsJoin(r, leftCount, rightCount)
    case Arith(_, l, r) => FitsJoin(l, leftCount, rightCount) && FitsJoin(r, leftCount, rightCount)
    case Logic(_, l, r) => FitsJoin(l, leftCount, rightCount) && FitsJoin(r, leftCount, rightCount)
  }

  /** The node `e` with new operands; a leaf keeps itself. */
  function WithOperands(e: Expr, l: Result<Expr>, r: Result<Expr>): Result<Expr> {
    if l.Err? then l
    else if r.Err? then r
    else match e
      case Compare(op, _, _) => Ok(Compare(op, l.value, r.value))
      case Arith(op, _, _) => Ok(Arith(op, l.value, r.value))
      case Logic(op, _, _) => Ok(Logic(op, l.value, r.value))
      case _ => Ok(e)
  }

  /** A filter's expression over a joined tuple becomes a join predicate over the pair. */
  function RewriteExpressionForJoin(e: Expr, leftCount: nat, rightCount: nat): Result<Expr> {
    match e
    case Column(t, col, ty) =>
      if t != 0 then Err("tuple_idx cannot be value other than 0 before this stage.")
      else if col < leftCount then Ok(Column(0, col, ty))
      else if col < leftCount + rightCount then Ok(Column(1, col - leftCount, ty))
      else Err("col_idx not in range")
    case Const(_) => Ok(e)
    case Compare(_, l, r) => WithOperands(e, RewriteExpressionForJoin(l, leftCount, rightCount),
                                          RewriteExpressionForJoin(r, leftCount, rightCount))
    case Arith(_, l, r) => WithOperands(e, RewriteExpressionForJoin(l, leftCount, rightCount),
                                        RewriteExpressionForJoin(r, leftCount, rightCount))
    case Logic(_, l, r) => WithOperands(e, RewriteExpressionForJoin(l, leftCount, rightCount),
                                        RewriteExpressionForJoin(r, leftCount, rightCount))
  }

  /** The rewrite is refused exactly when some column is not one of the joined tuple's. */
  lemma {:induction false} RewriteSucceedsExactly(e: Expr, leftCount: nat, rightCount: nat)
    ensures RewriteExpressionForJoin(e, leftCount, rightCount).Ok? <==> Fits(e, leftCount + rightCount)
  {
    if !e.Column? && !e.Const? {
      RewriteSucceedsExactly(e.left, leftCount, rightCount);
      RewriteSucceedsExactly(e.right, leftCount, rightCount);
    }
  }

  /** The rewritten predicate means on (left, right) what the original means on the joined tuple. */
  lemma {:induction false} RewriteMeansTheSame(e: Expr, left: Row, right: Row)
    requires RewriteExpressionForJoin(e, |left|, |right|).Ok?
    ensures var rewritten := RewriteExpressionForJoin(e, |left|, |right|).value;
            EvalJoin(rewritten, left, right) == Eval(e, left + right)
  {
    if !e.Column? && !e.Const? {
      RewriteMeansTheSame(e.left, left, right);
      RewriteMeansTheSame(e.right, left, right);
    }
  }

  lemma {:induction false} RewrittenFitsJoin(e: Expr, leftCount: nat, rightCount: nat)
    requires RewriteExpressionForJoin(e, leftCount, rightCount).Ok?
    ensures FitsJoin(RewriteExpressionForJoin(e, leftCount, rightCount).value, leftCount, rightCount)
  {
    if !e.Column? && !e.Const? {
      RewrittenFitsJoin(e.left, leftCount, rightCount);
      RewrittenFitsJoin(e.right, leftCount, rightCount);
    }
  }
}
