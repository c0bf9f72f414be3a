/** Constant arithmetic folding (src/java/me/pavlina/alco/passes/ConstantFold.java):
    every +, -, *, / and unary - whose folded operands are both integer
    literals becomes the literal of the result, bottom-up. Real operands are
    combined by the RealOps given, which stand for Java's double arithmetic
    on the literals' text. */
module ConstantFold {
  import opened Wrappers
  import opened Ast

  const DivisionByZero := "integer division by zero"

  /** The double arithmetic of the real branches, on the literals' text:
      `binary(op, a, b)` for op in + - * /, and `negate(a)`. */
  datatype RealOps = RealOps(binary: (string, string, string) -> string, negate: string -> string)

  /** The binary operators the pass folds: OpPlus, OpMinus, OpMul, OpDiv. */
  predicate IsArith(op: string) { op in {"+", "-", "*", "/"} }

  function Abs(a: int): nat { if a >= 0 then a else -a }

  /** BigInteger.divide: the quotient rounded toward zero. */
  function TruncDiv(a: int, b: int): (q: int)
    requires b != 0
    ensures Abs(q) == Abs(a) / Abs(b)
    ensures q > 0 ==> (a > 0) == (b > 0)
    ensures q < 0 ==> (a > 0) != (b > 0)
  {
    NatDiv(Abs(a), Abs(b));
    var n := Abs(a) / Abs(b);
    if (a >= 0) == (b >= 0) then n else -n
  }

  lemma NatDiv(x: nat, y: nat)
    requires y > 0
    ensures x / y >= 0 && (x == 0 ==> x / y == 0)
    ensures x == (x / y) * y + x % y && 0 <= x % y < y
  {
  }

  /** The remainder left by the quotient has the sign of the dividend and a
      smaller magnitude than the divisor. */
  lemma TruncDivRemainder(a: int, b: int)
    requires b != 0
    ensures var r := a - TruncDiv(a, b) * b;
            Abs(r) < Abs(b) && (r == 0 || (r > 0 <==> a > 0))
  {
    var q := TruncDiv(a, b);
    var n, m := Abs(a) / Abs(b), Abs(a) % Abs(b);
    NatDiv(Abs(a), Abs(b));
    if (a >= 0) == (b >= 0) {
      assert q == n;
      if a >= 0 {
        assert a - q * b == m;
      } else {
        assert q * b == -(n * Abs(b));
        assert a - q * b == -m;
      }
    } else {
      assert q == -n;
      if a >= 0 {
        assert q * b == n * Abs(b);
        assert a - q * b == m;
      } else {
        assert q * b == -(n * Abs(b));
        assert a - q * b == -m;
      }
    }
  }

  /** What an operator computes on two integer literals. */
  function IntArith(op: string, a: int, b: int): int
    requires IsArith(op) && (op == "/" ==> b != 0)
  {
    if op == "+" then a + b
    else if op == "-" then a - b
    else if op == "*" then a * b
    else TruncDiv(a, b)
  }

  /** run(OpPlus), run(OpMinus), run(OpMul), run(OpDiv) once the operands
      are folded. It fails only on an integer division by the literal 0, and
      gives a literal exactly when both operands are literals of one kind. */
  function Combine(op: string, lhs: Expr, rhs: Expr, ops: RealOps): (r: Result<Expr, string>)
    requires IsArith(op)
    ensures r.Err? <==> op == "/" && lhs.IntValue? && rhs.IntValue? && rhs.value == 0
    ensures r.Err? ==> r.error == DivisionByZero
    ensures r.Ok? ==> (IsLiteral(r.value) <==> (lhs.IntValue? && rhs.IntValue?) || (lhs.RealValue? && rhs.RealValue?))
  {
    if lhs.IntValue? && rhs.IntValue? then
      if op == "/" && rhs.value == 0 then Err(DivisionByZero)
      else Ok(IntValue(IntArith(op, lhs.value, rhs.value)))
    else if lhs.RealValue? && rhs.RealValue? then Ok(RealValue(ops.binary(op, lhs.text, rhs.text)))
    else Ok(BinaryOp(op, lhs, rhs))
  }

  /** run(OpNeg) once the operand is folded: a literal operand gives a
      literal of the same kind, an integer one its opposite; any other
      operand stays under the negation. */
  function Negate(operand: Expr, ops: RealOps): (r: Expr)
    ensures r.IntValue? <==> operand.IntValue?
    ensures r.RealValue? <==> operand.RealValue?
    ensures r.IntValue? ==> r.value == -operand.value
    ensures !IsLiteral(operand) ==> r == UnaryOp("-", operand)
  {
    if operand.IntValue? then IntValue(-operand.value)
    else if operand.RealValue? then RealValue(ops.negate(operand.text))
    else UnaryOp("-", operand)
  }

  /** The misplaced `=` (OpEqError), whose getChildren gives null, so that
      the pass returns it without looking inside. */
  predicate IsEqError(op: string) { op == "=" }

  /** run(Expression): the arithmetic operators are folded from their folded
      operands; every other node keeps its kind and has its children folded,
      left to right, except `=`, which has no children to fold. The first
      error met ends the pass; the only error is the division by zero. */
  function Fold(e: Expr, ops: RealOps): (r: Result<Expr, string>)
    ensures r.Err? ==> r.error == DivisionByZero
  {
    match e
    case BinaryOp(op, l, r) =>
      if IsEqError(op) then Ok(e)
      else
        var l1 :- Fold(l, ops);
        var r1 :- Fold(r, ops);
        if IsArith(op) then Combine(op, l1, r1, ops) else Ok(BinaryOp(op, l1, r1))
    case UnaryOp(op, x) =>
      var x1 :- Fold(x, ops);
      if op == "-" then Ok(Negate(x1, ops)) else Ok(UnaryOp(op, x1))
    case Tuple(l, r) =>
      var l1 :- Fold(l, ops);
      var r1 :- Fold(r, ops);
      Ok(Tuple(l1, r1))
    case Call(c, a) =>
      var c1 :- Fold(c, ops);
      var a1 :- Fold(a, ops);
      Ok(Call(c1, a1))
    case Index(b, i) =>
      var b1 :- Fold(b, ops);
      var i1 :- Fold(i, ops);
      Ok(Index(b1, i1))
    case _ => Ok(e)
  }

  /** run(AST): an expression is folded; a statement has each of its
      children folded in order. */
  function FoldNode(n: Node, ops: RealOps): (r: Result<Node, string>)
    ensures r.Err? ==> r.error == DivisionByZero
    decreases n, 1
  {
    match n
    case ExprNode(e) =>
      var e1 :- Fold(e, ops);
      Ok(ExprNode(e1))
    case Statement(children) =>
      var c1 :- FoldAll(children, ops);
      Ok(Statement(c1))
  }

  function FoldAll(ns: seq<Node>, ops: RealOps): (r: Result<seq<Node>, string>)
    ensures r.Err? ==> r.error == DivisionByZero
    ensures r.Ok? ==> |r.value| == |ns|
    decreases ns, 0
  {
    if ns == [] then Ok([])
    else
      var first :- FoldNode(ns[0], ops);
      var rest :- FoldAll(ns[1..], ops);
      Ok([first] + rest)
  }

  // ---------------------------------------------------------------------
  // What a folded tree looks like

  /** A literal the pass folds into its parent. */
  predicate IsLiteral(e: Expr) { e.IntValue? || e.RealValue? }

  /** A tree in which no fold applies: no arithmetic operator has two
      integer or two real operands, no negation has a literal operand, and
      no integer division has a zero literal divisor left to report. What
      lies under a `=` is never folded and may be anything. */
  predicate Normal(e: Expr) {
    match e
    case BinaryOp(op, l, r) =>
      IsEqError(op) ||
      (Normal(l) && Normal(r) &&
       (IsArith(op) ==> !(l.IntValue? && r.IntValue?) && !(l.RealValue? && r.RealValue?)))
    case UnaryOp(op, x) => Normal(x) && (op == "-" ==> !IsLiteral(x))
    case Tuple(l, r) => Normal(l) && Normal(r)
    case Call(c, a) => Normal(c) && Normal(a)
    case Index(b, i) => Normal(b) && Normal(i)
    case _ => true
  }

  /** Every successful fold leaves nothing more to fold. */
  lemma {:induction false} FoldNormal(e: Expr, ops: RealOps)
    requires Fold(e, ops).Ok?
    ensures Normal(Fold(e, ops).value)
  {
    match e
    case BinaryOp(op, l, r) =>
      if !IsEqError(op) {
        FoldNormal(l, ops);
        FoldNormal(r, ops);
      }
    case UnaryOp(op, x) =>
      FoldNormal(x, ops);
    case Tuple(l, r) =>
      FoldNormal(l, ops);
      FoldNormal(r, ops);
    case Call(c, a) =>
      FoldNormal(c, ops);
      FoldNormal(a, ops);
    case Index(b, i) =>
      FoldNormal(b, ops);
      FoldNormal(i, ops);
    case _ =>
  }

  /** The pass leaves a tree with nothing to fold exactly as it is. */
  lemma {:induction false} NormalFixed(e: Expr, ops: RealOps)
    requires Normal(e)
    ensures Fold(e, ops) == Ok(e)
  {
    match e
    case BinaryOp(op, l, r) =>
      if !IsEqError(op) {
        NormalFixed(l, ops);
        NormalFixed(r, ops);
      }
    case UnaryOp(op, x) =>
      NormalFixed(x, ops);
    case Tuple(l, r) =>
      NormalFixed(l, ops);
      NormalFixed(r, ops);
    case Call(c, a) =>
      NormalFixed(c, ops);
      NormalFixed(a, ops);
    case Index(b, i) =>
      NormalFixed(b, ops);
      NormalFixed(i, ops);
    case _ =>
  }

  /** Folding twice is folding once. This is also why the second run that
      run(OpDiv) makes over its already folded operands changes nothing and
      cannot fail. */
  lemma FoldIdempotent(e: Expr, ops: RealOps)
    requires Fold(e, ops).Ok?
    ensures Fold(Fold(e, ops).value, ops) == Fold(e, ops)
  {
    FoldNormal(e, ops);
    NormalFixed(Fold(e, ops).value, ops);
  }

  // ---------------------------------------------------------------------
  // Folding keeps the value

  /** The integer value of an arithmetic tree over integer literals and
      named integers, with the divisions BigInteger makes; None when the tree
      holds anything else or divides by zero. */
  function Eval(e: Expr, env: string -> int): Option<int> {
    match e
    case IntValue(v) => Some(v)
    case NameValue(x) => Some(env(x))
    case BinaryOp(op, l, r) =>
      if !IsArith(op) then None
      else
        var a :- Eval(l, env);
        var b :- Eval(r, env);
        if op == "/" && b == 0 then None else Some(IntArith(op, a, b))
    case UnaryOp(op, x) =>
      if op != "-" then None
      else
        var a :- Eval(x, env);
        Some(-a)
    case _ => None
  }

  /** Folding an integer expression that has a value succeeds and keeps the
      value, whatever the names stand for. */
  lemma {:induction false} FoldKeepsValue(e: Expr, env: string -> int, ops: RealOps)
    requires Eval(e, env).Some?
    ensures Fold(e, ops).Ok?
    ensures Eval(Fold(e, ops).value, env) == Eval(e, env)
  {
    match e
    case BinaryOp(op, l, r) =>
      FoldKeepsValue(l, env, ops);
      FoldKeepsValue(r, env, ops);
    case UnaryOp(op, x) =>
      FoldKeepsValue(x, env, ops);
    case _ =>
  }

  /** An integer expression without names folds to the literal of its value. */
  lemma {:induction false} FoldClosed(e: Expr, env: string -> int, ops: RealOps)
    requires Eval(e, env).Some? && NoNames(e)
    ensures Fold(e, ops) == Ok(IntValue(Eval(e, env).value))
  {
    match e
    case BinaryOp(op, l, r) =>
      FoldClosed(l, env, ops);
      FoldClosed(r, env, ops);
    case UnaryOp(op, x) =>
      FoldClosed(x, env, ops);
    case _ =>
  }

  predicate NoNames(e: Expr) {
    match e
    case NameValue(_) => false
    case BinaryOp(_, l, r) => NoNames(l) && NoNames(r)
    case UnaryOp(_, x) => NoNames(x)
    case Tuple(l, r) => NoNames(l) && NoNames(r)
    case Call(c, a) => NoNames(c) && NoNames(a)
    case Index(b, i) => NoNames(b) && NoNames(i)
    case _ => true
  }

  /** A `=` is returned as it is, even when its operands would fail to fold. */
  lemma EqErrorUntouched(l: Expr, r: Expr, ops: RealOps)
    ensures Fold(BinaryOp("=", l, r), ops) == Ok(BinaryOp("=", l, r))
    ensures Fold(BinaryOp("=", IntValue(1), BinaryOp("/", IntValue(1), IntValue(0))), ops).Ok?
  {
  }

  /** The error is raised exactly where an integer literal is divided by a
      literal zero after folding. */
  lemma DivideByZeroLiterals(a: int, ops: RealOps)
    ensures Fold(BinaryOp("/", IntValue(a), IntValue(0)), ops) == Err(DivisionByZero)
  {
  }

  /** An operator with an operand that is not a literal keeps its kind, with
      its operands folded. */
  lemma NonLiteralKept(op: string, l: Expr, r: Expr, ops: RealOps)
    requires IsArith(op) && Fold(l, ops).Ok? && Fold(r, ops).Ok?
    requires !IsLiteral(Fold(l, ops).value)
    ensures Fold(BinaryOp(op, l, r), ops) == Ok(BinaryOp(op, Fold(l, ops).value, Fold(r, ops).value))
  {
  }

  /** A statement keeps its shape: the same number of children, each the
      fold of the child before, and the first failing child's error. */
  lemma {:induction false} FoldAllShape(ns: seq<Node>, ops: RealOps)
    ensures FoldAll(ns, ops).Ok? <==> forall i :: 0 <= i < |ns| ==> FoldNode(ns[i], ops).Ok?
    ensures FoldAll(ns, ops).Ok? ==>
              |FoldAll(ns, ops).value| == |ns| &&
              forall i :: 0 <= i < |ns| ==> FoldAll(ns, ops).value[i] == FoldNode(ns[i], ops).value
  {
    if ns != [] {
      FoldAllShape(ns[1..], ops);
      assert forall i :: 1 <= i < |ns| ==> ns[i] == ns[1..][i - 1];
      if FoldAll(ns, ops).Ok? {
        var v := FoldAll(ns, ops).value;
        assert v == [FoldNode(ns[0], ops).value] + FoldAll(ns[1..], ops).value;
        forall i | 0 <= i < |ns| ensures v[i] == FoldNode(ns[i], ops).value {
          if i > 0 { assert v[i] == FoldAll(ns[1..], ops).value[i - 1]; }
        }
      }
    }
  }
}
