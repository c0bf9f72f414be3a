/** The shunting-yard expression parser
    (src/java/me/pavlina/alco/parse/ExpressionParser.java). Values go to the
    output stack, operators through the operator stack by precedence and
    associativity; calls and indexing hold their callee or base on the
    operator stack, and opening brackets sit there as sentinels. */
module ExpressionParser {
  import opened Wrappers
  import opened Token
  import opened Ast
  import opened Text
  import TokenStream
  import Keywords
  import IntValue

  /** A parse error: CError.at with its message, Unexpected with what was
      expected, UnexpectedEOF after what, or the EmptyStackException that
      java.util.Stack throws when popping an empty stack. */
  datatype Failure = Error(msg: string) | Unexpected(expected: string) | UnexpectedEof(after: string) | EmptyStackException

  /** The sub-parsers the value constructors call, which read on from the
      stream: ArrayValue at the `{` (it calls this parser again for each
      item), TypeParser for the type after `new` and after `as`. Each
      returns what it read and the position after it. */
  datatype Readers = Readers(
    arrayValue: (seq<Token>, nat) -> Result<(Expr, nat), Failure>,
    typeName: (seq<Token>, nat) -> Result<(string, nat), Failure>,
    isDouble: string -> bool)

  /** Every sub-parser that succeeds has read at least one token and stays
      within the tokens, as their first stream.next() guarantees. */
  ghost predicate Advancing(rd: Readers) {
    (forall toks: seq<Token>, p: nat ::
       rd.arrayValue(toks, p).Ok? ==> p < rd.arrayValue(toks, p).value.1 <= |toks|) &&
    (forall toks: seq<Token>, p: nat ::
       rd.typeName(toks, p).Ok? ==> p < rd.typeName(toks, p).value.1 <= |toks|)
  }

  // ---------------------------------------------------------------------
  // Operators

  /** What the operator stack holds: the OpeningParen and OpeningSquare
      sentinels, OpCall and OpIndex with their callee or base, and the
      operators of the UNOPS and BINOPS tables by their text. */
  datatype Oper = Paren | Square | CallOp(callee: Expr) | IndexOp(base: Expr) | Prefix(op: string) | Infix(op: string)

  const Binops: set<string> := {
    ":=", "=", ",", "as", ".", "+", "-", "*", "/", "%", "%%", "&", "|", "^", "&&", "||",
    "+=", "-=", "*=", "/=", "%=", "%%=", "&=", "|=", "^=",
    "<", ">", "<=", ">=", "==", "!=", "===", "!==", "?", ":"}

  const Unops: set<string> := {"*", "&", "-", "!", "~", "++", "--"}

  const Assignments: set<string> := {":=", "+=", "-=", "*=", "/=", "%=", "%%=", "&=", "|=", "^="}

  /** The precedence of a binary operator (the constants of Precedence). */
  function InfixPrec(op: string): int {
    if op in Assignments then 20
    else if op == "," then 10
    else if op == "." then 140
    else if op == "as" then 125
    else if op in {"*", "/", "%", "%%"} then 120
    else if op in {"+", "-"} then 110
    else if op == "&" then 96
    else if op == "^" then 95
    else if op == "|" then 94
    else if op in {"<", ">", "<=", ">="} then 90
    else if op in {"=", "==", "!=", "===", "!=="} then 80
    else if op == "&&" then 40
    else if op == "||" then 30
    else 25
  }

  function Prec(o: Oper): int {
    match o
    case Paren => 0
    case Square => 0
    case CallOp(_) => 140
    case IndexOp(_) => 140
    case Prefix(_) => 130
    case Infix(op) => InfixPrec(op)
  }

  /** Left associativity: everything but the prefix operators, the
      assignments, `?` and `:`. */
  predicate IsLeft(o: Oper) {
    match o
    case Prefix(_) => false
    case Infix(op) => op !in Assignments && op != "?" && op != ":"
    case _ => true
  }

  predicate IsUnary(o: Oper) { !o.Infix? }

  predicate IsSentinel(o: Oper) { o.Paren? || o.Square? }

  /** shuntOper's test: the operator on top of the stack is moved to the
      output before `oper` is pushed. */
  predicate PopsOver(oper: Oper, top: Oper) {
    (IsLeft(oper) && Prec(oper) <= Prec(top)) || (!IsLeft(oper) && Prec(oper) < Prec(top))
  }

  /** The node a binary operator builds: OpComma a tuple, the others an
      operator node. */
  function MakeBinary(op: string, l: Expr, r: Expr): Expr {
    if op == "," then Tuple(l, r) else BinaryOp(op, l, r)
  }

  /** moveOper: the operator takes one or two operands off the output and
      goes there itself. A sentinel moved this way swallows its operand. */
  function Move(output: seq<Expr>, o: Oper): (r: Result<seq<Expr>, Failure>)
    ensures IsUnary(o) ==> (r.Ok? <==> |output| >= 1)
    ensures !IsUnary(o) ==> (r.Ok? <==> |output| >= 2)
    ensures r.Ok? ==> |r.value| == |output| - (if IsUnary(o) then 0 else 1)
    ensures r.Ok? ==> r.value[..|r.value| - 1] == output[..|output| - (if IsUnary(o) then 1 else 2)]
  {
    var n := |output|;
    if IsUnary(o) then
      if n == 0 then Err(Error("requires one operand"))
      else
        var x := output[n - 1];
        var node := match o
          case Paren => Sentinel(false)
          case Square => Sentinel(true)
          case CallOp(c) => Call(c, x)
          case IndexOp(b) => Index(b, x)
          case Prefix(op) => UnaryOp(op, x)
          case Infix(op) => x;
        Ok(output[..n - 1] + [node])
    else
      if n < 2 then Err(Error("requires two operands"))
      else Ok(output[..n - 2] + [MakeBinary(o.op, output[n - 2], output[n - 1])])
  }

  /** shuntOper: moves every operator off the top of the stack that binds at
      least as tightly (strictly more tightly, for a right-associative
      operator), then pushes the operator. The operator ends on top of the
      stack, and moving operators never lengthens the output. */
  function Shunt(stack: seq<Oper>, output: seq<Expr>, oper: Oper): (r: Result<(seq<Oper>, seq<Expr>), Failure>)
    ensures r.Ok? ==> |r.value.0| > 0 && r.value.0[|r.value.0| - 1] == oper
    ensures r.Ok? ==> |r.value.0| <= |stack| + 1 && |r.value.1| <= |output|
    decreases |stack|
  {
    if stack == [] || !PopsOver(oper, stack[|stack| - 1]) then Ok((stack + [oper], output))
    else
      var out :- Move(output, stack[|stack| - 1]);
      Shunt(stack[..|stack| - 1], out, oper)
  }

  /** How many operators at the bottom of the stack stay under `oper`. */
  function Kept(stack: seq<Oper>, oper: Oper): nat
    decreases |stack|
  {
    if stack == [] || !PopsOver(oper, stack[|stack| - 1]) then |stack|
    else Kept(stack[..|stack| - 1], oper)
  }

  /** The operator left on top of the kept ones does not bind as tightly
      as `oper`. */
  lemma {:induction false} KeptTop(stack: seq<Oper>, oper: Oper)
    ensures Kept(stack, oper) <= |stack|
    ensures Kept(stack, oper) > 0 ==> !PopsOver(oper, stack[Kept(stack, oper) - 1])
    decreases |stack|
  {
    if stack != [] && PopsOver(oper, stack[|stack| - 1]) {
      var init := stack[..|stack| - 1];
      KeptTop(init, oper);
      var k := Kept(init, oper);
      if k > 0 {
        assert stack[k - 1] == init[k - 1];
      }
    }
  }

  /** Every operator above the kept ones binds at least as tightly as
      `oper`. */
  lemma {:induction false} KeptAbove(stack: seq<Oper>, oper: Oper)
    ensures Kept(stack, oper) <= |stack|
    ensures forall i :: Kept(stack, oper) <= i < |stack| ==> PopsOver(oper, stack[i])
    decreases |stack|
  {
    if stack != [] && PopsOver(oper, stack[|stack| - 1]) {
      var init := stack[..|stack| - 1];
      KeptAbove(init, oper);
      forall i | Kept(init, oper) <= i < |init|
        ensures PopsOver(oper, stack[i])
      {
        assert stack[i] == init[i];
      }
    }
  }

  /** Shunting leaves the kept operators with `oper` on top of them. */
  lemma {:induction false} ShuntStack(stack: seq<Oper>, output: seq<Expr>, oper: Oper)
    requires Shunt(stack, output, oper).Ok?
    ensures Kept(stack, oper) <= |stack|
    ensures Shunt(stack, output, oper).value.0 == stack[..Kept(stack, oper)] + [oper]
    decreases |stack|
  {
    KeptTop(stack, oper);
    if stack != [] && PopsOver(oper, stack[|stack| - 1]) {
      var init := stack[..|stack| - 1];
      var out := Move(output, stack[|stack| - 1]).value;
      ShuntStack(init, out, oper);
      assert init[..Kept(init, oper)] == stack[..Kept(stack, oper)];
    } else {
      assert stack[..|stack|] == stack;
    }
  }

  /** No operator of the tables takes a bracket off the stack: every
      operator binds more tightly than the sentinels. */
  lemma SentinelsStay(stack: seq<Oper>, oper: Oper, i: int)
    requires oper.Prefix? || oper.Infix?
    requires 0 <= i < |stack| && IsSentinel(stack[i])
    ensures i < Kept(stack, oper)
  {
    KeptAbove(stack, oper);
  }

  /** emptyStack: every operator left goes to the output; a sentinel still
      there is an opening bracket never closed. Emptying never lengthens the
      output, and leaves an operand when there was one. */
  function EmptyAll(stack: seq<Oper>, output: seq<Expr>): (r: Result<seq<Expr>, Failure>)
    ensures r.Ok? ==> |r.value| <= |output| && (|output| > 0 ==> |r.value| > 0)
    decreases |stack|
  {
    if stack == [] then Ok(output)
    else
      var top := stack[|stack| - 1];
      if top.Paren? then Err(Error("mismatched parentheses"))
      else if top.Square? then Err(Error("mismatched brackets"))
      else
        var out :- Move(output, top);
        EmptyAll(stack[..|stack| - 1], out)
  }

  /** The loop of readCloseParen and readCloseSquare: operators are moved to
      the output until the sentinel sought is popped; the flag says whether
      it was found. */
  function PopTo(stack: seq<Oper>, output: seq<Expr>, square: bool): (r: Result<(seq<Oper>, seq<Expr>, bool), Failure>)
    ensures r.Ok? ==> r.value.0 <= stack
    decreases |stack|
  {
    if stack == [] then Ok(([], output, false))
    else
      var top := stack[|stack| - 1];
      if (if square then top.Square? else top.Paren?) then Ok((stack[..|stack| - 1], output, true))
      else
        var out :- Move(output, top);
        PopTo(stack[..|stack| - 1], out, square)
  }

  // ---------------------------------------------------------------------
  // Reading one item

  /** The parser's state: both stacks, the bracket depth, the two flags and
      the stream's position. */
  datatype Machine = Machine(
    stack: seq<Oper>, output: seq<Expr>, nest: int,
    callPossible: bool, unaryPossible: bool, pos: nat)

  /** The outcome of one of the read methods: the token is not its kind,
      it was handled, or an error was thrown. */
  datatype Outcome = NotMine | Done(m: Machine) | Failed(f: Failure)

  predicate IsOper(t: Token, v: string) { t.kind == Oper && t.value == v }

  /** A value pushed to the output, with the flags it leaves. */
  function PushValue(m: Machine, e: Expr, callPossible: bool, pos: nat): Machine {
    Machine(m.stack, m.output + [e], m.nest, callPossible, false, pos)
  }

  /** readValue. */
  function ValueStep(m: Machine, lexer: seq<Token>, rd: Readers): (o: Outcome)
    requires m.pos <= |lexer| && Advancing(rd)
    ensures Progress(m, lexer, o)
  {
    var t := TokenStream.TokenAt(lexer, m.pos);
    var p1 := TokenStream.Advance(lexer, m.pos);
    if t.kind == Int then
      match IntValue.ParseLiteral(t.value)
      case Ok(v) => Done(PushValue(m, IntValue(v), false, p1))
      case Err(e) => Failed(Error(e))
    else if t.kind == Real then
      if rd.isDouble(t.value) then Done(PushValue(m, RealValue(t.value), false, p1))
      else Failed(Error("invalid double"))
    else if IsOper(t, "{") then
      match rd.arrayValue(lexer, m.pos)
      case Ok((e, p)) => Done(PushValue(m, e, false, p))
      case Err(f) => Failed(f)
    else if t.kind == Word && (t.value == "true" || t.value == "false") then
      Done(PushValue(m, BoolValue(t.value == "true"), false, p1))
    else if t.kind == Word && t.value == "null" then
      Done(PushValue(m, NullValue, false, p1))
    else if t.kind == Word && t.value == "new" then
      match rd.typeName(lexer, p1)
      case Ok((n, p)) => Done(PushValue(m, NewValue(n), true, p))
      case Err(f) => Failed(f)
    else if t.kind == Extra && t.value == "$$name" then
      var t2 := TokenStream.TokenAt(lexer, p1);
      if t2.kind == NoMore then Failed(UnexpectedEof("name"))
      else Done(PushValue(m, NameValue(t2.value), true, TokenStream.Advance(lexer, p1)))
    else if t.kind == Word && !Keywords.IsKeyword(t.value) then
      if Keywords.IsKeywordWith(t.value, true) || StartsWith(t.value, "@") then Failed(Unexpected("name"))
      else Done(PushValue(m, NameValue(t.value), true, p1))
    else NotMine
  }

  /** readOpenParen: after something callable the parenthesis opens a call
      (the callee moves from the output into an OpCall, and an empty
      argument tuple is pushed when `)` follows at once); otherwise it only
      groups. */
  function OpenParenStep(m: Machine, lexer: seq<Token>): (o: Outcome)
    requires m.pos <= |lexer|
    ensures Progress(m, lexer, o)
  {
    var t := TokenStream.TokenAt(lexer, m.pos);
    var p1 := TokenStream.Advance(lexer, m.pos);
    if !IsOper(t, "(") then NotMine
    else if m.callPossible then
      if m.output == [] then Failed(EmptyStackException)
      else
        var n := |m.output|;
        var rest := m.output[..n - 1];
        var out := if IsOper(TokenStream.TokenAt(lexer, p1), ")") then rest + [EmptyTuple] else rest;
        Done(Machine(m.stack + [CallOp(m.output[n - 1]), Paren], out, m.nest + 1, false, true, p1))
    else Done(Machine(m.stack + [Paren], m.output, m.nest + 1, false, true, p1))
  }

  /** readOpenSquare: indexing needs something indexable before it; the
      base moves from the output into an OpIndex. */
  function OpenSquareStep(m: Machine, lexer: seq<Token>): (o: Outcome)
    requires m.pos <= |lexer|
    ensures Progress(m, lexer, o)
  {
    var t := TokenStream.TokenAt(lexer, m.pos);
    var p1 := TokenStream.Advance(lexer, m.pos);
    if !IsOper(t, "[") then NotMine
    else if !m.callPossible then Failed(Unexpected("indexable before ["))
    else if m.output == [] then Failed(EmptyStackException)
    else
      var n := |m.output|;
      Done(Machine(m.stack + [IndexOp(m.output[n - 1]), Square], m.output[..n - 1], m.nest + 1, false, true, p1))
  }

  /** What readCloseParen and readCloseSquare do once the loop has popped
      the stack down to the opening bracket (`st`, `out`, `found`): a
      missing bracket is an error; for `]` the stack must still hold the
      OpIndex, which `peek` reads; the call or index the bracket belongs to
      goes to the output. Were something other than an OpIndex under a `[`,
      the Java assertion would be the only check, and assertions are off by
      default: the model goes on. */
  function CloseTail(st: seq<Oper>, out: seq<Expr>, found: bool, nest: int, p1: nat, square: bool): Outcome {
    if !found then Failed(Error(if square then "mismatched brackets" else "mismatched parentheses"))
    else if square && st == [] then Failed(EmptyStackException)
    else if st != [] && (if square then st[|st| - 1].IndexOp? else st[|st| - 1].CallOp?) then
      match Move(out, st[|st| - 1])
      case Err(f) => Failed(f)
      case Ok(out2) => Done(Machine(st[..|st| - 1], out2, nest - 1, true, false, p1))
    else Done(Machine(st, out, nest - 1, true, false, p1))
  }

  /** readCloseParen and readCloseSquare: operators up to the matching
      opening bracket go to the output, then the call or index it opened. */
  function CloseStep(m: Machine, lexer: seq<Token>, square: bool): (o: Outcome)
    requires m.pos <= |lexer|
    ensures Progress(m, lexer, o)
  {
    var t := TokenStream.TokenAt(lexer, m.pos);
    if !IsOper(t, if square then "]" else ")") then NotMine
    else match PopTo(m.stack, m.output, square)
      case Err(f) => Failed(f)
      case Ok((st, out, found)) => CloseTail(st, out, found, m.nest, TokenStream.Advance(lexer, m.pos), square)
  }

  function CloseParenStep(m: Machine, lexer: seq<Token>): (o: Outcome)
    requires m.pos <= |lexer|
    ensures Progress(m, lexer, o)
  {
    CloseStep(m, lexer, false)
  }

  function CloseSquareStep(m: Machine, lexer: seq<Token>): (o: Outcome)
    requires m.pos <= |lexer|
    ensures Progress(m, lexer, o)
  {
    CloseStep(m, lexer, true)
  }

  /** readOperator: an operator token or keyword is looked up among the
      unary operators where a unary one may stand and among the binary ones
      elsewhere, then shunted; `as` reads its type at once. */
  /** The lookup in UNOPS where a unary operator may stand, in BINOPS
      elsewhere. */
  function Lookup(unary: bool, text: string): (r: Option<Oper>)
    ensures r.Some? <==> text in (if unary then Unops else Binops)
    ensures r.Some? ==> r.value == (if unary then Prefix(text) else Infix(text))
  {
    if unary then (if text in Unops then Some(Prefix(text)) else None)
    else if text in Binops then Some(Infix(text)) else None
  }

  function OperatorStep(m: Machine, lexer: seq<Token>, rd: Readers): (o: Outcome)
    requires m.pos <= |lexer| && Advancing(rd)
    ensures Progress(m, lexer, o)
  {
    var t := TokenStream.TokenAt(lexer, m.pos);
    var p1 := TokenStream.Advance(lexer, m.pos);
    if !(t.kind == Oper || (t.kind == Word && Keywords.IsKeyword(t.value))) then NotMine
    else match Lookup(m.unaryPossible, t.value)
      case None => Failed(Unexpected(if m.unaryPossible then "unary operator" else "binary operator"))
      case Some(oper) =>
        match Shunt(m.stack, m.output, oper)
        case Err(f) => Failed(f)
        case Ok((st, out)) =>
          if oper == Infix("as") then
            match rd.typeName(lexer, p1)
            case Ok((n, p)) => Done(Machine(st, out + [TypeValue(n)], m.nest, true, false, p))
            case Err(f) => Failed(f)
          else Done(Machine(st, out, m.nest, false, true, p1))
  }

  /** Whether the token ends the expression: a one-character operator in
      the end markers, outside every bracket. */
  predicate AtEnd(t: Token, nest: int, end: string) {
    t.kind == Oper && |t.value| == 1 && nest == 0 && t.value[0] in end
  }

  /** A handled item moves the stream on, and not past its end. */
  predicate Progress(m: Machine, lexer: seq<Token>, o: Outcome) {
    o.Done? ==> m.pos < o.m.pos <= |lexer|
  }

  /** The read methods of readOne in their order: the outcome of the first
      that handles the token. */
  function Dispatch(m: Machine, lexer: seq<Token>, rd: Readers): (o: Outcome)
    requires m.pos <= |lexer| && Advancing(rd)
    ensures Progress(m, lexer, o)
  {
    var v := ValueStep(m, lexer, rd);
    if !v.NotMine? then v else
    var op := OpenParenStep(m, lexer);
    if !op.NotMine? then op else
    var cp := CloseParenStep(m, lexer);
    if !cp.NotMine? then cp else
    var os := OpenSquareStep(m, lexer);
    if !os.NotMine? then os else
    var cs := CloseSquareStep(m, lexer);
    if !cs.NotMine? then cs else
    OperatorStep(m, lexer, rd)
  }

  /** readOne: Ok(None) where the expression stops, Ok(Some(m)) after an
      item was read. */
  function ReadStep(m: Machine, lexer: seq<Token>, end: string, rd: Readers): (r: Result<Option<Machine>, Failure>)
    requires m.pos <= |lexer| && Advancing(rd)
    ensures r.Ok? && r.value.Some? ==> m.pos < r.value.value.pos <= |lexer|
  {
    var t := TokenStream.TokenAt(lexer, m.pos);
    if t.kind == NoMore || AtEnd(t, m.nest, end) then Ok(None)
    else
      match Dispatch(m, lexer, rd)
      case NotMine => Err(Error("invalid in expression"))
      case Failed(f) => Err(f)
      case Done(m1) => Ok(Some(m1))
  }

  /** parse: read items until the expression stops, empty the operator
      stack; nothing is None, more than one tree a split expression. The
      position reached comes with the result; it is never behind the start
      nor past the tokens. */
  function Run(m: Machine, lexer: seq<Token>, end: string, rd: Readers): (r: Result<(Option<Expr>, nat), Failure>)
    requires m.pos <= |lexer| && Advancing(rd)
    ensures r.Ok? ==> m.pos <= r.value.1 <= |lexer|
    decreases |lexer| - m.pos
  {
    match ReadStep(m, lexer, end, rd)
    case Err(f) => Err(f)
    case Ok(Some(m1)) => Run(m1, lexer, end, rd)
    case Ok(None) => Conclude(m, lexer)
  }

  /** The end of parse: the stream stays where reading stopped, and an
      expression comes back only when emptying the stack leaves exactly that
      one tree. */
  function Conclude(m: Machine, lexer: seq<Token>): (r: Result<(Option<Expr>, nat), Failure>)
    ensures r.Ok? ==> r.value.1 == m.pos && EmptyAll(m.stack, m.output).Ok?
    ensures r.Ok? ==> (r.value.0.None? <==> EmptyAll(m.stack, m.output).value == [])
    ensures r.Ok? && r.value.0.Some? ==> EmptyAll(m.stack, m.output).value == [r.value.0.value]
  {
    var out :- EmptyAll(m.stack, m.output);
    if out == [] then Ok((None, m.pos))
    else if |out| > 1 then Err(Error("split expression"))
    else Ok((Some(out[0]), m.pos))
  }

  /** The state of a fresh parser at the stream's position. */
  function Start(pos: nat): Machine {
    Machine([], [], 0, false, true, pos)
  }

  /** ExpressionParser.parse(env, stream, method, end) from a position. */
  function ParseFrom(lexer: seq<Token>, pos: nat, end: string, rd: Readers): (r: Result<(Option<Expr>, nat), Failure>)
    requires pos <= |lexer| && Advancing(rd)
    ensures r.Ok? ==> pos <= r.value.1 <= |lexer|
  {
    Run(Start(pos), lexer, end, rd)
  }

  /** Whether the outcome is what a read method did: nothing for NotMine,
      the new state for Done, the error for Failed. */
  predicate Reflects(o: Outcome, found: bool, err: Option<Failure>, before: Machine, after: Machine) {
    (o.NotMine? ==> !found && err.None? && after == before) &&
    (o.Done? ==> found && err.None? && after == o.m) &&
    (o.Failed? ==> err == Some(o.f))
  }

  // ---------------------------------------------------------------------
  // The parser as an object

  class ExpressionParser {
    var stack: seq<Oper>
    var output: seq<Expr>
    var nest: int
    var callPossible: bool
    var unaryPossible: bool
    const stream: TokenStream.TokenStream
    const end: string
    const readers: Readers

    function State(): Machine
      reads this, stream
    {
      Machine(stack, output, nest, callPossible, unaryPossible, stream.pos)
    }

    constructor (stream: TokenStream.TokenStream, end: string, readers: Readers)
      ensures this.stream == stream && this.end == end && this.readers == readers
      ensures State() == Start(stream.pos)
    {
      this.stream := stream;
      this.end := end;
      this.readers := readers;
      stack := [];
      output := [];
      nest := 0;
      callPossible := false;
      unaryPossible := true;
    }

    /** Sets the stream's position to where a sub-parser stopped. */
    method Seek(p: nat)
      requires p <= |stream.lexer|
      modifies stream
      ensures stream.pos == p && stream.lexer == old(stream.lexer)
    {
      stream.pos := p;
    }

    method MoveOper(o: Oper) returns (err: Option<Failure>)
      modifies this
      ensures var r := Move(old(output), o);
              (r.Ok? ==> err.None? && output == r.value) && (r.Err? ==> err == Some(r.error))
      ensures stack == old(stack) && nest == old(nest)
      ensures callPossible == old(callPossible) && unaryPossible == old(unaryPossible)
    {
      var n := |output|;
      if IsUnary(o) {
        if n == 0 {
          return Some(Error("requires one operand"));
        }
        var x := output[n - 1];
        var node := match o
          case Paren => Sentinel(false)
          case Square => Sentinel(true)
          case CallOp(c) => Call(c, x)
          case IndexOp(b) => Index(b, x)
          case Prefix(op) => UnaryOp(op, x)
          case Infix(op) => x;
        output := output[..n - 1] + [node];
      } else {
        if n == 0 {
          return Some(Error("requires two operands"));
        }
        var right := output[n - 1];
        if n == 1 {
          return Some(Error("requires two operands"));
        }
        var left := output[n - 2];
        output := output[..n - 2] + [MakeBinary(o.op, left, right)];
      }
      err := None;
    }

    method ShuntOper(oper: Oper) returns (err: Option<Failure>)
      modifies this
      ensures var r := Shunt(old(stack), old(output), oper);
              (r.Ok? ==> err.None? && stack == r.value.0 && output == r.value.1) &&
              (r.Err? ==> err == Some(r.error))
      ensures nest == old(nest) && callPossible == old(callPossible) && unaryPossible == old(unaryPossible)
    {
      while stack != []
        invariant Shunt(stack, output, oper) == Shunt(old(stack), old(output), oper)
        invariant nest == old(nest) && callPossible == old(callPossible) && unaryPossible == old(unaryPossible)
        decreases |stack|
      {
        var top := stack[|stack| - 1];
        if PopsOver(oper, top) {
          stack := stack[..|stack| - 1];
          err := MoveOper(top);
          if err.Some? {
            return;
          }
        } else {
          break;
        }
      }
      stack := stack + [oper];
      err := None;
    }

    method EmptyStack() returns (err: Option<Failure>)
      modifies this
      ensures var r := EmptyAll(old(stack), old(output));
              (r.Ok? ==> err.None? && output == r.value) && (r.Err? ==> err == Some(r.error))
      ensures nest == old(nest) && callPossible == old(callPossible) && unaryPossible == old(unaryPossible)
    {
      while stack != []
        invariant EmptyAll(stack, output) == EmptyAll(old(stack), old(output))
        invariant nest == old(nest) && callPossible == old(callPossible) && unaryPossible == old(unaryPossible)
        decreases |stack|
      {
        var top := stack[|stack| - 1];
        stack := stack[..|stack| - 1];
        if top.Paren? {
          return Some(Error("mismatched parentheses"));
        } else if top.Square? {
          return Some(Error("mismatched brackets"));
        }
        err := MoveOper(top);
        if err.Some? {
          return;
        }
      }
      err := None;
    }

    /** The loop shared by readCloseParen and readCloseSquare. */
    method PopToOpening(square: bool) returns (found: bool, err: Option<Failure>)
      modifies this
      ensures var r := PopTo(old(stack), old(output), square);
              (r.Ok? ==> err.None? && stack == r.value.0 && output == r.value.1 && found == r.value.2) &&
              (r.Err? ==> err == Some(r.error))
      ensures nest == old(nest) && callPossible == old(callPossible) && unaryPossible == old(unaryPossible)
    {
      found := false;
      while stack != []
        invariant PopTo(stack, output, square) == PopTo(old(stack), old(output), square)
        invariant nest == old(nest) && callPossible == old(callPossible) && unaryPossible == old(unaryPossible)
        decreases |stack|
      {
        var top := stack[|stack| - 1];
        stack := stack[..|stack| - 1];
        if (if square then top.Square? else top.Paren?) {
          found := true;
          return found, None;
        }
        err := MoveOper(top);
        if err.Some? {
          return;
        }
      }
      err := None;
    }

    method ReadValue() returns (found: bool, err: Option<Failure>)
      requires stream.Valid() && Advancing(readers)
      modifies this, stream
      ensures stream.Valid() && stream.lexer == old(stream.lexer)
      ensures Reflects(ValueStep(old(State()), stream.lexer, readers), found, err, old(State()), State())
    {
      var t := stream.Peek();
      found := true;
      err := None;
      if t.kind == Int {
        t := stream.Next();
        var v := IntValue.ParseLiteral(t.value);
        if v.Err? {
          return found, Some(Error(v.error));
        }
        output := output + [IntValue(v.value)];
        callPossible, unaryPossible := false, false;
      } else if t.kind == Real {
        t := stream.Next();
        if !readers.isDouble(t.value) {
          return found, Some(Error("invalid double"));
        }
        output := output + [RealValue(t.value)];
        callPossible, unaryPossible := false, false;
      } else if IsOper(t, "{") {
        var a := readers.arrayValue(stream.lexer, stream.pos);
        if a.Err? {
          return found, Some(a.error);
        }
        Seek(a.value.1);
        output := output + [a.value.0];
        callPossible, unaryPossible := false, false;
      } else if t.kind == Word && (t.value == "true" || t.value == "false") {
        t := stream.Next();
        output := output + [BoolValue(t.value == "true")];
        callPossible, unaryPossible := false, false;
      } else if t.kind == Word && t.value == "null" {
        t := stream.Next();
        output := output + [NullValue];
        callPossible, unaryPossible := false, false;
      } else if t.kind == Word && t.value == "new" {
        t := stream.Next();
        var ty := readers.typeName(stream.lexer, stream.pos);
        if ty.Err? {
          return found, Some(ty.error);
        }
        Seek(ty.value.1);
        output := output + [NewValue(ty.value.0)];
        callPossible, unaryPossible := true, false;
      } else if t.kind == Extra && t.value == "$$name" {
        t := stream.Next();
        var t2 := stream.Next();
        if t2.kind == NoMore {
          return found, Some(UnexpectedEof("name"));
        }
        output := output + [NameValue(t2.value)];
        callPossible, unaryPossible := true, false;
      } else if t.kind == Word && !Keywords.IsKeyword(t.value) {
        t := stream.Next();
        if Keywords.IsKeywordWith(t.value, true) || StartsWith(t.value, "@") {
          return found, Some(Unexpected("name"));
        }
        output := output + [NameValue(t.value)];
        callPossible, unaryPossible := true, false;
      } else {
        found := false;
      }
    }

    method ReadOpenParen() returns (found: bool, err: Option<Failure>)
      requires stream.Valid()
      modifies this, stream
      ensures stream.Valid() && stream.lexer == old(stream.lexer)
      ensures Reflects(OpenParenStep(old(State()), stream.lexer), found, err, old(State()), State())
    {
      var t := stream.Peek();
      if !IsOper(t, "(") {
        return false, None;
      }
      if callPossible {
        if output == [] {
          return true, Some(EmptyStackException);
        }
        var expr := output[|output| - 1];
        output := output[..|output| - 1];
        stack := stack + [CallOp(expr), Paren];
        t := stream.Next();
        var peek := stream.Peek();
        if IsOper(peek, ")") {
          output := output + [EmptyTuple];
        }
      } else {
        stack := stack + [Paren];
        t := stream.Next();
      }
      nest := nest + 1;
      callPossible := false;
      unaryPossible := true;
      return true, None;
    }

    /** The end of readCloseParen and readCloseSquare, after the loop. */
    method CloseBracket(foundOpen: bool, square: bool) returns (err: Option<Failure>)
      requires stream.Valid()
      modifies this, stream
      ensures stream.Valid() && stream.lexer == old(stream.lexer)
      ensures var o := CloseTail(old(stack), old(output), foundOpen, old(nest),
                                 TokenStream.Advance(stream.lexer, old(stream.pos)), square);
              (o.Done? ==> err.None? && State() == o.m) && (o.Failed? ==> err == Some(o.f))
    {
      if !foundOpen {
        return Some(Error(if square then "mismatched brackets" else "mismatched parentheses"));
      }
      if square && stack == [] {
        return Some(EmptyStackException);
      }
      if stack != [] && (if square then stack[|stack| - 1].IndexOp? else stack[|stack| - 1].CallOp?) {
        var top := stack[|stack| - 1];
        stack := stack[..|stack| - 1];
        err := MoveOper(top);
        if err.Some? {
          return;
        }
      }
      nest := nest - 1;
      callPossible := true;
      unaryPossible := false;
      var t := stream.Next();
      err := None;
    }

    method ReadCloseParen() returns (found: bool, err: Option<Failure>)
      requires stream.Valid()
      modifies this, stream
      ensures stream.Valid() && stream.lexer == old(stream.lexer)
      ensures Reflects(CloseParenStep(old(State()), stream.lexer), found, err, old(State()), State())
    {
      var t := stream.Peek();
      if !IsOper(t, ")") {
        return false, None;
      }
      found := true;
      var foundOpen;
      foundOpen, err := PopToOpening(false);
      if err.Some? {
        return;
      }
      err := CloseBracket(foundOpen, false);
    }

    method ReadOpenSquare() returns (found: bool, err: Option<Failure>)
      requires stream.Valid()
      modifies this, stream
      ensures stream.Valid() && stream.lexer == old(stream.lexer)
      ensures Reflects(OpenSquareStep(old(State()), stream.lexer), found, err, old(State()), State())
    {
      var t := stream.Peek();
      if !IsOper(t, "[") {
        return false, None;
      }
      if !callPossible {
        return true, Some(Unexpected("indexable before ["));
      }
      if output == [] {
        return true, Some(EmptyStackException);
      }
      var expr := output[|output| - 1];
      output := output[..|output| - 1];
      stack := stack + [IndexOp(expr), Square];
      callPossible := false;
      unaryPossible := true;
      t := stream.Next();
      nest := nest + 1;
      return true, None;
    }

    method ReadCloseSquare() returns (found: bool, err: Option<Failure>)
      requires stream.Valid()
      modifies this, stream
      ensures stream.Valid() && stream.lexer == old(stream.lexer)
      ensures Reflects(CloseSquareStep(old(State()), stream.lexer), found, err, old(State()), State())
    {
      var t := stream.Peek();
      if !IsOper(t, "]") {
        return false, None;
      }
      found := true;
      var foundOpen;
      foundOpen, err := PopToOpening(true);
      if err.Some? {
        return;
      }
      err := CloseBracket(foundOpen, true);
    }

    method ReadOperator() returns (found: bool, err: Option<Failure>)
      requires stream.Valid() && Advancing(readers)
      modifies this, stream
      ensures stream.Valid() && stream.lexer == old(stream.lexer)
      ensures Reflects(OperatorStep(old(State()), stream.lexer, readers), found, err, old(State()), State())
    {
      ghost var m := State();
      var t := stream.Peek();
      if !(t.kind == Oper || (t.kind == Word && Keywords.IsKeyword(t.value))) {
        return false, None;
      }
      found := true;
      var message := if unaryPossible then "unary operator" else "binary operator";
      var lookup := Lookup(unaryPossible, t.value);
      callPossible := false;
      unaryPossible := true;
      if lookup.None? {
        return found, Some(Unexpected(message));
      }
      var oper := lookup.value;
      t := stream.Next();
      ghost var p1 := stream.pos;
      err := ShuntOper(oper);
      ghost var shunted := Shunt(m.stack, m.output, oper);
      if err.Some? {
        assert OperatorStep(m, stream.lexer, readers) == Failed(shunted.error);
        return;
      }
      assert shunted == Ok((stack, output));
      if oper == Infix("as") {
        var ty := readers.typeName(stream.lexer, stream.pos);
        if ty.Err? {
          assert OperatorStep(m, stream.lexer, readers) == Failed(ty.error);
          return found, Some(ty.error);
        }
        Seek(ty.value.1);
        output := output + [TypeValue(ty.value.0)];
        callPossible := true;
        unaryPossible := false;
        assert OperatorStep(m, stream.lexer, readers) == Done(State());
      } else {
        assert OperatorStep(m, stream.lexer, readers) == Done(Machine(stack, output, m.nest, false, true, p1));
      }
    }

    method ReadOne() returns (more: bool, err: Option<Failure>)
      requires stream.Valid() && Advancing(readers)
      modifies this, stream
      ensures stream.Valid() && stream.lexer == old(stream.lexer)
      ensures var r := ReadStep(old(State()), stream.lexer, end, readers);
              (r.Ok? && r.value.None? ==> !more && err.None? && State() == old(State())) &&
              (r.Ok? && r.value.Some? ==> more && err.None? && State() == r.value.value) &&
              (r.Err? ==> err == Some(r.error))
    {
      var token := stream.Peek();
      if token.kind == NoMore {
        return false, None;
      }
      if token.kind == Oper && |token.value| == 1 && nest == 0 && token.value[0] in end {
        return false, None;
      }
      ghost var m := State();
      ghost var lexer := stream.lexer;
      var found;
      found, err := ReadValue();
      if found || err.Some? { return found, err; }
      found, err := ReadOpenParen();
      if found || err.Some? { return found, err; }
      found, err := ReadCloseParen();
      if found || err.Some? { return found, err; }
      found, err := ReadOpenSquare();
      if found || err.Some? { return found, err; }
      found, err := ReadCloseSquare();
      if found || err.Some? { return found, err; }
      found, err := ReadOperator();
      if found || err.Some? { return found, err; }
      return false, Some(Error("invalid in expression"));
    }

    /** parse: the expression the tokens from the stream's position form,
        or None where there is none. */
    method Parse() returns (r: Result<Option<Expr>, Failure>)
      requires stream.Valid() && Advancing(readers)
      modifies this, stream
      ensures stream.lexer == old(stream.lexer)
      ensures var spec := Run(old(State()), stream.lexer, end, readers);
              (spec.Ok? ==> r == Ok(spec.value.0) && stream.pos == spec.value.1) &&
              (spec.Err? ==> r == Err(spec.error))
    {
      while true
        invariant stream.Valid() && stream.lexer == old(stream.lexer)
        invariant Run(State(), stream.lexer, end, readers) == Run(old(State()), stream.lexer, end, readers)
        decreases |stream.lexer| - stream.pos
      {
        var more, err := ReadOne();
        if err.Some? {
          return Err(err.value);
        }
        if !more {
          break;
        }
      }
      var err := EmptyStack();
      if err.Some? {
        return Err(err.value);
      }
      if output == [] {
        return Ok(None);
      }
      if |output| > 1 {
        return Err(Error("split expression"));
      }
      r := Ok(Some(output[0]));
    }
  }
}

module ExpressionParserFacts {
  import opened Wrappers
  import opened Token
  import opened Ast
  import opened Text
  import opened ExpressionParser
  import TokenStream
  import Keywords

  function NameToken(x: string): Token { Token(Word, x) }
  function OperToken(x: string): Token { Token(Oper, x) }

  /** A word the parser reads as a variable name. */
  predicate PlainName(x: string) {
    !Keywords.IsKeywordWith(x, true) && !StartsWith(x, "@") && x != "true" && x != "false" && x != "new"
  }

  /** A binary operator written as an operator token, other than `as`
      (a keyword, and followed by a type). */
  predicate PlainBinop(op: string) {
    op in Binops && op != "as"
  }

  /** The parse stops at the end of the tokens or at an end marker, never
      before where it started; EndMarkerOutsideOnly says that an end marker
      stops it only outside every bracket. */
  lemma {:induction false} RunStops(m: Machine, lexer: seq<Token>, end: string, rd: Readers)
    requires m.pos <= |lexer| && Advancing(rd)
    requires Run(m, lexer, end, rd).Ok?
    ensures var p := Run(m, lexer, end, rd).value.1;
            m.pos <= p <= |lexer| &&
            (TokenStream.TokenAt(lexer, p).kind == NoMore ||
             (TokenStream.TokenAt(lexer, p).kind == Oper && |TokenStream.TokenAt(lexer, p).value| == 1 &&
              TokenStream.TokenAt(lexer, p).value[0] in end))
    decreases |lexer| - m.pos
  {
    match ReadStep(m, lexer, end, rd)
    case Ok(Some(m1)) =>
      RunStops(m1, lexer, end, rd);
    case Ok(None) =>
    case Err(_) =>
  }

  /** readOne stops the expression exactly at the end of the tokens and at
      an end marker met outside every bracket; an end marker inside a
      bracket is read like any other operator. */
  lemma EndMarkerOutsideOnly(m: Machine, lexer: seq<Token>, end: string, rd: Readers)
    requires m.pos <= |lexer| && Advancing(rd)
    ensures var t := TokenStream.TokenAt(lexer, m.pos);
            ReadStep(m, lexer, end, rd) == Ok(None) <==>
              t.kind == NoMore || (t.kind == Oper && |t.value| == 1 && t.value[0] in end && m.nest == 0)
  {
  }

  /** With no tokens there is no expression. */
  lemma EmptyInput(end: string, rd: Readers)
    requires Advancing(rd)
    ensures ParseFrom([], 0, end, rd) == Ok((None, 0))
  {
  }

  /** An end marker where the expression would start ends it at once: there
      is no expression and nothing is read. */
  lemma EndMarkerFirst(lexer: seq<Token>, pos: nat, end: string, rd: Readers)
    requires pos < |lexer| && Advancing(rd)
    requires lexer[pos].kind == Oper && |lexer[pos].value| == 1 && lexer[pos].value[0] in end
    ensures ParseFrom(lexer, pos, end, rd) == Ok((None, pos))
  {
  }

  /** readValue reads a plain name as a variable; a call or an index may
      follow it, a unary operator may not. */
  lemma NameValueStep(m: Machine, lexer: seq<Token>, rd: Readers, x: string)
    requires m.pos < |lexer| && lexer[m.pos] == NameToken(x) && PlainName(x) && Advancing(rd)
    ensures ValueStep(m, lexer, rd) == Done(Machine(m.stack, m.output + [NameValue(x)], m.nest, true, false, m.pos + 1))
  {
    Keywords.NarrowImpliesWide(x);
    assert Keywords.KeywordList[8] == "null";
    var t := TokenStream.TokenAt(lexer, m.pos);
    assert t.value == x && x != "null";
    assert !(Keywords.IsKeywordWith(t.value, true) || StartsWith(t.value, "@"));
  }

  /** readOne hands a plain name to readValue. */
  lemma NameStep(m: Machine, lexer: seq<Token>, end: string, rd: Readers, x: string)
    requires m.pos < |lexer| && lexer[m.pos] == NameToken(x) && PlainName(x) && Advancing(rd)
    ensures ReadStep(m, lexer, end, rd) == Ok(Some(Machine(m.stack, m.output + [NameValue(x)], m.nest, true, false, m.pos + 1)))
  {
    NameValueStep(m, lexer, rd, x);
  }

  /** A binary operator after an operand is shunted; an operand must follow
      it. */
  lemma BinopStep(m: Machine, lexer: seq<Token>, end: string, rd: Readers, op: string)
    requires m.pos < |lexer| && lexer[m.pos] == OperToken(op) && PlainBinop(op) && Advancing(rd)
    requires !m.unaryPossible && !AtEnd(lexer[m.pos], m.nest, end)
    requires Shunt(m.stack, m.output, Infix(op)).Ok?
    ensures var (st, out) := Shunt(m.stack, m.output, Infix(op)).value;
            ReadStep(m, lexer, end, rd) == Ok(Some(Machine(st, out, m.nest, false, true, m.pos + 1)))
  {
    var t := lexer[m.pos];
    assert ValueStep(m, lexer, rd) == NotMine;
    assert OpenParenStep(m, lexer) == NotMine;
    assert CloseParenStep(m, lexer) == NotMine;
    assert OpenSquareStep(m, lexer) == NotMine;
    assert CloseSquareStep(m, lexer) == NotMine;
  }

  /** For `x op1 y op2 z`: with `op1` on the stack over `x` and `y`, `op2`
      shunted, `z` read and the stack emptied, the first operator takes `y`
      exactly when the second does not bind more tightly (or as tightly,
      being right-associative); otherwise the second takes it. */
  lemma TwoOperators(x: Expr, op1: string, y: Expr, op2: string, z: Expr)
    ensures Shunt([Infix(op1)], [x, y], Infix(op2)).Ok?
    ensures var (st, out) := Shunt([Infix(op1)], [x, y], Infix(op2)).value;
            EmptyAll(st, out + [z]) ==
            Ok([if PopsOver(Infix(op2), Infix(op1)) then MakeBinary(op2, MakeBinary(op1, x, y), z)
                else MakeBinary(op1, x, MakeBinary(op2, y, z))])
  {
    var xy := MakeBinary(op1, x, y);
    if PopsOver(Infix(op2), Infix(op1)) {
      FirstOperatorPopped(x, op1, y, op2, z);
      assert [xy] + [z] == [xy, z];
    } else {
      FirstOperatorKept(x, op1, y, op2, z);
      assert [x, y] + [z] == [x, y, z];
    }
  }

  /** TwoOperators when the second operator pops the first: `op1` takes `x`
      and `y` first. */
  lemma FirstOperatorPopped(x: Expr, op1: string, y: Expr, op2: string, z: Expr)
    requires PopsOver(Infix(op2), Infix(op1))
    ensures Shunt([Infix(op1)], [x, y], Infix(op2)) == Ok(([Infix(op2)], [MakeBinary(op1, x, y)]))
    ensures EmptyAll([Infix(op2)], [MakeBinary(op1, x, y), z]) == Ok([MakeBinary(op2, MakeBinary(op1, x, y), z)])
  {
    var xy := MakeBinary(op1, x, y);
    assert Move([x, y], Infix(op1)) == Ok([xy]);
    assert [Infix(op1)][..0] == [] && [] + [Infix(op2)] == [Infix(op2)];
    assert Move([xy, z], Infix(op2)) == Ok([MakeBinary(op2, xy, z)]);
    assert EmptyAll([], [MakeBinary(op2, xy, z)]) == Ok([MakeBinary(op2, xy, z)]);
  }

  /** TwoOperators when the first operator stays: `op2` takes `y` and `z`,
      then `op1` takes `x` and that tree. */
  lemma FirstOperatorKept(x: Expr, op1: string, y: Expr, op2: string, z: Expr)
    requires !PopsOver(Infix(op2), Infix(op1))
    ensures Shunt([Infix(op1)], [x, y], Infix(op2)) == Ok(([Infix(op1), Infix(op2)], [x, y]))
    ensures EmptyAll([Infix(op1), Infix(op2)], [x, y, z]) == Ok([MakeBinary(op1, x, MakeBinary(op2, y, z))])
  {
    var yz := MakeBinary(op2, y, z);
    assert [Infix(op1)] + [Infix(op2)] == [Infix(op1), Infix(op2)];
    assert [x, y, z][..1] + [yz] == [x, yz];
    assert Move([x, y, z], Infix(op2)) == Ok([x, yz]);
    assert [Infix(op1), Infix(op2)][..1] == [Infix(op1)];
    assert Move([x, yz], Infix(op1)) == Ok([MakeBinary(op1, x, yz)]);
    assert [Infix(op1)][..0] == [];
    assert EmptyAll([Infix(op1)], [x, yz]) == Ok([MakeBinary(op1, x, yz)]);
  }

  /** Subtraction groups to the left and `*` binds more tightly than `+`. */
  lemma ArithmeticGrouping()
    ensures PopsOver(Infix("-"), Infix("-"))
    ensures PopsOver(Infix("+"), Infix("*")) && !PopsOver(Infix("*"), Infix("+"))
  {
  }

  /** Assignment groups to the right. */
  lemma AssignmentGrouping()
    ensures !PopsOver(Infix(":="), Infix(":="))
    ensures PopsOver(Infix(":="), Infix("+"))
  {
  }

  /** `f()`: after a callable value, `(` followed at once by `)` gives a call
      with the empty tuple as its arguments. */
  lemma CallWithoutArguments(m: Machine, lexer: seq<Token>, f: Expr, before: seq<Expr>)
    requires m.pos + 1 < |lexer| && lexer[m.pos] == OperToken("(") && lexer[m.pos + 1] == OperToken(")")
    requires m.callPossible && m.output == before + [f]
    ensures OpenParenStep(m, lexer).Done?
    ensures CloseParenStep(OpenParenStep(m, lexer).m, lexer) ==
            Done(Machine(m.stack, before + [Call(f, EmptyTuple)], m.nest, true, false, m.pos + 2))
  {
    assert m.output[..|m.output| - 1] == before;
    var m1 := Machine(m.stack + [CallOp(f), Paren], before + [EmptyTuple], m.nest + 1, false, true, m.pos + 1);
    assert OpenParenStep(m, lexer) == Done(m1);
    assert PopTo(m1.stack, m1.output, false) == Ok((m.stack + [CallOp(f)], m1.output, true)) by {
      assert m1.stack[..|m1.stack| - 1] == m.stack + [CallOp(f)];
    }
    var st := m.stack + [CallOp(f)];
    assert st[..|st| - 1] == m.stack;
    assert (before + [EmptyTuple])[..|before|] == before;
    assert Move(before + [EmptyTuple], CallOp(f)) == Ok(before + [Call(f, EmptyTuple)]);
  }

  /** `b[i]`: the index between the brackets and the base before them make
      one index expression. */
  lemma IndexOfName(m: Machine, lexer: seq<Token>, rd: Readers, base: Expr, before: seq<Expr>, i: string)
    requires m.pos + 2 < |lexer| && Advancing(rd)
    requires lexer[m.pos] == OperToken("[") && lexer[m.pos + 1] == NameToken(i) && lexer[m.pos + 2] == OperToken("]")
    requires PlainName(i) && m.callPossible && m.output == before + [base]
    ensures OpenSquareStep(m, lexer).Done?
    ensures var m1 := OpenSquareStep(m, lexer).m;
            ValueStep(m1, lexer, rd).Done? &&
            CloseSquareStep(ValueStep(m1, lexer, rd).m, lexer) ==
            Done(Machine(m.stack, before + [Index(base, NameValue(i))], m.nest, true, false, m.pos + 3))
  {
    assert m.output[..|m.output| - 1] == before;
    var m1 := Machine(m.stack + [IndexOp(base), Square], before, m.nest + 1, false, true, m.pos + 1);
    assert OpenSquareStep(m, lexer) == Done(m1);
    NameValueStep(m1, lexer, rd, i);
    var m2 := Machine(m1.stack, before + [NameValue(i)], m1.nest, true, false, m.pos + 2);
    var st := m.stack + [IndexOp(base)];
    assert m1.stack[..|m1.stack| - 1] == st;
    assert PopTo(m1.stack, m2.output, true) == Ok((st, m2.output, true));
    assert st[..|st| - 1] == m.stack;
    assert m2.output[..|before|] == before;
    assert Move(m2.output, IndexOp(base)) == Ok(before + [Index(base, NameValue(i))]);
  }

  /** A `)` with no `(` open is a mismatched parenthesis; a `]` with no `[`
      open a mismatched bracket. */
  lemma StrayClosing(m: Machine, lexer: seq<Token>)
    requires m.pos < |lexer| && m.stack == []
    ensures lexer[m.pos] == OperToken(")") ==> CloseParenStep(m, lexer) == Failed(Error("mismatched parentheses"))
    ensures lexer[m.pos] == OperToken("]") ==> CloseSquareStep(m, lexer) == Failed(Error("mismatched brackets"))
  {
  }

  /** The stack can only be emptied when no bracket is left open on it. */
  lemma {:induction false} UnclosedRejected(stack: seq<Oper>, output: seq<Expr>)
    requires EmptyAll(stack, output).Ok?
    ensures forall i :: 0 <= i < |stack| ==> !IsSentinel(stack[i])
    decreases |stack|
  {
    if stack != [] {
      var out := Move(output, stack[|stack| - 1]).value;
      UnclosedRejected(stack[..|stack| - 1], out);
      forall i | 0 <= i < |stack| - 1
        ensures !IsSentinel(stack[i])
      {
        assert stack[i] == stack[..|stack| - 1][i];
      }
    }
  }

  predicate IsKind(o: Oper, square: bool) {
    if square then o.Square? else o.Paren?
  }

  /** The closing loop stops at the topmost opening bracket of its kind,
      and reports it missing only after emptying the whole stack. */
  lemma {:induction false} PopToTopmost(stack: seq<Oper>, output: seq<Expr>, square: bool)
    requires PopTo(stack, output, square).Ok?
    ensures var (st, _, found) := PopTo(stack, output, square).value;
            (found ==> |st| < |stack| && st == stack[..|st|] && IsKind(stack[|st|], square) &&
                       forall i :: |st| < i < |stack| ==> !IsKind(stack[i], square)) &&
            (!found ==> st == [] && forall i :: 0 <= i < |stack| ==> !IsKind(stack[i], square))
    decreases |stack|
  {
    if stack != [] && !IsKind(stack[|stack| - 1], square) {
      var init := stack[..|stack| - 1];
      var out := Move(output, stack[|stack| - 1]).value;
      PopToTopmost(init, out, square);
      var (st, _, found) := PopTo(stack, output, square).value;
      assert (st, found) == (PopTo(init, out, square).value.0, PopTo(init, out, square).value.2);
      if found {
        assert init[..|st|] == stack[..|st|];
        assert stack[|st|] == init[|st|];
        forall i | |st| < i < |stack|
          ensures !IsKind(stack[i], square)
        {
          if i < |init| {
            assert stack[i] == init[i];
          }
        }
      } else {
        forall i | 0 <= i < |stack|
          ensures !IsKind(stack[i], square)
        {
          if i < |init| {
            assert stack[i] == init[i];
          }
        }
      }
    } else if stack != [] {
      assert stack[..|stack| - 1] == stack[..|stack| - 1];
    }
  }
}
