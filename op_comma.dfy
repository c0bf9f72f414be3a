/** The tuple operator's operand handling and flattening
    (src/java/me/pavlina/alco/ast/OpComma.java). */
module OpComma {
  import opened Ast

  /** setOperands: an OpComma with children takes the new operands; the
      placeholder, whose children are null, ignores them. */
  function SetOperands(tuple: Expr, left: Expr, right: Expr): (r: Expr)
    requires tuple.IsComma()
    ensures tuple.EmptyTuple? ==> r == EmptyTuple
    ensures tuple.Tuple? ==> r.Tuple? && r.left == left && r.right == right
  {
    match tuple
    case EmptyTuple => EmptyTuple
    case Tuple(_, _) => Tuple(left, right)
  }

  /** The expressions unpack appends: the left child is flattened when it is
      itself an OpComma, the right child is taken as it is. */
  function Leaves(tuple: Expr): seq<Expr>
    requires tuple.IsComma()
  {
    match tuple
    case EmptyTuple => []
    case Tuple(left, right) => (if left.IsComma() then Leaves(left) else [left]) + [right]
  }

  /** The tuple that a chain of left-associative commas e0, e1, ..., en
      builds: ((e0, e1), ...), en. */
  function LeftNest(es: seq<Expr>): (t: Expr)
    requires |es| >= 2
    ensures t.Tuple?
    decreases |es|
  {
    if |es| == 2 then Tuple(es[0], es[1]) else Tuple(LeftNest(es[..|es| - 1]), es[|es| - 1])
  }

  /** Unpacking a left-nested tuple gives its elements back, left to right,
      provided they are not tuples themselves. */
  lemma {:induction false} LeavesOfLeftNest(es: seq<Expr>)
    requires |es| >= 2
    requires !es[0].IsComma()
    ensures Leaves(LeftNest(es)) == es
    decreases |es|
  {
    if |es| > 2 {
      LeavesOfLeftNest(es[..|es| - 1]);
      assert es[..|es| - 1] + [es[|es| - 1]] == es;
    }
  }

  /** A tuple in the right position is appended whole, not flattened. */
  lemma RightChildNotFlattened(a: Expr, b: Expr, c: Expr)
    requires !a.IsComma()
    ensures Leaves(Tuple(a, Tuple(b, c))) == [a, Tuple(b, c)]
  {
  }

  /** A placeholder on the left contributes nothing. */
  lemma PlaceholderContributesNothing(right: Expr)
    ensures Leaves(Tuple(EmptyTuple, right)) == [right]
  {
  }

  /** The list that unpack appends to. */
  class ExprList {
    var items: seq<Expr>

    constructor ()
      ensures items == []
    {
      items := [];
    }

    method Add(e: Expr)
      modifies this
      ensures items == old(items) + [e]
    {
      items := items + [e];
    }
  }

  /** unpack: appends the tuple's leaves to the caller's list in place. */
  method Unpack(tuple: Expr, into: ExprList)
    requires tuple.IsComma()
    modifies into
    ensures into.items == old(into.items) + Leaves(tuple)
    decreases tuple
  {
    if tuple.EmptyTuple? {
      return;
    }
    if tuple.left.IsComma() {
      Unpack(tuple.left, into);
    } else {
      into.Add(tuple.left);
    }
    into.Add(tuple.right);
  }

  /** OpCall's argument list: the leaves of a tuple argument, or the single
      argument. */
  method CallArguments(args: Expr) returns (list: seq<Expr>)
    ensures args.IsComma() ==> list == Leaves(args)
    ensures !args.IsComma() ==> list == [args]
  {
    var into := new ExprList();
    if args.IsComma() {
      Unpack(args, into);
    } else {
      into.Add(args);
    }
    list := into.items;
  }
}
