/**
 Expression trees as values: what a `tree_type<token_base *>` looks like once its node pointers
 are forgotten, and the two steps by which `build_tree` grows one.
 */
module Trees {
  import opened Signals
  import opened Values

  /** `Null` is the null operand; `Id` and `Val` are identifiers and constants, `Operand` is any other
      operand. `Group` is a parenthesised group; `Expr` holds a tree by value, as `token_expr` does. */
  datatype Token =
    | Null
    | Sig(op: Operator)
    | Id(id: string)
    | Val(value: Scalar)
    | Operand(name: string)
    | Action(name: string)
    | Group(segments: seq<Segment>)
    | Expr(tree: Tree)

  /** One comma-separated part of a parenthesised group. */
  datatype Segment = Segment(tokens: seq<Token>)

  datatype Tree = Nil | Node(data: Token, left: Tree, right: Tree)

  function Leaf(t: Token): Tree { Node(t, Nil, Nil) }

  /** Left-to-right reading of a tree. */
  function InOrder(t: Tree): seq<Token> {
    match t
    case Nil => []
    case Node(d, l, r) => InOrder(l) + [d] + InOrder(r)
  }

  /** A complete expression: operators with two operands inside, operands at the leaves. */
  predicate IsExpr(t: Tree) {
    t.Node? &&
    if t.data.Sig? then IsExpr(t.left) && IsExpr(t.right)
    else t.left.Nil? && t.right.Nil?
  }

  /** An expression whose last operator still waits for its right operand. */
  predicate IsOpen(t: Tree) {
    t.Node? && t.data.Sig? && IsExpr(t.left) && (t.right.Nil? || IsOpen(t.right))
  }

  /** Hangs an operand below the waiting operator. */
  function Attach(t: Tree, o: Token): Tree
    requires t.Node?
  {
    if t.right.Nil? then t.(right := Leaf(o)) else t.(right := Attach(t.right, o))
  }

  /** Places a new operator on the right spine, leaving it open: below an equal-level assignment,
      above any other equal-level or higher-level operator, otherwise further right. */
  function Climb(t: Tree, s: Operator): Tree
    requires IsExpr(t)
  {
    if t.right.Nil? then Node(Sig(s), t, Nil)
    else if t.data.op.level == s.level then
      if t.data.op.IsAssignment() then t.(right := Node(Sig(s), t.right, Nil)) else Node(Sig(s), t, Nil)
    else if t.data.op.level > s.level then Node(Sig(s), t, Nil)
    else t.(right := Climb(t.right, s))
  }

  lemma {:induction false} AttachClosed(t: Tree, o: Token)
    requires IsOpen(t) && !o.Sig?
    ensures IsExpr(Attach(t, o))
    ensures InOrder(Attach(t, o)) == InOrder(t) + [o]
  {
    if t.right.Nil? {
      assert InOrder(Leaf(o)) == [o];
    } else {
      AttachClosed(t.right, o);
    }
  }

  lemma {:induction false} ClimbOpen(t: Tree, s: Operator)
    requires IsExpr(t)
    ensures IsOpen(Climb(t, s))
    ensures InOrder(Climb(t, s)) == InOrder(t) + [Sig(s)]
  {
    if t.right.Nil? {
    } else if t.data.op.level == s.level && t.data.op.IsAssignment() {
      assert InOrder(Node(Sig(s), t.right, Nil)) == InOrder(t.right) + [Sig(s)];
    } else if t.data.op.level < s.level {
      ClimbOpen(t.right, s);
    }
  }

  /** The open tree after the first n signals. */
  function BuildOpen(signals: seq<Operator>, objects: seq<Token>, n: nat): (t: Tree)
    requires 1 <= n <= |signals| && n <= |objects|
    requires forall i :: 0 <= i < n ==> !objects[i].Sig?
    ensures IsOpen(t)
  {
    if n == 1 then Node(Sig(signals[0]), Leaf(objects[0]), Nil)
    else
      var t := BuildOpen(signals, objects, n - 1);
      AttachClosed(t, objects[n - 1]);
      ClimbOpen(Attach(t, objects[n - 1]), signals[n - 1]);
      Climb(Attach(t, objects[n - 1]), signals[n - 1])
  }

  predicate NoSignals(tokens: seq<Token>) {
    forall i :: 0 <= i < |tokens| ==> !tokens[i].Sig?
  }

  predicate Buildable(signals: seq<Operator>, objects: seq<Token>) {
    |signals| >= 1 && |objects| == |signals| + 1
    && NoSignals(objects)
  }

  function Build(signals: seq<Operator>, objects: seq<Token>): Tree
    requires Buildable(signals, objects)
  {
    Attach(BuildOpen(signals, objects, |signals|), objects[|signals|])
  }

  /** operand, operator, operand, and so on. */
  function Interleave(signals: seq<Operator>, objects: seq<Token>): seq<Token>
    requires |objects| == |signals| + 1
    decreases |signals|
  {
    if signals == [] then objects
    else Interleave(signals[..|signals| - 1], objects[..|signals|]) + [Sig(signals[|signals| - 1]), objects[|signals|]]
  }

  lemma InterleaveSnoc(signals: seq<Operator>, objects: seq<Token>, op: Operator, o: Token)
    requires |objects| == |signals| + 1
    ensures Interleave(signals + [op], objects + [o]) == Interleave(signals, objects) + [Sig(op), o]
  {
    assert (signals + [op])[..|signals|] == signals;
    assert (objects + [o])[..|objects|] == objects;
  }

  lemma {:induction false} BuildOpenInOrder(signals: seq<Operator>, objects: seq<Token>, n: nat)
    requires Buildable(signals, objects) && 1 <= n <= |signals|
    ensures InOrder(BuildOpen(signals, objects, n))
         == Interleave(signals[..n - 1], objects[..n]) + [Sig(signals[n - 1])]
  {
    if n > 1 {
      var t := BuildOpen(signals, objects, n - 1);
      BuildOpenInOrder(signals, objects, n - 1);
      AttachClosed(t, objects[n - 1]);
      ClimbOpen(Attach(t, objects[n - 1]), signals[n - 1]);
      assert signals[..n - 1][..n - 2] == signals[..n - 2];
      assert objects[..n][..n - 1] == objects[..n - 1];
    }
  }

  /** The built tree is a complete expression that reads back its tokens in order. */
  lemma BuildInOrder(signals: seq<Operator>, objects: seq<Token>)
    requires Buildable(signals, objects)
    ensures IsExpr(Build(signals, objects))
    ensures InOrder(Build(signals, objects)) == Interleave(signals, objects)
  {
    var n := |signals|;
    BuildOpenInOrder(signals, objects, n);
    AttachClosed(BuildOpen(signals, objects, n), objects[n]);
    assert signals[..n] == signals && objects[..n + 1] == objects;
  }
}
