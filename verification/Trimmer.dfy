/**
 `trim_expr` on the scalar fragment, as a function on trees: a parenthesised group is merged into the tree
 around it, and a minus sign without a left operand becomes the negation. Both keep the meaning.
 */
module Trimmer {
  import opened Options
  import opened Signals
  import opened Trees
  import opened Evaluator
  import opened Optimizer

  const MINUS := OperatorOf(Minus)
  const DEREFERENCE := OperatorOf(Escape)

  /** A leaf or a complete expression, and the same for every tree a token holds. */
  predicate Whole(t: Tree)
    decreases t, 1
  {
    t.Node? && ((t.left.Nil? && t.right.Nil?) || IsExpr(t)) && HoldsWhole(t)
  }

  predicate HoldsWhole(t: Tree)
    decreases t, 0
  {
    t.Node? ==> (t.data.Expr? ==> Whole(t.data.tree)) && HoldsWhole(t.left) && HoldsWhole(t.right)
  }

  /** The operator an operator without a left operand stands for. */
  function Unary(t: Tree): Token
    requires t.Node? && t.data.Sig?
  {
    if !IsNull(t.left) then t.data
    else if t.data.op.signal.Sub? then Sig(MINUS)
    else if t.data.op.signal.Mul? then Sig(DEREFERENCE)
    else t.data
  }

  /** The operand checks of `trim_expr`, made before the operands are trimmed. */
  predicate Complete(t: Tree)
    requires t.Node? && t.data.Sig?
  {
    && t.left.Node? && t.right.Node?
    && match KindOf(t.data.op.signal)
       case KArith =>
         !IsNull(t.right) && (IsNull(t.left) ==> t.data.op.signal.Sub? || t.data.op.signal.Mul?)
       case KOrder | KEqual | KAnd | KOr | KAssign | KCompound | KPair => !IsNull(t.left) && !IsNull(t.right)
       case KNot => IsNull(t.left) && !IsNull(t.right)
       case KMinus => !IsNull(t.right)
       case KChoice => !IsNull(t.left) && t.right.data.Sig? && t.right.data.op.signal.Pair?
       case KOther => true
  }

  /** The trimmed tree; none when the expression is rejected. Operators outside the scalar fragment are left
      alone here. */
  function Trim(t: Tree): Option<Tree> {
    if t.Nil? then Some(t)
    else if t.data.Expr? then if t.data.tree.Nil? then None else Trim(t.data.tree)
    else if !t.data.Sig? then Some(t)
    else if !Complete(t) then None
    else
      var k := KindOf(t.data.op.signal);
      if k == KOther then Some(t)
      else if k == KChoice then
        match (Trim(t.left), Trim(t.right.left), Trim(t.right.right))
        case (Some(c), Some(a), Some(b)) =>
          if IsNull(c) then None else Some(t.(left := c, right := t.right.(left := a, right := b)))
        case _ => None
      else
        match (Trim(t.left), Trim(t.right))
        case (Some(l), Some(r)) => if k == KAssign && IsNull(l) then None else Some(Node(Unary(t), l, r))
        case _ => None
  }

  /** The tree as its writer means it: a minus sign without a left operand negates, in groups as well. */
  function Read(t: Tree): Tree {
    match t
    case Nil => Nil
    case Node(d, l, r) =>
      Node(if d.Expr? then Expr(Read(d.tree)) else if d.Sig? && d.op.signal.Sub? && IsNull(l) then Sig(MINUS) else d,
           Read(l), Read(r))
  }

  /** The trees of the modelled fragment before trimming. */
  predicate Written(t: Tree) {
    t.Node? &&
    if !t.data.Sig? then
      (t.data.Null? || t.data.Id? || t.data.Val? || (t.data.Expr? && Written(t.data.tree)))
      && t.left.Nil? && t.right.Nil?
    else
      match KindOf(t.data.op.signal)
      case KOther | KPair => false
      case KChoice =>
        Written(t.left) && t.right.Node? && t.right.data.Sig? && t.right.data.op.signal.Pair?
        && Written(t.right.left) && Written(t.right.right)
      case _ => (IsNull(t.left) ==> !t.data.op.signal.Mul?) && Written(t.left) && Written(t.right)
  }

  // ----- what trimming gives -----

  lemma WholeOperands(t: Tree)
    requires t.Node? && t.data.Sig? && t.left.Node? && Whole(t)
    ensures IsExpr(t.left) && IsExpr(t.right) && Whole(t.left) && Whole(t.right)
  {
    assert IsExpr(t) && HoldsWhole(t.left) && HoldsWhole(t.right);
  }

  lemma {:induction false} TrimIsExpr(t: Tree)
    requires Whole(t) && Trim(t).Some?
    ensures IsExpr(Trim(t).value)
  {
    if t.data.Expr? {
      TrimIsExpr(t.data.tree);
    } else if t.data.Sig? && KindOf(t.data.op.signal) == KChoice {
      WholeOperands(t);
      WholeOperands(t.right);
      TrimIsExpr(t.left);
      TrimIsExpr(t.right.left);
      TrimIsExpr(t.right.right);
    } else if t.data.Sig? && KindOf(t.data.op.signal) != KOther {
      TrimIsExpr(t.left);
      TrimIsExpr(t.right);
    }
  }

  /** No group is left, and every operator is one the optimizer and the evaluator know. */
  predicate Plain(t: Tree) {
    t.Node? ==> !t.data.Expr? && Plain(t.left) && Plain(t.right)
  }

  lemma {:induction false} TrimmedIsPlain(t: Tree)
    requires Written(t) && Trim(t).Some?
    ensures Modelled(Trim(t).value) && Plain(Trim(t).value)
  {
    if t.data.Expr? {
      TrimmedIsPlain(t.data.tree);
    } else if t.data.Sig? {
      TrimmedIsPlain(t.left);
      if KindOf(t.data.op.signal) == KChoice {
        TrimmedIsPlain(t.right.left);
        TrimmedIsPlain(t.right.right);
      } else {
        TrimmedIsPlain(t.right);
      }
    }
  }

  // ----- trimming keeps the meaning -----

  lemma ReadParts(t: Tree)
    requires t.Node?
    ensures Read(t).Node? && Read(t).left == Read(t.left) && Read(t).right == Read(t.right)
    ensures t.data.Sig? && KindOf(t.data.op.signal) != KArith ==> Read(t).data == t.data
  {
  }

  /** The two mean the same in every store. */
  ghost predicate SameMeaning(a: Tree, b: Tree, host: Host) {
    forall st :: Eval(a, st, host) == Eval(b, st, host)
  }

  lemma SameOperands(a: Tree, b: Tree, host: Host)
    requires a.Node? && b.Node? && a.data.Sig? && a.data == b.data && KindOf(a.data.op.signal) != KChoice
    requires SameMeaning(a.left, b.left, host) && SameMeaning(a.right, b.right, host)
    ensures SameMeaning(a, b, host)
  {
    forall st
      ensures Eval(a, st, host) == Eval(b, st, host)
    {
      assert Eval(a.left, st, host) == Eval(b.left, st, host) && Eval(a.right, st, host) == Eval(b.right, st, host);
      assert EvalBoth(a, st, host) == EvalBoth(b, st, host);
      if KindOf(a.data.op.signal) in {KAnd, KOr} {
        SameBool(a.left, b.left, st, host);
        SameBool(a.right, b.right, EvalBool(a.left, st, host).1, host);
      }
    }
  }

  lemma SameBool(a: Tree, b: Tree, st: Store, host: Host)
    requires SameMeaning(a, b, host)
    ensures EvalBool(a, st, host) == EvalBool(b, st, host)
  {
    assert Eval(a, st, host) == Eval(b, st, host);
  }

  lemma SameBranches(a: Tree, b: Tree, host: Host)
    requires a.Node? && b.Node? && a.data.Sig? && a.data == b.data && KindOf(a.data.op.signal) == KChoice
    requires a.right.Node? && b.right.Node? && SameMeaning(a.left, b.left, host)
    requires SameMeaning(a.right.left, b.right.left, host) && SameMeaning(a.right.right, b.right.right, host)
    ensures SameMeaning(a, b, host)
  {
    forall st
      ensures Eval(a, st, host) == Eval(b, st, host)
    {
      ChoiceStep(a, st, host);
      ChoiceStep(b, st, host);
    }
  }

  /** Merging the groups and marking the negations changes no value, no error and no store. */
  lemma {:induction false} TrimKeepsMeaning(t: Tree, host: Host)
    requires Written(t) && Trim(t).Some?
    ensures SameMeaning(Trim(t).value, Read(t), host)
  {
    var u, v := Trim(t).value, Read(t);
    if t.data.Expr? {
      TrimKeepsMeaning(t.data.tree, host);
      forall st
        ensures Eval(u, st, host) == Eval(v, st, host)
      {
        assert Eval(v, st, host) == Eval(v.data.tree, st, host);
      }
    } else if t.data.Sig? {
      TrimKeepsMeaning(t.left, host);
      if KindOf(t.data.op.signal) == KChoice {
        TrimKeepsMeaning(t.right.left, host);
        TrimKeepsMeaning(t.right.right, host);
        ReadParts(t);
        ReadParts(t.right);
        SameBranches(u, v, host);
      } else {
        TrimKeepsMeaning(t.right, host);
        SameOperands(u, v, host);
      }
    }
  }

  /** The two passes of `optimize_expression` together. */
  lemma PassesKeepMeaning(t: Tree, consts: Constants, st: Store, host: Host)
    requires Written(t) && Trim(t).Some? && Opt(Trim(t).value, consts, host).Some? && Agrees(st, consts)
    ensures SameResult(Eval(Opt(Trim(t).value, consts, host).value, st, host), Eval(Read(t), st, host))
  {
    TrimKeepsMeaning(t, host);
    TrimmedIsPlain(t);
    OptPreserves(Trim(t).value, consts, st, host);
    assert Eval(Trim(t).value, st, host) == Eval(Read(t), st, host);
  }
}
