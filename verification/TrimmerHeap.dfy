/**
 `trim_expr` as it runs: rewriting the pointer tree in place.
 */
module TrimmerHeap {
  import opened Trees
  import opened TreeHeap
  import opened Evaluator
  import opened Optimizer
  import opened Trimmer

  method TrimExpr(tree: TreeType, it: TreeNode?, ghost c: Context, ghost s: Shape) returns (ok: bool, ghost s': Shape)
    requires tree.Valid() && it == RootOf(s) && tree.shape == Plug(c, s)
    modifies tree, tree.repr
    ensures tree.Valid() && fresh(tree.repr - old(tree.repr))
    ensures ok <==> Trim(View(s)).Some?
    ensures ok ==> tree.shape == Plug(c, s') && RootOf(s') == it && View(s') == Trim(View(s)).value
    decreases View(s), 4
  {
    ok, s' := true, s;
    if it == null {
      return;
    }
    tree.FocusNode(c, s);
    if it.data.Expr? {
      ok, s' := TrimGroup(tree, it, c, s);
    } else if it.data.Sig? {
      ok, s' := TrimSignal(tree, it, c, s);
    }
  }

  /** The tree of the group is trimmed on its own and then takes the place of the group. */
  method TrimGroup(tree: TreeType, it: TreeNode, ghost c: Context, ghost s: Shape) returns (ok: bool, ghost s': Shape)
    requires tree.Valid() && s.Branch? && s.node == it && tree.shape == Plug(c, s) && s.data.Expr?
    modifies tree, tree.repr
    ensures tree.Valid() && fresh(tree.repr - old(tree.repr))
    ensures ok <==> Trim(View(s)).Some?
    ensures ok ==> tree.shape == Plug(c, s') && RootOf(s') == it && View(s') == Trim(View(s)).value
    decreases View(s), 2
  {
    s' := s;
    tree.FocusNode(c, s);
    var held := new TreeType.Of(it.data.tree);
    if held.mRoot == null {
      return false, s;
    }
    ghost var trimmed;
    ok, trimmed := TrimExpr(held, held.mRoot, Top, held.shape);
    if ok {
      s' := tree.Merge(it, held, c, s);
    }
  }

  method CheckComplete(tree: TreeType, it: TreeNode, ghost c: Context, ghost s: Shape) returns (r: bool)
    requires tree.Valid() && s.Branch? && s.node == it && tree.shape == Plug(c, s) && s.data.Sig?
    ensures r <==> Complete(View(s))
  {
    tree.FocusNode(c, s);
    if it.left == null || it.right == null {
      return false;
    }
    var l, rt, sig := it.left.data, it.right.data, it.data.op.signal;
    match KindOf(sig)
    case KArith => return !rt.Null? && (l.Null? ==> sig.Sub? || sig.Mul?);
    case KOrder | KEqual | KAnd | KOr | KAssign | KCompound | KPair => return !l.Null? && !rt.Null?;
    case KNot => return l.Null? && !rt.Null?;
    case KMinus => return !rt.Null?;
    case KChoice => return !l.Null? && rt.Sig? && rt.op.signal.Pair?;
    case KOther => return true;
  }

  method TrimSignal(tree: TreeType, it: TreeNode, ghost c: Context, ghost s: Shape) returns (ok: bool, ghost s': Shape)
    requires tree.Valid() && s.Branch? && s.node == it && tree.shape == Plug(c, s) && s.data.Sig?
    modifies tree, tree.repr
    ensures tree.Valid() && fresh(tree.repr - old(tree.repr))
    ensures ok <==> Trim(View(s)).Some?
    ensures ok ==> tree.shape == Plug(c, s') && RootOf(s') == it && View(s') == Trim(View(s)).value
    decreases View(s), 3
  {
    s' := s;
    tree.FocusNode(c, s);
    var k := KindOf(it.data.op.signal);
    ok := CheckComplete(tree, it, c, s);
    if !ok || k == KOther {
      return;
    }
    if k == KChoice {
      ok, s' := TrimChoice(tree, it, c, s);
      return;
    }
    ok, s' := TrimOperator(tree, it, c, s);
  }

  /** Trimming an operator, one step unfolded. */
  lemma OperatorStep(t: Tree)
    requires t.Node? && t.data.Sig? && Complete(t) && KindOf(t.data.op.signal) !in {KOther, KChoice}
    ensures var l, r, assigns := Trim(t.left), Trim(t.right), KindOf(t.data.op.signal) == KAssign;
            && (Trim(t).Some? <==> l.Some? && r.Some? && (assigns ==> !IsNull(l.value)))
            && (Trim(t).Some? ==> Trim(t).value == Node(Unary(t), l.value, r.value))
  {
  }

  /** An operator without a left operand is renamed; then the operands. */
  method TrimOperator(tree: TreeType, it: TreeNode, ghost c: Context, ghost s: Shape)
      returns (ok: bool, ghost s': Shape)
    requires tree.Valid() && s.Branch? && s.node == it && tree.shape == Plug(c, s) && s.data.Sig?
    requires Complete(View(s)) && KindOf(s.data.op.signal) !in {KOther, KChoice}
    modifies tree, tree.repr
    ensures tree.Valid() && fresh(tree.repr - old(tree.repr))
    ensures ok <==> Trim(View(s)).Some?
    ensures ok ==> tree.shape == Plug(c, s') && RootOf(s') == it && View(s') == Trim(View(s)).value
    decreases View(s), 2
  {
    tree.FocusNode(c, s);
    assert View(s) == Node(s.data, View(s.left), View(s.right));
    OperatorStep(View(s));
    var sig, assigns := it.data, KindOf(it.data.op.signal) == KAssign;
    if it.left.data.Null? && sig.op.signal.Sub? {
      sig := Sig(MINUS);
    } else if it.left.data.Null? && sig.op.signal.Mul? {
      sig := Sig(DEREFERENCE);
    }
    tree.SetData(it, sig, c, s);
    ok, s' := TrimChildren(tree, it, assigns, c, s.(data := sig), View(s));
  }

  /** The left child of a node; `needed` if it must still be there once it is trimmed. */
  method TrimLeft(tree: TreeType, it: TreeNode, needed: bool, ghost c: Context, ghost s: Shape, ghost bound: Tree)
      returns (ok: bool, ghost l: Shape)
    requires tree.Valid() && s.Branch? && s.node == it && tree.shape == Plug(c, s)
    requires (needed ==> s.left.Branch?) && View(s.left) < bound
    modifies tree, tree.repr
    ensures tree.Valid() && fresh(tree.repr - old(tree.repr))
    ensures ok <==> Trim(View(s.left)).Some? && (needed ==> !IsNull(Trim(View(s.left)).value))
    ensures ok ==> tree.shape == Plug(c, s.(left := l)) && View(l) == Trim(View(s.left)).value
    decreases bound, 0
  {
    tree.FocusNode(c, s);
    ok, l := TrimExpr(tree, it.left, InLeft(c, it, s.data, s.right), s.left);
    if ok && needed {
      tree.FocusNode(InLeft(c, it, s.data, s.right), l);
      tree.FocusNode(c, s.(left := l));
      ok := !it.left.data.Null?;
    }
  }

  method TrimRight(tree: TreeType, it: TreeNode, ghost c: Context, ghost s: Shape, ghost bound: Tree)
      returns (ok: bool, ghost r: Shape)
    requires tree.Valid() && s.Branch? && s.node == it && tree.shape == Plug(c, s) && View(s.right) < bound
    modifies tree, tree.repr
    ensures tree.Valid() && fresh(tree.repr - old(tree.repr))
    ensures ok <==> Trim(View(s.right)).Some?
    ensures ok ==> tree.shape == Plug(c, s.(right := r)) && View(r) == Trim(View(s.right)).value
    decreases bound, 0
  {
    tree.FocusNode(c, s);
    ok, r := TrimExpr(tree, it.right, InRight(c, it, s.data, s.left), s.right);
  }

  /** The two branches of a conditional, below the `:` on its right. */
  method TrimBranches(tree: TreeType, it: TreeNode, ghost c: Context, ghost s: Shape, ghost bound: Tree)
      returns (ok: bool, ghost p: Shape)
    requires tree.Valid() && s.Branch? && s.node == it && tree.shape == Plug(c, s)
    requires s.right.Branch? && View(s.right) < bound
    modifies tree, tree.repr
    ensures tree.Valid() && fresh(tree.repr - old(tree.repr))
    ensures var a, b := Trim(View(s.right.left)), Trim(View(s.right.right));
      && (ok <==> a.Some? && b.Some?)
      && (ok ==> tree.shape == Plug(c, s.(right := p)) && View(p) == Node(s.right.data, a.value, b.value))
    decreases bound, 0
  {
    tree.FocusNode(c, s);
    assert View(s.right) == Node(s.right.data, View(s.right.left), View(s.right.right));
    ok, p := TrimChildren(tree, it.right, false, InRight(c, it, s.data, s.left), s.right, View(s.right));
  }

  /** Both children of a node. For an assignment the left one must still be there once it is trimmed. */
  method TrimChildren(tree: TreeType, it: TreeNode, needLeft: bool, ghost c: Context, ghost s: Shape, ghost bound: Tree)
      returns (ok: bool, ghost s': Shape)
    requires tree.Valid() && s.Branch? && s.node == it && tree.shape == Plug(c, s)
    requires (needLeft ==> s.left.Branch?) && View(s.left) < bound && View(s.right) < bound
    modifies tree, tree.repr
    ensures tree.Valid() && fresh(tree.repr - old(tree.repr))
    ensures var l, r := Trim(View(s.left)), Trim(View(s.right));
      && (ok <==> l.Some? && r.Some? && (needLeft ==> !IsNull(l.value)))
      && (ok ==> tree.shape == Plug(c, s') && RootOf(s') == it && View(s') == Node(s.data, l.value, r.value))
    decreases bound, 1
  {
    ghost var l, r;
    s' := s;
    ok, l := TrimLeft(tree, it, needLeft, c, s, bound);
    if !ok {
      return;
    }
    s' := s.(left := l);
    ok, r := TrimRight(tree, it, c, s', bound);
    s' := s'.(right := r);
  }

  method TrimChoice(tree: TreeType, it: TreeNode, ghost c: Context, ghost s: Shape) returns (ok: bool, ghost s': Shape)
    requires tree.Valid() && s.Branch? && s.node == it && tree.shape == Plug(c, s)
    requires s.data.Sig? && KindOf(s.data.op.signal) == KChoice && Complete(View(s))
    modifies tree, tree.repr
    ensures tree.Valid() && fresh(tree.repr - old(tree.repr))
    ensures ok <==> Trim(View(s)).Some?
    ensures ok ==> tree.shape == Plug(c, s') && RootOf(s') == it && View(s') == Trim(View(s)).value
    decreases View(s), 1
  {
    assert View(s) == Node(s.data, View(s.left), View(s.right)) && s.left.Branch? && s.right.Branch?;
    ghost var l, p;
    s' := s;
    ok, l := TrimLeft(tree, it, true, c, s, View(s));
    if !ok {
      return;
    }
    s' := s.(left := l);
    ok, p := TrimBranches(tree, it, c, s', View(s));
    s' := s'.(right := p);
  }
}
