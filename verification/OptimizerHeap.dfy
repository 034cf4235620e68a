/**
 `opt_expr` as it runs: rewriting the pointer tree in place.
 */
module OptimizerHeap {
  import opened Options
  import opened Trees
  import opened TreeHeap
  import opened Evaluator
  import opened Optimizer
  import opened Trimmer
  import opened TrimmerHeap

  /** The final step: a node with constant operands becomes their value, unless evaluating it fails. */
  method FoldNode(tree: TreeType, it: TreeNode, host: Host, ghost c: Context, ghost s: Shape) returns (ghost s': Shape)
    requires tree.Valid() && s.Branch? && s.node == it && tree.shape == Plug(c, s)
    modifies tree, tree.repr
    ensures tree.Valid() && tree.repr <= old(tree.repr)
    ensures tree.shape == Plug(c, s') && View(s') == Fold(View(s), host)
  {
    tree.FocusNode(c, s);
    s' := s;
    var folded := Eval(CopyNode(it, s, Parent(c)), EMPTY_STORE, host).0;
    if folded.Ok? && folded.value.Temp? && folded.value.value.Plain? {
      tree.EraseLeft(it, c, s);
      s' := s.(left := Empty);
      tree.EraseRight(it, c, s');
      s' := s'.(right := Empty);
      tree.SetData(it, Val(folded.value.value.s), c, s');
      s' := s'.(data := Val(folded.value.value.s));
    }
  }

  lemma PresentChildren(s: Shape)
    requires s.Branch? && s.data.Sig? && OperandsPresent(View(s))
    ensures s.left.Branch? && s.right.Branch?
    ensures KindOf(s.data.op.signal) == KChoice ==> s.right.left.Branch? && s.right.right.Branch?
  {
    assert View(s).left == View(s.left) && View(s).right == View(s.right);
    assert s.right.Branch? ==>
      View(s.right).left == View(s.right.left) && View(s.right).right == View(s.right.right);
  }

  method OptExpr(tree: TreeType, it: TreeNode?, consts: Constants, host: Host, ghost c: Context, ghost s: Shape)
      returns (ok: bool, ghost s': Shape)
    requires tree.Valid() && it == RootOf(s) && tree.shape == Plug(c, s)
    modifies tree, tree.repr
    ensures tree.Valid() && tree.repr <= old(tree.repr)
    ensures ok <==> Opt(View(s), consts, host).Some?
    ensures ok ==> tree.shape == Plug(c, s') && View(s') == Opt(View(s), consts, host).value
    decreases s, 3
  {
    ok, s' := true, s;
    if it == null {
      return;
    }
    tree.FocusNode(c, s);
    if it.data.Id? {
      if it.data.id in consts {
        var value := Val(consts[it.data.id]);
        tree.SetData(it, value, c, s);
        s' := s.(data := value);
      }
      return;
    }
    if !it.data.Sig? {
      return;
    }
    ok, s' := OptSignal(tree, it, consts, host, c, s);
  }

  method OptSignal(tree: TreeType, it: TreeNode, consts: Constants, host: Host, ghost c: Context, ghost s: Shape)
      returns (ok: bool, ghost s': Shape)
    requires tree.Valid() && s.Branch? && s.node == it && tree.shape == Plug(c, s)
    requires s.data.Sig?
    modifies tree, tree.repr
    ensures tree.Valid() && tree.repr <= old(tree.repr)
    ensures ok <==> Opt(View(s), consts, host).Some?
    ensures ok ==> tree.shape == Plug(c, s') && View(s') == Opt(View(s), consts, host).value
    decreases s, 2
  {
    ok, s' := true, s;
    tree.FocusNode(c, s);
    var k := KindOf(it.data.op.signal);
    var present := CheckOperands(tree, it, c, s);
    if !present {
      ok := false;
      return;
    }
    if k == KCompound || k == KPair || k == KOther {
      return;
    }
    if k == KChoice {
      ok, s' := OptChoice(tree, it, consts, host, c, s);
      return;
    }
    ok, s' := OptOperator(tree, it, consts, host, c, s);
  }

  /** Folding an operator, one step unfolded. */
  lemma OperatorStep(t: Tree, consts: Constants, host: Host)
    requires t.Node? && t.data.Sig? && OperandsPresent(t)
    requires KindOf(t.data.op.signal) !in {KChoice, KCompound, KPair, KOther}
    ensures var l, r := Opt(t.left, consts, host), Opt(t.right, consts, host);
            && (Opt(t, consts, host).Some? <==> l.Some? && r.Some?)
            && (Opt(t, consts, host).Some? ==>
                  var u := Node(t.data, l.value, r.value);
                  Opt(t, consts, host).value ==
                    if KindOf(t.data.op.signal) != KAssign && Optimizable(l.value) && Optimizable(r.value)
                    then Fold(u, host) else u)
  {
  }

  /** The operands first, then the operator itself if both have become constants. */
  method OptOperator(tree: TreeType, it: TreeNode, consts: Constants, host: Host, ghost c: Context, ghost s: Shape)
      returns (ok: bool, ghost s': Shape)
    requires tree.Valid() && s.Branch? && s.node == it && tree.shape == Plug(c, s)
    requires s.data.Sig? && OperandsPresent(View(s))
    requires KindOf(s.data.op.signal) !in {KChoice, KCompound, KPair, KOther}
    modifies tree, tree.repr
    ensures tree.Valid() && tree.repr <= old(tree.repr)
    ensures ok <==> Opt(View(s), consts, host).Some?
    ensures ok ==> tree.shape == Plug(c, s') && View(s') == Opt(View(s), consts, host).value
    decreases s, 1
  {
    tree.FocusNode(c, s);
    PresentChildren(s);
    OperatorStep(View(s), consts, host);
    assert View(s) == Node(s.data, View(s.left), View(s.right));
    var isAssignment := KindOf(it.data.op.signal) == KAssign;
    ok, s' := OptChildren(tree, it, consts, host, c, s);
    if !ok {
      return;
    }
    assert View(s') == Node(s.data, View(s'.left), View(s'.right));
    var foldable := OptimizableChildren(tree, it, c, s');
    if !isAssignment && foldable {
      s' := FoldNode(tree, it, host, c, s');
    }
  }

  method OptimizableChildren(tree: TreeType, it: TreeNode, ghost c: Context, ghost s: Shape) returns (r: bool)
    requires tree.Valid() && s.Branch? && s.node == it && tree.shape == Plug(c, s)
    ensures r <==> Optimizable(View(s.left)) && Optimizable(View(s.right))
  {
    tree.FocusNode(c, s);
    if it.left == null || it.right == null {
      return false;
    }
    return (it.left.data.Null? || it.left.data.Val?) && (it.right.data.Null? || it.right.data.Val?);
  }

  method CheckOperands(tree: TreeType, it: TreeNode, ghost c: Context, ghost s: Shape) returns (r: bool)
    requires tree.Valid() && s.Branch? && s.node == it && tree.shape == Plug(c, s)
    requires s.data.Sig?
    ensures r <==> OperandsPresent(View(s))
  {
    tree.FocusNode(c, s);
    if it.left == null || it.right == null {
      return false;
    }
    var l, rt := it.left.data, it.right.data;
    match KindOf(it.data.op.signal)
    case KArith | KOrder | KEqual | KAnd | KOr | KAssign | KCompound | KPair => return !l.Null? && !rt.Null?;
    case KMinus => return !rt.Null?;
    case KChoice =>
      tree.FocusNode(InRight(c, it, s.data, s.left), s.right);
      assert View(s.right) == Node(rt, View(s.right.left), View(s.right.right));
      return !l.Null? && rt.Sig? && rt.op.signal.Pair? && it.right.left != null && it.right.right != null;
    case _ => return true;
  }

  /** Both children of a node: the operands of an operator, or the branches below the `:` of a conditional. */
  method OptChildren(tree: TreeType, it: TreeNode, consts: Constants, host: Host, ghost c: Context, ghost s: Shape)
      returns (ok: bool, ghost s': Shape)
    requires tree.Valid() && s.Branch? && s.node == it && tree.shape == Plug(c, s)
    requires s.left.Branch? && s.right.Branch?
    modifies tree, tree.repr
    ensures tree.Valid() && tree.repr <= old(tree.repr)
    ensures ok <==> Opt(View(s.left), consts, host).Some? && Opt(View(s.right), consts, host).Some?
    ensures ok ==> tree.shape == Plug(c, s') && s'.Branch? && s'.node == it && s'.data == s.data
                   && View(s'.left) == Opt(View(s.left), consts, host).value
                   && View(s'.right) == Opt(View(s.right), consts, host).value
    decreases s, 0
  {
    tree.FocusNode(c, s);
    ghost var l, r;
    s' := s;
    ok, l := OptExpr(tree, it.left, consts, host, InLeft(c, it, s.data, s.right), s.left);
    if !ok {
      return;
    }
    s' := s.(left := l);
    tree.FocusNode(c, s');
    ok, r := OptExpr(tree, it.right, consts, host, InRight(c, it, s.data, l), s.right);
    s' := s'.(right := r);
  }

  /** A conditional with rewritten parts, after its constant condition, if any, has chosen. */
  function Chosen(t: Tree): Option<Tree>
    requires t.Node? && t.right.Node?
  {
    if !IsValue(t.left) then Some(t)
    else if t.left.data.value.Bool? then Some(if t.left.data.value.b then t.right.left else t.right.right)
    else None
  }

  lemma RewrittenChoice(s: Shape, l: Shape, p: Shape, consts: Constants, host: Host)
    requires s.Branch? && s.data.Sig? && KindOf(s.data.op.signal) == KChoice
    requires OperandsPresent(View(s)) && s.right.Branch? && p.Branch? && p.data == s.right.data
    requires Opt(View(s.left), consts, host) == Some(View(l))
    requires Opt(View(s.right.left), consts, host) == Some(View(p.left))
    requires Opt(View(s.right.right), consts, host) == Some(View(p.right))
    ensures l.Branch? && p.left.Branch? && p.right.Branch?
    ensures var u := Node(s.data, View(l), Node(p.data, View(p.left), View(p.right)));
            View(s.(left := l, right := p)) == u && Opt(View(s), consts, host) == Chosen(u)
  {
    PresentChildren(s);
    OptIsNode(View(s.left), consts, host);
    OptIsNode(View(s.right.left), consts, host);
    OptIsNode(View(s.right.right), consts, host);
    assert View(s.right) == Node(p.data, View(s.right.left), View(s.right.right));
  }

  method OptChoice(tree: TreeType, it: TreeNode, consts: Constants, host: Host, ghost c: Context, ghost s: Shape)
      returns (ok: bool, ghost s': Shape)
    requires tree.Valid() && s.Branch? && s.node == it && tree.shape == Plug(c, s)
    requires s.data.Sig? && KindOf(s.data.op.signal) == KChoice && OperandsPresent(View(s))
    modifies tree, tree.repr
    ensures tree.Valid() && tree.repr <= old(tree.repr)
    ensures ok <==> Opt(View(s), consts, host).Some?
    ensures ok ==> tree.shape == Plug(c, s') && View(s') == Opt(View(s), consts, host).value
    decreases s, 1
  {
    ghost var l, p;
    ok, l, p := OptSides(tree, it, consts, host, c, s);
    if !ok {
      s' := s;
      return;
    }
    RewrittenChoice(s, l, p, consts, host);
    ok, s' := ChooseConstant(tree, it, c, s.(left := l, right := p));
  }

  /** The condition and the two branches, in place. */
  method OptSides(tree: TreeType, it: TreeNode, consts: Constants, host: Host, ghost c: Context, ghost s: Shape)
      returns (ok: bool, ghost l: Shape, ghost p: Shape)
    requires tree.Valid() && s.Branch? && s.node == it && tree.shape == Plug(c, s)
    requires s.data.Sig? && KindOf(s.data.op.signal) == KChoice && OperandsPresent(View(s))
    modifies tree, tree.repr
    ensures tree.Valid() && tree.repr <= old(tree.repr) && s.right.Branch?
    ensures s.right.left.Branch? && s.right.right.Branch?
    ensures ok <==> Opt(View(s.left), consts, host).Some? && Opt(View(s.right.left), consts, host).Some?
                    && Opt(View(s.right.right), consts, host).Some?
    ensures ok ==> tree.shape == Plug(c, s.(left := l, right := p)) && p.Branch? && p.data == s.right.data
                   && Opt(View(s.left), consts, host) == Some(View(l))
                   && Opt(View(s.right.left), consts, host) == Some(View(p.left))
                   && Opt(View(s.right.right), consts, host) == Some(View(p.right))
    decreases s, 0
  {
    tree.FocusNode(c, s);
    PresentChildren(s);
    p := s.right;
    ok, l := OptExpr(tree, it.left, consts, host, InLeft(c, it, s.data, s.right), s.left);
    if !ok {
      return;
    }
    tree.FocusNode(c, s.(left := l));
    ok, p := OptChildren(tree, it.right, consts, host, InRight(c, it, s.data, l), s.right);
  }

  /** A constant condition selects its branch; a constant that is no boolean is rejected. */
  method ChooseConstant(tree: TreeType, it: TreeNode, ghost c: Context, ghost s: Shape)
      returns (ok: bool, ghost s': Shape)
    requires tree.Valid() && s.Branch? && s.node == it && tree.shape == Plug(c, s)
    requires s.left.Branch? && s.right.Branch? && s.right.left.Branch? && s.right.right.Branch?
    modifies tree, tree.repr
    ensures tree.Valid() && tree.repr <= old(tree.repr)
    ensures ok <==> (s.left.data.Val? ==> s.left.data.value.Bool?)
    ensures ok ==> tree.shape == Plug(c, s')
    ensures ok ==> s' == if !s.left.data.Val? then s else if s.left.data.value.b then s.right.left else s.right.right
  {
    tree.FocusNode(c, s);
    ghost var pc := InRight(c, it, s.data, s.left);
    tree.FocusNode(InLeft(c, it, s.data, s.right), s.left);
    ok, s' := true, s;
    var cond := it.left.data;
    if cond.Val? {
      if !cond.value.Bool? {
        ok := false;
        return;
      }
      var branch;
      if cond.value.b {
        branch := tree.ReserveLeft(it.right, pc, s.right);
        s' := s.(right := s.right.left);
      } else {
        branch := tree.ReserveRight(it.right, pc, s.right);
        s' := s.(right := s.right.right);
      }
      branch := tree.ReserveRight(it, c, s');
      s' := s'.right;
    }
  }

  /** The tree `optimize_expression` leaves behind: trimmed, and folded as well when the optimizer is on. */
  function Optimized(t: Tree, enabled: bool, consts: Constants, host: Host): Option<Tree> {
    match Trim(t)
    case None => None
    case Some(u) => if enabled then Opt(u, consts, host) else Some(u)
  }

  /** It means what the writer of the tree meant, in every store that agrees with the constants. */
  lemma OptimizedMeans(t: Tree, enabled: bool, consts: Constants, st: Store, host: Host)
    requires Written(t) && Optimized(t, enabled, consts, host).Some? && Agrees(st, consts)
    ensures SameResult(Eval(Optimized(t, enabled, consts, host).value, st, host), Eval(Read(t), st, host))
  {
    if enabled {
      PassesKeepMeaning(t, consts, st, host);
    } else {
      TrimKeepsMeaning(t, host);
      assert Eval(Trim(t).value, st, host) == Eval(Read(t), st, host);
    }
  }

  /** `optimize_expression`: the whole tree, rewritten in place. */
  method OptimizeExpression(tree: TreeType, enabled: bool, consts: Constants, host: Host) returns (ok: bool)
    requires tree.Valid()
    modifies tree, tree.repr
    ensures tree.Valid() && fresh(tree.repr - old(tree.repr))
    ensures ok <==> Optimized(old(tree.Tree()), enabled, consts, host).Some?
    ensures ok ==> tree.Tree() == Optimized(old(tree.Tree()), enabled, consts, host).value
    ensures ok && Written(old(tree.Tree())) ==>
              forall st :: Agrees(st, consts) ==>
                SameResult(Eval(tree.Tree(), st, host), Eval(Read(old(tree.Tree())), st, host))
  {
    ghost var before := tree.Tree();
    ghost var s;
    ok, s := TrimExpr(tree, tree.mRoot, Top, tree.shape);
    if ok && enabled {
      ok, s := OptExpr(tree, tree.mRoot, consts, host, Top, s);
    }
    if ok && Written(before) {
      forall st | Agrees(st, consts)
        ensures SameResult(Eval(tree.Tree(), st, host), Eval(Read(before), st, host))
      {
        OptimizedMeans(before, enabled, consts, st, host);
      }
    }
  }
}
