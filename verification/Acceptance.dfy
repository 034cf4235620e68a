/**
 Which trees `optimize_expression` accepts, operator by operator: which operands must be there, which must not,
 and that a constant condition is a boolean. Said of the tree, not of the passes.
 */
module Acceptance {
  import opened Options
  import opened Signals
  import opened Trees
  import opened Evaluator
  import opened Optimizer
  import opened Trimmer
  import opened OptimizerHeap
  import opened ConstantExpressions

  // ----- the operators by their operands -----

  predicate IsCompound(s: Signal) {
    s.AddAsi? || s.SubAsi? || s.MulAsi? || s.DivAsi? || s.ModAsi? || s.PowAsi?
  }

  /** An operand on either side. */
  predicate TakesTwo(s: Signal) {
    || s.Add? || s.Div? || s.Mod? || s.Pow?
    || s.Und? || s.Abo? || s.Ueq? || s.Aeq? || s.Equ? || s.Neq?
    || s.And? || s.Or? || s.Asi? || IsCompound(s) || s.Pair?
  }

  /** A sign when nothing stands on the left, an operation on two operands otherwise. */
  predicate MayBeSign(s: Signal) { s.Sub? || s.Mul? }

  /** The operators the two passes deal with here. */
  predicate IsListed(s: Signal) { TakesTwo(s) || MayBeSign(s) || s.Not? || s.Minus? || s.Choice? }

  /** The operand stands there; a group does, whatever is in it. */
  predicate There(t: Tree) { t.Node? && !t.data.Null? }

  predicate Absent(t: Tree) { t.Node? && t.data.Null? }

  predicate IsAlternative(t: Tree) { t.Node? && t.data.Sig? && t.data.op.signal.Pair? }

  // ----- as written -----

  /** The tree with its groups merged into it and its signs marked. */
  function Merged(t: Tree): Tree {
    if t.Nil? then t
    else if t.data.Expr? then Merged(t.data.tree)
    else if !t.data.Sig? || !IsListed(t.data.op.signal) then t
    else if t.data.op.signal.Choice? then
      if t.right.Nil? then t
      else Node(t.data, Merged(t.left), Node(t.right.data, Merged(t.right.left), Merged(t.right.right)))
    else
      var s := t.data.op.signal;
      Node(if s.Sub? && Absent(t.left) then Sig(OperatorOf(Minus))
           else if s.Mul? && Absent(t.left) then Sig(OperatorOf(Escape))
           else t.data,
           Merged(t.left), Merged(t.right))
  }

  /** The operands an operator has as written are the ones it takes, at every depth and inside groups. What is
      assigned to and a condition must still be there once groups are merged. */
  predicate OperandsThere(t: Tree) {
    if t.Nil? then true
    else if t.data.Expr? then t.data.tree.Node? && OperandsThere(t.data.tree)
    else if !t.data.Sig? then true
    else
      var s := t.data.op.signal;
      t.left.Node? && t.right.Node? &&
      if TakesTwo(s) then
        There(t.left) && There(t.right) && OperandsThere(t.left) && OperandsThere(t.right)
        && (s.Asi? ==> There(Merged(t.left)))
      else if MayBeSign(s) || s.Minus? then There(t.right) && OperandsThere(t.left) && OperandsThere(t.right)
      else if s.Not? then Absent(t.left) && There(t.right) && OperandsThere(t.left) && OperandsThere(t.right)
      else if s.Choice? then
        There(t.left) && IsAlternative(t.right) && There(Merged(t.left))
        && OperandsThere(t.left) && OperandsThere(t.right.left) && OperandsThere(t.right.right)
      else true
  }

  lemma {:induction false} MergedIsNode(t: Tree)
    requires t.Node? && OperandsThere(t)
    ensures Merged(t).Node?
  {
    if t.data.Expr? {
      MergedIsNode(t.data.tree);
    }
  }

  /** What is to be shown of trimming one tree. */
  predicate TrimsTo(t: Tree) {
    Trim(t) == if OperandsThere(t) then Some(Merged(t)) else None
  }

  lemma ChoiceTrims(t: Tree)
    requires t.Node? && t.data.Sig? && t.data.op.signal.Choice? && TrimsTo(t.left)
    requires t.right.Node? ==> TrimsTo(t.right.left) && TrimsTo(t.right.right)
    requires t.left.Node? && OperandsThere(t.left) ==> Merged(t.left).Node?
    ensures TrimsTo(t)
  {
  }

  lemma OperatorTrims(t: Tree)
    requires t.Node? && t.data.Sig? && !t.data.op.signal.Choice? && TrimsTo(t.left) && TrimsTo(t.right)
    requires t.left.Node? && OperandsThere(t.left) ==> Merged(t.left).Node?
    ensures TrimsTo(t)
  {
  }

  /** Trimming accepts exactly these, and merges and marks what it accepts. */
  lemma {:induction false} TrimExactly(t: Tree)
    ensures Trim(t) == if OperandsThere(t) then Some(Merged(t)) else None
  {
    if t.Node? && t.data.Expr? {
      TrimExactly(t.data.tree);
    } else if t.Node? && t.data.Sig? {
      TrimExactly(t.left);
      if t.left.Node? && OperandsThere(t.left) {
        MergedIsNode(t.left);
      }
      if t.data.op.signal.Choice? {
        if t.right.Node? {
          TrimExactly(t.right.left);
          TrimExactly(t.right.right);
        }
        ChoiceTrims(t);
      } else {
        TrimExactly(t.right);
        OperatorTrims(t);
      }
    }
  }

  // ----- once groups are merged -----

  /** A condition whose value is known before the program runs must be a boolean. */
  ghost predicate KnownIsBoolean(c: Tree, consts: Constants, host: Host) {
    Constant(c, consts, host) ==> Always(c, true, consts, host) || Always(c, false, consts, host)
  }

  /** With groups merged the operands are still there, and constant conditions are booleans. Below a compound
      assignment and below `:` nothing is looked at. */
  ghost predicate Sensible(t: Tree, consts: Constants, host: Host) {
    if t.Nil? || !t.data.Sig? then true
    else
      var s := t.data.op.signal;
      t.left.Node? && t.right.Node? &&
      if IsCompound(s) || s.Pair? then There(t.left) && There(t.right)
      else if TakesTwo(s) || MayBeSign(s) then
        There(t.left) && There(t.right) && Sensible(t.left, consts, host) && Sensible(t.right, consts, host)
      else if s.Minus? then There(t.right) && Sensible(t.left, consts, host) && Sensible(t.right, consts, host)
      else if s.Not? then Sensible(t.left, consts, host) && Sensible(t.right, consts, host)
      else if s.Choice? then
        && There(t.left) && IsAlternative(t.right) && t.right.left.Node? && t.right.right.Node?
        && Sensible(t.left, consts, host) && Sensible(t.right.left, consts, host)
        && Sensible(t.right.right, consts, host) && KnownIsBoolean(t.left, consts, host)
      else true
  }

  lemma ConstantIsBoolean(c: Tree, consts: Constants, host: Host)
    requires Opt(c, consts, host).Some?
    ensures KnownIsBoolean(c, consts, host) <==>
            (IsValue(Opt(c, consts, host).value) ==> Opt(c, consts, host).value.data.value.Bool?)
  {
    ConstantExactly(c, consts, host);
    var v := Opt(c, consts, host).value;
    if IsValue(v) {
      if v.data.value.Bool? {
        ConditionExactly(c, consts, host);
      } else {
        var st := AgreeingStore(consts);
        BoolPreserved(c, consts, st, host);
        assert EvalBool(v, st, host).0.Fail?;
      }
    }
  }

  /** What is to be shown of folding one tree. */
  ghost predicate FoldsExactly(t: Tree, consts: Constants, host: Host) {
    Opt(t, consts, host).Some? <==> Sensible(t, consts, host)
  }

  lemma ChoiceFolds(t: Tree, consts: Constants, host: Host)
    requires t.Node? && t.data.Sig? && t.data.op.signal.Choice? && FoldsExactly(t.left, consts, host)
    requires t.right.Node? ==> FoldsExactly(t.right.left, consts, host) && FoldsExactly(t.right.right, consts, host)
    ensures FoldsExactly(t, consts, host)
  {
    if Opt(t.left, consts, host).Some? {
      ConstantIsBoolean(t.left, consts, host);
    }
  }

  lemma OperatorFolds(t: Tree, consts: Constants, host: Host)
    requires t.Node? && t.data.Sig? && !t.data.op.signal.Choice?
    requires FoldsExactly(t.left, consts, host) && FoldsExactly(t.right, consts, host)
    ensures FoldsExactly(t, consts, host)
  {
  }

  lemma {:induction false} OptExactly(t: Tree, consts: Constants, host: Host)
    ensures Opt(t, consts, host).Some? <==> Sensible(t, consts, host)
  {
    if t.Node? && t.data.Sig? {
      OptExactly(t.left, consts, host);
      if t.data.op.signal.Choice? {
        if t.right.Node? {
          OptExactly(t.right.left, consts, host);
          OptExactly(t.right.right, consts, host);
        }
        ChoiceFolds(t, consts, host);
      } else {
        OptExactly(t.right, consts, host);
        OperatorFolds(t, consts, host);
      }
    }
  }

  // ----- both passes -----

  ghost predicate Acceptable(t: Tree, enabled: bool, consts: Constants, host: Host) {
    OperandsThere(t) && (enabled ==> Sensible(Merged(t), consts, host))
  }

  /** `optimize_expression` accepts exactly these trees. */
  lemma OptimizedExactly(t: Tree, enabled: bool, consts: Constants, host: Host)
    ensures Optimized(t, enabled, consts, host).Some? <==> Acceptable(t, enabled, consts, host)
  {
    TrimExactly(t);
    OptExactly(Merged(t), consts, host);
  }
}
