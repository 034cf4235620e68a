/**
 When a built tree groups its assignments to the right. `build_tree` always inserts at the first node of
 equal level on the right spine, so two assignments in a row group to the right and three do not.
 */
module AssignmentChains {
  import opened Signals
  import opened Trees
  import opened Precedence

  /** The textbook order: an assignment groups to the right, any other operator to the left. */
  predicate RightOrdered(t: Tree) {
    t.Node? && t.data.Sig? ==>
      (if t.data.op.IsAssignment() then
         OpsAtLeast(t.left, t.data.op.level + 1) && OpsAtLeast(t.right, t.data.op.level)
       else
         OpsAtLeast(t.left, t.data.op.level) && OpsAtLeast(t.right, t.data.op.level + 1))
      && RightOrdered(t.left) && RightOrdered(t.right)
  }

  /** Three assignments with nothing looser between the first and the third. */
  predicate IsTriple(s: seq<Operator>, i: int, j: int, k: int) {
    && 0 <= i < j < k < |s| && s[i].IsAssignment() && s[j].IsAssignment() && s[k].IsAssignment()
    && (forall m :: i < m < k ==> s[m].level >= ASSIGNMENT_LEVEL)
  }

  ghost predicate HasTriple(s: seq<Operator>) {
    exists i, j, k :: IsTriple(s, i, j, k)
  }

  predicate IsPair(s: seq<Operator>, i: int, j: int) {
    0 <= i < j < |s| && s[i].IsAssignment() && s[j].IsAssignment()
  }

  ghost predicate HasPair(s: seq<Operator>) {
    exists i, j :: IsPair(s, i, j)
  }

  predicate AllAtLeast(s: seq<Operator>, low: int) {
    forall i :: 0 <= i < |s| ==> low <= s[i].level
  }

  // ----- the operators of a tree -----

  function Operators(tokens: seq<Token>): seq<Operator> {
    if tokens == [] then []
    else (if tokens[0].Sig? then [tokens[0].op] else []) + Operators(tokens[1..])
  }

  lemma {:induction false} OperatorsConcat(a: seq<Token>, b: seq<Token>)
    ensures Operators(a + b) == Operators(a) + Operators(b)
  {
    if a == [] {
      assert a + b == b;
    } else {
      OperatorsConcat(a[1..], b);
      assert (a + b)[0] == a[0] && (a + b)[1..] == a[1..] + b;
      var first := if a[0].Sig? then [a[0].op] else [];
      assert first + (Operators(a[1..]) + Operators(b)) == (first + Operators(a[1..])) + Operators(b);
    }
  }

  lemma OperatorsOne(t: Token)
    ensures Operators([t]) == if t.Sig? then [t.op] else []
  {
    assert [t][1..] == [];
  }

  function OperatorsOf(t: Tree): seq<Operator> {
    Operators(InOrder(t))
  }

  lemma OperatorsOfNode(t: Tree)
    requires t.Node? && t.data.Sig?
    ensures OperatorsOf(t) == OperatorsOf(t.left) + [t.data.op] + OperatorsOf(t.right)
  {
    OperatorsConcat(InOrder(t.left) + [t.data], InOrder(t.right));
    OperatorsConcat(InOrder(t.left), [t.data]);
    OperatorsOne(t.data);
  }

  lemma OperatorsOfLeaf(t: Tree)
    requires IsExpr(t) && !t.data.Sig?
    ensures OperatorsOf(t) == []
  {
    OperatorsOne(t.data);
    assert InOrder(t) == [t.data];
  }

  lemma {:induction false} InterleavedOperators(signals: seq<Operator>, objects: seq<Token>)
    requires |objects| == |signals| + 1 && NoSignals(objects)
    ensures Operators(Interleave(signals, objects)) == signals
    decreases |signals|
  {
    if signals == [] {
      assert objects == [objects[0]];
      OperatorsOne(objects[0]);
    } else {
      var n := |signals| - 1;
      InterleavedOperators(signals[..n], objects[..n + 1]);
      OperatorsSnoc(Interleave(signals[..n], objects[..n + 1]), signals[n], objects[n + 1]);
      assert signals == signals[..n] + [signals[n]];
    }
  }

  lemma OperatorsSnoc(body: seq<Token>, s: Operator, o: Token)
    requires !o.Sig?
    ensures Operators(body + [Sig(s), o]) == Operators(body) + [s]
  {
    OperatorsConcat(body, [Sig(s), o]);
    assert [Sig(s), o] == [Sig(s)] + [o];
    OperatorsConcat([Sig(s)], [o]);
    OperatorsOne(Sig(s));
    OperatorsOne(o);
  }

  lemma {:induction false} BoundOfOperators(t: Tree, low: int)
    requires IsExpr(t)
    ensures OpsAtLeast(t, low) <==> AllAtLeast(OperatorsOf(t), low)
  {
    if t.data.Sig? {
      OperatorsOfNode(t);
      BoundOfOperators(t.left, low);
      BoundOfOperators(t.right, low);
      BoundOfConcat(OperatorsOf(t.left), t.data.op, OperatorsOf(t.right), low);
    } else {
      OperatorsOfLeaf(t);
    }
  }

  lemma BoundOfConcat(a: seq<Operator>, x: Operator, b: seq<Operator>, low: int)
    ensures AllAtLeast(a + [x] + b, low) <==> AllAtLeast(a, low) && low <= x.level && AllAtLeast(b, low)
  {
    var s := a + [x] + b;
    assert forall i :: 0 <= i < |a| ==> s[i] == a[i];
    assert s[|a|] == x;
    assert forall i :: 0 <= i < |b| ==> b[i] == s[|a| + 1 + i];
  }

  // ----- runs of assignments -----

  /** A looser operator keeps triples apart. */
  lemma TripleSeparated(a: seq<Operator>, x: Operator, b: seq<Operator>)
    requires x.level < ASSIGNMENT_LEVEL
    ensures HasTriple(a + [x] + b) <==> HasTriple(a) || HasTriple(b)
  {
    if i, j, k :| IsTriple(a + [x] + b, i, j, k) {
      TripleOnOneSide(a, x, b, i, j, k);
    }
    var s, n := a + [x] + b, |a|;
    if i, j, k :| IsTriple(a, i, j, k) {
      assert IsTriple(s, i, j, k);
    }
    if i, j, k :| IsTriple(b, i, j, k) {
      assert forall m :: n < m < |s| ==> b[m - n - 1] == s[m];
      assert IsTriple(s, n + 1 + i, n + 1 + j, n + 1 + k);
    }
  }

  lemma TripleOnOneSide(a: seq<Operator>, x: Operator, b: seq<Operator>, i: int, j: int, k: int)
    requires x.level < ASSIGNMENT_LEVEL && IsTriple(a + [x] + b, i, j, k)
    ensures HasTriple(a) || HasTriple(b)
  {
    var s, n := a + [x] + b, |a|;
    assert s[n] == x && forall m :: 0 <= m < n ==> a[m] == s[m];
    if k < n {
      assert IsTriple(a, i, j, k);
    } else {
      assert !s[n].IsAssignment() && k != n && i != n;
      assert forall m :: n < m < |s| ==> b[m - n - 1] == s[m];
      assert forall m :: 0 <= m < |b| ==> b[m] == s[n + 1 + m];
      assert IsTriple(b, i - n - 1, j - n - 1, k - n - 1);
    }
  }

  /** After tighter operators and an assignment, two more assignments make a triple. */
  lemma TripleAfterFirst(a: seq<Operator>, x: Operator, b: seq<Operator>)
    requires x.IsAssignment() && AllAtLeast(a, ASSIGNMENT_LEVEL + 1) && AllAtLeast(b, ASSIGNMENT_LEVEL)
    ensures HasTriple(a + [x] + b) <==> HasPair(b)
  {
    var s, n := a + [x] + b, |a|;
    assert forall m :: 0 <= m < |b| ==> b[m] == s[n + 1 + m];
    assert forall m :: 0 <= m < n ==> s[m] == a[m];
    assert s[n] == x;
    if i, j, k :| IsTriple(s, i, j, k) {
      assert n <= i;
      assert IsPair(b, j - n - 1, k - n - 1);
    }
    if i, j :| IsPair(b, i, j) {
      assert forall m :: n < m < |s| ==> s[m] == b[m - n - 1];
      assert IsTriple(s, n, n + 1 + i, n + 1 + j);
    }
  }

  /** Before an assignment followed by tighter operators, one more assignment makes a pair. */
  lemma PairBeforeLast(a: seq<Operator>, x: Operator, b: seq<Operator>)
    requires x.IsAssignment() && AllAtLeast(a, ASSIGNMENT_LEVEL) && AllAtLeast(b, ASSIGNMENT_LEVEL + 1)
    ensures HasPair(a + [x] + b) <==> !AllAtLeast(a, ASSIGNMENT_LEVEL + 1)
  {
    var s, n := a + [x] + b, |a|;
    assert forall m :: 0 <= m < n ==> s[m] == a[m];
    assert s[n] == x;
    assert forall m :: n < m < |s| ==> s[m] == b[m - n - 1];
    if i, j :| IsPair(s, i, j) {
      assert j <= n && a[i].level == ASSIGNMENT_LEVEL;
    }
    if !AllAtLeast(a, ASSIGNMENT_LEVEL + 1) {
      var i :| 0 <= i < n && a[i].level < ASSIGNMENT_LEVEL + 1;
      assert IsPair(s, i, n);
    }
  }

  lemma NoAssignmentNoPair(s: seq<Operator>)
    requires AllAtLeast(s, ASSIGNMENT_LEVEL + 1)
    ensures !HasPair(s) && !HasTriple(s)
  {
  }

  // ----- trees -----

  /** Without assignments the three orders are one. */
  lemma {:induction false} TightTrees(t: Tree)
    requires IsExpr(t) && OpsAtLeast(t, ASSIGNMENT_LEVEL + 1)
    ensures LeftOrdered(t) <==> RightOrdered(t)
    ensures Ordered(t) <==> RightOrdered(t)
  {
    if t.data.Sig? {
      TightTrees(t.left);
      TightTrees(t.right);
    }
  }

  /** Below the first assignment the others group to the left, which is also to the right when there is
      at most one. */
  lemma BelowFirst(t: Tree)
    requires IsExpr(t) && LeftOrdered(t) && OpsAtLeast(t, ASSIGNMENT_LEVEL)
    ensures RightOrdered(t) <==> !HasPair(OperatorsOf(t))
  {
    if !t.data.Sig? {
      OperatorsOfLeaf(t);
    } else if t.data.op.IsAssignment() {
      OperatorsOfNode(t);
      BoundOfOperators(t.left, ASSIGNMENT_LEVEL);
      BoundOfOperators(t.left, ASSIGNMENT_LEVEL + 1);
      BoundOfOperators(t.right, ASSIGNMENT_LEVEL + 1);
      PairBeforeLast(OperatorsOf(t.left), t.data.op, OperatorsOf(t.right));
      OpsAtLeastMono(t.right, ASSIGNMENT_LEVEL + 1, ASSIGNMENT_LEVEL);
      TightTrees(t.right);
      if OpsAtLeast(t.left, ASSIGNMENT_LEVEL + 1) { TightTrees(t.left); }
    } else {
      RootLowest(t, false);
      OpsAtLeastMono(t, t.data.op.level, ASSIGNMENT_LEVEL + 1);
      TightTrees(t);
      BoundOfOperators(t, ASSIGNMENT_LEVEL + 1);
      NoAssignmentNoPair(OperatorsOf(t));
    }
  }

  lemma {:induction false} OrderedIsRightOrdered(t: Tree)
    requires IsExpr(t) && Ordered(t)
    ensures RightOrdered(t) <==> !HasTriple(OperatorsOf(t))
  {
    if !t.data.Sig? {
      OperatorsOfLeaf(t);
    } else if t.data.op.level < ASSIGNMENT_LEVEL {
      OperatorsOfNode(t);
      OrderedIsRightOrdered(t.left);
      OrderedIsRightOrdered(t.right);
      TripleSeparated(OperatorsOf(t.left), t.data.op, OperatorsOf(t.right));
    } else if t.data.op.IsAssignment() {
      OperatorsOfNode(t);
      TightTrees(t.left);
      BelowFirst(t.right);
      BoundOfOperators(t.left, ASSIGNMENT_LEVEL + 1);
      BoundOfOperators(t.right, ASSIGNMENT_LEVEL);
      TripleAfterFirst(OperatorsOf(t.left), t.data.op, OperatorsOf(t.right));
    } else {
      RootLowest(t, true);
      OpsAtLeastMono(t, t.data.op.level, ASSIGNMENT_LEVEL + 1);
      TightTrees(t);
      BoundOfOperators(t, ASSIGNMENT_LEVEL + 1);
      NoAssignmentNoPair(OperatorsOf(t));
    }
  }

  /** The built tree groups its assignments to the right exactly when no three of them stand in the list
      without a looser operator between the first and the third. */
  lemma BuildIsRightOrdered(signals: seq<Operator>, objects: seq<Token>)
    requires Buildable(signals, objects)
    ensures RightOrdered(Build(signals, objects)) <==> !HasTriple(signals)
  {
    BuildOrdered(signals, objects);
    BuildInOrder(signals, objects);
    InterleavedOperators(signals, objects);
    OrderedIsRightOrdered(Build(signals, objects));
  }
}
