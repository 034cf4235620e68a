/**
 What the built tree means: it is precedence-ordered, and it is the only precedence-ordered tree
 with its tokens. A reference parser that splits at the lowest operator gives the same tree.
 */
module Precedence {
  import opened Signals
  import opened Trees

  /** Every operator of the tree binds at level `low` or tighter. */
  predicate OpsAtLeast(t: Tree, low: int) {
    t.Nil? || ((t.data.Sig? ==> low <= t.data.op.level) && OpsAtLeast(t.left, low) && OpsAtLeast(t.right, low))
  }

  /** Every node groups to the left: looser or equal operators never sit below it on the right. */
  predicate LeftOrdered(t: Tree) {
    t.Node? && t.data.Sig? ==>
      OpsAtLeast(t.left, t.data.op.level) && OpsAtLeast(t.right, t.data.op.level + 1)
      && LeftOrdered(t.left) && LeftOrdered(t.right)
  }

  /** The order `build_tree` establishes. A node that is not an assignment groups to the left. The
      first assignment of a segment sits above all later ones, which hang from its right operand
      and group to the left there: `a = b = c = d` is `a = ((b = c) = d)`. */
  predicate Ordered(t: Tree) {
    t.Node? && t.data.Sig? ==>
      if t.data.op.IsAssignment() then
        OpsAtLeast(t.left, t.data.op.level + 1) && OpsAtLeast(t.right, t.data.op.level)
        && Ordered(t.left) && LeftOrdered(t.right)
      else
        OpsAtLeast(t.left, t.data.op.level) && OpsAtLeast(t.right, t.data.op.level + 1)
        && Ordered(t.left) && Ordered(t.right)
  }

  /** The two orders side by side: assignments on top first, or plain left grouping. */
  predicate OrderedIn(t: Tree, assignFirst: bool) {
    if assignFirst then Ordered(t) else LeftOrdered(t)
  }

  lemma {:induction false} OpsAtLeastMono(t: Tree, high: int, low: int)
    requires OpsAtLeast(t, high) && low <= high
    ensures OpsAtLeast(t, low)
  {
    if t.Node? {
      OpsAtLeastMono(t.left, high, low);
      OpsAtLeastMono(t.right, high, low);
    }
  }

  /** The root of an ordered tree is one of its loosest operators. */
  lemma RootLowest(t: Tree, assignFirst: bool)
    requires t.Node? && t.data.Sig? && OrderedIn(t, assignFirst)
    ensures OpsAtLeast(t, t.data.op.level)
  {
    var l := t.data.op.level;
    if assignFirst && t.data.op.IsAssignment() {
      OpsAtLeastMono(t.left, l + 1, l);
    } else {
      OpsAtLeastMono(t.right, l + 1, l);
    }
  }

  /** One insertion: a new operator together with its right operand. */
  function Insert(t: Tree, s: Operator, o: Token): Tree
    requires IsExpr(t)
  {
    if t.data.Sig? && t.data.op.level < s.level then t.(right := Insert(t.right, s, o))
    else if t.data.Sig? && t.data.op.level == s.level && t.data.op.IsAssignment() then
      t.(right := Node(Sig(s), t.right, Leaf(o)))
    else Node(Sig(s), t, Leaf(o))
  }

  lemma {:induction false} ClimbThenAttach(t: Tree, s: Operator, o: Token)
    requires IsExpr(t)
    ensures Climb(t, s).Node? && Attach(Climb(t, s), o) == Insert(t, s, o)
  {
    if !t.data.Sig? {
    } else if t.data.op.level < s.level {
      ClimbThenAttach(t.right, s, o);
    } else if t.data.op.level == s.level && t.data.op.IsAssignment() {
      var below := Node(Sig(s), t.right, Nil);
      assert Climb(t, s) == t.(right := below);
      assert Attach(below, o) == Node(Sig(s), t.right, Leaf(o));
    } else {
      assert Climb(t, s) == Node(Sig(s), t, Nil);
    }
  }

  lemma {:induction false} InsertOps(t: Tree, s: Operator, o: Token, low: int)
    requires IsExpr(t) && !o.Sig? && OpsAtLeast(t, low) && low <= s.level
    ensures OpsAtLeast(Insert(t, s, o), low)
  {
    assert OpsAtLeast(Leaf(o), low);
    if !t.data.Sig? {
    } else if t.data.op.level < s.level {
      InsertOps(t.right, s, o, low);
    } else if t.data.op.level == s.level && t.data.op.IsAssignment() {
      assert OpsAtLeast(Node(Sig(s), t.right, Leaf(o)), low);
    }
  }

  lemma {:induction false} InsertLeftOrdered(t: Tree, s: Operator, o: Token)
    requires IsExpr(t) && !o.Sig? && LeftOrdered(t) && !s.IsAssignment()
    ensures LeftOrdered(Insert(t, s, o))
  {
    if t.data.Sig? {
      RootLowest(t, false);
      if t.data.op.level < s.level {
        InsertLeftOrdered(t.right, s, o);
        InsertOps(t.right, s, o, t.data.op.level + 1);
      } else {
        OpsAtLeastMono(t, t.data.op.level, s.level);
      }
    }
  }

  /** Every insertion keeps the order. */
  lemma {:induction false} InsertOrdered(t: Tree, s: Operator, o: Token)
    requires IsExpr(t) && !o.Sig? && Ordered(t)
    ensures Ordered(Insert(t, s, o))
  {
    if t.data.Sig? {
      RootLowest(t, true);
      var x := t.data.op;
      if x.level < s.level {
        if x.IsAssignment() {
          InsertLeftOrdered(t.right, s, o);
          InsertOps(t.right, s, o, x.level);
        } else {
          InsertOrdered(t.right, s, o);
          InsertOps(t.right, s, o, x.level + 1);
        }
      } else if x.level == s.level && x.IsAssignment() {
      } else {
        OpsAtLeastMono(t, x.level, if s.IsAssignment() then s.level + 1 else s.level);
      }
    }
  }

  lemma {:induction false} BuildPrefixOrdered(signals: seq<Operator>, objects: seq<Token>, n: nat)
    requires Buildable(signals, objects) && 1 <= n <= |signals|
    ensures Ordered(Attach(BuildOpen(signals, objects, n), objects[n]))
  {
    if n > 1 {
      var before := Attach(BuildOpen(signals, objects, n - 1), objects[n - 1]);
      BuildPrefixOrdered(signals, objects, n - 1);
      AttachClosed(BuildOpen(signals, objects, n - 1), objects[n - 1]);
      InsertOrdered(before, signals[n - 1], objects[n]);
      ClimbThenAttach(before, signals[n - 1], objects[n]);
    }
  }

  /** Every built tree is precedence-ordered. */
  lemma BuildOrdered(signals: seq<Operator>, objects: seq<Token>)
    requires Buildable(signals, objects)
    ensures Ordered(Build(signals, objects))
  {
    BuildPrefixOrdered(signals, objects, |signals|);
  }

  /** An operator read at position i of a tree obeys the tree's bound. */
  lemma {:induction false} OpsAtLeastAt(t: Tree, low: int, i: nat)
    requires OpsAtLeast(t, low) && i < |InOrder(t)| && InOrder(t)[i].Sig?
    ensures low <= InOrder(t)[i].op.level
  {
    var k := |InOrder(t.left)|;
    if i < k {
      OpsAtLeastAt(t.left, low, i);
    } else if i > k {
      OpsAtLeastAt(t.right, low, i - k - 1);
    }
  }

  lemma {:induction false} InOrderNonEmpty(t: Tree)
    requires IsExpr(t)
    ensures |InOrder(t)| >= 1 && (|InOrder(t)| == 1 <==> !t.data.Sig?)
  {
    if t.data.Sig? {
      InOrderNonEmpty(t.left);
      InOrderNonEmpty(t.right);
    }
  }

  /** The bound an ordered tree puts on the operators left and right of its root. */
  function LeftBound(op: Operator, assignFirst: bool): int {
    if assignFirst && op.IsAssignment() then op.level + 1 else op.level
  }

  function RightBound(op: Operator, assignFirst: bool): int {
    if assignFirst && op.IsAssignment() then op.level else op.level + 1
  }

  lemma OrderedBounds(t: Tree, assignFirst: bool)
    requires t.Node? && t.data.Sig?
    ensures OrderedIn(t, assignFirst) <==>
              OpsAtLeast(t.left, LeftBound(t.data.op, assignFirst))
              && OpsAtLeast(t.right, RightBound(t.data.op, assignFirst))
              && OrderedIn(t.left, assignFirst) && OrderedIn(t.right, assignFirst && !t.data.op.IsAssignment())
  {
  }

  lemma InOrderSplit(t: Tree, i: nat)
    requires t.Node? && i < |InOrder(t)|
    ensures var k := |InOrder(t.left)|;
            InOrder(t)[i] ==
              if i < k then InOrder(t.left)[i] else if i == k then t.data else InOrder(t.right)[i - k - 1]
  {
  }

  /** Operators read to the left and right of the root obey the root's bounds. */
  lemma BoundsAt(t: Tree, assignFirst: bool, i: nat)
    requires t.Node? && t.data.Sig? && OrderedIn(t, assignFirst)
    requires i < |InOrder(t)| && InOrder(t)[i].Sig?
    ensures i < |InOrder(t.left)| ==> LeftBound(t.data.op, assignFirst) <= InOrder(t)[i].op.level
    ensures i > |InOrder(t.left)| ==> RightBound(t.data.op, assignFirst) <= InOrder(t)[i].op.level
  {
    InOrderSplit(t, i);
    OrderedBounds(t, assignFirst);
    var k := |InOrder(t.left)|;
    if i < k {
      OpsAtLeastAt(t.left, LeftBound(t.data.op, assignFirst), i);
    } else if i > k {
      OpsAtLeastAt(t.right, RightBound(t.data.op, assignFirst), i - k - 1);
    }
  }

  /** Two ordered trees over the same tokens cannot disagree about which operator is on top. */
  lemma RootsAgree(t: Tree, u: Tree, assignFirst: bool)
    requires IsExpr(t) && IsExpr(u) && t.data.Sig? && u.data.Sig?
    requires OrderedIn(t, assignFirst) && OrderedIn(u, assignFirst)
    requires InOrder(t) == InOrder(u)
    ensures |InOrder(t.left)| >= |InOrder(u.left)|
  {
    var p, q := |InOrder(t.left)|, |InOrder(u.left)|;
    if p < q {
      InOrderSplit(t, p);
      InOrderSplit(u, q);
      BoundsAt(t, assignFirst, q);
      BoundsAt(u, assignFirst, p);
      assert false;
    }
  }

  /** The order determines the tree. */
  lemma {:induction false} OrderedUnique(t: Tree, u: Tree, assignFirst: bool)
    requires IsExpr(t) && IsExpr(u) && InOrder(t) == InOrder(u)
    requires OrderedIn(t, assignFirst) && OrderedIn(u, assignFirst)
    ensures t == u
  {
    InOrderNonEmpty(t);
    InOrderNonEmpty(u);
    if !t.data.Sig? {
      assert InOrder(t)[0] == t.data && InOrder(u)[0] == u.data;
    } else {
      RootsAgree(t, u, assignFirst);
      RootsAgree(u, t, assignFirst);
      var k := |InOrder(t.left)|;
      assert InOrder(t)[..k] == InOrder(t.left) && InOrder(u)[..k] == InOrder(u.left);
      assert InOrder(t)[k] == t.data && InOrder(u)[k] == u.data;
      assert InOrder(t)[k + 1..] == InOrder(t.right) && InOrder(u)[k + 1..] == InOrder(u.right);
      OrderedUnique(t.left, u.left, assignFirst);
      OrderedUnique(t.right, u.right, assignFirst && !t.data.op.IsAssignment());
    }
  }

  /** The built tree is the only ordered expression that reads back as its tokens. */
  lemma BuildIsTheOnlyOrderedTree(signals: seq<Operator>, objects: seq<Token>, t: Tree)
    requires Buildable(signals, objects)
    requires IsExpr(t) && InOrder(t) == Interleave(signals, objects)
    ensures Ordered(t) <==> t == Build(signals, objects)
  {
    BuildOrdered(signals, objects);
    BuildInOrder(signals, objects);
    if Ordered(t) {
      OrderedUnique(t, Build(signals, objects), true);
    }
  }

  lemma {:induction false} NoAssignmentsLeftOrdered(t: Tree)
    requires IsExpr(t) && (forall i :: 0 <= i < |InOrder(t)| && InOrder(t)[i].Sig? ==> !InOrder(t)[i].op.IsAssignment())
    ensures Ordered(t) <==> LeftOrdered(t)
  {
    if t.data.Sig? {
      var k := |InOrder(t.left)|;
      assert InOrder(t)[k] == t.data;
      assert forall i :: 0 <= i < k ==> InOrder(t)[i] == InOrder(t.left)[i];
      assert forall i :: 0 <= i < |InOrder(t.right)| ==> InOrder(t)[i + k + 1] == InOrder(t.right)[i];
      NoAssignmentsLeftOrdered(t.left);
      NoAssignmentsLeftOrdered(t.right);
    }
  }

  lemma {:induction false} InterleaveOperators(signals: seq<Operator>, objects: seq<Token>, i: nat)
    requires Buildable(signals, objects) || (signals == [] && |objects| == 1 && !objects[0].Sig?)
    requires i < |Interleave(signals, objects)| && Interleave(signals, objects)[i].Sig?
    ensures Interleave(signals, objects)[i].op in signals
  {
    if signals != [] {
      var n := |signals|;
      if i < |Interleave(signals[..n - 1], objects[..n])| {
        InterleaveOperators(signals[..n - 1], objects[..n], i);
      }
    }
  }

  /** Without assignments the order is the textbook one: equal levels group to the left. */
  lemma BuildWithoutAssignments(signals: seq<Operator>, objects: seq<Token>, t: Tree)
    requires Buildable(signals, objects)
    requires forall s :: s in signals ==> !s.IsAssignment()
    requires IsExpr(t) && InOrder(t) == Interleave(signals, objects)
    ensures LeftOrdered(t) <==> t == Build(signals, objects)
  {
    forall i | 0 <= i < |InOrder(t)| && InOrder(t)[i].Sig?
      ensures !InOrder(t)[i].op.IsAssignment()
    {
      InterleaveOperators(signals, objects, i);
    }
    NoAssignmentsLeftOrdered(t);
    BuildIsTheOnlyOrderedTree(signals, objects, t);
  }

  // ----- the reference parser: split at the lowest operator -----

  /** Position of the last operator among the loosest ones. */
  function LowestLast(signals: seq<Operator>): (k: nat)
    requires signals != []
    ensures k < |signals|
    ensures forall i :: 0 <= i < k ==> signals[k].level <= signals[i].level
    ensures forall i :: k < i < |signals| ==> signals[k].level < signals[i].level
  {
    var n := |signals| - 1;
    if n == 0 then 0
    else
      var k := LowestLast(signals[..n]);
      if signals[n].level <= signals[k].level then n else k
  }

  /** Position of the first operator among the loosest ones. */
  function LowestFirst(signals: seq<Operator>): (k: nat)
    requires signals != []
    ensures k < |signals|
    ensures forall i :: 0 <= i < k ==> signals[k].level < signals[i].level
    ensures forall i :: k < i < |signals| ==> signals[k].level <= signals[i].level
  {
    var n := |signals| - 1;
    if n == 0 then 0
    else
      var k := LowestFirst(signals[..n]);
      if signals[n].level < signals[k].level then n else k
  }

  function Pivot(signals: seq<Operator>, assignFirst: bool): (k: nat)
    requires signals != []
    ensures k < |signals|
  {
    var k := LowestLast(signals);
    if assignFirst && signals[k].IsAssignment() then LowestFirst(signals) else k
  }

  /** Splits at the pivot and parses both sides; the right side of an assignment groups to the left. */
  function SplitTree(signals: seq<Operator>, objects: seq<Token>, assignFirst: bool): Tree
    requires |objects| == |signals| + 1
    decreases |signals|
  {
    if signals == [] then Leaf(objects[0])
    else
      var k := Pivot(signals, assignFirst);
      Node(Sig(signals[k]), SplitTree(signals[..k], objects[..k + 1], assignFirst),
           SplitTree(signals[k + 1..], objects[k + 1..], assignFirst && !signals[k].IsAssignment()))
  }

  lemma {:induction false} InterleaveSplit(signals: seq<Operator>, objects: seq<Token>, k: nat)
    requires |objects| == |signals| + 1 && k < |signals|
    ensures Interleave(signals, objects) ==
            Interleave(signals[..k], objects[..k + 1]) + [Sig(signals[k])]
            + Interleave(signals[k + 1..], objects[k + 1..])
    decreases |signals|
  {
    var n := |signals| - 1;
    if k < n {
      InterleaveSplit(signals[..n], objects[..n + 1], k);
      assert signals[..n][..k] == signals[..k] && objects[..n + 1][..k + 1] == objects[..k + 1];
      assert signals[..n][k + 1..] == signals[k + 1..][..n - k - 1];
      assert objects[..n + 1][k + 1..] == objects[k + 1..][..n - k];
    }
  }

  lemma {:induction false} SplitTreeParts(signals: seq<Operator>, objects: seq<Token>, assignFirst: bool)
    requires signals != [] && |objects| == |signals| + 1
    ensures var k, t := Pivot(signals, assignFirst), SplitTree(signals, objects, assignFirst);
      && t.Node? && t.data == Sig(signals[k]) && t.left == SplitTree(signals[..k], objects[..k + 1], assignFirst)
      && t.right == SplitTree(signals[k + 1..], objects[k + 1..], assignFirst && !signals[k].IsAssignment())
  {
  }

  lemma {:induction false} SplitTreeOps(signals: seq<Operator>, objects: seq<Token>, assignFirst: bool, low: int)
    requires |objects| == |signals| + 1 && NoSignals(objects)
    requires forall i :: 0 <= i < |signals| ==> low <= signals[i].level
    ensures OpsAtLeast(SplitTree(signals, objects, assignFirst), low)
    decreases |signals|
  {
    if signals != [] {
      var k := Pivot(signals, assignFirst);
      SplitTreeOps(signals[..k], objects[..k + 1], assignFirst, low);
      SplitTreeOps(signals[k + 1..], objects[k + 1..], assignFirst && !signals[k].IsAssignment(), low);
      SplitTreeParts(signals, objects, assignFirst);
    }
  }

  lemma PivotBounds(signals: seq<Operator>, assignFirst: bool)
    requires signals != []
    ensures var k := Pivot(signals, assignFirst);
            (forall i :: 0 <= i < k ==> LeftBound(signals[k], assignFirst) <= signals[i].level)
            && (forall i :: k < i < |signals| ==> RightBound(signals[k], assignFirst) <= signals[i].level)
  {
    var last, first := LowestLast(signals), LowestFirst(signals);
    assert signals[last].level == signals[first].level;
  }

  lemma {:induction false} SplitTreeIsExpr(signals: seq<Operator>, objects: seq<Token>, assignFirst: bool)
    requires |objects| == |signals| + 1 && NoSignals(objects)
    ensures IsExpr(SplitTree(signals, objects, assignFirst))
    decreases |signals|
  {
    if signals == [] {
      assert IsExpr(Leaf(objects[0]));
    } else {
      var k := Pivot(signals, assignFirst);
      SplitTreeIsExpr(signals[..k], objects[..k + 1], assignFirst);
      SplitTreeIsExpr(signals[k + 1..], objects[k + 1..], assignFirst && !signals[k].IsAssignment());
      SplitTreeParts(signals, objects, assignFirst);
    }
  }

  lemma {:induction false} SplitTreeInOrder(signals: seq<Operator>, objects: seq<Token>, assignFirst: bool)
    requires |objects| == |signals| + 1
    ensures InOrder(SplitTree(signals, objects, assignFirst)) == Interleave(signals, objects)
    decreases |signals|
  {
    if signals == [] {
      assert objects == [objects[0]];
    } else {
      var k := Pivot(signals, assignFirst);
      SplitTreeInOrder(signals[..k], objects[..k + 1], assignFirst);
      SplitTreeInOrder(signals[k + 1..], objects[k + 1..], assignFirst && !signals[k].IsAssignment());
      InterleaveSplit(signals, objects, k);
    }
  }

  lemma {:induction false} SplitTreeOrdered(signals: seq<Operator>, objects: seq<Token>, assignFirst: bool)
    requires |objects| == |signals| + 1 && NoSignals(objects)
    ensures OrderedIn(SplitTree(signals, objects, assignFirst), assignFirst)
    decreases |signals|
  {
    if signals != [] {
      var k := Pivot(signals, assignFirst);
      var below := assignFirst && !signals[k].IsAssignment();
      var left := SplitTree(signals[..k], objects[..k + 1], assignFirst);
      var right := SplitTree(signals[k + 1..], objects[k + 1..], below);
      SplitTreeOrdered(signals[..k], objects[..k + 1], assignFirst);
      SplitTreeOrdered(signals[k + 1..], objects[k + 1..], below);
      SplitBounds(signals, objects, assignFirst);
      OrderedBounds(Node(Sig(signals[k]), left, right), assignFirst);
    }
  }

  lemma SplitBounds(signals: seq<Operator>, objects: seq<Token>, assignFirst: bool)
    requires signals != [] && |objects| == |signals| + 1 && NoSignals(objects)
    ensures var k := Pivot(signals, assignFirst);
      && OpsAtLeast(SplitTree(signals[..k], objects[..k + 1], assignFirst), LeftBound(signals[k], assignFirst))
      && OpsAtLeast(SplitTree(signals[k + 1..], objects[k + 1..], assignFirst && !signals[k].IsAssignment()),
                    RightBound(signals[k], assignFirst))
  {
    var k := Pivot(signals, assignFirst);
    PivotBounds(signals, assignFirst);
    SplitTreeOps(signals[..k], objects[..k + 1], assignFirst, LeftBound(signals[k], assignFirst));
    SplitTreeOps(signals[k + 1..], objects[k + 1..], assignFirst && !signals[k].IsAssignment(),
                 RightBound(signals[k], assignFirst));
  }

  /** Growing the tree one operator at a time gives the tree of the reference parser. */
  lemma BuildIsSplitTree(signals: seq<Operator>, objects: seq<Token>)
    requires Buildable(signals, objects)
    ensures Build(signals, objects) == SplitTree(signals, objects, true)
  {
    SplitTreeIsExpr(signals, objects, true);
    SplitTreeInOrder(signals, objects, true);
    SplitTreeOrdered(signals, objects, true);
    BuildIsTheOnlyOrderedTree(signals, objects, SplitTree(signals, objects, true));
  }

  /** Assignment is not right-associative in chains of three or more: `a = b = c = d` is `a = ((b = c) = d)`. */
  lemma AssignmentChain(a: Token, b: Token, c: Token, d: Token)
    requires !a.Sig? && !b.Sig? && !c.Sig? && !d.Sig?
    ensures Build([OperatorOf(Asi), OperatorOf(Asi), OperatorOf(Asi)], [a, b, c, d])
         == Chain(OperatorOf(Asi), a, b, c, d)
  {
    var asi := OperatorOf(Asi);
    ChainIsOrdered(asi, a, b, c, d);
    ChainInOrder(asi, a, b, c, d);
    BuildIsTheOnlyOrderedTree([asi, asi, asi], [a, b, c, d], Chain(asi, a, b, c, d));
  }

  function Chain(s: Operator, a: Token, b: Token, c: Token, d: Token): Tree {
    Node(Sig(s), Leaf(a), Node(Sig(s), Node(Sig(s), Leaf(b), Leaf(c)), Leaf(d)))
  }

  lemma ChainIsOrdered(s: Operator, a: Token, b: Token, c: Token, d: Token)
    requires s.IsAssignment() && !a.Sig? && !b.Sig? && !c.Sig? && !d.Sig?
    ensures IsExpr(Chain(s, a, b, c, d)) && Ordered(Chain(s, a, b, c, d))
  {
    LeafIsOrdered(a, s.level);
    LeafIsOrdered(b, s.level);
    LeafIsOrdered(c, s.level);
    LeafIsOrdered(d, s.level);
    var inner := Node(Sig(s), Leaf(b), Leaf(c));
    assert IsExpr(inner) && LeftOrdered(inner) && OpsAtLeast(inner, s.level);
    var right := Node(Sig(s), inner, Leaf(d));
    assert IsExpr(right) && LeftOrdered(right) && OpsAtLeast(right, s.level);
  }

  lemma LeafIsOrdered(t: Token, level: int)
    requires !t.Sig?
    ensures IsExpr(Leaf(t)) && Ordered(Leaf(t)) && LeftOrdered(Leaf(t))
    ensures OpsAtLeast(Leaf(t), level) && OpsAtLeast(Leaf(t), level + 1)
  {
  }

  lemma ChainInOrder(s: Operator, a: Token, b: Token, c: Token, d: Token)
    ensures InOrder(Chain(s, a, b, c, d)) == Interleave([s, s, s], [a, b, c, d])
  {
    ThreeInterleaved(s, a, b, c, d);
    var inner := Node(Sig(s), Leaf(b), Leaf(c));
    assert InOrder(inner) == [b] + [Sig(s)] + [c] by { LeafInOrder(b); LeafInOrder(c); }
    assert InOrder(Node(Sig(s), inner, Leaf(d))) == [b, Sig(s), c] + [Sig(s)] + [d] by { LeafInOrder(d); }
    LeafInOrder(a);
  }

  lemma LeafInOrder(t: Token)
    ensures InOrder(Leaf(t)) == [t]
  {
  }

  lemma ThreeInterleaved(s: Operator, a: Token, b: Token, c: Token, d: Token)
    ensures Interleave([s, s, s], [a, b, c, d]) == [a, Sig(s), b, Sig(s), c, Sig(s), d]
  {
    InterleaveSnoc([], [a], s, b);
    InterleaveSnoc([s], [a, b], s, c);
    InterleaveSnoc([s, s], [a, b, c], s, d);
    assert [] + [s] == [s] && [a] + [b] == [a, b];
    assert [s] + [s] == [s, s] && [a, b] + [c] == [a, b, c];
    assert [s, s] + [s] == [s, s, s] && [a, b, c] + [d] == [a, b, c, d];
  }
}
