/**
 `build_tree` and `gen_tree`: the expression tree is grown in place along its right spine.
 */
module TreeBuilder {
  import opened Options
  import opened Signals
  import opened Trees
  import opened Precedence
  import opened TreeHeap
  import opened Parser
  import opened Evaluator
  import opened Optimizer
  import opened OptimizerHeap

  // ----- the right spine, seen as values -----

  /** A context that only ever goes right. */
  ghost predicate RightOnly(c: Context) {
    c.Top? || (c.InRight? && RightOnly(c.up))
  }

  ghost function PlugTree(c: Context, t: Tree): Tree {
    match c
    case Top => t
    case InLeft(up, _, d, r) => PlugTree(up, Node(d, t, View(r)))
    case InRight(up, _, d, l) => PlugTree(up, Node(d, View(l), t))
  }

  lemma {:induction false} PlugView(c: Context, s: Shape)
    ensures View(Plug(c, s)) == PlugTree(c, View(s))
  {
    match c
    case Top =>
    case InLeft(up, n, d, r) => PlugView(up, Branch(n, d, s, r));
    case InRight(up, n, d, l) => PlugView(up, Branch(n, d, l, s));
  }

  lemma {:induction false} PlugAttach(c: Context, t: Tree, o: Token)
    requires RightOnly(c) && t.Node?
    ensures PlugTree(c, t).Node? && Attach(PlugTree(c, t), o) == PlugTree(c, Attach(t, o))
  {
    if c.InRight? {
      PlugAttach(c.up, Node(c.data, View(c.left), t), o);
    }
  }

  lemma {:induction false} ClimbOps(t: Tree, s: Operator, low: int)
    requires IsExpr(t) && OpsAtLeast(t, low) && low <= s.level
    ensures OpsAtLeast(Climb(t, s), low)
  {
    if t.right.Node? && t.data.op.level < s.level {
      ClimbOps(t.right, s, low);
    } else if t.right.Node? && t.data.op.level == s.level && t.data.op.IsAssignment() {
      assert OpsAtLeast(Node(Sig(s), t.right, Nil), low);
    }
  }

  lemma {:induction false} AttachOps(t: Tree, o: Token, low: int)
    requires t.Node? && OpsAtLeast(t, low) && !o.Sig?
    ensures OpsAtLeast(Attach(t, o), low)
  {
    if t.right.Node? {
      AttachOps(t.right, o, low);
    } else {
      assert OpsAtLeast(Leaf(o), low);
    }
  }

  /** The new operator takes the place of `it` and has it on its left. */
  method PlaceAbove(tree: TreeType, it: TreeNode, signal: Operator, ghost rc: Context, ghost rs: Shape)
      returns (node: TreeNode, ghost s: Shape)
    requires tree.Valid() && it == RootOf(rs) && tree.shape == Plug(rc, rs)
    modifies tree, tree.repr
    ensures tree.Valid() && fresh(tree.repr - old(tree.repr))
    ensures s == Branch(node, Sig(signal), rs, Empty) && tree.shape == Plug(rc, s)
    ensures tree.Tree() == PlugTree(rc, Node(Sig(signal), View(rs), Nil))
  {
    node := tree.EmplaceRootLeft(it, Sig(signal), rc, rs);
    s := Branch(node, Sig(signal), rs, Empty);
    PlugView(rc, s);
  }

  /** The new operator takes the place of the right child of `it` and has it on its left. */
  method PlaceBelow(tree: TreeType, it: TreeNode, signal: Operator, ghost rc: Context, ghost rs: Shape)
      returns (node: TreeNode, ghost c: Context, ghost s: Shape)
    requires tree.Valid() && rs.Branch? && it == rs.node && tree.shape == Plug(rc, rs)
    modifies tree, tree.repr
    ensures tree.Valid() && fresh(tree.repr - old(tree.repr))
    ensures s == Branch(node, Sig(signal), rs.right, Empty) && tree.shape == Plug(c, s)
    ensures c == InRight(rc, it, rs.data, rs.left)
    ensures tree.Tree() == PlugTree(rc, Node(rs.data, View(rs.left), Node(Sig(signal), View(rs.right), Nil)))
  {
    node := tree.EmplaceRightLeft(it, Sig(signal), rc, rs);
    c, s := InRight(rc, it, rs.data, rs.left), Branch(node, Sig(signal), rs.right, Empty);
    PlugView(c, s);
  }

  /** The subtree at which the walk for a new operator ends: it goes above it, or below it on the right. */
  ghost predicate StopsAt(t: Tree, s: Operator, above: bool)
    requires IsExpr(t)
  {
    if above then Climb(t, s) == Node(Sig(s), t, Nil)
    else t.right.Node? && Climb(t, s) == Node(t.data, t.left, Node(Sig(s), t.right, Nil))
  }

  /** The walk from the root down the right spine. Fails when the level of a compared signal is unknown. */
  method FindPlace(tree: TreeType, signal: Operator)
      returns (place: TreeNode?, above: bool, ghost rc: Context, ghost rs: Shape)
    requires tree.Valid() && IsExpr(tree.Tree()) && tree.Tree().data.Sig?
    requires OpsAtLeast(tree.Tree().left, 0) && OpsAtLeast(tree.Tree().right, 0)
    ensures place == null <==> !(signal.HasLevel() && tree.Tree().data.op.HasLevel())
    ensures place != null ==>
              && rs.Branch? && rs.node == place && RightOnly(rc) && tree.shape == Plug(rc, rs)
              && IsExpr(View(rs)) && StopsAt(View(rs), signal, above)
              && Climb(tree.Tree(), signal) == PlugTree(rc, Climb(View(rs), signal))
  {
    place, above := tree.mRoot, true;
    rc, rs := Top, tree.shape;
    while place != null
      invariant place == RootOf(rs) && tree.shape == Plug(rc, rs) && RightOnly(rc) && rs.Branch?
      invariant IsExpr(View(rs)) && Climb(tree.Tree(), signal) == PlugTree(rc, Climb(View(rs), signal))
      invariant rs == tree.shape || (OpsAtLeast(View(rs), 0) && signal.HasLevel() && tree.Tree().data.op.HasLevel())
      decreases rs
    {
      tree.FocusNode(rc, rs);
      if place.right == null {
        return;
      }
      if !place.data.op.HasLevel() || !signal.HasLevel() {
        place := null;
        return;
      }
      if place.data.op.level == signal.level {
        above := !place.data.op.IsAssignment();
        return;
      }
      if place.data.op.level > signal.level {
        return;
      }
      place := place.right;
      rc, rs := InRight(rc, rs.node, rs.data, rs.left), rs.right;
    }
  }

  /** One turn of the outer loop: the walk, and the new node at its end. `rc` and `rs` give its position. */
  method InsertSignal(tree: TreeType, signal: Operator)
      returns (rightmost: TreeNode?, ghost rc: Context, ghost rs: Shape)
    requires tree.Valid() && IsExpr(tree.Tree()) && tree.Tree().data.Sig?
    requires OpsAtLeast(tree.Tree().left, 0) && OpsAtLeast(tree.Tree().right, 0)
    modifies tree, tree.repr
    ensures rightmost == null <==> !(signal.HasLevel() && old(tree.Tree()).data.op.HasLevel())
    ensures tree.Valid() && fresh(tree.repr - old(tree.repr))
    ensures rightmost != null ==>
              rs.Branch? && rs.node == rightmost && rs.right == Empty && RightOnly(rc) && tree.shape == Plug(rc, rs)
              && IsExpr(old(tree.Tree())) && tree.Tree() == Climb(old(tree.Tree()), signal)
  {
    var place, above;
    place, above, rc, rs := FindPlace(tree, signal);
    if place == null {
      return null, rc, rs;
    }
    if above {
      rightmost, rs := PlaceAbove(tree, place, signal, rc, rs);
    } else {
      rightmost, rc, rs := PlaceBelow(tree, place, signal, rc, rs);
    }
  }

  // ----- nested groups -----

  function TokenSize(t: Token): (n: nat)
    ensures n >= 1
    decreases t, 0
  {
    if t.Group? then 1 + SegmentsSize(t.segments) else 1
  }

  function SegmentsSize(segments: seq<Segment>): nat
    decreases segments, 1
  {
    if segments == [] then 0 else 1 + ListSize(segments[0].tokens) + SegmentsSize(segments[1..])
  }

  function ListSize(tokens: seq<Token>): nat
    decreases tokens, 1
  {
    if tokens == [] then 0 else TokenSize(tokens[0]) + ListSize(tokens[1..])
  }

  const COMMA: Token := Sig(OperatorOf(Com))

  /** The segments of a group, joined by commas again. */
  function Joined(segments: seq<Segment>): seq<Token> {
    if segments == [] then []
    else if |segments| == 1 then segments[0].tokens
    else segments[0].tokens + [COMMA] + Joined(segments[1..])
  }

  lemma {:induction false} ListSizeConcat(a: seq<Token>, b: seq<Token>)
    ensures ListSize(a + b) == ListSize(a) + ListSize(b)
  {
    if a == [] {
      assert a + b == b;
    } else {
      assert (a + b)[1..] == a[1..] + b;
      ListSizeConcat(a[1..], b);
    }
  }

  lemma {:induction false} JoinedSize(segments: seq<Segment>)
    ensures ListSize(Joined(segments)) <= SegmentsSize(segments)
  {
    if |segments| > 1 {
      JoinedSize(segments[1..]);
      ListSizeConcat(segments[0].tokens + [COMMA], Joined(segments[1..]));
      ListSizeConcat(segments[0].tokens, [COMMA]);
      assert ListSize([COMMA]) == 1;
    }
  }

  lemma {:induction false} MemberSize(tokens: seq<Token>, i: nat)
    requires i < |tokens|
    ensures TokenSize(tokens[i]) <= ListSize(tokens)
  {
    if i > 0 {
      MemberSize(tokens[1..], i - 1);
    }
  }

  /** Operands come from the raw list or are null, so they are no larger than the list. */
  lemma {:induction false} ScanSizes(raw: seq<Token>, i: nat)
    requires i < |ScanTokens(raw).objects| && raw != []
    ensures TokenSize(ScanTokens(raw).objects[i]) <= ListSize(raw)
  {
    var n := |raw| - 1;
    assert raw == raw[..n] + [raw[n]];
    ListSizeConcat(raw[..n], [raw[n]]);
    assert ListSize([raw[n]]) == TokenSize(raw[n]) + ListSize([]);
    if i < |ScanTokens(raw[..n]).objects| {
      ScanSizes(raw[..n], i);
    }
  }

  // ----- the specification of gen_tree -----

  /** What is done to every tree that has been built, those of groups included: `gen_tree` ends with
      `optimize_expression`. `AsBuilt` leaves it out, which gives the tree as written. */
  datatype Finish = AsBuilt | Passes(enabled: bool, consts: Constants, host: Host)

  function Finished(t: Tree, f: Finish): Option<Tree> {
    match f
    case AsBuilt => Some(t)
    case Passes(enabled, consts, host) => Optimized(t, enabled, consts, host)
  }

  /** A group becomes an expression token holding its tree; other operands stay. */
  function Convert(o: Token, f: Finish): Option<Token>
    decreases TokenSize(o), 1
  {
    if o.Group? then
      JoinedSize(o.segments);
      match Parse(Joined(o.segments), f)
      case Some(t) => Some(Expr(t))
      case None => None
    else Some(o)
  }

  function ConvertAll(objects: seq<Token>, f: Finish, ghost bound: nat): (r: Option<seq<Token>>)
    requires forall i :: 0 <= i < |objects| ==> TokenSize(objects[i]) <= bound
    ensures r.Some? ==> |r.value| == |objects| && (NoSignals(objects) ==> NoSignals(r.value))
    decreases bound, 2, |objects|
  {
    if objects == [] then Some([])
    else
      var n := |objects| - 1;
      match (ConvertAll(objects[..n], f, bound), Convert(objects[n], f))
      case (Some(before), Some(o)) => Some(before + [o])
      case _ => None
  }

  predicate LevelsKnown(signals: seq<Operator>) {
    |signals| >= 2 ==> forall i :: 0 <= i < |signals| ==> signals[i].HasLevel()
  }

  /** The tree over split tokens, if `build_tree` accepts them. */
  function BuildResult(signals: seq<Operator>, objects: seq<Token>, f: Finish, ghost bound: nat): Option<Tree>
    requires NoSignals(objects) && forall i :: 0 <= i < |objects| ==> TokenSize(objects[i]) <= bound
    decreases bound, 3
  {
    if |signals| == 0 || |objects| != |signals| + 1 then None
    else
      match ConvertAll(objects, f, bound)
      case None => None
      case Some(operands) => if LevelsKnown(signals) then Some(Build(signals, operands)) else None
  }

  lemma ClosedSizes(raw: seq<Token>)
    requires raw != []
    ensures forall i :: 0 <= i < |Closed(ScanTokens(raw))| ==> TokenSize(Closed(ScanTokens(raw))[i]) <= ListSize(raw)
  {
    MemberSize(raw, 0);
    forall i | 0 <= i < |ScanTokens(raw).objects|
      ensures TokenSize(ScanTokens(raw).objects[i]) <= ListSize(raw)
    {
      ScanSizes(raw, i);
    }
  }

  /** The tree of a raw token list before it is finished, if `split_token` and `build_tree` accept it. */
  function Grown(raw: seq<Token>, f: Finish): Option<Tree>
    decreases ListSize(raw), 4
  {
    if |raw| == 1 then
      MemberSize(raw, 0);
      match Convert(raw[0], f)
      case Some(o) => Some(Leaf(o))
      case None => None
    else if raw == [] || HasKeyword(raw) then None
    else
      ClosedSizes(raw);
      BuildResult(ScanTokens(raw).signals, Closed(ScanTokens(raw)), f, ListSize(raw))
  }

  lemma ResultStep(signals: seq<Operator>, objects: seq<Token>, f: Finish, bound: nat)
    requires NoSignals(objects) && forall i :: 0 <= i < |objects| ==> TokenSize(objects[i]) <= bound
    ensures var operands, result := ConvertAll(objects, f, bound), BuildResult(signals, objects, f, bound);
            && (result.Some? <==>
                  signals != [] && |objects| == |signals| + 1 && operands.Some? && LevelsKnown(signals))
            && (result.Some? ==>
                  Buildable(signals, operands.value) && result.value == Build(signals, operands.value))
  {
  }

  /** The tree over several tokens, one step unfolded. */
  lemma GrownStep(raw: seq<Token>, f: Finish)
    requires |raw| > 1
    ensures forall i :: 0 <= i < |Closed(ScanTokens(raw))| ==> TokenSize(Closed(ScanTokens(raw))[i]) <= ListSize(raw)
    ensures var signals, objects := ScanTokens(raw).signals, Closed(ScanTokens(raw));
            var operands := ConvertAll(objects, f, ListSize(raw));
            && (Grown(raw, f).Some? <==>
                  !HasKeyword(raw) && signals != [] && |objects| == |signals| + 1
                  && operands.Some? && LevelsKnown(signals))
            && (Grown(raw, f).Some? ==>
                  Buildable(signals, operands.value) && Grown(raw, f).value == Build(signals, operands.value))
  {
    ClosedSizes(raw);
    ResultStep(ScanTokens(raw).signals, Closed(ScanTokens(raw)), f, ListSize(raw));
  }

  /** The tree of a raw token list, if `gen_tree` accepts it. */
  function Parse(raw: seq<Token>, f: Finish): Option<Tree>
    decreases ListSize(raw), 5
  {
    match Grown(raw, f)
    case Some(t) => Finished(t, f)
    case None => None
  }

  // ----- build_tree and gen_tree -----

  /** The tree of a group, held by a token. */
  method ConvertObject(o: Token, f: Finish) returns (ok: bool, obj: Token)
    ensures ok <==> Convert(o, f).Some?
    ensures ok ==> Convert(o, f) == Some(obj)
    decreases TokenSize(o), 0
  {
    ok, obj := true, o;
    if o.Group? {
      JoinedSize(o.segments);
      var t := new TreeType();
      ok := GenTree(t, Joined(o.segments), f);
      if ok {
        var held := t.Copy();
        obj := Expr(held);
      }
    }
  }

  method ConvertObjects(objects: seq<Token>, f: Finish, ghost bound: nat) returns (ok: bool, operands: seq<Token>)
    requires NoSignals(objects) && forall i :: 0 <= i < |objects| ==> TokenSize(objects[i]) <= bound
    ensures ok <==> ConvertAll(objects, f, bound).Some?
    ensures ok ==> ConvertAll(objects, f, bound).value == operands
    decreases bound, 1
  {
    ok, operands := true, [];
    for i := 0 to |objects|
      invariant ConvertAll(objects[..i], f, bound) == Some(operands)
    {
      assert objects[..i + 1][..i] == objects[..i];
      var obj;
      ok, obj := ConvertObject(objects[i], f);
      if !ok {
        ConvertAllFails(objects, f, bound, i);
        return;
      }
      operands := operands + [obj];
    }
    assert objects[..|objects|] == objects;
  }

  lemma {:induction false} ConvertAllFails(objects: seq<Token>, f: Finish, bound: nat, i: nat)
    requires NoSignals(objects) && forall i :: 0 <= i < |objects| ==> TokenSize(objects[i]) <= bound
    requires i < |objects| && Convert(objects[i], f).None?
    ensures ConvertAll(objects, f, bound).None?
  {
    if i < |objects| - 1 {
      ConvertAllFails(objects[..|objects| - 1], f, bound, i);
    }
  }

  method BuildTree(tree: TreeType, signals: seq<Operator>, objects: seq<Token>, f: Finish, ghost bound: nat)
      returns (ok: bool)
    requires tree.Valid()
    requires NoSignals(objects) && forall i :: 0 <= i < |objects| ==> TokenSize(objects[i]) <= bound
    modifies tree, tree.repr
    ensures ok <==> BuildResult(signals, objects, f, bound).Some?
    ensures tree.Valid() && fresh(tree.repr - old(tree.repr))
    ensures ok ==> tree.Tree() == BuildResult(signals, objects, f, bound).value
    decreases bound, 2
  {
    if |signals| == 0 || |objects| != |signals| + 1 {
      return false;
    }
    var operands;
    ok, operands := ConvertObjects(objects, f, bound);
    if !ok {
      return;
    }
    ok := GrowTree(tree, signals, operands);
  }

  /** `emplace_right_right` below the operator that waits for its operand. */
  method HangOperand(tree: TreeType, rightmost: TreeNode, o: Token, ghost rc: Context, ghost rs: Shape)
    requires tree.Valid() && IsOpen(tree.Tree()) && !o.Sig?
    requires rs.Branch? && rs.node == rightmost && rs.right == Empty && RightOnly(rc) && tree.shape == Plug(rc, rs)
    modifies tree, tree.repr
    ensures tree.Valid() && fresh(tree.repr - old(tree.repr))
    ensures IsExpr(tree.Tree()) && tree.Tree() == Attach(old(tree.Tree()), o)
  {
    AttachClosed(tree.Tree(), o);
    PlugView(rc, rs);
    PlugAttach(rc, View(rs), o);
    var leaf := tree.EmplaceRightRight(rightmost, o, rc, rs);
    PlugView(rc, rs.(right := Branch(leaf, o, Empty, Empty)));
  }

  lemma {:induction false} BuildOpenOps(signals: seq<Operator>, objects: seq<Token>, n: nat)
    requires Buildable(signals, objects) && 1 <= n <= |signals| && (forall k :: 0 <= k < n ==> signals[k].HasLevel())
    ensures OpsAtLeast(BuildOpen(signals, objects, n), 0)
  {
    if n == 1 {
      assert OpsAtLeast(Leaf(objects[0]), 0);
    } else {
      BuildOpenOps(signals, objects, n - 1);
      var t := BuildOpen(signals, objects, n - 1);
      AttachClosed(t, objects[n - 1]);
      AttachOps(t, objects[n - 1], 0);
      ClimbOps(Attach(t, objects[n - 1]), signals[n - 1], 0);
    }
  }

  /** Before signal n is inserted, only the level of a lone first signal can still be unknown. */
  lemma ReadyToInsert(signals: seq<Operator>, objects: seq<Token>, n: nat)
    requires Buildable(signals, objects) && 1 <= n < |signals|
    requires n >= 2 ==> forall k :: 0 <= k < n ==> signals[k].HasLevel()
    ensures var t := Attach(BuildOpen(signals, objects, n), objects[n]);
            IsExpr(t) && t.data.Sig? && OpsAtLeast(t.left, 0) && OpsAtLeast(t.right, 0)
            && (t.data.op.HasLevel() <==> forall k :: 0 <= k < n ==> signals[k].HasLevel())
  {
    AttachClosed(BuildOpen(signals, objects, n), objects[n]);
    if n == 1 {
      assert OpsAtLeast(Leaf(objects[0]), 0) && OpsAtLeast(Leaf(objects[1]), 0);
    } else {
      BuildOpenOps(signals, objects, n);
      AttachOps(BuildOpen(signals, objects, n), objects[n], 0);
    }
  }

  method StartTree(tree: TreeType, signal: Operator, operand: Token) returns (root: TreeNode, ghost rs: Shape)
    requires tree.Valid()
    modifies tree, tree.repr
    ensures tree.Valid() && fresh(tree.repr - old(tree.repr))
    ensures tree.shape == rs && rs.Branch? && rs.node == root && rs.right == Empty
    ensures tree.Tree() == Node(Sig(signal), Leaf(operand), Nil)
  {
    tree.Clear();
    root := tree.EmplaceRootLeft(tree.mRoot, Sig(signal), Top, Empty);
    var first := tree.EmplaceLeftLeft(root, operand, Top, tree.shape);
    assert View(Branch(first, operand, Empty, Empty)) == Leaf(operand);
    rs := tree.shape;
  }

  /** The position of the operator that waits for its operand after n signals. */
  ghost predicate Waiting(tree: TreeType, signals: seq<Operator>, objects: seq<Token>, n: nat,
                          rightmost: TreeNode?, rc: Context, rs: Shape)
    requires Buildable(signals, objects) && 1 <= n <= |signals|
    reads tree
  {
    rs.Branch? && rs.node == rightmost && rs.right == Empty && RightOnly(rc) && tree.shape == Plug(rc, rs)
    && tree.Tree() == BuildOpen(signals, objects, n)
    && (n >= 2 ==> forall k :: 0 <= k < n ==> signals[k].HasLevel())
  }

  /** One turn of the outer loop: the operand of the last signal, then the next signal. */
  method GrowStep(tree: TreeType, signals: seq<Operator>, objects: seq<Token>, n: nat, rightmost: TreeNode?,
                  ghost rc: Context, ghost rs: Shape)
      returns (next: TreeNode?, ghost rc': Context, ghost rs': Shape)
    requires tree.Valid() && Buildable(signals, objects) && 1 <= n < |signals|
    requires Waiting(tree, signals, objects, n, rightmost, rc, rs)
    modifies tree, tree.repr
    ensures tree.Valid() && fresh(tree.repr - old(tree.repr))
    ensures next == null ==> !LevelsKnown(signals)
    ensures next != null ==> Waiting(tree, signals, objects, n + 1, next, rc', rs')
  {
    HangOperand(tree, rightmost, objects[n], rc, rs);
    ReadyToInsert(signals, objects, n);
    next, rc', rs' := InsertSignal(tree, signals[n]);
  }

  method GrowTree(tree: TreeType, signals: seq<Operator>, objects: seq<Token>) returns (ok: bool)
    requires tree.Valid() && Buildable(signals, objects)
    modifies tree, tree.repr
    ensures ok <==> LevelsKnown(signals)
    ensures tree.Valid() && fresh(tree.repr - old(tree.repr))
    ensures ok ==> tree.Tree() == Build(signals, objects)
  {
    var rightmost, rs := StartTree(tree, signals[0], objects[0]);
    ghost var rc := Top;
    var i := 1;
    while i < |signals|
      invariant 1 <= i <= |signals|
      invariant tree.Valid() && fresh(tree.repr - old(tree.repr))
      invariant Waiting(tree, signals, objects, i, rightmost, rc, rs)
    {
      var next;
      next, rc, rs := GrowStep(tree, signals, objects, i, rightmost, rc, rs);
      if next == null {
        return false;
      }
      rightmost := next;
      i := i + 1;
    }
    HangOperand(tree, rightmost, objects[|signals|], rc, rs);
    return true;
  }

  /** A single token, or a group, as a tree of one node. */
  method GenLeaf(tree: TreeType, o: Token, f: Finish) returns (ok: bool)
    requires tree.Valid()
    modifies tree, tree.repr
    ensures ok <==> Convert(o, f).Some?
    ensures tree.Valid() && fresh(tree.repr - old(tree.repr))
    ensures ok ==> tree.Tree() == Leaf(Convert(o, f).value)
    decreases TokenSize(o), 2
  {
    tree.Clear();
    var obj;
    ok, obj := ConvertObject(o, f);
    if !ok {
      return;
    }
    var node := tree.EmplaceRootLeft(tree.mRoot, obj, Top, Empty);
    assert Plug(Top, Branch(node, obj, Empty, Empty)) == Branch(node, obj, Empty, Empty);
    assert View(tree.shape) == Node(obj, View(Empty), View(Empty)) == Leaf(obj);
    return true;
  }

  /** The tree, not yet finished. */
  method Grow(tree: TreeType, raw: seq<Token>, f: Finish) returns (ok: bool)
    requires tree.Valid()
    modifies tree, tree.repr
    ensures ok <==> Grown(raw, f).Some?
    ensures tree.Valid() && fresh(tree.repr - old(tree.repr))
    ensures ok ==> tree.Tree() == Grown(raw, f).value
    decreases ListSize(raw), 3
  {
    tree.Clear();
    if |raw| == 1 {
      MemberSize(raw, 0);
      ok := GenLeaf(tree, raw[0], f);
      return;
    }
    var signals, objects;
    ok, signals, objects := SplitToken(raw);
    if !ok {
      return;
    }
    if raw == [] {
      return false;
    }
    ClosedSizes(raw);
    ok := BuildTree(tree, signals, objects, f, ListSize(raw));
  }

  method GenTree(tree: TreeType, raw: seq<Token>, f: Finish) returns (ok: bool)
    requires tree.Valid()
    modifies tree, tree.repr
    ensures ok <==> Parse(raw, f).Some?
    ensures tree.Valid() && fresh(tree.repr - old(tree.repr))
    ensures ok ==> tree.Tree() == Parse(raw, f).value
    decreases ListSize(raw), 4
  {
    ok := Grow(tree, raw, f);
    if ok && f.Passes? {
      ok := OptimizeExpression(tree, f.enabled, f.consts, f.host);
    }
  }
}
