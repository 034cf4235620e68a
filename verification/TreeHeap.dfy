/**
 `tree_type`: a binary tree of nodes with parent pointers, edited in place.

 A ghost `Shape` records which node sits where; `Linked` ties it to the pointers. An edit happens at
 a position, given by a `Context` (the path down to a node) and the `Shape` below it, so that its
 contract is an equation between shapes and callers need no frame reasoning.
 */
module TreeHeap {
  import opened Trees

  class TreeNode {
    var root: TreeNode?
    var left: TreeNode?
    var right: TreeNode?
    var data: Token

    constructor (root: TreeNode?, left: TreeNode?, right: TreeNode?, data: Token)
      ensures this.root == root && this.left == left && this.right == right && this.data == data
    {
      this.root, this.left, this.right, this.data := root, left, right, data;
    }
  }

  datatype Shape = Empty | Branch(node: TreeNode, data: Token, left: Shape, right: Shape)

  ghost function View(s: Shape): Tree {
    match s
    case Empty => Nil
    case Branch(_, d, l, r) => Node(d, View(l), View(r))
  }

  ghost function RootOf(s: Shape): TreeNode? {
    if s.Empty? then null else s.node
  }

  ghost function Nodes(s: Shape): set<TreeNode> {
    match s
    case Empty => {}
    case Branch(n, _, l, r) => {n} + Nodes(l) + Nodes(r)
  }

  /** No node occurs twice. */
  ghost predicate Distinct(s: Shape) {
    s.Branch? ==>
      s.node !in Nodes(s.left) && s.node !in Nodes(s.right) && Nodes(s.left) !! Nodes(s.right)
      && Distinct(s.left) && Distinct(s.right)
  }

  /** Child and parent pointers and the data are those of the shape. */
  ghost predicate Linked(s: Shape, parent: TreeNode?)
    reads Nodes(s)
  {
    s.Branch? ==>
      s.node.root == parent && s.node.data == s.data
      && s.node.left == RootOf(s.left) && s.node.right == RootOf(s.right)
      && Linked(s.left, s.node) && Linked(s.right, s.node)
  }

  /** A shape with one subtree missing: the path from the root down to the hole. */
  datatype Context =
    | Top
    | InLeft(up: Context, node: TreeNode, data: Token, right: Shape)
    | InRight(up: Context, node: TreeNode, data: Token, left: Shape)

  ghost function Plug(c: Context, s: Shape): Shape
    decreases c
  {
    match c
    case Top => s
    case InLeft(up, n, d, r) => Plug(up, Branch(n, d, s, r))
    case InRight(up, n, d, l) => Plug(up, Branch(n, d, l, s))
  }

  ghost function Parent(c: Context): TreeNode? {
    if c.Top? then null else c.node
  }

  ghost function PathNodes(c: Context): set<TreeNode> {
    match c
    case Top => {}
    case InLeft(up, n, _, r) => {n} + Nodes(r) + PathNodes(up)
    case InRight(up, n, _, l) => {n} + Nodes(l) + PathNodes(up)
  }

  ghost function Side(c: Context): Shape
    requires !c.Top?
  {
    if c.InLeft? then c.right else c.left
  }

  ghost predicate PathDistinct(c: Context) {
    !c.Top? ==>
      c.node !in Nodes(Side(c)) && c.node !in PathNodes(c.up) && Nodes(Side(c)) !! PathNodes(c.up)
      && Distinct(Side(c)) && PathDistinct(c.up)
  }

  /** The pointers along the path, with `child` in the hole. */
  ghost predicate PathLinked(c: Context, child: TreeNode?)
    reads PathNodes(c)
  {
    !c.Top? ==>
      c.node.root == Parent(c.up) && c.node.data == c.data
      && (if c.InLeft? then c.node.left == child && c.node.right == RootOf(c.right)
          else c.node.right == child && c.node.left == RootOf(c.left))
      && Linked(Side(c), c.node) && PathLinked(c.up, c.node)
  }

  ghost function PathRoot(c: Context, child: TreeNode?): TreeNode? {
    if c.Top? then child else PathRoot(c.up, c.node)
  }

  lemma {:induction false} PlugNodes(c: Context, s: Shape)
    ensures Nodes(Plug(c, s)) == PathNodes(c) + Nodes(s)
    ensures RootOf(Plug(c, s)) == PathRoot(c, RootOf(s))
  {
    match c
    case Top =>
    case InLeft(up, n, d, r) => PlugNodes(up, Branch(n, d, s, r));
    case InRight(up, n, d, l) => PlugNodes(up, Branch(n, d, l, s));
  }

  lemma {:induction false} PlugDistinct(c: Context, s: Shape)
    ensures Distinct(Plug(c, s)) <==> PathDistinct(c) && Distinct(s) && PathNodes(c) !! Nodes(s)
  {
    match c
    case Top =>
    case InLeft(up, n, d, r) => PlugDistinct(up, Branch(n, d, s, r));
    case InRight(up, n, d, l) => PlugDistinct(up, Branch(n, d, l, s));
  }

  lemma {:induction false} PlugLinked(c: Context, s: Shape)
    ensures Linked(Plug(c, s), null) <==> PathLinked(c, RootOf(s)) && Linked(s, Parent(c))
  {
    match c
    case Top =>
    case InLeft(up, n, d, r) => PlugLinked(up, Branch(n, d, s, r));
    case InRight(up, n, d, l) => PlugLinked(up, Branch(n, d, l, s));
  }

  lemma PlugFacts(c: Context, s: Shape)
    ensures Nodes(Plug(c, s)) == PathNodes(c) + Nodes(s)
    ensures RootOf(Plug(c, s)) == PathRoot(c, RootOf(s))
    ensures Distinct(Plug(c, s)) <==> PathDistinct(c) && Distinct(s) && PathNodes(c) !! Nodes(s)
    ensures Linked(Plug(c, s), null) <==> PathLinked(c, RootOf(s)) && Linked(s, Parent(c))
  {
    PlugNodes(c, s);
    PlugDistinct(c, s);
    PlugLinked(c, s);
  }

  lemma {:induction false} PathRootOnPath(c: Context, child: TreeNode?)
    ensures !c.Top? ==> PathRoot(c, child) != null && PathRoot(c, child) in PathNodes(c)
  {
    if !c.Top? {
      PathRootOnPath(c.up, c.node);
    }
  }

  /** Points the parent at `node` instead of `it`, on whichever side `it` was. */
  method ReplaceChild(parent: TreeNode, it: TreeNode, node: TreeNode, ghost c: Context)
    requires !c.Top? && Parent(c) == parent && PathDistinct(c) && PathLinked(c, it) && it !in PathNodes(c)
    modifies parent`left, parent`right
    ensures PathLinked(c, node)
  {
    if parent.left == it {
      parent.left := node;
    } else {
      parent.right := node;
    }
  }

  method SetParent(it: TreeNode, parent: TreeNode?, ghost s: Shape)
    requires s.Branch? && s.node == it && Distinct(s) && Linked(s, it.root)
    modifies it`root
    ensures it.root == parent && Linked(s, parent)
  {
    it.root := parent;
  }

  /** The shape with a new node between its root and the child on one side. */
  ghost function Inserted(s: Shape, node: TreeNode, data: Token, onLeft: bool, asLeft: bool): Shape
    requires s.Branch?
  {
    var side := if onLeft then s.left else s.right;
    var inner := if asLeft then Branch(node, data, side, Empty) else Branch(node, data, Empty, side);
    if onLeft then s.(left := inner) else s.(right := inner)
  }

  lemma InsertedNodes(s: Shape, node: TreeNode, data: Token, onLeft: bool, asLeft: bool)
    requires s.Branch? && Distinct(s) && node !in Nodes(s)
    ensures var t := Inserted(s, node, data, onLeft, asLeft); Nodes(t) == Nodes(s) + {node} && Distinct(t)
  {
  }

  /** A new node below `parent` that has the child on the given side. */
  method NewChild(parent: TreeNode?, child: TreeNode?, data: Token, asLeft: bool, ghost side: Shape,
                  ghost repr: set<TreeNode>)
      returns (node: TreeNode)
    requires child == RootOf(side) && Distinct(side) && Linked(side, parent) && Nodes(side) <= repr
    modifies Nodes(side)`root
    ensures fresh(node) && node.root == parent
    ensures Linked(if asLeft then Branch(node, data, side, Empty) else Branch(node, data, Empty, side), parent)
  {
    node := new TreeNode(parent, if asLeft then child else null, if asLeft then null else child, data);
    if child != null {
      SetParent(child, node, side);
    }
  }

  method SetLeft(it: TreeNode, node: TreeNode, ghost s: Shape, ghost inner: Shape)
    requires s.Branch? && s.node == it && Linked(s.right, it) && it.data == s.data && it.right == RootOf(s.right)
    requires node == RootOf(inner) && Linked(inner, it) && it !in Nodes(inner) && it !in Nodes(s.right)
    modifies it`left
    ensures Linked(s.(left := inner), it.root)
  {
    it.left := node;
  }

  method SetRight(it: TreeNode, node: TreeNode, ghost s: Shape, ghost inner: Shape)
    requires s.Branch? && s.node == it && Linked(s.left, it) && it.data == s.data && it.left == RootOf(s.left)
    requires node == RootOf(inner) && Linked(inner, it) && it !in Nodes(inner) && it !in Nodes(s.left)
    modifies it`right
    ensures Linked(s.(right := inner), it.root)
  {
    it.right := node;
  }

  /** Puts a new node between `it` and its child on one side; the child hangs on the given side of it. */
  method InsertChild(it: TreeNode, data: Token, onLeft: bool, asLeft: bool, ghost s: Shape, ghost repr: set<TreeNode>)
      returns (node: TreeNode)
    requires s.Branch? && s.node == it && Distinct(s) && Linked(s, it.root) && Nodes(s) <= repr
    modifies it`left, it`right, (Nodes(s) - {it})`root
    ensures fresh(node)
    ensures var t := Inserted(s, node, data, onLeft, asLeft);
            Linked(t, it.root) && Distinct(t) && Nodes(t) == Nodes(s) + {node}
  {
    ghost var side := if onLeft then s.left else s.right;
    node := NewChild(it, if onLeft then it.left else it.right, data, asLeft, side, repr);
    ghost var inner := if asLeft then Branch(node, data, side, Empty) else Branch(node, data, Empty, side);
    if onLeft {
      SetLeft(it, node, s, inner);
    } else {
      SetRight(it, node, s, inner);
    }
    InsertedNodes(s, node, data, onLeft, asLeft);
  }

  function CopyNode(raw: TreeNode?, ghost s: Shape, ghost parent: TreeNode?): (t: Tree)
    requires raw == RootOf(s) && Linked(s, parent)
    reads Nodes(s)
    ensures t == View(s)
    decreases s
  {
    if raw == null then Nil
    else Node(raw.data, CopyNode(raw.left, s.left, raw), CopyNode(raw.right, s.right, raw))
  }

  method SetChildren(it: TreeNode, left: TreeNode?, right: TreeNode?, ghost l: Shape, ghost r: Shape)
    requires left == RootOf(l) && right == RootOf(r) && Linked(l, it) && Linked(r, it)
    requires it !in Nodes(l) && it !in Nodes(r)
    modifies it`left, it`right
    ensures Linked(Branch(it, it.data, l, r), it.root)
  {
    it.left, it.right := left, right;
  }

  method SetNode(it: TreeNode, data: Token, left: TreeNode?, right: TreeNode?, ghost l: Shape, ghost r: Shape)
    requires left == RootOf(l) && right == RootOf(r) && Linked(l, it) && Linked(r, it) && Distinct(l) && Distinct(r)
    requires it !in Nodes(l) && it !in Nodes(r) && Nodes(l) !! Nodes(r)
    modifies it`data, it`left, it`right
    ensures var t := Branch(it, data, l, r);
            Linked(t, it.root) && Distinct(t) && Nodes(t) == {it} + Nodes(l) + Nodes(r)
  {
    it.data, it.left, it.right := data, left, right;
  }

  lemma JoinedCopies(s: Shape, it: TreeNode, l: Shape, r: Shape)
    requires s.Branch? && View(l) == View(s.left) && View(r) == View(s.right) && Distinct(l) && Distinct(r)
    requires it !in Nodes(l) && it !in Nodes(r) && Nodes(l) !! Nodes(r)
    ensures var t := Branch(it, s.data, l, r);
            View(t) == View(s) && Distinct(t) && Nodes(t) == {it} + Nodes(l) + Nodes(r)
  {
  }

  /** `tree_node::copy`: new nodes all the way down, linked to each other and to the given parent. */
  method CopyNodes(raw: TreeNode?, root: TreeNode?, ghost s: Shape, ghost parent: TreeNode?, ghost repr: set<TreeNode>)
      returns (node: TreeNode?, ghost copy: Shape, ghost made: set<TreeNode>)
    requires raw == RootOf(s) && Linked(s, parent) && Nodes(s) <= repr
    ensures node == RootOf(copy) && View(copy) == View(s)
    ensures fresh(made) && made == Nodes(copy) && Distinct(copy) && Linked(copy, root)
    decreases s, 1
  {
    if raw == null {
      return null, Empty, {};
    }
    var it: TreeNode := new TreeNode(root, null, null, raw.data);
    var left, right;
    ghost var l, r, below;
    left, right, l, r, below := CopyBelow(raw, it, s, parent, repr);
    SetChildren(it, left, right, l, r);
    JoinedCopies(s, it, l, r);
    node, copy, made := it, Branch(it, s.data, l, r), {it} + below;
  }

  /** Copies of what is below a node, for a new parent. */
  method CopyBelow(raw: TreeNode, it: TreeNode, ghost s: Shape, ghost parent: TreeNode?, ghost repr: set<TreeNode>)
      returns (left: TreeNode?, right: TreeNode?, ghost l: Shape, ghost r: Shape, ghost made: set<TreeNode>)
    requires s.Branch? && raw == s.node && Linked(s, parent) && Nodes(s) <= repr
    ensures left == RootOf(l) && right == RootOf(r) && View(l) == View(s.left) && View(r) == View(s.right)
    ensures fresh(made) && made == Nodes(l) + Nodes(r) && Nodes(l) !! Nodes(r) && Distinct(l) && Distinct(r)
    ensures Linked(l, it) && Linked(r, it)
    decreases s, 0
  {
    ghost var fromLeft, fromRight;
    left, l, fromLeft := CopyNodes(raw.left, it, s.left, raw, repr);
    right, r, fromRight := CopyNodes(raw.right, it, s.right, raw, repr);
    made := fromLeft + fromRight;
  }

  /** New nodes for a tree held by value. */
  method NewNodes(t: Tree, root: TreeNode?) returns (node: TreeNode?, ghost s: Shape, ghost made: set<TreeNode>)
    ensures node == RootOf(s) && View(s) == t
    ensures fresh(made) && made == Nodes(s) && Distinct(s) && Linked(s, root)
  {
    if t.Nil? {
      return null, Empty, {};
    }
    var it: TreeNode := new TreeNode(root, null, null, t.data);
    var left, right;
    ghost var l, r, fromLeft, fromRight;
    left, l, fromLeft := NewNodes(t.left, it);
    right, r, fromRight := NewNodes(t.right, it);
    SetChildren(it, left, right, l, r);
    made := {it} + fromLeft + fromRight;
    node, s := it, Branch(it, t.data, l, r);
  }

  class TreeType {
    var mRoot: TreeNode?
    ghost var shape: Shape
    ghost var repr: set<TreeNode>  // the nodes of the shape

    ghost predicate Valid()
      reads this, repr
    {
      repr == Nodes(shape) && mRoot == RootOf(shape) && Distinct(shape) && Linked(shape, null)
    }

    ghost function Tree(): Tree
      reads this
    {
      View(shape)
    }

    constructor ()
      ensures Valid() && shape == Empty && fresh(this)
    {
      mRoot, shape, repr := null, Empty, {};
    }

    /** The copying constructor: the same tree in nodes of its own. */
    constructor CopyOf(t: TreeType)
      requires t.Valid()
      ensures Valid() && fresh(this) && fresh(repr)
      ensures Tree() == t.Tree()
    {
      mRoot, shape, repr := null, Empty, {};
      new;
      mRoot, shape, repr := CopyNodes(t.mRoot, null, t.shape, null, t.repr);
    }

    /** The tree that a token holds. */
    constructor Of(t: Trees.Tree)
      ensures Valid() && fresh(this) && fresh(repr) && Tree() == t
    {
      mRoot, shape, repr := null, Empty, {};
      new;
      mRoot, shape, repr := NewNodes(t, null);
    }

    /** The tree held by value, as the copying constructor of `token_expr` takes it. */
    method Copy() returns (t: Trees.Tree)
      requires Valid()
      ensures t == Tree()
    {
      t := CopyNode(mRoot, shape, null);
    }

    method Clear()
      modifies this
      ensures Valid() && shape == Empty
    {
      mRoot, shape, repr := null, Empty, {};
    }

    /** The object invariant seen from a position. */
    ghost predicate ValidAt(c: Context, s: Shape)
      reads this, PathNodes(c), Nodes(s)
    {
      mRoot == PathRoot(c, RootOf(s))
      && PathDistinct(c) && Distinct(s) && PathNodes(c) !! Nodes(s)
      && PathLinked(c, RootOf(s)) && Linked(s, Parent(c))
    }

    lemma Focus(c: Context, s: Shape)
      requires Valid() && shape == Plug(c, s)
      ensures ValidAt(c, s) && repr == PathNodes(c) + Nodes(s)
      ensures c.Top? || mRoot != RootOf(s)
    {
      PlugFacts(c, s);
      PathRootOnPath(c, RootOf(s));
    }

    lemma FocusNode(c: Context, s: Shape)
      requires Valid() && shape == Plug(c, s) && s.Branch?
      ensures ValidAt(c, s) && repr == PathNodes(c) + Nodes(s)
      ensures Nodes(s.left) <= repr && Nodes(s.right) <= repr && s.node in repr
      ensures s.node.left == RootOf(s.left) && s.node.right == RootOf(s.right) && s.node.data == s.data
      ensures Distinct(s.left) && Distinct(s.right) && Linked(s.left, s.node) && Linked(s.right, s.node)
    {
      PlugFacts(c, s);
    }

    ghost method Install(c: Context, s: Shape)
      requires ValidAt(c, s)
      modifies this`shape, this`repr
      ensures Valid() && shape == Plug(c, s) && repr == PathNodes(c) + Nodes(s)
    {
      PlugFacts(c, s);
      shape, repr := Plug(c, s), PathNodes(c) + Nodes(s);
    }

    /** Puts a new node above `it`, with `it` as its left child; an empty tree gets its first node.
        Fails, changing nothing, when `it` is no node of a non-empty tree. */
    method EmplaceRootLeft(it: TreeNode?, data: Token, ghost c: Context, ghost s: Shape) returns (node: TreeNode?)
      requires Valid() && it == RootOf(s)
      requires it != null ==> shape == Plug(c, s)
      requires it == null && shape == Empty ==> c == Top
      modifies this, repr
      ensures node == null <==> it == null && old(shape) != Empty
      ensures node == null ==> unchanged(this)
      ensures Valid() && fresh(repr - old(repr))
      ensures node != null ==> fresh(node) && shape == Plug(c, Branch(node, data, s, Empty))
    {
      if it == null && mRoot != null {
        return null;
      }
      if it != null {
        Focus(c, s);
      }
      node := NewChild(if it == null then null else it.root, it, data, true, s, repr);
      if it == mRoot {
        mRoot := node;
      } else {
        ReplaceChild(node.root, it, node, c);
      }
      Install(c, Branch(node, data, s, Empty));
    }

    /** Puts a new node between `it` and its left child, which becomes the new node's left child. */
    method EmplaceLeftLeft(it: TreeNode?, data: Token, ghost c: Context, ghost s: Shape) returns (node: TreeNode?)
      requires Valid() && it == RootOf(s)
      requires it != null ==> shape == Plug(c, s)
      modifies this, repr
      ensures node == null <==> it == null
      ensures node == null ==> unchanged(this)
      ensures Valid() && fresh(repr - old(repr))
      ensures node != null ==> fresh(node) && shape == Plug(c, s.(left := Branch(node, data, s.left, Empty)))
    {
      if it == null {
        return null;
      }
      FocusNode(c, s);
      node := InsertChild(it, data, true, true, s, repr);
      Install(c, Inserted(s, node, data, true, true));
    }

    /** Puts a new node between `it` and its right child, which becomes the new node's left child. */
    method EmplaceRightLeft(it: TreeNode?, data: Token, ghost c: Context, ghost s: Shape) returns (node: TreeNode?)
      requires Valid() && it == RootOf(s)
      requires it != null ==> shape == Plug(c, s)
      modifies this, repr
      ensures node == null <==> it == null
      ensures node == null ==> unchanged(this)
      ensures Valid() && fresh(repr - old(repr))
      ensures node != null ==> fresh(node) && shape == Plug(c, s.(right := Branch(node, data, s.right, Empty)))
    {
      if it == null {
        return null;
      }
      FocusNode(c, s);
      node := InsertChild(it, data, false, true, s, repr);
      Install(c, Inserted(s, node, data, false, true));
    }

    /** Puts a new node between `it` and its right child, which becomes the new node's right child. */
    method EmplaceRightRight(it: TreeNode?, data: Token, ghost c: Context, ghost s: Shape) returns (node: TreeNode?)
      requires Valid() && it == RootOf(s)
      requires it != null ==> shape == Plug(c, s)
      modifies this, repr
      ensures node == null <==> it == null
      ensures node == null ==> unchanged(this)
      ensures Valid() && fresh(repr - old(repr))
      ensures node != null ==> fresh(node) && shape == Plug(c, s.(right := Branch(node, data, Empty, s.right)))
    {
      if it == null {
        return null;
      }
      FocusNode(c, s);
      node := InsertChild(it, data, false, false, s, repr);
      Install(c, Inserted(s, node, data, false, false));
    }

    /** Replaces `it` by its left child; fails when there is none. */
    method ReserveLeft(it: TreeNode?, ghost c: Context, ghost s: Shape) returns (reserve: TreeNode?)
      requires Valid() && it == RootOf(s)
      requires it != null ==> shape == Plug(c, s)
      modifies this, repr
      ensures Valid() && repr <= old(repr)
      ensures reserve == null <==> s.Empty? || s.left.Empty?
      ensures reserve == null ==> unchanged(this)
      ensures reserve != null ==> shape == Plug(c, s.left) && reserve == RootOf(s.left)
    {
      if it == null || it.left == null {
        if it != null {
          FocusNode(c, s);
        }
        return null;
      }
      FocusNode(c, s);
      reserve := it.left;
      var parent := it.root;
      var isRoot := it == mRoot;
      it.left := null;
      if parent != null {
        ReplaceChild(parent, it, reserve, c);
      }
      SetParent(reserve, parent, s.left);
      if isRoot {
        mRoot := reserve;
      }
      Install(c, s.left);
    }

    /** Replaces `it` by its right child; fails when there is none. */
    method ReserveRight(it: TreeNode?, ghost c: Context, ghost s: Shape) returns (reserve: TreeNode?)
      requires Valid() && it == RootOf(s)
      requires it != null ==> shape == Plug(c, s)
      modifies this, repr
      ensures Valid() && repr <= old(repr)
      ensures reserve == null <==> s.Empty? || s.right.Empty?
      ensures reserve == null ==> unchanged(this)
      ensures reserve != null ==> shape == Plug(c, s.right) && reserve == RootOf(s.right)
    {
      if it == null || it.right == null {
        if it != null {
          FocusNode(c, s);
        }
        return null;
      }
      FocusNode(c, s);
      reserve := it.right;
      var parent := it.root;
      var isRoot := it == mRoot;
      it.right := null;
      if parent != null {
        ReplaceChild(parent, it, reserve, c);
      }
      SetParent(reserve, parent, s.right);
      if isRoot {
        mRoot := reserve;
      }
      Install(c, s.right);
    }

    method EraseLeft(it: TreeNode, ghost c: Context, ghost s: Shape)
      requires Valid() && s.Branch? && it == s.node && shape == Plug(c, s)
      modifies this, repr
      ensures Valid() && repr <= old(repr) && shape == Plug(c, s.(left := Empty))
    {
      FocusNode(c, s);
      it.left := null;
      Install(c, s.(left := Empty));
    }

    method EraseRight(it: TreeNode, ghost c: Context, ghost s: Shape)
      requires Valid() && s.Branch? && it == s.node && shape == Plug(c, s)
      modifies this, repr
      ensures Valid() && repr <= old(repr) && shape == Plug(c, s.(right := Empty))
    {
      FocusNode(c, s);
      it.right := null;
      Install(c, s.(right := Empty));
    }

    /** New contents for `it`: its data and what is below it. */
    method Refill(it: TreeNode, data: Token, left: TreeNode?, right: TreeNode?, ghost c: Context, ghost s: Shape,
                  ghost l: Shape, ghost r: Shape)
      requires Valid() && s.Branch? && it == s.node && shape == Plug(c, s)
      requires left == RootOf(l) && right == RootOf(r) && Linked(l, it) && Linked(r, it)
      requires Distinct(l) && Distinct(r) && Nodes(l) !! Nodes(r) && Nodes(l) !! repr && Nodes(r) !! repr
      modifies this, it`left, it`right, it`data
      ensures Valid() && repr <= old(repr) + Nodes(l) + Nodes(r) && shape == Plug(c, Branch(it, data, l, r))
    {
      FocusNode(c, s);
      SetNode(it, data, left, right, l, r);
      Install(c, Branch(it, data, l, r));
    }

    /** Puts a copy of another tree in the place of `it` and what is below it; `it` becomes its root. */
    method Merge(it: TreeNode, t: TreeType, ghost c: Context, ghost s: Shape) returns (ghost merged: Shape)
      requires Valid() && s.Branch? && it == s.node && shape == Plug(c, s)
      requires t.Valid() && t.mRoot != null
      modifies this, repr
      ensures Valid() && fresh(repr - old(repr))
      ensures merged.Branch? && merged.node == it && View(merged) == old(t.Tree()) && shape == Plug(c, merged)
    {
      FocusNode(c, s);
      var data := t.mRoot.data;
      var left, right;
      ghost var l, r, made;
      left, right, l, r, made := CopyBelow(t.mRoot, it, t.shape, null, t.repr);
      merged := Branch(it, data, l, r);
      assert View(merged) == View(t.shape);
      Refill(it, data, left, right, c, s, l, r);
    }

    /** Writing through `it.data()`. */
    method SetData(it: TreeNode, data: Token, ghost c: Context, ghost s: Shape)
      requires Valid() && s.Branch? && it == s.node && shape == Plug(c, s)
      modifies this, repr
      ensures Valid() && repr == old(repr) && shape == Plug(c, s.(data := data))
    {
      FocusNode(c, s);
      it.data := data;
      Install(c, s.(data := data));
    }
  }
}
