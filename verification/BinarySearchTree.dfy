/**
  A binary search tree with parent pointers, a cached first node and in-order iteration without a stack.

  `Shape` is the mathematical tree that a linked structure represents; it names the nodes themselves,
  so that statements about the iterator can say which node comes next.
 */
module BinarySearchTree {

  class Node {
    const value: int
    var left: Node?
    var right: Node?
    var parent: Node?

    constructor (value: int, parent: Node?)
      ensures this.value == value && this.parent == parent && left == null && right == null
    {
      this.value := value;
      this.parent := parent;
      this.left := null;
      this.right := null;
    }
  }

  datatype Shape = Leaf | Branch(left: Shape, node: Node, right: Shape)

  ghost function Nodes(s: Shape): set<Node> {
    match s
    case Leaf => {}
    case Branch(l, n, r) => Nodes(l) + {n} + Nodes(r)
  }

  ghost function Inorder(s: Shape): seq<Node> {
    match s
    case Leaf => []
    case Branch(l, n, r) => Inorder(l) + [n] + Inorder(r)
  }

  ghost function Values(ns: seq<Node>): seq<int> {
    seq(|ns|, i requires 0 <= i < |ns| => ns[i].value)
  }

  // The values of all nodes of `s`.
  ghost function Elements(s: Shape): set<int> {
    set n <- Nodes(s) :: n.value
  }

  // The nodes reached from `p`, whose parent pointer is `parent`, are linked up as `s`.
  ghost predicate Links(s: Shape, p: Node?, parent: Node?)
    reads Nodes(s)
  {
    match s
    case Leaf => p == null
    case Branch(l, n, r) => p == n && n.parent == parent && Links(l, n.left, n) && Links(r, n.right, n)
  }

  lemma {:induction false} NodesAreAllocated(s: Shape, p: Node?, parent: Node?)
    requires Links(s, p, parent)
    ensures forall n <- Nodes(s) :: allocated(n)
  {
    if s.Branch? {
      NodesAreAllocated(s.left, p.left, p);
      NodesAreAllocated(s.right, p.right, p);
    }
  }

  // No node is used twice.
  ghost predicate IsTree(s: Shape) {
    match s
    case Leaf => true
    case Branch(l, n, r) => IsTree(l) && IsTree(r) && Nodes(l) !! Nodes(r) && n !in Nodes(l) && n !in Nodes(r)
  }

  // Smaller values are on the left, larger ones on the right.
  ghost predicate IsOrdered(s: Shape) {
    match s
    case Leaf => true
    case Branch(l, n, r) =>
      && IsOrdered(l) && IsOrdered(r)
      && (forall m <- Nodes(l) :: m.value < n.value)
      && (forall m <- Nodes(r) :: n.value < m.value)
  }

  ghost predicate Increasing(vs: seq<int>) {
    forall i, j :: 0 <= i < j < |vs| ==> vs[i] < vs[j]
  }

  lemma {:induction false} InorderNodes(s: Shape)
    ensures forall i :: 0 <= i < |Inorder(s)| ==> Inorder(s)[i] in Nodes(s)
  {
    if s.Branch? {
      InorderNodes(s.left);
      InorderNodes(s.right);
    }
  }

  lemma {:induction false} PositionOf(s: Shape, n: Node) returns (i: nat)
    requires n in Nodes(s)
    ensures i < |Inorder(s)| && Inorder(s)[i] == n
  {
    if n in Nodes(s.left) {
      i := PositionOf(s.left, n);
    } else if n == s.node {
      i := |Inorder(s.left)|;
    } else {
      i := PositionOf(s.right, n);
      i := i + |Inorder(s.left)| + 1;
    }
  }

  lemma {:induction false} OrderedIsIncreasing(s: Shape)
    requires IsOrdered(s)
    ensures Increasing(Values(Inorder(s)))
  {
    if s.Branch? {
      OrderedIsIncreasing(s.left);
      OrderedIsIncreasing(s.right);
      InorderNodes(s.left);
      InorderNodes(s.right);
      var ls, rs, ns := Inorder(s.left), Inorder(s.right), Inorder(s);
      forall i, j | 0 <= i < j < |ns| ensures ns[i].value < ns[j].value {
        var k := |ls|;
        assert i < k ==> ns[i] == ls[i] && ls[i] in Nodes(s.left) && ls[i].value == Values(ls)[i];
        assert j < k ==> ls[j].value == Values(ls)[j];
        assert j > k ==>
          ns[j] == rs[j - k - 1] && rs[j - k - 1] in Nodes(s.right) && rs[j - k - 1].value == Values(rs)[j - k - 1];
        assert i > k ==> ns[i] == rs[i - k - 1] && rs[i - k - 1].value == Values(rs)[i - k - 1];
      }
    }
  }

  // ------------------------------------------------------------------ searching and adding

  function Search(p: Node?, value: int, ghost s: Shape, ghost parent: Node?): (r: Node?)
    requires Links(s, p, parent) && IsOrdered(s)
    reads Nodes(s)
    ensures r == null ==> value !in Elements(s)
    ensures r != null ==> r in Nodes(s) && r.value == value
    decreases s
  {
    if p == null then null
    else if value < p.value then Search(p.left, value, s.left, p)
    else if p.value < value then Search(p.right, value, s.right, p)
    else p
  }

  lemma ElementsOnOneSide(s: Shape, value: int)
    requires s.Branch? && IsOrdered(s)
    ensures value < s.node.value ==> (value in Elements(s) <==> value in Elements(s.left))
    ensures s.node.value < value ==> (value in Elements(s) <==> value in Elements(s.right))
    ensures s.node.value == value ==> value in Elements(s)
  {
    assert s.node in Nodes(s);
    if value in Elements(s.left) {
      var n :| n in Nodes(s.left) && n.value == value;
      assert n in Nodes(s);
    }
    if value in Elements(s.right) {
      var n :| n in Nodes(s.right) && n.value == value;
      assert n in Nodes(s);
    }
  }

  // Where a new node belongs.
  ghost function Grown(s: Shape, n: Node): Shape {
    match s
    case Leaf => Branch(Leaf, n, Leaf)
    case Branch(l, m, r) =>
      if n.value < m.value then Branch(Grown(l, n), m, r) else Branch(l, m, Grown(r, n))
  }

  lemma {:induction false} GrownIsTree(s: Shape, n: Node)
    requires IsTree(s) && IsOrdered(s) && n !in Nodes(s) && n.value !in Elements(s)
    ensures Nodes(Grown(s, n)) == Nodes(s) + {n}
    ensures IsTree(Grown(s, n)) && IsOrdered(Grown(s, n))
  {
    if s.Branch? {
      assert s.node in Nodes(s);
      if n.value < s.node.value {
        assert forall m <- Nodes(s.left) :: m in Nodes(s);
        GrownIsTree(s.left, n);
      } else {
        assert forall m <- Nodes(s.right) :: m in Nodes(s);
        GrownIsTree(s.right, n);
      }
    }
  }

  lemma Parts(s: Shape)
    requires s.Branch? && IsTree(s) && IsOrdered(s)
    ensures IsTree(s.left) && IsOrdered(s.left) && IsTree(s.right) && IsOrdered(s.right)
    ensures Nodes(s.left) !! Nodes(s.right) && s.node !in Nodes(s.left) && s.node !in Nodes(s.right)
    ensures Nodes(s) == Nodes(s.left) + {s.node} + Nodes(s.right)
  {
  }

  class Tree {
    var root: Node?
    var first: Node?
    var numNodes: nat
    ghost var shape: Shape

    ghost predicate Valid()
      reads this, Nodes(shape)
    {
      && Links(shape, root, null) && IsTree(shape) && IsOrdered(shape)
      && first == (if shape == Leaf then null else Inorder(shape)[0])
      && numNodes == |Inorder(shape)|
    }

    constructor ()
      ensures Valid() && shape == Leaf
    {
      root := null;
      first := null;
      numNodes := 0;
      shape := Leaf;
    }

    // The outcome of adding `value` to a subtree of shape `s`.
    ghost predicate Added(value: int, s: Shape, s': Shape, node: Node, first0: Node?, numNodes0: nat)
      reads this`first, this`numNodes
    {
      && node.value == value
      && if value in Elements(s) then s' == s && first == first0 && numNodes == numNodes0
         else
           && s' == Grown(s, node) && numNodes == numNodes0 + 1
           && first == if first0 == null || value < first0.value then node else first0
    }

    lemma AddedNodes(value: int, s: Shape, s': Shape, node: Node, first0: Node?, numNodes0: nat)
      requires IsTree(s) && IsOrdered(s) && Added(value, s, s', node, first0, numNodes0)
      requires if value in Elements(s) then node in Nodes(s) else node !in Nodes(s)
      ensures Nodes(s') == Nodes(s) + {node}
    {
      if value !in Elements(s) {
        GrownIsTree(s, node);
      }
    }

    lemma AddedBelow(value: int, s: Shape, s': Shape, node: Node, first0: Node?, numNodes0: nat)
      requires s.Branch? && IsTree(s) && IsOrdered(s) && value != s.node.value
      requires s'.Branch?
      requires if value < s.node.value
               then s' == Branch(s'.left, s.node, s.right) && Added(value, s.left, s'.left, node, first0, numNodes0)
               else s' == Branch(s.left, s.node, s'.right) && Added(value, s.right, s'.right, node, first0, numNodes0)
      ensures Added(value, s, s', node, first0, numNodes0)
    {
      hide Elements;
      ElementsOnOneSide(s, value);
    }

    // Adds `value` below the node `p`, whose subtree has shape `s`, and returns the node that holds it.
    // A new root of the subtree is linked up by the caller.
    method Add(p: Node?, value: int, parent: Node?, ghost s: Shape) returns (node: Node, ghost s': Shape)
      requires Links(s, p, parent) && IsTree(s) && IsOrdered(s)
      modifies this`first, this`numNodes, Nodes(s)
      ensures Added(value, s, s', node, old(first), old(numNodes))
      ensures if value in Elements(s) then node in Nodes(s) else fresh(node)
      ensures Links(s', if p == null then node else p, parent)
      decreases s, 1
    {
      if p == null {
        node := new Node(value, parent);
        s' := Branch(Leaf, node, Leaf);
        numNodes := numNodes + 1;
        if first == null || node.value < first.value {
          first := node;
        }
      } else if value < p.value {
        node, s' := AddLeft(p, value, parent, s);
      } else if p.value < value {
        node, s' := AddRight(p, value, parent, s);
      } else {
        node := p;
        s' := s;
      }
    }

    method AddLeft(p: Node, value: int, parent: Node?, ghost s: Shape) returns (node: Node, ghost s': Shape)
      requires Links(s, p, parent) && IsTree(s) && IsOrdered(s) && value < p.value
      modifies this`first, this`numNodes, Nodes(s)
      ensures Added(value, s, s', node, old(first), old(numNodes))
      ensures if value in Elements(s) then node in Nodes(s) else fresh(node)
      ensures Links(s', p, parent)
      decreases s, 0
    {
      hide Added, Elements, IsTree, IsOrdered, Nodes;
      NodesAreAllocated(s, p, parent);
      ElementsOnOneSide(s, value);
      Parts(s);
      ghost var l;
      node, l := Add(p.left, value, p, s.left);
      AddedNodes(value, s.left, l, node, old(first), old(numNodes));
      if p.left == null {
        p.left := node;
      }
      s' := Branch(l, p, s.right);
      AddedBelow(value, s, s', node, old(first), old(numNodes));
    }

    method AddRight(p: Node, value: int, parent: Node?, ghost s: Shape) returns (node: Node, ghost s': Shape)
      requires Links(s, p, parent) && IsTree(s) && IsOrdered(s) && p.value < value
      modifies this`first, this`numNodes, Nodes(s)
      ensures Added(value, s, s', node, old(first), old(numNodes))
      ensures if value in Elements(s) then node in Nodes(s) else fresh(node)
      ensures Links(s', p, parent)
      decreases s, 0
    {
      hide Added, Elements, IsTree, IsOrdered, Nodes;
      NodesAreAllocated(s, p, parent);
      ElementsOnOneSide(s, value);
      Parts(s);
      ghost var r;
      node, r := Add(p.right, value, p, s.right);
      AddedNodes(value, s.right, r, node, old(first), old(numNodes));
      if p.right == null {
        p.right := node;
      }
      s' := Branch(s.left, p, r);
      AddedBelow(value, s, s', node, old(first), old(numNodes));
    }

    method Insert(value: int) returns (node: Node)
      requires Valid()
      modifies this, Nodes(shape)
      ensures Valid() && node in Nodes(shape) && node.value == value
      ensures Elements(shape) == old(Elements(shape)) + {value}
      ensures if value in old(Elements(shape)) then shape == old(shape) else Nodes(shape) == old(Nodes(shape)) + {node}
      ensures fresh(Nodes(shape) - old(Nodes(shape)))
    {
      NodesAreAllocated(shape, root, null);
      ghost var s, s' := shape, shape;
      node, s' := Add(root, value, null, s);
      if root == null {
        root := node;
      }
      shape := s';
      if value !in Elements(s) {
        GrownIsTree(s, node);
        FirstOfGrown(s, node);
      }
    }

    // Builds a tree from an initializer list.
    constructor FromList(init: seq<int>)
      ensures Valid() && Elements(shape) == set v <- init
      ensures fresh(Nodes(shape))
    {
      root := null;
      first := null;
      numNodes := 0;
      shape := Leaf;
      new;
      for i := 0 to |init|
        invariant Valid() && Elements(shape) == set v <- init[..i]
        invariant fresh(Nodes(shape))
      {
        var node := Insert(init[i]);
        assert init[..i + 1] == init[..i] + [init[i]];
      }
      assert init[..|init|] == init;
    }

    // Walks from the first node to the end, one successor after the other.
    method Traverse() returns (visited: seq<int>)
      requires Valid()
      ensures visited == Values(Inorder(shape))
    {
      visited := [];
      NodesAreAllocated(shape, root, null);
      ghost var ns := Inorder(shape);
      ghost var i := 0;
      var node := first;
      while node != null
        invariant 0 <= i <= |ns| && Valid() && forall n <- Nodes(shape) :: allocated(n)
        invariant node == if i < |ns| then ns[i] else null
        invariant visited == Values(ns[..i])
        decreases |ns| - i
      {
        visited := visited + [node.value];
        assert ns[..i + 1] == ns[..i] + [ns[i]];
        node := InorderSuccessor(node, shape, root, i);
        i := i + 1;
      }
      assert ns[..i] == ns;
    }
  }

  lemma {:induction false} FirstOfGrown(s: Shape, n: Node)
    requires IsOrdered(s) && n.value !in Elements(s)
    ensures |Inorder(Grown(s, n))| == |Inorder(s)| + 1
    ensures Inorder(Grown(s, n))[0] == if s == Leaf || n.value < Inorder(s)[0].value then n else Inorder(s)[0]
  {
    if s.Branch? {
      var m := s.node;
      ElementsOnOneSide(s, n.value);
      if s.left.Branch? {
        InorderNodes(s.left);
        assert Inorder(s.left) != [] && Inorder(s)[0] == Inorder(s.left)[0];
        assert Inorder(s.left)[0].value < m.value;
      }
      if n.value < m.value {
        FirstOfGrown(s.left, n);
      } else {
        FirstOfGrown(s.right, n);
        assert m.value < n.value;
        assert Inorder(Grown(s, n)) == Inorder(s.left) + [m] + Inorder(Grown(s.right, n));
      }
    }
  }

  // The number of nodes is the number of distinct values.
  lemma {:induction false} OneNodePerElement(s: Shape)
    requires IsOrdered(s)
    ensures |Inorder(s)| == |Elements(s)|
  {
    if s.Branch? {
      OneNodePerElement(s.left);
      OneNodePerElement(s.right);
      ElementsSplit(s);
      hide Elements;
      var l, r := Elements(s.left), Elements(s.right);
      assert |l + {s.node.value}| == |l| + 1;
      assert |l + {s.node.value} + r| == |l| + 1 + |r|;
    }
  }

  lemma ElementsSplit(s: Shape)
    requires s.Branch? && IsOrdered(s)
    ensures Elements(s) == Elements(s.left) + {s.node.value} + Elements(s.right)
    ensures s.node.value !in Elements(s.left) && s.node.value !in Elements(s.right)
    ensures Elements(s.left) !! Elements(s.right)
  {
    forall v ensures v in Elements(s) <==> v in Elements(s.left) || v == s.node.value || v in Elements(s.right) {
      ElementsOnOneSide(s, v);
      if v in Elements(s) {
        var n :| n in Nodes(s) && n.value == v;
        assert n in Nodes(s.left) || n == s.node || n in Nodes(s.right);
      }
    }
  }

  // ------------------------------------------------------------------ subtrees

  // `t` is a subtree of `s`, and its nodes begin at position `off` of the in-order sequence of `s`.
  ghost predicate IsSubtree(s: Shape, t: Shape, off: int) {
    || (t == s && off == 0)
    || (s.Branch? && (IsSubtree(s.left, t, off) || IsSubtree(s.right, t, off - |Inorder(s.left)| - 1)))
  }

  lemma {:induction false} SubtreeInorder(s: Shape, t: Shape, off: int)
    requires IsSubtree(s, t, off)
    ensures 0 <= off && off + |Inorder(t)| <= |Inorder(s)|
    ensures Inorder(s)[off..off + |Inorder(t)|] == Inorder(t)
  {
    if !(t == s && off == 0) {
      if IsSubtree(s.left, t, off) {
        SubtreeInorder(s.left, t, off);
      } else {
        var off' := off - |Inorder(s.left)| - 1;
        SubtreeInorder(s.right, t, off');
        assert Inorder(s)[off..off + |Inorder(t)|] == Inorder(s.right)[off'..off' + |Inorder(t)|];
      }
    }
  }

  lemma {:induction false} SubtreeLinks(s: Shape, t: Shape, off: int, p: Node?, parent: Node?)
    requires IsSubtree(s, t, off) && Links(s, p, parent) && IsTree(s) && t.Branch?
    ensures Links(t, t.node, t.node.parent) && IsTree(t)
  {
    if !(t == s && off == 0) {
      if IsSubtree(s.left, t, off) {
        SubtreeLinks(s.left, t, off, p.left, p);
      } else {
        SubtreeLinks(s.right, t, off - |Inorder(s.left)| - 1, p.right, p);
      }
    }
  }

  lemma {:induction false} SubtreeChildren(s: Shape, t: Shape, off: int)
    requires IsSubtree(s, t, off) && t.Branch?
    ensures IsSubtree(s, t.left, off) && IsSubtree(s, t.right, off + |Inorder(t.left)| + 1)
  {
    if t == s && off == 0 {
      assert IsSubtree(s.left, t.left, 0) && IsSubtree(s.right, t.right, 0);
    } else if IsSubtree(s.left, t, off) {
      SubtreeChildren(s.left, t, off);
    } else {
      SubtreeChildren(s.right, t, off - |Inorder(s.left)| - 1);
    }
  }

  // The subtree whose root is at position `i`.
  lemma {:induction false} SubtreeAt(s: Shape, i: nat) returns (t: Shape, off: int)
    requires i < |Inorder(s)|
    ensures IsSubtree(s, t, off) && t.Branch? && t.node == Inorder(s)[i] && off + |Inorder(t.left)| == i
  {
    var k := |Inorder(s.left)|;
    if i == k {
      t, off := s, 0;
    } else if i < k {
      t, off := SubtreeAt(s.left, i);
    } else {
      t, off := SubtreeAt(s.right, i - k - 1);
      off := off + k + 1;
    }
  }

  // A subtree is the whole tree, or the left or right part of the subtree at its parent.
  lemma {:induction false} SubtreeParent(s: Shape, t: Shape, off: int, p: Node?, parent: Node?)
    returns (u: Shape, uoff: int)
    requires IsSubtree(s, t, off) && Links(s, p, parent) && t.Branch?
    ensures if t == s && off == 0 then u == Leaf
            else
              && u.Branch? && IsSubtree(s, u, uoff) && u.node == t.node.parent
              && ((t == u.left && off == uoff) || (t == u.right && off == uoff + |Inorder(u.left)| + 1))
  {
    u, uoff := Leaf, 0;
    if !(t == s && off == 0) {
      var k := |Inorder(s.left)| + 1;
      if IsSubtree(s.left, t, off) {
        u, uoff := SubtreeParent(s.left, t, off, p.left, p);
        if u == Leaf {
          u, uoff := s, 0;
        }
      } else {
        u, uoff := SubtreeParent(s.right, t, off - k, p.right, p);
        uoff := uoff + k;
        if u == Leaf {
          u, uoff := s, 0;
        }
      }
    }
  }

  // The leftmost node below `p`, whose subtree `t0` begins at position `off`.
  method Leftmost(p: Node, ghost s: Shape, ghost t0: Shape, ghost off: nat) returns (next: Node)
    requires t0.Branch? && p == t0.node && IsSubtree(s, t0, off) && Links(t0, p, p.parent)
    ensures off < |Inorder(s)| && next == Inorder(s)[off]
  {
    ghost var t := t0;
    next := p;
    while next.left != null
      invariant t.Branch? && next == t.node && IsSubtree(s, t, off) && Links(t, next, next.parent)
      decreases t
    {
      SubtreeChildren(s, t, off);
      t, next := t.left, next.left;
    }
    SubtreeInorder(s, t, off);
    assert Inorder(t)[0] == next;
  }

  // Up from `node`, with which the subtree `t0` ends, to the first ancestor that it lies to the left of.
  method Climb(node: Node, ghost s: Shape, ghost root: Node?, ghost t0: Shape, ghost off0: int) returns (next: Node?)
    requires Links(s, root, null) && IsTree(s)
    requires t0.Branch? && node == t0.node && t0.right == Leaf && IsSubtree(s, t0, off0)
    ensures var i := off0 + |Inorder(t0)|;
            0 <= i && next == if i < |Inorder(s)| then Inorder(s)[i] else null
  {
    ghost var t, off := t0, off0;
    SubtreeInorder(s, t, off);
    var prev: Node := node;
    next := node.parent;
    while next != null && prev == next.right
      invariant Links(s, root, null)
      invariant t.Branch? && prev == t.node && next == prev.parent && IsSubtree(s, t, off)
      invariant off + |Inorder(t)| == off0 + |Inorder(t0)|
      decreases |Inorder(s)| - |Inorder(t)|
    {
      ghost var u, uoff := Above(s, t, off, root);
      SubtreeInorder(s, u, uoff);
      t, off := u, uoff;
      prev := next;
      next := next.parent;
    }
    if next != null {
      ghost var u, uoff := Above(s, t, off, root);
      SubtreeInorder(s, u, uoff);
      assert Inorder(u)[|Inorder(u.left)|] == u.node;
    } else {
      TopHasNoParent(s, t, off, root);
    }
  }

  // The subtree at the parent, and on which side of the parent `t` hangs.
  lemma Above(s: Shape, t: Shape, off: int, root: Node?) returns (u: Shape, uoff: int)
    requires Links(s, root, null) && IsTree(s) && IsSubtree(s, t, off) && t.Branch? && t.node.parent != null
    ensures u.Branch? && IsSubtree(s, u, uoff) && u.node == t.node.parent && Links(u, u.node, u.node.parent)
    ensures if t.node == u.node.right then t == u.right && off == uoff + |Inorder(u.left)| + 1
            else t == u.left && off == uoff
  {
    u, uoff := SubtreeParent(s, t, off, root, null);
    SubtreeLinks(s, u, uoff, root, null);
    if u.right.Branch? {
      assert u.right.node in Nodes(u.right);
    }
    assert t.node in Nodes(t);
  }

  lemma TopHasNoParent(s: Shape, t: Shape, off: int, root: Node?)
    requires Links(s, root, null) && IsSubtree(s, t, off) && t.Branch? && t.node.parent == null
    ensures t == s && off == 0
  {
    var u, uoff := SubtreeParent(s, t, off, root, null);
  }

  // The node after `node`, which is number `i` of the tree, in the in-order sequence; null at the end.
  method InorderSuccessor(node: Node?, ghost s: Shape, ghost root: Node?, ghost i: nat) returns (next: Node?)
    requires Links(s, root, null) && IsTree(s)
    requires node != null ==> i < |Inorder(s)| && node == Inorder(s)[i]
    ensures next == if node != null && i + 1 < |Inorder(s)| then Inorder(s)[i + 1] else null
  {
    if node == null {
      return null;
    }
    ghost var t, off := SubtreeAt(s, i);
    SubtreeLinks(s, t, off, root, null);
    if node.right != null {
      SubtreeChildren(s, t, off);
      next := Leftmost(node.right, s, t.right, i + 1);
    } else {
      next := Climb(node, s, root, t, off);
    }
  }

  // Iterating over a tree built from a list visits the distinct values of the list in increasing order.
  method IterateList(init: seq<int>) returns (visited: seq<int>)
    ensures Increasing(visited)
    ensures (set v <- visited) == (set v <- init)
  {
    var tree := new Tree.FromList(init);
    visited := tree.Traverse();
    OrderedIsIncreasing(tree.shape);
    InorderNodes(tree.shape);
    ghost var ns := Inorder(tree.shape);
    forall v ensures v in visited <==> v in Elements(tree.shape) {
      if v in visited {
        var i :| 0 <= i < |visited| && visited[i] == v;
        assert visited[i] == ns[i].value && ns[i] in Nodes(tree.shape);
      }
      if v in Elements(tree.shape) {
        var n :| n in Nodes(tree.shape) && n.value == v;
        var i := PositionOf(tree.shape, n);
        assert visited[i] == ns[i].value;
      }
    }
  }
}
