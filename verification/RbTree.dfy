/** wepoll's parent-pointer red-black tree on the heap. A ghost zipper says at every step which
    tree the pointers spell out and where the algorithm stands in it. */
module RbTree {
  import opened RbShape

  ghost function Nodes(t: Shape): set<TreeNode> {
    if t == Leaf then {} else Nodes(t.left) + {t.node} + Nodes(t.right)
  }

  ghost function CtxNodes(c: Ctx): set<TreeNode> {
    match c
    case Top => {}
    case InLeft(up, n, _, _, r) => CtxNodes(up) + {n} + Nodes(r)
    case InRight(up, n, _, _, l) => CtxNodes(up) + {n} + Nodes(l)
  }

  function Root(t: Shape): TreeNode? { if t == Leaf then null else t.node }
  function ParentOf(c: Ctx): TreeNode? { if c == Top then null else c.node }

  /** No node occurs twice. */
  ghost predicate Distinct(t: Shape) {
    t == Leaf ||
    (&& Distinct(t.left) && Distinct(t.right) && Nodes(t.left) !! Nodes(t.right)
     && t.node !in Nodes(t.left) && t.node !in Nodes(t.right))
  }

  ghost predicate CtxDistinct(c: Ctx) {
    c == Top ||
    (&& CtxDistinct(c.up) && Distinct(Sibling(c)) && c.node !in CtxNodes(c.up) && c.node !in Nodes(Sibling(c))
     && CtxNodes(c.up) !! Nodes(Sibling(c)))
  }

  /** The nodes of t link up as t says, below parent p. */
  ghost predicate Linked(t: Shape, p: TreeNode?)
    reads Nodes(t)
  {
    t == Leaf ||
    (&& t.node.key == t.key && t.node.red == t.red && t.node.parent == p
     && t.node.left == Root(t.left) && t.node.right == Root(t.right)
     && Linked(t.left, t.node) && Linked(t.right, t.node))
  }

  lemma {:induction false} NodesAllocated(t: Shape)
    ensures forall o | o in Nodes(t) :: allocated(o)
  {
    if t != Leaf {
      NodesAllocated(t.left);
      NodesAllocated(t.right);
    }
  }

  /** What a rotation to the left may rely on: five pieces that share no node. */
  lemma RotationLeftParts(t: Shape, parent: TreeNode?)
    requires t != Leaf && t.right != Leaf && Linked(t, parent) && Distinct(t)
    ensures var a, b, d, p, q := t.left, t.right.left, t.right.right, t.node, t.right.node;
            && Linked(a, p) && Linked(b, q) && Linked(d, q) && Distinct(b)
            && p.key == t.key && p.red == t.red && q.key == t.right.key && q.red == t.right.red
            && p.left == Root(a) && q.left == Root(b) && q.right == Root(d) && p != q
            && p !in Nodes(a) && p !in Nodes(b) && p !in Nodes(d) && q !in Nodes(a) && q !in Nodes(b) && q !in Nodes(d)
            && (b != Leaf ==> b.node in Nodes(b) && b.node !in Nodes(a) && b.node !in Nodes(d))
            && (forall o | o in Nodes(a) :: allocated(o)) && (forall o | o in Nodes(d) :: allocated(o))
  {
    assert Linked(t.right, t.node) && Distinct(t.right);
    assert Nodes(t.right) == Nodes(t.right.left) + {t.right.node} + Nodes(t.right.right);
    NodesAllocated(t.left);
    NodesAllocated(t.right.right);
  }

  /** What a rotation to the right may rely on: five pieces that share no node. */
  lemma RotationRightParts(t: Shape, parent: TreeNode?)
    requires t != Leaf && t.left != Leaf && Linked(t, parent) && Distinct(t)
    ensures var a, b, d, p, q := t.right, t.left.right, t.left.left, t.node, t.left.node;
            && Linked(a, p) && Linked(b, q) && Linked(d, q) && Distinct(b)
            && p.key == t.key && p.red == t.red && q.key == t.left.key && q.red == t.left.red
            && p.right == Root(a) && q.right == Root(b) && q.left == Root(d) && p != q
            && p !in Nodes(a) && p !in Nodes(b) && p !in Nodes(d) && q !in Nodes(a) && q !in Nodes(b) && q !in Nodes(d)
            && (b != Leaf ==> b.node in Nodes(b) && b.node !in Nodes(a) && b.node !in Nodes(d))
            && (forall o | o in Nodes(a) :: allocated(o)) && (forall o | o in Nodes(d) :: allocated(o))
  {
    assert Linked(t.left, t.node) && Distinct(t.left);
    assert Nodes(t.left) == Nodes(t.left.left) + {t.left.node} + Nodes(t.left.right);
    NodesAllocated(t.right);
    NodesAllocated(t.left.left);
  }

  lemma {:induction false} CtxAllocated(c: Ctx)
    ensures forall o | o in CtxNodes(c) :: allocated(o)
  {
    if c != Top {
      CtxAllocated(c.up);
      NodesAllocated(Sibling(c));
    }
  }

  lemma RotationLeftDistinct(t: Shape)
    requires t != Leaf && t.right != Leaf && Distinct(t)
    ensures Distinct(RotateLeft(t)) && Nodes(RotateLeft(t)) == Nodes(t)
  {
    var r := RotateLeft(t);
    assert Distinct(t.right);
    assert Nodes(t) == Nodes(t.left) + {t.node} + (Nodes(t.right.left) + {t.right.node} + Nodes(t.right.right));
    assert Distinct(r.left);
    assert Nodes(r.left) == Nodes(r.left.left) + {t.node} + Nodes(r.left.right);
  }

  lemma RotationRightDistinct(t: Shape)
    requires t != Leaf && t.left != Leaf && Distinct(t)
    ensures Distinct(RotateRight(t)) && Nodes(RotateRight(t)) == Nodes(t)
  {
    var r := RotateRight(t);
    assert Distinct(t.left);
    assert Nodes(t) == Nodes(t.right) + {t.node} + (Nodes(t.left.left) + {t.left.node} + Nodes(t.left.right));
    assert Distinct(r.right);
    assert Nodes(r.right) == Nodes(r.right.left) + {t.node} + Nodes(r.right.right);
  }

  lemma NodeIsLinked(t: Shape, p: TreeNode?)
    requires t != Leaf && t.node.key == t.key && t.node.red == t.red && t.node.parent == p
    requires t.node.left == Root(t.left) && t.node.right == Root(t.right)
    requires Linked(t.left, t.node) && Linked(t.right, t.node)
    ensures Linked(t, p)
  {
  }

  lemma CloseNodes(c: Ctx, t: Shape)
    requires c != Top
    ensures CtxNodes(c.up) + Nodes(Close(c, t)) == CtxNodes(c) + Nodes(t)
  {
  }

  lemma {:induction false} PlugNodes(c: Ctx, t: Shape)
    ensures Nodes(Plug(c, t)) == CtxNodes(c) + Nodes(t)
  {
    if c != Top {
      PlugNodes(c.up, Close(c, t));
    }
  }

  lemma {:induction false} LocateStays(c: Ctx, t: Shape, key: nat)
    ensures var (c', hole) := Locate(c, t, key); Plug(c', hole) == Plug(c, t)
    decreases t
  {
    if t != Leaf && key < t.key {
      LocateStays(InLeft(c, t.node, t.key, t.red, t.right), t.left, key);
    } else if t != Leaf && key > t.key {
      LocateStays(InRight(c, t.node, t.key, t.red, t.left), t.right, key);
    }
  }

  /** Locating a key in an ordered tree finds it exactly when it is there. */
  lemma LocatedIsItem(t: Shape, key: nat)
    requires RedBlack(t) && Increasing(Items(t))
    ensures var hole := Locate(Top, t, key).1;
            (hole == Leaf <==> key !in KeySet(t)) && (hole != Leaf ==> (hole.node, key) in Items(t))
  {
    LocateIsCorrect(Top, t, key);
    var (c, hole) := Locate(Top, t, key);
    PlugItems(c, hole);
    if hole != Leaf {
      assert (hole.node, hole.key) in Items(hole);
      assert (hole.node, key) in Items(t);
    }
  }

  /** The located subtree is part of the tree. */
  lemma LocatedNodes(t: Shape, key: nat)
    ensures var (c, hole) := Locate(Top, t, key); CtxNodes(c) + Nodes(hole) == Nodes(t)
  {
    LocateStays(Top, t, key);
    var (c, hole) := Locate(Top, t, key);
    PlugNodes(c, hole);
  }

  class Tree {
    var root: TreeNode?
    ghost var shape: Shape

    /** The nodes around the hole link up as c says, with `hole` in it. */
    ghost predicate CtxLinked(c: Ctx, hole: TreeNode?)
      reads this`root, CtxNodes(c)
    {
      if c == Top then root == hole else
        && c.node.key == c.key && c.node.red == c.red && c.node.parent == ParentOf(c.up)
        && c.node.left == (if c.InLeft? then hole else Root(c.left))
        && c.node.right == (if c.InRight? then hole else Root(c.right))
        && Linked(Sibling(c), c.node) && CtxLinked(c.up, c.node)
    }

    /** The heap is the tree Plug(c, t), seen from the place of t. */
    ghost predicate Focus(c: Ctx, t: Shape)
      reads this`root, CtxNodes(c), Nodes(t)
    {
      && CtxLinked(c, Root(t)) && Linked(t, ParentOf(c))
      && Distinct(t) && CtxDistinct(c) && CtxNodes(c) !! Nodes(t)
    }

    ghost predicate Valid()
      reads this, Nodes(shape)
    {
      Focus(Top, shape) && RedBlack(shape) && Increasing(Items(shape))
    }

    lemma Down(c: Ctx, t: Shape)
      requires Focus(c, t) && t != Leaf
      ensures Focus(InLeft(c, t.node, t.key, t.red, t.right), t.left)
      ensures Focus(InRight(c, t.node, t.key, t.red, t.left), t.right)
    {
    }

    lemma Up(c: Ctx, t: Shape)
      requires Focus(c, t) && c != Top
      ensures Focus(c.up, Close(c, t)) && Close(c, t) != Leaf
    {
    }

    /** The pieces of a focused tree share no node. */
    lemma Apart(c: Ctx, t: Shape)
      requires Focus(c, t) && t != Leaf
      ensures t.node !in CtxNodes(c) && CtxNodes(c) !! Nodes(t.left) && CtxNodes(c) !! Nodes(t.right)
      ensures ParentOf(c) != null ==> ParentOf(c) in CtxNodes(c)
      ensures t.left != Leaf ==>
                t.left.node !in CtxNodes(c) && t.left.node in Nodes(t)
                && CtxNodes(c) !! Nodes(t.left.left) && CtxNodes(c) !! Nodes(t.left.right)
                && Nodes(t.left.left) <= Nodes(t) && Nodes(t.left.right) <= Nodes(t)
      ensures t.right != Leaf ==>
                t.right.node !in CtxNodes(c) && t.right.node in Nodes(t)
                && CtxNodes(c) !! Nodes(t.right.left) && CtxNodes(c) !! Nodes(t.right.right)
                && Nodes(t.right.left) <= Nodes(t) && Nodes(t.right.right) <= Nodes(t)
    {
    }

    /** A focused node points to what its shape says. */
    lemma Children(c: Ctx, t: Shape)
      requires Focus(c, t) && t != Leaf
      ensures t.node.parent == ParentOf(c) && t.node.left == Root(t.left) && t.node.right == Root(t.right)
      ensures t.node.key == t.key && t.node.red == t.red
    {
    }

    lemma RootHoleFilled(node: TreeNode)
      requires root == node
      ensures CtxLinked(Top, node) && CtxDistinct(Top)
    {
    }

    lemma {:induction false} UpAll(c: Ctx, t: Shape)
      requires Focus(c, t)
      ensures Focus(Top, Plug(c, t)) && Nodes(Plug(c, t)) == CtxNodes(c) + Nodes(t)
      ensures t != Leaf ==> Plug(c, t) != Leaf
      decreases c
    {
      if c != Top {
        Up(c, t);
        UpAll(c.up, Close(c, t));
      }
    }

    /** Where the parent of the hole stands, and what hangs on the other side. */
    lemma ParentPointers(c: Ctx, t: Shape)
      requires Focus(c, t) && c != Top
      ensures c.node.parent == ParentOf(c.up) && c.node.red == c.red
      ensures c.node.left == Root(if c.InLeft? then t else c.left) && c.node.right == Root(if c.InLeft? then c.right else t)
      ensures Sibling(c) != Leaf ==> Sibling(c).node.red == Sibling(c).red && Sibling(c).node in CtxNodes(c)
      ensures t != Leaf ==> (c.InLeft? <==> t.node == c.node.left) && (c.InRight? <==> t.node == c.node.right)
    {
    }

    constructor ()
      ensures Valid() && shape == Leaf
    {
      root := null;
      shape := Leaf;
    }

    /** What the parent of node p points to is now q (the first lines of TREE__ROTATE). */
    method ReplaceChild(p: TreeNode, parent: TreeNode?, q: TreeNode?, ghost c: Ctx)
      requires CtxLinked(c, p) && CtxDistinct(c) && p !in CtxNodes(c) && parent == ParentOf(c)
      modifies this`root, if parent == null then {} else {parent}
      ensures CtxLinked(c, q)
      ensures parent != null ==> parent.key == old(parent.key) && parent.red == old(parent.red) && parent.parent == old(parent.parent)
    {
      if parent != null {
        if parent.left == p {
          parent.left := q;
        } else {
          parent.right := q;
        }
      } else {
        root := q;
      }
    }

    lemma FocusLinked(c: Ctx, t: Shape)
      requires Focus(c, t)
      ensures Linked(t, ParentOf(c))
    {
    }

    method SetParent(child: TreeNode?, p: TreeNode?, ghost b: Shape, ghost before: TreeNode?)
      requires child == Root(b) && Linked(b, before) && Distinct(b)
      modifies if child == null then {} else {child}
      ensures Linked(b, p)
    {
      if child != null {
        assert Linked(b.left, child) && Linked(b.right, child);
        child.parent := p;
      }
    }

    method RotateLeft(node: TreeNode, ghost c: Ctx, ghost t: Shape)
      requires Focus(c, t) && t != Leaf && t.right != Leaf && t.node == node
      modifies this`root, CtxNodes(c), Nodes(t)
      ensures Focus(c, RbShape.RotateLeft(t)) && Nodes(RbShape.RotateLeft(t)) == Nodes(t)
    {
      hide CtxDistinct;
      var p := node;
      Children(c, t);
      var q := node.right;
      var parent := p.parent;
      Apart(c, t);
      RotationLeftDistinct(t);
      assert Linked(t, parent) by { FocusLinked(c, t); }
      assert parent != null ==> parent !in Nodes(t);
      NodesAllocated(t);
      CtxAllocated(c);
      hide Linked;
      ReplaceChild(p, parent, q, c);
      RelinkLeft(p, q, parent, t);
    }

    /** The pointers between the two nodes of a rotation and the subtree that changes sides. */
    method RelinkLeft(p: TreeNode, q: TreeNode, parent: TreeNode?, ghost t: Shape)
      requires t != Leaf && t.right != Leaf && t.node == p && t.right.node == q
      requires Linked(t, parent) && Distinct(t)
      modifies p, q, Nodes(t.right.left)
      ensures Linked(RbShape.RotateLeft(t), parent)
    {
      hide Distinct, Nodes, Linked, Increasing, Items;
      ghost var a, b, d := t.left, t.right.left, t.right.right;
      RotationLeftParts(t, parent);
      q.parent := parent;
      p.parent := q;
      p.right := q.left;
      SetParent(p.right, p, b, q);
      q.left := p;
      assert Linked(a, p) && Linked(b, p) && Linked(d, q);
      ghost var r := RbShape.RotateLeft(t);
      NodeIsLinked(r.left, q);
      NodeIsLinked(r, parent);
    }

    method RotateRight(node: TreeNode, ghost c: Ctx, ghost t: Shape)
      requires Focus(c, t) && t != Leaf && t.left != Leaf && t.node == node
      modifies this`root, CtxNodes(c), Nodes(t)
      ensures Focus(c, RbShape.RotateRight(t)) && Nodes(RbShape.RotateRight(t)) == Nodes(t)
    {
      hide CtxDistinct;
      var p := node;
      Children(c, t);
      var q := node.left;
      var parent := p.parent;
      Apart(c, t);
      RotationRightDistinct(t);
      assert Linked(t, parent) by { FocusLinked(c, t); }
      assert parent != null ==> parent !in Nodes(t);
      NodesAllocated(t);
      CtxAllocated(c);
      hide Linked;
      ReplaceChild(p, parent, q, c);
      RelinkRight(p, q, parent, t);
    }

    /** The pointers between the two nodes of a rotation and the subtree that changes sides. */
    method RelinkRight(p: TreeNode, q: TreeNode, parent: TreeNode?, ghost t: Shape)
      requires t != Leaf && t.left != Leaf && t.node == p && t.left.node == q
      requires Linked(t, parent) && Distinct(t)
      modifies p, q, Nodes(t.left.right)
      ensures Linked(RbShape.RotateRight(t), parent)
    {
      hide Distinct, Nodes, Linked, Increasing, Items;
      ghost var a, b, d := t.right, t.left.right, t.left.left;
      RotationRightParts(t, parent);
      q.parent := parent;
      p.parent := q;
      p.left := q.right;
      SetParent(p.left, p, b, q);
      q.right := p;
      assert Linked(a, p) && Linked(b, p) && Linked(d, q);
      ghost var r := RbShape.RotateRight(t);
      NodeIsLinked(r.right, q);
      NodeIsLinked(r, parent);
    }

    method PaintNode(node: TreeNode, red: bool, ghost c: Ctx, ghost t: Shape)
      requires Focus(c, t) && t != Leaf && t.node == node
      modifies node`red
      ensures Focus(c, Paint(t, red)) && Nodes(Paint(t, red)) == Nodes(t)
    {
      node.red := red;
    }

    method PaintSibling(node: TreeNode, red: bool, ghost c: Ctx, ghost t: Shape)
      requires Focus(c, t) && c != Top && Sibling(c) != Leaf && Sibling(c).node == node
      modifies node`red
      ensures Focus(Recolour(c, c.red, Paint(Sibling(c), red)), t)
      ensures CtxNodes(Recolour(c, c.red, Paint(Sibling(c), red))) == CtxNodes(c)
    {
      node.red := red;
    }

    method PaintParent(node: TreeNode, red: bool, ghost c: Ctx, ghost t: Shape)
      requires Focus(c, t) && c != Top && c.node == node
      modifies node`red
      ensures Focus(Recolour(c, red, Sibling(c)), t)
      ensures CtxNodes(Recolour(c, red, Sibling(c))) == CtxNodes(c)
    {
      node.red := red;
    }

    // ---- tree_find ----

    method Find(key: nat) returns (found: TreeNode?)
      requires Valid()
      ensures found == Root(Locate(Top, shape, key).1)
      ensures found == null <==> key !in KeySet(shape)
      ensures found != null ==> (found, key) in Items(shape) && found in Nodes(shape)
    {
      found := root;
      ghost var c, t := Top, shape;
      while found != null
        invariant Focus(c, t) && Root(t) == found
        invariant Locate(c, t, key) == Locate(Top, shape, key)
        decreases t
      {
        Children(c, t);
        Down(c, t);
        if key < found.key {
          found := found.left;
          c, t := InLeft(c, t.node, t.key, t.red, t.right), t.left;
        } else if key > found.key {
          found := found.right;
          c, t := InRight(c, t.node, t.key, t.red, t.left), t.right;
        } else {
          break;
        }
      }
      LocatedIsItem(shape, key);
      LocatedNodes(shape, key);
    }

    // ---- tree_add ----

    /** The first part of tree_add: walk to the hole for the key and hang the red leaf there. */
    method Hang(node: TreeNode, key: nat) returns (added: bool, ghost c: Ctx)
      requires Valid() && node !in Nodes(shape)
      modifies this`root, Nodes(shape), node
      ensures c == Locate(Top, shape, key).0
      ensures added <==> Locate(Top, shape, key).1 == Leaf
      ensures added ==> Focus(c, Node(Leaf, node, key, true, Leaf)) && CtxNodes(c) == Nodes(shape)
      ensures !added ==> Focus(Top, shape)
    {
      hide CtxLinked, Linked, Distinct, CtxDistinct, RedBlack, Increasing;
      var parent := root;
      c := Top;
      ghost var t := shape;
      RootPointer(shape);
      while parent != null
        invariant Focus(c, t) && Root(t) == parent && CtxNodes(c) + Nodes(t) == Nodes(shape)
        invariant Locate(c, t, key) == Locate(Top, shape, key)
        invariant Focus(Top, shape) && (parent == null ==> c == Top)
        decreases t
      {
        Children(c, t);
        Down(c, t);
        if key < parent.key {
          c, t := InLeft(c, t.node, t.key, t.red, t.right), t.left;
          if parent.left != null {
            parent := parent.left;
          } else {
            FillHole(parent, true, node, c);
            break;
          }
        } else if key > parent.key {
          c, t := InRight(c, t.node, t.key, t.red, t.left), t.right;
          if parent.right != null {
            parent := parent.right;
          } else {
            FillHole(parent, false, node, c);
            break;
          }
        } else {
          return false, c;
        }
      }
      if parent == null {
        root := node;
        RootHoleFilled(node);
      }
      InitLeaf(node, key, parent, c);
      added := true;
    }

    lemma RootPointer(t: Shape)
      requires Focus(Top, t)
      ensures root == Root(t)
    {
    }

    method FillHole(parent: TreeNode, left: bool, node: TreeNode, ghost c: Ctx)
      requires Focus(c, Leaf) && c != Top && c.node == parent && left == c.InLeft?
      modifies parent
      ensures CtxLinked(c, node) && CtxDistinct(c)
    {
      if left {
        parent.left := node;
      } else {
        parent.right := node;
      }
    }

    method InitLeaf(node: TreeNode, key: nat, parent: TreeNode?, ghost c: Ctx)
      requires CtxLinked(c, node) && CtxDistinct(c) && node !in CtxNodes(c) && parent == ParentOf(c)
      modifies node
      ensures Focus(c, Node(Leaf, node, key, true, Leaf))
    {
      CtxAllocated(c);
      assert Distinct(Leaf) && Nodes(Leaf) == {} && Linked(Leaf, node);
      ghost var leaf := Node(Leaf, node, key, true, Leaf);
      assert Distinct(leaf) && Nodes(leaf) == {node};
      node.key := key;
      node.left, node.right := null, null;
      node.parent := parent;
      node.red := true;
    }

    method PushRedUp(parent: TreeNode, uncle: TreeNode, grandparent: TreeNode, ghost c: Ctx, ghost t: Shape)
      returns (ghost c': Ctx, ghost t': Shape)
      requires Focus(c, t) && c != Top && c.up != Top && c.node == parent && c.up.node == grandparent
      requires Sibling(c.up) != Leaf && Sibling(c.up).node == uncle
      modifies parent, uncle, grandparent
      ensures Focus(c', t') && c' == c.up.up && t' == InsertRecolour(c, t) && t'.node == grandparent
      ensures CtxNodes(c') + Nodes(t') == CtxNodes(c) + Nodes(t)
    {
      hide CtxLinked, Linked, Distinct, CtxDistinct;
      PaintParent(parent, false, c, t);
      ghost var c1 := Recolour(c, false, Sibling(c));
      Up(c1, t);
      ghost var p := Close(c1, t);
      assert p == Paint(Close(c, t), false);
      PaintSibling(uncle, false, c.up, p);
      ghost var c2 := Recolour(c.up, c.up.red, Paint(Sibling(c.up), false));
      PaintParent(grandparent, true, c2, p);
      ghost var c3 := Recolour(c2, true, Sibling(c2));
      Up(c3, p);
      c', t' := c.up.up, Close(c3, p);
    }

    method RotateInsertLeft(node0: TreeNode, parent0: TreeNode, grandparent: TreeNode, ghost c: Ctx, ghost t: Shape)
      returns (node: TreeNode, ghost c': Ctx, ghost t': Shape)
      requires Focus(c, t) && t != Leaf && t.node == node0 && c != Top && c.up.InLeft? && c.node == parent0 && c.up.node == grandparent
      modifies this`root, CtxNodes(c), Nodes(t)
      ensures Focus(c', t') && t' != Leaf && t'.node == node && CtxNodes(c') + Nodes(t') == CtxNodes(c) + Nodes(t)
      ensures c' != Top && !c'.red && Plug(c', t') == Plug(c.up.up, InsertRotate(c, t))
    {
      hide Focus, Nodes;
      var parent := parent0;
      node := node0;
      ParentPointers(c, t);
      Up(c, t);
      ghost var p := Close(c, t);
      CloseNodes(c, t);
      if node == parent.right {
        RotateLeft(parent, c.up, p);
        p := RbShape.RotateLeft(p);
        node := parent;
        Down(c.up, p);
        Children(InLeft(c.up, p.node, p.key, p.red, p.right), p.left);
        parent := node.parent;
      }
      c', t' := RotateGrandparentLeft(parent, grandparent, c.up, p);
      assert c'.up == c.up.up && Close(c', t') == InsertRotate(c, t);
    }

    /** The parent turns black and takes the grandparent's place, the grandparent turns red. */
    method RotateGrandparentLeft(parent: TreeNode, grandparent: TreeNode, ghost g: Ctx, ghost p0: Shape)
      returns (ghost c': Ctx, ghost t': Shape)
      requires Focus(g, p0) && p0 != Leaf && p0.node == parent && g.InLeft? && g.node == grandparent
      modifies this`root, CtxNodes(g), Nodes(p0)
      ensures var r := RbShape.RotateRight(Close(Recolour(g, true, Sibling(g)), Paint(p0, false)));
              Focus(c', t') && c' == InLeft(g.up, r.node, r.key, r.red, r.right) && t' == r.left
      ensures CtxNodes(c') + Nodes(t') == CtxNodes(g) + Nodes(p0)
    {
      hide CtxLinked, Linked, Distinct, CtxDistinct;
      PaintNode(parent, false, g, p0);
      ghost var p := Paint(p0, false);
      PaintParent(grandparent, true, g, p);
      ghost var g1 := Recolour(g, true, Sibling(g));
      Up(g1, p);
      RotateRight(grandparent, g.up, Close(g1, p));
      ghost var r := RbShape.RotateRight(Close(g1, p));
      Down(g.up, r);
      c', t' := InLeft(g.up, r.node, r.key, r.red, r.right), r.left;
    }

    method RotateInsertRight(node0: TreeNode, parent0: TreeNode, grandparent: TreeNode, ghost c: Ctx, ghost t: Shape)
      returns (node: TreeNode, ghost c': Ctx, ghost t': Shape)
      requires Focus(c, t) && t != Leaf && t.node == node0 && c != Top && c.up.InRight? && c.node == parent0 && c.up.node == grandparent
      modifies this`root, CtxNodes(c), Nodes(t)
      ensures Focus(c', t') && t' != Leaf && t'.node == node && CtxNodes(c') + Nodes(t') == CtxNodes(c) + Nodes(t)
      ensures c' != Top && !c'.red && Plug(c', t') == Plug(c.up.up, InsertRotate(c, t))
    {
      hide Focus, Nodes;
      var parent := parent0;
      node := node0;
      ParentPointers(c, t);
      Up(c, t);
      ghost var p := Close(c, t);
      CloseNodes(c, t);
      if node == parent.left {
        RotateRight(parent, c.up, p);
        p := RbShape.RotateRight(p);
        node := parent;
        Down(c.up, p);
        Children(InRight(c.up, p.node, p.key, p.red, p.left), p.right);
        parent := node.parent;
      }
      c', t' := RotateGrandparentRight(parent, grandparent, c.up, p);
    }

    /** The parent turns black and takes the grandparent's place, the grandparent turns red. */
    method RotateGrandparentRight(parent: TreeNode, grandparent: TreeNode, ghost g: Ctx, ghost p0: Shape)
      returns (ghost c': Ctx, ghost t': Shape)
      requires Focus(g, p0) && p0 != Leaf && p0.node == parent && g.InRight? && g.node == grandparent
      modifies this`root, CtxNodes(g), Nodes(p0)
      ensures var r := RbShape.RotateLeft(Close(Recolour(g, true, Sibling(g)), Paint(p0, false)));
              Focus(c', t') && c' == InRight(g.up, r.node, r.key, r.red, r.left) && t' == r.right
      ensures CtxNodes(c') + Nodes(t') == CtxNodes(g) + Nodes(p0)
    {
      hide CtxLinked, Linked, Distinct, CtxDistinct;
      PaintNode(parent, false, g, p0);
      ghost var p := Paint(p0, false);
      PaintParent(grandparent, true, g, p);
      ghost var g1 := Recolour(g, true, Sibling(g));
      Up(g1, p);
      RotateLeft(grandparent, g.up, Close(g1, p));
      ghost var r := RbShape.RotateLeft(Close(g1, p));
      Down(g.up, r);
      c', t' := InRight(g.up, r.node, r.key, r.red, r.left), r.right;
    }

    /** TREE__REBALANCE_AFTER_INSERT, on the side where the parent hangs from the grandparent. */
    method RebalanceInsertStep(node0: TreeNode, parent: TreeNode, ghost c: Ctx, ghost t: Shape)
      returns (node: TreeNode, ghost c': Ctx, ghost t': Shape)
      requires Focus(c, t) && t != Leaf && t.node == node0 && c != Top && c.node == parent && c.up != Top
      modifies this`root, CtxNodes(c), Nodes(t)
      ensures Focus(c', t') && t' != Leaf && t'.node == node && CtxNodes(c') + Nodes(t') == CtxNodes(c) + Nodes(t)
      ensures IsRed(Sibling(c.up)) ==> c' == c.up.up && t' == InsertRecolour(c, t)
      ensures !IsRed(Sibling(c.up)) ==> c' != Top && !c'.red && Plug(c', t') == Plug(c.up.up, InsertRotate(c, t))
    {
      Up(c, t);
      ParentPointers(c, t);
      ParentPointers(c.up, Close(c, t));
      var grandparent := parent.parent;
      var left := parent == grandparent.left;
      var uncle := if left then grandparent.right else grandparent.left;
      if uncle != null && uncle.red {
        c', t' := PushRedUp(parent, uncle, grandparent, c, t);
        node := grandparent;
      } else if left {
        node, c', t' := RotateInsertLeft(node0, parent, grandparent, c, t);
      } else {
        node, c', t' := RotateInsertRight(node0, parent, grandparent, c, t);
      }
    }

    lemma ParentColour(c: Ctx, t: Shape)
      requires Focus(c, t)
      ensures c != Top ==> c.node.red == c.red
    {
    }

    lemma RedParentPlace(c: Ctx, t: Shape)
      requires Focus(c, t) && ParentOf(c) != null && ParentOf(c).red
      requires c != Top && c.red ==> Around(c, BlackHeight(t))
      ensures c != Top && c.red && c.up != Top
    {
    }

    lemma InsertFixStops(c: Ctx, t: Shape)
      requires t != Leaf && (c == Top || !c.red)
      ensures InsertFix(c, t) == Plug(c, t)
    {
    }

    /** The fix-up loop of tree_add. */
    method RebalanceInsert(node0: TreeNode, ghost c0: Ctx, ghost t0: Shape) returns (ghost c: Ctx, ghost t: Shape)
      requires Focus(c0, t0) && IsRed(t0) && t0.node == node0
      requires Balanced(t0) && NoRedRed(t0) && Around(c0, BlackHeight(t0))
      modifies this`root, CtxNodes(c0), Nodes(t0)
      ensures Focus(c, t) && t != Leaf && Plug(c, t) == InsertFix(c0, t0) && CtxNodes(c) + Nodes(t) == CtxNodes(c0) + Nodes(t0)
    {
      hide Focus, Nodes, CtxNodes, InsertRecolour, InsertRotate, Balanced, NoRedRed, BlackHeight, Around;
      c, t := c0, t0;
      var node := node0;
      Children(c, t);
      var parent := node.parent;
      while parent != null && parent.red
        invariant Focus(c, t) && t != Leaf && t.node == node && parent == ParentOf(c)
        invariant CtxNodes(c) + Nodes(t) == CtxNodes(c0) + Nodes(t0)
        invariant InsertFix(c, t) == InsertFix(c0, t0)
        invariant c != Top && c.red ==> IsRed(t) && Balanced(t) && NoRedRed(t) && Around(c, BlackHeight(t))
        decreases c != Top && c.red, c
      {
        ghost var c1, t1 := c, t;
        RedParentPlace(c1, t1);
        node, c, t := RebalanceInsertStep(node, parent, c1, t1);
        if IsRed(Sibling(c1.up)) {
          RecolourIsBalanced(c1, t1);
        } else {
          InsertFixStops(c, t);
        }
        Children(c, t);
        parent := node.parent;
      }
      ParentColour(c, t);
      InsertFixStops(c, t);
    }

    /** Add a node under a key that is not there yet. */
    method Add(node: TreeNode, key: nat) returns (added: bool)
      requires Valid() && node !in Nodes(shape)
      modifies this, Nodes(shape), node
      ensures Valid()
      ensures added <==> key !in KeySet(old(shape))
      ensures !added ==> shape == old(shape)
      ensures added ==> shape == RbShape.Add(old(shape), node, key) && Nodes(shape) == Nodes(old(shape)) + {node}
      ensures added ==> KeySet(shape) == KeySet(old(shape)) + {key}
    {
      ghost var before := shape;
      ghost var leaf := Node(Leaf, node, key, true, Leaf);
      ghost var c;
      AdditionIsCorrect(before, node, key);
      hide *;
      added, c := Hang(node, key);
      if !added {
        MakeValid();
        return;
      }
      Settle(node, c, leaf);
      shape := RbShape.Add(before, node, key);
      MakeValid();
    }

    /** The rest of tree_add: the fix-up loop, and the root turns black. */
    method Settle(node: TreeNode, ghost c: Ctx, ghost leaf: Shape)
      requires Focus(c, leaf) && IsRed(leaf) && leaf.node == node
      requires Balanced(leaf) && NoRedRed(leaf) && Around(c, BlackHeight(leaf))
      modifies this`root, CtxNodes(c), Nodes(leaf)
      ensures Focus(Top, Paint(InsertFix(c, leaf), false))
      ensures Nodes(Paint(InsertFix(c, leaf), false)) == CtxNodes(c) + Nodes(leaf)
    {
      hide *;
      ghost var c', t' := RebalanceInsert(node, c, leaf);
      UpAll(c', t');
      RootPointer(Plug(c', t'));
      RootIsNode(Plug(c', t'));
      PaintNode(root, false, Top, Plug(c', t'));
    }

    /** tree_add as a change of shape, and what it does to the items. */
    lemma AdditionIsCorrect(t: Shape, node: TreeNode, key: nat)
      requires RedBlack(t) && Increasing(Items(t))
      ensures var (c, hole) := Locate(Top, t, key);
              (hole == Leaf <==> key !in KeySet(t)) && (hole == Leaf ==> Around(c, BlackHeight(Leaf)))
      ensures key !in KeySet(t) ==>
                var leaf, t' := Node(Leaf, node, key, true, Leaf), RbShape.Add(t, node, key);
                && t' == Paint(InsertFix(Locate(Top, t, key).0, leaf), false) && Nodes(leaf) == {node} && Root(leaf) == node
                && IsRed(leaf) && Balanced(leaf) && NoRedRed(leaf) && BlackHeight(leaf) == BlackHeight(Leaf)
                && RedBlack(t') && Increasing(Items(t')) && KeySet(t') == KeySet(t) + {key}
    {
      AddIsCorrect(t, node, key);
      LocateAround(Top, t, key);
      LeafIsBalanced(node, key);
      var (c, hole) := Locate(Top, t, key);
      assert hole == Leaf ==> Around(c, BlackHeight(Leaf));
      assert key !in KeySet(t) ==> RbShape.Add(t, node, key) == Paint(InsertFix(c, Node(Leaf, node, key, true, Leaf)), false);
      hide RbShape.Add, InsertFix, Locate, Increasing, RedBlack, Items, KeySet;
      if key !in KeySet(t) {
        AddedKeys(t, node, key);
      }
    }

    lemma AddedKeys(t: Shape, node: TreeNode, key: nat)
      requires RedBlack(t) && Increasing(Items(t)) && key !in KeySet(t)
      ensures KeySet(RbShape.Add(t, node, key)) == KeySet(t) + {key}
    {
      AddIsCorrect(t, node, key);
      var t' := RbShape.Add(t, node, key);
      hide RbShape.Add, Items, KeySet, Increasing, RedBlack;
      var a, b :| Items(t) == a + b && Items(t') == a + [(node, key)] + b;
      KeysOfItems(t, t', a, (node, key), b);
    }

    lemma LeafIsBalanced(node: TreeNode, key: nat)
      ensures var leaf := Node(Leaf, node, key, true, Leaf);
              IsRed(leaf) && Balanced(leaf) && NoRedRed(leaf) && BlackHeight(leaf) == BlackHeight(Leaf)
    {
    }

    // ---- tree_del ----

    /** The only child of a node takes its place. */
    method Hoist(node: TreeNode, child: TreeNode?, parent: TreeNode?, ghost c: Ctx, ghost t: Shape, ghost f: Shape)
      requires Focus(c, t) && t != Leaf && t.node == node && parent == ParentOf(c) && child == Root(f)
      requires (t.left == Leaf && f == t.right) || (t.right == Leaf && f == t.left)
      modifies this`root, CtxNodes(c), Nodes(f)
      ensures Focus(c, f) && Nodes(f) == Nodes(t) - {node} && node.key == old(node.key)
    {
      assert Linked(f, node) && Distinct(f) && Nodes(f) == Nodes(t) - {node};
      NodesAllocated(f);
      CtxAllocated(c);
      assert parent != null ==> parent !in Nodes(f);
      hide Linked, Distinct, CtxDistinct;
      ReplaceChild(node, parent, child, c);
      SetParent(child, parent, f, node);
    }

    lemma {:induction false} ReplaceMinFocus(c: Ctx, t: Shape, f: Shape)
      requires t != Leaf && Focus(Leftmost(c, t), f)
      ensures Focus(c, ReplaceMin(t, f))
      ensures CtxNodes(Leftmost(c, t)) + Nodes(f) == CtxNodes(c) + Nodes(ReplaceMin(t, f))
      decreases t
    {
      if t.left != Leaf {
        var c' := InLeft(c, t.node, t.key, t.red, t.right);
        ReplaceMinFocus(c', t.left, f);
        Up(c', ReplaceMin(t.left, f));
        CloseNodes(c', ReplaceMin(t.left, f));
      }
    }

    lemma {:induction false} LeftmostFocus(c: Ctx, t: Shape, f: Shape)
      requires t != Leaf && Focus(c, ReplaceMin(t, f))
      ensures Focus(Leftmost(c, t), f)
      ensures CtxNodes(Leftmost(c, t)) + Nodes(f) == CtxNodes(c) + Nodes(ReplaceMin(t, f))
      decreases t
    {
      if t.left != Leaf {
        var c' := InLeft(c, t.node, t.key, t.red, t.right);
        Down(c, ReplaceMin(t, f));
        LeftmostFocus(c', t.left, f);
        CloseNodes(c', ReplaceMin(t.left, f));
      }
    }

    /** What TakePlace may rely on: the pieces share no node. */
    lemma PlaceParts(c: Ctx, t: Shape)
      requires Focus(c, t) && t != Leaf && t.left != Leaf
      ensures CtxLinked(c, t.node) && CtxDistinct(c) && t.node !in CtxNodes(c) && t.node.red == t.red
      ensures Linked(t.left, t.node) && Linked(t.right, t.node) && t.node.left == Root(t.left) && t.node.right == Root(t.right)
      ensures Distinct(t.left) && Distinct(t.right) && Nodes(t.left) !! Nodes(t.right)
      ensures t.node !in Nodes(t.left) && t.node !in Nodes(t.right)
      ensures Nodes(t.left) !! CtxNodes(c) && Nodes(t.right) !! CtxNodes(c)
      ensures t.left.node in Nodes(t.left) && (t.right != Leaf ==> t.right.node in Nodes(t.right))
      ensures Nodes(t) == Nodes(t.left) + {t.node} + Nodes(t.right)
      ensures ParentOf(c) != null ==> ParentOf(c) in CtxNodes(c)
    {
    }

    lemma PlaceAllocated(c: Ctx, t: Shape)
      requires t != Leaf
      ensures (forall o | o in Nodes(t.left) :: allocated(o)) && (forall o | o in Nodes(t.right) :: allocated(o))
      ensures forall o | o in CtxNodes(c) :: allocated(o)
    {
      NodesAllocated(t.left);
      NodesAllocated(t.right);
      CtxAllocated(c);
    }

    /** The same place, with another node at the root. */
    lemma NewRoot(c: Ctx, l: Shape, n: TreeNode, k: nat, red: bool, r: Shape)
      requires CtxLinked(c, n) && CtxDistinct(c) && n.key == k && n.red == red && n.parent == ParentOf(c)
      requires n.left == Root(l) && n.right == Root(r) && Linked(l, n) && Linked(r, n) && Distinct(l) && Distinct(r)
      requires n !in CtxNodes(c) && n !in Nodes(l) && n !in Nodes(r)
      requires Nodes(l) !! Nodes(r) && Nodes(l) !! CtxNodes(c) && Nodes(r) !! CtxNodes(c)
      ensures Focus(c, Node(l, n, k, red, r)) && Nodes(Node(l, n, k, red, r)) == Nodes(l) + {n} + Nodes(r)
    {
      var t := Node(l, n, k, red, r);
      assert Linked(t, ParentOf(c)) && Distinct(t) && Nodes(t) == Nodes(l) + {n} + Nodes(r);
    }

    /** A node from outside the tree takes the place of `node`. */
    method TakePlace(node: TreeNode, next: TreeNode, parent: TreeNode?, ghost c: Ctx, ghost t: Shape)
      requires Focus(c, t) && t != Leaf && t.node == node && t.left != Leaf && t.right != Leaf && parent == ParentOf(c)
      requires next !in CtxNodes(c) && next !in Nodes(t)
      modifies this`root, CtxNodes(c), Nodes(t), next
      ensures var r := Node(t.left, next, old(next.key), t.red, t.right);
              Focus(c, r) && CtxNodes(c) + Nodes(r) == CtxNodes(c) + Nodes(t) - {node} + {next}
    {
      hide Linked, Distinct, CtxDistinct, CtxLinked, Nodes, CtxNodes, Focus, RedBlack, Increasing;
      PlaceParts(c, t);
      PlaceAllocated(c, t);
      ReplaceChild(node, parent, next, c);
      TakeLinks(node, next, parent, t.left, t.right);
      NewRoot(c, t.left, next, next.key, t.red, t.right);
    }

    /** `next` takes the colour, the children and the parent of `node`. */
    method TakeLinks(node: TreeNode, next: TreeNode, parent: TreeNode?, ghost l: Shape, ghost r: Shape)
      requires Linked(l, node) && Linked(r, node) && node.left == Root(l) && node.right == Root(r) && l != Leaf && r != Leaf
      requires Distinct(l) && Distinct(r) && Nodes(l) !! Nodes(r) && l.node in Nodes(l) && r.node in Nodes(r)
      requires next !in Nodes(l) && next !in Nodes(r) && next != node && node !in Nodes(l) && node !in Nodes(r)
      modifies next, l.node, r.node
      ensures next.key == old(next.key) && next.red == node.red && next.parent == parent
      ensures next.left == l.node && next.right == r.node && Linked(l, next) && Linked(r, next)
    {
      NodesAllocated(l);
      NodesAllocated(r);
      hide Linked, Distinct, Nodes;
      next.red := node.red;
      next.left := node.left;
      next.right := node.right;
      next.parent := parent;
      SetParent(node.left, next, l, node);
      SetParent(node.right, next, r, node);
    }

    /** The right child, which has no left child, takes the place of `node`. */
    method RightTakesPlace(node: TreeNode, next: TreeNode, parent: TreeNode?, ghost c: Ctx, ghost t: Shape)
      requires Focus(c, t) && t != Leaf && t.node == node && t.left != Leaf && t.right != Leaf && parent == ParentOf(c)
      requires t.right.left == Leaf && next == t.right.node
      modifies this`root, CtxNodes(c), Nodes(t)
      ensures var r := Node(t.left, next, t.right.key, t.red, t.right.right);
              Focus(c, r) && CtxNodes(c) + Nodes(r) == CtxNodes(c) + Nodes(t) - {node}
    {
      hide Linked, Distinct, CtxDistinct, CtxLinked, Nodes, CtxNodes, Focus, RedBlack, Increasing;
      PlaceParts(c, t);
      RightChildParts(t.right, node);
      NodesAllocated(t.left);
      NodesAllocated(t.right.right);
      CtxAllocated(c);
      ReplaceChild(node, parent, next, c);
      TakeLeftLink(node, next, parent, t.left, t.right.right);
      NewRoot(c, t.left, next, t.right.key, t.red, t.right.right);
    }

    /** `next` keeps its right subtree, and takes the colour, the left child and the parent of `node`. */
    method TakeLeftLink(node: TreeNode, next: TreeNode, parent: TreeNode?, ghost l: Shape, ghost f: Shape)
      requires Linked(l, node) && Linked(f, next) && node.left == Root(l) && next.right == Root(f) && l != Leaf
      requires Distinct(l) && Distinct(f) && Nodes(l) !! Nodes(f) && l.node in Nodes(l) && (f != Leaf ==> f.node in Nodes(f))
      requires next !in Nodes(l) && next !in Nodes(f) && next != node && node !in Nodes(l) && node !in Nodes(f)
      modifies next, l.node, if f == Leaf then {} else {f.node}
      ensures next.key == old(next.key) && next.red == node.red && next.parent == parent
      ensures next.left == l.node && next.right == Root(f) && Linked(l, next) && Linked(f, next)
    {
      NodesAllocated(l);
      NodesAllocated(f);
      hide Linked, Distinct, Nodes;
      next.red := node.red;
      next.left := node.left;
      next.parent := parent;
      SetParent(node.left, next, l, node);
      SetParent(next.right, next, f, next);
    }

    lemma RightChildParts(r: Shape, p: TreeNode)
      requires r != Leaf && r.left == Leaf && Linked(r, p) && Distinct(r)
      ensures Nodes(r) == {r.node} + Nodes(r.right) && r.node !in Nodes(r.right)
      ensures Linked(r.right, r.node) && Distinct(r.right) && r.node.right == Root(r.right) && r.node.key == r.key
      ensures r.right != Leaf ==> r.right.node in Nodes(r.right)
    {
    }

    /** The leftmost node of the right subtree. */
    method Successor(right: TreeNode, ghost c: Ctx, ghost t: Shape) returns (next: TreeNode)
      requires Focus(c, t) && t != Leaf && t.node == right
      ensures next == Min(t).node && Focus(Leftmost(c, t), Min(t)) && Focus(c, t)
      ensures CtxNodes(Leftmost(c, t)) + Nodes(Min(t)) == CtxNodes(c) + Nodes(t)
    {
      hide Focus, Nodes, CtxNodes;
      next := right;
      ghost var d, m := c, t;
      Children(d, m);
      while next.left != null
        invariant Focus(c, t) && Focus(d, m) && m != Leaf && m.node == next && next.left == Root(m.left)
        invariant Leftmost(d, m) == Leftmost(c, t) && Min(m) == Min(t)
        invariant CtxNodes(d) + Nodes(m) == CtxNodes(c) + Nodes(t)
        decreases m
      {
        Down(d, m);
        CloseNodes(InLeft(d, m.node, m.key, m.red, m.right), m.left);
        d, m := InLeft(d, m.node, m.key, m.red, m.right), m.left;
        next := next.left;
        Children(d, m);
      }
    }

    lemma {:induction false} LeftmostParent(c: Ctx, c': Ctx, t: Shape)
      requires t != Leaf && t.left != Leaf
      ensures ParentOf(Leftmost(c, t)) == ParentOf(Leftmost(c', t)) != null && Min(t) == Min(t.left)
      decreases t
    {
      if t.left.left != Leaf {
        LeftmostParent(InLeft(c, t.node, t.key, t.red, t.right), InLeft(c', t.node, t.key, t.red, t.right), t.left);
      }
    }

    /** Whether the leftmost node of a subtree is its root. */
    lemma {:induction false} MinIsRoot(t: Shape)
      requires t != Leaf && Distinct(t)
      ensures Min(t).node in Nodes(t) && (Min(t).node == t.node <==> t.left == Leaf)
      decreases t
    {
      if t.left != Leaf {
        MinIsRoot(t.left);
      }
    }

    lemma SplitFocus(c: Ctx, t: Shape)
      requires Focus(c, t)
      ensures Distinct(t) && CtxNodes(c) !! Nodes(t)
      ensures t != Leaf ==> Distinct(t.left) && Distinct(t.right)
    {
    }

    /** The first part of tree_del: the node leaves its place, and its successor takes it when it
        has two children. */
    method Detach(node: TreeNode, ghost c: Ctx, ghost t: Shape) returns (hole: TreeNode?, parent: TreeNode?, red: bool)
      requires Focus(c, t) && t != Leaf && t.node == node
      modifies this`root, CtxNodes(c), Nodes(t)
      ensures var gap := RbShape.Detach(c, t);
              && Focus(gap.c, gap.t) && hole == Root(gap.t) && parent == ParentOf(gap.c) && red == gap.red
              && CtxNodes(gap.c) + Nodes(gap.t) == CtxNodes(c) + Nodes(t) - {node}
    {
      Children(c, t);
      SplitFocus(c, t);
      assert node in Nodes(t);
      parent := node.parent;
      hide Focus, Distinct, CtxDistinct, CtxLinked, Linked, RedBlack, Increasing, CtxNodes, Nodes;
      if node.left == null {
        hole, red := node.right, node.red;
        Hoist(node, hole, parent, c, t, t.right);
      } else if node.right == null {
        hole, red := node.left, node.red;
        Hoist(node, hole, parent, c, t, t.left);
      } else {
        hole, parent, red := ReplaceBySuccessor(node, parent, node.right, c, t);
      }
    }

    /** The node has two children: the leftmost node of its right subtree takes its place. */
    method ReplaceBySuccessor(node: TreeNode, parent: TreeNode?, right: TreeNode, ghost c: Ctx, ghost t: Shape)
      returns (hole: TreeNode?, holeParent: TreeNode, red: bool)
      requires Focus(c, t) && t != Leaf && t.node == node && t.left != Leaf && t.right != Leaf
      requires parent == ParentOf(c) && right == t.right.node
      modifies this`root, CtxNodes(c), Nodes(t)
      ensures var gap := RbShape.Detach(c, t);
              && Focus(gap.c, gap.t) && hole == Root(gap.t) && holeParent == ParentOf(gap.c) && red == gap.red
              && CtxNodes(gap.c) + Nodes(gap.t) == CtxNodes(c) + Nodes(t) - {node}
    {
      SplitFocus(c, t);
      hide Focus, Distinct, CtxDistinct, CtxLinked, Linked, RedBlack, Increasing, CtxNodes;
      ghost var below := InRight(c, t.node, t.key, t.red, t.left);
      Down(c, t);
      var next := Successor(right, below, t.right);
      Up(below, t.right);
      MinIsRoot(t.right);
      ghost var m := Min(t.right);
      Children(Leftmost(below, t.right), m);
      red, hole := next.red, next.right;
      hide Nodes;
      if next != right {
        holeParent := SuccessorTakesPlace(node, next, hole, parent, c, t);
      } else {
        RightTakesPlace(node, next, parent, c, t);
        RightPlaced(c, t);
        holeParent := next;
      }
    }

    lemma RightPlaced(c: Ctx, t: Shape)
      requires t != Leaf && t.left != Leaf && t.right != Leaf && t.right.left == Leaf
      requires Focus(c, Node(t.left, t.right.node, t.right.key, t.red, t.right.right))
      ensures var gap := RbShape.Detach(c, t);
              && Focus(gap.c, gap.t) && gap.t == t.right.right && ParentOf(gap.c) == t.right.node
              && CtxNodes(gap.c) + Nodes(gap.t) == CtxNodes(c) + Nodes(Node(t.left, t.right.node, t.right.key, t.red, t.right.right))
    {
      var t' := Node(t.left, t.right.node, t.right.key, t.red, t.right.right);
      Down(c, t');
      CloseNodes(InRight(c, t'.node, t'.key, t'.red, t'.left), t'.right);
    }

    /** The leftmost node of the right subtree, further down, leaves its place and takes that of `node`. */
    method SuccessorTakesPlace(node: TreeNode, next: TreeNode, hole: TreeNode?, parent: TreeNode?, ghost c: Ctx, ghost t: Shape)
      returns (holeParent: TreeNode)
      requires Focus(c, t) && t != Leaf && t.node == node && t.left != Leaf && t.right != Leaf && parent == ParentOf(c)
      requires t.right.left != Leaf && next == Min(t.right).node && hole == Root(Min(t.right).right)
      modifies this`root, CtxNodes(c), Nodes(t)
      ensures var gap := RbShape.Detach(c, t);
              && Focus(gap.c, gap.t) && gap.t == Min(t.right).right && holeParent == ParentOf(gap.c)
              && CtxNodes(gap.c) + Nodes(gap.t) == CtxNodes(c) + Nodes(t) - {node}
    {
      ghost var m := Min(t.right);
      ghost var t' := t.(right := ReplaceMin(t.right, m.right));
      holeParent := UnlinkSuccessor(next, hole, c, t);
      hide Focus, Distinct, CtxDistinct, CtxLinked, Linked, Leftmost, Min, ReplaceMin, CtxNodes, Nodes;
      TakePlace(node, next, parent, c, t');
      SuccessorPlaced(c, t);
    }

    lemma RestStays(t: Shape, f: Shape)
      requires t != Leaf && t.left != Leaf
      ensures ReplaceMin(t, f) != Leaf
    {
    }

    lemma SuccessorPlaced(c: Ctx, t: Shape)
      requires t != Leaf && t.left != Leaf && t.right != Leaf && t.right.left != Leaf
      requires var m := Min(t.right); Focus(c, Node(t.left, m.node, m.key, t.red, ReplaceMin(t.right, m.right)))
      ensures var gap, m := RbShape.Detach(c, t), Min(t.right);
              && Focus(gap.c, gap.t) && gap.t == m.right && ParentOf(gap.c) == ParentOf(Leftmost(InRight(c, t.node, t.key, t.red, t.left), t.right))
              && CtxNodes(gap.c) + Nodes(gap.t) == CtxNodes(c) + Nodes(Node(t.left, m.node, m.key, t.red, ReplaceMin(t.right, m.right)))
    {
      var m := Min(t.right);
      var below' := InRight(c, m.node, m.key, t.red, t.left);
      var rest := ReplaceMin(t.right, m.right);
      Down(c, Close(below', rest));
      CloseNodes(below', rest);
      LeftmostFocus(below', t.right, m.right);
      LeftmostParent(InRight(c, t.node, t.key, t.red, t.left), below', t.right);
      hide *;
    }

    /** The leftmost node of the right subtree leaves its place. */
    method UnlinkSuccessor(next: TreeNode, hole: TreeNode?, ghost c: Ctx, ghost t: Shape) returns (holeParent: TreeNode)
      requires Focus(c, t) && t != Leaf && t.left != Leaf && t.right != Leaf
      requires t.right.left != Leaf && next == Min(t.right).node && hole == Root(Min(t.right).right)
      modifies this`root, CtxNodes(c), Nodes(t)
      ensures var t' := Node(t.left, t.node, t.key, t.red, ReplaceMin(t.right, Min(t.right).right));
              && Focus(c, t') && CtxNodes(c) + Nodes(t') == CtxNodes(c) + Nodes(t) - {next} && next in Nodes(t) && next != t.node
              && next !in CtxNodes(c) && t'.right != Leaf
      ensures holeParent == ParentOf(Leftmost(InRight(c, t.node, t.key, t.red, t.left), t.right)) && next.key == Min(t.right).key
    {
      hide Focus, Distinct, CtxDistinct, CtxLinked, Linked, Leftmost, Min, ReplaceMin, Nodes, CtxNodes;
      ghost var below := InRight(c, t.node, t.key, t.red, t.left);
      ghost var m, d := Min(t.right), Leftmost(below, t.right);
      SuccessorPlace(c, t);
      RestStays(t.right, m.right);
      holeParent := next.parent;
      Hoist(next, hole, holeParent, d, m, m.right);
      ReplaceMinFocus(below, t.right, m.right);
      Up(below, ReplaceMin(t.right, m.right));
      CloseNodes(below, ReplaceMin(t.right, m.right));
    }

    lemma SuccessorPlace(c: Ctx, t: Shape)
      requires Focus(c, t) && t != Leaf && t.left != Leaf && t.right != Leaf && t.right.left != Leaf
      ensures var below, m := InRight(c, t.node, t.key, t.red, t.left), Min(t.right);
              && Focus(Leftmost(below, t.right), m) && m.node.parent == ParentOf(Leftmost(below, t.right)) != null && m.node.key == m.key
              && m.node != t.node && m.node in Nodes(t.right)
              && CtxNodes(Leftmost(below, t.right)) + Nodes(m) == CtxNodes(c) + Nodes(t) && Nodes(m.right) <= Nodes(m)
              && m.node in Nodes(m) && CtxNodes(Leftmost(below, t.right)) !! Nodes(m) && m.node !in CtxNodes(c)
    {
      Down(c, t);
      var below := InRight(c, t.node, t.key, t.red, t.left);
      LeftmostIsFocus(below, t.right);
      LeftmostParent(below, below, t.right);
      Children(Leftmost(below, t.right), Min(t.right));
      MinIsRoot(t.right);
      SplitFocus(Leftmost(below, t.right), Min(t.right));
      assert t == Close(below, t.right);
      CloseNodes(below, t.right);
    }

    lemma {:induction false} LeftmostIsFocus(c: Ctx, t: Shape)
      requires Focus(c, t) && t != Leaf
      ensures Focus(Leftmost(c, t), Min(t)) && CtxNodes(Leftmost(c, t)) + Nodes(Min(t)) == CtxNodes(c) + Nodes(t)
      decreases t
    {
      if t.left != Leaf {
        Down(c, t);
        LeftmostIsFocus(InLeft(c, t.node, t.key, t.red, t.right), t.left);
      }
    }

    /** The same tree seen from the other child of the hole's parent. */
    ghost function Flip(c: Ctx, t: Shape): Ctx
      requires c != Top
    {
      if c.InLeft? then InRight(c.up, c.node, c.key, c.red, t) else InLeft(c.up, c.node, c.key, c.red, t)
    }

    lemma FlipFocus(c: Ctx, t: Shape)
      requires Focus(c, t) && c != Top
      ensures Focus(Flip(c, t), Sibling(c)) && CtxNodes(Flip(c, t)) + Nodes(Sibling(c)) == CtxNodes(c) + Nodes(t)
    {
    }

    /** A shape with one child repainted. */
    ghost function PaintChild(s: Shape, right: bool, red: bool): Shape
      requires s != Leaf
    {
      if right then Node(s.left, s.node, s.key, s.red, Paint(s.right, red)) else Node(Paint(s.left, red), s.node, s.key, s.red, s.right)
    }

    method PaintChildOf(child: TreeNode, right: bool, red: bool, ghost c: Ctx, ghost s: Shape)
      requires Focus(c, s) && s != Leaf && child == Root(if right then s.right else s.left)
      modifies child`red
      ensures Focus(c, PaintChild(s, right, red)) && Nodes(PaintChild(s, right, red)) == Nodes(s)
    {
      hide CtxLinked, Linked, Distinct, CtxDistinct;
      Down(c, s);
      if right {
        ghost var d := InRight(c, s.node, s.key, s.red, s.left);
        PaintNode(child, red, d, s.right);
        Up(d, Paint(s.right, red));
      } else {
        ghost var d := InLeft(c, s.node, s.key, s.red, s.right);
        PaintNode(child, red, d, s.left);
        Up(d, Paint(s.left, red));
      }
    }

    ghost function Rotated(t: Shape, left: bool): Shape
      requires t != Leaf && (if left then t.right else t.left) != Leaf
    {
      if left then RbShape.RotateLeft(t) else RbShape.RotateRight(t)
    }

    method Rotate(node: TreeNode, left: bool, ghost c: Ctx, ghost t: Shape)
      requires Focus(c, t) && t != Leaf && t.node == node && (if left then t.right else t.left) != Leaf
      modifies this`root, CtxNodes(c), Nodes(t)
      ensures Focus(c, Rotated(t, left)) && Nodes(Rotated(t, left)) == Nodes(t)
    {
      if left {
        RotateLeft(node, c, t);
      } else {
        RotateRight(node, c, t);
      }
    }

    /** A red sibling turns black, its parent red, and it is rotated above the parent. */
    method LiftSibling(parent: TreeNode, sibling: TreeNode, left: bool, ghost c: Ctx, ghost t: Shape)
      requires Focus(c, t) && c != Top && c.node == parent && left == c.InLeft? && Sibling(c) != Leaf && sibling == Sibling(c).node
      modifies this`root, CtxNodes(c), Nodes(t)
      ensures Focus(RbShape.LiftSibling(c), t) && CtxNodes(RbShape.LiftSibling(c)) + Nodes(t) == CtxNodes(c) + Nodes(t)
    {
      hide CtxLinked, Linked, Distinct, CtxDistinct, Focus;
      ghost var s := Sibling(c);
      PaintSibling(sibling, false, c, t);
      ghost var c1 := Recolour(c, c.red, Paint(s, false));
      PaintParent(parent, true, c1, t);
      ghost var c2 := Recolour(c1, true, Paint(s, false));
      Up(c2, t);
      Rotate(parent, left, c.up, Close(c2, t));
      Lower(c, t);
    }

    /** The hole ends up two levels below the sibling that was lifted. */
    lemma Lower(c: Ctx, t: Shape)
      requires c != Top && Sibling(c) != Leaf
      requires Focus(c.up, Rotated(Close(Recolour(c, true, Paint(Sibling(c), false)), t), c.InLeft?))
      ensures Focus(RbShape.LiftSibling(c), t)
      ensures CtxNodes(RbShape.LiftSibling(c)) + Nodes(t) == CtxNodes(c.up) + Nodes(Close(c, t))
    {
      hide CtxLinked, Linked, Distinct, CtxDistinct, Focus;
      var r := Rotated(Close(Recolour(c, true, Paint(Sibling(c), false)), t), c.InLeft?);
      Down(c.up, r);
      if c.InLeft? {
        Down(InLeft(c.up, r.node, r.key, r.red, r.right), r.left);
      } else {
        Down(InRight(c.up, r.node, r.key, r.red, r.left), r.right);
      }
    }

    /** A near red nephew is rotated above the sibling. */
    method LiftNephew(sibling: TreeNode, left: bool, ghost c: Ctx, ghost t: Shape)
      requires Focus(c, t) && c != Top && left == c.InLeft? && Sibling(c) != Leaf && sibling == Sibling(c).node
      requires IsRed(if left then Sibling(c).left else Sibling(c).right)
      requires !IsRed(if left then Sibling(c).right else Sibling(c).left)
      modifies this`root, CtxNodes(c), Nodes(t)
      ensures Focus(Recolour(c, c.red, FarNephew(c)), t)
      ensures CtxNodes(Recolour(c, c.red, FarNephew(c))) + Nodes(t) == CtxNodes(c) + Nodes(t)
    {
      hide CtxLinked, Linked, Distinct, CtxDistinct, Focus;
      ghost var s, f := Sibling(c), Flip(c, t);
      FlipFocus(c, t);
      Children(f, s);
      var near := if left then sibling.left else sibling.right;
      PaintChildOf(near, !left, false, f, s);
      ghost var s1 := PaintChild(s, !left, false);
      PaintNode(sibling, true, f, s1);
      ghost var s2 := Paint(s1, true);
      Rotate(sibling, !left, f, s2);
      FlipFocus(f, Rotated(s2, !left));
    }

    /** The far nephew is red: the sibling takes the parent's place and colour. */
    method BorrowFar(parent: TreeNode, sibling: TreeNode, left: bool, ghost c: Ctx, ghost t: Shape)
      requires Focus(c, t) && c != Top && left == c.InLeft? && c.node == parent && Sibling(c) != Leaf && sibling == Sibling(c).node
      requires IsRed(if left then Sibling(c).right else Sibling(c).left)
      modifies this`root, CtxNodes(c), Nodes(t)
      ensures Focus(c.up, RbShape.Borrow(c, t)) && CtxNodes(c.up) + Nodes(RbShape.Borrow(c, t)) == CtxNodes(c) + Nodes(t)
    {
      hide CtxLinked, Linked, Distinct, CtxDistinct, Focus;
      ghost var s := Sibling(c);
      ParentPointers(c, t);
      PaintSibling(sibling, parent.red, c, t);
      ghost var c1 := Recolour(c, c.red, Paint(s, c.red));
      PaintParent(parent, false, c1, t);
      ghost var c2 := Recolour(c1, false, Paint(s, c.red));
      ghost var s2, f := Sibling(c2), Flip(c2, t);
      FlipFocus(c2, t);
      Children(f, s2);
      var far := if left then sibling.right else sibling.left;
      PaintChildOf(far, left, false, f, s2);
      ghost var s3 := PaintChild(s2, left, false);
      FlipFocus(f, s3);
      ghost var c3 := Flip(f, s3);
      Up(c3, t);
      CloseNodes(c3, t);
      Rotate(parent, left, c.up, Close(c3, t));
    }

    // The fix-up loop of tree_del.

    ghost predicate HasSiblings(c: Ctx) {
      c != Top && Sibling(c) != Leaf && (IsRed(Sibling(c)) ==> Sibling(RbShape.LiftSibling(c)) != Leaf)
    }

    /** The place of the hole once its sibling is black. */
    ghost function Lifted(c: Ctx): (d: Ctx)
      requires HasSiblings(c)
      ensures d != Top && Sibling(d) != Leaf
    {
      if IsRed(Sibling(c)) then RbShape.LiftSibling(c) else c
    }

    ghost predicate RedNephew(c: Ctx)
      requires c != Top && Sibling(c) != Leaf
    {
      IsRed(Sibling(c).left) || IsRed(Sibling(c).right)
    }

    ghost function Lent(c: Ctx, t: Shape): Shape
      requires c != Top && Sibling(c) != Leaf
    {
      Close(Recolour(c, c.red, Paint(Sibling(c), true)), t)
    }

    /** TREE__REBALANCE_AFTER_REMOVE. */
    method RebalanceRemoveStep(parent: TreeNode, left: bool, ghost c: Ctx, ghost t: Shape) returns (borrowed: bool)
      requires Focus(c, t) && HasSiblings(c) && c.node == parent && left == c.InLeft?
      modifies this`root, CtxNodes(c), Nodes(t)
      ensures borrowed <==> RedNephew(Lifted(c))
      ensures var d := Lifted(c);
              && d.node == parent && (borrowed ==> Focus(d.up, Borrow(d, t)) && CtxNodes(d.up) + Nodes(Borrow(d, t)) == CtxNodes(c) + Nodes(t))
              && (!borrowed ==> Focus(d.up, Lent(d, t)) && CtxNodes(d.up) + Nodes(Lent(d, t)) == CtxNodes(c) + Nodes(t))
    {
      hide Focus, Nodes, CtxNodes, RedBlack, Increasing;
      ParentPointers(c, t);
      var sibling := if left then parent.right else parent.left;
      if sibling.red {
        LiftSibling(parent, sibling, left, c, t);
        ParentPointers(RbShape.LiftSibling(c), t);
        sibling := if left then parent.right else parent.left;
      }
      borrowed := BlackSiblingStep(parent, sibling, left, Lifted(c), t);
    }

    method BlackSiblingStep(parent: TreeNode, sibling0: TreeNode, left: bool, ghost c: Ctx, ghost t: Shape) returns (borrowed: bool)
      requires Focus(c, t) && c != Top && Sibling(c) != Leaf && sibling0 == Sibling(c).node && c.node == parent && left == c.InLeft?
      modifies this`root, CtxNodes(c), Nodes(t)
      ensures borrowed <==> RedNephew(c)
      ensures borrowed ==> Focus(c.up, Borrow(c, t)) && CtxNodes(c.up) + Nodes(Borrow(c, t)) == CtxNodes(c) + Nodes(t)
      ensures !borrowed ==> Focus(c.up, Lent(c, t)) && CtxNodes(c.up) + Nodes(Lent(c, t)) == CtxNodes(c) + Nodes(t)
    {
      hide Focus, Nodes, CtxNodes, RedBlack, Increasing;
      var sibling := sibling0;
      ParentPointers(c, t);
      FlipFocus(c, t);
      Children(Flip(c, t), Sibling(c));
      NephewColours(Flip(c, t), Sibling(c));
      if (sibling.left != null && sibling.left.red) || (sibling.right != null && sibling.right.red) {
        borrowed := true;
        var far := if left then sibling.right else sibling.left;
        ghost var c1 := Recolour(c, c.red, FarNephew(c));
        if far == null || !far.red {
          LiftNephew(sibling, left, c, t);
          ParentPointers(c1, t);
          sibling := if left then parent.right else parent.left;
        }
        BorrowFar(parent, sibling, left, c1, t);
      } else {
        borrowed := false;
        PaintSibling(sibling, true, c, t);
        Up(Recolour(c, c.red, Paint(Sibling(c), true)), t);
        CloseNodes(Recolour(c, c.red, Paint(Sibling(c), true)), t);
      }
    }

    lemma NephewColours(c: Ctx, s: Shape)
      requires Focus(c, s) && s != Leaf
      ensures (s.left != Leaf ==> s.left.node.red == s.left.red) && (s.right != Leaf ==> s.right.node.red == s.right.red)
    {
      assert Linked(s.left, s.node) && Linked(s.right, s.node);
    }

    /** The root is above every hole. */
    lemma {:induction false} RootIsAbove(c: Ctx, t: Shape)
      requires Focus(c, t)
      ensures c == Top ==> root == Root(t)
      ensures c != Top ==> root in CtxNodes(c) && root != Root(t)
      decreases c
    {
      if c != Top {
        Up(c, t);
        RootIsAbove(c.up, Close(c, t));
        if t != Leaf {
          assert t.node in Nodes(t);
        }
      }
    }

    /** One turn of the loop against the shapes. */
    lemma RemoveFixUnfolds(c: Ctx, t: Shape)
      requires Short(c, t) && c != Top
      ensures HasSiblings(c)
      ensures var d := Lifted(c);
              if RedNephew(d) then RemoveFix(c, t) == Paint(Plug(d.up, Borrow(d, t)), false)
              else if d.red then RemoveFix(c, t) == Plug(d.up, Paint(Lent(d, t), false))
              else Short(d.up, Lent(d, t)) && RemoveFix(c, t) == RemoveFix(d.up, Lent(d, t)) && d.up == c.up
    {
      StepIsRedBlack(c, t);
      hide Short, Borrow, Plug;
    }

    lemma RemoveFixAtTop(t: Shape)
      requires Short(Top, t)
      ensures RemoveFix(Top, t) == Plug(Top, Paint(t, false))
    {
    }

    lemma RootIsNode(t: Shape)
      requires t != Leaf
      ensures Root(t) == t.node && t.node in Nodes(t)
    {
    }

    lemma PlugTop(t: Shape)
      ensures Plug(Top, t) == t
    {
    }

    /** The loop tells the two sides apart by the pointer, which may be null. */
    lemma SideOfHole(c: Ctx, t: Shape)
      requires Focus(c, t) && HasSiblings(c)
      ensures Root(t) == c.node.left <==> c.InLeft?
    {
      assert Sibling(c).node in Nodes(Sibling(c));
      assert t != Leaf ==> t.node in Nodes(t);
    }

    method RebalanceRemove(node0: TreeNode?, parent0: TreeNode?, ghost c0: Ctx, ghost t0: Shape)
      requires Focus(c0, t0) && Short(c0, t0) && node0 == Root(t0) && parent0 == ParentOf(c0)
      modifies this`root, CtxNodes(c0), Nodes(t0)
      ensures Focus(Top, RemoveFix(c0, t0)) && Nodes(RemoveFix(c0, t0)) == CtxNodes(c0) + Nodes(t0)
    {
      hide Focus, Nodes, CtxNodes, RedBlack, Increasing, Short, RemoveFix, Borrow, Lifted, HasSiblings, Plug;
      var node, parent := node0, parent0;
      ghost var c, t := c0, t0;
      while true
        invariant Focus(c, t) && node == Root(t) && parent == ParentOf(c) && CtxNodes(c) + Nodes(t) == CtxNodes(c0) + Nodes(t0)
        invariant Short(c, t) && RemoveFix(c, t) == RemoveFix(c0, t0)
        decreases c
      {
        RootIsAbove(c, t);
        if node == root {
          RemoveFixAtTop(t);
          break;
        }
        RemoveFixUnfolds(c, t);
        ParentPointers(c, t);
        SideOfHole(c, t);
        ghost var d := Lifted(c);
        var borrowed := RebalanceRemoveStep(parent, node == parent.left, c, t);
        if borrowed {
          UpAll(d.up, Borrow(d, t));
          c, t := Top, Plug(d.up, Borrow(d, t));
          RootPointer(t);
          PlugTop(Paint(t, false));
          node := root;
          break;
        }
        c, t := d.up, Lent(d, t);
        Children(c, t);
        node := parent;
        parent := parent.parent;
        if node.red {
          break;
        }
      }
      assert Plug(c, Paint(t, false)) == RemoveFix(c0, t0);
      if node != null {
        assert node in Nodes(t) by { RootIsNode(t); }
        PaintNode(node, false, c, t);
      }
      UpAll(c, Paint(t, false));
    }

    lemma {:induction false} NodeIsItem(t: Shape, p: TreeNode?, node: TreeNode)
      requires Linked(t, p) && node in Nodes(t)
      ensures (node, node.key) in Items(t)
      decreases t
    {
      if node in Nodes(t.left) {
        NodeIsItem(t.left, t.node, node);
      } else if node in Nodes(t.right) {
        NodeIsItem(t.right, t.node, node);
      }
    }

    lemma {:induction false} LocateFocus(c: Ctx, t: Shape, key: nat)
      requires Focus(c, t)
      ensures var (c', hole) := Locate(c, t, key); Focus(c', hole) && Plug(c', hole) == Plug(c, t)
      decreases t
    {
      if t != Leaf && key != t.key {
        Down(c, t);
        if key < t.key {
          LocateFocus(InLeft(c, t.node, t.key, t.red, t.right), t.left, key);
        } else {
          LocateFocus(InRight(c, t.node, t.key, t.red, t.left), t.right, key);
        }
      }
    }

    /** The place of a node of the tree is where its key is located. */
    lemma Placed(node: TreeNode)
      requires Valid() && node in Nodes(shape)
      ensures var (c, t) := Locate(Top, shape, node.key);
              && Focus(c, t) && t != Leaf && t.node == node && t.key == node.key && Plug(c, t) == shape
              && Fits(c, t)
    {
      var key := node.key;
      NodeIsItem(shape, null, node);
      LocateFocus(Top, shape, key);
      LocateAround(Top, shape, key);
      LocatedIsItem(shape, key);
      assert (node, key).1 in KeySet(shape);
      var (c, t) := Locate(Top, shape, key);
      hide Locate, Focus, Items, Fits;
      var i :| 0 <= i < |Items(shape)| && Items(shape)[i] == (node, key);
      var j :| 0 <= j < |Items(shape)| && Items(shape)[j] == (t.node, key);
      assert i == j;
      assert t.key == key by { LocateIsCorrect(Top, shape, key); }
    }

    /** The second part of tree_del: repair the colours when a black node went missing. */
    method Rebalance(hole: TreeNode?, parent: TreeNode?, red: bool, ghost c: Ctx, ghost t: Shape)
      requires t != Leaf && Fits(c, t)
      requires var gap := RbShape.Detach(c, t);
               Focus(gap.c, gap.t) && hole == Root(gap.t) && parent == ParentOf(gap.c) && red == gap.red
      modifies var gap := RbShape.Detach(c, t); CtxNodes(gap.c) + Nodes(gap.t), this`root
      ensures Focus(Top, RbShape.Remove(c, t))
      ensures var gap := RbShape.Detach(c, t); Nodes(RbShape.Remove(c, t)) == CtxNodes(gap.c) + Nodes(gap.t)
    {
      ghost var gap := RbShape.Detach(c, t);
      DetachKeepsBalance(c, t);
      if hole != null {
        Children(gap.c, gap.t);
        RootIsNode(gap.t);
      }
      assert RbShape.Remove(c, t) == if gap.red then Plug(gap.c, gap.t)
        else if IsRed(gap.t) then Plug(gap.c, Paint(gap.t, false))
        else RemoveFix(gap.c, gap.t);
      hide RbShape.Detach, RbShape.Remove, Focus, Fits, Short, Around, Balanced, NoRedRed, RemoveFix, Plug, Nodes, CtxNodes;
      if red {
        UpAll(gap.c, gap.t);
      } else if hole != null && hole.red {
        PaintNode(hole, false, gap.c, gap.t);
        UpAll(gap.c, Paint(gap.t, false));
      } else {
        RebalanceRemove(hole, parent, gap.c, gap.t);
      }
    }

    /** What is left when the node leaves is its tree without it. */
    lemma RemovalIsCorrect(before: Shape, c: Ctx, t: Shape)
      requires t != Leaf && Fits(c, t) && Plug(c, t) == before && Increasing(Items(before))
      ensures var after := RbShape.Remove(c, t);
              && RedBlack(after) && Increasing(Items(after)) && KeySet(after) == KeySet(before) - {t.key}
              && exists a, b :: Items(before) == a + [(t.node, t.key)] + b && Items(after) == a + b
    {
      RemoveIsCorrect(c, t);
      PlugItems(c, t);
      var after, l, r := RbShape.Remove(c, t), Items(t.left), Items(t.right);
      assert Items(t) == l + [(t.node, t.key)] + r;
      Split(Before(c), l, (t.node, t.key), r, After(c));
      hide *;
      OneLess(before, after, Before(c) + l, (t.node, t.key), r + After(c));
    }

    lemma Split<X>(p: seq<X>, l: seq<X>, x: X, r: seq<X>, q: seq<X>)
      ensures p + (l + [x] + r) + q == (p + l) + [x] + (r + q) && p + l + r + q == (p + l) + (r + q)
    {
    }

    lemma OneLess(before: Shape, after: Shape, a: seq<(TreeNode, nat)>, x: (TreeNode, nat), b: seq<(TreeNode, nat)>)
      requires Items(before) == a + [x] + b && Items(after) == a + b && Increasing(Items(before))
      ensures Increasing(Items(after)) && KeySet(after) == KeySet(before) - {x.1}
      ensures exists a, b :: Items(before) == a + [x] + b && Items(after) == a + b
    {
      RemovingKeepsOrder(a, x, b);
      KeysOfItems(after, before, a, x, b);
    }

    /** Remove a node of the tree: exactly that one goes, and order and balance stay. */
    method Remove(node: TreeNode)
      requires Valid() && node in Nodes(shape)
      modifies this, Nodes(shape)
      ensures Valid() && Nodes(shape) == Nodes(old(shape)) - {node}
      ensures exists a, b :: Items(old(shape)) == a + [(node, old(node.key))] + b && Items(shape) == a + b
      ensures KeySet(shape) == KeySet(old(shape)) - {old(node.key)}
    {
      ghost var before := shape;
      ghost var (c, t) := Locate(Top, shape, node.key);
      Placed(node);
      assert Increasing(Items(before));
      PlugNodes(c, t);
      hide *;
      var hole, parent, red := Detach(node, c, t);
      Rebalance(hole, parent, red, c, t);
      RemovalIsCorrect(before, c, t);
      shape := RbShape.Remove(c, t);
      MakeValid();
    }

    lemma MakeValid()
      requires Focus(Top, shape) && RedBlack(shape) && Increasing(Items(shape))
      ensures Valid()
    {
    }
  }
}
