/** Red-black shapes and zippers: what rotations and recolourings do to the tree as a value. */
module RbShape {

  class TreeNode {
    var left: TreeNode?
    var right: TreeNode?
    var parent: TreeNode?
    var key: nat
    var red: bool
  }

  /** A (sub)tree: which node sits where, with its key and colour. */
  datatype Shape = Leaf | Node(left: Shape, node: TreeNode, key: nat, red: bool, right: Shape)

  /** A tree with a hole; InLeft means the hole is the left child of `node`. */
  datatype Ctx =
    | Top
    | InLeft(up: Ctx, node: TreeNode, key: nat, red: bool, right: Shape)
    | InRight(up: Ctx, node: TreeNode, key: nat, red: bool, left: Shape)

  predicate IsRed(t: Shape) { t.Node? && t.red }

  function Paint(t: Shape, red: bool): Shape { if t == Leaf then Leaf else t.(red := red) }

  /** One level of Plug. */
  function Close(c: Ctx, t: Shape): Shape
    requires c != Top
  {
    if c.InLeft? then Node(t, c.node, c.key, c.red, c.right) else Node(c.left, c.node, c.key, c.red, t)
  }

  function Plug(c: Ctx, t: Shape): Shape {
    if c == Top then t else Plug(c.up, Close(c, t))
  }

  // ---- Contents and order ----

  /** The nodes with their keys, from left to right. */
  function Items(t: Shape): seq<(TreeNode, nat)> {
    if t == Leaf then [] else Items(t.left) + [(t.node, t.key)] + Items(t.right)
  }

  function Before(c: Ctx): seq<(TreeNode, nat)> {
    match c
    case Top => []
    case InLeft(up, _, _, _, _) => Before(up)
    case InRight(up, n, k, _, l) => Before(up) + Items(l) + [(n, k)]
  }

  function After(c: Ctx): seq<(TreeNode, nat)> {
    match c
    case Top => []
    case InLeft(up, n, k, _, r) => [(n, k)] + Items(r) + After(up)
    case InRight(up, _, _, _, _) => After(up)
  }

  lemma {:induction false} PlugItems(c: Ctx, t: Shape)
    ensures Items(Plug(c, t)) == Before(c) + Items(t) + After(c)
  {
    if c != Top {
      PlugItems(c.up, Close(c, t));
    }
  }

  /** Search order, with no key twice. */
  ghost predicate Increasing(s: seq<(TreeNode, nat)>) {
    forall i, j :: 0 <= i < j < |s| ==> s[i].1 < s[j].1
  }

  ghost function KeySet(t: Shape): set<nat> { set x | x in Items(t) :: x.1 }

  // ---- Balance ----

  function BlackHeight(t: Shape): nat {
    if t == Leaf then 0 else BlackHeight(t.left) + if t.red then 0 else 1
  }

  /** Every path has the same number of black nodes. */
  ghost predicate Balanced(t: Shape) {
    t == Leaf || (Balanced(t.left) && Balanced(t.right) && BlackHeight(t.left) == BlackHeight(t.right))
  }

  /** No red node has a red child. */
  ghost predicate NoRedRed(t: Shape) {
    t == Leaf || (NoRedRed(t.left) && NoRedRed(t.right) && (t.red ==> !IsRed(t.left) && !IsRed(t.right)))
  }

  ghost predicate RedBlack(t: Shape) { Balanced(t) && NoRedRed(t) && !IsRed(t) }

  predicate RedAbove(c: Ctx) { c != Top && c.red }

  function Sibling(c: Ctx): Shape
    requires c != Top
  {
    if c.InLeft? then c.right else c.left
  }

  /** The context is a red-black tree around a hole of black height h. */
  ghost predicate Around(c: Ctx, h: nat) {
    c == Top ||
    (&& Balanced(Sibling(c)) && NoRedRed(Sibling(c)) && BlackHeight(Sibling(c)) == h
     && (c.red ==> !IsRed(Sibling(c)) && c.up != Top && !RedAbove(c.up))
     && Around(c.up, if c.red then h else h + 1))
  }

  /** The subtree t in the hole of c makes a red-black tree. */
  ghost predicate Fits(c: Ctx, t: Shape) {
    Around(c, BlackHeight(t)) && Balanced(t) && NoRedRed(t) && (IsRed(t) ==> c != Top && !RedAbove(c))
  }

  lemma {:induction false} PlugRedBlack(c: Ctx, t: Shape)
    requires Fits(c, t)
    ensures RedBlack(Plug(c, t))
  {
    if c != Top {
      PlugRedBlack(c.up, Close(c, t));
    }
  }

  /** Splitting a red-black tree at a subtree. */
  lemma DescendRedBlack(c: Ctx, t: Shape)
    requires t != Leaf && Fits(c, t)
    ensures var l, r := InLeft(c, t.node, t.key, t.red, t.right), InRight(c, t.node, t.key, t.red, t.left);
            && Around(l, BlackHeight(t.left)) && Around(r, BlackHeight(t.right))
            && (IsRed(t.left) ==> !RedAbove(l)) && (IsRed(t.right) ==> !RedAbove(r))
  {
  }

  // ---- Rotations and recolourings, which keep the items ----

  /** tree__rotate_left: the right child takes the place of the root; each node keeps its colour. */
  function RotateLeft(t: Shape): Shape
    requires t != Leaf && t.right != Leaf
  {
    Node(Node(t.left, t.node, t.key, t.red, t.right.left), t.right.node, t.right.key, t.right.red, t.right.right)
  }

  function RotateRight(t: Shape): Shape
    requires t != Leaf && t.left != Leaf
  {
    Node(t.left.left, t.left.node, t.left.key, t.left.red, Node(t.left.right, t.node, t.key, t.red, t.right))
  }

  lemma RotationKeepsItems(t: Shape)
    ensures t != Leaf && t.right != Leaf ==> Items(RotateLeft(t)) == Items(t)
    ensures t != Leaf && t.left != Leaf ==> Items(RotateRight(t)) == Items(t)
  {
    if t != Leaf && t.right != Leaf {
      var q := t.right;
      Regroup(Items(t.left), [(t.node, t.key)], Items(q.left), [(q.node, q.key)], Items(q.right));
    }
    if t != Leaf && t.left != Leaf {
      var q := t.left;
      Regroup(Items(q.left), [(q.node, q.key)], Items(q.right), [(t.node, t.key)], Items(t.right));
    }
  }

  lemma Regroup<X>(a: seq<X>, x: seq<X>, b: seq<X>, y: seq<X>, d: seq<X>)
    ensures (a + x + b) + y + d == a + x + (b + y + d)
  {
  }

  lemma PaintKeepsItems(t: Shape, red: bool)
    ensures Items(Paint(t, red)) == Items(t)
  {
  }

  lemma PlugKeepsItems(c: Ctx, t: Shape, t': Shape)
    requires Items(t) == Items(t')
    ensures Items(Plug(c, t)) == Items(Plug(c, t'))
  {
    PlugItems(c, t);
    PlugItems(c, t');
  }

  lemma CloseKeepsItems(c: Ctx, t: Shape, c': Ctx, t': Shape)
    requires c != Top && c' != Top && c' == Recolour(c, c'.red, Sibling(c'))
    requires Items(t) == Items(t') && Items(Sibling(c)) == Items(Sibling(c'))
    ensures Items(Close(c, t)) == Items(Close(c', t'))
  {
  }

  /** A node over two balanced subtrees of the same black height. */
  lemma NodeIsBalanced(l: Shape, n: TreeNode, k: nat, red: bool, r: Shape)
    requires Balanced(l) && Balanced(r) && BlackHeight(l) == BlackHeight(r) && NoRedRed(l) && NoRedRed(r)
    requires red ==> !IsRed(l) && !IsRed(r)
    ensures var t := Node(l, n, k, red, r);
            Balanced(t) && NoRedRed(t) && BlackHeight(t) == BlackHeight(l) + if red then 0 else 1
  {
  }

  lemma PaintBlackIsBalanced(t: Shape)
    requires Balanced(t) && NoRedRed(t)
    ensures var b := Paint(t, false);
            Balanced(b) && NoRedRed(b) && !IsRed(b) && BlackHeight(b) == BlackHeight(t) + if IsRed(t) then 1 else 0
  {
  }

  /** A context with one of its two colours or its sibling repainted. */
  function Recolour(c: Ctx, red: bool, sibling: Shape): Ctx
    requires c != Top
  {
    if c.InLeft? then c.(red := red, right := sibling) else c.(red := red, left := sibling)
  }

  // ---- The fix-up after an insertion ----

  /** The rotations of TREE__REBALANCE_AFTER_INSERT: t is the red child in the hole of c, whose
      node is red too. An inner child is first rotated above its parent. */
  function InsertRotate(c: Ctx, t: Shape): Shape
    requires c != Top && c.up != Top && t != Leaf
  {
    var g := c.up.(red := true);
    if g.InLeft? then
      RotateRight(Close(g, Paint(if c.InRight? then RotateLeft(Close(c, t)) else Close(c, t), false)))
    else
      RotateLeft(Close(g, Paint(if c.InLeft? then RotateRight(Close(c, t)) else Close(c, t), false)))
  }

  /** Pushing the red up: parent and uncle black, grandparent red. */
  function InsertRecolour(c: Ctx, t: Shape): (r: Shape)
    requires c != Top && c.up != Top
    ensures r != Leaf
  {
    Close(Recolour(c.up, true, Paint(Sibling(c.up), false)), Paint(Close(c, t), false))
  }

  function InsertFix(c: Ctx, t: Shape): Shape
    requires t != Leaf
    decreases c
  {
    if c == Top || !c.red || c.up == Top then Plug(c, t)
    else if IsRed(Sibling(c.up)) then InsertFix(c.up.up, InsertRecolour(c, t))
    else Plug(c.up.up, InsertRotate(c, t))
  }

  lemma InsertStepItems(c: Ctx, t: Shape)
    requires c != Top && c.up != Top && t != Leaf
    ensures var whole := Items(Close(c.up, Close(c, t)));
            Items(InsertRecolour(c, t)) == whole && Items(InsertRotate(c, t)) == whole
  {
    var p, g := Close(c, t), c.up;
    PaintKeepsItems(Sibling(g), false);
    PaintKeepsItems(p, false);
    CloseKeepsItems(g, p, Recolour(g, true, Paint(Sibling(g), false)), Paint(p, false));
    RotationKeepsItems(p);
    var p' := if g.InLeft? && c.InRight? then RotateLeft(p) else if g.InRight? && c.InLeft? then RotateRight(p) else p;
    PaintKeepsItems(p', false);
    CloseKeepsItems(g, p, g.(red := true), Paint(p', false));
    RotationKeepsItems(Close(g.(red := true), Paint(p', false)));
  }

  lemma {:induction false} InsertFixItems(c: Ctx, t: Shape)
    requires t != Leaf
    ensures Items(InsertFix(c, t)) == Items(Plug(c, t))
    decreases c
  {
    hide Items, InsertRecolour, InsertRotate;
    if c != Top && c.red && c.up != Top {
      InsertStepItems(c, t);
      var whole := Close(c.up, Close(c, t));
      if IsRed(Sibling(c.up)) {
        InsertFixItems(c.up.up, InsertRecolour(c, t));
        PlugKeepsItems(c.up.up, InsertRecolour(c, t), whole);
      } else {
        PlugKeepsItems(c.up.up, InsertRotate(c, t), whole);
      }
    }
  }

  lemma RecolourIsBalanced(c: Ctx, t: Shape)
    requires c != Top && c.red && IsRed(t) && Balanced(t) && NoRedRed(t) && Around(c, BlackHeight(t))
    requires IsRed(Sibling(c.up))
    ensures var t' := InsertRecolour(c, t);
            IsRed(t') && Balanced(t') && NoRedRed(t') && Around(c.up.up, BlackHeight(t'))
  {
    var p, u := Paint(Close(c, t), false), Paint(Sibling(c.up), false);
    var g := Recolour(c.up, true, u);
    PaintBlackIsBalanced(Sibling(c.up));
    if c.InLeft? {
      NodeIsBalanced(t, c.node, c.key, false, c.right);
    } else {
      NodeIsBalanced(c.left, c.node, c.key, false, t);
    }
    if g.InLeft? {
      NodeIsBalanced(p, g.node, g.key, true, u);
    } else {
      NodeIsBalanced(u, g.node, g.key, true, p);
    }
  }

  lemma InsertRotateIsBalanced(c: Ctx, t: Shape)
    requires c != Top && c.red && IsRed(t) && Balanced(t) && NoRedRed(t) && Around(c, BlackHeight(t))
    requires !IsRed(Sibling(c.up))
    ensures var t' := InsertRotate(c, t);
            !IsRed(t') && Balanced(t') && NoRedRed(t') && Around(c.up.up, BlackHeight(t'))
  {
    var g := c.up;
    var r := InsertRotate(c, t);
    if g.InLeft? {
      if c.InLeft? {
        NodeIsBalanced(c.right, g.node, g.key, true, g.right);
      } else {
        NodeIsBalanced(c.left, c.node, c.key, true, t.left);
        NodeIsBalanced(t.right, g.node, g.key, true, g.right);
      }
    } else {
      if c.InRight? {
        NodeIsBalanced(g.left, g.node, g.key, true, c.left);
      } else {
        NodeIsBalanced(g.left, g.node, g.key, true, t.left);
        NodeIsBalanced(t.right, c.node, c.key, true, c.right);
      }
    }
    NodeIsBalanced(r.left, r.node, r.key, false, r.right);
  }

  /** The insertion fix-up turns a tree with at most one red-red edge, at the hole, into a red-black tree. */
  lemma {:induction false} InsertFixRedBlack(c: Ctx, t: Shape)
    requires IsRed(t) && Balanced(t) && NoRedRed(t) && Around(c, BlackHeight(t))
    ensures RedBlack(Paint(InsertFix(c, t), false))
    decreases c
  {
    hide InsertRecolour, InsertRotate;
    if c == Top {
      PaintBlackIsBalanced(t);
    } else if !c.red {
      PlugRedBlack(c, t);
    } else if IsRed(Sibling(c.up)) {
      RecolourIsBalanced(c, t);
      InsertFixRedBlack(c.up.up, InsertRecolour(c, t));
    } else {
      InsertRotateIsBalanced(c, t);
      PlugRedBlack(c.up.up, InsertRotate(c, t));
    }
  }

  // ---- The fix-up after a removal ----

  datatype Step = Done(whole: Shape) | More(c: Ctx, t: Shape)

  /** A near red nephew is rotated above the sibling, so that the far one is red. */
  function FarNephew(c: Ctx): Shape
    requires c != Top && Sibling(c) != Leaf && (IsRed(Sibling(c).left) || IsRed(Sibling(c).right))
  {
    var s := Sibling(c);
    if c.InLeft? then
      if IsRed(s.right) then s else RotateRight(s.(red := true, left := Paint(s.left, false)))
    else
      if IsRed(s.left) then s else RotateLeft(s.(red := true, right := Paint(s.right, false)))
  }

  /** A red nephew pays for the missing black: the sibling takes the parent's place and colour. */
  function Borrow(c: Ctx, t: Shape): Shape
    requires c != Top && Sibling(c) != Leaf && (IsRed(Sibling(c).left) || IsRed(Sibling(c).right))
  {
    var s := FarNephew(c);
    if c.InLeft? then
      RotateLeft(Close(Recolour(c, false, s.(red := c.red, right := Paint(s.right, false))), t))
    else
      RotateRight(Close(Recolour(c, false, s.(red := c.red, left := Paint(s.left, false))), t))
  }

  /** A red sibling is rotated above the parent first. */
  function LiftSibling(c: Ctx): Ctx
    requires c != Top && Sibling(c) != Leaf
  {
    var s := Sibling(c);
    if c.InLeft? then InLeft(InLeft(c.up, s.node, s.key, false, s.right), c.node, c.key, true, s.left)
    else InRight(InRight(c.up, s.node, s.key, false, s.left), c.node, c.key, true, s.right)
  }

  /** The rest of TREE__REBALANCE_AFTER_REMOVE, with a black sibling. */
  function RemoveBlackSibling(c: Ctx, t: Shape): Step
    requires c != Top && Sibling(c) != Leaf
  {
    var s := Sibling(c);
    if IsRed(s.left) || IsRed(s.right) then Done(Paint(Plug(c.up, Borrow(c, t)), false))
    else
      var t' := Close(Recolour(c, c.red, Paint(s, true)), t);
      if c.red then Done(Plug(c.up, Paint(t', false))) else More(c.up, t')
  }

  function RemoveStep(c: Ctx, t: Shape): (step: Step)
    requires c != Top && Sibling(c) != Leaf
    requires IsRed(Sibling(c)) ==> Sibling(LiftSibling(c)) != Leaf
    ensures step.More? ==> step.c == c.up
  {
    if IsRed(Sibling(c)) then RemoveBlackSibling(LiftSibling(c), t) else RemoveBlackSibling(c, t)
  }

  /** A hole whose subtree t is one black node short. */
  ghost predicate Short(c: Ctx, t: Shape) {
    Balanced(t) && NoRedRed(t) && !IsRed(t) && Around(c, BlackHeight(t) + 1)
  }

  /** The sibling of a short subtree exists, and so does the one that takes its place. */
  lemma ShortHasSibling(c: Ctx, t: Shape)
    requires c != Top && Short(c, t)
    ensures Sibling(c) != Leaf
    ensures IsRed(Sibling(c)) ==> Sibling(LiftSibling(c)) != Leaf && !IsRed(Sibling(LiftSibling(c))) && Short(LiftSibling(c), t)
  {
    var s := Sibling(c);
    if IsRed(s) {
      assert BlackHeight(s.left) == BlackHeight(t) + 1;
      assert BlackHeight(s.right) == BlackHeight(t) + 1;
    }
  }

  ghost function RemoveFix(c: Ctx, t: Shape): Shape
    requires Short(c, t)
    decreases c
  {
    if c == Top then Paint(t, false) else
      StepIsRedBlack(c, t);
      var step := RemoveStep(c, t);
      if step.Done? then step.whole else RemoveFix(step.c, step.t)
  }

  lemma BlackSiblingIsRedBlack(c: Ctx, t: Shape)
    requires c != Top && Short(c, t) && Sibling(c) != Leaf && !IsRed(Sibling(c))
    ensures var step := RemoveBlackSibling(c, t); if step.Done? then RedBlack(step.whole) else Short(step.c, step.t)
  {
    var s := Sibling(c);
    if IsRed(s.left) || IsRed(s.right) {
      BorrowIsRedBlack(c, t);
      PlugRedBlack(c.up, Borrow(c, t));
      hide Borrow;
    } else {
      NodeIsBalanced(s.left, s.node, s.key, true, s.right);
      var s' := Paint(s, true);
      if c.InLeft? {
        NodeIsBalanced(t, c.node, c.key, false, s');
      } else {
        NodeIsBalanced(s', c.node, c.key, false, t);
      }
      if c.red {
        PlugRedBlack(c.up, Paint(Close(Recolour(c, c.red, s'), t), false));
      }
    }
  }

  lemma FarNephewIsBalanced(c: Ctx, t: Shape)
    requires c != Top && Short(c, t) && Sibling(c) != Leaf && !IsRed(Sibling(c))
    requires IsRed(Sibling(c).left) || IsRed(Sibling(c).right)
    ensures var s := FarNephew(c);
            && s != Leaf && !s.red && Balanced(s.left) && Balanced(s.right) && NoRedRed(s.left) && NoRedRed(s.right)
            && BlackHeight(s.left) == BlackHeight(t) == BlackHeight(s.right)
            && IsRed(if c.InLeft? then s.right else s.left)
  {
    var s := Sibling(c);
    assert Balanced(s.left) && NoRedRed(s.left) && Balanced(s.right) && NoRedRed(s.right);
    assert BlackHeight(s.left) == BlackHeight(t) == BlackHeight(s.right);
    if c.InLeft? && !IsRed(s.right) {
      NodeIsBalanced(s.left.right, s.node, s.key, true, s.right);
    } else if c.InRight? && !IsRed(s.left) {
      NodeIsBalanced(s.left, s.node, s.key, true, s.right.left);
    }
  }

  lemma BorrowIsRedBlack(c: Ctx, t: Shape)
    requires c != Top && Short(c, t) && Sibling(c) != Leaf && !IsRed(Sibling(c))
    requires IsRed(Sibling(c).left) || IsRed(Sibling(c).right)
    ensures var b := Borrow(c, t);
            Balanced(b) && NoRedRed(b) && b.red == c.red && Around(c.up, BlackHeight(b))
  {
    FarNephewIsBalanced(c, t);
    var s := FarNephew(c);
    hide FarNephew;
    if c.InLeft? {
      PaintBlackIsBalanced(s.right);
      NodeIsBalanced(t, c.node, c.key, false, s.left);
    } else {
      PaintBlackIsBalanced(s.left);
      NodeIsBalanced(s.right, c.node, c.key, false, t);
    }
    var b := Borrow(c, t);
    NodeIsBalanced(b.left, b.node, b.key, b.red, b.right);
  }

  lemma StepIsRedBlack(c: Ctx, t: Shape)
    requires c != Top && Short(c, t)
    ensures Sibling(c) != Leaf && (IsRed(Sibling(c)) ==> Sibling(LiftSibling(c)) != Leaf)
    ensures var step := RemoveStep(c, t); if step.Done? then RedBlack(step.whole) else Short(step.c, step.t)
  {
    hide RemoveBlackSibling;
    ShortHasSibling(c, t);
    if IsRed(Sibling(c)) {
      BlackSiblingIsRedBlack(LiftSibling(c), t);
    } else {
      BlackSiblingIsRedBlack(c, t);
    }
  }

  lemma BorrowItems(c: Ctx, t: Shape)
    requires c != Top && Sibling(c) != Leaf && (IsRed(Sibling(c).left) || IsRed(Sibling(c).right))
    ensures Items(Borrow(c, t)) == Items(Close(c, t))
  {
    var s, far := Sibling(c), FarNephew(c);
    PaintKeepsItems(s.left, false);
    PaintKeepsItems(s.right, false);
    assert Items(far) == Items(s) by {
      if far != s {
        var s' := if c.InLeft? then s.(red := true, left := Paint(s.left, false)) else s.(red := true, right := Paint(s.right, false));
        RotationKeepsItems(s');
      }
    }
    PaintKeepsItems(far.left, false);
    PaintKeepsItems(far.right, false);
    var sib := if c.InLeft? then far.(red := c.red, right := Paint(far.right, false)) else far.(red := c.red, left := Paint(far.left, false));
    assert Items(sib) == Items(far);
    var c' := Recolour(c, false, sib);
    CloseKeepsItems(c, t, c', t);
    RotationKeepsItems(Close(c', t));
  }

  lemma BlackSiblingItems(c: Ctx, t: Shape)
    requires c != Top && Sibling(c) != Leaf
    ensures var step := RemoveBlackSibling(c, t);
            Items(if step.Done? then step.whole else Plug(step.c, step.t)) == Items(Plug(c, t))
  {
    var s := Sibling(c);
    if IsRed(s.left) || IsRed(s.right) {
      BorrowItems(c, t);
      PlugKeepsItems(c.up, Borrow(c, t), Close(c, t));
      PaintKeepsItems(Plug(c.up, Borrow(c, t)), false);
    } else {
      var c' := Recolour(c, c.red, Paint(s, true));
      var t' := Close(c', t);
      PaintKeepsItems(s, true);
      PaintKeepsItems(t', false);
      CloseKeepsItems(c, t, c', t);
      PlugKeepsItems(c.up, t', Close(c, t));
      PlugKeepsItems(c.up, Paint(t', false), Close(c, t));
    }
    hide Items, Borrow;
  }

  lemma StepItems(c: Ctx, t: Shape)
    requires c != Top && Sibling(c) != Leaf && (IsRed(Sibling(c)) ==> Sibling(LiftSibling(c)) != Leaf)
    ensures var step := RemoveStep(c, t);
            Items(if step.Done? then step.whole else Plug(step.c, step.t)) == Items(Plug(c, t))
  {
    if IsRed(Sibling(c)) {
      var c' := LiftSibling(c);
      BlackSiblingItems(c', t);
      LiftItems(c, t);
    } else {
      BlackSiblingItems(c, t);
    }
    hide Items, RemoveBlackSibling;
  }

  /** Lifting the sibling is a rotation of the parent. */
  lemma LiftItems(c: Ctx, t: Shape)
    requires c != Top && Sibling(c) != Leaf
    ensures Items(Plug(LiftSibling(c), t)) == Items(Plug(c, t))
  {
    var s, c' := Sibling(c), LiftSibling(c);
    var recoloured := Close(Recolour(c, true, s.(red := false)), t);
    assert Items(s.(red := false)) == Items(s);
    CloseKeepsItems(c, t, Recolour(c, true, s.(red := false)), t);
    RotationKeepsItems(recoloured);
    assert Close(c'.up, Close(c', t)) == if c.InLeft? then RotateLeft(recoloured) else RotateRight(recoloured);
    PlugKeepsItems(c.up, Close(c'.up, Close(c', t)), Close(c, t));
  }

  /** The removal fix-up pays for the missing black: the result is a red-black tree with the same items. */
  lemma {:induction false} RemoveFixRedBlack(c: Ctx, t: Shape)
    requires Short(c, t)
    ensures RedBlack(RemoveFix(c, t)) && Items(RemoveFix(c, t)) == Items(Plug(c, t))
    decreases c
  {
    hide Items, RemoveStep, RedBlack;
    if c == Top {
      PaintKeepsItems(t, false);
      PaintBlackIsBalanced(t);
      BlackIsRedBlack(Paint(t, false));
    } else {
      StepIsRedBlack(c, t);
      StepItems(c, t);
      var step := RemoveStep(c, t);
      if step.More? {
        RemoveFixRedBlack(step.c, step.t);
      }
    }
  }

  lemma BlackIsRedBlack(t: Shape)
    requires Balanced(t) && NoRedRed(t) && !IsRed(t)
    ensures RedBlack(t)
  {
  }

  // ---- Removal: which node leaves its place ----

  /** The leftmost node of a subtree. */
  function Min(t: Shape): (m: Shape)
    requires t != Leaf
    ensures m != Leaf && m.left == Leaf
  {
    if t.left == Leaf then t else Min(t.left)
  }

  /** The place of the leftmost node of t, where t hangs in c. */
  function Leftmost(c: Ctx, t: Shape): Ctx
    requires t != Leaf
    decreases t
  {
    if t.left == Leaf then c else Leftmost(InLeft(c, t.node, t.key, t.red, t.right), t.left)
  }

  /** t with its leftmost node replaced by f. */
  function ReplaceMin(t: Shape, f: Shape): Shape
    requires t != Leaf
  {
    if t.left == Leaf then f else t.(left := ReplaceMin(t.left, f))
  }

  lemma {:induction false} PlugLeftmost(c: Ctx, t: Shape, f: Shape)
    requires t != Leaf
    ensures Plug(Leftmost(c, t), f) == Plug(c, ReplaceMin(t, f))
    decreases t
  {
    if t.left != Leaf {
      PlugLeftmost(InLeft(c, t.node, t.key, t.red, t.right), t.left, f);
    }
  }

  lemma {:induction false} MinIsFirst(t: Shape)
    requires t != Leaf
    ensures Items(t) == [(Min(t).node, Min(t).key)] + Items(ReplaceMin(t, Min(t).right))
  {
    if t.left != Leaf {
      MinIsFirst(t.left);
    }
  }

  /** What a removal leaves: the hole, the subtree moved into it, and the colour that went missing. */
  datatype Gap = Gap(c: Ctx, t: Shape, red: bool)

  function Detach(c: Ctx, t: Shape): Gap
    requires t != Leaf
  {
    if t.left == Leaf then Gap(c, t.right, t.red)
    else if t.right == Leaf then Gap(c, t.left, t.red)
    else
      var next := Min(t.right);
      Gap(Leftmost(InRight(c, next.node, next.key, t.red, t.left), t.right), next.right, next.red)
  }

  /** tree_del: detach, then repair the colours. */
  ghost function Remove(c: Ctx, t: Shape): Shape
    requires t != Leaf && Fits(c, t)
  {
    DetachKeepsBalance(c, t);
    var gap := Detach(c, t);
    if gap.red then Plug(gap.c, gap.t)
    else if IsRed(gap.t) then Plug(gap.c, Paint(gap.t, false))
    else RemoveFix(gap.c, gap.t)
  }

  lemma DetachItems(c: Ctx, t: Shape)
    requires t != Leaf
    ensures var gap := Detach(c, t);
            Items(Plug(gap.c, gap.t)) == Before(c) + Items(t.left) + Items(t.right) + After(c)
  {
    if t.left != Leaf && t.right != Leaf {
      SuccessorItems(c, t);
    } else {
      PlugItems(c, Detach(c, t).t);
      assert Items(Leaf) == [];
    }
  }

  lemma SuccessorItems(c: Ctx, t: Shape)
    requires t != Leaf && t.left != Leaf && t.right != Leaf
    ensures var gap := Detach(c, t);
            Items(Plug(gap.c, gap.t)) == Before(c) + Items(t.left) + Items(t.right) + After(c)
  {
    var next := Min(t.right);
    var base := InRight(c, next.node, next.key, t.red, t.left);
    var rest := ReplaceMin(t.right, next.right);
    assert Detach(c, t).c == Leftmost(base, t.right) && Detach(c, t).t == next.right;
    assert Before(base) == Before(c) + Items(t.left) + [(next.node, next.key)] && After(base) == After(c);
    hide *;
    MinIsFirst(t.right);
    PlugLeftmost(base, t.right, next.right);
    PlugItems(base, rest);
    Associate(Before(c) + Items(t.left), [(next.node, next.key)], Items(rest));
  }

  lemma Associate<X>(a: seq<X>, b: seq<X>, d: seq<X>)
    ensures (a + b) + d == a + (b + d)
  {
  }

  lemma {:induction false} LeftmostAround(c: Ctx, t: Shape)
    requires t != Leaf && Fits(c, t)
    ensures var m := Min(t);
            && Balanced(m) && NoRedRed(m) && Around(Leftmost(c, t), BlackHeight(m))
            && (m.red ==> Leftmost(c, t) != Top && !RedAbove(Leftmost(c, t)))
    decreases t
  {
    if t.left != Leaf {
      DescendRedBlack(c, t);
      LeftmostAround(InLeft(c, t.node, t.key, t.red, t.right), t.left);
    }
  }

  lemma DetachKeepsBalance(c: Ctx, t: Shape)
    requires t != Leaf && Fits(c, t)
    ensures var gap := Detach(c, t);
            && Balanced(gap.t) && NoRedRed(gap.t)
            && Around(gap.c, BlackHeight(gap.t) + if gap.red then 0 else 1)
            && (gap.red ==> !IsRed(gap.t))
            && (!gap.red && !IsRed(gap.t) ==> Short(gap.c, gap.t))
  {
    if t.left != Leaf && t.right != Leaf {
      var next := Min(t.right);
      DescendRedBlack(c, t);
      var base := InRight(c, next.node, next.key, t.red, t.left);
      LeftmostAround(base, t.right);
    }
  }

  /** tree_del removes exactly the one node and keeps order and balance. */
  lemma RemoveIsCorrect(c: Ctx, t: Shape)
    requires t != Leaf && Fits(c, t)
    ensures RedBlack(Remove(c, t))
    ensures Items(Remove(c, t)) == Before(c) + Items(t.left) + Items(t.right) + After(c)
  {
    DetachKeepsBalance(c, t);
    DetachItems(c, t);
    var gap := Detach(c, t);
    hide Detach, Items, Before, After;
    if gap.red {
      PlugRedBlack(gap.c, gap.t);
    } else if IsRed(gap.t) {
      PaintBlackIsBalanced(gap.t);
      PlugRedBlack(gap.c, Paint(gap.t, false));
      PaintKeepsItems(gap.t, false);
      PlugKeepsItems(gap.c, Paint(gap.t, false), gap.t);
    } else {
      RemoveFixRedBlack(gap.c, gap.t);
    }
  }

  // ---- Insertion: where a key goes ----

  /** The hole where `key` belongs, or the subtree that already has it at its root. */
  function Locate(c: Ctx, t: Shape, key: nat): (Ctx, Shape)
    decreases t
  {
    if t == Leaf || key == t.key then (c, t)
    else if key < t.key then Locate(InLeft(c, t.node, t.key, t.red, t.right), t.left, key)
    else Locate(InRight(c, t.node, t.key, t.red, t.left), t.right, key)
  }

  function Add(t: Shape, node: TreeNode, key: nat): Shape {
    var (c, hole) := Locate(Top, t, key);
    if hole != Leaf then t else Paint(InsertFix(c, Node(Leaf, node, key, true, Leaf)), false)
  }

  ghost predicate Below(s: seq<(TreeNode, nat)>, key: nat) { forall x | x in s :: x.1 < key }
  ghost predicate Above(s: seq<(TreeNode, nat)>, key: nat) { forall x | x in s :: key < x.1 }

  lemma {:induction false} LocateIsCorrect(c: Ctx, t: Shape, key: nat)
    requires Increasing(Items(Plug(c, t))) && Below(Before(c), key) && Above(After(c), key)
    ensures var (c', hole) := Locate(c, t, key);
            && Plug(c', hole) == Plug(c, t) && Below(Before(c'), key) && Above(After(c'), key)
            && (hole != Leaf ==> hole.key == key)
    decreases t
  {
    PlugItems(c, t);
    if t != Leaf && key != t.key {
      SplitOrder(Before(c), Items(t.left), (t.node, t.key), Items(t.right), After(c));
      var c' := if key < t.key then InLeft(c, t.node, t.key, t.red, t.right) else InRight(c, t.node, t.key, t.red, t.left);
      LocateIsCorrect(c', if key < t.key then t.left else t.right, key);
    }
  }

  lemma SplitOrder(a: seq<(TreeNode, nat)>, l: seq<(TreeNode, nat)>, x: (TreeNode, nat), r: seq<(TreeNode, nat)>, b: seq<(TreeNode, nat)>)
    requires Increasing(a + (l + [x] + r) + b)
    ensures Below(l, x.1) && Above(r, x.1)
  {
    var s := a + (l + [x] + r) + b;
    var m := |a| + |l|;
    assert s[m] == x;
    forall y | y in l ensures y.1 < x.1 {
      var i :| 0 <= i < |l| && l[i] == y;
      assert s[|a| + i] == y;
    }
    forall y | y in r ensures x.1 < y.1 {
      var i :| 0 <= i < |r| && r[i] == y;
      assert s[m + 1 + i] == y;
    }
  }

  lemma {:induction false} LocateAround(c: Ctx, t: Shape, key: nat)
    requires Fits(c, t)
    ensures var (c', hole) := Locate(c, t, key);
            Fits(c', hole)
    decreases t
  {
    if t != Leaf && key != t.key {
      DescendRedBlack(c, t);
      if key < t.key {
        LocateAround(InLeft(c, t.node, t.key, t.red, t.right), t.left, key);
      } else {
        LocateAround(InRight(c, t.node, t.key, t.red, t.left), t.right, key);
      }
    }
  }

  lemma JoinOrder(a: seq<(TreeNode, nat)>, x: (TreeNode, nat), b: seq<(TreeNode, nat)>)
    requires Increasing(a + b) && Below(a, x.1) && Above(b, x.1)
    ensures Increasing(a + [x] + b)
  {
    var s, t := a + b, a + [x] + b;
    forall i, j | 0 <= i < j < |t| ensures t[i].1 < t[j].1 {
      var i', j' := if i <= |a| then i else i - 1, if j <= |a| then j else j - 1;
      if i == |a| {
        assert t[j] in b;
      } else if j == |a| {
        assert t[i] in a;
      } else {
        assert t[i] == s[i'] && t[j] == s[j'];
      }
    }
  }

  /** tree_add refuses a key that is present, and otherwise adds exactly the one node, keeping
      order and balance. */
  lemma AddIsCorrect(t: Shape, node: TreeNode, key: nat)
    requires RedBlack(t) && Increasing(Items(t))
    ensures key in KeySet(t) <==> Locate(Top, t, key).1 != Leaf
    ensures key in KeySet(t) ==> Add(t, node, key) == t
    ensures key !in KeySet(t) ==>
              && RedBlack(Add(t, node, key)) && Increasing(Items(Add(t, node, key)))
              && exists a, b :: Items(t) == a + b && Items(Add(t, node, key)) == a + [(node, key)] + b
  {
    LocateIsCorrect(Top, t, key);
    LocateAround(Top, t, key);
    var (c, hole) := Locate(Top, t, key);
    hide Locate, Increasing, RedBlack, Items, KeySet, Plug, Before, After, Below, Above, InsertFix, Paint, Around;
    if hole != Leaf {
      KeyIsThere(c, hole);
    } else {
      AddedAt(c, node, key);
    }
  }

  lemma KeyIsThere(c: Ctx, t: Shape)
    requires t != Leaf
    ensures t.key in KeySet(Plug(c, t))
  {
    PlugItems(c, t);
    assert (t.node, t.key) in Items(t);
    assert (t.node, t.key) in Items(Plug(c, t));
  }

  /** A new leaf in the hole for its key. */
  lemma AddedAt(c: Ctx, node: TreeNode, key: nat)
    requires Fits(c, Leaf) && Increasing(Items(Plug(c, Leaf))) && Below(Before(c), key) && Above(After(c), key)
    ensures key !in KeySet(Plug(c, Leaf))
    ensures var t' := Paint(InsertFix(c, Node(Leaf, node, key, true, Leaf)), false);
            && RedBlack(t') && Increasing(Items(t'))
            && exists a, b :: Items(Plug(c, Leaf)) == a + b && Items(t') == a + [(node, key)] + b
  {
    hide InsertFix, Plug, Increasing;
    var a, b, leaf := Before(c), After(c), Node(Leaf, node, key, true, Leaf);
    PlugItems(c, Leaf);
    assert Items(Plug(c, Leaf)) == a + b;
    assert Items(leaf) == [(node, key)];
    PlugItems(c, leaf);
    InsertFixItems(c, leaf);
    InsertFixRedBlack(c, leaf);
    PaintKeepsItems(InsertFix(c, leaf), false);
    JoinOrder(a, (node, key), b);
  }

  /** One item more or less is one key more or less. */
  lemma KeysOfItems(t: Shape, t': Shape, a: seq<(TreeNode, nat)>, x: (TreeNode, nat), b: seq<(TreeNode, nat)>)
    requires Items(t) == a + b && Items(t') == a + [x] + b && Increasing(Items(t'))
    ensures KeySet(t') == KeySet(t) + {x.1} && x.1 !in KeySet(t)
  {
    hide Items;
    var s := a + [x] + b;
    assert s[|a|] == x;
    forall y | y in a + b ensures y in s && y.1 != x.1 {
      var i :| 0 <= i < |a + b| && (a + b)[i] == y;
      assert s[if i < |a| then i else i + 1] == y;
    }
    assert forall y | y in s :: y == x || y in a + b;
  }

  lemma RemovingKeepsOrder(a: seq<(TreeNode, nat)>, x: (TreeNode, nat), b: seq<(TreeNode, nat)>)
    requires Increasing(a + [x] + b)
    ensures Increasing(a + b)
  {
    var s, t := a + b, a + [x] + b;
    forall i, j | 0 <= i < j < |s| ensures s[i].1 < s[j].1 {
      var i', j' := if i < |a| then i else i + 1, if j < |a| then j else j + 1;
      assert s[i] == t[i'] && s[j] == t[j'];
    }
  }

  // ---- Height ----

  function Height(t: Shape): nat {
    if t == Leaf then 0 else 1 + if Height(t.left) >= Height(t.right) then Height(t.left) else Height(t.right)
  }

  function Pow2(n: nat): nat { if n == 0 then 1 else 2 * Pow2(n - 1) }

  lemma {:induction false} HeightByBlackHeight(t: Shape)
    requires Balanced(t) && NoRedRed(t)
    ensures Height(t) <= 2 * BlackHeight(t) + (if IsRed(t) then 1 else 0)
    ensures Pow2(BlackHeight(t)) <= |Items(t)| + 1
  {
    if t != Leaf {
      HeightByBlackHeight(t.left);
      HeightByBlackHeight(t.right);
    }
  }

  lemma {:induction false} Pow2Adds(m: nat, n: nat)
    ensures Pow2(m + n) == Pow2(m) * Pow2(n)
  {
    if m > 0 {
      Pow2Adds(m - 1, n);
      Doubles(Pow2(m - 1), Pow2(n));
    }
  }

  lemma Doubles(a: nat, b: nat)
    ensures 2 * (a * b) == (2 * a) * b
  {
  }

  lemma {:induction false} Pow2Monotone(m: nat, n: nat)
    requires m <= n
    ensures Pow2(m) <= Pow2(n)
  {
    if m < n {
      Pow2Monotone(m, n - 1);
    }
  }

  /** The height is at most 2 * log2(n + 1). */
  lemma HeightIsLogarithmic(t: Shape)
    requires RedBlack(t)
    ensures Pow2(Height(t)) <= (|Items(t)| + 1) * (|Items(t)| + 1)
  {
    var b, n := BlackHeight(t), |Items(t)| + 1;
    HeightByBlackHeight(t);
    Pow2Monotone(Height(t), 2 * b);
    Pow2Adds(b, b);
    Squares(Pow2(b), n);
  }

  lemma Squares(a: nat, b: nat)
    requires a <= b
    ensures a * a <= b * b
  {
    assert b * b == a * a + (b - a) * (a + b);
  }
}
