/** rbtree.cpp: the tree object, its rotations, insertion and deletion. */
module RbTree {
  import opened RbShape
  import opened RbHeap
  import opened RbBalance
  import opened RbOrder
  import opened RbRun

  class Tree {
    var root: Node?
    ghost var nodes: set<Node>
    ghost var shape: RbShape.Tree
    ghost var history: seq<Op>  // the calls made so far

    ghost function Fields(): Heap
      reads this`nodes, nodes
    {
      map n | n in nodes :: Cell(n.left, n.right, n.parent, n.color)
    }

    /** The linked nodes form exactly the tree t. */
    ghost predicate Holds(t: RbShape.Tree)
      reads this`root, this`nodes, nodes
    {
      Repr(Fields(), root, Top, t) && nodes == Nodes(t)
    }

    ghost predicate Valid()
      reads this, nodes
    {
      && Holds(shape) && RedBlack(shape) && Sorted(InOrder(shape))
      && Legal(history) && InOrder(shape) == Run(history)
    }

    /** The nodes in order. */
    ghost function Contents(): seq<Node>
      reads this
    {
      InOrder(shape)
    }

    constructor ()
      ensures Valid() && Contents() == [] && nodes == {} && history == []
    {
      root, nodes, shape, history := null, {}, Leaf, [];
    }

    lemma Focus(x: Ctx, t: RbShape.Tree)
      requires Holds(Plug(x, t))
      ensures Repr(Fields(), root, x, t) && nodes == CtxNodes(x) + Nodes(t)
    {
      ReprPlug(Fields(), root, x, t);
      PlugNodes(x, t);
    }

    lemma Unfocus(x: Ctx, t: RbShape.Tree)
      requires Repr(Fields(), root, x, t) && nodes == CtxNodes(x) + Nodes(t)
      ensures Holds(Plug(x, t))
    {
      ReprPlug(Fields(), root, x, t);
      PlugNodes(x, t);
    }

    method SetColor(n: Node, c: Color, ghost x: Ctx, ghost t: RbShape.Tree)
      requires Holds(Plug(x, t)) && t.Br? && t.n == n
      modifies nodes`color
      ensures Holds(Plug(x, t.(c := c)))
      ensures InOrder(Plug(x, t.(c := c))) == InOrder(Plug(x, t))
    {
      Focus(x, t);
      ghost var h := Fields();
      n.color := c;
      Recolor(h, Fields(), root, x, t, c);
      Unfocus(x, t.(c := c));
      PlugInOrder(x, t);
      PlugInOrder(x, t.(c := c));
    }

    /** What a rotation at n towards side s needs of the pointers around n. */
    ghost predicate CanTurn(n: Node, s: Side)
      reads this, nodes
    {
      var h := Fields();
      && n in h && var y, p := h[n].Child(s.Opp()), h[n].parent;
      && y != null && y in h && y != n && y != p && p != n && (p != null ==> p in h)
      && var b := h[y].Child(s);
         b != null ==> b in h && b != n && b != y && b != p
    }

    lemma TurnReady(s: Side, x: Ctx, t: RbShape.Tree)
      requires Holds(Plug(x, t)) && t.Br? && Far(s, t).Br?
      ensures CanTurn(t.n, s)
    {
      Focus(x, t);
      var y := Far(s, t);
      assert TreeOk(Fields(), y, t.n) && Distinct(y) && Nodes(y) <= Nodes(t);
      assert Nodes(Near(s, y)) <= Nodes(y);
    }

    lemma TurnDone(h: Heap, r0: Node?, s: Side, x: Ctx, t: RbShape.Tree)
      requires t.Br? && Far(s, t).Br?
      requires Repr(h, r0, Top, Plug(x, t)) && h.Keys == nodes == Nodes(Plug(x, t))
      requires Turned(h, Fields(), r0, root, s, t.n)
      ensures Holds(Plug(x, Rotate(s, t)))
      ensures InOrder(Plug(x, Rotate(s, t))) == InOrder(Plug(x, t))
    {
      ReprPlug(h, r0, x, t);
      PlugNodes(x, t);
      TurnedOk(h, Fields(), r0, root, s, x, t);
      RotateShape(s, t);
      Unfocus(x, Rotate(s, t));
      PlugInOrder(x, t);
      PlugInOrder(x, Rotate(s, t));
    }

    method LeftRotate(x: Node)
      requires CanTurn(x, Left)
      modifies this`root, nodes
      ensures Turned(old(Fields()), Fields(), old(root), root, Left, x)
    {
      var y := x.right;
      x.right := y.left;
      if y.left != null {
        y.left.parent := x;
      }
      y.parent := x.parent;
      if x.parent == null {
        root := y;
      } else if x == x.parent.left {
        x.parent.left := y;
      } else {
        x.parent.right := y;
      }
      y.left := x;
      x.parent := y;
    }

    method RightRotate(y: Node)
      requires CanTurn(y, Right)
      modifies this`root, nodes
      ensures Turned(old(Fields()), Fields(), old(root), root, Right, y)
    {
      var x := y.left;
      y.left := x.right;
      if x.right != null {
        x.right.parent := y;
      }
      x.parent := y.parent;
      if y.parent == null {
        root := x;
      } else if y == y.parent.left {
        y.parent.left := x;
      } else {
        y.parent.right := x;
      }
      x.right := y;
      y.parent := x;
    }

    method RotateAt(s: Side, n: Node, ghost x: Ctx, ghost t: RbShape.Tree)
      requires Holds(Plug(x, t)) && t.Br? && t.n == n && Far(s, t).Br?
      modifies this`root, nodes
      ensures Holds(Plug(x, Rotate(s, t)))
      ensures InOrder(Plug(x, Rotate(s, t))) == InOrder(Plug(x, t))
    {
      TurnReady(s, x, t);
      ghost var h, r0 := Fields(), root;
      if s.Left? {
        LeftRotate(n);
      } else {
        RightRotate(n);
      }
      TurnDone(h, r0, s, x, t);
    }

    // ----- insertion

    function ChildOf(n: Node, s: Side): Node?
      reads n
    {
      if s.Left? then n.left else n.right
    }

    /** The fields a fixup loop reads around its position. */
    lemma Links(x: Ctx, t: RbShape.Tree)
      requires Holds(Plug(x, t))
      ensures t.Br? ==> t.n in nodes && t.n.parent == Par(x) && t.n.color == t.c
                        && t.n.left == Root(t.l) && t.n.right == Root(t.r)
      ensures x.Step? ==> x.n in nodes && x.n.color == x.c && x.n.parent == Par(x.up)
                          && ChildOf(x.n, x.side) == Root(t) && ChildOf(x.n, x.side.Opp()) == Root(x.sib)
                          && (x.sib.Br? ==> x.sib.n in nodes && x.sib.n.color == x.sib.c
                                            && x.sib.n.left == Root(x.sib.l) && x.sib.n.right == Root(x.sib.r))
      ensures t.Br? && x.Step? && x.sib.Br? ==> t.n != x.sib.n
      ensures (root == Root(t)) <==> x.Top?
    {
      Focus(x, t);
      RootOfCtx(Fields(), x, root, Root(t));
    }

    /** The tests of the insertion loop, read off its position. */
    lemma InsertTests(x: Ctx, t: RbShape.Tree)
      requires Holds(Plug(x, t)) && t.Br?
      ensures t.n in nodes && t.n.parent == Par(x)
      ensures x.Step? ==> x.n in nodes && x.n.color == x.c && x.n.parent == Par(x.up)
      ensures x.Step? && x.up.Step? ==> x.up.n in nodes && (x.n == x.up.n.left <==> x.up.side.Left?)
    {
      Links(x, t);
      if x.Step? { Links(x.up, Mk(x.side, t, x.n, x.c, x.sib)); }
    }

    /** The last statement of _insert_fixup. */
    method BlackenRoot(ghost x: Ctx, ghost t: RbShape.Tree)
      requires Holds(Plug(x, t)) && InsertPoint(x, t) && (x.Top? || x.c.Black?)
      modifies this`shape, nodes`color
      ensures Holds(shape) && RedBlack(shape)
      ensures InOrder(shape) == InOrder(Plug(x, t))
    {
      InsertDone(x, t);
      PlugRoot(x, t);
      Links(Top, Plug(x, t));
      SetColor(root, Black, Top, Plug(x, t));
      shape := Blacken(Plug(x, t));
    }

    /** Case 1 of _insert_fixup: red uncle. */
    method InsertRecolor(p: Node, y: Node, g: Node, ghost x: Ctx, ghost t: RbShape.Tree)
      returns (ghost t': RbShape.Tree)
      requires Holds(Plug(x, t)) && InsertPoint(x, t)
      requires x.Step? && x.n == p && x.c.Red? && x.up.Step? && x.up.n == g
      requires x.up.sib.Br? && x.up.sib.n == y && x.up.sib.c.Red?
      modifies nodes`color
      ensures Holds(Plug(x.up.up, t')) && InsertPoint(x.up.up, t') && t'.n == g
      ensures InOrder(Plug(x.up.up, t')) == InOrder(Plug(x, t))
    {
      GrandparentExists(x, t);
      InsertRedUncle(x, t);
      ghost var k := x.up;
      SetColor(p, Black, k, Mk(x.side, t, p, Red, x.sib));
      ghost var p' := Mk(x.side, t, p, Black, x.sib);
      SetColor(y, Black, Step(k.side.Opp(), g, Black, p', k.up), k.sib);
      t' := Mk(k.side, p', g, Black, k.sib.(c := Black));
      SetColor(g, Red, k.up, t');
      t' := Mk(k.side, p', g, Red, k.sib.(c := Black));
    }

    /** Case 3: black uncle, z outside. */
    method InsertRotateOuter(p: Node, g: Node, s: Side, ghost x: Ctx, ghost t: RbShape.Tree)
      returns (ghost x': Ctx)
      requires Holds(Plug(x, t)) && InsertPoint(x, t)
      requires x.Step? && x.n == p && x.c.Red? && x.up.Step? && x.up.n == g
      requires x.side == x.up.side == s && ColorOf(x.up.sib).Black?
      modifies this`root, nodes
      ensures Holds(Plug(x', t)) && InsertPoint(x', t) && Depth(x') < Depth(x)
      ensures InOrder(Plug(x', t)) == InOrder(Plug(x, t))
    {
      GrandparentExists(x, t);
      InsertOuter(x, t);
      ghost var k := x.up;
      SetColor(p, Black, k, Mk(s, t, p, Red, x.sib));
      ghost var p' := Mk(s, t, p, Black, x.sib);
      SetColor(g, Red, k.up, Mk(s, p', g, Black, k.sib));
      RotateAt(s.Opp(), g, k.up, Mk(s, p', g, Red, k.sib));
      x' := Step(s, p, Black, Mk(s, x.sib, g, Red, k.sib), k.up);
    }

    /** Case 2: black uncle, z inside; z and its parent change places. */
    method InsertRotateInner(p: Node, s: Side, ghost x: Ctx, ghost t: RbShape.Tree)
      returns (ghost x': Ctx, ghost t': RbShape.Tree)
      requires Holds(Plug(x, t)) && InsertPoint(x, t)
      requires x.Step? && x.n == p && x.c.Red? && x.up.Step?
      requires x.up.side == s && x.side == s.Opp() && ColorOf(x.up.sib).Black?
      modifies this`root, nodes
      ensures Holds(Plug(x', t')) && InsertPoint(x', t') && t'.n == p
      ensures x'.Step? && x'.n == t.n && x'.c.Red? && x'.up == x.up && x'.side == x.up.side
      ensures InOrder(Plug(x', t')) == InOrder(Plug(x, t))
    {
      InsertInner(x, t);
      RotateAt(s, p, x.up, Mk(x.side, t, p, Red, x.sib));
      x', t' := Step(s, t.n, Red, Far(s, t), x.up), Mk(s, x.sib, p, Red, Near(s, t));
    }

    /** One round of _insert_fixup; s is the side of z's parent below its own parent. */
    method InsertRound(z: Node, s: Side, ghost x: Ctx, ghost t: RbShape.Tree)
      returns (z': Node, ghost x': Ctx, ghost t': RbShape.Tree)
      requires Holds(Plug(x, t)) && InsertPoint(x, t) && t.n == z
      requires x.Step? && x.c.Red? && x.up.Step? && x.up.side == s
      modifies this`root, nodes
      ensures Holds(Plug(x', t')) && InsertPoint(x', t') && t'.n == z' && Depth(x') < Depth(x)
      ensures InOrder(Plug(x', t')) == InOrder(Plug(x, t))
    {
      Links(x, t);
      Links(x.up, Mk(x.side, t, x.n, x.c, x.sib));
      var p := z.parent;
      var g := p.parent;
      var y := ChildOf(g, s.Opp());
      if y != null && y.color == Red {
        t' := InsertRecolor(p, y, g, x, t);
        z', x' := g, x.up.up;
      } else {
        z', x', t' := z, x, t;
        if z == ChildOf(p, s.Opp()) {
          z' := p;
          x', t' := InsertRotateInner(p, s, x, t);
        }
        Links(x', t');
        x' := InsertRotateOuter(z'.parent, g, s, x', t');
      }
    }

    method InsertFixup(z0: Node, ghost x0: Ctx, ghost t0: RbShape.Tree)
      requires Holds(Plug(x0, t0)) && InsertPoint(x0, t0) && t0.n == z0
      modifies this`root, this`shape, nodes
      ensures Holds(shape) && RedBlack(shape)
      ensures InOrder(shape) == InOrder(Plug(x0, t0))
    {
      var z := z0;
      ghost var x, t := x0, t0;
      InsertTests(x, t);
      while z.parent != null && z.parent.color == Red
        invariant Holds(Plug(x, t)) && InsertPoint(x, t) && t.n == z
        invariant z in nodes && z.parent == Par(x) && (x.Step? ==> x.n.color == x.c)
        invariant InOrder(Plug(x, t)) == InOrder(Plug(x0, t0))
        decreases Depth(x)
      {
        GrandparentExists(x, t);
        InsertTests(x, t);
        if z.parent == z.parent.parent.left {
          z, x, t := InsertRound(z, Left, x, t);
        } else {
          z, x, t := InsertRound(z, Right, x, t);
        }
        InsertTests(x, t);
      }
      BlackenRoot(x, t);
    }

    /** The descent of rb_insert: the null link where z belongs, below y. */
    method FindSlot(z: Node) returns (y: Node?, ghost k: Ctx)
      requires Valid()
      ensures shape == Plug(k, Leaf) && y == Par(k)
      ensures y != null ==> (z.key < y.key <==> k.side.Left?)
      ensures AllAtMost(Before(k), z.key) && AllAbove(After(k), z.key)
    {
      assert root == Root(shape);
      hide Repr, Nodes, RedBlack, Run, Legal, Before, After, AllAtMost, AllAbove, Sorted, InOrder;
      EmptyAround(z.key);
      y, k := null, Top;
      var x := root;
      ghost var t := shape;
      while x != null
        invariant shape == Plug(k, t) && x == Root(t) && y == Par(k)
        invariant y != null ==> (z.key < y.key <==> k.side.Left?)
        invariant AllAtMost(Before(k), z.key) && AllAbove(After(k), z.key) && Sorted(InOrder(t))
        decreases t
      {
        Links(k, t);
        Descend(k, t, z.key);
        y := x;
        if z.key < x.key {
          x := x.left;
          k, t := Step(Left, t.n, t.c, t.r, k), t.l;
        } else {
          x := x.right;
          k, t := Step(Right, t.n, t.c, t.l, k), t.r;
        }
      }
    }

    method Insert(z: Node)
      requires Valid() && z !in nodes
      modifies this, nodes, z
      ensures Valid() && nodes == old(nodes) + {z} && history == old(history) + [Ins(z)]
      ensures Contents() == Place(old(Contents()), z)
    {
      hide Repr, Nodes, InOrder, Plug, Sorted, Place, RedBlack, Run, Legal, InsertPoint;
      InOrderNodes(shape);
      var y;
      ghost var k;
      y, k := FindSlot(z);
      InsertStarts(k, z);
      SlotOrder(k, z);
      LinkLeaf(z, y, k);
      InsertFixup(z, k, Br(Leaf, z, Red, Leaf));
      history := Extend(history, Ins(z));
    }

    /** The middle of rb_insert: hang z, red and childless, below y. */
    method LinkLeaf(z: Node, y: Node?, ghost k: Ctx)
      requires Holds(Plug(k, Leaf)) && z !in nodes && y == Par(k)
      requires y != null ==> (z.key < y.key <==> k.side.Left?)
      modifies this`root, this`nodes, nodes, z
      ensures nodes == old(nodes) + {z} && Holds(Plug(k, Br(Leaf, z, Red, Leaf)))
    {
      Focus(k, Leaf);
      ghost var h, r0 := Fields(), root;
      z.parent := y;
      if y == null {
        root := z;
      } else if z.key < y.key {
        y.left := z;
      } else {
        y.right := z;
      }
      z.left := null;
      z.right := null;
      z.color := Red;
      nodes := nodes + {z};
      LinkOk(h, Fields(), r0, root, k, z);
      Unfocus(k, Br(Leaf, z, Red, Leaf));
    }

    // ----- deletion

    /** rb_first: the leftmost node below `node`. */
    method First(node: Node?, ghost x: Ctx, ghost t: RbShape.Tree)
      returns (m: Node?, ghost k: Ctx, ghost u: RbShape.Tree)
      requires Holds(Plug(x, t)) && node == Root(t)
      ensures m == null <==> t.Leaf?
      ensures t.Br? ==> InOrder(t) != [] && m == InOrder(t)[0]
      ensures t.Br? ==> u.Br? && u.n == m && u.l.Leaf? && t == Plug(k, u) && Before(k) == []
    {
      m, k, u := node, Top, t;
      if node == null { return; }
      Links(x, t);
      while m.left != null
        invariant u.Br? && u.n == m && m in nodes && t == Plug(k, u) && Before(k) == []
        invariant m.left == Root(u.l)
        decreases u
      {
        AroundPlug(k, x, u);
        k := Step(Left, u.n, u.c, u.r, k);
        u := u.l;
        AroundPlug(k, x, u);
        Links(Around(k, x), u);
        m := m.left;
      }
      PlugInOrder(k, u);
    }

    /** rb_last: the rightmost node below `node`. */
    method Last(node: Node?, ghost x: Ctx, ghost t: RbShape.Tree) returns (m: Node?)
      requires Holds(Plug(x, t)) && node == Root(t)
      ensures m == null <==> t.Leaf?
      ensures t.Br? ==> InOrder(t) != [] && m == InOrder(t)[|InOrder(t)| - 1]
    {
      m := node;
      if node == null { return; }
      ghost var k, u := Top, t;
      Links(x, t);
      while m.right != null
        invariant u.Br? && u.n == m && m in nodes && t == Plug(k, u) && After(k) == []
        invariant m.right == Root(u.r)
        decreases u
      {
        AroundPlug(k, x, u);
        k := Step(Right, u.n, u.c, u.l, k);
        u := u.r;
        AroundPlug(k, x, u);
        Links(Around(k, x), u);
        m := m.right;
      }
      PlugInOrder(k, u);
    }

    method Transplant(u: Node, v: Node?)
      requires u in nodes && u != v && u.parent != u && (u.parent != null ==> u.parent in nodes)
      requires v != null ==> v in nodes && v != u.parent
      modifies this`root, {u.parent, v}
      ensures Transplanted(old(Fields()), Fields(), old(root), root, u, v)
    {
      if u.parent == null {
        root := v;
      } else if u == u.parent.left {
        u.parent.left := v;
      } else {
        u.parent.right := v;
      }
      if v != null {
        v.parent := u.parent;
      }
    }

    lemma UnlinkReady(s: Side, x: Ctx, t: RbShape.Tree)
      requires Holds(Plug(x, t)) && t.Br? && Near(s, t).Leaf?
      ensures t.n in nodes && t.n.parent == Par(x) && t.n.parent != t.n
      ensures x.Step? ==> x.n in nodes
      ensures Far(s, t).Br? ==> Far(s, t).n in nodes && Far(s, t).n != t.n && Far(s, t).n != Par(x)
    {
      Focus(x, t);
      assert Nodes(Far(s, t)) <= Nodes(t);
    }

    /** h' is the heap after the transplant; this tree's nodes no longer include t.n. */
    lemma UnlinkDone(h: Heap, h': Heap, r0: Node?, s: Side, x: Ctx, t: RbShape.Tree)
      requires t.Br? && Near(s, t).Leaf?
      requires Repr(h, r0, Top, Plug(x, t)) && h.Keys == Nodes(Plug(x, t))
      requires Transplanted(h, h', r0, root, t.n, Root(Far(s, t)))
      requires nodes == h.Keys - {t.n} && Same(h', Fields(), nodes)
      ensures Holds(Plug(x, Far(s, t)))
    {
      ReprPlug(h, r0, x, t);
      PlugNodes(x, t);
      TransplantOk(h, h', r0, root, s, x, t);
      assert CtxNodes(x) + Nodes(Far(s, t)) == nodes;
      ReprFrame(h', Fields(), root, x, Far(s, t));
      Unfocus(x, Far(s, t));
    }

    /** Transplant the only child of u over u, which leaves the tree. */
    method Unlink(u: Node, v: Node?, ghost s: Side, ghost x: Ctx, ghost t: RbShape.Tree)
      requires Holds(Plug(x, t)) && t.Br? && t.n == u && Near(s, t).Leaf? && v == Root(Far(s, t))
      modifies this`root, this`nodes, nodes
      ensures nodes == old(nodes) - {u} && Holds(Plug(x, Far(s, t)))
    {
      UnlinkReady(s, x, t);
      ghost var h, r0 := Fields(), root;
      Transplant(u, v);
      ghost var h' := Fields();
      nodes := nodes - {u};
      UnlinkDone(h, h', r0, s, x, t);
    }

    /** Distinctness of z, its children, its parent and y, as rb_delete's last block needs it. */
    ghost predicate CanAdopt(z: Node, y: Node)
      reads this`nodes, nodes
    {
      var h := Fields();
      && z in h && y in h && z != y
      && var (a, b, p) := (h[z].left, h[z].right, h[z].parent);
         && a != null && b != null && a in h && b in h && a != b && a != z && b != z && a != y
         && p != z && p != a && p != b && p != y && (p != null ==> p in h)
    }

    /** y not a child of z: it takes over both children, the parent link and the colour of z. */
    method AdoptFar(z: Node, y: Node)
      requires CanAdopt(z, y) && y != z.right
      modifies this`root, nodes
      ensures Adopted(old(Fields()), Fields(), old(root), root, z, y)
    {
      y.right := z.right;
      y.right.parent := y;
      Transplant(z, y);
      y.left := z.left;
      y.left.parent := y;
      y.color := z.color;
    }

    /** y the right child of z: it keeps its own right child. */
    method AdoptNear(z: Node, y: Node)
      requires CanAdopt(z, y) && y == z.right
      modifies this`root, nodes
      ensures AdoptedNear(old(Fields()), Fields(), old(root), root, z, y)
    {
      Transplant(z, y);
      y.left := z.left;
      y.left.parent := y;
      y.color := z.color;
    }

    lemma AdoptReady(x: Ctx, t: RbShape.Tree, y: Node)
      requires Repr(Fields(), root, x, t) && t.Br? && t.l.Br? && t.r.Br?
      requires nodes >= CtxNodes(x) + Nodes(t) && y in nodes
      requires y !in CtxNodes(x) + Nodes(t) || y == t.r.n
      ensures CanAdopt(t.n, y) && t.n.right == t.r.n
    {
    }

    /** h' is the heap just after the surgery and holds u; this tree's nodes are now exactly u's. */
    lemma Shrunk(h': Heap, x: Ctx, u: RbShape.Tree)
      requires Repr(h', root, x, u) && nodes == CtxNodes(x) + Nodes(u) && Same(h', Fields(), nodes)
      ensures Holds(Plug(x, u))
    {
      ReprFrame(h', Fields(), root, x, u);
      Unfocus(x, u);
    }

    lemma FarDone(h: Heap, h': Heap, r0: Node?, x: Ctx, t: RbShape.Tree, y: Node)
      requires t.Br? && t.l.Br? && t.r.Br?
      requires Repr(h, r0, x, t) && h.Keys == CtxNodes(x) + Nodes(t) + {y} && y !in CtxNodes(x) + Nodes(t)
      requires Adopted(h, h', r0, root, t.n, y)
      requires nodes == h.Keys - {t.n} && Same(h', Fields(), nodes)
      ensures Holds(Plug(x, t.(n := y)))
    {
      AdoptOk(h, h', r0, root, x, t, y);
      Shrunk(h', x, t.(n := y));
    }

    method ReplaceFar(z: Node, y: Node, ghost x: Ctx, ghost t: RbShape.Tree)
      requires Repr(Fields(), root, x, t) && nodes == CtxNodes(x) + Nodes(t) + {y} && y !in CtxNodes(x) + Nodes(t)
      requires t.Br? && t.n == z && t.l.Br? && t.r.Br?
      modifies this`root, this`nodes, nodes
      ensures nodes == old(nodes) - {z} && Holds(Plug(x, t.(n := y)))
    {
      ghost var h, r0 := Fields(), root;
      AdoptReady(x, t, y);
      AdoptFar(z, y);
      ghost var h' := Fields();
      nodes := nodes - {z};
      FarDone(h, h', r0, x, t, y);
    }

    lemma NearDone(h: Heap, h': Heap, r0: Node?, x: Ctx, t: RbShape.Tree)
      requires t.Br? && t.l.Br? && t.r.Br? && t.r.l.Leaf?
      requires Repr(h, r0, x, t) && h.Keys == CtxNodes(x) + Nodes(t)
      requires AdoptedNear(h, h', r0, root, t.n, t.r.n)
      requires nodes == h.Keys - {t.n} && Same(h', Fields(), nodes)
      ensures Holds(Plug(x, Br(t.l, t.r.n, t.c, t.r.r)))
    {
      AdoptNearOk(h, h', r0, root, x, t);
      assert Nodes(t.r) == {t.r.n} + Nodes(t.r.r);
      Shrunk(h', x, Br(t.l, t.r.n, t.c, t.r.r));
    }

    method ReplaceNear(z: Node, y: Node, ghost x: Ctx, ghost t: RbShape.Tree)
      requires Repr(Fields(), root, x, t) && nodes == CtxNodes(x) + Nodes(t)
      requires t.Br? && t.n == z && t.l.Br? && t.r.Br? && t.r.n == y && t.r.l.Leaf?
      modifies this`root, this`nodes, nodes
      ensures nodes == old(nodes) - {z} && Holds(Plug(x, Br(t.l, y, t.c, t.r.r)))
    {
      ghost var h, r0 := Fields(), root;
      AdoptReady(x, t, y);
      AdoptNear(z, y);
      ghost var h' := Fields();
      nodes := nodes - {z};
      NearDone(h, h', r0, x, t);
    }

    /** What rb_delete hands to the fixup: the node sequence without z, and either a valid
        tree or a tree short of one black at position k. */
    ghost predicate Removed(k: Ctx, u: RbShape.Tree, yColor: Color, s0: seq<Node>, z: Node)
      reads this`root, this`nodes, nodes
    {
      && Holds(Plug(k, u)) && InOrder(Plug(k, u)) == Without(s0, z)
      && (yColor.Black? ==> DeletePoint(k, u))
      && (yColor.Red? ==> RedBlack(Plug(k, u)))
    }

    /** z has no child on side s. */
    method RemoveOneChild(z: Node, v: Node?, ghost s: Side, ghost x: Ctx, ghost t: RbShape.Tree)
      returns (xParent: Node?, yColor: Color)
      requires Holds(Plug(x, t)) && RedBlack(Plug(x, t))
      requires t.Br? && t.n == z && Near(s, t).Leaf? && v == Root(Far(s, t))
      modifies this`root, this`nodes, nodes
      ensures nodes == old(nodes) - {z} && xParent == Par(x)
      ensures Removed(x, Far(s, t), yColor, InOrder(Plug(x, t)), z)
    {
      Links(x, t);
      PlugNodes(x, t);
      RemoveStarts(s, x, t);
      CutOrder(s, x, t);
      xParent, yColor := z.parent, z.color;
      Unlink(z, v, s, x, t);
    }

    /** The successor y of a node with two children, as rb_delete reads it. */
    lemma SuccessorLinks(x: Ctx, t: RbShape.Tree, k: Ctx, u: RbShape.Tree)
      requires Holds(Plug(x, t)) && t.Br? && u.Br? && t.r == Plug(k, u)
      ensures u.n in nodes && u.n.color == u.c && u.n.right == Root(u.r) && u.n != t.n
      ensures u.n.parent == (if k.Top? then t.n else k.n)
      ensures u.n.parent == t.n <==> k.Top?
      ensures Plug(Around(k, Step(Right, t.n, t.c, t.l, x)), u) == Plug(x, t)
    {
      var y := Step(Right, t.n, t.c, t.l, x);
      AroundPlug(k, y, u);
      Links(Around(k, y), u);
      Focus(x, t);
      PlugNodes(k, u);
    }

    /** The colour rules and the order after the successor has replaced z. */
    lemma SuccessorStarts(x: Ctx, t: RbShape.Tree, k: Ctx, u: RbShape.Tree)
      requires Holds(Plug(x, t)) && RedBlack(Plug(x, t))
      requires t.Br? && u.Br? && u.l.Leaf? && t.r == Plug(k, u) && Before(k) == []
      ensures var x' := Around(k, Step(Right, u.n, t.c, t.l, x));
              && Plug(x', u.r) == Plug(x, Br(t.l, u.n, t.c, Plug(k, u.r)))
              && InOrder(Plug(x', u.r)) == Without(InOrder(Plug(x, t)), t.n)
              && (u.c.Black? ==> DeletePoint(x', u.r))
              && (u.c.Red? ==> RedBlack(Plug(x', u.r)))
    {
      var z, y := Step(Right, t.n, t.c, t.l, x), Step(Right, u.n, t.c, t.l, x);
      AroundPlug(k, z, u);
      AroundPlug(k, y, u.r);
      RemoveStarts(Left, Around(k, z), u);
      RemoveRenamed(k, z, y, u.r);
      SuccessorOrder(x, t.l, t.n, t.c, k, u);
    }

    /** y is not z's child: unlink it, then put it in z's place. */
    method MoveSuccessor(z: Node, y: Node, v: Node?, ghost x: Ctx, ghost t: RbShape.Tree, ghost k: Ctx,
                         ghost u: RbShape.Tree)
      requires Holds(Plug(x, t)) && t.Br? && t.n == z && t.l.Br?
      requires u.Br? && u.l.Leaf? && u.n == y && v == Root(u.r) && k.Step? && t.r == Plug(k, u)
      modifies this`root, this`nodes, nodes
      ensures nodes == old(nodes) - {z}
      ensures Holds(Plug(x, Br(t.l, y, t.c, Plug(k, u.r))))
    {
      ghost var x' := Around(k, Step(Right, z, t.c, t.l, x));
      SuccessorLinks(x, t, k, u);
      AroundPlug(k, Step(Right, z, t.c, t.l, x), u.r);
      Unlink(y, v, Left, x', u);
      ghost var t' := t.(r := Plug(k, u.r));
      PlugRoot(k, u.r);
      Focus(x, t');
      ghost var h := Fields();
      nodes := nodes + {y};
      assert nodes == old(nodes);
      ReprFrame(h, Fields(), root, x, t');
      ReplaceFar(z, y, x, t');
    }

    method RemoveTwoChildren(z: Node, ghost x: Ctx, ghost t: RbShape.Tree)
      returns (xn: Node?, xParent: Node?, yColor: Color, ghost k': Ctx, ghost u': RbShape.Tree)
      requires Holds(Plug(x, t)) && RedBlack(Plug(x, t))
      requires t.Br? && t.n == z && t.l.Br? && t.r.Br?
      modifies this`root, this`nodes, nodes
      ensures nodes == old(nodes) - {z} && xn == Root(u') && xParent == Par(k')
      ensures Removed(k', u', yColor, InOrder(Plug(x, t)), z)
    {
      Links(x, t);
      var y;
      ghost var k, u;
      y, k, u := First(z.right, Step(Right, z, t.c, t.l, x), t.r);
      SuccessorLinks(x, t, k, u);
      SuccessorStarts(x, t, k, u);
      xn, yColor := y.right, y.color;
      k', u' := Around(k, Step(Right, y, t.c, t.l, x)), u.r;
      if y.parent == z {
        xParent := y;
        Focus(x, t);
        ReplaceNear(z, y, x, t);
      } else {
        xParent := y.parent;
        MoveSuccessor(z, y, y.right, x, t, k, u);
      }
    }

    /** Case 1 of _delete_fixup: red sibling w. */
    method DeleteTurnSibling(p: Node, w: Node, s: Side, ghost x: Ctx, ghost t: RbShape.Tree)
      returns (ghost x': Ctx)
      requires Holds(Plug(x, t)) && DeletePoint(x, t) && ColorOf(t).Black?
      requires x.Step? && x.n == p && x.side == s && x.sib.Br? && x.sib.n == w && x.sib.c.Red?
      modifies this`root, nodes
      ensures Holds(Plug(x', t)) && DeletePoint(x', t)
      ensures x'.Step? && x'.n == p && x'.side == s && x'.c.Red? && x'.sib.Br? && x'.sib.c.Black?
      ensures Depth(x') == Depth(x) + 1
      ensures InOrder(Plug(x', t)) == InOrder(Plug(x, t))
    {
      DeleteRedSibling(x, t);
      ghost var v := x.sib.(c := Black);
      SetColor(w, Black, Step(s.Opp(), p, x.c, t, x.up), x.sib);
      SetColor(p, Red, x.up, Mk(s, t, p, x.c, v));
      RotateAt(s, p, x.up, Mk(s, t, p, Red, v));
      x' := Step(s, p, Red, Near(s, v), Step(s, w, Black, Far(s, v), x.up));
    }

    /** Case 3: black sibling, near nephew v red, far one black. */
    method DeleteTurnNephew(p: Node, w: Node, v: Node, s: Side, ghost x: Ctx, ghost t: RbShape.Tree)
      returns (ghost x': Ctx)
      requires Holds(Plug(x, t)) && DeletePoint(x, t) && ColorOf(t).Black?
      requires x.Step? && x.n == p && x.side == s && x.sib.Br? && x.sib.n == w && x.sib.c.Black?
      requires Near(s, x.sib).Br? && Near(s, x.sib).n == v && Near(s, x.sib).c.Red?
      requires ColorOf(Far(s, x.sib)).Black?
      modifies this`root, nodes
      ensures Holds(Plug(x', t)) && DeletePoint(x', t)
      ensures x'.Step? && x'.n == p && x'.side == s && x'.c == x.c && x'.up == x.up
      ensures x'.sib.Br? && x'.sib.c.Black? && ColorOf(Far(s, x'.sib)).Red?
      ensures InOrder(Plug(x', t)) == InOrder(Plug(x, t))
    {
      DeleteNearRed(x, t);
      ghost var k := Step(s.Opp(), p, x.c, t, x.up);
      ghost var a, f := Near(s, x.sib), Far(s, x.sib);
      SetColor(v, Black, Step(s, w, Black, f, k), a);
      SetColor(w, Red, k, Mk(s, a.(c := Black), w, Black, f));
      RotateAt(s.Opp(), w, k, Mk(s, a.(c := Black), w, Red, f));
      x' := x.(sib := Mk(s, Near(s, a), v, Black, Mk(s, Far(s, a), w, Red, f)));
    }

    /** Case 4: black sibling, far nephew v red. */
    method DeleteRepay(p: Node, w: Node, v: Node, s: Side, ghost x: Ctx, ghost t: RbShape.Tree)
      returns (ghost t': RbShape.Tree)
      requires Holds(Plug(x, t)) && DeletePoint(x, t) && ColorOf(t).Black?
      requires x.Step? && x.n == p && x.side == s && x.sib.Br? && x.sib.n == w && x.sib.c.Black?
      requires Far(s, x.sib).Br? && Far(s, x.sib).n == v && Far(s, x.sib).c.Red?
      requires p in nodes && p.color == x.c
      modifies this`root, nodes
      ensures Holds(t') && DeletePoint(Top, t') && RedBlack(t')
      ensures InOrder(t') == InOrder(Plug(x, t))
    {
      DeleteFarRed(x, t);
      ghost var k := Step(s.Opp(), p, x.c, t, x.up);
      ghost var a, f := Near(s, x.sib), Far(s, x.sib);
      SetColor(w, p.color, k, x.sib);
      ghost var w1 := Mk(s, a, w, x.c, f);
      SetColor(p, Black, x.up, Mk(s, t, p, x.c, w1));
      SetColor(v, Black, Step(s.Opp(), w, x.c, a, Step(s.Opp(), p, Black, t, x.up)), f);
      ghost var w2 := Mk(s, a, w, x.c, f.(c := Black));
      RotateAt(s, p, x.up, Mk(s, t, p, Black, w2));
      t' := Plug(x.up, Mk(s, Mk(s, t, p, Black, a), w, x.c, f.(c := Black)));
    }

    /** The sibling, its children and their colours, as the deletion loop reads them. */
    lemma SiblingLinks(x: Ctx, t: RbShape.Tree)
      requires Holds(Plug(x, t)) && x.Step? && x.sib.Br?
      ensures x.n in nodes && x.n.color == x.c && x.n.parent == Par(x.up)
      ensures ChildOf(x.n, x.side.Opp()) == x.sib.n
      ensures x.sib.n in nodes && x.sib.n.color == x.sib.c
      ensures x.sib.n.left == Root(x.sib.l) && x.sib.n.right == Root(x.sib.r)
      ensures x.sib.l.Br? ==> x.sib.l.n in nodes && x.sib.l.n.color == x.sib.l.c
      ensures x.sib.r.Br? ==> x.sib.r.n in nodes && x.sib.r.n.color == x.sib.r.c
    {
      Focus(x, t);
      assert TreeOk(Fields(), x.sib, x.n);
      assert TreeOk(Fields(), x.sib.l, x.sib.n) && TreeOk(Fields(), x.sib.r, x.sib.n);
      assert Nodes(x.sib.l) <= Nodes(x.sib) && Nodes(x.sib.r) <= Nodes(x.sib);
    }

    predicate IsBlack(n: Node?)
      reads n
    {
      n == null || n.color.Black?
    }

    /** Case 2: black sibling w with black children. */
    method DeletePassUp(p: Node, w: Node, s: Side, ghost x: Ctx, ghost t: RbShape.Tree)
      returns (p': Node?, ghost t': RbShape.Tree)
      requires Holds(Plug(x, t)) && DeletePoint(x, t) && ColorOf(t).Black?
      requires x.Step? && x.n == p && x.side == s && x.sib.Br? && x.sib.n == w && x.sib.c.Black?
      requires ColorOf(x.sib.l).Black? && ColorOf(x.sib.r).Black?
      modifies nodes`color
      ensures Holds(Plug(x.up, t')) && DeletePoint(x.up, t')
      ensures t'.Br? && t'.n == p && t'.c == x.c && p' == Par(x.up)
      ensures InOrder(Plug(x.up, t')) == InOrder(Plug(x, t))
    {
      DeleteBlackNephews(x, t);
      SetColor(w, Red, Step(s.Opp(), p, x.c, t, x.up), x.sib);
      t' := Mk(s, t, p, x.c, x.sib.(c := Red));
      Links(x.up, t');
      p' := p.parent;
    }

    /** Cases 3 and 4: some nephew is red; the shortage is repaid and the loop ends. */
    method DeleteFinish(p: Node, w0: Node, s: Side, ghost x: Ctx, ghost t: RbShape.Tree)
      returns (ghost t': RbShape.Tree)
      requires Holds(Plug(x, t)) && DeletePoint(x, t) && ColorOf(t).Black?
      requires x.Step? && x.n == p && x.side == s && x.sib.Br? && x.sib.n == w0 && x.sib.c.Black?
      requires ColorOf(x.sib.l).Red? || ColorOf(x.sib.r).Red?
      modifies this`root, nodes
      ensures Holds(t') && DeletePoint(Top, t')
      ensures InOrder(t') == InOrder(Plug(x, t))
    {
      var w := w0;
      ghost var x' := x;
      SiblingLinks(x, t);
      if IsBlack(ChildOf(w, s.Opp())) {
        x' := DeleteTurnNephew(p, w, ChildOf(w, s), s, x, t);
        SiblingLinks(x', t);
        w := ChildOf(p, s.Opp());
      }
      t' := DeleteRepay(p, w, ChildOf(w, s.Opp()), s, x', t);
    }

    ghost function Measure(x: Ctx, t: RbShape.Tree): nat {
      2 * Depth(x) + Weight(ColorOf(t))
    }

    /** One round of _delete_fixup; s is the side of x below its parent p. */
    method DeleteRound(p: Node, s: Side, ghost x: Ctx, ghost t: RbShape.Tree)
      returns (n': Node?, p': Node?, ghost x': Ctx, ghost t': RbShape.Tree)
      requires Holds(Plug(x, t)) && DeletePoint(x, t) && ColorOf(t).Black?
      requires x.Step? && x.n == p && x.side == s
      modifies this`root, nodes
      ensures Holds(Plug(x', t')) && DeletePoint(x', t') && n' == Root(t') && (x'.Step? ==> p' == x'.n)
      ensures Measure(x', t') < Measure(x, t)
      ensures InOrder(Plug(x', t')) == InOrder(Plug(x, t))
    {
      SiblingExists(x, t);
      SiblingLinks(x, t);
      var w := ChildOf(p, s.Opp());
      x' := x;
      if w.color == Red {
        x' := DeleteTurnSibling(p, w, s, x, t);
        SiblingLinks(x', t);
        w := ChildOf(p, s.Opp());
      }
      if IsBlack(w.left) && IsBlack(w.right) {
        p', t' := DeletePassUp(p, w, s, x', t);
        n', x' := p, x'.up;
      } else {
        t' := DeleteFinish(p, w, s, x', t);
        Links(Top, t');
        n', p', x' := root, p, Top;
      }
    }

    method DeleteFixup(n0: Node?, p0: Node?, ghost x0: Ctx, ghost t0: RbShape.Tree)
      requires Holds(Plug(x0, t0)) && DeletePoint(x0, t0) && n0 == Root(t0) && p0 == Par(x0)
      modifies this`root, this`shape, nodes
      ensures Holds(shape) && RedBlack(shape)
      ensures InOrder(shape) == InOrder(Plug(x0, t0))
    {
      hide Repr, Nodes, InOrder, Plug, RedBlack, DeletePoint, Measure;
      var n, p := n0, p0;
      ghost var x, t := x0, t0;
      DeleteTests(x, t);
      while n != root && IsBlack(n)
        invariant Holds(Plug(x, t)) && DeletePoint(x, t) && n == Root(t) && (x.Step? ==> p == x.n)
        invariant (n == root <==> x.Top?) && (IsBlack(n) <==> ColorOf(t).Black?)
        invariant InOrder(Plug(x, t)) == InOrder(Plug(x0, t0))
        decreases Measure(x, t)
      {
        SiblingExists(x, t);
        DeleteTests(x, t);
        if n == p.left {
          n, p, x, t := DeleteRound(p, Left, x, t);
        } else {
          n, p, x, t := DeleteRound(p, Right, x, t);
        }
        DeleteTests(x, t);
      }
      DeleteDone(x, t);
      if n != null {
        SetColor(n, Black, x, t);
      }
      shape := Plug(x, Blacken(t));
    }

    /** The tests of the deletion loop, read off its position. */
    lemma DeleteTests(x: Ctx, t: RbShape.Tree)
      requires Holds(Plug(x, t))
      ensures Root(t) == root <==> x.Top?
      ensures IsBlack(Root(t)) <==> ColorOf(t).Black?
      ensures x.Step? && x.sib.Br? ==> x.n in nodes && (Root(t) == x.n.left <==> x.side.Left?)
    {
      Links(x, t);
    }

    /** rb_delete up to the fixup: x and x_parent as it computes them, and the colour taken away. */
    method Detach(z: Node) returns (n: Node?, p: Node?, yColor: Color, ghost k: Ctx, ghost u: RbShape.Tree)
      requires Valid() && z in nodes
      modifies this`root, this`nodes, nodes
      ensures nodes == old(nodes) - {z} && n == Root(u) && p == Par(k)
      ensures Removed(k, u, yColor, Contents(), z)
    {
      ghost var x, l, c, r := Locate(shape, z);
      ghost var t := Br(l, z, c, r);
      Links(x, t);
      if z.left == null {
        n := z.right;
        p, yColor := RemoveOneChild(z, z.right, Left, x, t);
        k, u := x, r;
      } else if z.right == null {
        n := z.left;
        p, yColor := RemoveOneChild(z, z.left, Right, x, t);
        k, u := x, l;
      } else {
        n, p, yColor, k, u := RemoveTwoChildren(z, x, t);
      }
    }

    method Delete(z: Node)
      requires Valid() && z in nodes
      modifies this, nodes
      ensures Valid() && nodes == old(nodes) - {z} && history == old(history) + [Del(z)]
      ensures Contents() == Without(old(Contents()), z)
    {
      hide Repr, Nodes, InOrder, Plug, RedBlack, DeletePoint, Sorted, Without, Run, Legal;
      WithoutSorted(Contents(), z);
      var n, p, yColor;
      ghost var k, u;
      n, p, yColor, k, u := Detach(z);
      if yColor == Black {
        DeleteFixup(n, p, k, u);
      } else {
        shape := Plug(k, u);
      }
      history := Extend(history, Del(z));
    }
  }
}
