/** What it means for node fields to hold a given shape, and how the pointer surgery of
    rbtree.cpp (rotation, transplant, splice) moves from one shape to another. */
module RbHeap {
  import opened RbShape

  function CellAt(s: Side, near: Node?, far: Node?, p: Node?, c: Color): Cell {
    if s.Left? then Cell(near, far, p, c) else Cell(far, near, p, c)
  }

  /** The fields of every node of t are as t says, and the parent of its root is p. */
  predicate TreeOk(h: Heap, t: Tree, p: Node?) {
    t.Br? ==>
      && t.n in h && h[t.n] == Cell(Root(t.l), Root(t.r), p, t.c)
      && TreeOk(h, t.l, t.n) && TreeOk(h, t.r, t.n)
  }

  /** The fields of every node of x are as x says, with `child` in the hole. */
  predicate CtxOk(h: Heap, x: Ctx, root: Node?, child: Node?)
    decreases x
  {
    match x
    case Top => root == child
    case Step(s, n, c, sib, up) =>
      && n in h && h[n] == CellAt(s, child, Root(sib), Par(up), c)
      && TreeOk(h, sib, n) && CtxOk(h, up, root, n)
  }

  predicate Apart(x: Ctx, t: Tree) {
    Distinct(t) && CtxDistinct(x) && Nodes(t) !! CtxNodes(x)
  }

  /** The heap holds the tree Plug(x, t), all of whose nodes are different objects. */
  predicate Repr(h: Heap, root: Node?, x: Ctx, t: Tree) {
    CtxOk(h, x, root, Root(t)) && TreeOk(h, t, Par(x)) && Apart(x, t)
  }

  /** The position does not matter: every split of a tree describes the same heap. */
  lemma {:induction false} ReprPlug(h: Heap, root: Node?, x: Ctx, t: Tree)
    ensures Repr(h, root, x, t) <==> Repr(h, root, Top, Plug(x, t))
    decreases x
  {
    PlugNodes(x, t);
    if x.Step? {
      var t' := Mk(x.side, t, x.n, x.c, x.sib);
      ReprPlug(h, root, x.up, t');
      PlugNodes(x.up, t');
    }
  }

  /** The root field is the hole's child exactly when nothing surrounds the hole. */
  lemma {:induction false} RootOfCtx(h: Heap, x: Ctx, root: Node?, child: Node?)
    requires CtxOk(h, x, root, child) && CtxDistinct(x)
    requires child != null ==> child !in CtxNodes(x)
    ensures (root == child) <==> x.Top?
    ensures x.Step? ==> root != null && root in CtxNodes(x)
    decreases x
  {
    if x.Step? { RootOfCtx(h, x.up, root, x.n); }
  }

  // ----- framing

  predicate Same(h: Heap, h': Heap, ns: set<Node>) {
    forall n <- ns :: n in h && n in h' && h'[n] == h[n]
  }

  lemma {:induction false} TreeFrame(h: Heap, h': Heap, t: Tree, p: Node?)
    requires TreeOk(h, t, p) && Same(h, h', Nodes(t))
    ensures TreeOk(h', t, p)
  {
    if t.Br? { TreeFrame(h, h', t.l, t.n); TreeFrame(h, h', t.r, t.n); }
  }

  lemma {:induction false} CtxFrame(h: Heap, h': Heap, x: Ctx, root: Node?, child: Node?)
    requires CtxOk(h, x, root, child) && Same(h, h', CtxNodes(x))
    ensures CtxOk(h', x, root, child)
    decreases x
  {
    if x.Step? { TreeFrame(h, h', x.sib, x.n); CtxFrame(h, h', x.up, root, x.n); }
  }

  /** Only the parent field of t's root is rewritten. */
  lemma Reparent(h: Heap, h': Heap, t: Tree, p: Node?, p': Node?)
    requires TreeOk(h, t, p) && Distinct(t)
    requires Same(h, h', if t.Br? then Nodes(t) - {t.n} else {})
    requires t.Br? ==> t.n in h' && h'[t.n] == h[t.n].(parent := p')
    ensures TreeOk(h', t, p')
  {
  }

  /** The link that reaches the hole (a child field, or the tree's root field) now holds child'. */
  predicate Relinked(h': Heap, x: Ctx, root: Node?, root': Node?, child': Node?) {
    match x
    case Top => root' == child'
    case Step(s, n, c, sib, up) =>
      root' == root && n in h' && h'[n] == CellAt(s, child', Root(sib), Par(up), c)
  }

  lemma Relink(h: Heap, h': Heap, x: Ctx, root: Node?, child: Node?, root': Node?, child': Node?)
    requires CtxOk(h, x, root, child) && CtxDistinct(x)
    requires Same(h, h', if x.Step? then CtxNodes(x) - {x.n} else {})
    requires Relinked(h', x, root, root', child')
    ensures CtxOk(h', x, root', child')
  {
    if x.Step? { TreeFrame(h, h', x.sib, x.n); CtxFrame(h, h', x.up, root, x.n); }
  }

  /** If a node of the surrounding context changes its colour only, the shape changes there only. */
  lemma Recolor(h: Heap, h': Heap, root: Node?, x: Ctx, t: Tree, c: Color)
    requires Repr(h, root, x, t) && t.Br?
    requires Same(h, h', CtxNodes(x) + Nodes(t) - {t.n})
    requires t.n in h' && h'[t.n] == h[t.n].(color := c)
    ensures Repr(h', root, x, t.(c := c))
  {
    CtxFrame(h, h', x, root, t.n);
    TreeFrame(h, h', t.l, t.n);
    TreeFrame(h, h', t.r, t.n);
  }

  // ----- rotation

  function Near(s: Side, t: Tree): Tree
    requires t.Br?
  {
    if s.Left? then t.l else t.r
  }

  function Far(s: Side, t: Tree): Tree
    requires t.Br?
  {
    Near(s.Opp(), t)
  }

  /** Rotating t towards side s: its far child becomes the root. */
  function Rotate(s: Side, t: Tree): Tree
    requires t.Br? && Far(s, t).Br?
  {
    var y := Far(s, t);
    Mk(s, Mk(s, Near(s, t), t.n, t.c, Near(s, y)), y.n, y.c, Far(s, y))
  }

  lemma RotateShape(s: Side, t: Tree)
    requires t.Br? && Far(s, t).Br?
    ensures InOrder(Rotate(s, t)) == InOrder(t)
    ensures Nodes(Rotate(s, t)) == Nodes(t)
  {
  }

  lemma RotateDistinct(s: Side, t: Tree)
    requires t.Br? && Far(s, t).Br? && Distinct(t)
    ensures Distinct(Rotate(s, t))
  {
  }

  /** Pointer surgery of a rotation at node n towards side s, as one update of the node fields:
      the far child y takes n's place, and y's near child moves under n. */
  predicate Turned(h: Heap, h': Heap, root: Node?, root': Node?, s: Side, n: Node) {
    && n in h && n in h'
    && var y, p := h[n].Child(s.Opp()), h[n].parent;
       && y != null && y in h && y in h'
       && var b := h[y].Child(s);
          && h'[n] == h[n].With(s.Opp(), b).(parent := y)
          && h'[y] == h[y].With(s, n).(parent := p)
          && (b != null ==> b in h && b in h' && h'[b] == h[b].(parent := n))
          && (p != null ==> p in h && p in h' && h'[p] == h[p].Swap(n, y))
          && root' == (if p == null then y else root)
          && Same(h, h', h.Keys - {n, y, b, p})
  }

  /** A rotation touches only n, y, the moved child's root and the link from above. */
  lemma TurnedFrame(h: Heap, h': Heap, root: Node?, root': Node?, s: Side, x: Ctx, t: Tree)
    requires t.Br? && Far(s, t).Br?
    requires Repr(h, root, x, t) && h.Keys == CtxNodes(x) + Nodes(t)
    requires Turned(h, h', root, root', s, t.n)
    ensures var (y, b) := (Far(s, t), Near(s, Far(s, t)));
            && TreeOk(h, y, t.n)
            && Same(h, h', Nodes(Near(s, t))) && Same(h, h', Nodes(Far(s, y)))
            && Same(h, h', if b.Br? then Nodes(b) - {b.n} else {})
            && Same(h, h', if x.Step? then CtxNodes(x) - {x.n} else {})
  {
    var y := Far(s, t);
    assert Distinct(y) && TreeOk(h, y, t.n) && Nodes(Near(s, y)) <= Nodes(y) <= Nodes(t);
  }

  lemma TurnedOk(h: Heap, h': Heap, root: Node?, root': Node?, s: Side, x: Ctx, t: Tree)
    requires t.Br? && Far(s, t).Br?
    requires Repr(h, root, x, t) && h.Keys == CtxNodes(x) + Nodes(t)
    requires Turned(h, h', root, root', s, t.n)
    ensures Repr(h', root', x, Rotate(s, t))
  {
    var y := Far(s, t);
    TurnedFrame(h, h', root, root', s, x, t);
    RotateShape(s, t);
    RotateDistinct(s, t);
    assert Relinked(h', x, root, root', y.n);
    Relink(h, h', x, root, t.n, root', y.n);
    TreeFrame(h, h', Near(s, t), t.n);
    TreeFrame(h, h', Far(s, y), y.n);
    Reparent(h, h', Near(s, y), y.n, t.n);
  }

  // ----- linking, unlinking and replacing a node

  lemma ReprFrame(h: Heap, h': Heap, root: Node?, x: Ctx, t: Tree)
    requires Repr(h, root, x, t) && Same(h, h', CtxNodes(x) + Nodes(t))
    ensures Repr(h', root, x, t)
  {
    CtxFrame(h, h', x, root, Root(t));
    TreeFrame(h, h', t, Par(x));
  }

  /** A new red leaf z fills the hole. */
  lemma LinkOk(h: Heap, h': Heap, root: Node?, root': Node?, x: Ctx, z: Node)
    requires Repr(h, root, x, Leaf) && z !in CtxNodes(x)
    requires Same(h, h', if x.Step? then CtxNodes(x) - {x.n} else {})
    requires Relinked(h', x, root, root', z)
    requires z in h' && h'[z] == Cell(null, null, Par(x), Red)
    ensures Repr(h', root', x, Br(Leaf, z, Red, Leaf))
  {
    Relink(h, h', x, root, null, root', z);
  }

  /** Pointer surgery of _rb_transplant: v takes u's place below u's parent. */
  predicate Transplanted(h: Heap, h': Heap, root: Node?, root': Node?, u: Node, v: Node?) {
    && u in h
    && var p := h[u].parent;
       && (p != null ==> p in h && p in h' && h'[p] == h[p].Swap(u, v))
       && (v != null ==> v in h && v in h' && h'[v] == h[v].(parent := p))
       && root' == (if p == null then v else root)
       && Same(h, h', h.Keys - {p, v})
  }

  /** Transplanting the only child of u over u removes u from the tree. */
  lemma TransplantOk(h: Heap, h': Heap, root: Node?, root': Node?, s: Side, x: Ctx, t: Tree)
    requires t.Br? && Near(s, t).Leaf?
    requires Repr(h, root, x, t) && h.Keys >= CtxNodes(x) + Nodes(t)
    requires Transplanted(h, h', root, root', t.n, Root(Far(s, t)))
    ensures Repr(h', root', x, Far(s, t))
  {
    var v := Far(s, t);
    assert Nodes(v) <= Nodes(t) && Distinct(v);
    assert Relinked(h', x, root, root', Root(v));
    Relink(h, h', x, root, t.n, root', Root(v));
    Reparent(h, h', v, t.n, Par(x));
  }

  /** Pointer surgery that puts y, from outside, in z's place. */
  predicate Adopted(h: Heap, h': Heap, root: Node?, root': Node?, z: Node, y: Node) {
    && z in h && y in h'
    && var (a, b, p) := (h[z].left, h[z].right, h[z].parent);
       && h'[y] == h[z]
       && a != null && a in h && a in h' && h'[a] == h[a].(parent := y)
       && b != null && b in h && b in h' && h'[b] == h[b].(parent := y)
       && (p != null ==> p in h && p in h' && h'[p] == h[p].Swap(z, y))
       && root' == (if p == null then y else root)
       && Same(h, h', h.Keys - {y, z, a, b, p})
  }

  /** The same for y the right child of z, whose right subtree stays below y. */
  predicate AdoptedNear(h: Heap, h': Heap, root: Node?, root': Node?, z: Node, y: Node) {
    && z in h && y in h && y in h'
    && var (a, p) := (h[z].left, h[z].parent);
       && h'[y] == h[z].(right := h[y].right)
       && a != null && a in h && a in h' && h'[a] == h[a].(parent := y)
       && (p != null ==> p in h && p in h' && h'[p] == h[p].Swap(z, y))
       && root' == (if p == null then y else root)
       && Same(h, h', h.Keys - {y, z, a, p})
  }

  lemma AdoptOk(h: Heap, h': Heap, root: Node?, root': Node?, x: Ctx, t: Tree, y: Node)
    requires t.Br? && t.l.Br? && t.r.Br?
    requires Repr(h, root, x, t) && h.Keys >= CtxNodes(x) + Nodes(t) && y !in CtxNodes(x) + Nodes(t)
    requires Adopted(h, h', root, root', t.n, y)
    ensures Repr(h', root', x, t.(n := y))
  {
    assert Relinked(h', x, root, root', y);
    Relink(h, h', x, root, t.n, root', y);
    Reparent(h, h', t.l, t.n, y);
    Reparent(h, h', t.r, t.n, y);
  }

  lemma AdoptNearOk(h: Heap, h': Heap, root: Node?, root': Node?, x: Ctx, t: Tree)
    requires t.Br? && t.l.Br? && t.r.Br? && t.r.l.Leaf?
    requires Repr(h, root, x, t) && h.Keys >= CtxNodes(x) + Nodes(t)
    requires AdoptedNear(h, h', root, root', t.n, t.r.n)
    ensures Repr(h', root', x, Br(t.l, t.r.n, t.c, t.r.r))
  {
    var y := t.r;
    assert Distinct(y) && TreeOk(h, y, t.n) && Nodes(y.r) <= Nodes(y) <= Nodes(t);
    assert Relinked(h', x, root, root', y.n);
    Relink(h, h', x, root, t.n, root', y.n);
    Reparent(h, h', t.l, t.n, y.n);
    TreeFrame(h, h', y.r, y.n);
  }
}
