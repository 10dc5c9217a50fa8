/** Nodes of the kernel's red-black tree and the value-level shapes they form.

    A `Tree` says which nodes hang below a point; a `Ctx` says what surrounds it, innermost
    step first.  The fixup loops of rbtree.cpp walk up through parent pointers, so a loop
    position is a pair (context, subtree).  `Side` lets one statement cover both mirror cases.
 */
module RbShape {

  datatype Color = Red | Black

  datatype Side = Left | Right {
    function Opp(): Side { if Left? then Right else Left }
  }

  /** rb_node.  The key belongs to the caller and the tree never writes it. */
  class Node {
    const key: int
    var left: Node?
    var right: Node?
    var parent: Node?
    var color: Color

    constructor (k: int)
      ensures key == k
    {
      key := k;
      left, right, parent, color := null, null, null, Red;
    }
  }

  /** The mutable fields of one node, as a value. */
  datatype Cell = Cell(left: Node?, right: Node?, parent: Node?, color: Color) {
    function Child(s: Side): Node? { if s.Left? then left else right }
    function With(s: Side, m: Node?): Cell { if s.Left? then this.(left := m) else this.(right := m) }
    function Swap(u: Node, m: Node?): Cell { if left == u then this.(left := m) else this.(right := m) }
  }

  type Heap = map<Node, Cell>

  datatype Tree = Leaf | Br(l: Tree, n: Node, c: Color, r: Tree)

  /** `Step(side, n, c, sib, up)`: the hole is the `side` child of n, whose other child is sib. */
  datatype Ctx = Top | Step(side: Side, n: Node, c: Color, sib: Tree, up: Ctx)

  function Mk(s: Side, near: Tree, n: Node, c: Color, far: Tree): Tree {
    if s.Left? then Br(near, n, c, far) else Br(far, n, c, near)
  }

  function Plug(x: Ctx, t: Tree): Tree
    decreases x
  {
    match x
    case Top => t
    case Step(s, n, c, sib, up) => Plug(up, Mk(s, t, n, c, sib))
  }

  /** Puts context y around context x. */
  function Around(x: Ctx, y: Ctx): Ctx {
    match x
    case Top => y
    case Step(s, n, c, sib, up) => Step(s, n, c, sib, Around(up, y))
  }

  function Root(t: Tree): Node? {
    if t.Leaf? then null else t.n
  }

  function Par(x: Ctx): Node? {
    if x.Top? then null else x.n
  }

  function Depth(x: Ctx): nat {
    if x.Top? then 0 else 1 + Depth(x.up)
  }

  // ----- in-order sequences

  function InOrder(t: Tree): seq<Node> {
    if t.Leaf? then [] else InOrder(t.l) + [t.n] + InOrder(t.r)
  }

  /** Nodes before the hole, in order. */
  function Before(x: Ctx): seq<Node> {
    match x
    case Top => []
    case Step(s, n, c, sib, up) => Before(up) + (if s.Left? then [] else InOrder(sib) + [n])
  }

  /** Nodes after the hole, in order. */
  function After(x: Ctx): seq<Node> {
    match x
    case Top => []
    case Step(s, n, c, sib, up) => (if s.Left? then [n] + InOrder(sib) else []) + After(up)
  }

  lemma Regroup<T>(a: seq<T>, b: seq<T>, c: seq<T>, d: seq<T>, e: seq<T>)
    ensures a + (b + c + d) + e == a + b + ((c + d) + e)
    ensures a + (b + c + d) + e == (a + (b + c)) + d + ([] + e)
  {
  }

  lemma {:induction false} PlugInOrder(x: Ctx, t: Tree)
    ensures InOrder(Plug(x, t)) == Before(x) + InOrder(t) + After(x)
    decreases x
  {
    match x
    case Top =>
    case Step(s, n, c, sib, up) =>
      PlugInOrder(up, Mk(s, t, n, c, sib));
      if s.Left? {
        Regroup(Before(up), InOrder(t), [n], InOrder(sib), After(up));
        assert Before(x) == Before(up);
      } else {
        Regroup(Before(up), InOrder(sib), [n], InOrder(t), After(up));
      }
  }

  lemma {:induction false} AroundOrder(x: Ctx, y: Ctx)
    ensures Before(Around(x, y)) == Before(y) + Before(x)
    ensures After(Around(x, y)) == After(x) + After(y)
  {
    if x.Step? { AroundOrder(x.up, y); }
  }

  // ----- node sets and distinctness

  function Nodes(t: Tree): set<Node> {
    if t.Leaf? then {} else Nodes(t.l) + {t.n} + Nodes(t.r)
  }

  function CtxNodes(x: Ctx): set<Node> {
    if x.Top? then {} else {x.n} + Nodes(x.sib) + CtxNodes(x.up)
  }

  predicate Distinct(t: Tree) {
    t.Br? ==>
      && Distinct(t.l) && Distinct(t.r)
      && t.n !in Nodes(t.l) && t.n !in Nodes(t.r)
      && Nodes(t.l) !! Nodes(t.r)
  }

  predicate CtxDistinct(x: Ctx) {
    x.Step? ==>
      && Distinct(x.sib) && CtxDistinct(x.up)
      && x.n !in Nodes(x.sib) && x.n !in CtxNodes(x.up)
      && Nodes(x.sib) !! CtxNodes(x.up)
  }

  lemma {:induction false} PlugNodes(x: Ctx, t: Tree)
    ensures Nodes(Plug(x, t)) == CtxNodes(x) + Nodes(t)
    ensures Distinct(Plug(x, t)) <==> Distinct(t) && CtxDistinct(x) && Nodes(t) !! CtxNodes(x)
    decreases x
  {
    if x.Step? { PlugNodes(x.up, Mk(x.side, t, x.n, x.c, x.sib)); }
  }

  lemma {:induction false} AroundPlug(x: Ctx, y: Ctx, t: Tree)
    ensures Plug(Around(x, y), t) == Plug(y, Plug(x, t))
    decreases x
  {
    if x.Step? { AroundPlug(x.up, y, Mk(x.side, t, x.n, x.c, x.sib)); }
  }

  lemma {:induction false} AroundNodes(x: Ctx, y: Ctx)
    ensures CtxNodes(Around(x, y)) == CtxNodes(x) + CtxNodes(y)
    ensures CtxDistinct(Around(x, y)) <==> CtxDistinct(x) && CtxDistinct(y) && CtxNodes(x) !! CtxNodes(y)
  {
    if x.Step? { AroundNodes(x.up, y); }
  }

  lemma {:induction false} InOrderNodes(t: Tree)
    ensures forall n :: n in InOrder(t) <==> n in Nodes(t)
  {
    if t.Br? { InOrderNodes(t.l); InOrderNodes(t.r); }
  }

  /** Every node of a tree sits at some position of it. */
  lemma {:induction false} Locate(t: Tree, z: Node) returns (x: Ctx, l: Tree, c: Color, r: Tree)
    requires z in Nodes(t)
    ensures t == Plug(x, Br(l, z, c, r))
  {
    if t.n == z {
      return Top, t.l, t.c, t.r;
    } else if z in Nodes(t.l) {
      var x0;
      x0, l, c, r := Locate(t.l, z);
      x := Around(x0, Step(Left, t.n, t.c, t.r, Top));
      AroundPlug(x0, Step(Left, t.n, t.c, t.r, Top), Br(l, z, c, r));
    } else {
      var x0;
      x0, l, c, r := Locate(t.r, z);
      x := Around(x0, Step(Right, t.n, t.c, t.l, Top));
      AroundPlug(x0, Step(Right, t.n, t.c, t.l, Top), Br(l, z, c, r));
    }
  }
}
