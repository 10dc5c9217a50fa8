/** The colour rules of a red-black tree, split between a subtree and its context, and the
    effect of each fixup case on them.  `s` is the side on which the loop's node hangs. */
module RbBalance {
  import opened RbShape
  import opened RbHeap
  import opened Common

  function ColorOf(t: Tree): Color {
    if t.Leaf? then Black else t.c
  }

  function Weight(c: Color): nat {
    if c.Black? then 1 else 0
  }

  /** Number of black nodes on the leftmost path. */
  function Bh(t: Tree): nat {
    if t.Leaf? then 0 else Bh(t.l) + Weight(t.c)
  }

  /** Every path to a null leaf has the same number of black nodes. */
  predicate Balanced(t: Tree) {
    t.Br? ==> Balanced(t.l) && Balanced(t.r) && Bh(t.l) == Bh(t.r)
  }

  /** No red node has a red child. */
  predicate NoRedRed(t: Tree) {
    t.Br? ==>
      && NoRedRed(t.l) && NoRedRed(t.r)
      && (t.c.Red? ==> ColorOf(t.l).Black? && ColorOf(t.r).Black?)
  }

  predicate RedBlack(t: Tree) {
    ColorOf(t).Black? && Balanced(t) && NoRedRed(t)
  }

  /** The context is balanced when its hole holds a tree of black height k. */
  predicate CtxBalanced(x: Ctx, k: nat)
    decreases x
  {
    x.Step? ==> Balanced(x.sib) && Bh(x.sib) == k && CtxBalanced(x.up, k + Weight(x.c))
  }

  /** The context has no red-red edge when its hole holds a tree whose root has colour c. */
  predicate CtxNoRedRed(x: Ctx, c: Color)
    decreases x
  {
    x.Step? ==>
      && NoRedRed(x.sib) && CtxNoRedRed(x.up, x.c)
      && (x.c.Red? ==> c.Black? && ColorOf(x.sib).Black?)
  }

  predicate RootBlack(x: Ctx) {
    x.Step? ==> if x.up.Top? then x.c.Black? else RootBlack(x.up)
  }

  lemma {:induction false} PlugBalanced(x: Ctx, t: Tree)
    ensures Balanced(Plug(x, t)) <==> Balanced(t) && CtxBalanced(x, Bh(t))
    decreases x
  {
    if x.Step? {
      var t' := Mk(x.side, t, x.n, x.c, x.sib);
      PlugBalanced(x.up, t');
    }
  }

  lemma {:induction false} PlugNoRedRed(x: Ctx, t: Tree)
    ensures NoRedRed(Plug(x, t)) <==> NoRedRed(t) && CtxNoRedRed(x, ColorOf(t))
    decreases x
  {
    if x.Step? {
      var t' := Mk(x.side, t, x.n, x.c, x.sib);
      PlugNoRedRed(x.up, t');
    }
  }

  lemma {:induction false} PlugRoot(x: Ctx, t: Tree)
    ensures x.Step? ==> Plug(x, t).Br? && (ColorOf(Plug(x, t)).Black? <==> RootBlack(x))
    decreases x
  {
    if x.Step? { PlugRoot(x.up, Mk(x.side, t, x.n, x.c, x.sib)); }
  }

  function Blacken(t: Tree): Tree {
    if t.Leaf? then t else t.(c := Black)
  }

  // ----- insert

  /** Loop invariant of _insert_fixup: t's root is red, and making it black would leave a
      tree whose only fault is one extra black on the paths through it. */
  predicate InsertPoint(x: Ctx, t: Tree) {
    && t.Br? && t.c.Red? && Balanced(t) && NoRedRed(t)
    && CtxBalanced(x, Bh(t)) && CtxNoRedRed(x, Black) && RootBlack(x)
  }

  lemma InsertStarts(x: Ctx, z: Node)
    requires RedBlack(Plug(x, Leaf))
    ensures InsertPoint(x, Br(Leaf, z, Red, Leaf))
  {
    PlugBalanced(x, Leaf);
    PlugNoRedRed(x, Leaf);
    PlugRoot(x, Leaf);
  }

  /** While the parent is red there is a black grandparent to follow. */
  lemma GrandparentExists(x: Ctx, t: Tree)
    requires InsertPoint(x, t) && x.Step? && x.c.Red?
    ensures x.up.Step? && x.up.c.Black?
  {
    assert CtxNoRedRed(x.up, Red);
  }

  lemma InsertDone(x: Ctx, t: Tree)
    requires InsertPoint(x, t)
    requires x.Top? || x.c.Black?
    ensures RedBlack(Blacken(Plug(x, t)))
    ensures x.Step? ==> Blacken(Plug(x, t)) == Plug(x, t)
  {
    PlugBalanced(x, t);
    if x.Step? {
      PlugNoRedRed(x, t);
      PlugRoot(x, t);
    }
  }

  /** Case 1: the uncle u is red; both it and the parent become black, the grandparent red. */
  lemma InsertRedUncle(x: Ctx, t: Tree)
    requires InsertPoint(x, t) && x.Step? && x.c.Red? && x.up.Step? && ColorOf(x.up.sib).Red?
    ensures var p := Mk(x.side, t, x.n, Black, x.sib);
            InsertPoint(x.up.up, Mk(x.up.side, p, x.up.n, Red, x.up.sib.(c := Black)))
  {
    var p := Mk(x.side, t, x.n, Black, x.sib);
    assert CtxBalanced(x.up, Bh(t));
    assert Balanced(p) && Bh(p) == Bh(t) + 1 && NoRedRed(p);
    assert CtxNoRedRed(x.up, Red) && NoRedRed(x.up.sib) && RootBlack(x.up);
    assert Balanced(x.up.sib.(c := Black)) && NoRedRed(x.up.sib.(c := Black));
  }

  /** Case 2: t is the inner grandchild; after the rotation the old parent is the outer one. */
  lemma InsertInner(x: Ctx, t: Tree)
    requires InsertPoint(x, t) && x.Step? && x.c.Red? && x.up.Step?
    requires x.side == x.up.side.Opp() && ColorOf(x.up.sib).Black?
    ensures var s := x.up.side;
            InsertPoint(Step(s, t.n, Red, Far(s, t), x.up), Mk(s, x.sib, x.n, Red, Near(s, t)))
  {
  }

  /** Case 3: t is the outer grandchild; parent black, grandparent red, rotate. */
  lemma InsertOuter(x: Ctx, t: Tree)
    requires InsertPoint(x, t) && x.Step? && x.c.Red? && x.up.Step?
    requires x.side == x.up.side && ColorOf(x.up.sib).Black?
    ensures var s := x.side;
            InsertPoint(Step(s, x.n, Black, Mk(s, x.sib, x.up.n, Red, x.up.sib), x.up.up), t)
  {
    assert CtxBalanced(x.up, Bh(t));
    assert CtxNoRedRed(x.up, Red) && RootBlack(x.up);
    assert Balanced(Mk(x.side, x.sib, x.up.n, Red, x.up.sib));
  }

  // ----- delete

  /** Loop invariant of _delete_fixup: paths through t are one black short. */
  predicate DeletePoint(x: Ctx, t: Tree) {
    && Balanced(t) && NoRedRed(Blacken(t))
    && CtxBalanced(x, Bh(t) + 1) && CtxNoRedRed(x, Black) && RootBlack(x)
  }

  /** The loop never follows a null sibling. */
  lemma SiblingExists(x: Ctx, t: Tree)
    requires DeletePoint(x, t) && x.Step?
    ensures x.sib.Br?
  {
  }

  lemma DeleteDone(x: Ctx, t: Tree)
    requires DeletePoint(x, t)
    requires x.Top? || ColorOf(t).Red?
    ensures RedBlack(Plug(x, Blacken(t)))
  {
    PlugBalanced(x, Blacken(t));
    PlugNoRedRed(x, Blacken(t));
    PlugRoot(x, Blacken(t));
  }

  /** Case 1: red sibling w.  Afterwards the sibling is w's near child, which is black. */
  lemma DeleteRedSibling(x: Ctx, t: Tree)
    requires DeletePoint(x, t) && x.Step? && ColorOf(t).Black? && ColorOf(x.sib).Red?
    ensures x.c.Black?
    ensures var (s, w) := (x.side, x.sib);
            && Near(s, w).Br? && Near(s, w).c.Black?
            && DeletePoint(Step(s, x.n, Red, Near(s, w), Step(s, w.n, Black, Far(s, w), x.up)), t)
  {
  }

  /** Case 2: black sibling with black children turns red and the shortage moves up. */
  lemma DeleteBlackNephews(x: Ctx, t: Tree)
    requires DeletePoint(x, t) && x.Step? && ColorOf(t).Black?
    requires x.sib.Br? && x.sib.c.Black?
    requires ColorOf(x.sib.l).Black? && ColorOf(x.sib.r).Black?
    ensures DeletePoint(x.up, Mk(x.side, t, x.n, x.c, x.sib.(c := Red)))
  {
    assert NoRedRed(x.sib.(c := Red)) && Balanced(x.sib.(c := Red));
    assert CtxBalanced(x.up, Bh(t) + 1 + Weight(x.c));
    assert CtxNoRedRed(x.up, x.c);
  }

  /** Case 3: the near nephew is red, the far one black; rotating the sibling makes the far one red. */
  lemma DeleteNearRed(x: Ctx, t: Tree)
    requires DeletePoint(x, t) && x.Step? && ColorOf(t).Black?
    requires x.sib.Br? && x.sib.c.Black?
    requires ColorOf(Near(x.side, x.sib)).Red? && ColorOf(Far(x.side, x.sib)).Black?
    ensures var (s, w) := (x.side, x.sib);
            var v := Near(s, w);
            var w' := Mk(s, Near(s, v), v.n, Black, Mk(s, Far(s, v), w.n, Red, Far(s, w)));
            DeletePoint(x.(sib := w'), t)
  {
    var (s, w) := (x.side, x.sib);
    var v := Near(s, w);
    assert Balanced(v) && NoRedRed(v);
    var u := Mk(s, Far(s, v), w.n, Red, Far(s, w));
    assert Balanced(u) && NoRedRed(u) && Bh(u) == Bh(v);
    assert Balanced(Mk(s, Near(s, v), v.n, Black, u));
  }

  /** Case 4: the far nephew is red; the rotation repays the missing black. */
  lemma DeleteFarRed(x: Ctx, t: Tree)
    requires DeletePoint(x, t) && x.Step? && ColorOf(t).Black?
    requires x.sib.Br? && x.sib.c.Black? && ColorOf(Far(x.side, x.sib)).Red?
    ensures var (s, w) := (x.side, x.sib);
            var t' := Mk(s, Mk(s, t, x.n, Black, Near(s, w)), w.n, x.c, Far(s, w).(c := Black));
            RedBlack(Plug(x.up, t')) && DeletePoint(Top, Plug(x.up, t'))
  {
    var (s, w) := (x.side, x.sib);
    assert Balanced(Far(s, w)) && NoRedRed(Far(s, w));
    var a, f := Mk(s, t, x.n, Black, Near(s, w)), Far(s, w).(c := Black);
    assert Balanced(a) && NoRedRed(a) && Balanced(f) && NoRedRed(f) && Bh(a) == Bh(f);
    var t' := Mk(s, a, w.n, x.c, f);
    assert CtxBalanced(x.up, Bh(t'));
    assert CtxNoRedRed(x.up, x.c);
    PlugBalanced(x.up, t');
    PlugNoRedRed(x.up, t');
    PlugRoot(x.up, t');
    assert Blacken(Plug(x.up, t')) == Plug(x.up, t');
  }

  /** Unlinking a node with at most one child: a black one leaves a shortage, a red one nothing. */
  lemma RemoveStarts(s: Side, x: Ctx, t: Tree)
    requires t.Br? && Near(s, t).Leaf? && RedBlack(Plug(x, t))
    ensures t.c.Black? ==> DeletePoint(x, Far(s, t))
    ensures t.c.Red? ==> RedBlack(Plug(x, Far(s, t)))
  {
    PlugBalanced(x, t);
    PlugNoRedRed(x, t);
    PlugRoot(x, t);
    var v := Far(s, t);
    assert Bh(v) == 0 && Balanced(v) && NoRedRed(v);
    if t.c.Red? {
      PlugBalanced(x, v);
      PlugNoRedRed(x, v);
      PlugRoot(x, v);
    } else {
      assert NoRedRed(Blacken(v));
      assert CtxNoRedRed(x, Black);
    }
  }

  /** Which node stands at a place does not matter to the colour rules. */
  lemma {:induction false} Rename(k: Ctx, x: Ctx, x': Ctx, n: nat, c: Color)
    requires x.Step? && x'.Step? && x'.(n := x.n) == x
    ensures CtxBalanced(Around(k, x'), n) == CtxBalanced(Around(k, x), n)
    ensures CtxNoRedRed(Around(k, x'), c) == CtxNoRedRed(Around(k, x), c)
    ensures RootBlack(Around(k, x')) == RootBlack(Around(k, x))
    decreases k
  {
    if k.Step? { Rename(k.up, x, x', n + Weight(k.c), k.c); }
  }

  /** Replacing z by its successor keeps the colour rules. */
  lemma RemoveRenamed(k: Ctx, x: Ctx, x': Ctx, t: Tree)
    requires x.Step? && x'.Step? && x'.(n := x.n) == x
    ensures DeletePoint(Around(k, x), t) ==> DeletePoint(Around(k, x'), t)
    ensures RedBlack(Plug(Around(k, x), t)) ==> RedBlack(Plug(Around(k, x'), t))
  {
    Rename(k, x, x', Bh(t) + 1, Black);
    Rename(k, x, x', Bh(t), ColorOf(t));
    PlugBalanced(Around(k, x), t);
    PlugNoRedRed(Around(k, x), t);
    PlugRoot(Around(k, x), t);
    PlugBalanced(Around(k, x'), t);
    PlugNoRedRed(Around(k, x'), t);
    PlugRoot(Around(k, x'), t);
  }

  // ----- logarithmic height

  function Height(t: Tree): nat {
    if t.Leaf? then 0 else 1 + if Height(t.l) > Height(t.r) then Height(t.l) else Height(t.r)
  }

  lemma {:induction false} HeightByBlack(t: Tree)
    requires Balanced(t) && NoRedRed(t)
    ensures Height(t) <= 2 * Bh(t) + if ColorOf(t).Black? then 0 else 1
    ensures |InOrder(t)| + 1 >= Pow2(Bh(t))
  {
    if t.Br? {
      HeightByBlack(t.l);
      HeightByBlack(t.r);
    }
  }

  /** A red-black tree of n nodes has height at most 2 log2(n + 1). */
  lemma LogHeight(t: Tree)
    requires RedBlack(t)
    ensures exists k: nat :: Height(t) <= 2 * k && Pow2(k) <= |InOrder(t)| + 1
  {
    HeightByBlack(t);
  }
}
