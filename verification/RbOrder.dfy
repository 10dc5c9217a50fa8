/** Key order of the in-order node sequence: stable placement and removal. */
module RbOrder {
  import opened RbShape

  predicate Sorted(s: seq<Node>) {
    forall i, j :: 0 <= i < j < |s| ==> s[i].key <= s[j].key
  }

  predicate AllAtMost(s: seq<Node>, k: int) {
    forall i :: 0 <= i < |s| ==> s[i].key <= k
  }

  predicate AllAbove(s: seq<Node>, k: int) {
    forall i :: 0 <= i < |s| ==> k < s[i].key
  }

  /** How many leading nodes have a key of at most k. */
  function Rank(s: seq<Node>, k: int): (r: nat)
    ensures r <= |s|
  {
    if s == [] || k < s[0].key then 0 else 1 + Rank(s[1..], k)
  }

  /** z goes after every key less than or equal to its own. */
  function Place(s: seq<Node>, z: Node): seq<Node> {
    s[..Rank(s, z.key)] + [z] + s[Rank(s, z.key)..]
  }

  function Without(s: seq<Node>, z: Node): seq<Node> {
    if s == [] then []
    else if s[0] == z then Without(s[1..], z)
    else [s[0]] + Without(s[1..], z)
  }

  lemma SortedAround(a: seq<Node>, n: Node, b: seq<Node>)
    requires Sorted(a + [n] + b)
    ensures Sorted(a) && Sorted(b) && AllAtMost(a, n.key)
    ensures forall i :: 0 <= i < |b| ==> n.key <= b[i].key
  {
    var s := a + [n] + b;
    assert s[..|a|] == a && s[|a|] == n && s[|a| + 1..] == b;
  }

  lemma {:induction false} PlaceBetween(a: seq<Node>, b: seq<Node>, z: Node)
    requires AllAtMost(a, z.key) && AllAbove(b, z.key)
    ensures Place(a + b, z) == a + [z] + b
  {
    RankBetween(a, b, z.key);
  }

  lemma {:induction false} RankBetween(a: seq<Node>, b: seq<Node>, k: int)
    requires AllAtMost(a, k) && AllAbove(b, k)
    ensures Rank(a + b, k) == |a|
  {
    if a == [] {
      assert a + b == b;
    } else {
      assert (a + b)[1..] == a[1..] + b;
      RankBetween(a[1..], b, k);
    }
  }

  lemma {:induction false} RankSplits(s: seq<Node>, k: int)
    requires Sorted(s)
    ensures AllAtMost(s[..Rank(s, k)], k) && AllAbove(s[Rank(s, k)..], k)
  {
    if s != [] && s[0].key <= k {
      RankSplits(s[1..], k);
      assert s[1..][Rank(s[1..], k)..] == s[Rank(s, k)..];
      assert s[..Rank(s, k)] == [s[0]] + s[1..][..Rank(s[1..], k)];
    }
  }

  lemma PlaceSorted(s: seq<Node>, z: Node)
    requires Sorted(s)
    ensures Sorted(Place(s, z))
  {
    RankSplits(s, z.key);
    var r := Rank(s, z.key);
    var a, b := s[..r], s[r..];
    forall i, j | 0 <= i < j < |a + [z] + b| ensures (a + [z] + b)[i].key <= (a + [z] + b)[j].key {
    }
  }

  lemma {:induction false} WithoutAbsent(s: seq<Node>, z: Node)
    requires z !in s
    ensures Without(s, z) == s
  {
    if s != [] { WithoutAbsent(s[1..], z); }
  }

  lemma {:induction false} WithoutOne(a: seq<Node>, b: seq<Node>, z: Node)
    requires z !in a && z !in b
    ensures Without(a + [z] + b, z) == a + b
  {
    if a == [] {
      assert (a + [z] + b)[1..] == b;
      WithoutAbsent(b, z);
    } else {
      assert (a + [z] + b)[1..] == a[1..] + [z] + b;
      WithoutOne(a[1..], b, z);
    }
  }

  lemma {:induction false} WithoutMembers(s: seq<Node>, z: Node, n: Node)
    ensures n in Without(s, z) <==> n in s && n != z
  {
    if s != [] {
      WithoutMembers(s[1..], z, n);
      assert s == [s[0]] + s[1..];
    }
  }

  lemma {:induction false} WithoutSorted(s: seq<Node>, z: Node)
    requires Sorted(s)
    ensures Sorted(Without(s, z))
  {
    if s != [] {
      WithoutSorted(s[1..], z);
      var r := Without(s[1..], z);
      forall i | 0 <= i < |r| ensures s[0].key <= r[i].key {
        assert r[i] in r;
        WithoutMembers(s[1..], z, r[i]);
      }
    }
  }

  /** Filling the slot found by the descent is stable placement. */
  lemma SlotOrder(k: Ctx, z: Node)
    requires Sorted(InOrder(Plug(k, Leaf)))
    requires AllAtMost(Before(k), z.key) && AllAbove(After(k), z.key)
    ensures InOrder(Plug(k, Br(Leaf, z, Red, Leaf))) == Place(InOrder(Plug(k, Leaf)), z)
    ensures Sorted(InOrder(Plug(k, Br(Leaf, z, Red, Leaf))))
  {
    PlugInOrder(k, Leaf);
    PlugInOrder(k, Br(Leaf, z, Red, Leaf));
    assert Before(k) + [] + After(k) == Before(k) + After(k);
    PlaceBetween(Before(k), After(k), z);
    PlaceSorted(InOrder(Plug(k, Leaf)), z);
  }

  lemma {:induction false} WithoutConcat(a: seq<Node>, b: seq<Node>, z: Node)
    ensures Without(a + b, z) == Without(a, z) + Without(b, z)
  {
    if a == [] {
      assert a + b == b;
    } else {
      assert (a + b)[1..] == a[1..] + b;
      WithoutConcat(a[1..], b, z);
    }
  }

  lemma WithoutMiddle(a: seq<Node>, i: seq<Node>, j: seq<Node>, b: seq<Node>, z: Node)
    requires z !in a && z !in i && z !in j && z !in b
    ensures Without(a + (i + [z] + j) + b, z) == a + (i + j) + b
  {
    WithoutConcat(a + (i + [z] + j), b, z);
    WithoutConcat(a, i + [z] + j, z);
    WithoutOne(i, j, z);
    WithoutAbsent(a, z);
    WithoutAbsent(b, z);
  }

  lemma {:induction false} SidesInCtx(x: Ctx)
    ensures forall n :: n in Before(x) || n in After(x) ==> n in CtxNodes(x)
  {
    if x.Step? { SidesInCtx(x.up); InOrderNodes(x.sib); }
  }

  /** A node of a distinct tree occurs nowhere around its own position. */
  lemma OnlyHere(x: Ctx, t: Tree)
    requires t.Br? && Distinct(Plug(x, t))
    ensures t.n !in Before(x) && t.n !in After(x) && t.n !in InOrder(t.l) && t.n !in InOrder(t.r)
  {
    PlugNodes(x, t);
    SidesInCtx(x);
    InOrderNodes(t.l);
    InOrderNodes(t.r);
  }

  /** Taking node t.n out of its place leaves its two subtrees next to each other. */
  lemma Cut(x: Ctx, t: Tree)
    requires t.Br? && Distinct(Plug(x, t))
    ensures Without(InOrder(Plug(x, t)), t.n) == Before(x) + (InOrder(t.l) + InOrder(t.r)) + After(x)
  {
    OnlyHere(x, t);
    PlugInOrder(x, t);
    WithoutMiddle(Before(x), InOrder(t.l), InOrder(t.r), After(x), t.n);
  }

  /** Unlinking a node with one child drops exactly that node from the order. */
  lemma CutOrder(s: Side, x: Ctx, t: Tree)
    requires t.Br? && (if s.Left? then t.l else t.r).Leaf? && Distinct(Plug(x, t))
    ensures InOrder(Plug(x, if s.Left? then t.r else t.l)) == Without(InOrder(Plug(x, t)), t.n)
  {
    var v := if s.Left? then t.r else t.l;
    Cut(x, t);
    PlugInOrder(x, v);
    assert InOrder(t.l) + InOrder(t.r) == InOrder(v);
  }

  lemma KeysAtMost(a: seq<Node>, b: seq<Node>, n: Node, key: int)
    requires AllAtMost(a, key) && AllAtMost(b, n.key) && n.key <= key
    ensures AllAtMost(a + (b + [n]), key)
  {
  }

  lemma KeysAbove(n: Node, a: seq<Node>, b: seq<Node>, key: int)
    requires key < n.key && (forall i :: 0 <= i < |a| ==> n.key <= a[i].key) && AllAbove(b, key)
    ensures AllAbove([n] + a + b, key)
  {
  }

  lemma EmptyAround(key: int)
    ensures AllAtMost(Before(Top), key) && AllAbove(After(Top), key)
  {
  }

  /** One step of the descent for a key keeps it between the nodes before and after the hole. */
  lemma Descend(k: Ctx, t: Tree, key: int)
    requires t.Br? && Sorted(InOrder(t)) && AllAtMost(Before(k), key) && AllAbove(After(k), key)
    ensures Sorted(InOrder(t.l)) && Sorted(InOrder(t.r))
    ensures key < t.n.key ==>
              var k' := Step(Left, t.n, t.c, t.r, k); AllAtMost(Before(k'), key) && AllAbove(After(k'), key)
    ensures key >= t.n.key ==>
              var k' := Step(Right, t.n, t.c, t.l, k); AllAtMost(Before(k'), key) && AllAbove(After(k'), key)
  {
    hide Sorted, AllAtMost, AllAbove;
    SortedAround(InOrder(t.l), t.n, InOrder(t.r));
    if key < t.n.key {
      KeysAbove(t.n, InOrder(t.r), After(k), key);
      assert Before(k) + [] == Before(k);
    } else {
      KeysAtMost(Before(k), InOrder(t.l), t.n, key);
      assert [] + After(k) == After(k);
    }
  }

  /** z is replaced by the first node of its right subtree Plug(k, u), with u.l empty. */
  lemma SuccessorOrder(x: Ctx, l: Tree, z: Node, c: Color, k: Ctx, u: Tree)
    requires u.Br? && u.l.Leaf? && Before(k) == []
    requires Distinct(Plug(x, Br(l, z, c, Plug(k, u))))
    ensures InOrder(Plug(x, Br(l, u.n, c, Plug(k, u.r)))) == Without(InOrder(Plug(x, Br(l, z, c, Plug(k, u)))), z)
  {
    var (t, s) := (Br(l, z, c, Plug(k, u)), Br(l, u.n, c, Plug(k, u.r)));
    Cut(x, t);
    PlugInOrder(x, s);
    FirstOrder(k, u);
    assert InOrder(s) == InOrder(l) + [u.n] + InOrder(Plug(k, u.r));
    hide InOrder, Plug, Without, Before, After;
    MiddleSeq(InOrder(l), [u.n], InOrder(Plug(k, u.r)));
  }

  lemma MiddleSeq(a: seq<Node>, b: seq<Node>, c: seq<Node>)
    ensures a + (b + c) == a + b + c
  {
  }

  lemma FirstOrder(k: Ctx, u: Tree)
    requires u.Br? && u.l.Leaf? && Before(k) == []
    ensures InOrder(Plug(k, u)) == [u.n] + InOrder(Plug(k, u.r))
  {
    PlugInOrder(k, u);
    PlugInOrder(k, u.r);
    FirstSeq(InOrder(u.r), After(k), u.n);
    assert InOrder(u) == [] + [u.n] + InOrder(u.r);
  }

  lemma FirstSeq(a: seq<Node>, b: seq<Node>, n: Node)
    ensures [] + ([] + [n] + a) + b == [n] + ([] + a + b)
  {
  }
}
