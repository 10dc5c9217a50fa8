/** Runs of rb_insert and rb_delete: the tree always lists its nodes by key, and among equal
    keys by the time of insertion. */
module RbRun {
  import opened RbShape
  import opened RbOrder

  datatype Op = Ins(z: Node) | Del(z: Node)

  function Apply(s: seq<Node>, op: Op): seq<Node> {
    if op.Ins? then Place(s, op.z) else Without(s, op.z)
  }

  /** The nodes in the tree after the calls ops. */
  function Run(ops: seq<Op>): seq<Node> {
    if ops == [] then [] else Apply(Run(ops[..|ops| - 1]), ops[|ops| - 1])
  }

  /** A caller inserts only nodes that are not linked. */
  predicate Legal(ops: seq<Op>) {
    ops == [] ||
    (Legal(ops[..|ops| - 1]) && (ops[|ops| - 1].Ins? ==> ops[|ops| - 1].z !in Run(ops[..|ops| - 1])))
  }

  function Extend(ops: seq<Op>, op: Op): (r: seq<Op>)
    ensures r == ops + [op] && Run(r) == Apply(Run(ops), op)
    ensures Legal(ops) && (op.Ins? ==> op.z !in Run(ops)) ==> Legal(r)
  {
    assert (ops + [op])[..|ops|] == ops;
    ops + [op]
  }

  /** When n was last inserted. */
  function Stamp(ops: seq<Op>, n: Node): (k: int)
    ensures -1 <= k < |ops|
    ensures k >= 0 ==> ops[k] == Ins(n)
  {
    if ops == [] then -1
    else if ops[|ops| - 1] == Ins(n) then |ops| - 1
    else Stamp(ops[..|ops| - 1], n)
  }

  predicate Earlier(ops: seq<Op>, a: Node, b: Node) {
    a.key < b.key || (a.key == b.key && Stamp(ops, a) < Stamp(ops, b))
  }

  predicate Stable(ops: seq<Op>, s: seq<Node>) {
    forall i, j :: 0 <= i < j < |s| ==> Earlier(ops, s[i], s[j])
  }

  lemma {:induction false} WithoutStable(ops: seq<Op>, s: seq<Node>, z: Node)
    requires Stable(ops, s)
    ensures Stable(ops, Without(s, z))
  {
    if s != [] {
      WithoutStable(ops, s[1..], z);
      var r := Without(s[1..], z);
      forall i | 0 <= i < |r| ensures Earlier(ops, s[0], r[i]) {
        assert r[i] in r;
        WithoutMembers(s[1..], z, r[i]);
      }
    }
  }

  /** Later insertions of other nodes do not change the order between two nodes. */
  lemma Restamp(ops: seq<Op>, z: Node, n: Node)
    ensures Stamp(ops + [Ins(z)], n) == if n == z then |ops| else Stamp(ops, n)
  {
  }

  lemma StableSplice(ops: seq<Op>, a: seq<Node>, z: Node, b: seq<Node>)
    requires Stable(ops, a + b)
    requires forall i :: 0 <= i < |a| ==> Earlier(ops, a[i], z)
    requires forall i :: 0 <= i < |b| ==> Earlier(ops, z, b[i])
    ensures Stable(ops, a + [z] + b)
  {
    var p, r := a + [z] + b, |a|;
    forall i, j | 0 <= i < j < |p| ensures Earlier(ops, p[i], p[j]) {
      if i != r && j != r {
        var i', j' := if i < r then i else i - 1, if j < r then j else j - 1;
        assert p[i] == (a + b)[i'] && p[j] == (a + b)[j'];
      }
    }
  }

  lemma PlaceStable(ops: seq<Op>, s: seq<Node>, z: Node)
    requires Stable(ops, s) && z !in s
    ensures Stable(ops + [Ins(z)], Place(s, z))
  {
    var ops' := ops + [Ins(z)];
    forall i | 0 <= i < |s| ensures s[i] != z && Stamp(ops', s[i]) == Stamp(ops, s[i]) {
      Restamp(ops, z, s[i]);
    }
    Restamp(ops, z, z);
    assert Stable(ops', s);
    RankSplits(s, z.key);
    var r := Rank(s, z.key);
    assert s == s[..r] + s[r..];
    StableSplice(ops', s[..r], z, s[r..]);
  }

  /** After every legal run the nodes are ordered by key, and equal keys by insertion. */
  lemma {:induction false} RunStable(ops: seq<Op>)
    requires Legal(ops)
    ensures Stable(ops, Run(ops))
  {
    if ops != [] {
      var (init, last) := (ops[..|ops| - 1], ops[|ops| - 1]);
      RunStable(init);
      assert ops == init + [last];
      if last.Ins? {
        PlaceStable(init, Run(init), last.z);
      } else {
        WithoutStable(init, Run(init), last.z);
        assert forall n :: Stamp(ops, n) == Stamp(init, n);
      }
    }
  }

  /** So the leftmost node is the earliest-inserted node of least key. */
  lemma FirstIsEarliest(ops: seq<Op>, n: Node)
    requires Legal(ops) && n in Run(ops)
    ensures Run(ops)[0] == n || Earlier(ops, Run(ops)[0], n)
  {
    RunStable(ops);
  }

  /** A node is in the tree exactly when its last operation was its insertion. */
  lemma {:induction false} RunMembers(ops: seq<Op>, n: Node)
    ensures n in Run(ops) <==>
            Stamp(ops, n) >= 0 && forall k :: Stamp(ops, n) < k < |ops| ==> ops[k] != Del(n)
  {
    if ops != [] {
      var (init, last) := (ops[..|ops| - 1], ops[|ops| - 1]);
      RunMembers(init, n);
      if last.Ins? {
        PlaceMembers(Run(init), last.z, n);
      } else {
        WithoutMembers(Run(init), last.z, n);
      }
      assert ops[|ops| - 1] == last && forall k :: 0 <= k < |init| ==> ops[k] == init[k];
    }
  }

  lemma PlaceMembers(s: seq<Node>, z: Node, n: Node)
    ensures n in Place(s, z) <==> n == z || n in s
  {
  }
}
