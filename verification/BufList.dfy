/** bio.c's table of buffers and the doubly linked list that threads them.

    Pointers into the table are indices; index NBUF is the list head.  `lru` lists the
    buffers from head.next (most recently used) to head.prev. */
module BufList {
  import opened Blocks

  const NBUF := 30
  const HEAD := NBUF

  datatype Buf = Buf(valid: bool, dev: nat, blockno: nat, locked: bool, refcnt: nat,
                     prev: nat, next: nat, data: Block)

  type Table = t: seq<Buf> | |t| == NBUF + 1 witness seq(31, _ => Buf(false, 0, 0, false, 0, 0, 0, seq(1024, _ => 0)))

  /** Position k of the ring head, l[0], ..., l[|l|-1], head. */
  function At(l: seq<nat>, k: nat): nat
    requires k <= |l| + 1
  {
    if k == 0 || k == |l| + 1 then HEAD else l[k - 1]
  }

  predicate Members(l: seq<nat>) {
    && (forall i :: 0 <= i < |l| ==> l[i] < NBUF)
    && (forall i, j :: 0 <= i < j < |l| ==> l[i] != l[j])
  }

  predicate Hop(t: Table, l: seq<nat>, k: nat)
    requires Members(l) && k <= |l|
  {
    t[At(l, k)].next == At(l, k + 1) && t[At(l, k + 1)].prev == At(l, k)
  }

  /** Following next from the head visits l in order, following prev the reverse. */
  predicate Linked(t: Table, l: seq<nat>) {
    Members(l) && forall k: nat :: k <= |l| ==> Hop(t, l, k)
  }

  function Unlink(t: Table, b: nat): Table
    requires b < NBUF && t[b].next <= NBUF && t[b].prev <= NBUF
  {
    var (n, p) := (t[b].next, t[b].prev);
    var t1 := t[n := t[n].(prev := p)];
    t1[p := t1[p].(next := n)]
  }

  function PushFront(t: Table, b: nat): Table
    requires b < NBUF && t[HEAD].next <= NBUF
  {
    var t1 := t[b := t[b].(next := t[HEAD].next, prev := HEAD)];
    var n := t1[HEAD].next;
    var t2 := t1[n := t1[n].(prev := b)];
    t2[HEAD := t2[HEAD].(next := b)]
  }

  lemma AtInjective(l: seq<nat>, i: nat, j: nat)
    requires Members(l) && i < j <= |l| + 1 && !(i == 0 && j == |l| + 1)
    ensures At(l, i) != At(l, j)
  {
  }

  lemma UnlinkOk(t: Table, l: seq<nat>, k: nat)
    requires Linked(t, l) && k < |l|
    ensures t[l[k]].next <= NBUF && t[l[k]].prev <= NBUF
    ensures Linked(Unlink(t, l[k]), l[..k] + l[k + 1..])
  {
    assert Hop(t, l, k) && Hop(t, l, k + 1);
    var (t', l') := (Unlink(t, l[k]), l[..k] + l[k + 1..]);
    forall j: nat | j <= |l'| ensures Hop(t', l', j) {
      if j < k {
        assert Hop(t, l, j);
        AtInjective(l, j, k);
        AtInjective(l, j + 1, k + 2);
      } else if j > k {
        assert Hop(t, l, j + 1);
        AtInjective(l, k, j + 1);
        AtInjective(l, k + 2, j + 2);
      }
    }
  }

  lemma PushFrontOk(t: Table, l: seq<nat>, b: nat)
    requires Linked(t, l) && b < NBUF && b !in l
    ensures t[HEAD].next <= NBUF && Linked(PushFront(t, b), [b] + l)
  {
    assert Hop(t, l, 0);
    var (t', l') := (PushFront(t, b), [b] + l);
    forall j: nat | j <= |l'| ensures Hop(t', l', j) {
      if j > 1 {
        assert Hop(t, l, j - 1);
        AtInjective(l, 0, j - 1);
        if 1 < |l| + 1 { AtInjective(l, 1, j); }
      }
    }
  }
}
