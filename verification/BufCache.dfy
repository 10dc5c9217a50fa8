/** bio.c: the buffer cache over one disk. */
module BufCache {
  import opened Blocks
  import opened BufList

  /** Result of a request that may wait for a lock or halt the machine. */
  datatype Got = Buffer(b: nat) | Wait(b: nat) | Panic

  predicate Holds(t: Table, b: nat, dev: nat, bno: nat)
    requires b < NBUF
  {
    t[b].dev == dev && t[b].blockno == bno
  }

  predicate Cached(t: Table, dev: nat, bno: nat) {
    exists b: nat :: b < NBUF && Holds(t, b, dev, bno)
  }

  /** At most one buffer per block; unused buffers carry device number 0. */
  predicate Unique(t: Table) {
    forall i: nat, j: nat :: i < NBUF && j < NBUF && i != j && t[i].dev != 0 ==> !Holds(t, j, t[i].dev, t[i].blockno)
  }

  /** The list holds every buffer, and the unreferenced ones stand in it with the longest
      unreferenced last. */
  predicate ListOk(t: Table, lru: seq<nat>, idle: seq<nat>, now: nat) {
    && Linked(t, lru) && |lru| == |idle| == NBUF
    && (forall b: nat :: b < NBUF ==> b in lru && idle[b] <= now)
    && forall i, j :: 0 <= i < j < |lru| && t[lru[i]].refcnt == 0 && t[lru[j]].refcnt == 0 ==>
         idle[lru[i]] >= idle[lru[j]]
  }

  /** Every reference to a buffer is a pin, a process that waits for its lock, or its holder. */
  predicate RefsOk(t: Table, pins: seq<nat>, waiting: seq<nat>) {
    && |pins| == |waiting| == NBUF
    && forall b: nat :: b < NBUF ==> t[b].refcnt == pins[b] + waiting[b] + (if t[b].locked then 1 else 0)
  }

  /** Same links everywhere. */
  predicate SameLinks(t: Table, t': Table) {
    forall b: nat :: b <= NBUF ==> t'[b].next == t[b].next && t'[b].prev == t[b].prev
  }

  lemma ListKept(t: Table, t': Table, lru: seq<nat>, idle: seq<nat>, now: nat)
    requires ListOk(t, lru, idle, now) && SameLinks(t, t')
    requires forall b: nat :: b < NBUF && t'[b].refcnt == 0 ==> t[b].refcnt == 0
    ensures ListOk(t', lru, idle, now)
  {
    forall k: nat | k <= |lru| ensures Hop(t', lru, k) { assert Hop(t, lru, k); }
  }

  ghost predicate Ok(t: Table, lru: seq<nat>, idle: seq<nat>, now: nat) {
    ListOk(t, lru, idle, now) && Unique(t)
  }

  lemma HitOk(t: Table, lru: seq<nat>, idle: seq<nat>, now: nat, b: nat)
    requires Ok(t, lru, idle, now) && b < NBUF
    ensures Ok(t[b := t[b].(refcnt := t[b].refcnt + 1)], lru, idle, now)
  {
    RefsKept(t, t[b := t[b].(refcnt := t[b].refcnt + 1)], lru, idle, now);
  }

  lemma RecycleOk(t: Table, lru: seq<nat>, idle: seq<nat>, now: nat, b: nat, dev: nat, bno: nat)
    requires Ok(t, lru, idle, now) && b < NBUF && !Cached(t, dev, bno)
    ensures Ok(t[b := t[b].(dev := dev, blockno := bno, valid := false, refcnt := 1)], lru, idle, now)
  {
    var t' := t[b := t[b].(dev := dev, blockno := bno, valid := false, refcnt := 1)];
    ListKept(t, t', lru, idle, now);
    assert forall i: nat, d: nat, n: nat :: i < NBUF && i != b ==> Holds(t', i, d, n) == Holds(t, i, d, n);
    forall i: nat, j: nat | i < NBUF && j < NBUF && i != j && t'[i].dev != 0
      ensures !Holds(t', j, t'[i].dev, t'[i].blockno)
    {
      assert !Holds(t, i, dev, bno) && !Holds(t, j, dev, bno);
    }
  }

  /** Steps that keep every buffer's identity and make none of them newly unreferenced. */
  lemma RefsKept(t: Table, t': Table, lru: seq<nat>, idle: seq<nat>, now: nat)
    requires Ok(t, lru, idle, now) && SameLinks(t, t')
    requires forall b: nat :: b < NBUF ==> t'[b].dev == t[b].dev && t'[b].blockno == t[b].blockno
    requires forall b: nat :: b < NBUF && t'[b].refcnt == 0 ==> t[b].refcnt == 0
    ensures Ok(t', lru, idle, now)
  {
    ListKept(t, t', lru, idle, now);
    assert forall i: nat, d: nat, n: nat :: i < NBUF ==> Holds(t', i, d, n) == Holds(t, i, d, n);
  }

  /** bget may hand out the block's own buffer, or an unreferenced one if it has none. */
  predicate Obtained(t: Table, b: nat, dev: nat, bno: nat)
    requires b < NBUF
  {
    Holds(t, b, dev, bno) || (t[b].refcnt == 0 && !Cached(t, dev, bno))
  }

  /** What bget does to the buffer: one more reference, or a new identity. */
  function Taken(f: Buf, dev: nat, bno: nat): Buf {
    if f.dev == dev && f.blockno == bno then f.(refcnt := f.refcnt + 1)
    else f.(dev := dev, blockno := bno, valid := false, refcnt := 1)
  }

  function Filled(f: Buf, disk: seq<Block>): Buf
    requires f.blockno < |disk|
  {
    f.(locked := true, valid := true, data := if f.valid then f.data else disk[f.blockno])
  }

  /** The tables agree on everything but the list links. */
  predicate SameButLinks(t: Table, t': Table) {
    forall b: nat :: b < NBUF ==> t'[b] == t[b].(next := t'[b].next, prev := t'[b].prev)
  }

  function Released(t: Table, b: nat): Table
    requires b < NBUF && t[b].refcnt > 0
  {
    t[b := t[b].(locked := false, refcnt := t[b].refcnt - 1)]
  }

  lemma MoveSame(t: Table, b: nat)
    requires b < NBUF && t[b].next <= NBUF && t[b].prev <= NBUF && Unlink(t, b)[HEAD].next <= NBUF
    ensures SameButLinks(t, PushFront(Unlink(t, b), b))
  {
    var u := Unlink(t, b);
    assert SameButLinks(t, u);
    PushSame(u, b);
  }

  lemma PushSame(t: Table, b: nat)
    requires b < NBUF && t[HEAD].next <= NBUF
    ensures SameButLinks(t, PushFront(t, b))
  {
  }

  function Moved(lru: seq<nat>, k: nat): seq<nat>
    requires k < |lru|
  {
    [lru[k]] + (lru[..k] + lru[k + 1..])
  }

  lemma MovedMembers(lru: seq<nat>, k: nat, c: nat)
    requires k < |lru| && c in lru
    ensures c in Moved(lru, k)
  {
  }

  lemma MovedOrder(t: Table, t2: Table, lru: seq<nat>, idle: seq<nat>, now: nat, k: nat, i: nat, j: nat)
    requires ListOk(t, lru, idle, now) && k < |lru| && i < j < |lru|
    requires forall c: nat :: c < NBUF && c != lru[k] ==> t2[c].refcnt == t[c].refcnt
    requires var l := Moved(lru, k); l[i] < NBUF && l[j] < NBUF && t2[l[i]].refcnt == 0 && t2[l[j]].refcnt == 0
    ensures idle[lru[k] := now + 1][Moved(lru, k)[i]] >= idle[lru[k] := now + 1][Moved(lru, k)[j]]
  {
  }

  lemma MovedListOk(t: Table, t2: Table, lru: seq<nat>, idle: seq<nat>, now: nat, k: nat)
    requires ListOk(t, lru, idle, now) && k < |lru|
    requires forall c: nat :: c < NBUF && c != lru[k] ==> t2[c].refcnt == t[c].refcnt
    requires Linked(t2, Moved(lru, k))
    ensures ListOk(t2, Moved(lru, k), idle[lru[k] := now + 1], now + 1)
  {
    forall c: nat | c < NBUF ensures c in Moved(lru, k) { MovedMembers(lru, k, c); }
    forall i, j | 0 <= i < j < |lru| && t2[Moved(lru, k)[i]].refcnt == 0 && t2[Moved(lru, k)[j]].refcnt == 0
      ensures idle[lru[k] := now + 1][Moved(lru, k)[i]] >= idle[lru[k] := now + 1][Moved(lru, k)[j]]
    {
      MovedOrder(t, t2, lru, idle, now, k, i, j);
    }
  }

  /** t1 is t with lru[k] released by its last user; moving it to the front restores the list. */
  lemma ReleaseOk(t: Table, t1: Table, lru: seq<nat>, idle: seq<nat>, now: nat, k: nat)
    requires Ok(t, lru, idle, now) && k < |lru|
    requires t1 == t[lru[k] := t[lru[k]].(locked := false, refcnt := 0)]
    ensures var b := lru[k];
            && t1[b].next <= NBUF && t1[b].prev <= NBUF && Unlink(t1, b)[HEAD].next <= NBUF
            && SameButLinks(t1, PushFront(Unlink(t1, b), b))
            && Ok(PushFront(Unlink(t1, b), b), Moved(lru, k), idle[b := now + 1], now + 1)
  {
    var b := lru[k];
    forall j: nat | j <= |lru| ensures Hop(t1, lru, j) { assert Hop(t, lru, j); }
    UnlinkOk(t1, lru, k);
    PushFrontOk(Unlink(t1, b), lru[..k] + lru[k + 1..], b);
    MoveSame(t1, b);
    var t2 := PushFront(Unlink(t1, b), b);
    MovedListOk(t, t2, lru, idle, now, k);
    assert forall i: nat, d: nat, n: nat :: i < NBUF ==> Holds(t2, i, d, n) == Holds(t, i, d, n);
  }

  class Bcache {
    var buf: Table
    var disk: seq<Block>
    ghost var writes: seq<Write>  // every block write so far
    ghost var lru: seq<nat>
    ghost var idle: seq<nat>      // when each buffer was last released by its last user
    ghost var now: nat
    ghost var pins: seq<nat>      // bpin calls not yet undone, per buffer
    var waiting: seq<nat>         // how many processes are between bget and the buffer's lock
    ghost const boot: seq<Block>  // the disk at the start

    ghost predicate Valid()
      reads this
    {
      && Ok(buf, lru, idle, now) && RefsOk(buf, pins, waiting)
      && disk == DoAll(boot, writes)
    }

    /** binit on a machine with the given disk. */
    constructor (d: seq<Block>)
      ensures Valid() && disk == d && writes == []
      ensures forall b: nat :: b < NBUF ==> buf[b].dev == 0 && buf[b].refcnt == 0 && !buf[b].locked && !buf[b].valid
      ensures forall b: nat :: b < NBUF ==> pins[b] == waiting[b] == 0
    {
      var zero: Block := seq(1024, _ => 0);
      var t: Table := seq(31, _ => Buf(false, 0, 0, false, 0, HEAD, HEAD, zero));
      ghost var l: seq<nat> := [];
      var b := 0;
      while b < NBUF
        invariant 0 <= b <= NBUF && |l| == b && Linked(t, l)
        invariant forall i :: 0 <= i < b ==> l[i] == b - 1 - i
        invariant forall i: nat :: i < NBUF ==>
                    t[i].dev == 0 && t[i].refcnt == 0 && !t[i].locked && !t[i].valid
      {
        PushFrontOk(t, l, b);
        ghost var t0 := t;
        t := t[b := t[b].(next := t[HEAD].next)];
        t := t[b := t[b].(prev := HEAD)];
        var n := t[HEAD].next;
        t := t[n := t[n].(prev := b)];
        t := t[HEAD := t[HEAD].(next := b)];
        assert t == PushFront(t0, b);
        l := [b] + l;
        b := b + 1;
      }
      buf, disk, writes := t, d, [];
      lru, idle, now, boot := l, seq(NBUF, _ => 0), 0, d;
      pins, waiting := seq(NBUF, _ => 0), seq(NBUF, _ => 0);
      forall i: nat | i < NBUF ensures i in l { assert l[NBUF - 1 - i] == i; }
    }

    /** First scan of bget: from the most recently used end, the buffer of this block, or HEAD. */
    method Lookup(dev: nat, bno: nat) returns (b: nat)
      requires Valid()
      ensures b < NBUF ==> Holds(buf, b, dev, bno)
      ensures b >= NBUF ==> b == HEAD && !Cached(buf, dev, bno)
    {
      b := buf[HEAD].next;
      ghost var k := 1;
      assert Hop(buf, lru, 0);
      while b != HEAD && !(buf[b].dev == dev && buf[b].blockno == bno)
        invariant 1 <= k <= NBUF + 1 && b == At(lru, k)
        invariant forall j :: 0 <= j < k - 1 ==> !Holds(buf, lru[j], dev, bno)
        decreases NBUF + 1 - k
      {
        assert Hop(buf, lru, k);
        b := buf[b].next;
        k := k + 1;
      }
      if b == HEAD {
        forall c: nat | c < NBUF ensures !Holds(buf, c, dev, bno) { assert c in lru; }
      }
    }

    /** Second scan of bget: from the least recently used end, an unreferenced buffer, or HEAD. */
    method Victim() returns (b: nat)
      requires Valid()
      ensures b < NBUF ==> buf[b].refcnt == 0
                           && forall c: nat :: c < NBUF && buf[c].refcnt == 0 ==> idle[b] <= idle[c]
      ensures b >= NBUF ==> b == HEAD && forall c: nat :: c < NBUF ==> buf[c].refcnt > 0
    {
      b := buf[HEAD].prev;
      ghost var k := NBUF;
      assert Hop(buf, lru, NBUF);
      while b != HEAD && buf[b].refcnt != 0
        invariant 0 <= k <= NBUF && b == At(lru, k)
        invariant forall j :: k <= j < NBUF ==> buf[lru[j]].refcnt > 0
        decreases k
      {
        assert Hop(buf, lru, k - 1);
        b := buf[b].prev;
        k := k - 1;
      }
      forall c: nat | c < NBUF
        ensures if b == HEAD then buf[c].refcnt > 0 else buf[c].refcnt == 0 ==> idle[b] <= idle[c]
      {
        assert c in lru;
        var i :| 0 <= i < |lru| && lru[i] == c;
        assert b != HEAD ==> lru[k - 1] == b;
      }
    }

    /** bget up to the wait for the buffer's lock. */
    method Bget(dev: nat, bno: nat) returns (r: Got)
      requires Valid() && dev != 0
      modifies this`buf, this`waiting
      ensures Valid() && !r.Wait?
      ensures r.Buffer? ==> r.b < NBUF && waiting == old(waiting)[r.b := old(waiting)[r.b] + 1]
      ensures r.Buffer? ==> r.b < NBUF && Obtained(old(buf), r.b, dev, bno)
                            && buf == old(buf)[r.b := Taken(old(buf)[r.b], dev, bno)]
      ensures r.Buffer? && !old(Cached(buf, dev, bno)) ==>
                forall c: nat :: c < NBUF && old(buf)[c].refcnt == 0 ==> idle[r.b] <= idle[c]
      ensures r.Panic? <==> !old(Cached(buf, dev, bno)) && forall c: nat :: c < NBUF ==> old(buf)[c].refcnt > 0
      ensures r.Panic? ==> buf == old(buf) && waiting == old(waiting)
    {
      var b := Lookup(dev, bno);
      if b != HEAD {
        HitOk(buf, lru, idle, now, b);
        buf := buf[b := buf[b].(refcnt := buf[b].refcnt + 1)];
        waiting := waiting[b := waiting[b] + 1];
        return Buffer(b);
      }
      b := Victim();
      if b != HEAD {
        RecycleOk(buf, lru, idle, now, b, dev, bno);
        assert !Holds(buf, b, dev, bno);
        buf := buf[b := buf[b].(dev := dev, blockno := bno, valid := false, refcnt := 1)];
        waiting := waiting[b := waiting[b] + 1];
        return Buffer(b);
      }
      return Panic;
    }

    /** The rest of bread, for the process that got the buffer: lock it and fill it. */
    method Fill(b: nat)
      requires Valid() && b < NBUF && !buf[b].locked && waiting[b] > 0 && buf[b].blockno < |disk|
      modifies this`buf, this`waiting
      ensures Valid() && buf == old(buf)[b := Filled(old(buf)[b], disk)]
      ensures waiting == old(waiting)[b := old(waiting)[b] - 1]
    {
      waiting := waiting[b := waiting[b] - 1];
      ghost var t := buf;
      buf := buf[b := buf[b].(locked := true)];
      if !buf[b].valid {
        buf := buf[b := buf[b].(data := disk[buf[b].blockno])];
        buf := buf[b := buf[b].(valid := true)];
      }
      RefsKept(t, buf, lru, idle, now);
    }

    /** bread: the buffer comes back locked and filled. */
    method Bread(dev: nat, bno: nat) returns (r: Got)
      requires Valid() && dev != 0 && bno < |disk|
      modifies this`buf, this`waiting
      ensures Valid()
      ensures r.Buffer? ==> waiting == old(waiting)
      ensures r.Buffer? ==> r.b < NBUF && Obtained(old(buf), r.b, dev, bno) && !old(buf)[r.b].locked
                            && buf == old(buf)[r.b := Filled(Taken(old(buf)[r.b], dev, bno), disk)]
      ensures r.Panic? <==> !old(Cached(buf, dev, bno)) && forall c: nat :: c < NBUF ==> old(buf)[c].refcnt > 0
      ensures r.Panic? ==> buf == old(buf) && waiting == old(waiting)
      ensures r.Wait? ==> && r.b < NBUF && old(buf)[r.b].locked && Holds(old(buf), r.b, dev, bno)
                          && buf == old(buf)[r.b := Taken(old(buf)[r.b], dev, bno)]
                          && waiting == old(waiting)[r.b := old(waiting)[r.b] + 1]
    {
      r := Bget(dev, bno);
      if r.Panic? { return; }
      if buf[r.b].locked { return Wait(r.b); }
      Fill(r.b);
    }

    /** bwrite: write the buffer's data to its block; false when it panics. */
    method Bwrite(b: nat) returns (ok: bool)
      requires Valid() && b < NBUF && buf[b].blockno < |disk|
      modifies this`disk, this`writes
      ensures Valid() && (ok <==> buf[b].locked)
      ensures ok ==> && disk == old(disk)[buf[b].blockno := buf[b].data]
                     && writes == old(writes) + [Write(buf[b].blockno, buf[b].data)]
      ensures !ok ==> disk == old(disk) && writes == old(writes)
    {
      ok := buf[b].locked;
      if !ok { return; }
      disk := disk[buf[b].blockno := buf[b].data];
      assert (writes + [Write(buf[b].blockno, buf[b].data)])[..|writes|] == writes;
      writes := writes + [Write(buf[b].blockno, buf[b].data)];
    }

    /** The holder of a locked buffer changes its contents. */
    method Modify(b: nat, data: Block)
      requires Valid() && b < NBUF && buf[b].locked
      modifies this`buf
      ensures Valid() && buf == old(buf)[b := old(buf)[b].(data := data)]
    {
      RefsKept(buf, buf[b := buf[b].(data := data)], lru, idle, now);
      buf := buf[b := buf[b].(data := data)];
    }

    method Bpin(b: nat)
      requires Valid() && b < NBUF
      modifies this`buf, this`pins
      ensures Valid() && buf == old(buf)[b := old(buf)[b].(refcnt := old(buf)[b].refcnt + 1)]
      ensures pins == old(pins)[b := old(pins)[b] + 1]
    {
      pins := pins[b := pins[b] + 1];
      HitOk(buf, lru, idle, now, b);
      buf := buf[b := buf[b].(refcnt := buf[b].refcnt + 1)];
    }

    /** bunpin, called as install_trans does while it also holds the buffer. */
    method Bunpin(b: nat)
      requires Valid() && b < NBUF && buf[b].locked && pins[b] > 0
      modifies this`buf, this`pins
      ensures Valid() && buf == old(buf)[b := old(buf)[b].(refcnt := old(buf)[b].refcnt - 1)]
      ensures pins == old(pins)[b := old(pins)[b] - 1]
    {
      pins := pins[b := pins[b] - 1];
      RefsKept(buf, buf[b := buf[b].(refcnt := buf[b].refcnt - 1)], lru, idle, now);
      buf := buf[b := buf[b].(refcnt := buf[b].refcnt - 1)];
    }

    /** The first two link writes of the move to the front. */
    method Detach(b: nat)
      requires b < NBUF && buf[b].next <= NBUF && buf[b].prev <= NBUF
      modifies this`buf
      ensures buf == Unlink(old(buf), b)
    {
      var n, p := buf[b].next, buf[b].prev;
      buf := buf[n := buf[n].(prev := p)];
      buf := buf[p := buf[p].(next := n)];
    }

    /** The other four. */
    method Attach(b: nat)
      requires b < NBUF && buf[HEAD].next <= NBUF
      modifies this`buf
      ensures buf == PushFront(old(buf), b)
    {
      buf := buf[b := buf[b].(next := buf[HEAD].next)];
      buf := buf[b := buf[b].(prev := HEAD)];
      var n := buf[HEAD].next;
      buf := buf[n := buf[n].(prev := b)];
      buf := buf[HEAD := buf[HEAD].(next := b)];
    }

    /** The list surgery of brelse. */
    method MoveToFront(b: nat)
      requires b < NBUF && buf[b].next <= NBUF && buf[b].prev <= NBUF && Unlink(buf, b)[HEAD].next <= NBUF
      modifies this`buf
      ensures buf == PushFront(Unlink(old(buf), b), b)
    {
      Detach(b);
      Attach(b);
    }

    /** b, just released by its last user in the state t, goes to the front of the list. */
    method Retire(b: nat, ghost t: Table)
      requires Ok(t, lru, idle, now) && b < NBUF
      requires buf == t[b := t[b].(locked := false, refcnt := 0)]
      modifies this`buf, this`lru, this`idle, this`now
      ensures Ok(buf, lru, idle, now) && SameButLinks(old(buf), buf)
      ensures buf[HEAD].next == b
    {
      assert b in lru;
      ghost var k: nat :| k < |lru| && lru[k] == b;
      ReleaseOk(t, buf, lru, idle, now, k);
      MoveToFront(b);
      lru, idle, now := Moved(lru, k), idle[b := now + 1], now + 1;
    }

    /** brelse: give up the lock and the reference; the last user moves it to the front.  False
        when it panics. */
    method Brelse(b: nat) returns (ok: bool)
      requires Valid() && b < NBUF
      modifies this`buf, this`lru, this`idle, this`now
      ensures Valid() && (ok <==> old(buf)[b].locked)
      ensures ok ==> SameButLinks(Released(old(buf), b), buf) && (buf[b].refcnt == 0 ==> buf[HEAD].next == b)
      ensures !ok ==> buf == old(buf)
    {
      ok := buf[b].locked;
      if !ok { return; }
      ghost var t := buf;
      buf := buf[b := buf[b].(locked := false)];
      buf := buf[b := buf[b].(refcnt := buf[b].refcnt - 1)];
      if buf[b].refcnt == 0 {
        Retire(b, t);
      } else {
        RefsKept(t, buf, lru, idle, now);
      }
    }
  }
}
