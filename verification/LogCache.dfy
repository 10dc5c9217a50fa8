/** Agreement between the buffer cache, the disk and the blocks as the file system sees them.

    `logical` gives every block the content its users expect; `live` lists the blocks that
    are logged and not yet written home; `dirty` are the locked buffers that their holder
    has changed and not yet passed to log_write. */
module LogCache {
  import opened Blocks
  import opened BufList
  import opened BufCache

  predicate Live(t: Table, b: nat, live: seq<nat>, dev: nat)
    requires b < NBUF
  {
    t[b].dev == dev && t[b].blockno in live
  }

  predicate Coherent(t: Table, pins: seq<nat>, disk: seq<Block>, logical: seq<Block>,
                     live: seq<nat>, dirty: set<nat>, dev: nat)
  {
    && dev != 0 && |disk| == |logical| && |pins| == NBUF
    && (forall b: nat :: b < NBUF ==> t[b].dev == 0 || (t[b].dev == dev && t[b].blockno < |disk|))
    && (forall b: nat :: b < NBUF && t[b].dev == dev && t[b].valid && b !in dirty ==>
          t[b].data == logical[t[b].blockno])
    && (forall n: nat :: n < |disk| && n !in live ==> disk[n] == logical[n])
    && (forall i :: 0 <= i < |live| ==> live[i] < |disk| && Cached(t, dev, live[i]))
    && (forall b: nat :: b < NBUF ==> pins[b] == if Live(t, b, live, dev) then 1 else 0)
    && (forall b: nat :: b < NBUF && Live(t, b, live, dev) ==> t[b].valid)
    && (forall b <- dirty :: b < NBUF && t[b].locked && t[b].dev == dev)
  }

  /** Two tables with the same identities. */
  predicate SameIds(t: Table, t': Table) {
    forall b: nat :: b < NBUF ==> t'[b].dev == t[b].dev && t'[b].blockno == t[b].blockno
  }

  lemma CachedKept(t: Table, t': Table, dev: nat, n: nat)
    requires Cached(t, dev, n) && SameIds(t, t')
    ensures Cached(t', dev, n)
  {
    var b: nat :| b < NBUF && Holds(t, b, dev, n);
    assert Holds(t', b, dev, n);
  }

  /** A step that changes neither identities nor contents keeps the agreement. */
  lemma StepOk(t: Table, t': Table, pins: seq<nat>, disk: seq<Block>, logical: seq<Block>, live: seq<nat>,
               dirty: set<nat>, dev: nat)
    requires Coherent(t, pins, disk, logical, live, dirty, dev) && SameIds(t, t')
    requires forall b: nat :: b < NBUF ==> t'[b].valid == t[b].valid && t'[b].data == t[b].data
    requires forall b <- dirty :: t'[b].locked
    ensures Coherent(t', pins, disk, logical, live, dirty, dev)
  {
    forall i | 0 <= i < |live| ensures Cached(t', dev, live[i]) { CachedKept(t, t', dev, live[i]); }
    assert forall b: nat :: b < NBUF ==> Live(t', b, live, dev) == Live(t, b, live, dev);
  }

  /** bget hands out a buffer whose content, once filled, is the logical block. */
  lemma TakeOk(t: Table, pins: seq<nat>, disk: seq<Block>, logical: seq<Block>, live: seq<nat>, dirty: set<nat>,
               dev: nat, waiting: seq<nat>, b: nat, n: nat)
    requires Coherent(t, pins, disk, logical, live, dirty, dev) && RefsOk(t, pins, waiting)
    requires b < NBUF && n < |disk| && Obtained(t, b, dev, n)
    ensures Coherent(t[b := Taken(t[b], dev, n)], pins, disk, logical, live, dirty, dev)
    ensures !Holds(t, b, dev, n) ==> n !in live && b !in dirty && !Live(t, b, live, dev)
  {
    var t' := t[b := Taken(t[b], dev, n)];
    if Holds(t, b, dev, n) {
      StepOk(t, t', pins, disk, logical, live, dirty, dev);
    } else {
      assert pins[b] == 0 && !Live(t, b, live, dev);
      forall i | 0 <= i < |live| ensures Cached(t', dev, live[i]) && live[i] != n {
        assert Cached(t, dev, live[i]);
        var c: nat :| c < NBUF && Holds(t, c, dev, live[i]);
        assert Live(t, c, live, dev);
        assert Holds(t', c, dev, live[i]);
      }
      assert forall c: nat :: c < NBUF ==> Live(t', c, live, dev) == Live(t, c, live, dev);
    }
  }

  lemma FillOk(t: Table, pins: seq<nat>, disk: seq<Block>, logical: seq<Block>, live: seq<nat>, dirty: set<nat>,
               dev: nat, b: nat)
    requires Coherent(t, pins, disk, logical, live, dirty, dev)
    requires b < NBUF && !t[b].locked && t[b].dev == dev
    ensures Coherent(t[b := Filled(t[b], disk)], pins, disk, logical, live, dirty, dev)
    ensures Filled(t[b], disk).data == logical[t[b].blockno] && b !in dirty
  {
    var t' := t[b := Filled(t[b], disk)];
    assert !t[b].valid ==> !Live(t, b, live, dev) && t[b].blockno !in live;
    forall i | 0 <= i < |live| ensures Cached(t', dev, live[i]) { CachedKept(t, t', dev, live[i]); }
    assert forall c: nat :: c < NBUF ==> Live(t', c, live, dev) == Live(t, c, live, dev);
  }

  /** bread as a whole: whatever buffer it returns holds the logical block. */
  lemma ReadOk(t: Table, pins: seq<nat>, disk: seq<Block>, logical: seq<Block>, live: seq<nat>, dirty: set<nat>,
               dev: nat, waiting: seq<nat>, b: nat, n: nat)
    requires Coherent(t, pins, disk, logical, live, dirty, dev) && RefsOk(t, pins, waiting)
    requires b < NBUF && n < |disk| && Obtained(t, b, dev, n) && !t[b].locked
    ensures Coherent(t[b := Filled(Taken(t[b], dev, n), disk)], pins, disk, logical, live, dirty, dev)
    ensures Filled(Taken(t[b], dev, n), disk).data == logical[n] && b !in dirty
  {
    var u := t[b := Taken(t[b], dev, n)];
    TakeOk(t, pins, disk, logical, live, dirty, dev, waiting, b, n);
    FillOk(u, pins, disk, logical, live, dirty, dev, b);
    assert u[b := Filled(u[b], disk)] == t[b := Filled(Taken(t[b], dev, n), disk)];
  }

  /** The holder changes the data: the buffer is dirty until logged or written. */
  lemma ModifyOk(t: Table, pins: seq<nat>, disk: seq<Block>, logical: seq<Block>, live: seq<nat>, dirty: set<nat>,
                 dev: nat, b: nat, data: Block)
    requires Coherent(t, pins, disk, logical, live, dirty, dev)
    requires b < NBUF && t[b].locked && t[b].dev == dev
    ensures Coherent(t[b := t[b].(data := data)], pins, disk, logical, live, dirty + {b}, dev)
  {
    var t' := t[b := t[b].(data := data)];
    forall i | 0 <= i < |live| ensures Cached(t', dev, live[i]) { CachedKept(t, t', dev, live[i]); }
    assert forall c: nat :: c < NBUF ==> Live(t', c, live, dev) == Live(t, c, live, dev);
  }

  lemma OnlyBuffer(t: Table, dev: nat, b: nat)
    requires Unique(t) && b < NBUF && t[b].dev == dev != 0
    ensures forall c: nat :: c < NBUF && c != b && t[c].dev == dev ==> t[c].blockno != t[b].blockno
  {
    forall c: nat | c < NBUF && c != b && t[c].dev == dev ensures t[c].blockno != t[b].blockno {
      assert !Holds(t, c, dev, t[b].blockno);
    }
  }

  /** A direct write of a block that is not live (log area, or recovery). */
  lemma WriteThroughOk(t: Table, pins: seq<nat>, disk: seq<Block>, logical: seq<Block>, live: seq<nat>, dirty: set<nat>,
                       dev: nat, b: nat)
    requires Coherent(t, pins, disk, logical, live, dirty, dev) && Unique(t)
    requires b < NBUF && t[b].dev == dev && t[b].blockno !in live
    ensures var n := t[b].blockno;
            Coherent(t, pins, disk[n := t[b].data], logical[n := t[b].data], live, dirty - {b}, dev)
  {
    OnlyBuffer(t, dev, b);
  }

  /** log_write of a block that is already logged. */
  lemma AbsorbOk(t: Table, pins: seq<nat>, disk: seq<Block>, logical: seq<Block>, live: seq<nat>, dirty: set<nat>,
                 dev: nat, b: nat)
    requires Coherent(t, pins, disk, logical, live, dirty, dev) && Unique(t)
    requires b < NBUF && t[b].dev == dev && t[b].blockno in live
    ensures Coherent(t, pins, disk, logical[t[b].blockno := t[b].data], live, dirty - {b}, dev)
  {
  }

  /** log_write of a new block: the buffer is pinned. */
  lemma AppendOk(t: Table, pins: seq<nat>, disk: seq<Block>, logical: seq<Block>, live: seq<nat>, dirty: set<nat>,
                 dev: nat, b: nat)
    requires Coherent(t, pins, disk, logical, live, dirty, dev) && Unique(t)
    requires b < NBUF && t[b].dev == dev && t[b].valid && t[b].locked && t[b].blockno !in live
    ensures pins[b] == 0
    ensures var n := t[b].blockno;
            Coherent(t[b := t[b].(refcnt := t[b].refcnt + 1)], pins[b := 1], disk, logical[n := t[b].data],
                     live + [n], dirty - {b}, dev)
  {
    var (n, t') := (t[b].blockno, t[b := t[b].(refcnt := t[b].refcnt + 1)]);
    var live' := live + [n];
    assert !Live(t, b, live, dev);
    forall c: nat | c < NBUF ensures Live(t', c, live', dev) == (Live(t, c, live, dev) || c == b) {
      assert c != b ==> !Holds(t, c, dev, n);
    }
    forall i | 0 <= i < |live'| ensures Cached(t', dev, live'[i]) {
      if i < |live| { CachedKept(t, t', dev, live[i]); } else { assert Holds(t', b, dev, n); }
    }
    OnlyBuffer(t, dev, b);
    assert forall m: nat :: m !in live' ==> m !in live && m != n;
  }

  /** install_trans writes a live block home and unpins it. */
  lemma InstallOk(t: Table, pins: seq<nat>, disk: seq<Block>, logical: seq<Block>, live: seq<nat>, dirty: set<nat>,
                  dev: nat, b: nat)
    requires Coherent(t, pins, disk, logical, live, dirty, dev) && Unique(t)
    requires live != [] && forall i :: 0 < i < |live| ==> live[i] != live[0]
    requires b < NBUF && t[b].dev == dev && t[b].blockno == live[0] && t[b].data == logical[live[0]] && t[b].refcnt > 0
    ensures pins[b] == 1
    ensures Coherent(t[b := t[b].(refcnt := t[b].refcnt - 1)], pins[b := 0], disk[live[0] := t[b].data], logical,
                     live[1..], dirty, dev)
  {
    var t' := t[b := t[b].(refcnt := t[b].refcnt - 1)];
    assert Live(t, b, live, dev);
    assert forall m :: m in live <==> m == live[0] || m in live[1..];
    assert live[0] !in live[1..];
    forall c: nat | c < NBUF ensures Live(t', c, live[1..], dev) == (Live(t, c, live, dev) && c != b) {
      assert c != b ==> !Holds(t, c, dev, live[0]);
    }
    forall i | 0 <= i < |live[1..]| ensures Cached(t', dev, live[1..][i]) {
      assert Cached(t, dev, live[i + 1]);
      CachedKept(t, t', dev, live[i + 1]);
    }
  }

  /** A buffer whose contents are the logical block again is not dirty. */
  lemma CleanOk(t: Table, pins: seq<nat>, disk: seq<Block>, logical: seq<Block>, live: seq<nat>, dirty: set<nat>,
                dev: nat, b: nat)
    requires Coherent(t, pins, disk, logical, live, dirty, dev)
    requires b < NBUF && t[b].dev == dev && t[b].data == logical[t[b].blockno]
    ensures Coherent(t, pins, disk, logical, live, dirty - {b}, dev)
  {
  }

  /** Commit's home write of the first live block, whose buffer holds its logical contents. */
  lemma HomeOk(t: Table, pins: seq<nat>, disk: seq<Block>, logical: seq<Block>, live: seq<nat>, dirty: set<nat>,
               dev: nat, b: nat)
    requires Coherent(t, pins, disk, logical, live, dirty, dev) && Unique(t)
    requires live != [] && forall i :: 0 < i < |live| ==> live[i] != live[0]
    requires b < NBUF && Holds(t, b, dev, live[0]) && t[b].data == logical[live[0]] && t[b].refcnt > 0
    ensures pins[b] == 1 && live[0] < |disk|
    ensures Coherent(t[b := t[b].(refcnt := t[b].refcnt - 1)], pins[b := 0], disk[live[0] := t[b].data],
                     logical, live[1..], dirty - {b}, dev)
  {
    CleanOk(t, pins, disk, logical, live, dirty, dev, b);
    InstallOk(t, pins, disk, logical, live, dirty - {b}, dev, b);
  }
}
