/** A run that fills the log, and what the last log_write and the last end_op then do. */
module LogFull {
  import opened Blocks
  import opened BufList
  import opened BufCache
  import opened LogCache
  import opened LogSpec
  import opened LogImpl

  /** Blocks operation o may still log after n of 30 blocks, ten for each operation in turn. */
  function Remaining(o: nat, n: nat): nat {
    if n <= 10 * o then 10 else if n < 10 * o + 10 then 10 * o + 10 - n else 0
  }

  /** Three operations have logged the n blocks from `first` on, and nobody holds a buffer. */
  ghost predicate Filled(log: Log, first: nat, n: nat)
    reads log, log.bc
  {
    && log.Valid() && log.QuietBut({}) && log.outstanding == 3 && log.dirty == {}
    && |log.lh| == n && (forall i :: 0 <= i < n ==> log.lh[i] == first + i)
    && log.left.Keys == {0, 1, 2} && forall o <- log.left.Keys :: log.left[o] == Remaining(o, n)
  }

  /** Thirty home blocks from `first` on. */
  predicate Room(L: Layout, first: nat) {
    L.start + LOGBLOCKS < first && first + LOGBLOCKS <= L.size
  }

  /** bread on a quiet system: neither panic nor wait, while there is room in the log or the block
      is logged already. */
  method ReadQuiet(log: Log, n: nat) returns (b: nat)
    requires log.Valid() && log.QuietBut({}) && n < log.L.size && (|log.lh| < LOGBLOCKS || n in log.lh)
    modifies log.bc`buf, log.bc`waiting
    ensures log.Valid() && b < NBUF && log.QuietBut({b}) && b !in log.dirty
    ensures Holds(log.bc.buf, b, log.dev, n) && log.bc.buf[b].locked && log.bc.buf[b].valid
  {
    hide Coherent, Ok, DoAll, Heads, HeadCount, Consistent, Filled;
    log.SpareIffRoom();
    if n in log.lh {
      ghost var i: nat :| i < |log.lh| && log.lh[i] == n;
      log.LoggedIsCached(i);
    }
    var r := log.Read(n);
    b := r.b;
  }

  /** A change of the held buffer, log_write and brelse; false when log_write panics. */
  method WriteQuiet(log: Log, b: nat, op: nat, data: Block) returns (ok: bool)
    requires log.Valid() && b < NBUF && log.QuietBut({b}) && op in log.left && log.dirty == {}
    requires log.bc.buf[b].locked && log.bc.buf[b].valid && log.bc.buf[b].dev == log.dev
    requires log.L.Home(log.bc.buf[b].blockno)
    requires log.bc.buf[b].blockno !in log.lh ==> log.left[op] > 0
    modifies log.bc`buf, log.bc`pins, log.bc`lru, log.bc`idle, log.bc`now
    modifies log`lh, log`live, log`logical, log`dirty, log`left
    ensures ok <==> |old(log.lh)| < LOGBLOCKS
    ensures ok ==> log.Valid() && log.QuietBut({}) && log.dirty == {}
    ensures !ok ==> log.lh == old(log.lh)
    ensures ok ==> var n := old(log.bc.buf)[b].blockno;
                   if n in old(log.lh) then log.lh == old(log.lh) && log.left == old(log.left)
                   else log.lh == old(log.lh) + [n] && log.left == old(log.left)[op := old(log.left)[op] - 1]
  {
    hide Coherent, Ok, DoAll, Heads, HeadCount, Consistent, Filled;
    log.Store(b, data);
    ok := log.LogWrite(b, op);
    if ok { log.Release(b); }
  }

  lemma RemainingStep(n: nat, o: nat)
    requires n < LOGBLOCKS
    ensures n / 10 < 3 && Remaining(n / 10, n) > 0
    ensures o <= 2 ==> Remaining(o, n + 1) == if o == n / 10 then Remaining(o, n) - 1 else Remaining(o, n)
  {
  }

  /** bread, a change, log_write and brelse of the next block. */
  method LogNext(log: Log, first: nat, n: nat, data: Block)
    requires Filled(log, first, n) && n < LOGBLOCKS && Room(log.L, first)
    modifies log, log.bc`buf, log.bc`waiting, log.bc`pins, log.bc`lru, log.bc`idle, log.bc`now
    ensures Filled(log, first, n + 1)
  {
    hide Coherent, Ok, DoAll, Heads, HeadCount, Consistent, Remaining, Log.Ready, Log.Admitted;
    forall o: nat | o <= 2
      ensures Remaining(o, n + 1) == if o == n / 10 then Remaining(o, n) - 1 else Remaining(o, n)
    {
      RemainingStep(n, o);
    }
    RemainingStep(n, 0);
    var b := ReadQuiet(log, first + n);
    var ok := WriteQuiet(log, b, n / 10, data);
  }

  /** Three begin_ops are admitted at once by an empty log. */
  method BeginThree(log: Log, first: nat)
    requires log.Valid() && log.QuietBut({}) && log.lh == [] && log.outstanding == 0
    modifies log`outstanding, log`left
    ensures Filled(log, first, 0)
  {
    hide Coherent, Ok, DoAll, Heads, HeadCount, Consistent, Log.Ready;
    assert log.left.Keys == {};
    var o := log.BeginOp(0);
    o := log.BeginOp(1);
    o := log.BeginOp(2);
  }

  /** From a quiet system with an empty log, three operations fill the log. */
  method FillLog(log: Log, first: nat, data: Block)
    requires log.Valid() && log.QuietBut({}) && log.lh == [] && log.outstanding == 0 && Room(log.L, first)
    modifies log, log.bc`buf, log.bc`waiting, log.bc`pins, log.bc`lru, log.bc`idle, log.bc`now
    ensures Filled(log, first, LOGBLOCKS)
  {
    BeginThree(log, first);
    hide Filled;
    var n := 0;
    while n < LOGBLOCKS
      invariant 0 <= n <= LOGBLOCKS && Filled(log, first, n)
    {
      LogNext(log, first, n, data);
      n := n + 1;
    }
  }

  /** A log_write of a block that is logged already is refused once the log is full. */
  method AbsorbRefused(log: Log, first: nat, data: Block) returns (ok: bool)
    requires log.Valid() && log.QuietBut({}) && log.lh == [] && log.outstanding == 0 && Room(log.L, first)
    modifies log, log.bc
    ensures first in log.lh && !ok
  {
    hide Coherent, Ok, DoAll, Heads, HeadCount, Consistent;
    FillLog(log, first, data);
    assert log.lh[0] == first;
    var b := ReadQuiet(log, first);
    ok := WriteQuiet(log, b, 2, data);
  }

  /** The end_op that should commit a full log panics in its first bread. */
  method FullCommitFails(log: Log, first: nat, data: Block) returns (ok: bool, ghost k: nat)
    requires log.Valid() && log.QuietBut({}) && log.lh == [] && log.outstanding == 0 && Room(log.L, first)
    modifies log, log.bc
    ensures !ok && log.bc.writes == old(log.bc.writes)
  {
    hide Coherent, Ok, DoAll, Heads, HeadCount, Consistent, Log.Ready, Log.Admitted, CommitWrites;
    FillLog(log, first, data);
    ok, k := log.EndOp(0, _ => []);
    ok, k := log.EndOp(1, _ => []);
    ok, k := log.EndOp(2, _ => []);
  }

  /** Such a system exists: it is what recovery on a freshly started machine leaves. */
  method Boot(d: seq<Block>, L: Layout, dev: nat) returns (log: Log)
    requires L.Ok() && |d| == L.size && dev != 0 && Consistent(d, L)
    ensures fresh(log) && fresh(log.bc) && log.L == L
    ensures log.Valid() && log.QuietBut({}) && log.lh == [] && log.outstanding == 0
  {
    hide Coherent, Ok, DoAll, Heads, HeadCount, Consistent;
    var bc := new Bcache(d);
    log := new Log(bc, L, dev);
    assert log.Spare() by { assert bc.buf[0].refcnt == 0; }
    ghost var k;
    var ok;
    ok, k := log.Recover();
  }
}
