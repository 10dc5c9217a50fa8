/** The process table as mark_runnable, dispatch and the clock see it: arrival order (FCFS) and
    the accounting of time spent RUNNABLE in wrapping 32-bit ticks. */
module SchedTable {
  import opened Common
  import opened SchedPick

  datatype Entry = Entry(p: Proc, readyTick: nat, waitTotal: nat, waitMax: nat)

  // ----- intervals

  function Sum(s: seq<nat>): nat {
    if s == [] then 0 else Sum(s[..|s| - 1]) + s[|s| - 1]
  }

  /** What the 32-bit subtraction makes of each interval. */
  function Seen(s: seq<nat>): seq<nat> {
    if s == [] then [] else Seen(s[..|s| - 1]) + [s[|s| - 1] % TWO32]
  }

  function Max(s: seq<nat>): nat {
    if s == [] then 0 else var m := Max(s[..|s| - 1]); if s[|s| - 1] > m then s[|s| - 1] else m
  }

  predicate AllShort(s: seq<nat>) { forall i :: 0 <= i < |s| ==> s[i] < TWO32 }

  /** Accounting is exact if every interval is shorter than 2^32 ticks, and short otherwise. */
  lemma {:induction false} SeenSum(s: seq<nat>)
    ensures Sum(Seen(s)) <= Sum(s)
    ensures Sum(Seen(s)) == Sum(s) <==> AllShort(s)
  {
    if s != [] {
      var (t, x) := (s[..|s| - 1], s[|s| - 1]);
      SeenSum(t);
      assert Seen(s)[..|Seen(s)| - 1] == Seen(t);
      assert AllShort(s) <==> AllShort(t) && x < TWO32;
    }
  }

  lemma SumSnoc(s: seq<nat>, x: nat)
    ensures Sum(s + [x]) == Sum(s) + x && Seen(s + [x]) == Seen(s) + [x % TWO32]
    ensures Max(s + [x]) == if x > Max(s) then x else Max(s)
  {
  }

  /** The largest of the intervals, as 32-bit subtraction sees them; 0 if there are none. */
  lemma {:induction false} MaxIs(s: seq<nat>)
    ensures forall k :: 0 <= k < |s| ==> s[k] % TWO32 <= Max(Seen(s))
    ensures if s == [] then Max(Seen(s)) == 0 else exists k :: 0 <= k < |s| && s[k] % TWO32 == Max(Seen(s))
  {
    if s != [] {
      var (t, x) := (s[..|s| - 1], s[|s| - 1]);
      MaxIs(t);
      SumSnoc(Seen(t), x % TWO32);
      if t != [] && Max(Seen(s)) == Max(Seen(t)) {
        var k :| 0 <= k < |t| && t[k] % TWO32 == Max(Seen(t));
        assert s[k] % TWO32 == Max(Seen(s));
      }
    }
  }

  lemma WrapSub(now: nat, ready: nat)
    requires ready <= now
    ensures (now % TWO32 - ready % TWO32) % TWO32 == (now - ready) % TWO32
  {
  }

  // ----- arrival order

  /** queue lists the runnable slots in order of arrival. */
  predicate Queued(es: seq<Entry>, queue: seq<nat>) {
    && (forall i :: 0 <= i < |queue| ==> queue[i] < |es| && IsRunnable(es[queue[i]].p))
    && (forall i :: 0 <= i < |es| && IsRunnable(es[i].p) ==> i in queue)
    && (forall i, j :: 0 <= i < j < |queue| ==>
          queue[i] < |es| && queue[j] < |es| && es[queue[i]].p.seqno < es[queue[j]].p.seqno)
  }

  function Procs(es: seq<Entry>): seq<Proc> {
    seq(|es|, i requires 0 <= i < |es| => es[i].p)
  }

  /** The runnable process with the smallest sequence number, the first of them on a tie. */
  predicate Earliest(procs: seq<Proc>, r: int) {
    if r == -1 then forall j :: 0 <= j < |procs| ==> !IsRunnable(procs[j])
    else && 0 <= r < |procs| && IsRunnable(procs[r])
         && (forall j :: 0 <= j < |procs| && IsRunnable(procs[j]) ==> procs[r].seqno <= procs[j].seqno)
         && (forall j :: 0 <= j < r && IsRunnable(procs[j]) ==> procs[r].seqno < procs[j].seqno)
  }

  /** FCFS::pick_next. */
  method FcfsPick(procs: seq<Proc>) returns (r: int)
    ensures Earliest(procs, r)
  {
    r := -1;
    var i := 0;
    while i < |procs|
      invariant 0 <= i <= |procs| && Earliest(procs[..i], r)
    {
      if procs[i].state == Runnable {
        if r == -1 || procs[i].seqno < procs[r].seqno {
          r := i;
        }
      }
      i := i + 1;
    }
    assert procs[..i] == procs;
  }

  /** FCFS takes the process that became runnable first. */
  lemma FcfsHead(es: seq<Entry>, queue: seq<nat>, r: int)
    requires Queued(es, queue) && Earliest(Procs(es), r)
    ensures if queue == [] then r == -1 else r == queue[0]
  {
    if queue != [] {
      assert IsRunnable(Procs(es)[queue[0]]);
      assert r in queue;
      var k :| 0 <= k < |queue| && queue[k] == r;
      assert es[r].p.seqno <= es[queue[0]].p.seqno;
    }
  }

  lemma QueuePush(es: seq<Entry>, queue: seq<nat>, i: nat, e: Entry)
    requires Queued(es, queue) && i < |es| && !IsRunnable(es[i].p) && IsRunnable(e.p)
    requires forall k :: 0 <= k < |es| && IsRunnable(es[k].p) ==> es[k].p.seqno < e.p.seqno
    ensures Queued(es[i := e], queue + [i])
  {
  }

  function Without(queue: seq<nat>, k: nat): seq<nat>
    requires k < |queue|
  {
    queue[..k] + queue[k + 1..]
  }

  lemma WithoutAt(queue: seq<nat>, k: nat)
    requires k < |queue|
    ensures |Without(queue, k)| == |queue| - 1
    ensures forall i :: 0 <= i < |queue| - 1 ==> Without(queue, k)[i] == queue[if i < k then i else i + 1]
  {
  }

  lemma HeadOver(left: seq<nat>, queue: seq<nat>)
    requires queue != []
    ensures left + [queue[0]] + Without(queue, 0) == left + queue
  {
  }

  lemma QueueDrop(es: seq<Entry>, queue: seq<nat>, k: nat, e: Entry)
    requires Queued(es, queue) && k < |queue| && !IsRunnable(e.p)
    ensures Queued(es[queue[k] := e], Without(queue, k))
  {
    var (fs, q) := (es[queue[k] := e], Without(queue, k));
    WithoutAt(queue, k);
    hide Without;
    forall j | 0 <= j < |fs| && IsRunnable(fs[j].p) ensures j in q {
      var m :| 0 <= m < |queue| && queue[m] == j;
      assert if m < k then q[m] == j else q[m - 1] == j;
    }
    forall j | 0 <= j < |q| ensures q[j] < |fs| && q[j] != queue[k] {
      assert q[j] == queue[if j < k then j else j + 1];
    }
    forall i, j | 0 <= i < j < |q| ensures fs[q[i]].p.seqno < fs[q[j]].p.seqno {
      assert q[i] == queue[if i < k then i else i + 1] && q[j] == queue[if j < k then j else j + 1];
    }
  }

  /** Where a runnable slot stands in the queue; first, if it is the first. */
  ghost function Position(es: seq<Entry>, queue: seq<nat>, i: nat): (k: nat)
    requires Queued(es, queue) && i < |es| && IsRunnable(es[i].p)
    ensures k < |queue| && queue[k] == i && (queue[0] == i ==> k == 0)
  {
    assert i in queue;
    if queue[0] == i then 0 else var k: nat :| k < |queue| && queue[k] == i; k
  }

  lemma QueueSame(es: seq<Entry>, queue: seq<nat>, i: nat, e: Entry)
    requires Queued(es, queue) && i < |es| && !IsRunnable(es[i].p) && !IsRunnable(e.p)
    ensures Queued(es[i := e], queue)
  {
  }

  function OpenWait(e: Entry, ready: nat, now: nat): nat {
    if IsRunnable(e.p) && ready <= now then now - ready else 0
  }

  /** The account of one slot: what the source keeps against what happened. */
  predicate SlotOk(e: Entry, ready: nat, closed: seq<nat>, waited: nat, now: nat, nextSeq: nat) {
    && (IsRunnable(e.p) ==> ready <= now && e.readyTick == ready % TWO32 && e.p.seqno < nextSeq)
    && e.waitTotal == Sum(Seen(closed)) && e.waitMax == Max(Seen(closed))
    && waited == Sum(closed) + OpenWait(e, ready, now)
  }

  lemma TickOk(e: Entry, ready: nat, closed: seq<nat>, waited: nat, now: nat, nextSeq: nat)
    requires SlotOk(e, ready, closed, waited, now, nextSeq)
    ensures SlotOk(e, ready, closed, waited + (if IsRunnable(e.p) then 1 else 0), now + 1, nextSeq)
  {
  }

  lemma MarkOk(e: Entry, ready: nat, closed: seq<nat>, waited: nat, now: nat, nextSeq: nat, e': Entry)
    requires SlotOk(e, ready, closed, waited, now, nextSeq) && !IsRunnable(e.p)
    requires e' == e.(p := e.p.(seqno := nextSeq, state := Runnable), readyTick := now % TWO32)
    ensures SlotOk(e', now, closed, waited, now, nextSeq + 1)
  {
  }

  /** dispatch's update of one entry, given the 32-bit tick counter. */
  function Dispatched(e: Entry, ticks: nat): Entry {
    var w := (ticks - e.readyTick) % TWO32;
    Entry(e.p.(state := Running), e.readyTick, e.waitTotal + w, if w > e.waitMax then w else e.waitMax)
  }

  lemma DispatchedProc(e: Entry, ticks: nat)
    ensures Dispatched(e, ticks).p == e.p.(state := Running)
  {
  }

  /** Closing the open interval moves it, as 32-bit subtraction sees it, to the total. */
  lemma CloseOk(e: Entry, ready: nat, closed: seq<nat>, waited: nat, now: nat, nextSeq: nat)
    requires SlotOk(e, ready, closed, waited, now, nextSeq) && IsRunnable(e.p)
    ensures SlotOk(Dispatched(e, now % TWO32), ready, closed + [OpenWait(e, ready, now)], waited, now, nextSeq)
  {
    hide Sum, Seen, Max;
    WrapSub(now, ready);
    SumSnoc(closed, now - ready);
    SumSnoc(Seen(closed), (now - ready) % TWO32);
  }

  class Table {
    var es: seq<Entry>
    var nextSeq: nat
    var ticks: nat
    ghost var now: nat                 // ticks since boot, not wrapped
    ghost var ready: seq<nat>          // when each slot last became RUNNABLE
    ghost var closed: seq<seq<nat>>    // lengths of each process's finished waits
    ghost var waited: seq<nat>         // ticks that came while each process was RUNNABLE
    ghost var queue: seq<nat>
    ghost var became: seq<nat>         // every slot made RUNNABLE, in order
    ghost var left: seq<nat>           // every slot dispatched, in order
    ghost var fifo: bool               // every slot dispatched was the first of the queue

    ghost predicate Valid()
      reads this
    {
      && |ready| == |closed| == |waited| == |es| && ticks == now % TWO32
      && (forall i :: 0 <= i < |es| ==> SlotOk(es[i], ready[i], closed[i], waited[i], now, nextSeq))
      && Queued(es, queue) && (fifo ==> became == left + queue)
    }

    constructor (n: nat)
      ensures Valid() && |es| == n && became == [] && left == [] && fifo
      ensures forall i :: 0 <= i < n ==> es[i].p.state == Unused
    {
      es := seq(n, _ => Entry(Proc(Unused, 0, 0), 0, 0, 0));
      nextSeq, ticks, now := 0, 0, 0;
      ready, closed, waited := seq(n, _ => 0), seq(n, _ => []), seq(n, _ => 0);
      queue, became, left, fifo := [], [], [], true;
    }

    /** clockintr: one tick passes. */
    method Tick()
      requires Valid()
      modifies this
      ensures Valid() && now == old(now) + 1 && es == old(es) && closed == old(closed) && queue == old(queue)
      ensures became == old(became) && left == old(left) && fifo == old(fifo)
      ensures forall i :: 0 <= i < |es| ==> waited[i] == old(waited)[i] + if IsRunnable(es[i].p) then 1 else 0
    {
      hide Queued, SlotOk;
      NextTick(now);
      ticks := (ticks + 1) % TWO32;
      now := now + 1;
      ghost var (w, e) := (waited, es);
      waited := seq(|w|, i requires 0 <= i < |w| && |e| == |w| => w[i] + if IsRunnable(e[i].p) then 1 else 0);
      forall i | 0 <= i < |es| ensures SlotOk(es[i], ready[i], closed[i], waited[i], now, nextSeq) {
        TickOk(es[i], ready[i], closed[i], w[i], old(now), nextSeq);
      }
    }

    /** mark_runnable: the process goes to the end of the arrival order. */
    method MarkRunnable(i: nat)
      requires Valid() && i < |es| && es[i].p.state in {Used, Sleeping, Running}
      modifies this
      ensures Valid() && queue == old(queue) + [i] && became == old(became) + [i]
      ensures i < |es| && es == old(es)[i := es[i]] && es[i].p.state == Runnable
      ensures es[i].p.priority == old(es)[i].p.priority
      ensures left == old(left) && closed == old(closed) && waited == old(waited) && now == old(now)
      ensures fifo == old(fifo)
    {
      hide Queued;
      var e := es[i].(p := es[i].p.(seqno := nextSeq, state := Runnable), readyTick := ticks);
      QueuePush(es, queue, i, e);
      MarkOk(es[i], ready[i], closed[i], waited[i], now, nextSeq, e);
      nextSeq := nextSeq + 1;
      es := es[i := e];
      ready := ready[i := now];
      queue, became := queue + [i], became + [i];
      assert left + (old(queue) + [i]) == left + old(queue) + [i];
    }

    /** dispatch of the slot a policy picked: re-check, RUNNING, close the waiting interval. */
    method Dispatch(i: nat) returns (ok: bool)
      requires Valid() && i < |es|
      modifies this
      ensures Valid() && now == old(now) && waited == old(waited) && became == old(became)
      ensures i < |es| && es == old(es)[i := es[i]] && (ok <==> IsRunnable(old(es)[i].p))
      ensures !ok ==> es == old(es) && left == old(left) && closed == old(closed)
      ensures ok ==> es[i].p == old(es)[i].p.(state := Running) && left == old(left) + [i]
      ensures ok ==> closed == old(closed)[i := old(closed)[i] + [OpenWait(old(es)[i], old(ready)[i], now)]]
      ensures ok ==> old(queue) != [] && (fifo <==> old(fifo) && i == old(queue)[0])
      ensures !ok ==> fifo == old(fifo) && queue == old(queue)
    {
      hide SlotOk, OpenWait, Dispatched, Without, Queued, Position;
      if es[i].p.state != Runnable { return false; }
      CloseOk(es[i], ready[i], closed[i], waited[i], now, nextSeq);
      DispatchedProc(es[i], ticks);
      ghost var k := Position(es, queue, i);
      QueueDrop(es, queue, k, Dispatched(es[i], ticks));
      HeadOver(left, queue);
      closed := closed[i := closed[i] + [OpenWait(es[i], ready[i], now)]];
      es := es[i := Dispatched(es[i], ticks)];
      fifo := fifo && i == queue[0];
      queue := Without(queue, k);
      left := left + [i];
      ok := true;
    }

    /** One round of dispatch under FCFS: the first of the queue goes, and as long as all rounds
        are of this kind processes leave in the order in which they became RUNNABLE. */
    method FcfsRound() returns (r: int)
      requires Valid()
      modifies this
      ensures Valid() && fifo == old(fifo) && became == old(became)
      ensures r == -1 <==> old(queue) == []
      ensures r == -1 ==> es == old(es) && left == old(left)
      ensures r != -1 ==> r == old(queue)[0] && left == old(left) + [r]
      ensures fifo ==> left <= became
    {
      r := FcfsPick(Procs(es));
      FcfsHead(es, queue, r);
      if r != -1 {
        var ok := Dispatch(r);
      }
    }

    /** sleep, kexit, freeproc: a process that is not runnable changes state. */
    method Leave(i: nat, state: State)
      requires Valid() && i < |es| && !IsRunnable(es[i].p) && state in {Sleeping, Zombie, Unused}
      modifies this
      ensures Valid() && es == old(es)[i := old(es)[i].(p := old(es)[i].p.(state := state))] && waited == old(waited)
      ensures became == old(became) && left == old(left) && fifo == old(fifo) && closed == old(closed)
      ensures now == old(now)
    {
      var e := es[i].(p := es[i].p.(state := state));
      QueueSame(es, queue, i, e);
      hide Queued, Sum, Seen, Max;
      es := es[i := e];
    }

    /** allocproc: a new process starts with priority 0 and no waits on its account. */
    method Alloc(i: nat)
      requires Valid() && i < |es| && es[i].p.state == Unused
      modifies this
      ensures Valid() && waited == old(waited)[i := 0] && closed == old(closed)[i := []]
      ensures i < |es| && es == old(es)[i := es[i]] && es[i].p.state == Used && es[i].p.priority == 0
      ensures became == old(became) && left == old(left) && fifo == old(fifo) && now == old(now)
    {
      var e := Entry(es[i].p.(state := Used, priority := 0), es[i].readyTick, 0, 0);
      QueueSame(es, queue, i, e);
      hide Queued;
      es := es[i := e];
      closed, waited := closed[i := []], waited[i := 0];
    }

    /** sys_sched_stats: closed waits, the longest of them, and the open one.  Together they are
        the ticks spent RUNNABLE exactly when no wait reached 2^32 ticks. */
    method Stats(i: nat) returns (total: nat, longest: nat, open: nat)
      requires Valid() && i < |es|
      ensures total == Sum(Seen(closed[i]))
      ensures forall k :: 0 <= k < |closed[i]| ==> closed[i][k] % TWO32 <= longest
      ensures if closed[i] == [] then longest == 0
              else exists k :: 0 <= k < |closed[i]| && closed[i][k] % TWO32 == longest
      ensures open == OpenWait(es[i], ready[i], now) % TWO32
      ensures total + open <= waited[i]
      ensures total + open == waited[i] <==> AllShort(closed[i]) && OpenWait(es[i], ready[i], now) < TWO32
    {
      hide Sum, Seen, Max;
      assert SlotOk(es[i], ready[i], closed[i], waited[i], now, nextSeq);
      total, longest := es[i].waitTotal, es[i].waitMax;
      SeenSum(closed[i]);
      MaxIs(closed[i]);
      if es[i].p.state == Runnable {
        WrapSub(now, ready[i]);
        open := (ticks - es[i].readyTick) % TWO32;
      } else {
        open := 0;
      }
    }
  }

  lemma NextTick(now: nat)
    ensures (now % TWO32 + 1) % TWO32 == (now + 1) % TWO32
  {
  }
}
