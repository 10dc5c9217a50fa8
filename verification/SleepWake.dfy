/** sleep and wakeup on one channel, as interleaved steps of any number of processes, and the
    sleep-lock as their client.

    A step is one lock operation or one write made under a lock.  The condition waited for is
    read and written only under the condition lock lk; a waker makes it true and calls wakeup
    without letting go of lk. */
module SleepWake {
  import opened Common

  datatype Pc =
    | Out                // not in this code; holds none of its locks
    | InLock             // holds lk
    | Found              // holds lk: has found the condition true
    | Missed             // holds lk: has found the condition false
    | Cleared            // holds lk: has made the condition false
    | Opened             // holds lk: has made the condition true, wakeup not yet begun
    | Entered            // sleep: holds lk and its own p->lock
    | Released           // sleep: has let go of lk, still holds p->lock
    | Dozing             // sleep: state is SLEEPING, p->lock not yet let go by sched
    | Asleep             // SLEEPING, p->lock free
    | Woken              // RUNNABLE
    | Back               // dispatched again, holds p->lock
    | Reacquiring        // sleep: waits for lk
    | Waking(j: nat)     // wakeup: holds lk, has dealt with the slots below j
    | Scanning(j: nat)   // wakeup: holds lk and the p->lock of slot j

  datatype System = System(pc: seq<Pc>, lk: Option<nat>, plock: seq<Option<nat>>, cond: bool)

  datatype Step =
    | AcquireLk(i: nat)
    | ReleaseLk(i: nat)
    | Test(i: nat)         // read the condition
    | Clear(i: nat)        // write the condition: false
    | Settle(i: nat)       // what is left to do under lk after that
    | Open(i: nat)         // write the condition: true
    | WakeStart(i: nat)    // call wakeup
    | SleepEnter(i: nat)   // the condition was found false; acquire(&p->lock)
    | SleepRelease(i: nat) // release(lk)
    | SleepSet(i: nat)     // p->chan = chan; p->state = SLEEPING
    | SleepSched(i: nat)   // sched: the scheduler lets go of p->lock
    | WakeLock(i: nat)     // acquire(&p->lock) of the next slot
    | WakeSkip(i: nat)     // p == myproc()
    | WakeSlot(i: nat)     // make it RUNNABLE if it sleeps on the channel; release
    | WakeDone(i: nat)
    | Kill(i: nat)         // kkill makes a sleeper RUNNABLE
    | Dispatch(i: nat)     // the scheduler acquires p->lock and switches to it
    | SleepReturn(i: nat)  // p->chan = 0; release(&p->lock)

  predicate HoldsLk(c: Pc) {
    c.InLock? || c.Found? || c.Missed? || c.Cleared? || c.Opened? || c.Entered? || c.Waking? || c.Scanning?
  }

  predicate HoldsOwn(c: Pc) { c.Entered? || c.Released? || c.Dozing? || c.Back? }

  /** state == SLEEPING && chan == this channel. */
  predicate Sleeping(c: Pc) { c.Dozing? || c.Asleep? }

  predicate Can(s: System, e: Step)
    requires |s.plock| == |s.pc|
  {
    && e.i < |s.pc|
    && var c := s.pc[e.i];
       match e
       case AcquireLk(_) => (c.Out? || c.Reacquiring?) && s.lk.None?
       case ReleaseLk(_) => c.InLock?
       case Test(_) => c.InLock?
       case Clear(_) => c.InLock? || c.Found?
       case Settle(_) => c.Cleared?
       case Open(_) => c.InLock?
       case WakeStart(_) => c.Opened?
       case SleepEnter(i) => c.Missed? && s.plock[i].None?
       case SleepRelease(_) => c.Entered?
       case SleepSet(_) => c.Released?
       case SleepSched(_) => c.Dozing?
       case WakeLock(i) => c.Waking? && c.j < |s.pc| && c.j != i && s.plock[c.j].None?
       case WakeSkip(i) => c.Waking? && c.j == i
       case WakeSlot(_) => c.Scanning? && c.j < |s.pc|
       case WakeDone(_) => c.Waking? && c.j == |s.pc|
       case Kill(i) => c.Asleep? && s.plock[i].None?
       case Dispatch(i) => c.Woken? && s.plock[i].None?
       case SleepReturn(_) => c.Back?
  }

  function Do(s: System, e: Step): System
    requires |s.plock| == |s.pc| && Can(s, e)
  {
    var i := e.i;
    var c := s.pc[i];
    match e
    case AcquireLk(_) => s.(pc := s.pc[i := InLock], lk := Some(i))
    case ReleaseLk(_) => s.(pc := s.pc[i := Out], lk := None)
    case Test(_) => s.(pc := s.pc[i := if s.cond then Found else Missed])
    case Clear(_) => s.(cond := false, pc := s.pc[i := Cleared])
    case Settle(_) => s.(pc := s.pc[i := InLock])
    case Open(_) => s.(cond := true, pc := s.pc[i := Opened])
    case WakeStart(_) => s.(pc := s.pc[i := Waking(0)])
    case SleepEnter(_) => s.(pc := s.pc[i := Entered], plock := s.plock[i := Some(i)])
    case SleepRelease(_) => s.(pc := s.pc[i := Released], lk := None)
    case SleepSet(_) => s.(pc := s.pc[i := Dozing])
    case SleepSched(_) => s.(pc := s.pc[i := Asleep], plock := s.plock[i := None])
    case WakeLock(_) => s.(pc := s.pc[i := Scanning(c.j)], plock := s.plock[c.j := Some(i)])
    case WakeSkip(_) => s.(pc := s.pc[i := Waking(c.j + 1)])
    case WakeSlot(_) =>
      var woken := if Sleeping(s.pc[c.j]) then s.pc[c.j := Woken] else s.pc;
      s.(pc := woken[i := Waking(c.j + 1)], plock := s.plock[c.j := None])
    case WakeDone(_) => s.(pc := s.pc[i := InLock])
    case Kill(_) => s.(pc := s.pc[i := Woken])
    case Dispatch(_) => s.(pc := s.pc[i := Back], plock := s.plock[i := Some(i)])
    case SleepReturn(_) => s.(pc := s.pc[i := Reacquiring], plock := s.plock[i := None])
  }

  // ----- the invariant

  /** lk is held by the process whose program counter says so. */
  predicate LkOk(s: System) {
    forall i :: 0 <= i < |s.pc| ==> (HoldsLk(s.pc[i]) <==> s.lk == Some(i))
  }

  /** Process i holds the p->lock of slot k. */
  predicate HoldsP(s: System, i: nat, k: nat)
    requires i < |s.pc|
  {
    (i == k && HoldsOwn(s.pc[i])) || s.pc[i] == Scanning(k)
  }

  predicate PlockOk(s: System)
    requires |s.plock| == |s.pc|
  {
    forall i, k :: 0 <= i < |s.pc| && 0 <= k < |s.pc| ==> (HoldsP(s, i, k) <==> s.plock[k] == Some(i))
  }

  /** From the test that found the condition false until somebody makes the process RUNNABLE. */
  predicate InSleep(c: Pc) { c.Missed? || c.Entered? || c.Released? || c.Dozing? || c.Asleep? }

  /** A wakeup in progress that has not dealt with slot k yet. */
  predicate StillToCome(c: Pc, k: int) { c.Opened? || ((c.Waking? || c.Scanning?) && c.j <= k) }

  predicate NoLost(s: System) {
    forall k :: 0 <= k < |s.pc| && InSleep(s.pc[k]) && s.cond ==>
      s.lk.Some? && s.lk.value < |s.pc| && StillToCome(s.pc[s.lk.value], k)
  }

  predicate Inv(s: System) {
    && |s.plock| == |s.pc| && LkOk(s) && PlockOk(s) && NoLost(s)
    && (s.lk.Some? ==> s.lk.value < |s.pc|)
    && (forall i :: 0 <= i < |s.pc| && s.pc[i].Scanning? ==> s.pc[i].j != i)
  }

  lemma LkStep(s: System, e: Step)
    requires Inv(s) && Can(s, e)
    ensures LkOk(Do(s, e)) && (Do(s, e).lk.Some? ==> Do(s, e).lk.value < |s.pc|)
  {
  }

  /** One process and one slot's lock. */
  predicate PlockAt(s: System, i: nat, k: nat)
    requires |s.plock| == |s.pc| && i < |s.pc| && k < |s.pc|
  {
    HoldsP(s, i, k) <==> s.plock[k] == Some(i)
  }

  lemma PlockPair(s: System, e: Step, i: nat, k: nat)
    requires |s.plock| == |s.pc| && Can(s, e) && i < |s.pc| && k < |s.pc|
    requires PlockAt(s, i, k) && PlockAt(s, e.i, k) && PlockAt(s, k, k)
    requires s.pc[e.i].Scanning? ==> s.pc[e.i].j != e.i
    ensures PlockAt(Do(s, e), i, k)
  {
  }

  lemma PlockStep(s: System, e: Step)
    requires Inv(s) && Can(s, e)
    ensures PlockOk(Do(s, e))
  {
    hide Can, Do, LkOk, NoLost;
    var s' := Do(s, e);
    assert |s'.plock| == |s.plock| && |s'.pc| == |s.pc| by { SameSize(s, e); }
    forall i: nat, k: nat | i < |s.pc| && k < |s.pc| ensures HoldsP(s', i, k) <==> s'.plock[k] == Some(i) {
      assert e.i < |s.pc| by { SameSize(s, e); }
      assert PlockAt(s, i, k) && PlockAt(s, e.i, k) && PlockAt(s, k, k);
      PlockPair(s, e, i, k);
      assert PlockAt(s', i, k);
    }
  }

  lemma SameSize(s: System, e: Step)
    requires |s.plock| == |s.pc| && Can(s, e)
    ensures e.i < |s.pc| && |Do(s, e).plock| == |s.plock| && |Do(s, e).pc| == |s.pc|
  {
  }

  lemma NoLostStep(s: System, e: Step)
    requires Inv(s) && Can(s, e)
    ensures NoLost(Do(s, e))
  {
    var s' := Do(s, e);
    forall k | 0 <= k < |s.pc| && InSleep(s'.pc[k]) && s'.cond
      ensures s'.lk.Some? && s'.lk.value < |s.pc| && StillToCome(s'.pc[s'.lk.value], k)
    {
      assert HoldsP(s, e.i, k) <==> s.plock[k] == Some(e.i);
      assert HoldsP(s, k, k) <==> s.plock[k] == Some(k);
    }
  }

  lemma StepInv(s: System, e: Step)
    requires Inv(s) && Can(s, e)
    ensures Inv(Do(s, e))
  {
    LkStep(s, e);
    PlockStep(s, e);
    NoLostStep(s, e);
  }

  predicate CanRun(s: System, es: seq<Step>)
    decreases |es|
  {
    |s.plock| == |s.pc| && (es != [] ==> Can(s, es[0]) && CanRun(Do(s, es[0]), es[1..]))
  }

  function Run(s: System, es: seq<Step>): System
    requires CanRun(s, es)
    decreases |es|
  {
    if es == [] then s else Run(Do(s, es[0]), es[1..])
  }

  /** n processes outside, all locks free. */
  function Start(n: nat, cond: bool): System {
    System(seq(n, _ => Out), None, seq(n, _ => None), cond)
  }

  lemma {:induction false} RunInv(s: System, es: seq<Step>)
    requires Inv(s) && CanRun(s, es)
    ensures Inv(Run(s, es))
    decreases |es|
  {
    if es != [] {
      StepInv(s, es[0]);
      RunInv(Do(s, es[0]), es[1..]);
    }
  }

  /** No wakeup is lost: while lk is free, whoever sleeps has a false condition; and when a
      wakeup ends nobody sleeps on a true one. */
  lemma NoLostWakeup(n: nat, cond: bool, es: seq<Step>, k: nat)
    requires CanRun(Start(n, cond), es) && k < n
    ensures var s := Run(Start(n, cond), es);
            && |s.pc| == n
            && (s.lk.None? && Sleeping(s.pc[k]) ==> !s.cond)
            && (forall i :: 0 <= i < n && s.pc[i] == Waking(n) && s.cond ==> !Sleeping(s.pc[k]))
  {
    RunInv(Start(n, cond), es);
    RunSize(Start(n, cond), es);
    var s := Run(Start(n, cond), es);
    forall i | 0 <= i < n && s.pc[i] == Waking(n) ensures s.lk == Some(i) { }
  }

  lemma {:induction false} RunSize(s: System, es: seq<Step>)
    requires CanRun(s, es)
    ensures |Run(s, es).pc| == |s.pc|
    decreases |es|
  {
    if es != [] { RunSize(Do(s, es[0]), es[1..]); }
  }

  // ----- the sleep-lock: the condition is that it is not locked

  /** locked is !cond; holders are the processes between the return of acquiresleep's writes and
      the first write of releasesleep. */
  datatype Sleeplock = Sleeplock(sys: System, pid: Option<nat>, holders: set<nat>)

  /** acquiresleep writes locked after its own test found it clear; only a holder calls
      releasesleep. */
  predicate LockCan(l: Sleeplock, e: Step)
    requires |l.sys.plock| == |l.sys.pc|
  {
    Can(l.sys, e) && (e.Clear? ==> l.sys.pc[e.i].Found?) && (e.Open? ==> e.i in l.holders)
  }

  /** Clear is locked = 1, Settle is pid = myproc()->pid, Open is locked = 0, WakeStart is pid = 0
      and the call of wakeup. */
  function LockDo(l: Sleeplock, e: Step): Sleeplock
    requires |l.sys.plock| == |l.sys.pc| && LockCan(l, e)
  {
    var s := Do(l.sys, e);
    if e.Settle? then Sleeplock(s, Some(e.i), l.holders + {e.i})
    else if e.Open? then Sleeplock(s, l.pid, l.holders - {e.i})
    else if e.WakeStart? then Sleeplock(s, None, l.holders)
    else Sleeplock(s, l.pid, l.holders)
  }

  predicate LockCanRun(l: Sleeplock, es: seq<Step>)
    decreases |es|
  {
    |l.sys.plock| == |l.sys.pc| && (es != [] ==> LockCan(l, es[0]) && LockCanRun(LockDo(l, es[0]), es[1..]))
  }

  function LockRun(l: Sleeplock, es: seq<Step>): Sleeplock
    requires LockCanRun(l, es)
    decreases |es|
  {
    if es == [] then l else LockRun(LockDo(l, es[0]), es[1..])
  }

  /** What holdingsleep computes while it holds lk. */
  predicate HoldingSleep(l: Sleeplock, i: nat) { !l.sys.cond && l.pid == Some(i) }

  /** A test of locked stays true while lk is held, and locked is clear exactly when nobody has
      the lock or is about to. */
  predicate LockInv(l: Sleeplock) {
    && Inv(l.sys) && (forall i <- l.holders :: i < |l.sys.pc| && !l.sys.cond && l.pid == Some(i))
    && (forall k :: 0 <= k < |l.sys.pc| && (l.sys.pc[k].Found? || l.sys.pc[k].Opened?) ==> l.sys.cond)
    && (forall k :: 0 <= k < |l.sys.pc| && l.sys.pc[k].Cleared? ==> !l.sys.cond && l.holders == {})
    && (!l.sys.cond && l.holders == {} ==> l.sys.lk.Some? && l.sys.pc[l.sys.lk.value].Cleared?)
  }

  /** Every step keeps that invariant. */
  lemma LockStep(l: Sleeplock, e: Step)
    requires LockInv(l) && LockCan(l, e)
    ensures LockInv(LockDo(l, e))
  {
    StepInv(l.sys, e);
    HoldersStep(l, e);
    FoundStep(l, e);
    ClearedStep(l, e);
    LockedStep(l, e);
    hide Inv, Do, Can;
  }

  lemma HoldersStep(l: Sleeplock, e: Step)
    requires LockInv(l) && LockCan(l, e)
    ensures var r := LockDo(l, e); forall i <- r.holders :: i < |r.sys.pc| && !r.sys.cond && r.pid == Some(i)
  {
  }

  lemma FoundStep(l: Sleeplock, e: Step)
    requires LockInv(l) && LockCan(l, e)
    ensures var r := LockDo(l, e);
            forall k :: 0 <= k < |r.sys.pc| && (r.sys.pc[k].Found? || r.sys.pc[k].Opened?) ==> r.sys.cond
  {
  }

  lemma ClearedStep(l: Sleeplock, e: Step)
    requires LockInv(l) && LockCan(l, e)
    ensures var r := LockDo(l, e);
            forall k :: 0 <= k < |r.sys.pc| && r.sys.pc[k].Cleared? ==> !r.sys.cond && r.holders == {}
  {
  }

  lemma LockedStep(l: Sleeplock, e: Step)
    requires LockInv(l) && LockCan(l, e) && Inv(LockDo(l, e).sys)
    ensures var r := LockDo(l, e);
            !r.sys.cond && r.holders == {} ==> r.sys.lk.Some? && r.sys.pc[r.sys.lk.value].Cleared?
  {
  }

  lemma {:induction false} LockRunInv(l: Sleeplock, es: seq<Step>)
    requires LockInv(l) && LockCanRun(l, es)
    ensures LockInv(LockRun(l, es))
    decreases |es|
  {
    if es != [] {
      LockStep(l, es[0]);
      LockRunInv(LockDo(l, es[0]), es[1..]);
    }
  }

  /** In every state that n processes can reach from an unlocked sleep-lock it has at most one
      holder; and whenever lk is free it is locked exactly when it has one, and holdingsleep
      tells who that is. */
  lemma MutualExclusion(n: nat, es: seq<Step>)
    requires LockCanRun(Sleeplock(Start(n, true), None, {}), es)
    ensures var r := LockRun(Sleeplock(Start(n, true), None, {}), es);
            && (forall i, j :: i in r.holders && j in r.holders ==> i == j)
            && (r.sys.lk.None? ==> && (!r.sys.cond <==> r.holders != {})
                                   && forall i :: i in r.holders <==> HoldingSleep(r, i))
  {
    var l := Sleeplock(Start(n, true), None, {});
    assert LockInv(l);
    LockRunInv(l, es);
    var r := LockRun(l, es);
    if r.sys.lk.None? && !r.sys.cond { assert r.holders != {}; }
  }
}
