/** g_ls_runnable_count under any interleaving of the steps that change process states.

    mark_runnable adds to the counter before it sets RUNNABLE; dispatch sets RUNNING before it
    subtracts.  Both run under the process's own lock, which is what a slot's phase stands for:
    while it is not Idle nobody else changes the slot. */
module SchedCounter {
  import opened SchedPick

  datatype Phase = Idle | Marking | Dispatching

  datatype Slot = Slot(p: Proc, phase: Phase)

  datatype System = System(slots: seq<Slot>, count: int)

  datatype Step =
    | BeginMark(i: nat)              // mark_runnable: counter increment
    | EndMark(i: nat)                // mark_runnable: state = RUNNABLE
    | BeginDispatch(i: nat)          // dispatch: re-check under the lock, state = RUNNING
    | EndDispatch(i: nat)            // dispatch: counter decrement
    | SetPriority(i: nat, level: int)  // sys_setpriority, by the running process itself
    | GoToSleep(i: nat)              // sleep: state = SLEEPING
    | Exit(i: nat)                   // kexit: state = ZOMBIE
    | Alloc(i: nat)                  // allocproc: state = USED, priority = 0
    | Free(i: nat)                   // freeproc: state = UNUSED

  /** The step can be taken. */
  predicate Can(s: System, e: Step) {
    && e.i < |s.slots|
    && var sl := s.slots[e.i];
       match e
       case BeginMark(_) => sl.phase == Idle && sl.p.state in {Running, Sleeping, Used}
       case EndMark(_) => sl.phase == Marking
       case BeginDispatch(_) => sl.phase == Idle && sl.p.state == Runnable
       case EndDispatch(_) => sl.phase == Dispatching
       case SetPriority(_, level) => sl.phase == Idle && sl.p.state == Running && (level == 0 || level == 1)
       case GoToSleep(_) => sl.phase == Idle && sl.p.state == Running
       case Exit(_) => sl.phase == Idle && sl.p.state == Running
       case Alloc(_) => sl.phase == Idle && sl.p.state == Unused
       case Free(_) => sl.phase == Idle && sl.p.state in {Used, Zombie}
  }

  function NewSlot(sl: Slot, e: Step): Slot {
    match e
    case BeginMark(_) => sl.(phase := Marking)
    case EndMark(_) => Slot(sl.p.(state := Runnable), Idle)
    case BeginDispatch(_) => Slot(sl.p.(state := Running), Dispatching)
    case EndDispatch(_) => sl.(phase := Idle)
    case SetPriority(_, level) => sl.(p := sl.p.(priority := level))
    case GoToSleep(_) => sl.(p := sl.p.(state := Sleeping))
    case Exit(_) => sl.(p := sl.p.(state := Zombie))
    case Alloc(_) => sl.(p := sl.p.(state := Used, priority := 0))
    case Free(_) => sl.(p := sl.p.(state := Unused))
  }

  function NewCount(s: System, e: Step): int
    requires e.i < |s.slots|
  {
    if s.slots[e.i].p.priority != 1 then s.count
    else if e.BeginMark? then s.count + 1
    else if e.EndDispatch? then s.count - 1
    else s.count
  }

  function Do(s: System, e: Step): System
    requires Can(s, e)
  {
    System(s.slots[e.i := NewSlot(s.slots[e.i], e)], NewCount(s, e))
  }

  predicate CanRun(s: System, es: seq<Step>)
    decreases |es|
  {
    es != [] ==> Can(s, es[0]) && CanRun(Do(s, es[0]), es[1..])
  }

  function Run(s: System, es: seq<Step>): System
    requires CanRun(s, es)
    decreases |es|
  {
    if es == [] then s else Run(Do(s, es[0]), es[1..])
  }

  // ----- counting

  predicate Waiting(sl: Slot) { IsLs(sl.p) }

  /** A transition in flight: counted, but not (or no longer) RUNNABLE. */
  predicate InFlight(sl: Slot) { sl.phase != Idle && sl.p.priority == 1 }

  function Count(slots: seq<Slot>, f: Slot -> bool): nat {
    if slots == [] then 0 else (if f(slots[0]) then 1 else 0) + Count(slots[1..], f)
  }

  lemma {:induction false} CountUpdate(slots: seq<Slot>, i: nat, x: Slot, f: Slot -> bool)
    requires i < |slots|
    ensures Count(slots[i := x], f) == Count(slots, f) - (if f(slots[i]) then 1 else 0) + (if f(x) then 1 else 0)
  {
    if i == 0 {
      assert slots[i := x][1..] == slots[1..];
    } else {
      assert slots[i := x][1..] == slots[1..][i - 1 := x];
      CountUpdate(slots[1..], i - 1, x, f);
    }
  }

  lemma {:induction false} CountPositive(slots: seq<Slot>, i: nat, f: Slot -> bool)
    requires i < |slots| && f(slots[i])
    ensures Count(slots, f) > 0
  {
    if i > 0 { CountPositive(slots[1..], i - 1, f); }
  }

  lemma {:induction false} CountZero(slots: seq<Slot>, f: Slot -> bool)
    requires forall i :: 0 <= i < |slots| ==> !f(slots[i])
    ensures Count(slots, f) == 0
  {
    if slots != [] { CountZero(slots[1..], f); }
  }

  predicate SlotOk(sl: Slot) {
    && (sl.phase == Marking ==> sl.p.state in {Running, Sleeping, Used})
    && (sl.phase == Dispatching ==> sl.p.state == Running)
  }

  ghost predicate Exact(s: System) {
    && (forall i :: 0 <= i < |s.slots| ==> SlotOk(s.slots[i]))
    && s.count == Count(s.slots, Waiting) + Count(s.slots, InFlight)
  }

  lemma StepExact(s: System, e: Step)
    requires Exact(s) && Can(s, e)
    ensures Exact(Do(s, e))
  {
    var x := NewSlot(s.slots[e.i], e);
    assert SlotOk(s.slots[e.i]);
    CountUpdate(s.slots, e.i, x, Waiting);
    CountUpdate(s.slots, e.i, x, InFlight);
  }

  /** In every reachable state the counter is the number of runnable latency-sensitive
      processes plus the transitions in flight. */
  lemma {:induction false} RunExact(s: System, es: seq<Step>)
    requires Exact(s) && CanRun(s, es)
    ensures Exact(Run(s, es))
    decreases |es|
  {
    if es != [] {
      StepExact(s, es[0]);
      RunExact(Do(s, es[0]), es[1..]);
    }
  }

  /** All slots unused and the counter 0, as procinit leaves them. */
  predicate Booted(s: System) {
    s.count == 0 && forall i :: 0 <= i < |s.slots| ==> s.slots[i].phase == Idle && s.slots[i].p.state == Unused
  }

  lemma BootExact(s: System)
    requires Booted(s)
    ensures Exact(s)
  {
    CountZero(s.slots, Waiting);
    CountZero(s.slots, InFlight);
  }

  function Procs(s: System): seq<Proc> {
    seq(|s.slots|, i requires 0 <= i < |s.slots| => s.slots[i].p)
  }

  /** After any run from boot the counter never under-counts, it is exact when no transition is
      in flight, and the policy that trusts it picks the same process, and keeps the same
      `last`, as the policy that scans. */
  lemma CounterSound(s0: System, es: seq<Step>, last: int, r: int, r': int)
    requires Booted(s0) && CanRun(s0, es)
    ensures var s := Run(s0, es);
            && s.count >= Count(s.slots, Waiting)
            && ((forall i :: 0 <= i < |s.slots| ==> s.slots[i].phase == Idle) ==> s.count == Count(s.slots, Waiting))
            && (&& -1 <= last < |s.slots|
                && PriPicked(Procs(s), s.count > 0, last, r) && PriPicked(Procs(s), true, last, r') ==>
                  r == r' && After(last, r) == After(last, r'))
  {
    BootExact(s0);
    RunExact(s0, es);
    var s := Run(s0, es);
    if forall i :: 0 <= i < |s.slots| ==> s.slots[i].phase == Idle { CountZero(s.slots, InFlight); }
    forall i | 0 <= i < |Procs(s)| && IsLs(Procs(s)[i]) ensures s.count > 0 {
      CountPositive(s.slots, i, Waiting);
    }
    if -1 <= last < |s.slots| && PriPicked(Procs(s), s.count > 0, last, r) && PriPicked(Procs(s), true, last, r') {
      CounterStandsIn(Procs(s), s.count, last, r, r');
    }
  }
}
