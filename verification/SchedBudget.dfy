/** BudgetWindowTracker and PrioritySelectBudget: a tick budget over windows of wrapping time. */
module SchedBudget {
  import opened Common
  import opened SchedPick

  /** The window index the tracker computes from the 32-bit reading of true time T. */
  function Index(T: nat, width: nat): nat
    requires width > 0
  {
    T % TWO32 / width
  }

  /** The window of true time T: the 32-bit epoch it falls in and its window index there. */
  function Window(T: nat, width: nat): (nat, nat)
    requires width > 0
  {
    (T / TWO32, Index(T, width))
  }

  /** How many of the charges fall in the window. */
  function Charges(log: seq<nat>, w: (nat, nat), width: nat): nat
    requires width > 0
  {
    if log == [] then 0 else Charges(log[..|log| - 1], w, width) + if Window(log[|log| - 1], width) == w then 1 else 0
  }

  function Min(a: nat, b: nat): nat { if a < b then a else b }

  /** Within 2^32 - width ticks, an unchanged index means an unchanged window. */
  lemma SameIndex(S: nat, T: nat, width: nat)
    requires 0 < width < TWO32 && S <= T <= S + TWO32 - width
    ensures Index(S, width) == Index(T, width) <==> Window(S, width) == Window(T, width)
  {
    SameQuotient(S % TWO32, T % TWO32, width);
    assert T == T / TWO32 * TWO32 + T % TWO32 && S == S / TWO32 * TWO32 + S % TWO32;
  }

  lemma SameQuotient(s: nat, t: nat, d: nat)
    requires 0 < d
    ensures s / d == t / d ==> s - t < d && t - s < d
  {
  }

  /** One tick more and the tracker can miss a whole turn of the clock. */
  lemma BoundTight(width: nat)
    requires 0 < width < TWO32
    ensures var (S, T) := (width - 1, TWO32);
            T == S + TWO32 - width + 1 && Index(S, width) == Index(T, width) && Window(S, width) != Window(T, width)
  {
    assert (width - 1) % TWO32 == width - 1;
    assert (width - 1) / width == 0;
  }

  /** Windows are intervals of time. */
  lemma Convex(R: nat, S: nat, T: nat, width: nat)
    requires width > 0 && R <= S <= T && Window(R, width) == Window(T, width)
    ensures Window(S, width) == Window(T, width)
  {
    assert R / TWO32 <= S / TWO32 <= T / TWO32;
    assert R % TWO32 <= S % TWO32 <= T % TWO32;
    DivMono(R % TWO32, S % TWO32, width);
    DivMono(S % TWO32, T % TWO32, width);
  }

  lemma DivMono(a: nat, b: nat, d: nat)
    requires 0 < d && a <= b
    ensures a / d <= b / d
  {
    assert a == a / d * d + a % d;
    assert b == b / d * d + b % d;
    Scale(b / d + 1, a / d, d);
  }

  lemma Scale(x: nat, y: nat, d: nat)
    ensures x <= y ==> x * d <= y * d
    ensures (x + 1) * d == x * d + d
  {
  }

  /** A window that starts after every charge so far has none of them. */
  lemma {:induction false} FreshWindow(log: seq<nat>, S: nat, T: nat, width: nat)
    requires width > 0 && S <= T && Window(S, width) != Window(T, width)
    requires forall i :: 0 <= i < |log| ==> log[i] <= S
    ensures Charges(log, Window(T, width), width) == 0
  {
    if log != [] {
      var l := log[|log| - 1];
      if Window(l, width) == Window(T, width) {
        Convex(l, S, T, width);
        assert false;
      }
      FreshWindow(log[..|log| - 1], S, T, width);
    }
  }

  lemma NoCharges(w: (nat, nat), width: nat)
    requires width > 0
    ensures Charges([], w, width) == 0
  {
  }

  class BudgetWindowTracker {
    const budget: nat
    const width: nat
    var lastWindowIndex: nat
    var haveWindow: bool
    var charged: nat
    var chargedTotal: nat
    var exhaustions: nat
    ghost var log: seq<nat>    // true times of all charges
    ghost var seen: nat        // true time of the last observation

    /** What holds whatever the clock does. */
    ghost predicate Base()
      reads this
    {
      && 0 < budget < width < TWO32
      && chargedTotal == |log| && (forall i :: 0 <= i < |log| ==> log[i] <= seen)
      && (!haveWindow ==> log == [] && charged == 0) && (haveWindow ==> lastWindowIndex == Index(seen, width))
      && charged <= budget && exhaustions * budget + (if charged < budget then charged else 0) <= chargedTotal
    }

    /** The charges of the current window are counted exactly, up to the budget. */
    ghost predicate Valid()
      reads this
    {
      Base() && charged == Min(budget, if haveWindow then Charges(log, Window(seen, width), width) else 0)
    }

    constructor (budget: nat, width: nat)
      requires 0 < budget < width < TWO32
      ensures Valid() && log == [] && !haveWindow && this.budget == budget && this.width == width
    {
      this.budget, this.width := budget, width;
      lastWindowIndex, haveWindow, charged, chargedTotal, exhaustions := 0, false, 0, 0, 0;
      log, seen := [], 0;
    }

    /** The clock reads now at true time T. */
    ghost predicate Clock(now: nat, T: nat)
      reads this
    {
      now == T % TWO32 && (haveWindow ==> seen <= T)
    }

    /** The same, at most 2^32 - width ticks after the last reading. */
    ghost predicate Reads(now: nat, T: nat)
      reads this
    {
      Clock(now, T) && (haveWindow ==> T + width <= seen + TWO32)
    }

    /** Charges of an earlier window are taken for charges of the window of T. */
    ghost predicate Mistaken(T: nat)
      requires width > 0
      reads this
    {
      && haveWindow && charged > 0
      && Index(seen, width) == Index(T, width) && Window(seen, width) != Window(T, width)
    }

    lemma NotMistaken(now: nat, T: nat)
      requires Base() && Reads(now, T)
      ensures !Mistaken(T)
    {
      if haveWindow { SameIndex(seen, T, width); }
    }

    method Observe(now: nat, ghost T: nat)
      requires Base() && Clock(now, T)
      modifies this
      ensures Base() && haveWindow && seen == T && log == old(log) && exhaustions == old(exhaustions)
      ensures charged == if old(haveWindow) && Index(T, width) == old(lastWindowIndex) then old(charged) else 0
      ensures old(Valid()) ==> (Valid() <==> !old(Mistaken(T)))
    {
      hide Window, Charges;
      var idx := now / width;
      assert idx == Index(T, width);
      hide Index;
      NoCharges(Window(T, width), width);
      if haveWindow && Window(seen, width) != Window(T, width) { FreshWindow(log, seen, T, width); }
      if haveWindow { SameWindow(seen, T, width); }
      if !haveWindow || idx != lastWindowIndex {
        lastWindowIndex, haveWindow, charged := idx, true, 0;
      }
      seen := T;
    }

    /** Budget is left exactly when this window has had fewer than `budget` charges, unless the count
        is mistaken; then there may be too little left. */
    method BudgetAvailable(now: nat, ghost T: nat) returns (r: bool)
      requires Base() && Clock(now, T)
      modifies this
      ensures Base() && haveWindow && seen == T && log == old(log) && exhaustions == old(exhaustions)
      ensures old(Valid()) ==> (Valid() <==> !old(Mistaken(T)))
      ensures r <==> !old(haveWindow) || Index(T, width) != old(lastWindowIndex) || old(charged) < budget
      ensures Valid() ==> (r <==> Charges(log, Window(T, width), width) < budget)
      ensures old(Valid()) && r ==> Charges(log, Window(T, width), width) < budget
    {
      ghost var before := log;
      if Valid() && haveWindow && Window(seen, width) != Window(T, width) { FreshWindow(log, seen, T, width); }
      NoCharges(Window(T, width), width);
      Observe(now, T);
      r := charged < budget;
    }

    method Charge(now: nat, ghost T: nat)
      requires Base() && Clock(now, T)
      modifies this
      ensures Base() && haveWindow && seen == T && log == old(log) + [T]
      ensures old(Valid() && !Mistaken(T)) ==>
                && Valid()
                && exhaustions == old(exhaustions) + if Charges(log, Window(T, width), width) == budget then 1 else 0
    {
      hide Window, Index;
      Observe(now, T);
      ghost var before := log;
      Scale(exhaustions, exhaustions, budget);
      chargedTotal := chargedTotal + 1;
      log := log + [T];
      assert log[..|log| - 1] == before;
      if charged < budget {
        charged := charged + 1;
        if charged == budget {
          exhaustions := exhaustions + 1;
        }
      }
    }
  }

  lemma SameWindow(S: nat, T: nat, width: nat)
    requires width > 0
    ensures Window(S, width) == Window(T, width) ==> Index(S, width) == Index(T, width)
  {
  }

  /** A tracker whose budget is used up by charges at true time T. */
  method UsedUp(budget: nat, width: nat, T: nat) returns (t: BudgetWindowTracker)
    requires 0 < budget < width < TWO32 && T < TWO32
    ensures fresh(t) && t.budget == budget && t.width == width && t.Base() && t.haveWindow && t.seen == T
    ensures t.charged == budget && forall i :: 0 <= i < |t.log| ==> t.log[i] == T
  {
    hide Window, Index, Charges;
    t := new BudgetWindowTracker(budget, width);
    var n := 0;
    while n < budget
      invariant 0 <= n <= budget && t.budget == budget && t.width == width && t.Valid() && fresh(t)
      invariant if n > 0 then t.haveWindow && t.seen == T else !t.haveWindow
      invariant |t.log| == n && (forall i :: 0 <= i < n ==> t.log[i] == T) && t.charged == n
    {
      t.NotMistaken(T, T);
      t.Charge(T, T);
      n := n + 1;
      AllCharged(t.log, T, width);
    }
  }

  /** Two readings of the clock one tick further apart than the bound: the window of the second has had no
      charge, and the tracker says that its budget is used up. */
  method MissedTurn(budget: nat, width: nat) returns (t: BudgetWindowTracker, r: bool)
    requires 0 < budget < width < TWO32
    ensures fresh(t) && !r && t.seen == TWO32 && Charges(t.log, Window(TWO32, width), width) == 0
  {
    BoundTight(width);
    t := UsedUp(budget, width, width - 1);
    hide Window, Index, Charges;
    FreshWindow(t.log, width - 1, TWO32, width);
    r := t.BudgetAvailable(0, TWO32);
  }

  lemma {:induction false} AllCharged(log: seq<nat>, T: nat, width: nat)
    requires width > 0 && forall i :: 0 <= i < |log| ==> log[i] == T
    ensures Charges(log, Window(T, width), width) == |log|
  {
    if log != [] { AllCharged(log[..|log| - 1], T, width); }
  }

  class PrioritySelectBudget {
    const useCounter: bool
    const tracker: BudgetWindowTracker
    var last: int
    var normalSelected: nat

    ghost predicate Valid()
      reads this, tracker
    {
      tracker.Valid() && -1 <= last
    }

    constructor (useCounter: bool, budget: nat, width: nat)
      requires 0 < budget < width < TWO32
      ensures Valid() && fresh(tracker) && last == -1 && normalSelected == 0
    {
      this.useCounter, last, normalSelected := useCounter, -1, 0;
      tracker := new BudgetWindowTracker(budget, width);
    }

    /** A latency-sensitive process is preferred only while the window's budget lasts. */
    method PickNext(procs: seq<Proc>, lsCount: int, now: nat, ghost T: nat) returns (r: int)
      requires Valid() && (last < |procs| || |procs| == 0) && tracker.Reads(now, T)
      modifies this, tracker
      ensures Valid() && tracker.seen == T && tracker.log == old(tracker.log)
      ensures r == -1 <==> forall j :: 0 <= j < |procs| ==> procs[j].state != Runnable
      ensures r == -1 ==> last == old(last)
      ensures r != -1 ==> 0 <= r < |procs| && procs[r].state == Runnable && last == r
      ensures var left := Charges(tracker.log, Window(T, tracker.width), tracker.width) < tracker.budget;
              && PriPicked(procs, left && (useCounter ==> lsCount > 0), old(last), r)
              && (r != -1 && procs[r].priority != 1 && left && (useCounter ==> lsCount > 0) ==>
                    forall j :: 0 <= j < |procs| && procs[j].state == Runnable ==> procs[j].priority != 1)
              && (r != -1 ==> forall j :: && 0 <= j < |procs| && procs[j].state == Runnable
                                          && (procs[r].priority == 1 && left && (useCounter ==> lsCount > 0) ==>
                                                procs[j].priority == 1) ==>
                                if r > old(last) then j <= old(last) || r <= j else r <= j <= old(last))
              && normalSelected == old(normalSelected) +
                   if !left && lsCount > 0 && r != -1 && procs[r].priority != 1 then 1 else 0
    {
      assert forall j :: 0 <= j < |procs| ==> Runnables(procs)[j] == (procs[j].state == Runnable);
      assert forall j :: 0 <= j < |procs| ==>
               LsRunnables(procs)[j] == (procs[j].state == Runnable && procs[j].priority == 1);
      tracker.NotMistaken(now, T);
      var budgetOk := tracker.BudgetAvailable(now, T);
      if budgetOk && (useCounter ==> lsCount > 0) {
        r := Scan(LsRunnables(procs), last);
        if r != -1 {
          assert IsLs(procs[r]);
          NoneBetween(LsRunnables(procs), last, r);
          last := r;
          return;
        }
        assert forall i :: 0 <= i < |procs| ==> LsRunnables(procs)[i] == IsLs(procs[i]);
      }
      r := Scan(Runnables(procs), last);
      if r != -1 {
        NoneBetween(Runnables(procs), last, r);
        last := r;
        if !budgetOk && lsCount > 0 && procs[r].priority != 1 {
          normalSelected := normalSelected + 1;
        }
      }
    }

    /** A timer tick that hit a latency-sensitive process is charged, any other is not. */
    method ChargeTick(running: seq<Proc>, now: nat, ghost T: nat)
      requires Valid() && |running| <= 1 && tracker.Reads(now, T)
      modifies tracker
      ensures Valid()
      ensures tracker.log == old(tracker.log) + if |running| == 1 && running[0].priority == 1 then [T] else []
    {
      if |running| == 1 && running[0].priority == 1 {
        tracker.NotMistaken(now, T);
        tracker.Charge(now, T);
      }
    }
  }
}
