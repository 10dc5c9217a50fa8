/** The scheduling policies: which process pick_next returns, and how long a process can be
    passed over. */
module SchedPick {
  datatype State = Unused | Used | Sleeping | Runnable | Running | Zombie

  datatype Proc = Proc(state: State, priority: int, seqno: nat)

  predicate IsRunnable(p: Proc) { p.state == Runnable }

  predicate IsLs(p: Proc) { p.state == Runnable && p.priority == 1 }

  function Runnables(procs: seq<Proc>): seq<bool> {
    seq(|procs|, i requires 0 <= i < |procs| => IsRunnable(procs[i]))
  }

  function LsRunnables(procs: seq<Proc>): seq<bool> {
    seq(|procs|, i requires 0 <= i < |procs| => IsLs(procs[i]))
  }

  // ----- circular order

  /** How many slots the scan looks at before slot i when it starts after `last`. */
  function Dist(last: int, i: int, n: nat): int {
    if i > last then i - last - 1 else i - last - 1 + n
  }

  /** r is the first slot after `last`, in circular order, with ok; -1 if there is none. */
  predicate Picked(ok: seq<bool>, last: int, r: int) {
    if r == -1 then forall j :: 0 <= j < |ok| ==> !ok[j]
    else 0 <= r < |ok| && ok[r] && forall j :: 0 <= j < |ok| && ok[j] ==> Dist(last, r, |ok|) <= Dist(last, j, |ok|)
  }

  lemma ModOnce(x: nat, n: nat)
    requires 0 < n <= x < 2 * n
    ensures x % n == x - n
  {
    assert x == n * 1 + (x - n);
  }

  lemma Wrap(last: int, i: nat, n: nat)
    requires -1 <= last < n && 1 <= i <= n
    ensures (last + i) % n == if last + i < n then last + i else last + i - n
    ensures Dist(last, (last + i) % n, n) == i - 1
  {
    var x: nat := last + i;
    if x >= n { ModOnce(x, n); } else { assert x % n == x; }
  }

  /** The circular scan of pick_next. */
  method Scan(ok: seq<bool>, last: int) returns (r: int)
    requires -1 <= last && (last < |ok| || |ok| == 0)
    ensures Picked(ok, last, r)
  {
    var (n, i) := (|ok|, 1);
    while i <= n
      invariant 1 <= i <= n + 1
      invariant forall j :: 0 <= j < n && ok[j] ==> Dist(last, j, n) >= i - 1
    {
      Wrap(last, i, n);
      var idx := (last + i) % n;
      if ok[idx] { return idx; }
      forall j | 0 <= j < n && ok[j] ensures Dist(last, j, n) >= i {
        assert Dist(last, j, n) == i - 1 ==> j == idx;
      }
      i := i + 1;
    }
    r := -1;
  }

  /** `last` after a pick: an idle one leaves it alone. */
  function After(last: int, r: int): int { if r == -1 then last else r }

  /** A picked slot has no eligible one between `last` and it, going round. */
  lemma NoneBetween(ok: seq<bool>, last: int, r: int)
    requires Picked(ok, last, r) && r != -1 && -1 <= last < |ok|
    ensures forall j :: 0 <= j < |ok| && ok[j] ==> if r > last then j <= last || r <= j else r <= j <= last
  {
  }

  // ----- the policies

  class RR {
    var last: int

    constructor ()
      ensures last == -1
    {
      last := -1;
    }

    method PickNext(procs: seq<Proc>) returns (r: int)
      requires -1 <= last && (last < |procs| || |procs| == 0)
      modifies this
      ensures r == -1 <==> forall j :: 0 <= j < |procs| ==> procs[j].state != Runnable
      ensures r == -1 ==> last == old(last)
      ensures r != -1 ==> 0 <= r < |procs| && procs[r].state == Runnable && last == r
      ensures r != -1 ==> forall j :: 0 <= j < |procs| && procs[j].state == Runnable ==>
                            if r > old(last) then j <= old(last) || r <= j else r <= j <= old(last)
      ensures Picked(Runnables(procs), old(last), r)
    {
      r := Scan(Runnables(procs), last);
      assert forall j :: 0 <= j < |procs| ==> Runnables(procs)[j] == (procs[j].state == Runnable);
      if r != -1 {
        NoneBetween(Runnables(procs), last, r);
        last := r;
      }
    }
  }

  /** PriorityPreempt's choice: latency-sensitive processes first, when the first pass is made. */
  predicate PriPicked(procs: seq<Proc>, firstPass: bool, last: int, r: int) {
    if firstPass && (exists i :: 0 <= i < |procs| && IsLs(procs[i])) then Picked(LsRunnables(procs), last, r)
    else Picked(Runnables(procs), last, r)
  }

  class PriorityPreempt {
    const useCounter: bool
    var last: int

    constructor (useCounter: bool)
      ensures last == -1 && this.useCounter == useCounter
    {
      this.useCounter, last := useCounter, -1;
    }

    method PickNext(procs: seq<Proc>, lsCount: int) returns (r: int)
      requires -1 <= last && (last < |procs| || |procs| == 0)
      modifies this
      ensures r == -1 <==> forall j :: 0 <= j < |procs| ==> procs[j].state != Runnable
      ensures r == -1 ==> last == old(last)
      ensures r != -1 ==> 0 <= r < |procs| && procs[r].state == Runnable && last == r
      ensures r != -1 && procs[r].priority != 1 && (useCounter ==> lsCount > 0) ==>
                forall j :: 0 <= j < |procs| && procs[j].state == Runnable ==> procs[j].priority != 1
      ensures r != -1 ==> forall j :: && 0 <= j < |procs| && procs[j].state == Runnable
                                      && (procs[r].priority == 1 && (useCounter ==> lsCount > 0) ==>
                                            procs[j].priority == 1) ==>
                            if r > old(last) then j <= old(last) || r <= j else r <= j <= old(last)
      ensures PriPicked(procs, useCounter ==> lsCount > 0, old(last), r)
    {
      assert forall j :: 0 <= j < |procs| ==> Runnables(procs)[j] == (procs[j].state == Runnable);
      assert forall j :: 0 <= j < |procs| ==>
               LsRunnables(procs)[j] == (procs[j].state == Runnable && procs[j].priority == 1);
      if useCounter ==> lsCount > 0 {
        r := Scan(LsRunnables(procs), last);
        if r != -1 {
          assert IsLs(procs[r]);
          NoneBetween(LsRunnables(procs), last, r);
          last := r;
          return;
        }
        assert forall i :: 0 <= i < |procs| ==> LsRunnables(procs)[i] == IsLs(procs[i]);
      }
      r := Scan(Runnables(procs), last);
      if r != -1 {
        NoneBetween(Runnables(procs), last, r);
        last := r;
      }
    }
  }

  /** A counter that is positive whenever a latency-sensitive process is runnable makes the
      counting policy choose what the scanning policy chooses, and move `last` alike. */
  lemma CounterStandsIn(procs: seq<Proc>, lsCount: int, last: int, r: int, s: int)
    requires -1 <= last < |procs| && forall i :: 0 <= i < |procs| && IsLs(procs[i]) ==> lsCount > 0
    requires PriPicked(procs, lsCount > 0, last, r) && PriPicked(procs, true, last, s)
    ensures r == s && After(last, r) == After(last, s)
  {
  }

  // ----- bounded bypass

  /** picks is what the circular scan returns, pick by pick, for the given eligibility vectors. */
  predicate PickRun(oks: seq<seq<bool>>, picks: seq<int>, last: int, n: nat)
    decreases |oks|
  {
    && |picks| == |oks|
    && (oks != [] ==> && |oks[0]| == n && Picked(oks[0], last, picks[0])
                      && PickRun(oks[1..], picks[1..], After(last, picks[0]), n))
  }

  /** A slot that stays eligible and is not picked is getting closer: fewer than n picks go
      elsewhere, and they go to different slots, in circular order. */
  lemma {:induction false} Bypass(oks: seq<seq<bool>>, picks: seq<int>, last: int, n: nat, s: nat)
    requires PickRun(oks, picks, last, n) && -1 <= last < n && s < n
    requires forall k :: 0 <= k < |oks| ==> |oks[k]| == n && oks[k][s]
    requires s !in picks
    ensures |picks| <= Dist(last, s, n) < n
    ensures forall k :: 0 <= k < |picks| ==> 0 <= picks[k] < n && Dist(last, picks[k], n) < Dist(last, s, n)
    ensures forall j, k :: 0 <= j < k < |picks| ==> Dist(last, picks[j], n) < Dist(last, picks[k], n)
    decreases |oks|
  {
    if oks != [] {
      var p := picks[0];
      assert oks[0][s] && p in picks;
      assert 0 <= p < n && Dist(last, p, n) < Dist(last, s, n);
      Bypass(oks[1..], picks[1..], p, n, s);
      forall k | 1 <= k < |picks| ensures Dist(last, picks[k], n) == Dist(last, p, n) + 1 + Dist(p, picks[k], n) {
        assert picks[k] == picks[1..][k - 1];
      }
      forall k | 1 <= k < |picks| ensures 0 <= picks[k] < n && Dist(last, picks[k], n) < Dist(last, s, n) {
        assert picks[k] == picks[1..][k - 1];
      }
      forall j, k | 0 <= j < k < |picks| ensures Dist(last, picks[j], n) < Dist(last, picks[k], n) {
        assert picks[k] == picks[1..][k - 1];
        if j > 0 { assert picks[j] == picks[1..][j - 1]; }
      }
    }
  }

  /** The picks that returned a slot, and the eligibility vectors at them. */
  function Awake(picks: seq<int>): seq<int> {
    if picks == [] then [] else (if picks[0] == -1 then [] else [picks[0]]) + Awake(picks[1..])
  }

  function AwakeAt(oks: seq<seq<bool>>, picks: seq<int>): seq<seq<bool>>
    requires |oks| == |picks|
  {
    if picks == [] then [] else (if picks[0] == -1 then [] else [oks[0]]) + AwakeAt(oks[1..], picks[1..])
  }

  /** Idle picks do not change who is next: without them the same slots are picked in the same order. */
  lemma {:induction false} IdleSkipped(oks: seq<seq<bool>>, picks: seq<int>, last: int, n: nat)
    requires PickRun(oks, picks, last, n)
    ensures PickRun(AwakeAt(oks, picks), Awake(picks), last, n)
    decreases |oks|
  {
    if oks != [] {
      var p := picks[0];
      IdleSkipped(oks[1..], picks[1..], if p == -1 then last else p, n);
      var (a, b) := (AwakeAt(oks, picks), Awake(picks));
      if p == -1 {
        assert a == AwakeAt(oks[1..], picks[1..]) && b == Awake(picks[1..]);
      } else {
        assert a[0] == oks[0] && a[1..] == AwakeAt(oks[1..], picks[1..]) && b[1..] == Awake(picks[1..]);
      }
    }
  }

  lemma {:induction false} AwakeFrom(oks: seq<seq<bool>>, picks: seq<int>, n: nat, s: nat)
    requires |oks| == |picks| && s < n && (forall k :: 0 <= k < |oks| ==> |oks[k]| == n)
    requires forall k :: 0 <= k < |oks| && picks[k] != -1 ==> oks[k][s]
    ensures forall k :: 0 <= k < |AwakeAt(oks, picks)| ==> |AwakeAt(oks, picks)[k]| == n && AwakeAt(oks, picks)[k][s]
    ensures s !in picks ==> s !in Awake(picks)
    decreases |oks|
  {
    if oks != [] { AwakeFrom(oks[1..], picks[1..], n, s); }
  }

  /** The bound with idle picks in between: they do not count, and s loses no place to them. */
  lemma BypassIdle(oks: seq<seq<bool>>, picks: seq<int>, last: int, n: nat, s: nat)
    requires PickRun(oks, picks, last, n) && -1 <= last < n && s < n && s !in picks
    requires forall k :: 0 <= k < |oks| ==> |oks[k]| == n && (picks[k] != -1 ==> oks[k][s])
    ensures |Awake(picks)| <= Dist(last, s, n) < n
    ensures forall j, k :: 0 <= j < k < |Awake(picks)| ==> Awake(picks)[j] != Awake(picks)[k]
  {
    IdleSkipped(oks, picks, last, n);
    AwakeFrom(oks, picks, n, s);
    Bypass(AwakeAt(oks, picks), Awake(picks), last, n, s);
  }

  /** Of any n consecutive picks during which s is eligible one is s, and before it no slot is
      picked twice. */
  lemma WithinOneRound(oks: seq<seq<bool>>, picks: seq<int>, last: int, n: nat, s: nat)
    requires PickRun(oks, picks, last, n) && -1 <= last < n && s < n && |oks| == n
    requires forall k :: 0 <= k < |oks| ==> |oks[k]| == n && oks[k][s]
    ensures s in picks
    ensures forall j, k :: 0 <= j < k < |picks| && s !in picks[..k + 1] ==> picks[j] != picks[k]
  {
    if s !in picks { Bypass(oks, picks, last, n, s); }
    forall j, k | 0 <= j < k < |picks| && s !in picks[..k + 1] ensures picks[j] != picks[k] {
      PickRunTake(oks, picks, last, n, k + 1);
      Bypass(oks[..k + 1], picks[..k + 1], last, n, s);
      assert picks[..k + 1][j] == picks[j] && picks[..k + 1][k] == picks[k];
    }
  }

  lemma {:induction false} PickRunTake(oks: seq<seq<bool>>, picks: seq<int>, last: int, n: nat, k: nat)
    requires PickRun(oks, picks, last, n) && k <= |oks|
    ensures PickRun(oks[..k], picks[..k], last, n)
    decreases k
  {
    if k > 0 {
      PickRunTake(oks[1..], picks[1..], After(last, picks[0]), n, k - 1);
      assert oks[..k][1..] == oks[1..][..k - 1] && picks[..k][1..] == picks[1..][..k - 1];
    }
  }

  /** A run of a two-pass policy; firsts says at which picks the first pass is made. */
  predicate PriRun(tables: seq<seq<Proc>>, firsts: seq<bool>, picks: seq<int>, last: int, n: nat)
    decreases |tables|
  {
    && |picks| == |tables| && |firsts| == |tables|
    && (tables != [] ==>
          && |tables[0]| == n && PriPicked(tables[0], firsts[0], last, picks[0])
          && PriRun(tables[1..], firsts[1..], picks[1..], After(last, picks[0]), n))
  }

  function Vectors(tables: seq<seq<Proc>>, ls: bool): (r: seq<seq<bool>>)
    ensures |r| == |tables|
  {
    seq(|tables|, k requires 0 <= k < |tables| => if ls then LsRunnables(tables[k]) else Runnables(tables[k]))
  }

  lemma {:induction false} OnePass(tables: seq<seq<Proc>>, firsts: seq<bool>, picks: seq<int>, last: int, n: nat,
                                   s: nat, ls: bool)
    requires PriRun(tables, firsts, picks, last, n) && s < n
    requires forall k :: 0 <= k < |tables| ==> |tables[k]| == n && firsts[k] == ls && (ls ==> IsLs(tables[k][s]))
    ensures PickRun(Vectors(tables, ls), picks, last, n)
    decreases |tables|
  {
    if tables != [] {
      OnePass(tables[1..], firsts[1..], picks[1..], After(last, picks[0]), n, s, ls);
      assert Vectors(tables, ls)[1..] == Vectors(tables[1..], ls);
    }
  }

  /** RR: of any n consecutive picks during which s is runnable one is s. */
  lemma RoundRobin(tables: seq<seq<Proc>>, picks: seq<int>, last: int, n: nat, s: nat)
    requires PickRun(Vectors(tables, false), picks, last, n) && -1 <= last < n && s < n && |tables| == n
    requires forall k :: 0 <= k < n ==> |tables[k]| == n && IsRunnable(tables[k][s])
    ensures s in picks
    ensures forall j, k :: 0 <= j < k < |picks| && s !in picks[..k + 1] ==> picks[j] != picks[k]
  {
    WithinOneRound(Vectors(tables, false), picks, last, n, s);
  }

  /** Latency-sensitive processes go round robin among themselves, whatever the others do. */
  lemma LsRoundRobin(tables: seq<seq<Proc>>, firsts: seq<bool>, picks: seq<int>, last: int, n: nat, s: nat)
    requires PriRun(tables, firsts, picks, last, n) && -1 <= last < n && s < n && |tables| == n
    requires forall k :: 0 <= k < n ==> |tables[k]| == n && firsts[k] && IsLs(tables[k][s])
    ensures s in picks
    ensures forall j, k :: 0 <= j < k < |picks| && s !in picks[..k + 1] ==> picks[j] != picks[k]
  {
    OnePass(tables, firsts, picks, last, n, s, true);
    WithinOneRound(Vectors(tables, true), picks, last, n, s);
  }

  /** While the first pass is not made, all runnable processes go round robin. */
  lemma PlainRoundRobin(tables: seq<seq<Proc>>, firsts: seq<bool>, picks: seq<int>, last: int, n: nat, s: nat)
    requires PriRun(tables, firsts, picks, last, n) && -1 <= last < n && s < n && |tables| == n
    requires forall k :: 0 <= k < n ==> |tables[k]| == n && !firsts[k] && IsRunnable(tables[k][s])
    ensures s in picks
    ensures forall j, k :: 0 <= j < k < |picks| && s !in picks[..k + 1] ==> picks[j] != picks[k]
  {
    OnePass(tables, firsts, picks, last, n, s, false);
    WithinOneRound(Vectors(tables, false), picks, last, n, s);
  }
}
