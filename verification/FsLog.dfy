/** File operations on the steps of the log: begin_op, then bread, a change, log_write and brelse for
    each block, in any interleaving of several operations and with any steps of readers in between,
    then end_op. */
module FsLog {
  import opened Blocks
  import opened Common
  import opened BufList
  import opened BufCache
  import opened LogCache
  import opened LogSpec
  import opened LogImpl
  import opened FsOwner
  import opened FsMap
  import opened FsState
  import opened FsCrash

  /** Operation op gives block w.bno the contents w.data. */
  datatype Change = Change(op: nat, w: Write)

  function Writes(plan: seq<Change>): (ws: seq<Write>)
    ensures |ws| == |plan| && forall i :: 0 <= i < |ws| ==> ws[i] == plan[i].w
  {
    seq(|plan|, i requires 0 <= i < |plan| => plan[i].w)
  }

  /** The blocks that operation op changes. */
  function Touched(plan: seq<Change>, op: nat): set<nat> {
    set i | 0 <= i < |plan| && plan[i].op == op :: plan[i].w.bno
  }

  /** How many blocks op brings to a log that holds those of e. */
  function Brings(plan: seq<Change>, op: nat, e: set<nat>): nat { |Touched(plan, op) - e| }

  /** Every operation of the plan has reserved room for the blocks it still brings to the log. */
  ghost predicate Reserved(plan: seq<Change>, lh: seq<nat>, left: map<nat, nat>) {
    && (forall i :: 0 <= i < |plan| ==> plan[i].op in left)
    && forall op <- left.Keys :: Brings(plan, op, Elems(lh)) <= left[op]
  }

  lemma TouchedRest(plan: seq<Change>, op: nat)
    requires plan != []
    ensures Touched(plan[1..], op) <= Touched(plan, op)
    ensures plan[0].op == op ==> plan[0].w.bno in Touched(plan, op)
  {
    forall n | n in Touched(plan[1..], op) ensures n in Touched(plan, op) {
      var i :| 0 <= i < |plan| - 1 && plan[1..][i].op == op && plan[1..][i].w.bno == n;
      assert plan[i + 1].op == op && plan[i + 1].w.bno == n;
    }
  }

  lemma BringsRest(plan: seq<Change>, op: nat, e: set<nat>)
    requires plan != []
    ensures var n := plan[0].w.bno;
            && Brings(plan[1..], op, e) <= Brings(plan, op, e) && Brings(plan[1..], op, e + {n}) <= Brings(plan, op, e)
            && (plan[0].op == op && n !in e ==> Brings(plan[1..], op, e + {n}) + 1 <= Brings(plan, op, e))
  {
    TouchedRest(plan, op);
    hide Touched;
    var (n, t0, t1) := (plan[0].w.bno, Touched(plan, op), Touched(plan[1..], op));
    SubsetSize(t1 - e, t0 - e);
    SubsetSize(t1 - (e + {n}), t0 - e);
    if plan[0].op == op && n !in e { SubsetSize(t1 - (e + {n}), t0 - e - {n}); }
  }

  lemma ElemsAppend(lh: seq<nat>, n: nat)
    ensures Elems(lh + [n]) == Elems(lh) + {n} && (n in Elems(lh) <==> n in lh)
  {
  }

  /** The first change is paid for. */
  lemma ReservedFirst(plan: seq<Change>, lh: seq<nat>, left: map<nat, nat>)
    requires plan != [] && Reserved(plan, lh, left)
    ensures plan[0].op in left && (plan[0].w.bno !in lh ==> left[plan[0].op] > 0)
  {
    ElemsAppend(lh, plan[0].w.bno);
    hide Brings, Elems;
    BringsRest(plan, plan[0].op, Elems(lh));
  }

  /** A change of a logged block leaves the reservations good. */
  lemma ReservedAbsorb(plan: seq<Change>, lh: seq<nat>, left: map<nat, nat>)
    requires plan != [] && Reserved(plan, lh, left)
    ensures Reserved(plan[1..], lh, left)
  {
    hide Brings, Elems;
    forall o <- left.Keys ensures Brings(plan[1..], o, Elems(lh)) <= left[o] { BringsRest(plan, o, Elems(lh)); }
  }

  /** A change of another block uses one of op's. */
  lemma ReservedAppend(plan: seq<Change>, lh: seq<nat>, left: map<nat, nat>)
    requires plan != [] && Reserved(plan, lh, left) && plan[0].w.bno !in lh
    requires plan[0].op in left && left[plan[0].op] > 0
    ensures Reserved(plan[1..], lh + [plan[0].w.bno], left[plan[0].op := left[plan[0].op] - 1])
  {
    var (op, n, e) := (plan[0].op, plan[0].w.bno, Elems(lh));
    ElemsAppend(lh, n);
    forall o <- left.Keys ensures Brings(plan[1..], o, e + {n}) + (if o == op then 1 else 0) <= left[o] {
      hide Brings, Elems;
      BringsRest(plan, o, e);
    }
    hide Brings, Elems;
    Charged(plan[1..], left, op, e + {n});
  }

  lemma Charged(plan: seq<Change>, left: map<nat, nat>, op: nat, e: set<nat>)
    requires op in left && left[op] > 0
    requires forall o <- left.Keys :: Brings(plan, o, e) + (if o == op then 1 else 0) <= left[o]
    ensures var left' := left[op := left[op] - 1];
            left'.Keys == left.Keys && forall o <- left'.Keys :: Brings(plan, o, e) <= left'[o]
  {
    hide Brings;
  }

  /** The change, log_write and brelse of a block that bread has put in buffer b; false when log_write
      panics. */
  method ChangeHeld(log: Log, c: Change, b: nat, env: Env, p: nat) returns (ok: bool)
    requires log.Valid() && log.dirty == {} && c.op in log.left && log.outstanding > 0
    requires log.L.Home(c.w.bno) && (c.w.bno !in log.lh ==> log.left[c.op] > 0)
    requires b < NBUF && Holds(log.bc.buf, b, log.dev, c.w.bno) && log.bc.buf[b].locked && log.bc.buf[b].valid
    modifies log.bc`buf, log.bc`waiting, log.bc`lru, log.bc`idle, log.bc`now, log.bc`pins
    modifies log`lh, log`live, log`logical, log`dirty, log`left
    ensures ok ==> log.Valid() && log.dirty == {} && log.logical == Do(old(log.logical), c.w)
    ensures ok ==> if c.w.bno in old(log.lh) then log.lh == old(log.lh) && log.left == old(log.left)
                   else && log.lh == old(log.lh) + [c.w.bno]
                        && log.left == old(log.left)[c.op := old(log.left)[c.op] - 1]
    ensures !ok ==> |log.lh| >= LOGBLOCKS
  {
    hide Coherent, Ok, DoAll, Consistent, HeadCount, Log.Admitted;
    log.Store(b, c.w.data);
    log.Others(env(p), {b}, -1);
    ok := log.LogWrite(b, c.op);
    if !ok { return; }
    log.Others(env(p + 1), {b}, -1);
    log.Release(b);
  }

  /** bread, the change, log_write and brelse of one block; false when bread does not get the block or
      log_write panics. */
  method ChangeBlock(log: Log, c: Change, env: Env, p: nat) returns (ok: bool)
    requires log.Valid() && log.dirty == {} && c.op in log.left && log.outstanding > 0
    requires log.L.Home(c.w.bno) && (c.w.bno !in log.lh ==> log.left[c.op] > 0)
    modifies log.bc`buf, log.bc`waiting, log.bc`lru, log.bc`idle, log.bc`now, log.bc`pins
    modifies log`lh, log`live, log`logical, log`dirty, log`left
    ensures ok ==> log.Valid() && log.dirty == {} && log.logical == Do(old(log.logical), c.w)
    ensures ok ==> if c.w.bno in old(log.lh) then log.lh == old(log.lh) && log.left == old(log.left)
                   else && log.lh == old(log.lh) + [c.w.bno]
                        && log.left == old(log.left)[c.op := old(log.left)[c.op] - 1]
    ensures !ok ==> log.Blocked() || |log.lh| >= LOGBLOCKS
  {
    hide Coherent, Ok, DoAll, Consistent, HeadCount, Log.Admitted, Log.Blocked;
    var n, b := c.w.bno, 0;
    ok, b := log.ReadWait(n, {}, env(p));
    if !ok { return; }
    log.Others(env(p + 1), {b}, -1);
    ok := ChangeHeld(log, c, b, env, p + 2);
  }

  // ----- several operations at once

  /** Any interleaving of operations that have reserved their blocks: the logical blocks become what the
      changes make of them, and log_write panics only on a full log. */
  method Interleave(log: Log, plan: seq<Change>, env: Env) returns (ok: bool)
    requires log.Valid() && log.dirty == {} && Reserved(plan, log.lh, log.left)
    requires forall i :: 0 <= i < |plan| ==> log.L.Home(plan[i].w.bno)
    modifies log.bc`buf, log.bc`waiting, log.bc`lru, log.bc`idle, log.bc`now, log.bc`pins
    modifies log`lh, log`live, log`logical, log`dirty, log`left
    ensures ok ==> log.Valid() && log.dirty == {} && log.logical == DoAll(old(log.logical), Writes(plan))
    ensures ok ==> log.left.Keys == old(log.left).Keys
    ensures !ok ==> log.Blocked() || |log.lh| >= LOGBLOCKS
  {
    hide Coherent, Ok, Consistent, HeadCount, Log.Admitted, Log.Blocked, Log.Ready, Reserved, DoAll, Writes;
    var i := 0;
    assert plan[0..] == plan;
    WritesTake(plan, 0, log.logical);
    while i < |plan|
      invariant 0 <= i <= |plan| && log.Valid() && log.dirty == {} && Reserved(plan[i..], log.lh, log.left)
      invariant log.logical == DoAll(old(log.logical), Writes(plan[..i]))
      invariant log.left.Keys == old(log.left).Keys
    {
      var rest := plan[i..];
      assert rest[0] == plan[i] && rest[1..] == plan[i + 1..];
      ReservedFirst(rest, log.lh, log.left);
      OpsOut(log, plan[i].op);
      WritesTake(plan, i + 1, old(log.logical));
      if plan[i].w.bno in log.lh {
        ReservedAbsorb(rest, log.lh, log.left);
      } else {
        ReservedAppend(rest, log.lh, log.left);
      }
      ok := ChangeBlock(log, plan[i], env, 4 * i);
      if !ok { return; }
      i := i + 1;
    }
    assert plan[..i] == plan;
    ok := true;
  }

  lemma OpsOut(log: Log, op: nat)
    requires log.Valid() && op in log.left
    ensures log.outstanding > 0
  {
    assert |log.left| == log.outstanding;
  }

  lemma WritesTake(plan: seq<Change>, i: nat, d: seq<Block>)
    requires i <= |plan|
    ensures i == 0 ==> DoAll(d, Writes(plan[..i])) == d
    ensures i > 0 ==> DoAll(d, Writes(plan[..i])) == Do(DoAll(d, Writes(plan[..i - 1])), plan[i - 1].w)
  {
    if i > 0 {
      var ws := Writes(plan[..i]);
      assert ws[..|ws| - 1] == Writes(plan[..i - 1]);
    }
  }

  /** end_op of all operations; the last one commits.  False when the commit cannot go on. */
  method EndAll(log: Log, ops: seq<nat>, env: Env) returns (ok: bool)
    requires log.Valid() && log.dirty == {} && ops != [] && Distinct(ops) && log.left.Keys == Elems(ops)
    modifies log, log.bc
    ensures ok ==> log.Valid() && log.dirty == {} && log.lh == [] && log.left == map[]
    ensures ok ==> forall n: nat :: log.L.Home(n) ==> log.logical[n] == log.bc.disk[n] == old(log.logical)[n]
    ensures !ok ==> log.Blocked()
    decreases |ops|
  {
    hide Coherent, Ok, Consistent, HeadCount, Log.Blocked, Log.Ready, Log.Admitted, DoAll, CommitWrites, Pick, Elems;
    EndNext(log, ops);
    ghost var k;
    ok, k := log.EndOp(ops[0], env);
    if !ok { return; }
    if |ops| > 1 {
      ok := EndAll(log, ops[1..], env);
    } else {
      NoneLeft(log);
    }
  }

  lemma EndNext(log: Log, ops: seq<nat>)
    requires log.Valid() && ops != [] && Distinct(ops) && log.left.Keys == Elems(ops)
    ensures ops[0] in log.left && log.outstanding == |ops|
    ensures (log.left - {ops[0]}).Keys == Elems(ops[1..]) && Distinct(ops[1..])
  {
    assert |log.left| == log.outstanding && |log.left| == |log.left.Keys|;
    DistinctSize(ops);
    assert ops == [ops[0]] + ops[1..];
    forall n | n in Elems(ops[1..]) ensures n in Elems(ops) && n != ops[0] {
      var i :| 0 <= i < |ops| - 1 && ops[1..][i] == n;
      assert ops[i + 1] == n;
    }
  }

  lemma NoneLeft(log: Log)
    requires log.Valid() && log.outstanding == 0
    ensures log.left == map[] && log.dirty == {}
  {
    assert |log.left| == 0;
  }

  // ----- files

  /** The processes see the blocks of the image. */
  ghost predicate OnLog(log: Log, im: Image)
    reads log`logical
  {
    |log.logical| == |im.s| == log.L.size && forall b: nat | log.L.Home(b) :: log.logical[b] == im.s[b]
  }

  ghost predicate AllHome(L: Layout, ws: seq<Write>) {
    forall i :: 0 <= i < |ws| ==> L.Home(ws[i].bno)
  }

  /** Writes to home blocks do the same to two disks whose home blocks agree. */
  lemma {:induction false} SameWrites(L: Layout, d: seq<Block>, e: seq<Block>, ws: seq<Write>)
    requires |d| == |e| == L.size && forall b: nat | L.Home(b) :: d[b] == e[b]
    ensures forall b: nat | L.Home(b) :: DoAll(d, ws)[b] == DoAll(e, ws)[b]
  {
    if ws != [] { SameWrites(L, d, e, ws[..|ws| - 1]); }
  }

  /** Operations ops, interleaved as in plan, take the file system from im to goal: when the last of them
      has ended, the disk holds the files of goal. */
  method Together(log: Log, plan: seq<Change>, ops: seq<nat>, env: Env, end: Env,
                  ghost g: Geo, ghost start: nat, ghost im: Image, ghost goal: Image)
    returns (ok: bool)
    requires log.Valid() && log.dirty == {} && ops != [] && Distinct(ops) && log.left.Keys == Elems(ops)
    requires Reserved(plan, log.lh, log.left) && AllHome(log.L, Writes(plan))
    requires Fits(log.L, g, start) && OnLog(log, im) && DoAll(im.s, Writes(plan)) == goal.s && Sound(g, start, goal)
    modifies log, log.bc
    ensures ok ==> log.Valid() && log.dirty == {} && log.lh == [] && log.left == map[] && OnLog(log, goal)
    ensures ok ==> OnDisk(log.bc.disk, log.L, goal) && HasFiles(log.bc.disk, g, start, goal)
    ensures !ok ==> log.Blocked() || |log.lh| >= LOGBLOCKS
  {
    assert forall i :: 0 <= i < |plan| ==> log.L.Home(Writes(plan)[i].bno);
    hide Log.Blocked, Reserved, Sound, HasFiles, DoAll, Writes, Fits, Log.Ready, Log.Admitted;
    SameWrites(log.L, log.logical, im.s, Writes(plan));
    ok := Interleave(log, plan, env);
    if !ok { return; }
    ok := EndAll(log, ops, end);
    if ok {
      Sizes(log);
      DiskFiles(log.bc.disk, log.L, g, start, goal);
    }
  }

  lemma Sizes(log: Log)
    requires log.Valid()
    ensures |log.bc.disk| == |log.logical| == log.L.size
  {
  }

  /** A crash at any point of the commit, with any number of interrupted recoveries after it, leaves the
      files as they were before the operations in the log or as these made them. */
  lemma CrashedFiles(log: Log, g: Geo, start: nat, im: Image, goal: Image, k: nat, crashes: seq<nat>)
    requires log.Ready() && k <= |CommitWrites(log.bc.disk, log.L, log.lh, Pick(log.logical, log.lh))|
    requires Fits(log.L, g, start) && OnDisk(log.bc.disk, log.L, im) && OnLog(log, goal)
    requires Sound(g, start, im) && Sound(g, start, goal)
    ensures var d := DoAll(log.bc.disk, CommitWrites(log.bc.disk, log.L, log.lh, Pick(log.logical, log.lh))[..k]);
            && Consistent(d, log.L)
            && var r := AfterCrashes(d, log.L, crashes);
               HasFiles(r, g, start, if k <= |log.lh| then im else goal)
  {
    hide Sound, HasFiles, DoAll, CommitWrites, AfterCrashes, Pick, Coherent, Consistent;
    log.CrashSafe(k, crashes);
    var d := DoAll(log.bc.disk, CommitWrites(log.bc.disk, log.L, log.lh, Pick(log.logical, log.lh))[..k]);
    var r := AfterCrashes(d, log.L, crashes);
    DiskFiles(r, log.L, g, start, if k <= |log.lh| then im else goal);
  }

  // ----- one operation

  function PlanOf(op: nat, s: seq<nat>, goal: Image): (plan: seq<Change>)
    requires forall i :: 0 <= i < |s| ==> s[i] < |goal.s|
    ensures |plan| == |s| && forall i :: 0 <= i < |s| ==> plan[i] == Change(op, Write(s[i], goal.s[s[i]]))
  {
    seq(|s|, i requires 0 <= i < |s| => Change(op, Write(s[i], goal.s[s[i]])))
  }

  lemma {:induction false} PlanWrites(d: seq<Block>, ws: seq<Write>, e: seq<Block>, b: nat)
    requires |d| == |e| && b < |d| && forall i :: 0 <= i < |ws| ==> ws[i].bno < |e| && ws[i].data == e[ws[i].bno]
    ensures DoAll(d, ws)[b] == if exists i :: 0 <= i < |ws| && ws[i].bno == b then e[b] else d[b]
  {
    if ws != [] {
      var r := ws[..|ws| - 1];
      PlanWrites(d, r, e, b);
      if exists i :: 0 <= i < |r| && r[i].bno == b {
        var i :| 0 <= i < |r| && r[i].bno == b;
        assert ws[i].bno == b;
      }
    }
  }

  lemma PlanEffect(lo: nat, im: Image, goal: Image, s: seq<nat>, op: nat)
    requires Journaled(lo, im.s, {}, goal.s, Elems(s)) && forall i :: 0 <= i < |s| ==> s[i] < |goal.s|
    ensures DoAll(im.s, Writes(PlanOf(op, s, goal))) == goal.s
  {
    var plan := PlanOf(op, s, goal);
    var ws := Writes(plan);
    hide Writes, DoAll, PlanOf;
    forall b: nat | b < |im.s| ensures DoAll(im.s, ws)[b] == goal.s[b] {
      PlanWrites(im.s, ws, goal.s, b);
      if b in Elems(s) {
        var i :| 0 <= i < |s| && s[i] == b;
        assert ws[i].bno == b;
      }
    }
  }

  lemma PlanReserved(goal: Image, s: seq<nat>, op: nat)
    requires Distinct(s) && |s| <= MAXOPBLOCKS && forall i :: 0 <= i < |s| ==> s[i] < |goal.s|
    ensures Reserved(PlanOf(op, s, goal), [], map[op := MAXOPBLOCKS])
  {
    var plan := PlanOf(op, s, goal);
    hide PlanOf;
    DistinctSize(s);
    assert Touched(plan, op) <= Elems(s);
    SubsetSize(Touched(plan, op) - Elems([]), Elems(s));
  }

  /** An operation of at most ten blocks, such as a chunk of filewrite, has a plan. */
  lemma Planned(L: Layout, g: Geo, start: nat, im: Image, goal: Image, tx: set<nat>, op: nat)
    returns (plan: seq<Change>)
    requires Fits(L, g, start) && |goal.s| == L.size && Transaction(g, start, im, goal, tx) && |tx| <= MAXOPBLOCKS
    ensures Reserved(plan, [], map[op := MAXOPBLOCKS]) && AllHome(L, Writes(plan))
    ensures DoAll(im.s, Writes(plan)) == goal.s
  {
    hide Sound, Reserved, DoAll;
    var s := Listing(tx);
    forall i | 0 <= i < |s| ensures s[i] < |goal.s| && L.Home(s[i]) { assert s[i] in tx; }
    plan := PlanOf(op, s, goal);
    PlanEffect(start, im, goal, s, op);
    PlanReserved(goal, s, op);
  }

  /** begin_op, the operation and end_op on a log that is empty. */
  method Operation(log: Log, op: nat, plan: seq<Change>, env: Env, end: Env,
                   ghost g: Geo, ghost start: nat, ghost im: Image, ghost goal: Image)
    returns (ok: bool)
    requires log.Valid() && log.lh == [] && log.left == map[]
    requires Reserved(plan, [], map[op := MAXOPBLOCKS]) && AllHome(log.L, Writes(plan))
    requires Fits(log.L, g, start) && OnLog(log, im) && DoAll(im.s, Writes(plan)) == goal.s && Sound(g, start, goal)
    modifies log, log.bc
    ensures ok ==> log.Valid() && log.dirty == {} && log.lh == [] && log.left == map[] && OnLog(log, goal)
    ensures ok ==> OnDisk(log.bc.disk, log.L, goal) && HasFiles(log.bc.disk, g, start, goal)
    ensures !ok ==> log.Blocked() || |log.lh| >= LOGBLOCKS
  {
    hide Log.Blocked, Reserved, Sound, HasFiles, DoAll, Writes, Fits, AllHome, Coherent, Ok, Consistent;
    assert |log.left| == log.outstanding;
    assert log.outstanding == 0 && log.dirty == {};
    var admitted := log.BeginOp(op);
    assert log.left == map[op := MAXOPBLOCKS];
    assert log.left.Keys == Elems([op]);
    ok := Together(log, plan, [op], env, end, g, start, im, goal);
  }

  /** A chain of operations, such as the chunks of a filewrite. */
  method Chain(log: Log, plans: seq<seq<Change>>, env: nat -> Env, ghost g: Geo, ghost start: nat,
               ghost images: seq<Image>)
    returns (ok: bool, n: nat)
    requires log.Valid() && log.lh == [] && log.left == map[] && Fits(log.L, g, start)
    requires |images| == |plans| + 1 && OnLog(log, images[0])
    requires forall i :: 0 <= i < |images| ==> Sound(g, start, images[i])
    requires forall i :: 0 <= i < |plans| ==>
               && Reserved(plans[i], [], map[0 := MAXOPBLOCKS]) && AllHome(log.L, Writes(plans[i]))
               && DoAll(images[i].s, Writes(plans[i])) == images[i + 1].s
    modifies log, log.bc
    ensures n <= |plans| && (ok <==> n == |plans|)
    ensures ok ==> log.Valid() && log.lh == [] && OnLog(log, images[n])
    ensures ok && plans != [] ==> HasFiles(log.bc.disk, g, start, images[n])
    ensures !ok ==> log.Blocked() || |log.lh| >= LOGBLOCKS
  {
    hide Log.Blocked, Reserved, Sound, HasFiles, DoAll, Writes, Fits, AllHome, Coherent, Ok, Consistent;
    hide Log.Ready, Log.Admitted;
    n, ok := 0, true;
    while n < |plans|
      invariant 0 <= n <= |plans| && ok && log.Valid() && log.lh == [] && log.left == map[] && OnLog(log, images[n])
      invariant n > 0 ==> HasFiles(log.bc.disk, g, start, images[n])
    {
      ok := Operation(log, 0, plans[n], env(2 * n), env(2 * n + 1), g, start, images[n], images[n + 1]);
      if !ok { return; }
      n := n + 1;
    }
  }
}
