/** log.c: transactions over the buffer cache. */
module LogImpl {
  import opened Blocks
  import opened Common
  import opened BufList
  import opened BufCache
  import opened LogCache
  import opened LogSpec
  import opened Sums

  const MAXOPBLOCKS := 10

  /** Steps of other processes that read outside transactions: bread, its end for a process that
      had to wait, and brelse. */
  datatype Act = OtherRead(n: nat) | OtherFill(b: nat) | OtherRelease(b: nat)

  /** What the others do at each point of an operation. */
  type Env = nat -> seq<Act>

  ghost predicate Calm(env: Env) { forall p: nat :: env(p) == [] }

  /** Everything about a buffer but its reference count and its place in the list. */
  predicate SameHeld(f: Buf, f': Buf) {
    f'.dev == f.dev && f'.blockno == f.blockno && f'.valid == f.valid && f'.data == f.data && f'.locked == f.locked
  }

  class Log {
    const bc: Bcache
    const L: Layout
    const dev: nat
    var lh: seq<nat>        // log.lh.block[..log.lh.n]
    var outstanding: nat
    var committing: bool
    ghost var logical: seq<Block>
    ghost var live: seq<nat>
    ghost var dirty: set<nat>
    ghost var left: map<nat, nat>  // blocks each outstanding operation may still add to the log

    /** initlog before recovery: a fresh cache over the disk. */
    constructor (bc: Bcache, L: Layout, dev: nat)
      requires bc.Valid() && L.Ok() && |bc.disk| == L.size && dev != 0
      requires forall b: nat :: b < NBUF ==> bc.buf[b].dev == 0 && bc.pins[b] == 0
      ensures this.bc == bc && this.L == L && this.dev == dev
      ensures Agree() && lh == live == [] && dirty == {} && logical == bc.disk
      ensures outstanding == 0 && !committing && left == map[]
    {
      this.bc, this.L, this.dev := bc, L, dev;
      lh, outstanding, committing := [], 0, false;
      logical, live, dirty, left := bc.disk, [], {}, map[];
    }

    /** Holds between any two steps, whoever takes them. */
    ghost predicate Agree()
      reads this`logical, this`live, this`dirty, bc
    {
      && bc.Valid() && L.Ok() && |bc.disk| == |logical| == L.size
      && Coherent(bc.buf, bc.pins, bc.disk, logical, live, dirty, dev)
    }

    /** Outside s, no buffer is held or waited for. */
    ghost predicate QuietBut(s: set<nat>)
      reads bc
    {
      && |bc.waiting| == NBUF && (forall b: nat :: b < NBUF ==> bc.waiting[b] == 0)
      && forall b: nat :: b < NBUF && b !in s ==> !bc.buf[b].locked
    }

    ghost predicate Spare()
      reads bc
    {
      exists b: nat :: b < NBUF && bc.buf[b].refcnt == 0
    }

    /** Block n is not cached and no buffer can be recycled for it. */
    ghost predicate Stuck(n: nat)
      reads bc
    {
      !Cached(bc.buf, dev, n) && !Spare()
    }

    // ----- steps of any process

    /** bread: the contents are the logical block. */
    method Read(n: nat) returns (r: Got)
      requires Agree() && n < L.size
      modifies bc`buf, bc`waiting
      ensures Agree() && (old(Valid()) ==> Valid())
      ensures r.Buffer? ==> r.b < NBUF && Holds(bc.buf, r.b, dev, n) && bc.buf[r.b].locked && bc.buf[r.b].valid
      ensures r.Buffer? ==> bc.buf[r.b].data == logical[n] && r.b !in dirty
      ensures r.Buffer? ==> Obtained(old(bc.buf), r.b, dev, n) && !old(bc.buf)[r.b].locked
                            && bc.waiting == old(bc.waiting)
                            && bc.buf == old(bc.buf)[r.b := Filled(Taken(old(bc.buf)[r.b], dev, n), bc.disk)]
      ensures r.Panic? <==> !old(Cached(bc.buf, dev, n)) && forall c: nat :: c < NBUF ==> old(bc.buf)[c].refcnt > 0
      ensures r.Panic? ==> bc.buf == old(bc.buf) && bc.waiting == old(bc.waiting)
      ensures r.Wait? ==> && r.b < NBUF && old(bc.buf)[r.b].locked && Holds(old(bc.buf), r.b, dev, n)
                          && bc.buf == old(bc.buf)[r.b := Taken(old(bc.buf)[r.b], dev, n)]
                          && bc.waiting == old(bc.waiting)[r.b := old(bc.waiting)[r.b] + 1]
    {
      ghost var (t, w) := (bc.buf, bc.waiting);
      r := bc.Bread(dev, n);
      if r.Buffer? {
        ReadOk(t, bc.pins, bc.disk, logical, live, dirty, dev, w, r.b, n);
      } else if r.Wait? {
        TakeOk(t, bc.pins, bc.disk, logical, live, dirty, dev, w, r.b, n);
      }
    }

    /** brelse of a buffer that is not dirty. */
    method Release(b: nat)
      requires Agree() && b < NBUF && bc.buf[b].locked && b !in dirty
      modifies bc`buf, bc`lru, bc`idle, bc`now
      ensures Agree() && (old(Valid()) ==> Valid())
      ensures SameButLinks(Released(old(bc.buf), b), bc.buf)
    {
      ghost var t := bc.buf;
      var ok := bc.Brelse(b);
      StepOk(t, bc.buf, bc.pins, bc.disk, logical, live, dirty, dev);
    }

    /** The holder overwrites the buffer's contents. */
    method Store(b: nat, data: Block)
      requires Agree() && b < NBUF && bc.buf[b].locked && bc.buf[b].dev == dev
      modifies bc`buf, this`dirty
      ensures Agree() && dirty == old(dirty) + {b}
      ensures old(Valid()) && outstanding > 0 ==> Valid()
      ensures bc.buf == old(bc.buf)[b := old(bc.buf)[b].(data := data)]
    {
      ModifyOk(bc.buf, bc.pins, bc.disk, logical, live, dirty, dev, b, data);
      bc.Modify(b, data);
      dirty := dirty + {b};
    }

    /** bwrite of a block that is not logged. */
    method WriteThrough(b: nat)
      requires Agree() && b < NBUF && bc.buf[b].locked && bc.buf[b].dev == dev && bc.buf[b].blockno !in live
      modifies bc`disk, bc`writes, this`dirty, this`logical
      ensures Agree() && dirty == old(dirty) - {b}
      ensures var (n, data) := (bc.buf[b].blockno, bc.buf[b].data);
              && bc.disk == old(bc.disk)[n := data] && logical == old(logical)[n := data]
              && bc.writes == old(bc.writes) + [Write(n, data)]
    {
      WriteThroughOk(bc.buf, bc.pins, bc.disk, logical, live, dirty, dev, b);
      var ok := bc.Bwrite(b);
      logical := logical[bc.buf[b].blockno := bc.buf[b].data];
      dirty := dirty - {b};
    }

    /** One step of another process, while this one holds the buffers `mine` and, if me >= 0, waits
        for buffer me.  A bread that would panic is left out: it halts the machine. */
    method OtherStep(a: Act, mine: set<nat>, me: int)
      requires Agree() && dirty <= mine && (forall b <- mine :: b < NBUF && bc.buf[b].locked)
      requires me >= 0 ==> me < NBUF && bc.waiting[me] > 0
      modifies bc`buf, bc`waiting, bc`lru, bc`idle, bc`now
      ensures Agree() && forall b <- mine :: SameHeld(old(bc.buf)[b], bc.buf[b])
      ensures me >= 0 ==> && bc.waiting[me] > 0
                          && bc.buf[me].dev == old(bc.buf)[me].dev && bc.buf[me].blockno == old(bc.buf)[me].blockno
    {
      assert forall b <- mine :: bc.buf[b].refcnt > 0;
      assert me >= 0 ==> bc.buf[me].refcnt > 0;
      hide Coherent, Ok, DoAll;
      match a
      case OtherRead(n) =>
        if n < L.size {
          var r := Read(n);
        }
      case OtherFill(b) =>
        if b < NBUF && !bc.buf[b].locked && bc.waiting[b] > (if b == me then 1 else 0) && bc.buf[b].dev == dev {
          Finish(b);
        }
      case OtherRelease(b) =>
        if b < NBUF && b !in mine && bc.buf[b].locked {
          Release(b);
        }
    }

    /** The end of bread for a process that had to wait. */
    method Finish(b: nat)
      requires Agree() && b < NBUF && !bc.buf[b].locked && bc.waiting[b] > 0 && bc.buf[b].dev == dev
      modifies bc`buf, bc`waiting
      ensures Agree() && bc.buf[b].blockno < |bc.disk|
      ensures bc.buf == old(bc.buf)[b := Filled(old(bc.buf)[b], bc.disk)]
      ensures bc.waiting == old(bc.waiting)[b := old(bc.waiting)[b] - 1]
      ensures bc.buf[b].data == logical[bc.buf[b].blockno] && b !in dirty
    {
      FillOk(bc.buf, bc.pins, bc.disk, logical, live, dirty, dev, b);
      bc.Fill(b);
    }

    /** Any steps of other processes. */
    method Others(acts: seq<Act>, mine: set<nat>, me: int)
      requires Agree() && dirty <= mine && (forall b <- mine :: b < NBUF && bc.buf[b].locked)
      requires me >= 0 ==> me < NBUF && bc.waiting[me] > 0
      modifies bc`buf, bc`waiting, bc`lru, bc`idle, bc`now
      ensures Agree() && forall b <- mine :: SameHeld(old(bc.buf)[b], bc.buf[b])
      ensures me >= 0 ==> && bc.waiting[me] > 0
                          && bc.buf[me].dev == old(bc.buf)[me].dev && bc.buf[me].blockno == old(bc.buf)[me].blockno
      ensures acts == [] ==> bc.buf == old(bc.buf) && bc.waiting == old(bc.waiting)
    {
      hide Coherent, Ok, DoAll;
      var i := 0;
      while i < |acts|
        invariant 0 <= i <= |acts| && Agree() && forall b <- mine :: SameHeld(old(bc.buf)[b], bc.buf[b])
        invariant me >= 0 ==> && bc.waiting[me] > 0
                              && bc.buf[me].dev == old(bc.buf)[me].dev && bc.buf[me].blockno == old(bc.buf)[me].blockno
        invariant i == 0 ==> bc.buf == old(bc.buf) && bc.waiting == old(bc.waiting)
      {
        OtherStep(acts[i], mine, me);
        i := i + 1;
      }
    }

    /** A buffer of block n is held. */
    ghost predicate Held(n: nat)
      reads bc
    {
      exists b: nat :: b < NBUF && bc.buf[b].locked && Holds(bc.buf, b, dev, n)
    }

    /** Some process cannot go on: there is no buffer for the block it needs, or it waits for a buffer
        that is held. */
    ghost predicate Blocked()
      reads bc
    {
      exists n: nat, b: nat :: n < L.size && b < NBUF && BlockedOn(n, b)
    }

    ghost predicate BlockedOn(n: nat, b: nat)
      requires b < NBUF
      reads bc
    {
      Stuck(n) || (|bc.waiting| == NBUF && bc.waiting[b] > 0 && bc.buf[b].locked && Holds(bc.buf, b, dev, n))
    }

    /** bread that waits while the others take steps; false when it panics or waits on. */
    method ReadWait(n: nat, mine: set<nat>, acts: seq<Act>) returns (ok: bool, b: nat)
      requires Agree() && n < L.size && dirty <= mine && forall b <- mine :: b < NBUF && bc.buf[b].locked
      modifies bc`buf, bc`waiting, bc`lru, bc`idle, bc`now
      ensures Agree() && forall b <- mine :: SameHeld(old(bc.buf)[b], bc.buf[b])
      ensures ok ==> && b < NBUF && Holds(bc.buf, b, dev, n) && bc.buf[b].locked && bc.buf[b].valid
                     && bc.buf[b].data == logical[n] && b !in dirty && b !in mine
      ensures old(Stuck(n)) ==> !ok
      ensures !old(Stuck(n)) && !old(Held(n)) ==>
                && ok && Obtained(old(bc.buf), b, dev, n) && !old(bc.buf)[b].locked && bc.waiting == old(bc.waiting)
                && bc.buf == old(bc.buf)[b := Filled(Taken(old(bc.buf)[b], dev, n), bc.disk)]
      ensures !ok ==> Blocked()
    {
      hide Coherent, Ok, DoAll;
      b := 0;
      var r := Read(n);
      if r.Panic? {
        assert BlockedOn(n, 0);
        return false, b;
      }
      b := r.b;
      ok := true;
      if r.Wait? {
        Others(acts, mine, b);
        if bc.buf[b].locked {
          assert BlockedOn(n, b);
          return false, b;
        }
        Finish(b);
      }
    }

    // ----- commit

    lemma LoggedIsCached(i: nat)
      requires Agree() && i < |live|
      ensures Cached(bc.buf, dev, live[i])
    {
    }

    /** With nothing logged, an unheld buffer is unreferenced. */
    lemma UnheldIsSpare(b: nat)
      requires Agree() && b < NBUF && !bc.buf[b].locked && bc.waiting[b] == 0 && bc.buf[b].blockno !in live
      ensures bc.buf[b].refcnt == 0
    {
    }

    /** Both buffers of one round of write_log or install_trans. */
    method ReadPair(m: nat, n: nat, env: Env, p: nat) returns (ok: bool, x: nat, y: nat)
      requires Agree() && m < L.size && n < L.size && m != n && dirty == {}
      modifies bc`buf, bc`waiting, bc`lru, bc`idle, bc`now
      ensures Agree()
      ensures ok ==> && x < NBUF && Holds(bc.buf, x, dev, m) && bc.buf[x].locked && bc.buf[x].data == logical[m]
                     && y < NBUF && Holds(bc.buf, y, dev, n) && bc.buf[y].locked && bc.buf[y].data == logical[n]
      ensures old(QuietBut({}) && Spare()) && (n in live || live == []) && Calm(env) ==> ok && QuietBut({x, y})
      ensures old(Stuck(m)) ==> !ok
      ensures !ok ==> Blocked()
    {
      hide Coherent, Ok, DoAll, Valid, Blocked;
      y := 0;
      ok, x := ReadWait(m, {}, env(p));
      if !ok { return; }
      Others(env(p + 1), {x}, -1);
      ok, y := ReadOther(n, x, env, p + 2);
    }

    method ReadOther(n: nat, x: nat, env: Env, p: nat) returns (ok: bool, y: nat)
      requires Agree() && n < L.size && dirty == {}
      requires x < NBUF && bc.buf[x].locked && bc.buf[x].dev == dev && bc.buf[x].blockno != n
      modifies bc`buf, bc`waiting, bc`lru, bc`idle, bc`now
      ensures Agree() && SameHeld(old(bc.buf)[x], bc.buf[x])
      ensures ok ==> y < NBUF && Holds(bc.buf, y, dev, n) && bc.buf[y].locked && bc.buf[y].data == logical[n]
      ensures old(QuietBut({x})) && (n in live || live == []) && Calm(env) ==> ok && QuietBut({x, y})
      ensures !ok ==> Blocked()
    {
      hide Coherent, Ok, DoAll, Valid, Blocked;
      if QuietBut({x}) && (n in live || live == []) && Calm(env) { SecondRead(n, x); }
      ok, y := ReadWait(n, {x}, env(p));
      if ok { Others(env(p + 1), {x, y}, -1); }
    }

    /** With one buffer held, the second bread of a round finds a buffer and need not wait. */
    lemma SecondRead(n: nat, x: nat)
      requires Agree() && QuietBut({x}) && x < NBUF && bc.buf[x].dev == dev && bc.buf[x].blockno != n
      requires n in live || live == []
      ensures !Stuck(n) && !Held(n)
    {
      hide Coherent, Ok, DoAll;
      if n in live {
        var i: nat :| i < |live| && live[i] == n;
        LoggedIsCached(i);
      } else {
        UnheldIsSpare(if x == 0 then 1 else 0);
      }
    }

    method ReleasePair(x: nat, y: nat, env: Env, p: nat)
      requires Agree() && x < NBUF && y < NBUF && x != y && dirty == {}
      requires bc.buf[x].locked && bc.buf[y].locked && bc.buf[x].blockno !in live
      modifies bc`buf, bc`waiting, bc`lru, bc`idle, bc`now
      ensures Agree()
      ensures old(QuietBut({x, y})) && Calm(env) ==> QuietBut({}) && Spare()
    {
      hide Coherent, Ok, DoAll, Valid;
      Release(y);
      Others(env(p), {x}, -1);
      Release(x);
      if old(QuietBut({x, y})) && Calm(env) { UnheldIsSpare(x); }
    }

    /** One round of write_log: copy the cached block lh[tail] to its log data block. */
    method CopyToLog(tail: nat, env: Env, p: nat) returns (ok: bool)
      requires Agree() && Loggable(L, lh) && live == lh && tail < |lh| && dirty == {}
      modifies bc, this`logical, this`dirty
      ensures Agree() && dirty == {}
      ensures ok ==> logical == old(logical)[L.start + 1 + tail := old(logical)[lh[tail]]]
                     && bc.writes == old(bc.writes) + [Write(L.start + 1 + tail, old(logical)[lh[tail]])]
      ensures !ok ==> logical == old(logical) && bc.writes == old(bc.writes)
      ensures old(QuietBut({}) && Spare()) && Calm(env) ==> ok && QuietBut({}) && Spare()
      ensures old(Stuck(L.start + 1 + tail)) && Calm(env) ==> !ok
      ensures !ok ==> Blocked()
    {
      hide Coherent, Ok, DoAll, Valid, SameHeld, Blocked;
      assert L.Home(lh[tail]);
      var to, from;
      Others(env(p), {}, -1);
      ok, to, from := ReadPair(L.start + 1 + tail, lh[tail], env, p + 1);
      if !ok { return; }
      CopyHeld(to, from, env, p + 5);
      ReleasePair(to, from, env, p + 7);
    }

    /** The memmove and bwrite of write_log, with both buffers held. */
    method CopyHeld(to: nat, from: nat, env: Env, p: nat)
      requires Agree() && dirty == {} && to < NBUF && from < NBUF && to != from
      requires bc.buf[to].locked && bc.buf[from].locked && bc.buf[to].dev == dev && bc.buf[to].blockno !in live
      modifies bc, this`logical, this`dirty
      ensures Agree() && dirty == {}
      ensures var (n, data) := (old(bc.buf)[to].blockno, old(bc.buf)[from].data);
              logical == old(logical)[n := data] && bc.writes == old(bc.writes) + [Write(n, data)]
      ensures bc.buf[to].locked && bc.buf[from].locked && bc.buf[to].blockno == old(bc.buf)[to].blockno
      ensures old(QuietBut({to, from})) && Calm(env) ==> QuietBut({to, from})
    {
      hide Coherent, Ok, DoAll, Valid;
      Store(to, bc.buf[from].data);
      Others(env(p), {to, from}, -1);
      WriteThrough(to);
      Others(env(p + 1), {to, from}, -1);
    }

    /** The first k log data blocks have taken the contents `data`. */
    ghost predicate LogHas(now: seq<Block>, before: seq<Block>, data: seq<Block>, k: nat) {
      k <= |data| && |now| == |before| == L.size &&
      forall n: nat :: n < L.size ==> now[n] == if L.start < n <= L.start + k then data[n - L.start - 1] else before[n]
    }

    lemma LogHasNone(now: seq<Block>, data: seq<Block>)
      requires |now| == L.size
      ensures LogHas(now, now, data, 0) && LogWrites(L, data)[..0] == []
    {
    }

    lemma LogHasHome(now: seq<Block>, before: seq<Block>, tail: nat)
      requires L.Ok() && Loggable(L, lh) && tail < |lh| && |before| == L.size
      requires LogHas(now, before, Pick(before, lh), tail)
      ensures L.Home(lh[tail]) && now[lh[tail]] == Pick(before, lh)[tail] && |Pick(before, lh)| == |lh| <= LOGBLOCKS
    {
      assert L.Home(lh[tail]);
    }

    lemma LogHasNext(now: seq<Block>, before: seq<Block>, data: seq<Block>, k: nat)
      requires L.Ok() && LogHas(now, before, data, k) && k < |data| <= LOGBLOCKS
      ensures LogHas(now[L.start + 1 + k := data[k]], before, data, k + 1)
      ensures LogWrites(L, data)[..k + 1] == LogWrites(L, data)[..k] + [Write(L.start + 1 + k, data[k])]
    {
    }

    /** write_log; k of its writes are done when it ends or stops. */
    method WriteLog(env: Env, p: nat) returns (ok: bool, ghost k: nat)
      requires Agree() && Loggable(L, lh) && live == lh && dirty == {}
      modifies bc, this`logical, this`dirty
      ensures Agree() && dirty == {}
      ensures var data := Pick(old(logical), lh);
              && k <= |data| && bc.writes == old(bc.writes) + LogWrites(L, data)[..k]
              && (ok ==> k == |data| && LogHas(logical, old(logical), data, k))
      ensures old(QuietBut({}) && Spare()) && Calm(env) ==> ok && QuietBut({}) && Spare()
      ensures old(Stuck(L.start + 1)) && Calm(env) && lh != [] ==> !ok && k == 0
      ensures !ok ==> Blocked()
    {
      hide Coherent, Ok, DoAll, Valid, Blocked, LogHas, LogWrites, Pick;
      LogHasNone(logical, Pick(logical, lh));
      ghost var data := Pick(old(logical), lh);
      ghost var ws := LogWrites(L, data);
      var tail := 0;
      ok, k := true, 0;
      while tail < |lh|
        invariant 0 <= tail <= |lh| && k == tail && Agree() && dirty == {}
        invariant bc.writes == old(bc.writes) + ws[..tail]
        invariant LogHas(logical, old(logical), data, tail)
        invariant old(QuietBut({}) && Spare()) && Calm(env) ==> QuietBut({}) && Spare()
        invariant old(Stuck(L.start + 1)) && Calm(env) ==> tail == 0 && Stuck(L.start + 1)
      {
        LogHasHome(logical, old(logical), tail);
        LogHasNext(logical, old(logical), data, tail);
        ok := CopyToLog(tail, env, p + 8 * tail);
        if !ok { return; }
        tail, k := tail + 1, k + 1;
      }
    }

    lemma UnloggedAgrees(n: nat)
      requires Agree() && n < L.size && n !in live
      ensures bc.disk[n] == logical[n]
    {
    }

    /** The loop of write_head that stores the count and the block numbers. */
    static method EncodeHead(b: Block, s: seq<nat>) returns (r: Block)
      requires |s| <= LOGBLOCKS && forall i :: 0 <= i < |s| ==> s[i] < WORD
      ensures r == FillHead(b, s)
      ensures GetWord(r, 0) == |s| && forall j: nat :: 1 <= j < WORDS ==>
                GetWord(r, j) == if j <= |s| then s[j - 1] else GetWord(b, j)
    {
      r := PutWord(b, 0, |s|);
      var i := 0;
      while i < |s|
        invariant 0 <= i <= |s| && r == FillBlocks(PutWord(b, 0, |s|), s[..i])
      {
        r := PutWord(r, 1 + i, s[i]);
        i := i + 1;
        assert s[..i][..i - 1] == s[..i - 1];
      }
      assert s[..i] == s;
      forall j: nat | j < WORDS
        ensures GetWord(r, j) == if j == 0 then |s| else if j <= |s| then s[j - 1] else GetWord(b, j)
      {
        HeadWords(b, s, j);
      }
    }

    /** write_head */
    method WriteHead(env: Env, p: nat) returns (ok: bool)
      requires Agree() && Loggable(L, lh) && L.start !in live && dirty == {}
      modifies bc, this`logical, this`dirty
      ensures Agree() && dirty == {}
      ensures var h := FillHead(old(bc.disk)[L.start], lh);
              && (ok ==> bc.writes == old(bc.writes) + [Write(L.start, h)] && logical == old(logical)[L.start := h])
              && (!ok ==> bc.writes == old(bc.writes) && logical == old(logical))
      ensures old(QuietBut({}) && Spare()) && Calm(env) ==> ok && QuietBut({}) && Spare()
      ensures !ok ==> Blocked()
    {
      hide Coherent, Ok, DoAll, Valid, FillHead, Blocked;
      UnloggedAgrees(L.start);
      var b;
      Others(env(p), {}, -1);
      ok, b := ReadWait(L.start, {}, env(p + 1));
      if !ok { return; }
      HeadHeld(b, env, p + 2);
      Release(b);
      if old(QuietBut({}) && Spare()) && Calm(env) { UnheldIsSpare(b); }
    }

    /** The copy into the header's buffer and its bwrite. */
    method HeadHeld(b: nat, env: Env, p: nat)
      requires Agree() && dirty == {} && Loggable(L, lh) && b < NBUF && bc.buf[b].locked && bc.buf[b].dev == dev
      requires bc.buf[b].blockno !in live
      modifies bc, this`logical, this`dirty
      ensures Agree() && dirty == {} && bc.buf[b].locked && bc.buf[b].blockno == old(bc.buf)[b].blockno
      ensures var (n, h) := (old(bc.buf)[b].blockno, FillHead(old(bc.buf)[b].data, lh));
              logical == old(logical)[n := h] && bc.writes == old(bc.writes) + [Write(n, h)]
      ensures old(QuietBut({b})) && Calm(env) ==> QuietBut({b})
    {
      hide Coherent, Ok, DoAll, Valid, FillHead;
      var h := EncodeHead(bc.buf[b].data, lh);
      Store(b, h);
      Others(env(p), {b}, -1);
      WriteThrough(b);
      Others(env(p + 1), {b}, -1);
    }

    /** Commit's half of install_trans: write the first live block home and unpin its buffer. */
    method WriteHome(b: nat)
      requires Agree() && live != [] && Distinct(live) && b < NBUF && bc.buf[b].locked
      requires Holds(bc.buf, b, dev, live[0]) && bc.buf[b].data == logical[live[0]]
      modifies bc`disk, bc`writes, bc`buf, bc`pins, this`live, this`dirty
      ensures Agree() && live == old(live)[1..] && dirty == old(dirty) - {b}
      ensures bc.writes == old(bc.writes) + [Write(old(live)[0], old(bc.buf)[b].data)]
      ensures bc.buf == old(bc.buf)[b := old(bc.buf)[b].(refcnt := old(bc.buf)[b].refcnt - 1)]
    {
      hide Coherent, ListOk, Unique, DoAll;
      HomeOk(bc.buf, bc.pins, bc.disk, logical, live, dirty, dev, b);
      var ok := bc.Bwrite(b);
      bc.Bunpin(b);
      live, dirty := live[1..], dirty - {b};
    }

    /** What install_trans finds: in a commit the logged blocks are pinned in the cache with the
        contents that the log holds; in recovery nothing is. */
    ghost predicate Installing(recovering: bool, tail: nat)
      reads this
    {
      && Loggable(L, lh) && tail <= |lh| && L.Ok() && |logical| == L.size
      && if recovering then live == []
         else live == lh[tail..] && forall i :: tail <= i < |lh| ==> logical[lh[i]] == logical[L.start + 1 + i]
    }

    /** The bwrite of install_trans, with the bunpin of the commit case. */
    method WriteBack(b: nat, tail: nat, recovering: bool)
      requires Agree() && Installing(recovering, tail) && tail < |lh| && dirty == {b}
      requires b < NBUF && bc.buf[b].locked && Holds(bc.buf, b, dev, lh[tail])
      requires bc.buf[b].data == logical[L.start + 1 + tail]
      modifies bc`disk, bc`writes, bc`buf, bc`pins, this`live, this`dirty, this`logical
      ensures Agree() && dirty == {} && Installing(recovering, tail + 1)
      ensures bc.writes == old(bc.writes) + [Write(lh[tail], old(logical)[L.start + 1 + tail])]
      ensures logical == old(logical)[lh[tail] := old(logical)[L.start + 1 + tail]]
      ensures bc.buf == old(bc.buf)[b := bc.buf[b]] && bc.buf[b].locked
    {
      hide Coherent, Ok, DoAll, Valid;
      assert L.Home(lh[tail]);
      if recovering {
        WriteThrough(b);
      } else {
        assert live[0] == lh[tail];
        WriteHome(b);
      }
    }

    /** One round of install_trans. */
    method InstallOne(tail: nat, recovering: bool, env: Env, p: nat) returns (ok: bool)
      requires Agree() && Installing(recovering, tail) && tail < |lh| && dirty == {}
      modifies bc, this`logical, this`dirty, this`live
      ensures Agree() && dirty == {}
      ensures !ok ==> bc.writes == old(bc.writes)
      ensures ok ==> Installing(recovering, tail + 1)
                     && bc.writes == old(bc.writes) + [Write(lh[tail], old(logical)[L.start + 1 + tail])]
                     && logical == old(logical)[lh[tail] := old(logical)[L.start + 1 + tail]]
      ensures old(QuietBut({}) && Spare()) && Calm(env) ==> ok && QuietBut({}) && Spare()
      ensures !ok ==> Blocked()
    {
      hide Coherent, Ok, DoAll, Valid, SameHeld, Blocked;
      assert L.Home(lh[tail]);
      var lbuf, dbuf;
      Others(env(p), {}, -1);
      ok, lbuf, dbuf := ReadPair(L.start + 1 + tail, lh[tail], env, p + 1);
      if !ok { return; }
      InstallHeld(lbuf, dbuf, tail, recovering, env, p + 5);
      LogBlocksNotLive(tail, recovering);
      ReleasePair(lbuf, dbuf, env, p + 7);
    }

    /** The memmove, bwrite and bunpin of install_trans, with both buffers held. */
    method InstallHeld(lbuf: nat, dbuf: nat, tail: nat, recovering: bool, env: Env, p: nat)
      requires Agree() && Installing(recovering, tail) && tail < |lh| && dirty == {}
      requires L.start + 1 + tail < |logical| && lh[tail] < |logical|
      requires lbuf < NBUF && dbuf < NBUF && lbuf != dbuf && bc.buf[lbuf].locked && bc.buf[dbuf].locked
      requires bc.buf[lbuf].data == logical[L.start + 1 + tail] && Holds(bc.buf, dbuf, dev, lh[tail])
      modifies bc, this`logical, this`dirty, this`live
      ensures Agree() && dirty == {} && Installing(recovering, tail + 1)
      ensures bc.writes == old(bc.writes) + [Write(lh[tail], old(logical)[L.start + 1 + tail])]
      ensures logical == old(logical)[lh[tail] := old(logical)[L.start + 1 + tail]]
      ensures bc.buf[lbuf].locked && bc.buf[dbuf].locked && bc.buf[lbuf].blockno == old(bc.buf)[lbuf].blockno
      ensures old(QuietBut({lbuf, dbuf})) && Calm(env) ==> QuietBut({lbuf, dbuf})
    {
      hide Coherent, Ok, DoAll, Valid;
      Store(dbuf, bc.buf[lbuf].data);
      Others(env(p), {lbuf, dbuf}, -1);
      WriteBack(dbuf, tail, recovering);
      Others(env(p + 1), {lbuf, dbuf}, -1);
    }

    lemma LogBlocksNotLive(tail: nat, recovering: bool)
      requires Installing(recovering, tail + 1)
      ensures L.start + 1 + tail !in live
    {
    }

    /** install_trans; k of its writes are done when it ends or stops. */
    method InstallTrans(recovering: bool, env: Env, p: nat) returns (ok: bool, ghost k: nat)
      requires Agree() && Installing(recovering, 0) && dirty == {}
      modifies bc, this`logical, this`dirty, this`live
      ensures Agree() && dirty == {}
      ensures k <= |lh| && bc.writes == old(bc.writes) + HomeWrites(lh, LogArea(old(logical), L, |lh|))[..k]
      ensures ok ==> k == |lh| && live == [] && logical[L.start] == old(logical)[L.start]
      ensures ok && !recovering ==> logical == old(logical)
      ensures old(QuietBut({}) && Spare()) && Calm(env) ==> ok && QuietBut({}) && Spare()
      ensures !ok ==> Blocked()
    {
      hide Coherent, Ok, DoAll, HomeWrites, LogArea, Blocked;
      ghost var ws := HomeWrites(lh, LogArea(old(logical), L, |lh|));
      var tail := 0;
      ok, k := true, 0;
      while tail < |lh|
        invariant 0 <= tail <= |lh| && k == tail && Agree() && dirty == {}
        invariant Installing(recovering, tail)
        invariant bc.writes == old(bc.writes) + ws[..tail]
        invariant SameLog(old(logical), logical, L, |lh|)
        invariant !recovering ==> logical == old(logical)
        invariant old(QuietBut({}) && Spare()) && Calm(env) ==> QuietBut({}) && Spare()
      {
        InstallNext(logical, old(logical), tail);
        ok := InstallOne(tail, recovering, env, p + 8 * tail);
        if !ok { return; }
        tail, k := tail + 1, k + 1;
      }
    }

    /** The home write of lh[tail] leaves the log area as it was. */
    lemma InstallNext(now: seq<Block>, before: seq<Block>, tail: nat)
      requires L.Ok() && Loggable(L, lh) && tail < |lh| && |before| == L.size
      requires SameLog(before, now, L, |lh|)
      ensures var ws := HomeWrites(lh, LogArea(before, L, |lh|));
              ws[..tail + 1] == ws[..tail] + [Write(lh[tail], now[L.start + 1 + tail])]
      ensures lh[tail] < L.size && SameLog(before, now[lh[tail] := now[L.start + 1 + tail]], L, |lh|)
    {
    }

    /** All disk writes since w0 took the disk from d0 to what it is now. */
    lemma WritesSince(d0: seq<Block>, w0: seq<Write>, ws: seq<Write>)
      requires bc.Valid() && d0 == DoAll(bc.boot, w0) && bc.writes == w0 + ws
      ensures bc.disk == DoAll(d0, ws)
    {
      DoAllConcat(bc.boot, w0, ws);
    }

    /** Between commits: nothing on disk is half done and every logged block is pinned. */
    ghost predicate Ready()
      reads this`logical, this`live, this`dirty, this`lh, bc
    {
      && Agree() && live == lh && Loggable(L, lh)
      && Consistent(bc.disk, L) && HeadCount(bc.disk, L) == 0
    }

    /** First half of commit(): write_log and the header write that commits. */
    method LogTransaction(env: Env, p: nat) returns (ok: bool, ghost k: nat)
      requires Ready() && dirty == {}
      modifies bc, this`logical, this`dirty
      ensures Agree() && dirty == {}
      ensures var data := Pick(old(logical), lh);
              && k <= |lh| + 1 && bc.writes == old(bc.writes) + LogPhase(old(bc.disk), L, lh, data)[..k]
              && (ok ==> && k == |lh| + 1 && Installing(false, 0) && LogArea(logical, L, |lh|) == data
                         && logical[L.start] == FillHead(old(bc.disk)[L.start], lh))
      ensures ok ==> forall n: nat :: L.Home(n) ==> logical[n] == old(logical)[n]
      ensures old(QuietBut({}) && Spare()) && Calm(env) ==> ok && QuietBut({}) && Spare()
      ensures old(Stuck(L.start + 1)) && Calm(env) && lh != [] ==> !ok && k == 0
      ensures !ok ==> Blocked()
    {
      hide Coherent, Ok, DoAll, FillHead, LogPhase, LogWrites, Pick, Blocked;
      ghost var (data, d) := (Pick(logical, lh), bc.disk);
      UnloggedAgrees(L.start);
      ok, k := WriteLog(env, p);
      PhasePrefix(d, L, lh, data, k);
      if !ok { return; }
      UnloggedAgrees(L.start);
      ok := WriteHead(env, p + 300);
      if !ok { return; }
      InstallingKept(old(logical));
      k := k + 1;
    }

    lemma InstallingKept(before: seq<Block>)
      requires L.Ok() && Loggable(L, lh) && live == lh && |before| == |logical| == L.size
      requires LogHas(logical[L.start := before[L.start]], before, Pick(before, lh), |lh|)
      ensures Installing(false, 0) && LogArea(logical, L, |lh|) == Pick(before, lh)
      ensures forall n: nat :: L.Home(n) ==> logical[n] == before[n]
    {
      assert lh[0..] == lh;
      var now := logical[L.start := before[L.start]];
      forall i | 0 <= i < |lh| ensures logical[lh[i]] == logical[L.start + 1 + i] {
        assert L.Home(lh[i]) && now[lh[i]] == before[lh[i]] && now[L.start + 1 + i] == before[lh[i]];
      }
    }

    /** Second half of commit(), and of recovery: install_trans, then clear the header. */
    method Apply(recovering: bool, env: Env, p: nat) returns (ok: bool, ghost k: nat)
      requires Agree() && Installing(recovering, 0) && dirty == {} && L.start !in live
      modifies bc, this`logical, this`dirty, this`live, this`lh
      ensures Agree() && dirty == {}
      ensures var ws := ApplyWrites(L, old(lh), LogArea(old(logical), L, |old(lh)|), old(logical)[L.start]);
              k <= |ws| && bc.writes == old(bc.writes) + ws[..k] && (ok ==> k == |ws|)
      ensures ok ==> live == lh == []
      ensures ok && !recovering ==> forall n: nat :: L.Home(n) ==> logical[n] == old(logical)[n]
      ensures old(QuietBut({}) && Spare()) && Calm(env) ==> ok && QuietBut({}) && Spare()
      ensures !ok ==> Blocked()
    {
      hide Coherent, Ok, DoAll, FillHead, HomeWrites, ApplyWrites, LogArea, Blocked;
      ghost var (s, data, h) := (lh, LogArea(logical, L, |lh|), logical[L.start]);
      ok, k := InstallTrans(recovering, env, p);
      ApplyPrefix(L, s, data, h, k);
      if !ok { return; }
      lh := [];
      UnloggedAgrees(L.start);
      ok := WriteHead(env, p + 300);
      if !ok { return; }
      k := k + 1;
    }

    /** commit(), while other processes take any steps env between its own: its writes are
        CommitWrites; it stops early only when it halts or waits on. */
    method Commit(env: Env) returns (ok: bool, ghost k: nat)
      requires Ready() && dirty == {}
      modifies bc, this`logical, this`dirty, this`live, this`lh
      ensures Agree() && dirty == {}
      ensures var ws := CommitWrites(old(bc.disk), L, old(lh), Pick(old(logical), old(lh)));
              k <= |ws| && bc.writes == old(bc.writes) + ws[..k] && (ok ==> k == |ws|)
      ensures ok ==> live == lh == []
      ensures ok ==> forall n: nat :: L.Home(n) ==> logical[n] == old(logical)[n]
      ensures old(QuietBut({}) && Spare()) && Calm(env) ==> ok && QuietBut({}) && Spare()
      ensures old(Stuck(L.start + 1)) && Calm(env) && old(lh) != [] ==> !ok && k == 0
      ensures !ok ==> Blocked()
    {
      hide Coherent, Ok, DoAll, FillHead, LogPhase, ApplyWrites, LogArea, Pick, Blocked;
      ghost var (d, s, data) := (bc.disk, lh, Pick(logical, lh));
      if |lh| == 0 { return true, 0; }
      ok, k := LogTransaction(env, 0);
      ghost var p := LogPhase(d, L, s, data);
      ghost var a := ApplyWrites(L, s, data, FillHead(d[L.start], s));
      assert p[..k] == (p + a)[..k];
      if !ok { return; }
      ghost var w1, j := bc.writes, k;
      assert p[..k] == p;
      ok, j := Apply(false, env, 1000);
      assert w1 + a[..j] == old(bc.writes) + (p + a)[..k + j];
      k := k + j;
    }

    /** Once all of commit()'s writes are done the disk is ready for the next transaction. */
    lemma CommitDone(d0: seq<Block>, w0: seq<Write>, s: seq<nat>, data: seq<Block>)
      requires Agree() && live == lh == [] && d0 == DoAll(bc.boot, w0)
      requires Consistent(d0, L) && HeadCount(d0, L) == 0 && Loggable(L, s) && |data| == |s|
      requires bc.writes == w0 + CommitWrites(d0, L, s, data)
      ensures Ready()
    {
      hide Coherent, Ok, DoAll, CommitWrites;
      var ws := CommitWrites(d0, L, s, data);
      WritesSince(d0, w0, ws);
      CommitPrefix(d0, L, s, data, |ws|);
      assert ws[..|ws|] == ws;
    }

    /** The transaction in progress turns the disk's home blocks into the logical ones. */
    lemma UpdatedIsLogical(b: nat)
      requires Ready() && L.Home(b)
      ensures Updated(bc.disk, lh, Pick(logical, lh), b) == logical[b]
    {
    }

    /** Crash safety of commit().  Cut off after any k of its disk writes and followed by a
        recovery that is itself cut off any number of times, it leaves all home blocks as the
        disk had them before, or all as the processes saw them: the latter exactly when the
        header write is among the k. */
    lemma CrashSafe(k: nat, crashes: seq<nat>)
      requires Ready() && k <= |CommitWrites(bc.disk, L, lh, Pick(logical, lh))|
      ensures var d := DoAll(bc.disk, CommitWrites(bc.disk, L, lh, Pick(logical, lh))[..k]);
              && Consistent(d, L)
              && var r := AfterCrashes(d, L, crashes);
                 && Consistent(r, L) && HeadCount(r, L) == 0
                 && forall b: nat | L.Home(b) :: r[b] == if k <= |lh| then bc.disk[b] else logical[b]
    {
      hide Coherent, Ok, DoAll, CommitWrites, AfterCrashes, Updated;
      CrashAtomic(bc.disk, L, lh, Pick(logical, lh), k, crashes);
      forall b: nat | L.Home(b) ensures Updated(bc.disk, lh, Pick(logical, lh), b) == logical[b] {
        UpdatedIsLogical(b);
      }
    }

    // ----- recovery

    /** The loop of read_head. */
    static method DecodeHead(b: Block) returns (s: seq<nat>)
      requires GetWord(b, 0) <= LOGBLOCKS
      ensures |s| == GetWord(b, 0) && forall i :: 0 <= i < |s| ==> s[i] == GetWord(b, 1 + i)
    {
      s := [];
      var i, n := 0, GetWord(b, 0);
      while i < n
        invariant 0 <= i <= n && |s| == i
        invariant forall j :: 0 <= j < i ==> s[j] == GetWord(b, 1 + j)
      {
        s := s + [GetWord(b, 1 + i)];
        i := i + 1;
      }
    }

    /** read_head */
    method ReadHead() returns (ok: bool)
      requires Agree() && live == [] && dirty == {} && Consistent(bc.disk, L)
      modifies bc`buf, bc`waiting, bc`lru, bc`idle, bc`now, this`lh
      ensures Agree() && (ok ==> lh == Heads(bc.disk, L))
      ensures old(QuietBut({}) && Spare()) ==> ok && QuietBut({}) && Spare()
      ensures !ok ==> Blocked()
    {
      hide Coherent, Ok, DoAll, Valid;
      UnloggedAgrees(L.start);
      var r := Read(L.start);
      if !r.Buffer? {
        assert BlockedOn(L.start, if r.Wait? then r.b else 0);
        return false;
      }
      lh := DecodeHead(bc.buf[r.b].data);
      assert lh == Heads(bc.disk, L);
      Release(r.b);
      if old(QuietBut({}) && Spare()) { UnheldIsSpare(r.b); }
      ok := true;
    }

    lemma AllAgree()
      requires Agree() && live == []
      ensures logical == bc.disk
    {
    }

    /** recover_from_log on a freshly started system. */
    method Recover() returns (ok: bool, ghost k: nat)
      requires Agree() && live == [] && dirty == {} && Consistent(bc.disk, L)
      modifies bc, this`logical, this`dirty, this`live, this`lh
      ensures Agree() && dirty == {}
      ensures var ws := RecoveryWrites(old(bc.disk), L);
              k <= |ws| && bc.writes == old(bc.writes) + ws[..k] && (ok ==> k == |ws|)
      ensures ok ==> Ready() && lh == [] && logical == bc.disk
      ensures ok ==> forall b: nat | L.Home(b) :: bc.disk[b] == Logical(old(bc.disk), L, b)
      ensures old(QuietBut({}) && Spare()) ==> ok && QuietBut({})
      ensures !ok ==> Blocked()
    {
      hide Coherent, Ok, DoAll, HomeWrites, LogArea, ApplyWrites, Blocked;
      ghost var (d0, w0) := (bc.disk, bc.writes);
      AllAgree();
      k := 0;
      ok := ReadHead();
      if !ok { return; }
      AllAgree();
      ok, k := Apply(true, _ => [], 0);
      if !ok { return; }
      AllAgree();
      RecoverDone(d0, w0);
    }

    lemma RecoverDone(d0: seq<Block>, w0: seq<Write>)
      requires Agree() && live == lh == [] && d0 == DoAll(bc.boot, w0) && Consistent(d0, L)
      requires bc.writes == w0 + RecoveryWrites(d0, L)
      ensures Ready() && forall b: nat | L.Home(b) :: bc.disk[b] == Logical(d0, L, b)
    {
      hide Coherent, Ok, DoAll, RecoveryWrites;
      WritesSince(d0, w0, RecoveryWrites(d0, L));
      RecoveryIdempotent(d0, L, []);
    }

    // ----- operations

    /** Room in the log is reserved for everything the outstanding operations may still add. */
    ghost predicate Admitted()
      reads this`lh, this`left, this`outstanding, this`committing
    {
      && |left| == outstanding && (committing ==> outstanding == 0)
      && (forall op :: op in left ==> left[op] <= MAXOPBLOCKS)
      && |lh| + Sum(left) <= LOGBLOCKS
    }

    /** The state between any two steps of any processes while no commit is running. */
    ghost predicate Valid()
      reads this, bc
    {
      Ready() && Admitted() && !committing && (outstanding == 0 ==> dirty == {})
    }

    /** begin_op for operation op, up to the point where it would sleep. */
    method BeginOp(op: nat) returns (admitted: bool)
      requires Admitted() && op !in left
      modifies this`outstanding, this`left
      ensures Admitted()
      ensures admitted <==> !committing && |lh| + (old(outstanding) + 1) * MAXOPBLOCKS <= LOGBLOCKS
      ensures admitted ==> outstanding == old(outstanding) + 1 && left == old(left)[op := MAXOPBLOCKS]
      ensures !admitted ==> outstanding == old(outstanding) && left == old(left)
    {
      if committing {
        return false;
      } else if |lh| + (outstanding + 1) * MAXOPBLOCKS > LOGBLOCKS {
        return false;
      }
      SumAtMost(left, MAXOPBLOCKS);
      SumSet(left, op, MAXOPBLOCKS);
      outstanding, left := outstanding + 1, left[op := MAXOPBLOCKS];
      admitted := true;
    }

    /** The scan of log_write: the position of block n in the log, or |lh|. */
    method FindLogged(n: nat) returns (i: nat)
      ensures i <= |lh| && (i == |lh| <==> n !in lh) && (i < |lh| ==> lh[i] == n)
    {
      i := 0;
      while i < |lh| && lh[i] != n
        invariant i <= |lh| && forall j :: 0 <= j < i ==> lh[j] != n
      {
        i := i + 1;
      }
    }

    /** log_write's last lines for a block that is new to the log. */
    method Append(b: nat)
      requires Ready() && |lh| < LOGBLOCKS && b < NBUF && bc.buf[b].locked && bc.buf[b].valid
      requires bc.buf[b].dev == dev && L.Home(bc.buf[b].blockno) && bc.buf[b].blockno !in lh
      modifies bc`buf, bc`pins, this`lh, this`live, this`logical, this`dirty
      ensures Ready() && dirty == old(dirty) - {b}
      ensures lh == old(lh) + [old(bc.buf)[b].blockno]
      ensures logical == old(logical)[old(bc.buf)[b].blockno := old(bc.buf)[b].data]
      ensures bc.buf == old(bc.buf)[b := old(bc.buf)[b].(refcnt := old(bc.buf)[b].refcnt + 1)]
    {
      hide Coherent, ListOk, Unique, DoAll, Heads, HeadCount, Consistent;
      var n := bc.buf[b].blockno;
      AppendOk(bc.buf, bc.pins, bc.disk, logical, live, dirty, dev, b);
      logical, dirty := logical[n := bc.buf[b].data], dirty - {b};
      bc.Bpin(b);
      lh := lh + [n];
      live := lh;
    }

    /** log_write of the held buffer b by operation op; false when it panics.  It also panics
        outside a transaction, which op in left rules out. */
    method LogWrite(b: nat, op: nat) returns (ok: bool)
      requires Valid() && op in left && b < NBUF && bc.buf[b].locked && bc.buf[b].valid
      requires bc.buf[b].dev == dev && L.Home(bc.buf[b].blockno)
      requires bc.buf[b].blockno !in lh ==> left[op] > 0
      modifies bc`buf, bc`pins, this`lh, this`live, this`logical, this`dirty, this`left
      ensures Valid()
      ensures ok <==> |old(lh)| < LOGBLOCKS
      ensures old(left)[op] > 0 ==> ok
      ensures bc.buf == old(bc.buf)[b := old(bc.buf)[b].(refcnt := bc.buf[b].refcnt)]
      ensures var (n, data) := (old(bc.buf)[b].blockno, old(bc.buf)[b].data);
              if ok then
                && dirty == old(dirty) - {b} && logical == old(logical)[n := data]
                && lh == (if n in old(lh) then old(lh) else old(lh) + [n])
                && left == (if n in old(lh) then old(left) else old(left)[op := old(left)[op] - 1])
              else
                lh == old(lh) && dirty == old(dirty) && logical == old(logical) && left == old(left)
    {
      hide Coherent, ListOk, Unique, DoAll, Heads, HeadCount, Consistent;
      SumRemove(left, op);
      if |lh| >= LOGBLOCKS { return false; }
      var n := bc.buf[b].blockno;
      var i := FindLogged(n);
      if i == |lh| {
        Append(b);
        SumSet(left, op, left[op] - 1);
        left := left[op := left[op] - 1];
      } else {
        AbsorbOk(bc.buf, bc.pins, bc.disk, logical, live, dirty, dev, b);
        lh := lh[i := n];
        logical, dirty := logical[n := bc.buf[b].data], dirty - {b};
      }
      ok := true;
    }

    /** The part of end_op that the last operation runs. */
    method CommitAll(env: Env) returns (ok: bool, ghost k: nat)
      requires Ready() && Admitted() && !committing && outstanding == 0 && dirty == {}
      modifies bc, this`logical, this`dirty, this`live, this`lh, this`committing
      ensures Agree() && (ok ==> Valid())
      ensures var ws := CommitWrites(old(bc.disk), L, old(lh), Pick(old(logical), old(lh)));
              && k <= |ws| && bc.writes == old(bc.writes) + ws[..k]
              && (ok ==> && k == |ws| && lh == []
                         && forall n: nat :: L.Home(n) ==> logical[n] == old(logical)[n] == bc.disk[n])
      ensures old(QuietBut({})) && Calm(env) ==> (ok <==> |old(lh)| < NBUF) && (!ok ==> k == 0)
      ensures !ok ==> Blocked()
    {
      hide Coherent, Ok, DoAll, CommitWrites, Pick, Blocked;
      if QuietBut({}) { SpareIffRoom(); }
      ghost var (d0, w0, s, data) := (bc.disk, bc.writes, lh, Pick(logical, lh));
      committing := true;
      ok, k := Commit(env);
      if ok {
        committing := false;
        CommitDone(d0, w0, s, data);
        AllAgree();
      }
    }

    /** end_op for operation op; the last one commits.  k counts the disk writes of the commit. */
    method EndOp(op: nat, env: Env) returns (ok: bool, ghost k: nat)
      requires Valid() && op in left && (outstanding == 1 ==> dirty == {})
      modifies bc, this
      ensures Agree() && left == old(left) - {op} && outstanding == old(outstanding) - 1
      ensures ok ==> Valid()
      ensures outstanding > 0 ==> ok && lh == old(lh) && logical == old(logical) && unchanged(bc) && dirty == old(dirty)
      ensures outstanding == 0 ==>
                var ws := CommitWrites(old(bc.disk), L, old(lh), Pick(old(logical), old(lh)));
                && k <= |ws| && bc.writes == old(bc.writes) + ws[..k]
                && (ok ==> && k == |ws| && lh == []
                           && forall n: nat :: L.Home(n) ==> logical[n] == old(logical)[n] == bc.disk[n])
      ensures outstanding == 0 && old(QuietBut({})) && Calm(env) ==> (ok <==> |old(lh)| < NBUF) && (!ok ==> k == 0)
      ensures !ok ==> Blocked()
    {
      hide Coherent, Ok, DoAll, CommitWrites, Pick, Consistent, HeadCount, Loggable, Blocked;
      SumRemove(left, op);
      assert (left - {op}).Keys == left.Keys - {op};
      outstanding, left := outstanding - 1, left - {op};
      ok, k := true, 0;
      if outstanding == 0 {
        ok, k := CommitAll(env);
      }
    }

    // ----- when commit can finish

    lemma HoldersOf(k: nat) returns (s: seq<nat>)
      requires Agree() && live == lh && Distinct(lh) && k <= |lh|
      ensures |s| == k && Distinct(s) && forall i :: 0 <= i < k ==> s[i] < NBUF && Holds(bc.buf, s[i], dev, lh[i])
    {
      s := [];
      if k > 0 {
        s := HoldersOf(k - 1);
        LoggedIsCached(k - 1);
        var b: nat :| b < NBUF && Holds(bc.buf, b, dev, lh[k - 1]);
        s := s + [b];
      }
    }

    /** With no other process in the cache, some buffer is unreferenced exactly when fewer than
        NBUF blocks are logged. */
    lemma SpareIffRoom()
      requires Agree() && live == lh && Distinct(lh) && QuietBut({})
      ensures Spare() <==> |lh| < NBUF
      ensures |lh| >= NBUF ==> forall n: nat :: n !in lh ==> !Cached(bc.buf, dev, n)
    {
      if |lh| < NBUF {
        if forall b: nat :: b < NBUF ==> Live(bc.buf, b, live, dev) {
          var t := bc.buf;
          var ids: seq<nat> := seq(NBUF, b requires 0 <= b < NBUF => t[b].blockno);
          forall i, j | 0 <= i < j < NBUF ensures ids[i] != ids[j] {
            assert Live(bc.buf, i, live, dev) && Live(bc.buf, j, live, dev);
            assert !Holds(bc.buf, j, dev, bc.buf[i].blockno);
          }
          forall i | 0 <= i < NBUF ensures ids[i] in lh { assert Live(bc.buf, i, live, dev); }
          DistinctInto(ids, lh);
        }
        var b: nat :| b < NBUF && !Live(bc.buf, b, live, dev);
        assert bc.buf[b].refcnt == 0;
      } else {
        var s := HoldersOf(|lh|);
        forall b: nat | b < NBUF ensures Live(bc.buf, b, live, dev) {
          DistinctCovers(s, NBUF, b);
        }
      }
    }
  }
}
