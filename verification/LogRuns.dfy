/** Whole histories of the log: transactions, crashes at any write, interrupted recoveries. */
module LogRuns {
  import opened Blocks
  import opened LogSpec

  /** A transaction that sets s[i] to data[i].  It either completes, or the machine stops after
      `stop` of commit()'s disk writes and comes back through a recovery that is interrupted
      as `crashes` says. */
  datatype Event = Done(s: seq<nat>, data: seq<Block>)
                 | Crash(s: seq<nat>, data: seq<Block>, stop: nat, crashes: seq<nat>)

  function CommitLength(n: nat): nat {
    if n == 0 then 0 else 2 * n + 2
  }

  predicate Legal(L: Layout, e: Event) {
    Loggable(L, e.s) && |e.data| == |e.s| && (e.Crash? ==> e.stop <= CommitLength(|e.s|))
  }

  predicate Clean(d: seq<Block>, L: Layout) {
    Consistent(d, L) && HeadCount(d, L) == 0
  }

  /** The transaction took effect: all its writes, or at least its header write, were done. */
  predicate Committed(e: Event) {
    e.Done? || e.stop > |e.s|
  }

  function After(d: seq<Block>, L: Layout, e: Event): (r: seq<Block>)
    requires Clean(d, L) && Legal(L, e)
    ensures |r| == |d|
  {
    var ws := CommitWrites(d, L, e.s, e.data);
    if e.Done? then DoAll(d, ws) else
      CommitPrefix(d, L, e.s, e.data, e.stop);
      AfterCrashes(DoAll(d, ws[..e.stop]), L, e.crashes)
  }

  lemma EventAtomic(d: seq<Block>, L: Layout, e: Event)
    requires Clean(d, L) && Legal(L, e)
    ensures Clean(After(d, L, e), L)
    ensures forall b: nat | L.Home(b) ::
              After(d, L, e)[b] == if Committed(e) then Updated(d, e.s, e.data, b) else d[b]
  {
    hide DoAll, AfterCrashes, Updated, Find;
    var ws := CommitWrites(d, L, e.s, e.data);
    if e.Done? {
      CommitPrefix(d, L, e.s, e.data, |ws|);
      assert ws[..|ws|] == ws;
      var r := DoAll(d, ws);
      forall b: nat | L.Home(b) ensures r[b] == Updated(d, e.s, e.data, b) {
        EmptyLog(r, L, b);
        if e.s == [] { NothingUpdated(d, b); }
      }
    } else {
      CrashAtomic(d, L, e.s, e.data, e.stop, e.crashes);
    }
  }

  lemma EmptyLog(d: seq<Block>, L: Layout, b: nat)
    requires Clean(d, L) && L.Home(b)
    ensures Logical(d, L, b) == d[b]
  {
  }

  lemma NothingUpdated(d: seq<Block>, b: nat)
    requires b < |d|
    ensures Updated(d, [], [], b) == d[b]
  {
  }

  /** The disk after a history. */
  function Run(d: seq<Block>, L: Layout, es: seq<Event>): (r: seq<Block>)
    requires Clean(d, L) && forall i :: 0 <= i < |es| ==> Legal(L, es[i])
    ensures Clean(r, L)
  {
    if es == [] then d else
      EventAtomic(Run(d, L, es[..|es| - 1]), L, es[|es| - 1]);
      After(Run(d, L, es[..|es| - 1]), L, es[|es| - 1])
  }

  /** What block b should hold: the last committed transaction that wrote it decides. */
  function Expected(d: seq<Block>, es: seq<Event>, b: nat): Block
    requires b < |d| && forall i :: 0 <= i < |es| ==> |es[i].data| == |es[i].s|
  {
    if es == [] then d[b] else
      var e := es[|es| - 1];
      var i := Find(e.s, b);
      if Committed(e) && i >= 0 then e.data[i] else Expected(d, es[..|es| - 1], b)
  }

  /** After every history the log is empty and each home block holds what the committed
      transactions, in order, put there. */
  lemma {:induction false} RunAtomic(d: seq<Block>, L: Layout, es: seq<Event>, b: nat)
    requires Clean(d, L) && forall i :: 0 <= i < |es| ==> Legal(L, es[i])
    requires L.Home(b)
    ensures Run(d, L, es)[b] == Expected(d, es, b)
  {
    if es != [] {
      var init := es[..|es| - 1];
      RunAtomic(d, L, init, b);
      EventAtomic(Run(d, L, init), L, es[|es| - 1]);
    }
  }
}
