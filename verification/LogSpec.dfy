/** The redo log as a sequence of disk writes, and what a crash at any point leaves behind.

    `CommitWrites` and `RecoveryWrites` list the block writes of commit() and of
    recover_from_log() in order; the methods in LogImpl are proved to issue exactly these. */
module LogSpec {
  import opened Blocks
  import opened Common

  const LOGBLOCKS := 30

  /** The log header is block `start`, the log data blocks are the LOGBLOCKS blocks after it. */
  datatype Layout = Layout(start: nat, size: nat) {
    predicate Ok() { start + LOGBLOCKS < size < WORD }
    predicate InLog(b: nat) { start <= b <= start + LOGBLOCKS }
    predicate Home(b: nat) { b < size && !InLog(b) }
  }

  /** Block numbers a transaction may hold. */
  predicate Loggable(L: Layout, s: seq<nat>) {
    |s| <= LOGBLOCKS && Distinct(s) && forall i :: 0 <= i < |s| ==> L.Home(s[i])
  }

  /** A list without repetitions is no longer than one that contains it. */
  lemma {:induction false} DistinctInto(s: seq<nat>, t: seq<nat>)
    requires Distinct(s) && Distinct(t) && forall i :: 0 <= i < |s| ==> s[i] in t
    ensures |s| <= |t|
  {
    if s != [] {
      var n := |s| - 1;
      var i :| 0 <= i < |t| && t[i] == s[n];
      var t' := t[..i] + t[i + 1..];
      forall j | 0 <= j < n ensures s[..n][j] in t' {
        assert s[j] in t && s[j] != s[n];
        var k :| 0 <= k < |t| && t[k] == s[j];
        assert t'[if k < i then k else k - 1] == s[j];
      }
      DistinctInto(s[..n], t');
    }
  }

  /** n different numbers below n are all of them. */
  lemma DistinctCovers(s: seq<nat>, n: nat, v: nat)
    requires Distinct(s) && |s| >= n && v < n && forall i :: 0 <= i < |s| ==> s[i] < n
    ensures v in s
  {
    if v !in s {
      var below: seq<nat> := seq(n, i requires 0 <= i < n => i);
      var t := s + [v];
      forall i | 0 <= i < |t| ensures t[i] in below { assert below[t[i]] == t[i]; }
      DistinctInto(t, below);
    }
  }

  function Find(s: seq<nat>, b: nat): (i: int)
    ensures -1 <= i < |s| && (i >= 0 ==> s[i] == b)
    ensures i == -1 <==> b !in s
  {
    if s == [] then -1
    else if s[|s| - 1] == b then |s| - 1
    else Find(s[..|s| - 1], b)
  }

  lemma FindAt(s: seq<nat>, i: nat)
    requires i < |s| && Distinct(s)
    ensures Find(s, s[i]) == i
  {
  }

  /** The contents of the blocks s, in order. */
  function Pick(d: seq<Block>, s: seq<nat>): (r: seq<Block>)
    requires forall i :: 0 <= i < |s| ==> s[i] < |d|
    ensures |r| == |s| && forall i :: 0 <= i < |s| ==> r[i] == d[s[i]]
  {
    seq(|s|, i requires 0 <= i < |s| => d[s[i]])
  }

  /** The first n log data blocks. */
  function LogArea(d: seq<Block>, L: Layout, n: nat): (r: seq<Block>)
    requires L.start + n < |d|
    ensures |r| == n
  {
    d[L.start + 1..L.start + 1 + n]
  }

  /** The header and the first n log data blocks are the same. */
  predicate SameLog(d: seq<Block>, d': seq<Block>, L: Layout, n: nat) {
    && |d| == |d'| && L.start + n < |d|
    && forall b: nat :: L.start <= b <= L.start + n ==> d'[b] == d[b]
  }

  // ----- the header block

  /** write_head: the count, then the block numbers; words beyond them keep their old value. */
  function FillHead(b: Block, s: seq<nat>): Block
    requires |s| <= LOGBLOCKS && forall i :: 0 <= i < |s| ==> s[i] < WORD
  {
    FillBlocks(PutWord(b, 0, |s|), s)
  }

  function FillBlocks(b: Block, s: seq<nat>): Block
    requires |s| <= LOGBLOCKS && forall i :: 0 <= i < |s| ==> s[i] < WORD
  {
    if s == [] then b else PutWord(FillBlocks(b, s[..|s| - 1]), |s|, s[|s| - 1])
  }

  lemma {:induction false} FillBlocksWords(b: Block, s: seq<nat>, j: nat)
    requires |s| <= LOGBLOCKS && forall i :: 0 <= i < |s| ==> s[i] < WORD
    requires j < WORDS
    ensures GetWord(FillBlocks(b, s), j) == if 1 <= j <= |s| then s[j - 1] else GetWord(b, j)
  {
    if s != [] {
      FillBlocksWords(b, s[..|s| - 1], j);
      GetPut(FillBlocks(b, s[..|s| - 1]), |s|, s[|s| - 1], j);
    }
  }

  function HeadCount(d: seq<Block>, L: Layout): nat
    requires L.Ok() && |d| == L.size
  {
    GetWord(d[L.start], 0)
  }

  /** The block numbers in the on-disk header. */
  function Heads(d: seq<Block>, L: Layout): seq<nat>
    requires L.Ok() && |d| == L.size && HeadCount(d, L) <= LOGBLOCKS
  {
    seq(HeadCount(d, L), i requires 0 <= i < HeadCount(d, L) => GetWord(d[L.start], 1 + i) as nat)
  }

  /** A disk that recovery may meet. */
  predicate Consistent(d: seq<Block>, L: Layout) {
    && L.Ok() && |d| == L.size && HeadCount(d, L) <= LOGBLOCKS
    && Loggable(L, Heads(d, L))
  }

  lemma HeadsOfFill(d: seq<Block>, L: Layout, s: seq<nat>, b: Block)
    requires L.Ok() && |d| == L.size && Loggable(L, s)
    requires d[L.start] == FillHead(b, s)
    ensures HeadCount(d, L) == |s| && Heads(d, L) == s
  {
    FillBlocksWords(PutWord(b, 0, |s|), s, 0);
    GetPut(b, 0, |s|, 0);
    forall i | 0 <= i < |s| ensures GetWord(d[L.start], 1 + i) == s[i] {
      FillBlocksWords(PutWord(b, 0, |s|), s, 1 + i);
    }
  }

  /** The words of the header block: the count, the block numbers, and what was there before. */
  lemma HeadWords(b: Block, s: seq<nat>, j: nat)
    requires |s| <= LOGBLOCKS && (forall i :: 0 <= i < |s| ==> s[i] < WORD) && j < WORDS
    ensures GetWord(FillHead(b, s), j) == if j == 0 then |s| else if j <= |s| then s[j - 1] else GetWord(b, j)
  {
    FillBlocksWords(PutWord(b, 0, |s|), s, j);
    GetPut(b, 0, |s|, j);
  }

  lemma HeadsOfClear(d: seq<Block>, L: Layout, b: Block)
    requires L.Ok() && |d| == L.size && d[L.start] == PutWord(b, 0, 0)
    ensures HeadCount(d, L) == 0 && Heads(d, L) == [] && Consistent(d, L)
  {
  }

  /** What a home block stands for: its logged copy if the header lists it, else itself. */
  function Logical(d: seq<Block>, L: Layout, b: nat): Block
    requires Consistent(d, L) && L.Home(b)
  {
    var i := Find(Heads(d, L), b);
    if i >= 0 then d[L.start + 1 + i] else d[b]
  }

  // ----- recovery

  function HomeWrites(s: seq<nat>, data: seq<Block>): (r: seq<Write>)
    requires |data| == |s|
    ensures |r| == |s|
  {
    seq(|s|, i requires 0 <= i < |s| => Write(s[i], data[i]))
  }

  /** The first k of these writes set the first k blocks and touch nothing else. */
  lemma {:induction false} HomeWritesPrefix(d: seq<Block>, s: seq<nat>, data: seq<Block>, k: nat, b: nat)
    requires |data| == |s| && Distinct(s) && k <= |s| && b < |d|
    ensures DoAll(d, HomeWrites(s, data)[..k])[b] == var i := Find(s, b); if 0 <= i < k then data[i] else d[b]
  {
    if k > 0 {
      HomeWritesPrefix(d, s, data, k - 1, b);
      var ws := HomeWrites(s, data);
      assert ws[..k][..k - 1] == ws[..k - 1] && ws[..k][k - 1] == Write(s[k - 1], data[k - 1]);
      FindAt(s, k - 1);
      hide HomeWrites, Find;
    }
  }

  function LogData(d: seq<Block>, L: Layout): seq<Block>
    requires Consistent(d, L)
  {
    LogArea(d, L, HeadCount(d, L))
  }

  function InstallWrites(d: seq<Block>, L: Layout): seq<Write>
    requires Consistent(d, L)
  {
    HomeWrites(Heads(d, L), LogData(d, L))
  }

  /** Home writes, then an empty header. */
  function ApplyWrites(L: Layout, s: seq<nat>, data: seq<Block>, h: Block): (r: seq<Write>)
    requires |data| == |s|
    ensures |r| == |s| + 1
  {
    HomeWrites(s, data) + [Write(L.start, PutWord(h, 0, 0))]
  }

  lemma ApplyPrefix(L: Layout, s: seq<nat>, data: seq<Block>, h: Block, k: nat)
    requires |data| == |s| && k <= |s|
    ensures var ws := ApplyWrites(L, s, data, h);
            && HomeWrites(s, data)[..k] == ws[..k] && ws[..|s| + 1] == ws
            && (k == |s| ==> HomeWrites(s, data)[..k] + [Write(L.start, FillHead(h, []))] == ws)
  {
  }

  /** install_trans followed by the write of an empty header. */
  function RecoveryWrites(d: seq<Block>, L: Layout): (r: seq<Write>)
    requires Consistent(d, L)
    ensures |r| == HeadCount(d, L) + 1
  {
    ApplyWrites(L, Heads(d, L), LogData(d, L), d[L.start])
  }

  /** The disk k writes into recovery: k installs, and after the last one the empty header. */
  lemma RecoverySplit(d: seq<Block>, L: Layout, k: nat)
    requires Consistent(d, L) && k <= |RecoveryWrites(d, L)|
    ensures var (n, ws) := (HeadCount(d, L), HomeWrites(Heads(d, L), LogData(d, L)));
            DoAll(d, RecoveryWrites(d, L)[..k])
            == if k <= n then DoAll(d, ws[..k])
               else Do(DoAll(d, ws[..n]), Write(L.start, PutWord(d[L.start], 0, 0)))
  {
    var (n, ws) := (HeadCount(d, L), RecoveryWrites(d, L));
    if k <= n {
      assert ws[..k] == InstallWrites(d, L)[..k];
    } else {
      assert ws[..k][..n] == InstallWrites(d, L)[..n];
    }
  }

  /** Stopped after k of its writes, recovery has left the log area alone (until the last one). */
  lemma RecoveryBlock(d: seq<Block>, L: Layout, k: nat, b: nat)
    requires Consistent(d, L) && k <= |RecoveryWrites(d, L)| && b < L.size
    ensures var d' := DoAll(d, RecoveryWrites(d, L)[..k]);
            && (L.InLog(b) && (k <= HeadCount(d, L) || b != L.start) ==> d'[b] == d[b])
            && (b == L.start && k > HeadCount(d, L) ==> d'[b] == PutWord(d[b], 0, 0))
            && (L.Home(b) ==>
                  d'[b] == var i := Find(Heads(d, L), b); if 0 <= i < k then d[L.start + 1 + i] else d[b])
  {
    hide RecoveryWrites, DoAll, HomeWrites;
    var n := HeadCount(d, L);
    RecoverySplit(d, L, k);
    HomeWritesPrefix(d, Heads(d, L), LogData(d, L), if k <= n then k else n, b);
  }

  lemma RecoveryHead(d: seq<Block>, L: Layout, k: nat)
    requires Consistent(d, L) && k <= |RecoveryWrites(d, L)|
    ensures var d' := DoAll(d, RecoveryWrites(d, L)[..k]);
            && Consistent(d', L)
            && Heads(d', L) == if k <= HeadCount(d, L) then Heads(d, L) else []
  {
    var d' := DoAll(d, RecoveryWrites(d, L)[..k]);
    RecoveryBlock(d, L, k, L.start);
    if k <= HeadCount(d, L) {
      assert Heads(d', L) == Heads(d, L);
    } else {
      HeadsOfClear(d', L, d[L.start]);
    }
  }

  /** Wherever recovery stops, the logical blocks are the same and recovery can start over. */
  lemma RecoveryPrefix(d: seq<Block>, L: Layout, k: nat)
    requires Consistent(d, L) && k <= |RecoveryWrites(d, L)|
    ensures var d' := DoAll(d, RecoveryWrites(d, L)[..k]);
            && Consistent(d', L)
            && (forall b: nat | L.Home(b) :: Logical(d', L, b) == Logical(d, L, b))
            && (k == |RecoveryWrites(d, L)| ==> HeadCount(d', L) == 0)
  {
    hide DoAll, RecoveryWrites, Logical, Heads;
    RecoveryHead(d, L, k);
    forall b: nat | L.Home(b)
      ensures Logical(DoAll(d, RecoveryWrites(d, L)[..k]), L, b) == Logical(d, L, b)
    {
      RecoveryLogical(d, L, k, b);
    }
    HeadsLength(DoAll(d, RecoveryWrites(d, L)[..k]), L);
  }

  lemma HeadsLength(d: seq<Block>, L: Layout)
    requires Consistent(d, L)
    ensures |Heads(d, L)| == HeadCount(d, L)
  {
  }

  lemma RecoveryLogical(d: seq<Block>, L: Layout, k: nat, b: nat)
    requires Consistent(d, L) && k <= |RecoveryWrites(d, L)| && L.Home(b)
    requires Consistent(DoAll(d, RecoveryWrites(d, L)[..k]), L)
    ensures Logical(DoAll(d, RecoveryWrites(d, L)[..k]), L, b) == Logical(d, L, b)
  {
    hide DoAll, RecoveryWrites, Heads, Find, Distinct;
    RecoveryHead(d, L, k);
    RecoveryBlock(d, L, k, b);
    HeadsLength(d, L);
    var i := Find(Heads(d, L), b);
    if 0 <= i { RecoveryBlock(d, L, k, L.start + 1 + i); }
  }

  /** A recovery interrupted after crashes[0] writes, started over, interrupted after crashes[1]
      writes, and so on; then one that runs to its end. */
  function AfterCrashes(d: seq<Block>, L: Layout, crashes: seq<nat>): (r: seq<Block>)
    requires Consistent(d, L)
    ensures |r| == |d|
    decreases |crashes|
  {
    if crashes == [] then
      DoAll(d, RecoveryWrites(d, L))
    else
      var k := if crashes[0] <= |RecoveryWrites(d, L)| then crashes[0] else |RecoveryWrites(d, L)|;
      RecoveryPrefix(d, L, k);
      AfterCrashes(DoAll(d, RecoveryWrites(d, L)[..k]), L, crashes[1..])
  }

  /** However often recovery is interrupted, it ends with an empty log and every home block
      holding its logical content. */
  lemma {:induction false} RecoveryIdempotent(d: seq<Block>, L: Layout, crashes: seq<nat>)
    requires Consistent(d, L)
    ensures var r := AfterCrashes(d, L, crashes);
            && Consistent(r, L) && HeadCount(r, L) == 0
            && forall b: nat | L.Home(b) :: r[b] == Logical(d, L, b)
    decreases |crashes|
  {
    var ws := RecoveryWrites(d, L);
    if crashes == [] {
      RecoveryPrefix(d, L, |ws|);
      assert ws[..|ws|] == ws;
      var r := DoAll(d, ws);
      forall b: nat | L.Home(b) ensures r[b] == Logical(d, L, b) {
        assert Heads(r, L) == [];
        assert r[b] == Logical(r, L, b);
      }
    } else {
      var k := if crashes[0] <= |ws| then crashes[0] else |ws|;
      RecoveryPrefix(d, L, k);
      RecoveryIdempotent(DoAll(d, ws[..k]), L, crashes[1..]);
    }
  }

  // ----- commit

  /** write_log: the new contents go to the log data blocks. */
  function LogWrites(L: Layout, data: seq<Block>): (r: seq<Write>)
    ensures |r| == |data|
  {
    seq(|data|, i requires 0 <= i < |data| => Write(L.start + 1 + i, data[i]))
  }

  /** write_log and the header write. */
  function LogPhase(d: seq<Block>, L: Layout, s: seq<nat>, data: seq<Block>): (r: seq<Write>)
    requires L.Ok() && |d| == L.size && Loggable(L, s) && |data| == |s|
    ensures |r| == |s| + 1
  {
    LogWrites(L, data) + [Write(L.start, FillHead(d[L.start], s))]
  }

  lemma PhasePrefix(d: seq<Block>, L: Layout, s: seq<nat>, data: seq<Block>, k: nat)
    requires L.Ok() && |d| == L.size && Loggable(L, s) && |data| == |s| && k <= |s|
    ensures var ws := LogPhase(d, L, s, data);
            && |ws| == |s| + 1 && LogWrites(L, data)[..k] == ws[..k] && ws[..|s| + 1] == ws
            && (k == |s| ==> LogWrites(L, data)[..k] + [Write(L.start, FillHead(d[L.start], s))] == ws)
  {
  }

  /** All writes of commit() for a transaction that sets block s[i] to data[i]. */
  function CommitWrites(d: seq<Block>, L: Layout, s: seq<nat>, data: seq<Block>): seq<Write>
    requires L.Ok() && |d| == L.size && Loggable(L, s) && |data| == |s|
  {
    if s == [] then [] else
      LogPhase(d, L, s, data) + ApplyWrites(L, s, data, FillHead(d[L.start], s))
  }

  /** commit() writes the blocks to the log area, then the header that lists them, then the blocks to their
      places, then a header that lists none. */
  lemma CommitWritesAre(d: seq<Block>, L: Layout, s: seq<nat>, data: seq<Block>)
    requires L.Ok() && |d| == L.size && Loggable(L, s) && |data| == |s|
    ensures var (n, ws) := (|s|, CommitWrites(d, L, s, data));
            && (n == 0 ==> ws == [])
            && (n > 0 ==>
                  && |ws| == 2 * n + 2 && ws[n].bno == ws[2 * n + 1].bno == L.start
                  && (forall i :: 0 <= i < n ==> ws[i] == Write(L.start + 1 + i, data[i]))
                  && (forall i :: 0 <= i < n ==> ws[n + 1 + i] == Write(s[i], data[i]))
                  && GetWord(ws[n].data, 0) == n && GetWord(ws[2 * n + 1].data, 0) == 0
                  && forall i :: 0 <= i < n ==> GetWord(ws[n].data, 1 + i) == s[i])
  {
    if s != [] {
      var n := |s|;
      forall i: nat | i <= n
        ensures GetWord(FillHead(d[L.start], s), i) == if i == 0 then n else s[i - 1]
      {
        HeadWords(d[L.start], s, i);
      }
      GetPut(FillHead(d[L.start], s), 0, 0, 0);
      hide FillHead;
    }
  }

  /** Recovery copies the log area to the places the header lists, then writes a header that lists none. */
  lemma RecoveryWritesAre(d: seq<Block>, L: Layout)
    requires Consistent(d, L)
    ensures var (n, ws) := (GetWord(d[L.start], 0), RecoveryWrites(d, L));
            && |ws| == n + 1 && ws[n].bno == L.start && GetWord(ws[n].data, 0) == 0
            && forall i :: 0 <= i < n ==> ws[i] == Write(GetWord(d[L.start], 1 + i), d[L.start + 1 + i])
  {
    GetPut(d[L.start], 0, 0, 0);
  }

  function Updated(d: seq<Block>, s: seq<nat>, data: seq<Block>, b: nat): Block
    requires |data| == |s| && b < |d|
  {
    var i := Find(s, b);
    if i >= 0 then data[i] else d[b]
  }

  lemma {:induction false} LogWritesPrefix(d: seq<Block>, L: Layout, data: seq<Block>, k: nat, b: nat)
    requires L.Ok() && |d| == L.size && k <= |data| <= LOGBLOCKS && b < L.size
    ensures DoAll(d, LogWrites(L, data)[..k])[b] == if L.start < b <= L.start + k then data[b - L.start - 1] else d[b]
  {
    if k > 0 {
      LogWritesPrefix(d, L, data, k - 1, b);
      assert LogWrites(L, data)[..k][..k - 1] == LogWrites(L, data)[..k - 1];
    }
  }

  lemma LogPhaseBlock(d: seq<Block>, L: Layout, s: seq<nat>, data: seq<Block>, b: nat)
    requires L.Ok() && |d| == L.size && Loggable(L, s) && |data| == |s| && b < L.size
    ensures DoAll(d, LogPhase(d, L, s, data))[b]
            == if b == L.start then FillHead(d[b], s)
               else if L.start < b <= L.start + |s| then data[b - L.start - 1] else d[b]
  {
    var ws := LogPhase(d, L, s, data);
    LogWritesPrefix(d, L, data, |data|, b);
    assert ws[..|ws| - 1] == LogWrites(L, data) == LogWrites(L, data)[..|data|];
  }

  /** The header write turns the logical blocks from the old contents to the new ones. */
  lemma HeaderCommits(d: seq<Block>, L: Layout, s: seq<nat>, data: seq<Block>)
    requires Consistent(d, L) && HeadCount(d, L) == 0 && Loggable(L, s) && |data| == |s|
    ensures var d' := DoAll(d, LogPhase(d, L, s, data));
            && Consistent(d', L) && Heads(d', L) == s && d'[L.start] == FillHead(d[L.start], s)
            && (forall i :: 0 <= i < |s| ==> d'[L.start + 1 + i] == data[i])
            && (forall b: nat | L.Home(b) :: Logical(d', L, b) == Updated(d, s, data, b))
  {
    var d' := DoAll(d, LogPhase(d, L, s, data));
    LogPhaseBlock(d, L, s, data, L.start);
    HeadsOfFill(d', L, s, d[L.start]);
    forall i | 0 <= i < |s| ensures d'[L.start + 1 + i] == data[i] {
      LogPhaseBlock(d, L, s, data, L.start + 1 + i);
    }
    forall b: nat | L.Home(b) ensures Logical(d', L, b) == Updated(d, s, data, b) {
      LogPhaseBlock(d, L, s, data, b);
    }
  }

  /** After the header write, commit() does exactly what recovery would do. */
  lemma CommitTail(d: seq<Block>, L: Layout, s: seq<nat>, data: seq<Block>)
    requires Consistent(d, L) && HeadCount(d, L) == 0 && Loggable(L, s) && |data| == |s| > 0
    ensures var d' := DoAll(d, LogPhase(d, L, s, data));
            && Consistent(d', L)
            && CommitWrites(d, L, s, data) == LogPhase(d, L, s, data) + RecoveryWrites(d', L)
  {
    HeaderCommits(d, L, s, data);
    var d' := DoAll(d, LogPhase(d, L, s, data));
    assert LogData(d', L) == data;
  }

  /** Before the header write the disk still stands for the old contents. */
  lemma BeforeHeader(d: seq<Block>, L: Layout, data: seq<Block>, k: nat)
    requires Consistent(d, L) && HeadCount(d, L) == 0 && k <= |data| <= LOGBLOCKS
    ensures var d' := DoAll(d, LogWrites(L, data)[..k]);
            && Consistent(d', L) && HeadCount(d', L) == 0
            && forall b: nat | L.Home(b) :: Logical(d', L, b) == d[b]
  {
    hide DoAll, LogWrites;
    var d' := DoAll(d, LogWrites(L, data)[..k]);
    LogWritesPrefix(d, L, data, k, L.start);
    assert Heads(d', L) == [];
    forall b: nat | L.Home(b) ensures Logical(d', L, b) == d[b] { LogWritesPrefix(d, L, data, k, b); }
  }

  /** k writes of commit(): a prefix of the log phase, or all of it and a prefix of recovery. */
  lemma CommitSplit(d: seq<Block>, L: Layout, s: seq<nat>, data: seq<Block>, k: nat)
    requires Consistent(d, L) && HeadCount(d, L) == 0 && Loggable(L, s) && |data| == |s|
    requires k <= |CommitWrites(d, L, s, data)|
    ensures k <= |s| ==> CommitWrites(d, L, s, data)[..k] == LogWrites(L, data)[..k]
    ensures k > |s| ==>
              var d1 := DoAll(d, LogPhase(d, L, s, data));
              && Consistent(d1, L) && k - |s| - 1 <= |RecoveryWrites(d1, L)|
              && (k == |CommitWrites(d, L, s, data)| ==> k - |s| - 1 == |RecoveryWrites(d1, L)|)
              && DoAll(d, CommitWrites(d, L, s, data)[..k]) == DoAll(d1, RecoveryWrites(d1, L)[..k - |s| - 1])
  {
    hide DoAll;
    if k > |s| {
      CommitTail(d, L, s, data);
      var p := LogPhase(d, L, s, data);
      var r := RecoveryWrites(DoAll(d, p), L);
      assert CommitWrites(d, L, s, data)[..k] == p + r[..k - |s| - 1];
      DoAllConcat(d, p, r[..k - |s| - 1]);
    }
  }

  /** A crash after k of commit()'s writes leaves a disk that recovery can use and that stands
      for the old contents as long as the header write is missing, for the new ones after it. */
  lemma CommitPrefix(d: seq<Block>, L: Layout, s: seq<nat>, data: seq<Block>, k: nat)
    requires Consistent(d, L) && HeadCount(d, L) == 0 && Loggable(L, s) && |data| == |s|
    requires k <= |CommitWrites(d, L, s, data)|
    ensures var d' := DoAll(d, CommitWrites(d, L, s, data)[..k]);
            && Consistent(d', L)
            && (k == |CommitWrites(d, L, s, data)| ==> HeadCount(d', L) == 0)
            && forall b: nat | L.Home(b) :: Logical(d', L, b) == if k <= |s| then d[b] else Updated(d, s, data, b)
  {
    hide DoAll, LogWrites, CommitWrites, RecoveryWrites, LogPhase, Logical, Updated;
    CommitSplit(d, L, s, data, k);
    if k <= |s| {
      BeforeHeader(d, L, data, k);
    } else {
      HeaderCommits(d, L, s, data);
      RecoveryPrefix(DoAll(d, LogPhase(d, L, s, data)), L, k - |s| - 1);
    }
  }

  /** Crash atomicity.  Whatever prefix of commit()'s writes reached the disk, and however
      often the following recovery is interrupted, in the end every home block is as before
      the transaction or every one is as after it, the latter exactly when the header write
      (write number |s|) was among them. */
  lemma CrashAtomic(d: seq<Block>, L: Layout, s: seq<nat>, data: seq<Block>, k: nat, crashes: seq<nat>)
    requires Consistent(d, L) && HeadCount(d, L) == 0 && Loggable(L, s) && |data| == |s|
    requires k <= |CommitWrites(d, L, s, data)|
    ensures var d' := DoAll(d, CommitWrites(d, L, s, data)[..k]);
            && Consistent(d', L)
            && var r := AfterCrashes(d', L, crashes);
               && Consistent(r, L) && HeadCount(r, L) == 0
               && forall b: nat | L.Home(b) :: r[b] == if k <= |s| then d[b] else Updated(d, s, data, b)
  {
    CommitPrefix(d, L, s, data, k);
    RecoveryIdempotent(DoAll(d, CommitWrites(d, L, s, data)[..k]), L, crashes);
  }
}
