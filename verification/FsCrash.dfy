/** File operations as log transactions: what a crash leaves of the file system. */
module FsCrash {
  import opened Blocks
  import opened Common
  import opened LogSpec
  import opened FsOwner
  import opened FsBytes
  import opened FsState
  import LogRuns

  /** Where things lie on the disk: the log before the inode blocks. */
  predicate Fits(L: Layout, g: Geo, start: nat) {
    L.Ok() && L.size == g.size && L.start + LOGBLOCKS < start
  }

  /** The home blocks of disk d are those of the image. */
  ghost predicate OnDisk(d: seq<Block>, L: Layout, im: Image) {
    |d| == |im.s| == L.size && forall b: nat | L.Home(b) :: d[b] == im.s[b]
  }

  /** The log transaction e carries out the operation from im to goal: it lists every block that
      the operation logged, once, with the contents the operation gave it. */
  ghost predicate Carries(L: Layout, g: Geo, start: nat, im: Image, goal: Image, e: LogRuns.Event) {
    && |goal.s| == L.size && LogRuns.Legal(L, e) && e.data == Pick(goal.s, e.s)
    && Transaction(g, start, im, goal, Elems(e.s))
  }

  function Outcome(im: Image, goal: Image, e: LogRuns.Event): Image {
    if LogRuns.Committed(e) then goal else im
  }

  /** The disk holds a sound file system with the files of im. */
  ghost predicate HasFiles(d: seq<Block>, g: Geo, start: nat, im: Image) {
    && Sound(g, start, Image(d, im.ino)) && Sound(g, start, im)
    && forall j: nat :: j < |im.ino| ==> Bytes(d, g, im.ino[j]) == Bytes(im.s, g, im.ino[j])
  }

  lemma DiskFiles(d: seq<Block>, L: Layout, g: Geo, start: nat, im: Image)
    requires Fits(L, g, start) && OnDisk(d, L, im) && Sound(g, start, im)
    ensures HasFiles(d, g, start, im)
  {
    SameFrom(g, start, im, d);
  }

  /** One operation, completed or cut off by a crash anywhere in its commit and any number of
      times in the recoveries after it, is all or nothing. */
  lemma OperationAtomic(d: seq<Block>, L: Layout, g: Geo, start: nat, im: Image, goal: Image, e: LogRuns.Event)
    requires Fits(L, g, start) && LogRuns.Clean(d, L) && OnDisk(d, L, im) && Carries(L, g, start, im, goal, e)
    ensures var r := LogRuns.After(d, L, e);
            && LogRuns.Clean(r, L) && OnDisk(r, L, Outcome(im, goal, e))
            && HasFiles(r, g, start, Outcome(im, goal, e))
  {
    hide Sound, LogRuns.Clean;
    LogRuns.EventAtomic(d, L, e);
    var r := LogRuns.After(d, L, e);
    forall b: nat | L.Home(b) ensures r[b] == Outcome(im, goal, e).s[b] {
      if LogRuns.Committed(e) {
        assert r[b] == Updated(d, e.s, e.data, b);
        assert b in Elems(e.s) <==> b in e.s;
      }
    }
    DiskFiles(r, L, g, start, Outcome(im, goal, e));
  }

  /** The log can carry every operation that logs no more than thirty blocks, so every chunk of
      filewrite, whether its commit completes or stops after `stop` writes. */
  lemma Carried(L: Layout, g: Geo, start: nat, im: Image, goal: Image, tx: set<nat>, stop: nat, crashes: seq<nat>)
    returns (s: seq<nat>)
    requires Fits(L, g, start) && |goal.s| == L.size && Transaction(g, start, im, goal, tx) && |tx| <= LOGBLOCKS
    requires stop <= LogRuns.CommitLength(|tx|)
    ensures forall i :: 0 <= i < |s| ==> s[i] < |goal.s|
    ensures Carries(L, g, start, im, goal, LogRuns.Done(s, Pick(goal.s, s)))
    ensures Carries(L, g, start, im, goal, LogRuns.Crash(s, Pick(goal.s, s), stop, crashes))
  {
    s := Listing(tx);
    forall i | 0 <= i < |s| ensures L.Home(s[i]) { assert s[i] in tx; }
  }

  // ----- histories

  /** An operation attempted: the state it aims at and what became of its transaction. */
  datatype Attempt = Attempt(goal: Image, e: LogRuns.Event)

  /** The state that survives a history. */
  function Survivor(im: Image, ats: seq<Attempt>): Image {
    if ats == [] then im
    else Outcome(Survivor(im, ats[..|ats| - 1]), ats[|ats| - 1].goal, ats[|ats| - 1].e)
  }

  /** Each operation starts from what survived the ones before it. */
  ghost predicate Attempts(L: Layout, g: Geo, start: nat, im: Image, ats: seq<Attempt>) {
    ats != [] ==>
      && Attempts(L, g, start, im, ats[..|ats| - 1])
      && Carries(L, g, start, Survivor(im, ats[..|ats| - 1]), ats[|ats| - 1].goal, ats[|ats| - 1].e)
  }

  function Events(ats: seq<Attempt>): (es: seq<LogRuns.Event>)
    ensures |es| == |ats| && forall i :: 0 <= i < |es| ==> es[i] == ats[i].e
  {
    seq(|ats|, i requires 0 <= i < |ats| => ats[i].e)
  }

  lemma {:induction false} AllLegal(L: Layout, g: Geo, start: nat, im: Image, ats: seq<Attempt>)
    requires Attempts(L, g, start, im, ats)
    ensures forall i :: 0 <= i < |ats| ==> LogRuns.Legal(L, Events(ats)[i])
  {
    if ats != [] {
      var init := ats[..|ats| - 1];
      AllLegal(L, g, start, im, init);
      forall i | 0 <= i < |init| ensures LogRuns.Legal(L, Events(ats)[i]) {
        assert LogRuns.Legal(L, Events(init)[i]);
      }
    }
  }

  /** After any history of file operations, crashes and interrupted recoveries the disk holds a
      sound file system, whose files are those of the last operation that committed. */
  lemma {:induction false} FilesSurvive(d: seq<Block>, L: Layout, g: Geo, start: nat, im: Image, ats: seq<Attempt>)
    requires Fits(L, g, start) && LogRuns.Clean(d, L) && OnDisk(d, L, im) && Sound(g, start, im)
    requires Attempts(L, g, start, im, ats)
    ensures forall i :: 0 <= i < |ats| ==> LogRuns.Legal(L, Events(ats)[i])
    ensures var r := LogRuns.Run(d, L, Events(ats));
            && LogRuns.Clean(r, L) && OnDisk(r, L, Survivor(im, ats)) && HasFiles(r, g, start, Survivor(im, ats))
  {
    AllLegal(L, g, start, im, ats);
    if ats == [] {
      DiskFiles(d, L, g, start, im);
    } else {
      var (init, last) := (ats[..|ats| - 1], ats[|ats| - 1]);
      FilesSurvive(d, L, g, start, im, init);
      hide Sound, OnDisk, HasFiles, LogRuns.Clean, Carries, Fits;
      var es := Events(ats);
      assert es[..|es| - 1] == Events(init);
      OperationAtomic(LogRuns.Run(d, L, Events(init)), L, g, start, Survivor(im, init), last.goal, last.e);
    }
  }
}
