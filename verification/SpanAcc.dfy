/** span_window_accumulator.hpp and span_observe.cpp: latency-sensitive time per window, and the
    events that feed it. */
module SpanAcc {
  import opened SpanTime

  const MAX_WINDOWS := 32

  class Accumulator {
    const width: nat
    const index: array<nat>
    const time: array<nat>
    var count: nat
    var total: nat
    var dropped: nat              // overflow_count_
    ghost var segs: seq<Segment>  // every segment added

    ghost predicate Shape()
      reads this
    {
      && index.Length == MAX_WINDOWS && time.Length == MAX_WINDOWS && index != time && count <= MAX_WINDOWS
      && (dropped > 0 ==> count == MAX_WINDOWS)
    }

    /** total is the sum of all durations; every listed window has its exact latency-sensitive
        time, and if nothing was dropped the windows not listed have none. */
    ghost predicate Valid()
      reads this, index, time
    {
      && Shape()
      && (width == 0 ==> total == 0 && count == 0 && dropped == 0)
      && (width > 0 ==> total == Total(segs) && TableOk(index[..count], time[..count], dropped, segs, width))
    }

    constructor (width: nat)
      ensures Valid() && segs == [] && dropped == 0 && fresh(index) && fresh(time) && this.width == width
    {
      this.width := width;
      index := new nat[MAX_WINDOWS];
      time := new nat[MAX_WINDOWS];
      count, total, dropped, segs := 0, 0, 0, [];
    }

    /** find_or_create. */
    method FindOrCreate(idx: nat, ghost hist: seq<Segment>) returns (slot: int)
      requires Shape() && TableOk(index[..count], time[..count], dropped, hist, width)
      modifies this`count, index, time
      ensures Shape() && TableOk(index[..count], time[..count], dropped, hist, width)
      ensures slot == -1 ==> idx !in index[..count] && count == MAX_WINDOWS
      ensures slot != -1 ==> 0 <= slot < count && index[slot] == idx
    {
      var i := 0;
      while i < count
        invariant 0 <= i <= count && idx !in index[..i]
      {
        if index[i] == idx { return i; }
        i := i + 1;
      }
      if count < MAX_WINDOWS {
        TableNew(index[..count], time[..count], hist, width, idx);
        index[count] := idx;
        time[count] := 0;
        count := count + 1;
        assert index[..count] == old(index[..count]) + [idx];
        assert time[..count] == old(time[..count]) + [0];
        return count - 1;
      }
      slot := -1;
    }

    /** One round of add_segment: the piece [pos, end) lies in window idx. */
    method AddPiece(idx: nat, pos: nat, end: nat, ls: bool, ghost s: nat)
      requires Shape() && s <= pos <= end && Edge(idx, width) <= pos && end <= Edge(idx + 1, width)
      requires TableOk(index[..count], time[..count], dropped, Upto(segs, s, pos, ls), width)
      modifies this`count, this`total, this`dropped, index, time
      ensures Shape() && total == old(total) + (end - pos)
      ensures TableOk(index[..count], time[..count], dropped, Upto(segs, s, end, ls), width)
    {
      hide TableOk, Edge, Upto;
      total := total + (end - pos);
      if ls {
        var slot := FindOrCreate(idx, Upto(segs, s, pos, ls));
        if slot >= 0 {
          TableCredit(index[..count], time[..count], dropped, segs, width, s, pos, end, slot);
          ghost var before := time[..count];
          time[slot] := time[slot] + (end - pos);
          assert time[..count] == before[slot := before[slot] + (end - pos)];
        } else {
          TableDrop(index[..count], time[..count], dropped, segs, width, s, pos, end, idx);
          dropped := dropped + 1;
        }
      } else {
        TableSkip(index[..count], time[..count], dropped, segs, width, s, pos, end, idx);
      }
    }

    /** add_segment: total grows by the duration and each window by its share. */
    method AddSegment(start: nat, duration: nat, ls: bool)
      requires Valid()
      modifies this, index, time
      ensures Valid() && segs == old(segs) + [Segment(start, duration, ls)]
    {
      hide TableOk, Edge;
      ghost var g := Segment(start, duration, ls);
      Snoc(segs, g, 0, 0);
      if duration == 0 || width == 0 {
        if width > 0 { TableBegin(index[..count], time[..count], dropped, segs, width, start, ls); }
        segs := segs + [g];
        return;
      }
      TableBegin(index[..count], time[..count], dropped, segs, width, start, ls);
      var end := start + duration;
      var pos := start;
      while pos < end
        invariant start <= pos <= end && Shape() && segs == old(segs) && total == old(total) + (pos - start)
        invariant TableOk(index[..count], time[..count], dropped, Upto(segs, start, pos, ls), width)
        decreases end - pos
      {
        var idx := pos / width;
        InWindow(pos, width);
        var windowEnd := Edge(idx + 1, width);
        var pieceEnd := if windowEnd < end then windowEnd else end;
        AddPiece(idx, pos, pieceEnd, ls, start);
        pos := pieceEnd;
      }
      segs := segs + [g];
    }

    /** add_span: a dispatch with at most one change of priority. */
    method AddSpan(enter: nat, exit: nat, before: bool, changed: bool, at: nat, after: bool)
      requires Valid()
      modifies this, index, time
      ensures Valid() && segs == old(segs) + Pieces(enter, exit, before, changed, at, after)
    {
      hide Valid;
      if exit <= enter { return; }
      if !changed || at <= enter || at >= exit {
        AddSegment(enter, exit - enter, before);
        return;
      }
      AddSegment(enter, at - enter, before);
      AddSegment(at, exit - at, after);
    }
  }

  /** A span as one segment, or two when the change lies inside it. */
  function Pieces(enter: nat, exit: nat, before: bool, changed: bool, at: nat, after: bool): seq<Segment> {
    if exit <= enter then []
    else if changed && enter < at < exit then [Segment(enter, at - enter, before), Segment(at, exit - at, after)]
    else [Segment(enter, exit - enter, before)]
  }

  /** The pieces last as long as the span, and their latency-sensitive time is that of the
      instants of the span. */
  lemma PiecesExact(enter: nat, exit: nat, before: bool, changed: bool, at: nat, after: bool, lo: nat, hi: nat)
    requires enter <= exit
    ensures var changes := if changed && enter < at < exit then [(at, if after then 1 else 0)] else [];
            var pieces := Pieces(enter, exit, before, changed, at, after);
            && Total(pieces) == exit - enter
            && LsIn(pieces, lo, hi) == Instants(if before then 1 else 0, changes, enter, exit, lo, hi)
  {
    hide Overlap, Instants, Total, LsIn;
    var p0 := if before then 1 else 0;
    Empty(lo, hi);
    if changed && enter < at < exit {
      var (a, b) := (Segment(enter, at - enter, before), Segment(at, exit - at, after));
      var changes := [(at, if after then 1 else 0)];
      Snoc([], a, lo, hi);
      Snoc([a], b, lo, hi);
      assert [] + [a] == [a] && [a] + [b] == [a, b];
      assert changes[..0] == [];
      Join(p0, changes, enter, at, exit, lo, hi);
      Constant(p0, changes, enter, at, lo, hi, p0);
      Constant(p0, changes, at, exit, lo, hi, if after then 1 else 0);
    } else if enter < exit {
      Snoc([], Segment(enter, exit - enter, before), lo, hi);
      assert [] + [Segment(enter, exit - enter, before)] == [Segment(enter, exit - enter, before)];
      Constant(p0, [], enter, exit, lo, hi, p0);
    } else {
      Constant(p0, [], enter, exit, lo, hi, 0);
    }
  }

  // ----- span_observe.cpp

  /** One dispatch: entry time and priority, the setpriority calls made during it, exit time. */
  datatype Span = Span(enter: nat, p0: int, changes: seq<(nat, int)>, exit: nat)

  function SpanLs(d: Span, lo: nat, hi: nat): nat { Instants(d.p0, d.changes, d.enter, d.exit, lo, hi) }

  function SpansLs(ds: seq<Span>, lo: nat, hi: nat): nat {
    if ds == [] then 0 else SpansLs(ds[..|ds| - 1], lo, hi) + SpanLs(ds[|ds| - 1], lo, hi)
  }

  function SpansTime(ds: seq<Span>): int {
    if ds == [] then 0 else SpansTime(ds[..|ds| - 1]) + ds[|ds| - 1].exit - ds[|ds| - 1].enter
  }

  /** The segments' time is the instants of the finished dispatches and of d so far. */
  ghost predicate Accounted(segs: seq<Segment>, done: seq<Span>, d: Span) {
    && Total(segs) == SpansTime(done) + d.exit - d.enter
    && forall lo: nat, hi: nat :: LsIn(segs, lo, hi) == SpansLs(done, lo, hi) + SpanLs(d, lo, hi)
  }

  /** Closing the open segment at `now` accounts for the dispatch up to now. */
  lemma CloseSegment(segs: seq<Segment>, done: seq<Span>, d: Span, now: nat, p: int)
    requires Accounted(segs, done, d) && d.enter <= d.exit <= now
    requires forall t: nat :: d.exit <= t ==> PriorityAt(d.p0, d.changes, t) == p
    ensures Accounted(segs + [Segment(d.exit, now - d.exit, p == 1)], done, d.(exit := now))
    ensures now == d.exit ==> d.(exit := now) == d
  {
    hide Total, LsIn, SpansLs, SpansTime, PriorityAt, Overlap, Instants;
    var g := Segment(d.exit, now - d.exit, p == 1);
    Snoc(segs, g, 0, 0);
    forall lo: nat, hi: nat
      ensures LsIn(segs + [g], lo, hi) == SpansLs(done, lo, hi) + SpanLs(d.(exit := now), lo, hi)
    {
      Snoc(segs, g, lo, hi);
      Join(d.p0, d.changes, d.enter, d.exit, now, lo, hi);
      Constant(d.p0, d.changes, d.exit, now, lo, hi, p);
    }
  }

  /** A change made at or after the accounted part leaves it as it is. */
  lemma NoteChange(segs: seq<Segment>, done: seq<Span>, d: Span, now: nat, p: int)
    requires Accounted(segs, done, d) && d.exit <= now
    ensures Accounted(segs, done, d.(changes := d.changes + [(now, p)]))
  {
    hide Total, LsIn, SpansLs, SpansTime, PriorityAt, Instants;
    forall lo: nat, hi: nat ensures SpanLs(d.(changes := d.changes + [(now, p)]), lo, hi) == SpanLs(d, lo, hi) {
      Earlier(d.p0, d.changes, now, p, d.enter, d.exit, lo, hi);
    }
  }

  lemma OpenSpan(segs: seq<Segment>, done: seq<Span>, d: Span, e: Span)
    requires Accounted(segs, done, d) && d.exit == d.enter && e.exit == e.enter
    ensures Accounted(segs, done, e)
  {
  }

  lemma CloseSpan(segs: seq<Segment>, done: seq<Span>, d: Span)
    requires Accounted(segs, done, d)
    ensures Accounted(segs, done + [d], Span(0, 0, [], 0))
  {
  }

  const NPROC := 64

  /** The hooks of one CPU.  cur is the dispatch in progress up to the start of its open segment
      (its exit field), or an empty span while the scheduler itself runs. */
  class Observer {
    const acc: Accumulator
    var segStart: seq<nat>
    var segPriority: seq<int>
    var segOpen: seq<bool>
    var priority: seq<int>
    ghost var running: int       // slot being run, -1 when none
    ghost var cur: Span
    ghost var done: seq<Span>
    ghost var clock: nat         // time of the last event

    ghost predicate Shape()
      reads this
    {
      && |segStart| == NPROC && |segPriority| == NPROC && |segOpen| == NPROC && |priority| == NPROC
      && -1 <= running < NPROC && (forall i :: 0 <= i < NPROC ==> (segOpen[i] <==> i == running))
    }

    /** The accumulator holds the finished dispatches and the closed part of the current one. */
    ghost predicate Valid()
      reads this, acc, acc.index, acc.time
    {
      && Shape() && acc.Valid() && acc.width > 0 && Accounted(acc.segs, done, cur)
      && (running == -1 ==> cur.exit == cur.enter)
      && (running != -1 ==>
            && cur.enter <= cur.exit <= clock && segStart[running] == cur.exit
            && segPriority[running] == priority[running]
            && forall t: nat :: cur.exit <= t ==> PriorityAt(cur.p0, cur.changes, t) == segPriority[running])
    }

    constructor (width: nat)
      requires width > 0
      ensures Valid() && running == -1 && done == [] && fresh(acc) && fresh(acc.index) && fresh(acc.time)
    {
      acc := new Accumulator(width);
      segStart, segPriority, priority := seq(NPROC, _ => 0), seq(NPROC, _ => 0), seq(NPROC, _ => 0);
      segOpen := seq(NPROC, _ => false);
      running, cur, done, clock := -1, Span(0, 0, [], 0), [], 0;
    }

    /** span_observe_dispatch_enter. */
    method DispatchEnter(slot: nat, now: nat)
      requires Valid() && running == -1 && slot < NPROC && clock <= now
      modifies this
      ensures Valid() && running == slot && cur == Span(now, priority[slot], [], now) && clock == now
      ensures done == old(done) && priority == old(priority)
    {
      segStart, segPriority := segStart[slot := now], segPriority[slot := priority[slot]];
      segOpen := segOpen[slot := true];
      ghost var d := Span(now, priority[slot], [], now);
      OpenSpan(acc.segs, done, cur, d);
      running, cur, clock := slot, d, now;
    }

    /** Add the open segment up to `now`, as both closing hooks do. */
    method CloseOpen(slot: nat, now: nat)
      requires Valid() && slot < NPROC && running == slot && clock <= now
      modifies acc, acc.index, acc.time
      ensures Shape() && acc.Valid() && Accounted(acc.segs, done, cur.(exit := now))
    {
      hide Accounted, PriorityAt, TableOk, Total, Instants;
      CloseSegment(acc.segs, done, cur, now, segPriority[slot]);
      if now > segStart[slot] {
        acc.AddSegment(segStart[slot], now - segStart[slot], segPriority[slot] == 1);
      }
    }

    /** sys_setpriority with span_observe_priority_change; false for a bad level. */
    method SetPriority(slot: nat, level: int, now: nat) returns (ok: bool)
      requires Valid() && slot < NPROC && running == slot && clock <= now
      modifies this, acc, acc.index, acc.time
      ensures Valid() && (ok <==> level == 0 || level == 1) && running == slot && done == old(done)
      ensures cur.enter == old(cur).enter && cur.p0 == old(cur).p0
      ensures ok ==> cur.changes == old(cur).changes + [(now, level)]
      ensures ok ==> priority == old(priority)[slot := level] && clock == now
      ensures !ok ==> cur == old(cur) && priority == old(priority) && clock == old(clock)
    {
      hide Instants, Accounted;
      if level != 0 && level != 1 { return false; }
      ok := true;
      forall t: nat
        ensures PriorityAt(cur.p0, cur.changes + [(now, level)], t) ==
                if now <= t then level else PriorityAt(cur.p0, cur.changes, t)
      {
        PrioritySnoc(cur.p0, cur.changes, now, level, t);
      }
      if level == priority[slot] {
        NoteChange(acc.segs, done, cur, now, level);
        cur, clock := cur.(changes := cur.changes + [(now, level)]), now;
        return;
      }
      CloseOpen(slot, now);
      NoteChange(acc.segs, done, cur.(exit := now), now, level);
      cur, clock := cur.(exit := now, changes := cur.changes + [(now, level)]), now;
      priority := priority[slot := level];
      segStart, segPriority := segStart[slot := now], segPriority[slot := level];
    }

    /** span_observe_dispatch_exit. */
    method DispatchExit(slot: nat, now: nat)
      requires Valid() && slot < NPROC && running == slot && clock <= now
      modifies this, acc, acc.index, acc.time
      ensures Valid() && running == -1 && clock == now && priority == old(priority)
      ensures done == old(done) + [old(cur).(exit := now)]
    {
      hide Instants, Accounted;
      CloseOpen(slot, now);
      CloseSpan(acc.segs, done, cur.(exit := now));
      segOpen := segOpen[slot := false];
      running, done, cur, clock := -1, done + [cur.(exit := now)], Span(0, 0, [], 0), now;
    }

    /** What the dump reports, at any time: the windows' times are the instants spent at priority
        1 during the finished dispatches and the closed part of the current one, the total is
        their duration, and no window is missing unless some were dropped. */
    lemma Report(w: nat)
      requires Valid()
      ensures acc.total == SpansTime(done) + cur.exit - cur.enter
      ensures forall i :: 0 <= i < acc.count ==>
                var (lo, hi) := (Edge(acc.index[i], acc.width), Edge(acc.index[i] + 1, acc.width));
                acc.time[i] == SpansLs(done, lo, hi) + SpanLs(cur, lo, hi)
      ensures acc.dropped == 0 && w !in acc.index[..acc.count] ==>
                var (lo, hi) := (Edge(w, acc.width), Edge(w + 1, acc.width));
                SpansLs(done, lo, hi) == 0 && SpanLs(cur, lo, hi) == 0
    {
    }
  }
}
