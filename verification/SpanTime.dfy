/** Time spent latency-sensitive, as segments and as instants. */
module SpanTime {
  import opened Common

  /** An interval of one priority: [start, start + dur). */
  datatype Segment = Segment(start: nat, dur: nat, ls: bool)

  function Overlap(s: nat, e: nat, lo: nat, hi: nat): nat {
    var (a, b) := (if s < lo then lo else s, if e < hi then e else hi);
    if a < b then b - a else 0
  }

  function Total(segs: seq<Segment>): nat {
    if segs == [] then 0 else Total(segs[..|segs| - 1]) + segs[|segs| - 1].dur
  }

  function LsPart(g: Segment, lo: nat, hi: nat): nat {
    if g.ls then Overlap(g.start, g.start + g.dur, lo, hi) else 0
  }

  /** Latency-sensitive time of the segments inside [lo, hi). */
  function LsIn(segs: seq<Segment>, lo: nat, hi: nat): nat {
    if segs == [] then 0 else LsIn(segs[..|segs| - 1], lo, hi) + LsPart(segs[|segs| - 1], lo, hi)
  }

  lemma Empty(lo: nat, hi: nat)
    ensures Total([]) == 0 && LsIn([], lo, hi) == 0
  {
  }

  lemma Snoc(segs: seq<Segment>, g: Segment, lo: nat, hi: nat)
    ensures Total(segs + [g]) == Total(segs) + g.dur
    ensures LsIn(segs + [g], lo, hi) == LsIn(segs, lo, hi) + LsPart(g, lo, hi)
  {
  }

  lemma OverlapSplit(a: nat, b: nat, c: nat, lo: nat, hi: nat)
    requires a <= b <= c
    ensures Overlap(a, c, lo, hi) == Overlap(a, b, lo, hi) + Overlap(b, c, lo, hi)
  {
  }

  // ----- windows

  function Edge(w: nat, width: nat): nat { w * width }

  function LsWindow(segs: seq<Segment>, w: nat, width: nat): nat {
    LsIn(segs, Edge(w, width), Edge(w + 1, width))
  }

  lemma EdgeOrder(v: nat, w: nat, width: nat)
    ensures v <= w ==> Edge(v, width) <= Edge(w, width)
    ensures Edge(w + 1, width) == Edge(w, width) + width
  {
  }

  /** The window that pos falls in. */
  lemma InWindow(pos: nat, width: nat)
    requires width > 0
    ensures Edge(pos / width, width) <= pos < Edge(pos / width + 1, width)
  {
  }

  /** A piece inside one window overlaps that window wholly and no other. */
  lemma PieceOverlap(a: nat, b: nat, idx: nat, w: nat, width: nat)
    requires Edge(idx, width) <= a <= b <= Edge(idx + 1, width)
    ensures Overlap(a, b, Edge(w, width), Edge(w + 1, width)) == if w == idx then b - a else 0
  {
    hide Edge;
    EdgeOrder(w + 1, idx, width);
    EdgeOrder(idx + 1, w, width);
  }

  /** Lengthening the last segment by a piece of window idx adds the piece to that window alone. */
  lemma Lengthen(segs: seq<Segment>, s: nat, pos: nat, end: nat, ls: bool, idx: nat, w: nat, width: nat)
    requires s <= pos <= end && Edge(idx, width) <= pos && end <= Edge(idx + 1, width)
    ensures LsWindow(segs + [Segment(s, end - s, ls)], w, width) ==
              LsWindow(segs + [Segment(s, pos - s, ls)], w, width) + if ls && w == idx then end - pos else 0
  {
    hide Edge, Overlap;
    var (lo, hi) := (Edge(w, width), Edge(w + 1, width));
    Snoc(segs, Segment(s, end - s, ls), lo, hi);
    Snoc(segs, Segment(s, pos - s, ls), lo, hi);
    OverlapSplit(s, pos, end, lo, hi);
    PieceOverlap(pos, end, idx, w, width);
  }

  /** The history with a segment [s, e) at its end. */
  function Upto(segs: seq<Segment>, s: nat, e: nat, ls: bool): seq<Segment>
    requires s <= e
  {
    segs + [Segment(s, e - s, ls)]
  }

  // ----- the window table

  /** Every listed window has its exact time; if nothing was dropped the others have none. */
  ghost predicate TableOk(index: seq<nat>, time: seq<nat>, dropped: nat, segs: seq<Segment>, width: nat) {
    && |index| == |time| && Distinct(index)
    && (forall i :: 0 <= i < |index| ==> time[i] == LsWindow(segs, index[i], width))
    && (dropped == 0 ==> forall w: nat :: w !in index ==> LsWindow(segs, w, width) == 0)
  }

  /** A finished table stays right when a segment of no length or of normal priority begins. */
  lemma TableBegin(index: seq<nat>, time: seq<nat>, dropped: nat, segs: seq<Segment>, width: nat, s: nat, ls: bool)
    requires TableOk(index, time, dropped, segs, width)
    ensures TableOk(index, time, dropped, Upto(segs, s, s, ls), width)
  {
  }

  /** A piece of normal priority. */
  lemma TableSkip(index: seq<nat>, time: seq<nat>, dropped: nat, segs: seq<Segment>, width: nat, s: nat, pos: nat,
                  end: nat, idx: nat)
    requires s <= pos <= end && Edge(idx, width) <= pos && end <= Edge(idx + 1, width)
    requires TableOk(index, time, dropped, Upto(segs, s, pos, false), width)
    ensures TableOk(index, time, dropped, Upto(segs, s, end, false), width)
  {
  }

  /** A piece credited to the window at place k. */
  lemma TableCredit(index: seq<nat>, time: seq<nat>, dropped: nat, segs: seq<Segment>, width: nat, s: nat, pos: nat,
                    end: nat, k: nat)
    requires k < |index| && s <= pos <= end && Edge(index[k], width) <= pos && end <= Edge(index[k] + 1, width)
    requires TableOk(index, time, dropped, Upto(segs, s, pos, true), width)
    ensures TableOk(index, time[k := time[k] + (end - pos)], dropped, Upto(segs, s, end, true), width)
  {
    hide LsWindow, Edge;
    var (before, after) := (Upto(segs, s, pos, true), Upto(segs, s, end, true));
    forall w: nat
      ensures LsWindow(after, w, width) == LsWindow(before, w, width) + if w == index[k] then end - pos else 0
    {
      Lengthen(segs, s, pos, end, true, index[k], w, width);
    }
  }

  /** A piece of a window for which there is no room. */
  lemma TableDrop(index: seq<nat>, time: seq<nat>, dropped: nat, segs: seq<Segment>, width: nat, s: nat, pos: nat,
                  end: nat, idx: nat)
    requires idx !in index && s <= pos <= end && Edge(idx, width) <= pos && end <= Edge(idx + 1, width)
    requires TableOk(index, time, dropped, Upto(segs, s, pos, true), width)
    ensures TableOk(index, time, dropped + 1, Upto(segs, s, end, true), width)
  {
    hide LsWindow, Edge;
    var after := Upto(segs, s, end, true);
    forall i | 0 <= i < |index| ensures time[i] == LsWindow(after, index[i], width) {
      Lengthen(segs, s, pos, end, true, idx, index[i], width);
    }
  }

  /** A window is listed with no time yet. */
  lemma TableNew(index: seq<nat>, time: seq<nat>, segs: seq<Segment>, width: nat, idx: nat)
    requires TableOk(index, time, 0, segs, width) && idx !in index
    ensures TableOk(index + [idx], time + [0], 0, segs, width)
  {
  }

  // ----- instants

  /** Priority at time t: the last change not after t, else the priority on entry. */
  function PriorityAt(p0: int, changes: seq<(nat, int)>, t: nat): int {
    if changes == [] then p0
    else if changes[|changes| - 1].0 <= t then changes[|changes| - 1].1
    else PriorityAt(p0, changes[..|changes| - 1], t)
  }

  /** How many of the instants a .. b-1 lie in [lo, hi) and are latency-sensitive. */
  function Instants(p0: int, changes: seq<(nat, int)>, a: nat, b: nat, lo: nat, hi: nat): nat
    decreases b
  {
    if b <= a then 0
    else Instants(p0, changes, a, b - 1, lo, hi) +
         if lo <= b - 1 < hi && PriorityAt(p0, changes, b - 1) == 1 then 1 else 0
  }

  /** Over a stretch of one priority the instants are the overlap. */
  lemma {:induction false} Constant(p0: int, changes: seq<(nat, int)>, a: nat, b: nat, lo: nat, hi: nat, p: int)
    requires a <= b && forall t: nat :: a <= t < b ==> PriorityAt(p0, changes, t) == p
    ensures Instants(p0, changes, a, b, lo, hi) == if p == 1 then Overlap(a, b, lo, hi) else 0
    decreases b
  {
    if a < b { Constant(p0, changes, a, b - 1, lo, hi, p); }
  }

  lemma {:induction false} Join(p0: int, changes: seq<(nat, int)>, a: nat, b: nat, c: nat, lo: nat, hi: nat)
    requires a <= b <= c
    ensures Instants(p0, changes, a, c, lo, hi) ==
            Instants(p0, changes, a, b, lo, hi) + Instants(p0, changes, b, c, lo, hi)
    decreases c
  {
    if b < c { Join(p0, changes, a, b, c - 1, lo, hi); }
  }

  lemma PrioritySnoc(p0: int, changes: seq<(nat, int)>, now: nat, p: int, t: nat)
    ensures PriorityAt(p0, changes + [(now, p)], t) == if now <= t then p else PriorityAt(p0, changes, t)
  {
  }

  /** A later change does not touch earlier instants. */
  lemma {:induction false} Earlier(p0: int, changes: seq<(nat, int)>, now: nat, p: int, a: nat, b: nat, lo: nat,
                                   hi: nat)
    requires b <= now
    ensures Instants(p0, changes + [(now, p)], a, b, lo, hi) == Instants(p0, changes, a, b, lo, hi)
    decreases b
  {
    if a < b {
      PrioritySnoc(p0, changes, now, p, b - 1);
      Earlier(p0, changes, now, p, a, b - 1, lo, hi);
    }
  }
}
