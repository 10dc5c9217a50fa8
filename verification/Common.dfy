/** Notions that several parts share. */
module Common {
  const PGSIZE := 4096
  const TWO32 := 0x1_0000_0000

  datatype Option<T> = None | Some(value: T)

  predicate Distinct(s: seq<nat>) {
    forall i, j :: 0 <= i < j < |s| ==> s[i] != s[j]
  }

  function Elems(s: seq<nat>): set<nat> { set x | x in s }

  lemma {:induction false} DistinctSize(s: seq<nat>)
    requires Distinct(s)
    ensures |Elems(s)| == |s|
  {
    if s != [] {
      DistinctSize(s[1..]);
      assert Elems(s) == Elems(s[1..]) + {s[0]};
    }
  }

  /** A list of the members of a set. */
  lemma {:induction false} Listing(tx: set<nat>) returns (s: seq<nat>)
    ensures Distinct(s) && Elems(s) == tx && |s| == |tx|
  {
    if tx == {} {
      s := [];
    } else {
      var b :| b in tx;
      var t := Listing(tx - {b});
      assert b !in Elems(t);
      s := t + [b];
      assert Elems(s) == Elems(t) + {b};
    }
  }

  function Pow2(n: nat): nat {
    if n == 0 then 1 else 2 * Pow2(n - 1)
  }

  /** The numbers from lo up to hi. */
  function Interval(lo: nat, hi: nat): (r: set<nat>)
    ensures forall w :: w in r <==> lo <= w < hi
    ensures |r| == if lo <= hi then hi - lo else 0
  {
    if hi <= lo then {} else Interval(lo, hi - 1) + {hi - 1}
  }

  lemma IntervalAdd(lo: nat, hi: nat)
    requires lo <= hi
    ensures Interval(lo, hi + 1) == Interval(lo, hi) + {hi} && Interval(lo, lo) == {}
  {
  }

  lemma SubsetSize(a: set<nat>, b: set<nat>)
    requires a <= b
    ensures |a| <= |b|
  {
    assert b == a + (b - a);
  }

  /** x is made of bits above b, the bit b and bits below it. */
  predicate BitForm(x: nat, b: nat, hi: nat, lo: nat) { lo < b && x == 2 * b * hi + b + lo }

  /** The bit with value b, a power of two, is set in x. */
  ghost predicate HasBit(x: nat, b: nat) { exists hi: nat, lo: nat :: BitForm(x, b, hi, lo) }
}
