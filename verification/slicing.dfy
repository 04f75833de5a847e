/**
 * Python sequence slicing, `range` stepping, and the fixed-width partition
 * that both throttling scripts build with the comprehension
 * `[s[i:i+k] for i in range(0, len(s), k)]` -- once over a file's text
 * (chunking) and once over the chunk list (batching).
 */
module Slicing {

  function Min(a: int, b: int): (m: int)
  {
    if a <= b then a else b
  }

  /** Python's `s[lo:hi]` for non-negative bounds: each bound is clamped to
      `len(s)`, and an empty or inverted range gives the empty sequence. */
  function PySlice<T>(s: seq<T>, lo: nat, hi: nat): (r: seq<T>)
    ensures |r| == if lo < Min(hi, |s|) then Min(hi, |s|) - lo else 0
    ensures forall j :: 0 <= j < |r| ==> r[j] == s[lo + j]
  {
    if lo < Min(hi, |s|) then s[lo..Min(hi, |s|)] else []
  }

  // ---------------------------------------------------------------------
  // range(lo, stop, step)

  /** Python's `range(lo, stop, step)` for `step > 0`: `lo`, `lo + step`,
      `lo + 2*step`, ... while below `stop`. */
  function PyRange(lo: nat, stop: nat, step: nat): (r: seq<nat>)
    requires step > 0
    ensures |r| == 0 <==> lo >= stop
    ensures |r| > 0 ==> r[0] == lo
    ensures forall j :: 0 <= j < |r| ==> lo <= r[j] < stop
    decreases stop - lo
  {
    if lo >= stop then [] else [lo] + PyRange(lo + step, stop, step)
  }

  /** Consecutive elements of a range differ by exactly `step`. */
  lemma {:induction false} PyRangeStep(lo: nat, stop: nat, step: nat, j: nat)
    requires step > 0 && j + 1 < |PyRange(lo, stop, step)|
    ensures PyRange(lo, stop, step)[j + 1] == PyRange(lo, stop, step)[j] + step
    decreases j
  {
    var tail := PyRange(lo + step, stop, step);
    assert PyRange(lo, stop, step) == [lo] + tail;
    if j > 0 {
      PyRangeStep(lo + step, stop, step, j - 1);
    }
  }

  // ---------------------------------------------------------------------
  // Ceiling division and the length of a range

  /** `n` is ceil(stop / step): the fewest `step`-wide pieces covering `stop`. */
  ghost predicate IsCeilQuotient(n: nat, stop: nat, step: nat)
  {
    n * step >= stop && (n == 0 || (n - 1) * step < stop)
  }

  lemma MulMonotone(a: nat, b: nat, c: nat)
    requires a <= b
    ensures a * c <= b * c
  {
    assert b * c == a * c + (b - a) * c;
  }

  /** At most one natural number is the ceiling quotient of `stop` by `step`. */
  lemma CeilQuotientUnique(a: nat, b: nat, stop: nat, step: nat)
    requires step > 0
    requires IsCeilQuotient(a, stop, step) && IsCeilQuotient(b, stop, step)
    ensures a == b
  {
    if a < b {
      MulMonotone(a, b - 1, step);
    } else if b < a {
      MulMonotone(b, a - 1, step);
    }
  }

  /** The length of `range(0, stop, step)` for `step > 0` as CPython computes
      it: `(stop - 1) // step + 1` when `stop > 0`, else 0. */
  function RangeLen(stop: nat, step: nat): (n: nat)
    requires step > 0
    ensures IsCeilQuotient(n, stop, step)
  {
    if stop == 0 then 0
    else
      var q := (stop - 1) / step;
      assert (stop - 1) == q * step + (stop - 1) % step;
      assert (q + 1) * step == q * step + step;
      q + 1
  }

  /** Peeling one step off a range longer than one step removes one element. */
  lemma RangeLenPeel(stop: nat, step: nat)
    requires 0 < step
    ensures stop <= step ==> RangeLen(stop, step) == (if stop == 0 then 0 else 1)
    ensures stop > step ==> RangeLen(stop, step) == 1 + RangeLen(stop - step, step)
  {
    if 0 < stop <= step {
      CeilQuotientUnique(RangeLen(stop, step), 1, stop, step);
    } else if stop > step {
      var m := RangeLen(stop - step, step);
      assert (m + 1) * step == m * step + step;
      if m > 0 {
        assert m * step == (m - 1) * step + step;
      }
      assert IsCeilQuotient(m + 1, stop, step);
      CeilQuotientUnique(RangeLen(stop, step), m + 1, stop, step);
    }
  }

  /** The recursive range has the length CPython's formula gives, which is
      ceil((stop - lo) / step). */
  lemma {:induction false} PyRangeLength(lo: nat, stop: nat, step: nat)
    requires step > 0 && lo <= stop
    ensures |PyRange(lo, stop, step)| == RangeLen(stop - lo, step)
    decreases stop - lo
  {
    RangeLenPeel(stop - lo, step);
    if lo < stop && lo + step <= stop {
      PyRangeLength(lo + step, stop, step);
    }
  }

  // ---------------------------------------------------------------------
  // The fixed-width slicing comprehension

  /** The list `[0, 1, ..., n-1]`. */
  function Indices(n: nat): (r: seq<nat>)
    ensures |r| == n
    ensures forall j :: 0 <= j < n ==> r[j] == j
  {
    seq(n, j requires 0 <= j < n => j)
  }

  /** `[s[i:i+k] for i in range(0, len(s), k)]`. */
  function SliceAll<T>(s: seq<T>, k: nat): (r: seq<seq<T>>)
    requires k > 0
  {
    SlicesAt(s, PyRange(0, |s|, k), k)
  }

  /** `[s[i:i+k] for i in starts]`. */
  function SlicesAt<T>(s: seq<T>, starts: seq<nat>, k: nat): (r: seq<seq<T>>)
    ensures |r| == |starts|
    ensures forall j :: 0 <= j < |starts| ==> r[j] == PySlice(s, starts[j], starts[j] + k)
  {
    seq(|starts|, j requires 0 <= j < |starts| => PySlice(s, starts[j], starts[j] + k))
  }

  /** Piece `j` of the comprehension is the slice `s[i:i+k]` at the `j`-th
      start `i`. */
  lemma SliceAllAt<T>(s: seq<T>, k: nat, j: nat, i: nat)
    requires k > 0 && j < |PyRange(0, |s|, k)| && i == PyRange(0, |s|, k)[j]
    ensures j < |SliceAll(s, k)|
    ensures SliceAll(s, k)[j] == PySlice(s, i, i + k)
  {
  }

  /** The comprehension yields ceil(len(s) / k) pieces. */
  lemma SliceAllCount<T>(s: seq<T>, k: nat)
    requires k > 0
    ensures |SliceAll(s, k)| == RangeLen(|s|, k)
    ensures IsCeilQuotient(|SliceAll(s, k)|, |s|, k)
  {
    PyRangeLength(0, |s|, k);
  }

  lemma TakeSnoc<T>(s: seq<T>, k: nat)
    requires k < |s|
    ensures s[..k + 1] == s[..k] + [s[k]]
  {
  }

  // ---------------------------------------------------------------------
  // Flattening

  /** The sum of the lengths of the pieces. */
  function TotalLength<T>(ss: seq<seq<T>>): (n: nat)
  {
    if |ss| == 0 then 0 else |ss[0]| + TotalLength(ss[1..])
  }

  /** In-order concatenation of the pieces: `[e for piece in ss for e in piece]`,
      and what repeated `extend` builds from an empty list. */
  function Flatten<T>(ss: seq<seq<T>>): (r: seq<T>)
    ensures |r| == TotalLength(ss)
  {
    if |ss| == 0 then [] else ss[0] + Flatten(ss[1..])
  }

  lemma {:induction false} FlattenAppend<T>(a: seq<seq<T>>, b: seq<seq<T>>)
    ensures Flatten(a + b) == Flatten(a) + Flatten(b)
  {
    if |a| == 0 {
      assert a + b == b;
    } else {
      assert (a + b)[1..] == a[1..] + b;
      FlattenAppend(a[1..], b);
    }
  }

  lemma FlattenSnoc<T>(ss: seq<seq<T>>, i: nat)
    requires i < |ss|
    ensures Flatten(ss[..i + 1]) == Flatten(ss[..i]) + ss[i]
  {
    assert ss[..i + 1] == ss[..i] + [ss[i]];
    FlattenAppend(ss[..i], [ss[i]]);
    assert Flatten([ss[i]]) == ss[i] + Flatten([ss[i]][1..]);
  }

  /** Element `j` of piece `i` sits in the flattening right after the
      elements of the pieces before `i`. */
  lemma {:induction false} FlattenIndex<T>(ss: seq<seq<T>>, i: nat, j: nat)
    requires i < |ss| && j < |ss[i]|
    ensures TotalLength(ss[..i]) + j < |Flatten(ss)|
    ensures Flatten(ss)[TotalLength(ss[..i]) + j] == ss[i][j]
  {
    if i > 0 {
      FlattenIndex(ss[1..], i - 1, j);
      assert ss[..i][0] == ss[0];
      assert ss[..i][1..] == ss[1..][..i - 1];
    } else {
      assert ss[..0] == [];
    }
  }

  // ---------------------------------------------------------------------
  // Partitions

  /** `pieces` cut `s` into consecutive pieces of 1 to `k` elements, every
      one but the last exactly `k` long. */
  ghost predicate IsPartition<T>(pieces: seq<seq<T>>, s: seq<T>, k: nat)
  {
    && Flatten(pieces) == s
    && WidthsWithin(pieces, k)
    && (forall j :: 0 <= j < |pieces| - 1 ==> |pieces[j]| == k)
  }

  /** Every piece is non-empty and at most `width` elements long. */
  ghost predicate WidthsWithin<T>(pieces: seq<seq<T>>, width: nat)
  {
    forall j :: 0 <= j < |pieces| ==> 1 <= |pieces[j]| <= width
  }

  /** The same cut written by recursion: the piece `s[lo:lo+k]`, then the
      cut from `lo + k` on. */
  function Chop<T>(s: seq<T>, lo: nat, k: nat): (pieces: seq<seq<T>>)
    requires k > 0
    decreases |s| - lo
  {
    if lo >= |s| then [] else [PySlice(s, lo, lo + k)] + Chop(s, lo + k, k)
  }

  lemma SlicesAtCons<T>(s: seq<T>, starts: seq<nat>, k: nat)
    requires |starts| > 0
    ensures SlicesAt(s, starts, k)
      == [PySlice(s, starts[0], starts[0] + k)] + SlicesAt(s, starts[1..], k)
  {
    var lhs := SlicesAt(s, starts, k);
    var rhs := [PySlice(s, starts[0], starts[0] + k)] + SlicesAt(s, starts[1..], k);
    forall j | 0 <= j < |lhs|
      ensures lhs[j] == rhs[j]
    {
      if j > 0 {
        assert starts[1..][j - 1] == starts[j];
      }
    }
  }

  /** Slicing at the starts of `range(lo, len(s), k)` is the recursive cut
      from `lo`. */
  lemma {:induction false} RangeSlicesAreChop<T>(s: seq<T>, lo: nat, k: nat)
    requires k > 0
    ensures SlicesAt(s, PyRange(lo, |s|, k), k) == Chop(s, lo, k)
    decreases |s| - lo
  {
    if lo < |s| {
      var starts := PyRange(lo, |s|, k);
      assert starts == [lo] + PyRange(lo + k, |s|, k);
      assert starts[1..] == PyRange(lo + k, |s|, k);
      SlicesAtCons(s, starts, k);
      RangeSlicesAreChop(s, lo + k, k);
    }
  }

  /** The comprehension and the recursive cut agree on every sequence. */
  lemma SliceAllIsChop<T>(s: seq<T>, k: nat)
    requires k > 0
    ensures SliceAll(s, k) == Chop(s, 0, k)
  {
    RangeSlicesAreChop(s, 0, k);
  }

  /** Prepending a piece of 1 to `k` elements (exactly `k` if more follow)
      to a partition gives a partition of the concatenation. */
  lemma PiecesCons<T>(h: seq<T>, rest: seq<seq<T>>, t: seq<T>, k: nat)
    requires 1 <= |h| <= k
    requires t != [] ==> |h| == k
    requires IsPartition(rest, t, k)
    ensures IsPartition([h] + rest, h + t, k)
  {
    var r := [h] + rest;
    assert r[1..] == rest;
    assert Flatten(r) == h + Flatten(rest);
    if |rest| > 0 {
      assert Flatten(rest) == rest[0] + Flatten(rest[1..]);
    }
    forall j | 1 <= j < |r|
      ensures r[j] == rest[j - 1]
    {
    }
  }

  /** The recursive cut from `lo` partitions `s[lo:]`. */
  lemma {:induction false} ChopPartitions<T>(s: seq<T>, lo: nat, k: nat)
    requires k > 0 && lo <= |s|
    ensures IsPartition(Chop(s, lo, k), s[lo..], k)
    decreases |s| - lo
  {
    if lo < |s| {
      var h := PySlice(s, lo, lo + k);
      if lo + k < |s| {
        ChopPartitions(s, lo + k, k);
        PiecesCons(h, Chop(s, lo + k, k), s[lo + k..], k);
        assert h + s[lo + k..] == s[lo..];
      } else {
        assert Chop(s, lo + k, k) == [];
        assert h == s[lo..];
        PiecesCons(h, [], [], k);
        assert h + [] == s[lo..];
      }
    }
  }

  /** The comprehension partitions any sequence; an empty sequence, and only
      an empty one, gives no pieces. */
  lemma SliceAllIsPartition<T>(s: seq<T>, k: nat)
    requires k > 0
    ensures IsPartition(SliceAll(s, k), s, k)
    ensures |s| == 0 <==> SliceAll(s, k) == []
  {
    SliceAllIsChop(s, k);
    ChopPartitions(s, 0, k);
    assert s[0..] == s;
  }

  /** Any partition of `s[lo:]` is the recursive cut from `lo`. */
  lemma {:induction false} ChopUnique<T>(pieces: seq<seq<T>>, s: seq<T>, lo: nat, k: nat)
    requires k > 0 && lo <= |s|
    requires IsPartition(pieces, s[lo..], k)
    ensures pieces == Chop(s, lo, k)
    decreases |s| - lo
  {
    if |pieces| == 0 {
      assert s[lo..] == [];
    } else {
      var p := pieces[0];
      var tail := pieces[1..];
      assert s[lo..] == p + Flatten(tail);
      assert forall j :: 0 <= j < |tail| ==> tail[j] == pieces[j + 1];
      if |tail| > 0 {
        assert Flatten(tail) == tail[0] + Flatten(tail[1..]);
        assert |p| == k;
        assert p == s[lo..lo + k];
        assert Flatten(tail) == s[lo + k..];
        ChopUnique(tail, s, lo + k, k);
      } else {
        assert p == s[lo..];
        assert Chop(s, lo + k, k) == [];
        assert PySlice(s, lo, lo + k) == p;
        assert pieces == [p];
      }
    }
  }

  /** The partition is unique: any cut of `s` into full pieces with at most a
      shorter last one is exactly what the comprehension builds. */
  lemma PartitionUnique<T>(pieces: seq<seq<T>>, s: seq<T>, k: nat)
    requires k > 0
    requires IsPartition(pieces, s, k)
    ensures pieces == SliceAll(s, k)
  {
    assert s[0..] == s;
    ChopUnique(pieces, s, 0, k);
    SliceAllIsChop(s, k);
  }
}
