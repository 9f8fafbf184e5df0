/** Day 9: Disk Fragmenter -- a disk map alternates file lengths and free-space lengths
    (file k is the digit at index 2k). compactify moves file blocks, one at a time from
    the end, into the earliest free blocks; defragment moves whole files, from the last
    one down, into the leftmost free span that holds them. The checksum adds up
    position times file id. The worked example gives 1928 and 2858. */
module Day9 {
  import opened Wrappers

  /** n copies of id, as Python's [id] * n (empty when n <= 0). */
  function Rep(id: int, n: int): (r: seq<int>)
    ensures |r| == if n <= 0 then 0 else n
    decreases n
  {
    if n <= 0 then [] else Rep(id, n - 1) + [id]
  }

  /** The file lengths: the digits at even indices (day9.py:11). */
  function FileSizes(dm: seq<nat>): (r: seq<nat>)
    ensures |r| == (|dm| + 1) / 2
    ensures forall k :: 0 <= k < |r| ==> r[k] == dm[2 * k]
  {
    seq((|dm| + 1) / 2, k requires 0 <= k < (|dm| + 1) / 2 => dm[2 * k])
  }

  /** The free-space lengths: the digits at odd indices (day9.py:12). */
  function FreeSizes(dm: seq<nat>): (r: seq<nat>)
    ensures |r| == |dm| / 2
    ensures forall j :: 0 <= j < |r| ==> r[j] == dm[2 * j + 1]
  {
    seq(|dm| / 2, j requires 0 <= j < |dm| / 2 => dm[2 * j + 1])
  }

  function Sum(s: seq<nat>): nat {
    if s == [] then 0 else Sum(s[..|s| - 1]) + s[|s| - 1]
  }

  // ---------------------------------------------------------------------------
  // The compacted disk, block by block
  // ---------------------------------------------------------------------------

  /** The id a free block carries on the block-by-block disk. */
  const Free := -1

  /** Files h..t with the free spans between them, file k taking fq[k] blocks and the
      span after it fr[k]: the part of the disk compactify has not settled yet. */
  function Segment(fq: seq<int>, fr: seq<int>, h: nat, t: int): seq<int>
    requires t < |fq| && t <= |fr|
    decreases t - h
  {
    if t < h then [] else if t == h then Rep(h, fq[h]) else Segment(fq, fr, h, t - 1) + Rep(Free, fr[t - 1]) + Rep(t, fq[t])
  }

  /** The disk a disk map describes, block by block: file k's blocks carry k, free
      blocks carry Free (day9.py:8-9). */
  function Disk(dm: seq<nat>): seq<int> {
    Segment(FileSizes(dm), FreeSizes(dm), 0, |FileSizes(dm)| - 1) +
      (if |dm| > 0 && |dm| % 2 == 0 then Rep(Free, dm[|dm| - 1]) else [])
  }

  /**
   * The compacted disk: scanning from the left, a file block stays where it is and
   * a free block takes the last file block still on the disk; free blocks at the
   * end are dropped.
   */
  function Compact(d: seq<int>): seq<int>
    decreases |d|
  {
    if d == [] then []
    else if d[0] != Free then [d[0]] + Compact(d[1..])
    else if d[|d| - 1] == Free then Compact(d[..|d| - 1])
    else [d[|d| - 1]] + Compact(d[1..|d| - 1])
  }

  lemma {:induction false} RepCons(id: int, n: int)
    requires n > 0
    ensures Rep(id, n) == [id] + Rep(id, n - 1)
    decreases n
  {
    if n > 1 {
      RepCons(id, n - 1);
      var r := Rep(id, n - 2);
      assert Rep(id, n - 1) == [id] + r;
      assert Rep(id, n) == ([id] + r) + [id];
      assert Rep(id, n - 1) == r + [id];
    } else {
      assert Rep(id, n - 1) == [];
      assert Rep(id, n) == [] + [id];
    }
  }

  /** A free block at the end changes nothing. */
  lemma {:induction false} CompactDropsFree(d: seq<int>)
    ensures Compact(d + [Free]) == Compact(d)
    decreases |d|
  {
    var e := d + [Free];
    if d != [] && d[0] != Free {
      assert e[1..] == d[1..] + [Free];
      CompactDropsFree(d[1..]);
    } else {
      assert e[..|e| - 1] == d;
    }
  }

  /** Nor do any number of them. */
  lemma {:induction false} CompactDropsFrees(d: seq<int>, n: int)
    ensures Compact(d + Rep(Free, n)) == Compact(d)
    decreases n
  {
    if n > 0 {
      assert d + Rep(Free, n) == (d + Rep(Free, n - 1)) + [Free];
      CompactDropsFree(d + Rep(Free, n - 1));
      CompactDropsFrees(d, n - 1);
    } else {
      assert d + Rep(Free, n) == d;
    }
  }

  /** File blocks in front stay in front. */
  lemma {:induction false} CompactKeepsFiles(id: nat, n: int, d: seq<int>)
    ensures Compact(Rep(id, n) + d) == Rep(id, n) + Compact(d)
    decreases n
  {
    if n > 0 {
      RepCons(id, n);
      var r := Rep(id, n - 1);
      var e := Rep(id, n) + d;
      assert e == [id] + (r + d);
      assert e[0] == id && e[1..] == r + d;
      CompactKeepsFiles(id, n - 1, d);
      assert Compact(e) == [id] + (r + Compact(d));
      Regroup3([id], r, Compact(d));
    } else {
      assert Rep(id, n) + d == d;
    }
  }

  /** Segments agree when their file lengths from h to t do. */
  lemma {:induction false} SegmentFrame(fq: seq<int>, fq': seq<int>, fr: seq<int>, h: nat, t: int)
    requires t < |fq| && t < |fq'| && t <= |fr|
    requires forall k :: h <= k <= t ==> fq[k] == fq'[k]
    ensures Segment(fq, fr, h, t) == Segment(fq', fr, h, t)
    decreases t - h
  {
    if t > h {
      SegmentFrame(fq, fq', fr, h, t - 1);
      var a, a' := Segment(fq, fr, h, t - 1), Segment(fq', fr, h, t - 1);
      var f := Rep(Free, fr[t - 1]);
      assert fq[t] == fq'[t];
      var r := Rep(t, fq[t]);
      assert r == Rep(t, fq'[t]);
      assert Segment(fq, fr, h, t) == a + f + r;
      assert Segment(fq', fr, h, t) == a' + f + r;
    } else if t == h {
      assert fq[t] == fq'[t];
    }
  }

  /** A segment starts with its first file, then the span after it. */
  lemma {:induction false} SegmentFront(fq: seq<int>, fr: seq<int>, h: nat, t: int)
    requires h <= t < |fq| && t <= |fr|
    ensures Segment(fq, fr, h, t) == Rep(h, fq[h]) + if h < t then Rep(Free, fr[h]) + Segment(fq, fr, h + 1, t) else []
    decreases t - h
  {
    var p := Rep(h, fq[h]);
    if h < t {
      var a, b := Rep(Free, fr[t - 1]), Rep(t, fq[t]);
      assert Segment(fq, fr, h, t) == Segment(fq, fr, h, t - 1) + a + b;
      if h + 1 < t {
        SegmentFront(fq, fr, h, t - 1);
        var q, r := Rep(Free, fr[h]), Segment(fq, fr, h + 1, t - 1);
        assert Segment(fq, fr, h, t - 1) == p + (q + r);
        assert Segment(fq, fr, h + 1, t) == r + a + b;
        Regroup5(p, q, r, a, b);
      } else {
        assert Segment(fq, fr, h, t - 1) == p;
        assert Segment(fq, fr, h + 1, t) == b;
        assert p + a + b == p + (a + b);
      }
    } else {
      assert Segment(fq, fr, h, t) == p == p + [];
    }
  }

  lemma Regroup5(p: seq<int>, q: seq<int>, r: seq<int>, a: seq<int>, b: seq<int>)
    ensures p + (q + r) + a + b == p + (q + (r + a + b))
  {
  }

  /** Files h..t-1 unchanged and the last file t shorter by k: fq' is fq with k blocks
      taken off file t. */
  ghost predicate Shortened(fq: seq<int>, fq': seq<int>, h: nat, t: int, k: int)
    requires t < |fq| && t < |fq'|
  {
    0 <= t && fq'[t] == fq[t] - k && forall j :: h <= j < t ==> fq'[j] == fq[j]
  }

  /** m = n + k copies are n copies followed by k more. */
  lemma {:induction false} RepSplit(id: int, m: int, n: nat, k: nat)
    requires m == n + k
    ensures Rep(id, m) == Rep(id, n) + Rep(id, k)
    decreases k
  {
    if k > 0 {
      RepSplit(id, m - 1, n, k - 1);
      var a, b := Rep(id, n), Rep(id, k - 1);
      assert Rep(id, m - 1) == a + b;
      assert Rep(id, m) == (a + b) + [id];
      assert Rep(id, k) == b + [id];
    } else {
      assert Rep(id, n) + [] == Rep(id, n);
    }
  }

  lemma ShortenedUpdate(fq: seq<int>, h: nat, t: int, k: int)
    requires 0 <= t < |fq|
    ensures Shortened(fq, fq[t := fq[t] - k], h, t, k)
    ensures forall j :: h <= j <= t - 1 ==> fq[j] == fq[t := fq[t] - k][j]
  {
  }

  /** Taking k blocks off the last file takes the last k blocks of the segment. */
  lemma SegmentTake(fq: seq<int>, fq': seq<int>, fr: seq<int>, h: nat, t: int, k: nat)
    requires h <= t < |fq| && t < |fq'| && t <= |fr| && k <= fq[t] && Shortened(fq, fq', h, t, k)
    ensures Segment(fq, fr, h, t) == Segment(fq', fr, h, t) + Rep(t, k)
  {
    if t > h {
      SegmentTakeLast(fq, fq', fr, h, t, k);
    } else {
      SegmentTakeOne(fq, fq', fr, h, t, k);
    }
  }

  lemma SegmentTakeOne(fq: seq<int>, fq': seq<int>, fr: seq<int>, h: nat, t: int, k: nat)
    requires h == t < |fq| && t < |fq'| && t <= |fr| && fq[t] == fq'[t] + k && fq'[t] >= 0
    ensures Segment(fq, fr, h, t) == Segment(fq', fr, h, t) + Rep(t, k)
  {
    RepSplit(t, fq[t], fq'[t], k);
    SegmentOne(fq, fr, h, t);
    SegmentOne(fq', fr, h, t);
  }

  lemma SegmentTakeLast(fq: seq<int>, fq': seq<int>, fr: seq<int>, h: nat, t: int, k: nat)
    requires h < t < |fq| && t < |fq'| && t <= |fr| && k <= fq[t] && Shortened(fq, fq', h, t, k)
    ensures Segment(fq, fr, h, t) == Segment(fq', fr, h, t) + Rep(t, k)
  {
    SegmentFrame(fq, fq', fr, h, t - 1);
    RepSplit(t, fq[t], fq'[t], k);
    SegmentUnfold(fq, fr, h, t);
    SegmentUnfold(fq', fr, h, t);
    Regroup3(Segment(fq, fr, h, t - 1) + Rep(Free, fr[t - 1]), Rep(t, fq'[t]), Rep(t, k));
  }

  lemma SegmentOne(fq: seq<int>, fr: seq<int>, h: nat, t: int)
    requires h == t < |fq| && t <= |fr|
    ensures Segment(fq, fr, h, t) == Rep(t, fq[t])
  {
  }

  lemma SegmentUnfold(fq: seq<int>, fr: seq<int>, h: nat, t: int)
    requires h < t < |fq| && t <= |fr|
    ensures Segment(fq, fr, h, t) == Segment(fq, fr, h, t - 1) + Rep(Free, fr[t - 1]) + Rep(t, fq[t])
  {
  }

  lemma Regroup3(a: seq<int>, b: seq<int>, c: seq<int>)
    ensures a + (b + c) == a + b + c
  {
  }

  lemma Regroup(r: seq<int>, s: seq<int>, t: int)
    ensures ([Free] + r) + (s + [t]) == [Free] + (r + s) + [t]
  {
  }

  /** A free block first and a file block last: the file block fills the free one. */
  lemma CompactEnds(m: seq<int>, t: nat)
    ensures Compact([Free] + m + [t]) == [t] + Compact(m)
  {
    var e := [Free] + m + [t];
    assert e[0] == Free && e[|e| - 1] == t;
    assert e[1..|e| - 1] == m;
  }

  /** k free blocks first and k blocks of file t last: those blocks fill the free ones. */
  lemma {:induction false} CompactEndsMany(m: seq<int>, t: nat, k: nat)
    ensures Compact(Rep(Free, k) + m + Rep(t, k)) == Rep(t, k) + Compact(m)
    decreases k
  {
    if k > 0 {
      CompactEndsMany(m, t, k - 1);
      EndsStep(m, t, k, Compact(m));
    } else {
      assert Rep(Free, k) + m + Rep(t, k) == m;
      assert Rep(t, k) + Compact(m) == Compact(m);
    }
  }

  lemma EndsStep(m: seq<int>, t: nat, k: nat, c: seq<int>)
    requires k > 0 && Compact(Rep(Free, k - 1) + m + Rep(t, k - 1)) == Rep(t, k - 1) + c
    ensures Compact(Rep(Free, k) + m + Rep(t, k)) == Rep(t, k) + c
  {
    var a, b := Rep(Free, k - 1), Rep(t, k - 1);
    RepCons(Free, k);
    RepSnoc(t, k);
    RegroupEnds(a, m, b, t);
    CompactEnds(a + m + b, t);
    ConsRep(t, k, Compact(a + m + b), c);
  }

  lemma RepSnoc(id: int, n: int)
    requires n > 0
    ensures Rep(id, n) == Rep(id, n - 1) + [id]
  {
  }

  lemma RegroupEnds(a: seq<int>, m: seq<int>, b: seq<int>, t: int)
    ensures ([Free] + a) + m + (b + [t]) == [Free] + (a + m + b) + [t]
  {
  }

  /** k free blocks in front take the last k blocks of the last file, leaving rest
      free blocks. */
  lemma TakeBlocks(fq: seq<int>, fq': seq<int>, fr: seq<int>, free: int, rest: int, h: nat, t: nat, k: nat)
    requires h <= t < |fq| && t < |fq'| && t <= |fr| && k <= free && k <= fq[t] && Shortened(fq, fq', h, t, k)
    requires rest == free - k
    ensures Compact(Rep(Free, free) + Segment(fq, fr, h, t)) ==
      Rep(t, k) + Compact(Rep(Free, rest) + Segment(fq', fr, h, t))
  {
    var m := Rep(Free, rest) + Segment(fq', fr, h, t);
    SegmentTake(fq, fq', fr, h, t, k);
    RepSplit(Free, free, k, rest);
    Regroup4(Rep(Free, k), Rep(Free, rest), Segment(fq', fr, h, t), Rep(t, k));
    CompactEndsMany(m, t, k);
  }

  lemma Regroup4(a: seq<int>, b: seq<int>, c: seq<int>, d: seq<int>)
    ensures (a + b) + (c + d) == a + (b + c) + d
  {
  }

  lemma ConsRep(t: int, k: int, b: seq<int>, c: seq<int>)
    requires k > 0 && b == Rep(t, k - 1) + c
    ensures [t] + b == Rep(t, k) + c
  {
    RepCons(t, k);
  }

  /** A used-up last file leaves the segment ending at the file before it. */
  lemma DropFile(fq: seq<int>, fr: seq<int>, free: int, h: nat, t: int)
    requires h <= t < |fq| && t <= |fr| && fq[t] <= 0
    ensures Compact(Rep(Free, free) + Segment(fq, fr, h, t)) == Compact(Rep(Free, free) + Segment(fq, fr, h, t - 1))
  {
    var r := Rep(Free, free);
    assert Rep(t, fq[t]) == [];
    if t > h {
      var s, f := Segment(fq, fr, h, t - 1), Rep(Free, fr[t - 1]);
      SegmentUnfold(fq, fr, h, t);
      RegroupDrop(r, s, f);
      CompactDropsFrees(r + s, fr[t - 1]);
    } else {
      assert Segment(fq, fr, h, t) == [] == Segment(fq, fr, h, t - 1);
    }
  }

  lemma RegroupDrop(r: seq<int>, s: seq<int>, f: seq<int>)
    ensures r + (s + f + []) == (r + s) + f
  {
  }

  /** Free blocks with nothing after them vanish. */
  lemma CompactFrees(n: int)
    ensures Compact(Rep(Free, n) + []) == []
  {
    CompactDropsFrees([], n);
    assert [] + Rep(Free, n) == Rep(Free, n) + [];
  }

  /** The disk ends with its last file; the span after it is dropped by Compact. */
  lemma CompactDisk(dm: seq<nat>)
    ensures Compact(Disk(dm)) == Compact(Segment(FileSizes(dm), FreeSizes(dm), 0, |FileSizes(dm)| - 1))
  {
    var s := Segment(FileSizes(dm), FreeSizes(dm), 0, |FileSizes(dm)| - 1);
    if |dm| > 0 && |dm| % 2 == 0 {
      CompactDropsFrees(s, dm[|dm| - 1]);
    } else {
      assert Disk(dm) == s + [] == s;
    }
  }

  // ---------------------------------------------------------------------------
  // compactify as written (day9.py:6-34)
  // ---------------------------------------------------------------------------

  /** Python's l[t]: negative indices count from the end; None is an IndexError. */
  function PyGet(l: seq<int>, t: int): Option<int> {
    if 0 <= t < |l| then Some(l[t]) else if -|l| <= t < 0 then Some(l[|l| + t]) else None
  }

  /** Python's l[t] = v for an index PyGet accepts. */
  function PySet(l: seq<int>, t: int, v: int): (r: seq<int>)
    requires -|l| <= t < |l|
    ensures |r| == |l|
  {
    if t >= 0 then l[t := v] else l[|l| + t := v]
  }

  /** The inner loop and the partial fill after it (day9.py:26-32), without a guard
      on tail_idx: the new filesystem, file queue and tail index, or None on an
      IndexError. */
  function FillAsWritten(fq: seq<int>, free: int, tail: int, fs: seq<int>): Option<(seq<int>, seq<int>, int)>
    decreases tail + |fq|
  {
    match PyGet(fq, tail)
    case None => None
    case Some(v) =>
      if free >= v then FillAsWritten(fq, free - v, tail - 1, fs + Rep(tail, v))
      else Some((fs + Rep(tail, free), PySet(fq, tail, v - free), tail))
  }

  lemma {:induction false} FillAsWrittenShape(fq: seq<int>, free: int, tail: int, fs: seq<int>)
    requires FillAsWritten(fq, free, tail, fs).Some?
    ensures |FillAsWritten(fq, free, tail, fs).value.1| == |fq|
    ensures FillAsWritten(fq, free, tail, fs).value.2 <= tail
    decreases tail + |fq|
  {
    var v := PyGet(fq, tail).value;
    if free >= v { FillAsWrittenShape(fq, free - v, tail - 1, fs + Rep(tail, v)); }
  }

  /** The outer loop (day9.py:18-32). */
  function OuterAsWritten(fq: seq<int>, fr: seq<int>, head: nat, tail: int, fs: seq<int>): Option<seq<int>>
    requires tail < |fq|
    decreases tail - head + 1
  {
    if head > tail then Some(fs)
    else
      var fs1 := fs + Rep(head, fq[head]);
      if head + 1 <= tail then
        if fr == [] then None
        else match FillAsWritten(fq, fr[0], tail, fs1)
          case None => None
          case Some(st) =>
            FillAsWrittenShape(fq, fr[0], tail, fs1);
            OuterAsWritten(st.1, fr[1..], head + 1, st.2, st.0)
      else OuterAsWritten(fq, fr, head + 1, tail, fs1)
  }

  /** compactify as written: the output, or None where Python raises an IndexError. */
  function CompactifyAsWritten(dm: seq<nat>): Option<seq<int>> {
    OuterAsWritten(FileSizes(dm), FreeSizes(dm), 0, |FileSizes(dm)| - 1, [])
  }

  /** Finding: the free span after file 0 holds file 1 with room to spare, so the
      unguarded inner loop runs tail_idx below head_idx and copies file 0 a second
      time (a negative index then ends that loop): [1,2,1] compacts to [0,1,0]. */
  /** The inner fill loop on the file sizes [1, 1] with two free blocks: it places file 1,
      then, with tail_idx already past file 0, places file 0 again. */
  lemma FillPastHead()
    ensures FillAsWritten([1, 1], 2, 1, [0]) == Some(([0, 1, 0], [1, 1], -1))
  {
    assert FillAsWritten([1, 1], 0, -1, [0, 1, 0]) == Some(([0, 1, 0], [1, 1], -1)) by {
      assert PyGet([1, 1], -1) == Some(1);
      assert PySet([1, 1], -1, 1) == [1, 1];
      assert [0, 1, 0] + Rep(-1, 0) == [0, 1, 0];
    }
    assert FillAsWritten([1, 1], 1, 0, [0, 1]) == Some(([0, 1, 0], [1, 1], -1)) by {
      assert PyGet([1, 1], 0) == Some(1);
      assert [0, 1] + Rep(0, 1) == [0, 1, 0];
    }
    assert PyGet([1, 1], 1) == Some(1);
    assert [0] + Rep(1, 1) == [0, 1];
  }

  lemma CompactifyRepeatsPlacedFile(dm: seq<nat>)
    requires dm == [1, 2, 1]
    ensures CompactifyAsWritten(dm) == Some([0, 1, 0])
    ensures multiset([0, 1, 0])[0] != dm[0]
  {
    assert FileSizes(dm) == [1, 1];
    assert FreeSizes(dm) == [2];
    OuterPastHead();
  }

  lemma OuterPastHead()
    ensures OuterAsWritten([1, 1], [2], 0, 1, []) == Some([0, 1, 0])
  {
    FillPastHead();
    assert [] + Rep(0, [1, 1][0]) == [0];
    assert [2][0] == 2 && [2][1..] == [];
    assert OuterAsWritten([1, 1], [], 1, -1, [0, 1, 0]) == Some([0, 1, 0]);
  }

  /** On [1,3,1] the unguarded inner loop places file 1, file 0 a second time, and
      then, through the negative index -1, a block with the id -1. */
  lemma FillIntoNegativeIds()
    ensures FillAsWritten([1, 1], 3, 1, [0]) == Some(([0, 1, 0, -1], [1, 1], -2))
  {
    assert FillAsWritten([1, 1], 0, -2, [0, 1, 0, -1]) == Some(([0, 1, 0, -1], [1, 1], -2)) by {
      assert PyGet([1, 1], -2) == Some(1);
      assert PySet([1, 1], -2, 1) == [1, 1];
      assert [0, 1, 0, -1] + Rep(-2, 0) == [0, 1, 0, -1];
    }
    assert FillAsWritten([1, 1], 1, -1, [0, 1, 0]) == Some(([0, 1, 0, -1], [1, 1], -2)) by {
      assert PyGet([1, 1], -1) == Some(1);
      RepCons(-1, 1);
      assert [0, 1, 0] + Rep(-1, 1) == [0, 1, 0, -1];
    }
    assert FillAsWritten([1, 1], 2, 0, [0, 1]) == Some(([0, 1, 0, -1], [1, 1], -2)) by {
      assert PyGet([1, 1], 0) == Some(1);
      RepCons(0, 1);
      assert [0, 1] + Rep(0, 1) == [0, 1, 0];
    }
    assert PyGet([1, 1], 1) == Some(1);
    RepCons(1, 1);
    assert [0] + Rep(1, 1) == [0, 1];
  }

  lemma CompactifyWritesNegativeIds(dm: seq<nat>)
    requires dm == [1, 3, 1]
    ensures CompactifyAsWritten(dm) == Some([0, 1, 0, -1])
  {
    assert FileSizes(dm) == [1, 1];
    assert FreeSizes(dm) == [3];
    FillIntoNegativeIds();
    RepCons(0, 1);
    assert [] + Rep(0, [1, 1][0]) == [0];
    assert [3][0] == 3 && [3][1..] == [];
    assert OuterAsWritten([1, 1], [], 1, -2, [0, 1, 0, -1]) == Some([0, 1, 0, -1]);
  }

  /** The compacted disk of [1,3,1] is "0.1". */
  lemma CompactedWideGap(dm: seq<nat>)
    requires dm == [1, 3, 1]
    ensures Compact(Disk(dm)) == [0, 1]
  {
    assert FileSizes(dm) == [1, 1];
    assert FreeSizes(dm) == [3];
    var d := [0, Free, Free, Free, 1];
    assert Disk(dm) == d by {
      SegmentUnfold([1, 1], [3], 0, 1);
      SegmentOne([1, 1], [3], 0, 0);
      RepCons(0, 1);
      RepCons(1, 1);
      RepCons(Free, 3);
      RepCons(Free, 2);
      RepCons(Free, 1);
    }
    assert [Free][..0] == [];
    assert Compact([Free]) == [];
    assert [Free, Free][..1] == [Free];
    assert Compact([Free, Free]) == [];
    assert [Free, Free, Free, 1][1..3] == [Free, Free];
    assert Compact([Free, Free, Free, 1]) == [1];
    assert d[1..] == [Free, Free, Free, 1];
  }

  /** For the same disk map the compacted disk holds file 0 once: "0.1". */
  lemma CompactedSmallDisk(dm: seq<nat>)
    requires dm == [1, 2, 1]
    ensures Compact(Disk(dm)) == [0, 1]
  {
    assert FileSizes(dm) == [1, 1];
    assert FreeSizes(dm) == [2];
    var d := [0, Free, Free, 1];
    assert Disk(dm) == d by {
      SegmentUnfold([1, 1], [2], 0, 1);
      SegmentOne([1, 1], [2], 0, 0);
      RepCons(0, 1);
      RepCons(1, 1);
      RepCons(Free, 2);
      RepCons(Free, 1);
    }
    assert [Free][..0] == [];
    assert Compact([Free]) == [];
    assert [Free, Free, 1][1..2] == [Free];
    assert Compact([Free, Free, 1]) == [1];
    assert d[1..] == [Free, Free, 1];
  }


  // ---------------------------------------------------------------------------
  // compactify with the guard head_idx <= tail_idx on the inner loop
  // ---------------------------------------------------------------------------

  /** n blocks of file id. */
  ghost function Blocks(id: int, n: nat): multiset<int> {
    multiset{}[id := n]
  }

  /** The blocks of files lo..hi, each with its remaining length in fq. */
  ghost function Pending(fq: seq<nat>, lo: nat, hi: int): multiset<int>
    requires hi < |fq|
    decreases hi - lo + 1
  {
    if hi < lo then multiset{} else Pending(fq, lo, hi - 1) + Blocks(hi, fq[hi])
  }

  /** The blocks of every file, each exactly as long as the file. */
  ghost function AllBlocks(sizes: seq<nat>): multiset<int> {
    Pending(sizes, 0, |sizes| - 1)
  }

  lemma {:induction false} PendingCount(fq: seq<nat>, lo: nat, hi: int, x: int)
    requires hi < |fq|
    ensures Pending(fq, lo, hi)[x] == if lo <= x <= hi then fq[x] else 0
    decreases hi - lo + 1
  {
    if hi >= lo {
      PendingCount(fq, lo, hi - 1, x);
    }
  }

  lemma {:induction false} PendingSize(fq: seq<nat>, hi: int)
    requires -1 <= hi < |fq|
    ensures |Pending(fq, 0, hi)| == Sum(fq[..hi + 1])
    decreases hi + 1
  {
    if hi >= 0 {
      PendingSize(fq, hi - 1);
      assert |Blocks(hi, fq[hi])| == fq[hi];
      assert fq[..hi + 1][..hi] == fq[..hi];
    }
  }

  /** File k has exactly sizes[k] blocks; no other id has any. */
  lemma AllBlocksCount(sizes: seq<nat>, x: int)
    ensures AllBlocks(sizes)[x] == if 0 <= x < |sizes| then sizes[x] else 0
    ensures |AllBlocks(sizes)| == Sum(sizes)
  {
    PendingCount(sizes, 0, |sizes| - 1, x);
    PendingSize(sizes, |sizes| - 1);
    assert sizes[..|sizes|] == sizes;
  }

  /** Compact keeps every file block and drops every free block. */
  lemma {:induction false} CompactCount(d: seq<int>, x: int)
    ensures CountsKept(d, Compact(d), x)
    decreases |d|
  {
    if d != [] {
      var n := |d| - 1;
      if d[0] != Free {
        CompactFirst(d);
        CompactCount(d[1..], x);
        CountCons(d[0], d[1..], Compact(d[1..]), x);
      } else if d[n] == Free {
        CompactLastFree(d);
        CompactCount(d[..n], x);
        CountSnocFree(d[..n], Compact(d[..n]), x);
      } else {
        assert d[0] != d[n];
        CompactSwap(d);
        CompactCount(d[1..n], x);
        CountEnds(d[n], d[1..n], Compact(d[1..n]), x);
      }
    }
  }

  lemma CompactFirst(d: seq<int>)
    requires d != [] && d[0] != Free
    ensures Compact(d) == [d[0]] + Compact(d[1..]) && d == [d[0]] + d[1..]
  {
  }

  lemma CompactLastFree(d: seq<int>)
    requires d != [] && d[0] == Free && d[|d| - 1] == Free
    ensures Compact(d) == Compact(d[..|d| - 1]) && d == d[..|d| - 1] + [Free]
  {
  }

  lemma CompactSwap(d: seq<int>)
    requires |d| >= 2 && d[0] == Free && d[|d| - 1] != Free
    ensures Compact(d) == [d[|d| - 1]] + Compact(d[1..|d| - 1])
    ensures d == [Free] + (d[1..|d| - 1] + [d[|d| - 1]])
  {
    SplitEnds(d);
  }

  lemma SplitEnds(d: seq<int>)
    requires |d| >= 2
    ensures d == [d[0]] + (d[1..|d| - 1] + [d[|d| - 1]])
  {
    var n := |d| - 1;
    var r := d[1..];
    assert r == d[1..n] + [d[n]];
    assert d == [d[0]] + r;
  }

  /** The count Compact keeps for x, from the counts of a sequence s and its compaction c. */
  ghost predicate CountsKept(s: seq<int>, c: seq<int>, x: int) {
    multiset(c)[x] == if x == Free then 0 else multiset(s)[x]
  }

  lemma CountCons(a: int, s: seq<int>, c: seq<int>, x: int)
    requires a != Free && CountsKept(s, c, x)
    ensures CountsKept([a] + s, [a] + c, x)
  {
    MultisetCons(a, s, x);
    MultisetCons(a, c, x);
  }

  lemma CountSnocFree(s: seq<int>, c: seq<int>, x: int)
    requires CountsKept(s, c, x)
    ensures CountsKept(s + [Free], c, x)
  {
    MultisetSnoc(s, Free, x);
  }

  lemma CountEnds(a: int, s: seq<int>, c: seq<int>, x: int)
    requires a != Free && CountsKept(s, c, x)
    ensures CountsKept([Free] + (s + [a]), [a] + c, x)
  {
    MultisetSnoc(s, a, x);
    MultisetCons(Free, s + [a], x);
    MultisetCons(a, c, x);
  }

  lemma MultisetCons(a: int, s: seq<int>, x: int)
    ensures multiset([a] + s)[x] == multiset(s)[x] + if x == a then 1 else 0
  {
    assert multiset([a] + s) == multiset{a} + multiset(s);
  }

  lemma MultisetSnoc(s: seq<int>, a: int, x: int)
    ensures multiset(s + [a])[x] == multiset(s)[x] + if x == a then 1 else 0
  {
    assert multiset(s + [a]) == multiset(s) + multiset{a};
  }

  /** Segment h..t holds fq[k] blocks of each file k from h to t. */
  lemma {:induction false} SegmentCount(fq: seq<nat>, fr: seq<nat>, h: nat, t: int, x: int)
    requires t < |fq| && t <= |fr| && x != Free
    ensures Count(Segment(fq, fr, h, t), x) == if h <= x <= t then fq[x] else 0
    decreases t - h
  {
    if t == h {
      RepCount(t, fq[t], x);
    } else if t > h {
      SegmentCount(fq, fr, h, t - 1, x);
      RepCount(Free, fr[t - 1], x);
      RepCount(t, fq[t], x);
      CountStep(Segment(fq, fr, h, t - 1), Rep(Free, fr[t - 1]), Rep(t, fq[t]), fq, h, t, x);
    }
  }

  /** The count step of SegmentCount, on the three pieces of the segment. */
  lemma CountStep(a: seq<int>, b: seq<int>, c: seq<int>, fq: seq<nat>, h: nat, t: nat, x: int)
    requires h < t < |fq|
    requires Count(a, x) == if h <= x <= t - 1 then fq[x] else 0
    requires Count(b, x) == 0
    requires Count(c, x) == if x == t then fq[t] else 0
    ensures Count(a + b + c, x) == if h <= x <= t then fq[x] else 0
  {
    CountAppend(a, b, x);
    CountAppend(a + b, c, x);
  }

  /** How many times x occurs in s. */
  function Count(s: seq<int>, x: int): nat
    decreases |s|
  {
    if s == [] then 0 else Count(s[..|s| - 1], x) + if s[|s| - 1] == x then 1 else 0
  }

  lemma CountSnoc(s: seq<int>, v: int, x: int)
    ensures Count(s + [v], x) == Count(s, x) + if v == x then 1 else 0
  {
    assert (s + [v])[..|s|] == s;
  }

  lemma {:induction false} CountAppend(a: seq<int>, b: seq<int>, x: int)
    ensures Count(a + b, x) == Count(a, x) + Count(b, x)
    decreases |b|
  {
    if b == [] {
      assert a + b == a;
    } else {
      var b0, v := b[..|b| - 1], b[|b| - 1];
      assert b == b0 + [v];
      assert a + b == (a + b0) + [v];
      CountAppend(a, b0, x);
      CountSnoc(a + b0, v, x);
      CountSnoc(b0, v, x);
    }
  }

  lemma {:induction false} CountIsMultiset(s: seq<int>, x: int)
    ensures Count(s, x) == multiset(s)[x]
    decreases |s|
  {
    if s != [] {
      var s0, v := s[..|s| - 1], s[|s| - 1];
      assert s == s0 + [v];
      CountIsMultiset(s0, x);
      MultisetSnoc(s0, v, x);
    }
  }

  lemma {:induction false} RepCount(id: int, n: nat, x: int)
    ensures Count(Rep(id, n), x) == if x == id then n else 0
    decreases n
  {
    if n > 0 {
      RepCount(id, n - 1, x);
      CountSnoc(Rep(id, n - 1), id, x);
    }
  }

  /** The compacted disk holds every block of every file exactly once, and nothing else. */
  lemma CompactBlocks(dm: seq<nat>)
    ensures multiset(Compact(Disk(dm))) == AllBlocks(FileSizes(dm))
    ensures |Compact(Disk(dm))| == Sum(FileSizes(dm))
  {
    var fq := FileSizes(dm);
    var c := Compact(Disk(dm));
    forall x
      ensures multiset(c)[x] == AllBlocks(fq)[x]
    {
      if x != Free {
        DiskCount(dm, x);
        CountIsMultiset(Disk(dm), x);
      }
      CompactCount(Disk(dm), x);
      AllBlocksCount(fq, x);
    }
    assert multiset(c) == AllBlocks(fq);
    AllBlocksCount(fq, 0);
    assert |c| == |multiset(c)|;
  }

  /** The disk holds fq[k] blocks of each file k. */
  lemma DiskCount(dm: seq<nat>, x: int)
    requires x != Free
    ensures Count(Disk(dm), x) == if 0 <= x < |FileSizes(dm)| then FileSizes(dm)[x] else 0
  {
    var fq, fr := FileSizes(dm), FreeSizes(dm);
    var s := Segment(fq, fr, 0, |fq| - 1);
    SegmentCount(fq, fr, 0, |fq| - 1, x);
    if |dm| > 0 && |dm| % 2 == 0 {
      var tail := Rep(Free, dm[|dm| - 1]);
      assert Disk(dm) == s + tail;
      CountAppend(s, tail, x);
      RepCount(Free, dm[|dm| - 1], x);
    } else {
      assert Disk(dm) == s + [];
      assert s + [] == s;
    }
  }

  /** The inner loop plus the partial fill, guarded by head <= tail (day9.py:25-32):
      the free span in front of files head..tail0 is filled from the end, as in the
      compacted disk. */
  method Fill(fq0: seq<nat>, ghost fr: seq<nat>, free0: nat, head: nat, tail0: int, fs0: seq<int>)
    returns (fq: seq<nat>, tail: int, fs: seq<int>)
    requires head - 1 <= tail0 < |fq0| && tail0 <= |fr|
    ensures |fq| == |fq0| && head - 1 <= tail <= tail0
    ensures fs + Compact(Segment(fq, fr, head, tail)) == fs0 + Compact(Rep(Free, free0) + Segment(fq0, fr, head, tail0))
  {
    fq, tail, fs := fq0, tail0, fs0;
    var free := free0;
    ghost var target := fs0 + Compact(Rep(Free, free0) + Segment(fq0, fr, head, tail0));
    while head <= tail && free >= fq[tail]
      invariant head - 1 <= tail <= tail0 && |fq| == |fq0| && fq == fq0
      invariant fs + Compact(Rep(Free, free) + Segment(fq, fr, head, tail)) == target
      decreases tail
    {
      FillStep(fs, fq, fr, free, head, tail, target);
      fs := fs + Rep(tail, fq[tail]);
      free := free - fq[tail];
      tail := tail - 1;
    }
    if head <= tail {
      FillRest(fs, fq, fr, free, head, tail, target);
      fs := fs + Rep(tail, free);
      fq := fq[tail := fq[tail] - free];
    } else {
      FillDone(fs, fq, fr, free, head, tail, target);
    }
  }

  /** The inner loop's step, for the compacted disk. */
  lemma FillStep(fs: seq<int>, fq: seq<int>, fr: seq<int>, free: int, h: nat, t: int, target: seq<int>)
    requires h <= t < |fq| && t <= |fr| && 0 <= fq[t] <= free
    requires fs + Compact(Rep(Free, free) + Segment(fq, fr, h, t)) == target
    ensures (fs + Rep(t, fq[t])) + Compact(Rep(Free, free - fq[t]) + Segment(fq, fr, h, t - 1)) == target
  {
    FillFile(fq, fr, free, h, t);
    Regroup3(fs, Rep(t, fq[t]), Compact(Rep(Free, free - fq[t]) + Segment(fq, fr, h, t - 1)));
  }

  /** The partial fill after the loop, for the compacted disk. */
  lemma FillRest(fs: seq<int>, fq: seq<int>, fr: seq<int>, free: nat, h: nat, t: int, target: seq<int>)
    requires h <= t < |fq| && t <= |fr| && free < fq[t]
    requires fs + Compact(Rep(Free, free) + Segment(fq, fr, h, t)) == target
    ensures (fs + Rep(t, free)) + Compact(Segment(fq[t := fq[t] - free], fr, h, t)) == target
  {
    TakeBlocks(fq, fq[t := fq[t] - free], fr, free, 0, h, t, free);
    assert Rep(Free, 0) + Segment(fq[t := fq[t] - free], fr, h, t) == Segment(fq[t := fq[t] - free], fr, h, t);
  }

  /** Free blocks left once every file is placed stay empty. */
  lemma FillDone(fs: seq<int>, fq: seq<int>, fr: seq<int>, free: int, h: nat, t: int, target: seq<int>)
    requires t < h && t < |fq| && t <= |fr|
    requires fs + Compact(Rep(Free, free) + Segment(fq, fr, h, t)) == target
    ensures fs + Compact(Segment(fq, fr, h, t)) == target
  {
    CompactFrees(free);
  }

  /** A free span at least as long as the last file takes the whole file. */
  lemma FillFile(fq: seq<int>, fr: seq<int>, free: int, h: nat, t: int)
    requires h <= t < |fq| && t <= |fr| && 0 <= fq[t] <= free
    ensures Compact(Rep(Free, free) + Segment(fq, fr, h, t)) ==
      Rep(t, fq[t]) + Compact(Rep(Free, free - fq[t]) + Segment(fq, fr, h, t - 1))
  {
    var fq' := fq[t := fq[t] - fq[t]];
    ShortenedUpdate(fq, h, t, fq[t]);
    TakeBlocks(fq, fq', fr, free, free - fq[t], h, t, fq[t]);
    DropFile(fq', fr, free - fq[t], h, t);
    SegmentFrame(fq, fq', fr, h, t - 1);
  }

  /** The whole first file of a segment stays in front. */
  lemma KeepFile(fq: seq<int>, fr: seq<int>, h: nat, t: int)
    requires h <= t < |fq| && t <= |fr| && fq[h] >= 0
    ensures Compact(Segment(fq, fr, h, t)) ==
      Rep(h, fq[h]) + if h < t then Compact(Rep(Free, fr[h]) + Segment(fq, fr, h + 1, t)) else []
  {
    SegmentFront(fq, fr, h, t);
    var rest := if h < t then Rep(Free, fr[h]) + Segment(fq, fr, h + 1, t) else [];
    CompactKeepsFiles(h, fq[h], rest);
    if h == t {
      assert Compact(rest) == [];
    } else {
      assert Rep(Free, fr[h]) + Segment(fq, fr, h + 1, t) == rest;
    }
  }

  /** part of the outer loop's body (day9.py:20-21), for the compacted disk. */
  lemma KeepStep(fs: seq<int>, fq: seq<int>, fr: seq<int>, h: nat, t: int, target: seq<int>)
    requires h <= t < |fq| && t <= |fr| && fq[h] >= 0
    requires fs + Compact(Segment(fq, fr, h, t)) == target
    ensures h < t ==> (fs + Rep(h, fq[h])) + Compact(Rep(Free, fr[h]) + Segment(fq, fr, h + 1, t)) == target
    ensures h == t ==> (fs + Rep(h, fq[h])) + Compact(Segment(fq, fr, h + 1, t)) == target
  {
    KeepFile(fq, fr, h, t);
    if h < t {
      Regroup3(fs, Rep(h, fq[h]), Compact(Rep(Free, fr[h]) + Segment(fq, fr, h + 1, t)));
    } else {
      assert Compact(Segment(fq, fr, h + 1, t)) == [];
      Regroup3(fs, Rep(h, fq[h]), []);
    }
  }

  /** compactify (day9.py:6-34), with the inner loop and the fill after it guarded by
      head_idx <= tail_idx: the output is the compacted disk, so every block of every
      file appears exactly once and no free block is left between them. */
  method Compactify(dm: seq<nat>) returns (fs: seq<int>)
    ensures fs == Compact(Disk(dm))
    ensures multiset(fs) == AllBlocks(FileSizes(dm))
    ensures |fs| == Sum(FileSizes(dm))
    ensures forall x :: multiset(fs)[x] == if 0 <= x < |FileSizes(dm)| then FileSizes(dm)[x] else 0
  {
    var fq := FileSizes(dm);
    var fr := FreeSizes(dm);
    ghost var sizes := fq;
    fs := [];
    var head := 0;
    var tail := |fq| - 1;
    var popped := 0;   // free_queue.pop(0) takes fr[popped]
    ghost var target := Compact(Disk(dm));
    CompactDisk(dm);
    assert fs + Compact(Segment(fq, fr, head, tail)) == target;
    while head <= tail
      invariant 0 <= head <= tail + 1 && tail < |fq| == |sizes| && popped == head
      invariant |fr| + 1 >= |fq|
      invariant fs + Compact(Segment(fq, fr, head, tail)) == target
      decreases tail - head + 1
    {
      KeepStep(fs, fq, fr, head, tail, target);
      fs := fs + Rep(head, fq[head]);
      head := head + 1;
      if head <= tail {
        var free := fr[popped];
        popped := popped + 1;
        fq, tail, fs := Fill(fq, fr, free, head, tail, fs);
      }
      popped := head;
    }
    assert Segment(fq, fr, head, tail) == [];
    assert fs == fs + Compact([]);
    CompactBlocks(dm);
    forall x ensures multiset(fs)[x] == if 0 <= x < |FileSizes(dm)| then FileSizes(dm)[x] else 0 {
      AllBlocksCount(FileSizes(dm), x);
    }
  }

  // ---------------------------------------------------------------------------
  // compactify as written agrees with the compacted disk while the inner loop
  // stops at or above head_idx
  // ---------------------------------------------------------------------------

  ghost predicate NonNeg(s: seq<int>) {
    forall k :: 0 <= k < |s| ==> s[k] >= 0
  }

  /** The inner loop (day9.py:26-29), started on files head..tail with free blocks,
      stops while tail_idx is still at or above head. */
  ghost predicate FillStays(fq: seq<int>, free: int, head: nat, tail: int)
    requires tail < |fq|
    decreases tail - head + 1
  {
    head <= tail && (free >= fq[tail] ==> FillStays(fq, free - fq[tail], head, tail - 1))
  }

  /** Every inner loop of the outer loop (day9.py:18-32) stops at or above head_idx. */
  ghost predicate OuterStays(fq: seq<int>, fr: seq<int>, head: nat, tail: int)
    requires tail < |fq|
    decreases tail - head + 1
  {
    head + 1 > tail ||
      (fr != [] && FillStays(fq, fr[0], head + 1, tail) &&
       var st := FillAsWritten(fq, fr[0], tail, []);
       st.Some? && |st.value.1| == |fq| && head + 1 <= st.value.2 <= tail &&
       OuterStays(st.value.1, fr[1..], head + 1, st.value.2))
  }

  /** The file queue and tail index FillAsWritten leaves do not depend on the
      filesystem built so far. */
  lemma {:induction false} FillIndep(fq: seq<int>, free: int, tail: int, fs: seq<int>, fs': seq<int>)
    ensures FillAsWritten(fq, free, tail, fs).Some? == FillAsWritten(fq, free, tail, fs').Some?
    ensures FillAsWritten(fq, free, tail, fs).Some? ==>
      FillAsWritten(fq, free, tail, fs).value.1 == FillAsWritten(fq, free, tail, fs').value.1 &&
      FillAsWritten(fq, free, tail, fs).value.2 == FillAsWritten(fq, free, tail, fs').value.2
    decreases tail + |fq|
  {
    match PyGet(fq, tail)
    case None =>
    case Some(v) =>
      if free >= v { FillIndep(fq, free - v, tail - 1, fs + Rep(tail, v), fs' + Rep(tail, v)); }
  }

  lemma FillTakeUnfold(fq: seq<int>, free: int, tail: int, fs: seq<int>)
    requires 0 <= tail < |fq| && fq[tail] <= free
    ensures FillAsWritten(fq, free, tail, fs) == FillAsWritten(fq, free - fq[tail], tail - 1, fs + Rep(tail, fq[tail]))
  {
    assert PyGet(fq, tail) == Some(fq[tail]);
  }

  lemma FillRestUnfold(fq: seq<int>, free: int, tail: int, fs: seq<int>)
    requires 0 <= tail < |fq| && free < fq[tail]
    ensures FillAsWritten(fq, free, tail, fs) == Some((fs + Rep(tail, free), fq[tail := fq[tail] - free], tail))
  {
    assert PyGet(fq, tail) == Some(fq[tail]);
    assert PySet(fq, tail, fq[tail] - free) == fq[tail := fq[tail] - free];
  }

  /** An inner loop that stays at or above head fills the free span as the compacted
      disk does. */
  lemma {:induction false} FillAgrees(fq: seq<int>, fr: seq<int>, free: int, head: nat, tail: int, fs: seq<int>)
    requires tail < |fq| && tail <= |fr| && NonNeg(fq) && free >= 0 && FillStays(fq, free, head, tail)
    ensures FillAsWritten(fq, free, tail, fs).Some?
    ensures var r := FillAsWritten(fq, free, tail, fs).value;
      head <= r.2 <= tail && |r.1| == |fq| && NonNeg(r.1) &&
      r.0 + Compact(Segment(r.1, fr, head, r.2)) == fs + Compact(Rep(Free, free) + Segment(fq, fr, head, tail))
    decreases tail - head
  {
    var target := fs + Compact(Rep(Free, free) + Segment(fq, fr, head, tail));
    if free >= fq[tail] {
      FillTakeUnfold(fq, free, tail, fs);
      FillStep(fs, fq, fr, free, head, tail, target);
      FillAgrees(fq, fr, free - fq[tail], head, tail - 1, fs + Rep(tail, fq[tail]));
    } else {
      FillRestUnfold(fq, free, tail, fs);
      FillRest(fs, fq, fr, free, head, tail, target);
    }
  }

  /** The outer loop as written yields the compacted disk from head on, when every
      inner loop stays at or above head_idx; fr[head..] is what is left of free_queue. */
  lemma {:induction false} OuterAgrees(fq: seq<int>, fr: seq<int>, head: nat, tail: int, fs: seq<int>)
    requires tail < |fq| && tail <= |fr| && head <= |fr| && NonNeg(fq) && NonNeg(fr)
    requires OuterStays(fq, fr[head..], head, tail)
    ensures OuterAsWritten(fq, fr[head..], head, tail, fs) == Some(fs + Compact(Segment(fq, fr, head, tail)))
    decreases tail - head + 1
  {
    var target := fs + Compact(Segment(fq, fr, head, tail));
    if head > tail {
      assert Compact(Segment(fq, fr, head, tail)) == [];
      assert fs + [] == fs;
    } else {
      var fs1 := fs + Rep(head, fq[head]);
      KeepStep(fs, fq, fr, head, tail, target);
      if head + 1 <= tail {
        var q := fr[head..];
        assert q[0] == fr[head] && q[1..] == fr[head + 1..];
        FillIndep(fq, q[0], tail, fs1, []);
        FillAgrees(fq, fr, fr[head], head + 1, tail, fs1);
        FillAsWrittenShape(fq, q[0], tail, fs1);
        var r := FillAsWritten(fq, q[0], tail, fs1).value;
        OuterAgrees(r.1, fr, head + 1, r.2, r.0);
      } else {
        assert Segment(fq, fr, head + 1, tail) == [];
        assert fs1 + Compact([]) == fs1;
      }
    }
  }

  /** compactify as written returns the compacted disk whenever no inner loop runs
      below head_idx. */
  lemma CompactifyAgrees(dm: seq<nat>)
    requires OuterStays(FileSizes(dm), FreeSizes(dm), 0, |FileSizes(dm)| - 1)
    ensures CompactifyAsWritten(dm) == Some(Compact(Disk(dm)))
  {
    var fq, fr := FileSizes(dm), FreeSizes(dm);
    assert fr[0..] == fr;
    assert NonNeg(fq) && NonNeg(fr);
    OuterAgrees(fq, fr, 0, |fq| - 1, []);
    CompactDisk(dm);
    assert [] + Compact(Segment(fq, fr, 0, |fq| - 1)) == Compact(Disk(dm));
  }

  // ---------------------------------------------------------------------------
  // calculate_checksum (day9.py:80-85)
  // ---------------------------------------------------------------------------

  /** calculate_checksum (day9.py:85): the sum of i * fs[i]. */
  function Checksum(fs: seq<int>): int {
    if fs == [] then 0 else Checksum(fs[..|fs| - 1]) + (|fs| - 1) * fs[|fs| - 1]
  }

  /** The same sum, walked from the front with positions counted from offset. */
  function ChecksumFrom(fs: seq<int>, offset: int): int {
    if fs == [] then 0 else offset * fs[0] + ChecksumFrom(fs[1..], offset + 1)
  }

  lemma {:induction false} ChecksumFromLast(fs: seq<int>, offset: int)
    requires fs != []
    ensures ChecksumFrom(fs, offset) == ChecksumFrom(fs[..|fs| - 1], offset) + (offset + |fs| - 1) * fs[|fs| - 1]
    decreases |fs|
  {
    if |fs| > 1 {
      ChecksumFromLast(fs[1..], offset + 1);
      assert fs[1..][..|fs| - 2] == fs[..|fs| - 1][1..];
    }
  }

  /** Both orders of summation agree. */
  lemma {:induction false} ChecksumIsIndexSum(fs: seq<int>)
    ensures Checksum(fs) == ChecksumFrom(fs, 0)
    decreases |fs|
  {
    if fs != [] {
      ChecksumIsIndexSum(fs[..|fs| - 1]);
      ChecksumFromLast(fs, 0);
    }
  }

  /** Blocks of file 0 and free blocks (written as 0) leave the checksum unchanged. */
  lemma ChecksumAppendZero(fs: seq<int>)
    ensures Checksum(fs + [0]) == Checksum(fs)
  {
    assert (fs + [0])[..|fs|] == fs;
  }

  lemma {:induction false} ChecksumIgnoresZeros(fs: seq<int>, zeros: nat)
    ensures Checksum(fs + Rep(0, zeros)) == Checksum(fs)
    decreases zeros
  {
    if zeros > 0 {
      ChecksumIgnoresZeros(fs, zeros - 1);
      assert fs + Rep(0, zeros) == (fs + Rep(0, zeros - 1)) + [0];
      ChecksumAppendZero(fs + Rep(0, zeros - 1));
    } else {
      assert fs + Rep(0, zeros) == fs;
    }
  }

  // ---------------------------------------------------------------------------
  // defragment (day9.py:36-78)
  // ---------------------------------------------------------------------------

  /** A file or a free span: its length and its first block. */
  datatype Span = Span(size: nat, pos: nat)

  function End(s: Span): nat { s.pos + s.size }

  /** Where entry i of the disk map starts: the sum of the entries before it. */
  function Prefix(dm: seq<nat>, i: nat): nat
    requires i <= |dm|
  {
    if i == 0 then 0 else Prefix(dm, i - 1) + dm[i - 1]
  }

  lemma {:induction false} PrefixGap(dm: seq<nat>, a: nat, b: nat)
    requires a < b <= |dm|
    ensures Prefix(dm, a) + dm[a] <= Prefix(dm, b)
    decreases b - a
  {
    if b > a + 1 { PrefixGap(dm, a, b - 1); }
  }

  lemma {:induction false} PrefixIsSum(dm: seq<nat>, i: nat)
    requires i <= |dm|
    ensures Prefix(dm, i) == Sum(dm[..i])
  {
    if i > 0 {
      PrefixIsSum(dm, i - 1);
      assert dm[..i][..i - 1] == dm[..i - 1];
    }
  }

  /** The files in order, each with its length and position. */
  function FileQueue(dm: seq<nat>): (r: seq<Span>)
    ensures |r| == (|dm| + 1) / 2
  {
    seq((|dm| + 1) / 2, k requires 0 <= k < (|dm| + 1) / 2 => Span(dm[2 * k], Prefix(dm, 2 * k)))
  }

  /** The free spans in order, each with its length and position. */
  function FreeQueue(dm: seq<nat>): (r: seq<Span>)
    ensures |r| == |dm| / 2
  {
    seq(|dm| / 2, j requires 0 <= j < |dm| / 2 => Span(dm[2 * j + 1], Prefix(dm, 2 * j + 1)))
  }

  /** Files and free spans lie inside a disk of the given length, in disk-map order:
      free span j sits after file j and before file j + 1. */
  ghost predicate Layout(files: seq<Span>, frees: seq<Span>, total: nat) {
    (forall k :: 0 <= k < |files| ==> End(files[k]) <= total) &&
    (forall j :: 0 <= j < |frees| ==> End(frees[j]) <= total) &&
    (forall k1, k2 :: 0 <= k1 < k2 < |files| ==> End(files[k1]) <= files[k2].pos) &&
    (forall j1, j2 :: 0 <= j1 < j2 < |frees| ==> End(frees[j1]) <= frees[j2].pos) &&
    (forall j, k :: 0 <= j < |frees| && 0 <= k < |files| && j < k ==> End(frees[j]) <= files[k].pos) &&
    (forall j, k :: 0 <= j < |frees| && 0 <= k < |files| && k <= j ==> End(files[k]) <= frees[j].pos)
  }

  lemma LayoutOf(dm: seq<nat>)
    ensures Layout(FileQueue(dm), FreeQueue(dm), Sum(dm))
  {
    LayoutInside(dm);
    LayoutOrdered(dm);
    LayoutInterleaved(dm);
  }

  lemma LayoutInside(dm: seq<nat>)
    ensures forall k :: 0 <= k < |FileQueue(dm)| ==> End(FileQueue(dm)[k]) <= Sum(dm)
    ensures forall j :: 0 <= j < |FreeQueue(dm)| ==> End(FreeQueue(dm)[j]) <= Sum(dm)
  {
    var files, frees := FileQueue(dm), FreeQueue(dm);
    PrefixIsSum(dm, |dm|);
    assert dm[..|dm|] == dm;
    forall k | 0 <= k < |files| ensures End(files[k]) <= Sum(dm) {
      PrefixGap(dm, 2 * k, |dm|);
    }
    forall j | 0 <= j < |frees| ensures End(frees[j]) <= Sum(dm) {
      PrefixGap(dm, 2 * j + 1, |dm|);
    }
  }

  lemma LayoutOrdered(dm: seq<nat>)
    ensures forall k1, k2 :: 0 <= k1 < k2 < |FileQueue(dm)| ==> End(FileQueue(dm)[k1]) <= FileQueue(dm)[k2].pos
    ensures forall j1, j2 :: 0 <= j1 < j2 < |FreeQueue(dm)| ==> End(FreeQueue(dm)[j1]) <= FreeQueue(dm)[j2].pos
  {
    var files, frees := FileQueue(dm), FreeQueue(dm);
    forall k1, k2 | 0 <= k1 < k2 < |files| ensures End(files[k1]) <= files[k2].pos {
      PrefixGap(dm, 2 * k1, 2 * k2);
    }
    forall j1, j2 | 0 <= j1 < j2 < |frees| ensures End(frees[j1]) <= frees[j2].pos {
      PrefixGap(dm, 2 * j1 + 1, 2 * j2 + 1);
    }
  }

  lemma LayoutInterleaved(dm: seq<nat>)
    ensures forall j, k :: 0 <= j < |FreeQueue(dm)| && 0 <= k < |FileQueue(dm)| && j < k ==> End(FreeQueue(dm)[j]) <= FileQueue(dm)[k].pos
    ensures forall j, k :: 0 <= j < |FreeQueue(dm)| && 0 <= k < |FileQueue(dm)| && k <= j ==> End(FileQueue(dm)[k]) <= FreeQueue(dm)[j].pos
  {
    var files, frees := FileQueue(dm), FreeQueue(dm);
    forall j, k | 0 <= j < |frees| && 0 <= k < |files| && j < k ensures End(frees[j]) <= files[k].pos {
      PrefixGap(dm, 2 * j + 1, 2 * k);
    }
    forall j, k | 0 <= j < |frees| && 0 <= k < |files| && k <= j ensures End(files[k]) <= frees[j].pos {
      PrefixGap(dm, 2 * k, 2 * j + 1);
    }
  }

  /** The queue-building loop (day9.py:49-64). */
  method BuildQueues(dm: seq<nat>) returns (files: seq<Span>, frees: seq<Span>)
    ensures files == FileQueue(dm) && frees == FreeQueue(dm)
  {
    files, frees := [], [];
    var i := 0;
    var position := 0;
    while i < |dm|
      invariant 0 <= i <= |dm| && i % 2 == 0 && |files| == |frees| == i / 2
      invariant position == Prefix(dm, i)
      invariant forall k :: 0 <= k < |files| ==> files[k] == Span(dm[2 * k], Prefix(dm, 2 * k))
      invariant forall j :: 0 <= j < |frees| ==> frees[j] == Span(dm[2 * j + 1], Prefix(dm, 2 * j + 1))
    {
      files := files + [Span(dm[i], position)];
      position := position + dm[i];
      i := i + 1;
      if i == |dm| { break; }
      frees := frees + [Span(dm[i], position)];
      position := position + dm[i];
      i := i + 1;
    }
  }

  /** The blocks the files after file k (k itself included) use in free span j. */
  function Used(files: seq<Span>, spanOf: seq<int>, j: int, k: nat): nat
    requires |spanOf| == |files| && k <= |files|
    decreases |files| - k
  {
    if k == |files| then 0 else (if spanOf[k] == j then files[k].size else 0) + Used(files, spanOf, j, k + 1)
  }

  /** Where file k ends up: at its own position when spanOf[k] is -1, otherwise in free
      span spanOf[k], right after the later files already moved there. */
  function Dest(files: seq<Span>, frees: seq<Span>, spanOf: seq<int>, k: nat): nat
    requires |spanOf| == |files| && k < |files|
  {
    var j := spanOf[k];
    if 0 <= j < |frees| then frees[j].pos + Used(files, spanOf, j, k + 1) else files[k].pos
  }

  /** Block i holds file k at the end. */
  ghost predicate InRun(files: seq<Span>, frees: seq<Span>, spanOf: seq<int>, k: nat, i: int)
    requires |spanOf| == |files| && k < |files|
  {
    Dest(files, frees, spanOf, k) <= i < Dest(files, frees, spanOf, k) + files[k].size
  }

  function Min(a: int, b: int): int { if a < b then a else b }

  /** File k's placement is the one defragment makes, given the later files: it goes to
      the first free span before it that still has room for it, and stays where it is
      when there is none. */
  ghost predicate Choice(files: seq<Span>, frees: seq<Span>, spanOf: seq<int>, k: nat)
    requires |spanOf| == |files| && k < |files|
  {
    var j := spanOf[k];
    -1 <= j < Min(k, |frees|) &&
    (j >= 0 ==> Used(files, spanOf, j, k + 1) + files[k].size <= frees[j].size) &&
    (forall j' :: 0 <= j' < (if j >= 0 then j else Min(k, |frees|)) ==>
      frees[j'].size < Used(files, spanOf, j', k + 1) + files[k].size)
  }

  /** Two runs of blocks do not overlap. */
  predicate Apart(a: int, n: nat, b: int, m: nat) {
    n == 0 || m == 0 || a + n <= b || b + m <= a
  }

  /** The state defragment keeps for the files k.. it has placed: free_queue is the
      original spans less what those files took, each placement is first-fit, the
      placed runs are pairwise apart, and the disk holds each placed file's id on its
      run and 0 elsewhere. */
  ghost predicate Placed(disk: seq<int>, files: seq<Span>, frees: seq<Span>, cur: seq<Span>, spanOf: seq<int>, k: nat) {
    Layout(files, frees, |disk|) && |spanOf| == |files| && k <= |files| && |cur| == |frees| &&
    QueueAt(files, frees, cur, spanOf, k) &&
    (forall k' :: k <= k' < |files| ==> Choice(files, frees, spanOf, k')) &&
    (forall k1, k2 :: k <= k1 < k2 < |files| ==>
      Apart(Dest(files, frees, spanOf, k1), files[k1].size, Dest(files, frees, spanOf, k2), files[k2].size)) &&
    (forall k', i :: k <= k' < |files| && InRun(files, frees, spanOf, k', i) ==> 0 <= i < |disk| && disk[i] == k') &&
    (forall i :: 0 <= i < |disk| && (forall k' :: k <= k' < |files| ==> !InRun(files, frees, spanOf, k', i)) ==> disk[i] == 0)
  }

  lemma {:induction false} UsedFrame(files: seq<Span>, spanOf: seq<int>, j: int, m: nat, idx: nat, v: int)
    requires |spanOf| == |files| && idx < m <= |files|
    ensures Used(files, spanOf[idx := v], j, m) == Used(files, spanOf, j, m)
    decreases |files| - m
  {
    if m < |files| { UsedFrame(files, spanOf, j, m + 1, idx, v); }
  }

  lemma {:induction false} UsedCovers(files: seq<Span>, spanOf: seq<int>, j: int, m: nat, k: nat)
    requires |spanOf| == |files| && m <= k < |files| && spanOf[k] == j
    ensures Used(files, spanOf, j, k + 1) + files[k].size <= Used(files, spanOf, j, m)
    decreases k - m
  {
    if m < k { UsedCovers(files, spanOf, j, m + 1, k); }
  }

  /** A placed run lies inside the disk, and never to the right of the file's own position. */
  lemma RunInside(files: seq<Span>, frees: seq<Span>, spanOf: seq<int>, k: nat, total: nat)
    requires Layout(files, frees, total) && |spanOf| == |files| && k < |files| && Choice(files, frees, spanOf, k)
    ensures Dest(files, frees, spanOf, k) + files[k].size <= total
    ensures Dest(files, frees, spanOf, k) <= files[k].pos
  {
  }

  /** A new run, in the first free span j with room or at the file's own position, is
      apart from the run of every file placed before it. */
  lemma NewRunApart(files: seq<Span>, frees: seq<Span>, spanOf: seq<int>, k: nat, j: int, k': nat, total: nat)
    requires Layout(files, frees, total) && |spanOf| == |files| && k < k' < |files|
    requires Choice(files, frees, spanOf, k')
    requires -1 <= j < Min(k, |frees|)
    requires j >= 0 ==> Used(files, spanOf, j, k + 1) + files[k].size <= frees[j].size
    ensures Apart(if j >= 0 then frees[j].pos + Used(files, spanOf, j, k + 1) else files[k].pos, files[k].size,
                  Dest(files, frees, spanOf, k'), files[k'].size)
  {
    var j' := spanOf[k'];
    if j >= 0 && j' == j {
      UsedCovers(files, spanOf, j, k + 1, k');
    }
  }

  /** Python's for loop over enumerate(free_queue[:file_idx]) and its break (day9.py:69-74):
      the first span before file k with room for size blocks, or -1. */
  method FirstFit(cur: seq<Span>, k: nat, size: nat) returns (j: int)
    ensures -1 <= j < Min(k, |cur|)
    ensures j >= 0 ==> cur[j].size >= size
    ensures forall j' :: 0 <= j' < (if j >= 0 then j else Min(k, |cur|)) ==> cur[j'].size < size
  {
    j := 0;
    while j < Min(k, |cur|)
      invariant 0 <= j <= Min(k, |cur|)
      invariant forall j' :: 0 <= j' < j ==> cur[j'].size < size
    {
      if cur[j].size >= size { return; }
      j := j + 1;
    }
    return -1;
  }

  /** write_filesystem (day9.py:36-42): blocks start .. start + length - 1 become val,
      every other block is unchanged. */
  method WriteFilesystem(fs: array<int>, start: nat, length: nat, val: int)
    requires start + length <= fs.Length
    modifies fs
    ensures forall i :: 0 <= i < fs.Length ==> fs[i] == if start <= i < start + length then val else old(fs[i])
  {
    for i := start to start + length
      invariant forall i' :: 0 <= i' < fs.Length ==> fs[i'] == if start <= i' < i then val else old(fs[i'])
    {
      fs[i] := val;
    }
  }

  /** free_queue after the files k.. are placed: each original span less the blocks
      those files took from its front. */
  ghost predicate QueueAt(files: seq<Span>, frees: seq<Span>, cur: seq<Span>, spanOf: seq<int>, k: nat)
    requires |spanOf| == |files| && k <= |files|
  {
    |cur| == |frees| &&
    forall j :: 0 <= j < |frees| ==>
      (Used(files, spanOf, j, k) <= frees[j].size &&
       cur[j] == Span(frees[j].size - Used(files, spanOf, j, k), frees[j].pos + Used(files, spanOf, j, k)))
  }

  /** Choosing a span for file k leaves the usage counts from k + 1 on unchanged. */
  lemma UsedFrameAll(files: seq<Span>, spanOf: seq<int>, so: seq<int>, k: nat, v: int)
    requires |spanOf| == |files| && k < |files| && so == spanOf[k := v]
    ensures forall j', m :: k < m <= |files| ==> Used(files, so, j', m) == Used(files, spanOf, j', m)
  {
    forall j', m | k < m <= |files| ensures Used(files, so, j', m) == Used(files, spanOf, j', m) {
      UsedFrame(files, spanOf, j', m, k, v);
    }
  }

  /** Placing file k keeps the free queue in step with the placements. */
  lemma PlacedQueue(files: seq<Span>, frees: seq<Span>, cur: seq<Span>, spanOf: seq<int>, so: seq<int>, k: nat, j: int)
    requires |spanOf| == |files| && k < |files| && so == spanOf[k := j] && QueueAt(files, frees, cur, spanOf, k + 1)
    requires -1 <= j < Min(k, |cur|) && (j >= 0 ==> cur[j].size >= files[k].size)
    ensures QueueAt(files, frees, if j >= 0 then cur[j := Span(cur[j].size - files[k].size, cur[j].pos + files[k].size)] else cur,
                    so, k)
  {
    UsedFrameAll(files, spanOf, so, k, j);
  }

  /** Placing file k keeps every later choice and their runs. */
  lemma PlacedLater(files: seq<Span>, frees: seq<Span>, spanOf: seq<int>, so: seq<int>, k: nat, j: int)
    requires |spanOf| == |files| && k < |files| && so == spanOf[k := j]
    requires forall k' :: k < k' < |files| ==> Choice(files, frees, spanOf, k')
    ensures forall k' :: k < k' < |files| ==> Choice(files, frees, so, k')
    ensures forall k' :: k < k' < |files| ==> Dest(files, frees, so, k') == Dest(files, frees, spanOf, k')
  {
    UsedFrameAll(files, spanOf, so, k, j);
    forall k' | k < k' < |files|
      ensures Choice(files, frees, so, k') && Dest(files, frees, so, k') == Dest(files, frees, spanOf, k')
    {
      assert so[k'] == spanOf[k'];
      var m := k' + 1;
      forall j' ensures Used(files, so, j', m) == Used(files, spanOf, j', m) {
        UsedFrame(files, spanOf, j', m, k, j);
      }
      assert Choice(files, frees, spanOf, k');
    }
  }

  /** The first-fit choice for file k is a valid Choice, and its run starts at the chosen
      span's current front (or at the file itself). */
  lemma PlacedOwn(files: seq<Span>, frees: seq<Span>, cur: seq<Span>, spanOf: seq<int>, so: seq<int>, k: nat, j: int)
    requires |spanOf| == |files| && k < |files| && so == spanOf[k := j] && QueueAt(files, frees, cur, spanOf, k + 1)
    requires -1 <= j < Min(k, |cur|) && (j >= 0 ==> cur[j].size >= files[k].size)
    requires forall j' :: 0 <= j' < (if j >= 0 then j else Min(k, |cur|)) ==> cur[j'].size < files[k].size
    ensures Choice(files, frees, so, k)
    ensures Dest(files, frees, so, k) == if j >= 0 then cur[j].pos else files[k].pos
  {
    UsedFrameAll(files, spanOf, so, k, j);
  }

  /** Placing file k keeps the placed runs pairwise apart. */
  lemma PlacedApart(files: seq<Span>, frees: seq<Span>, spanOf: seq<int>, k: nat, j: int, total: nat)
    requires Layout(files, frees, total) && |spanOf| == |files| && k < |files|
    requires forall k' :: k < k' < |files| ==> Choice(files, frees, spanOf, k')
    requires forall k1, k2 :: k < k1 < k2 < |files| ==>
      Apart(Dest(files, frees, spanOf, k1), files[k1].size, Dest(files, frees, spanOf, k2), files[k2].size)
    requires -1 <= j < Min(k, |frees|)
    requires j >= 0 ==> Used(files, spanOf, j, k + 1) + files[k].size <= frees[j].size
    requires forall k' :: k < k' < |files| ==> Dest(files, frees, spanOf[k := j], k') == Dest(files, frees, spanOf, k')
    requires Dest(files, frees, spanOf[k := j], k) == if j >= 0 then frees[j].pos + Used(files, spanOf, j, k + 1) else files[k].pos
    ensures forall k1, k2 :: k <= k1 < k2 < |files| ==>
      Apart(Dest(files, frees, spanOf[k := j], k1), files[k1].size, Dest(files, frees, spanOf[k := j], k2), files[k2].size)
  {
    forall k' | k < k' < |files|
      ensures Apart(Dest(files, frees, spanOf[k := j], k), files[k].size, Dest(files, frees, spanOf, k'), files[k'].size)
    {
      NewRunApart(files, frees, spanOf, k, j, k', total);
    }
  }

  /** Writing file k's run keeps the disk in step with the placements. */
  lemma PlacedDisk(disk: seq<int>, disk': seq<int>, files: seq<Span>, frees: seq<Span>, spanOf: seq<int>, so: seq<int>, k: nat)
    requires |spanOf| == |files| == |so| && k < |files| && |disk'| == |disk|
    requires forall k' :: k < k' < |files| ==> Dest(files, frees, so, k') == Dest(files, frees, spanOf, k')
    requires forall k' :: k < k' < |files| ==>
      Apart(Dest(files, frees, so, k), files[k].size, Dest(files, frees, so, k'), files[k'].size)
    requires Dest(files, frees, so, k) + files[k].size <= |disk|
    requires forall i :: 0 <= i < |disk| ==> disk'[i] == if InRun(files, frees, so, k, i) then k else disk[i]
    requires forall k', i :: k < k' < |files| && InRun(files, frees, spanOf, k', i) ==> 0 <= i < |disk| && disk[i] == k'
    requires forall i :: 0 <= i < |disk| && (forall k' :: k < k' < |files| ==> !InRun(files, frees, spanOf, k', i)) ==> disk[i] == 0
    ensures forall k', i :: k <= k' < |files| && InRun(files, frees, so, k', i) ==> 0 <= i < |disk'| && disk'[i] == k'
    ensures forall i :: 0 <= i < |disk'| && (forall k' :: k <= k' < |files| ==> !InRun(files, frees, so, k', i)) ==> disk'[i] == 0
  {
    forall k', i | k <= k' < |files| && InRun(files, frees, so, k', i) ensures 0 <= i < |disk'| && disk'[i] == k' {
      if k' > k {
        assert InRun(files, frees, spanOf, k', i);
        assert !InRun(files, frees, so, k, i);
      }
    }
    forall i | 0 <= i < |disk'| && (forall k' :: k <= k' < |files| ==> !InRun(files, frees, so, k', i)) ensures disk'[i] == 0 {
      assert !InRun(files, frees, so, k, i);
      forall k' | k < k' < |files| ensures !InRun(files, frees, spanOf, k', i) {
        assert !InRun(files, frees, so, k', i);
      }
    }
  }

  /** The run chosen for file k fits on the disk. */
  lemma PlacedFits(disk: seq<int>, files: seq<Span>, frees: seq<Span>, cur: seq<Span>, spanOf: seq<int>, k: nat, j: int)
    requires k < |files| && Placed(disk, files, frees, cur, spanOf, k + 1)
    requires -1 <= j < Min(k, |cur|) && (j >= 0 ==> cur[j].size >= files[k].size)
    ensures (if j >= 0 then cur[j].pos else files[k].pos) + files[k].size <= |disk|
  {
  }

  /** Placing file k at the first-fit run, writing its id there and shrinking the span
      it took from, turns the state for files k + 1.. into the state for files k.. */
  lemma PlacedNext(disk: seq<int>, disk': seq<int>, files: seq<Span>, frees: seq<Span>, cur: seq<Span>, spanOf: seq<int>, k: nat, j: int)
    requires k < |files| && Placed(disk, files, frees, cur, spanOf, k + 1)
    requires -1 <= j < Min(k, |cur|) && (j >= 0 ==> cur[j].size >= files[k].size)
    requires forall j' :: 0 <= j' < (if j >= 0 then j else Min(k, |cur|)) ==> cur[j'].size < files[k].size
    requires |disk'| == |disk|
    requires var start := if j >= 0 then cur[j].pos else files[k].pos;
      forall i :: 0 <= i < |disk| ==> disk'[i] == if start <= i < start + files[k].size then k else disk[i]
    ensures Placed(disk', files, frees,
                   if j >= 0 then cur[j := Span(cur[j].size - files[k].size, cur[j].pos + files[k].size)] else cur,
                   spanOf[k := j], k)
  {
    var so := spanOf[k := j];
    PlacedQueue(files, frees, cur, spanOf, so, k, j);
    PlacedLater(files, frees, spanOf, so, k, j);
    PlacedOwn(files, frees, cur, spanOf, so, k, j);
    PlacedApart(files, frees, spanOf, k, j, |disk|);
    RunInside(files, frees, so, k, |disk|);
    PlacedDisk(disk, disk', files, frees, spanOf, so, k);
  }

  /** One pass of defragment's outer loop (day9.py:68-76): file k goes to the first
      free span before it with room, or is written at its own position. */
  method PlaceFile(disk: array<int>, files: seq<Span>, frees: seq<Span>, cur: seq<Span>, ghost spanOf: seq<int>, k: nat)
    returns (cur': seq<Span>, ghost spanOf': seq<int>)
    requires k < |files| && Placed(disk[..], files, frees, cur, spanOf, k + 1)
    modifies disk
    ensures Placed(disk[..], files, frees, cur', spanOf', k)
  {
    var size := files[k].size;
    var j := FirstFit(cur, k, size);
    ghost var before := disk[..];
    PlacedFits(before, files, frees, cur, spanOf, k, j);
    if j >= 0 {
      WriteFilesystem(disk, cur[j].pos, size, k);
      cur' := cur[j := Span(cur[j].size - size, cur[j].pos + size)];
    } else {
      WriteFilesystem(disk, files[k].pos, size, k);
      cur' := cur;
    }
    spanOf' := spanOf[k := j];
    PlacedNext(before, disk[..], files, frees, cur, spanOf, k, j);
  }

  /** What defragment's output promises: its length is the disk's, and for every file k,
      spanOf[k] is -1 (the file stays) or the free span it moved into, chosen first-fit
      given the later files; each file's id covers exactly its run (never to the right of
      where it started), the runs do not overlap, and every other block is 0. */
  ghost predicate Defragmented(dm: seq<nat>, fs: seq<int>, spanOf: seq<int>) {
    var files, frees := FileQueue(dm), FreeQueue(dm);
    |fs| == Sum(dm) && |spanOf| == |files| &&
    (forall k :: 0 <= k < |files| ==> Choice(files, frees, spanOf, k)) &&
    (forall k :: 0 <= k < |files| ==> Dest(files, frees, spanOf, k) <= files[k].pos) &&
    (forall k1, k2 :: 0 <= k1 < k2 < |files| ==>
      Apart(Dest(files, frees, spanOf, k1), files[k1].size, Dest(files, frees, spanOf, k2), files[k2].size)) &&
    (forall k, i :: 0 <= k < |files| && InRun(files, frees, spanOf, k, i) ==> 0 <= i < |fs| && fs[i] == k) &&
    (forall i :: 0 <= i < |fs| && (forall k :: 0 <= k < |files| ==> !InRun(files, frees, spanOf, k, i)) ==> fs[i] == 0)
  }

  /** defragment (day9.py:44-78). */
  method Defragment(dm: seq<nat>) returns (fs: seq<int>, ghost spanOf: seq<int>)
    ensures Defragmented(dm, fs, spanOf)
  {
    var files, frees := BuildQueues(dm);
    LayoutOf(dm);
    var disk := new int[Sum(dm)](_ => 0);
    var cur := frees;
    spanOf := seq(|files|, _ => -1);
    var k := |files|;
    while k > 0
      invariant 0 <= k <= |files|
      invariant Placed(disk[..], files, frees, cur, spanOf, k)
      decreases k
    {
      k := k - 1;
      cur, spanOf := PlaceFile(disk, files, frees, cur, spanOf, k);
    }
    fs := disk[..];
    forall k | 0 <= k < |files| ensures Dest(files, frees, spanOf, k) <= files[k].pos {
      RunInside(files, frees, spanOf, k, Sum(dm));
    }
  }

  /** part1 as written (day9.py:88-93): the checksum of what the unguarded compactify
      returns, or None where it raises an IndexError. It agrees with Part1 whenever no
      inner loop takes tail_idx below head_idx. */
  method Part1AsWritten(dm: seq<nat>) returns (c: Option<int>)
    ensures c.None? <==> CompactifyAsWritten(dm).None?
    ensures c.Some? ==> c.value == ChecksumFrom(CompactifyAsWritten(dm).value, 0)
    ensures OuterStays(FileSizes(dm), FreeSizes(dm), 0, |FileSizes(dm)| - 1) ==> c == Some(Checksum(Compact(Disk(dm))))
  {
    if OuterStays(FileSizes(dm), FreeSizes(dm), 0, |FileSizes(dm)| - 1) {
      CompactifyAgrees(dm);
    }
    match CompactifyAsWritten(dm)
    case None => c := None;
    case Some(fs) =>
      c := Some(Checksum(fs));
      ChecksumIsIndexSum(fs);
  }

  /** On [1,3,1] part1 as written returns 0*0 + 1*1 + 2*0 + 3*(-1) = -2, while the
      compacted disk "0.1" has the checksum 1. */
  lemma AsWrittenChecksumDiffers(dm: seq<nat>)
    requires dm == [1, 3, 1]
    ensures CompactifyAsWritten(dm) == Some([0, 1, 0, -1]) && Checksum([0, 1, 0, -1]) == -2
    ensures Checksum(Compact(Disk(dm))) == 1
  {
    CompactifyWritesNegativeIds(dm);
    CompactedWideGap(dm);
    assert [0, 1, 0, -1][..3] == [0, 1, 0];
    assert [0, 1, 0][..2] == [0, 1];
    assert [0, 1][..1] == [0];
    assert [0][..0] == [];
  }

  /** part1 (day9.py:88-93) with the corrected compactify: the checksum of the
      compacted filesystem. */
  method Part1(dm: seq<nat>) returns (c: int)
    ensures c == Checksum(Compact(Disk(dm)))
  {
    var fs := Compactify(dm);
    c := Checksum(fs);
  }

  /** part2 (day9.py:96-101): the checksum of the defragmented filesystem. */
  method Part2(dm: seq<nat>) returns (c: int)
    ensures exists fs: seq<int>, spanOf: seq<int> :: Defragmented(dm, fs, spanOf) && c == Checksum(fs)
  {
    var fs;
    ghost var spanOf;
    fs, spanOf := Defragment(dm);
    c := Checksum(fs);
    assert Defragmented(dm, fs, spanOf) && c == Checksum(fs);
  }
}
