/** The allocator of runtime/runtime.c on its array of words.

    `mem` is the heap, word by word, from the aligned `heap_begin`; `root` stands for
    `free_root`, `last` for `last_descriptor` and `brk` for `alloc_base`.  The ghost list
    `slabs` is what the descriptor words encode. */
module Allocator {
  import opened Prelude
  import opened SlabHeap
  import opened HeapLaws
  import opened HeapRuns

  predicate IsOccupied(w: nat) {
    w >= FLAG
  }

  /** `w & ~OCCUPIED_FLAG` */
  function Unmark(w: nat): nat {
    if w >= FLAG then w - FLAG else w
  }

  /** `i | OCCUPIED_FLAG` for an index below the flag, or `i` itself */
  function Descriptor(i: nat, use: Use): nat {
    if use.Free? then i else i + FLAG
  }

  predicate SlabEncoded(m: seq<nat>, r: nat, c: Slab) {
    && r + c.start < |m| && r + c.end < |m|
    && m[r + c.start] == Descriptor(c.end, c.use)
    && m[r + c.end] == Descriptor(c.start, c.use)
  }

  ghost predicate Encoded(m: seq<nat>, r: nat, s: seq<Slab>) {
    forall k | 0 <= k < |s| :: SlabEncoded(m, r, s[k])
  }

  /** What the descriptors of slab `k` say. */
  lemma Decode(m: seq<nat>, r: nat, s: seq<Slab>, hi: nat, k: nat)
    requires Shape(s, 0, hi) && hi < FLAG - 1 && Encoded(m, r, s) && k < |s|
    ensures r + s[k].start < |m| && r + s[k].end < |m|
    ensures var w := m[r + s[k].start];
            w != MAX_VAL && (IsOccupied(w) <==> !s[k].use.Free?) && Unmark(w) == s[k].end
    ensures var w := m[r + s[k].end];
            w != MAX_VAL && (IsOccupied(w) <==> !s[k].use.Free?) && Unmark(w) == s[k].start
    ensures s[k].end + 1 == (if k + 1 < |s| then s[k + 1].start else hi)
  {
    assert SlabEncoded(m, r, s[k]) && Good(s[k]);
    Below(s, 0, hi, k);
    assert k + 1 < |s| ==> Joined(s[k], s[k + 1]);
  }

  /** `smallest` and `room` are what the scan holds after `k` slabs. */
  ghost predicate Scanned(s: seq<Slab>, k: nat, size: nat, a: nat, smallest: nat, room: nat)
    requires k <= |s| && a > 0
  {
    var b := Scan(s, k, size, a);
    room == b.1 && (room != MAX_VAL ==> b.0 < k && smallest == s[b.0].start)
  }

  lemma ScanStep(s: seq<Slab>, k: nat, size: nat, a: nat, smallest: nat, room: nat)
    requires k < |s| && a > 0 && Scanned(s, k, size, a, smallest, room)
    ensures if s[k].use.Free? && size <= Room(s[k], a) && Room(s[k], a) < room
            then Scanned(s, k + 1, size, a, s[k].start, Room(s[k], a))
            else Scanned(s, k + 1, size, a, smallest, room)
  {
  }

  /** Where slab `k` starts, or the sentinel behind the last one. */
  function StartOf(s: seq<Slab>, hi: nat, k: nat): nat
    requires k <= |s|
  {
    if k < |s| then s[k].start else hi
  }

  lemma SentinelOnlyAtEnd(m: seq<nat>, h: Heap, k: nat)
    requires Tape(m, h) && h.root.Some? && k <= |h.slabs|
    ensures var x := h.root.value + StartOf(h.slabs, h.last, k); x < |m| && (m[x] == MAX_VAL <==> k == |h.slabs|)
  {
    if k < |h.slabs| {
      Decode(m, h.root.value, h.slabs, h.last, k);
    }
  }

  /** Rewriting only the words of some neighbouring slabs re-encodes only those. */
  lemma SpliceEncoded(m: seq<nat>, m': seq<nat>, r: nat, s: seq<Slab>, hi: nat, i: nat, j: nat, mid: seq<Slab>)
    requires Shape(s, 0, hi) && Encoded(m, r, s) && i < j <= |s| && Encoded(m', r, mid) && |m'| == |m|
    requires forall x | 0 <= x < |m| && x < r + hi && !(r + s[i].start <= x <= r + s[j - 1].end) :: m'[x] == m[x]
    ensures Encoded(m', r, s[..i] + mid + s[j..])
  {
    var t := s[..i] + mid + s[j..];
    forall k | 0 <= k < |t| ensures SlabEncoded(m', r, t[k]) {
      if k < i {
        assert t[k] == s[k] && SlabEncoded(m, r, s[k]) && Good(s[k]);
        Ordered(s, 0, hi, k, i);
        Below(s, 0, hi, k);
      } else if k < i + |mid| {
        assert t[k] == mid[k - i];
      } else {
        var n := k - i - |mid| + j;
        assert t[k] == s[n] && SlabEncoded(m, r, s[n]) && Good(s[n]);
        Ordered(s, 0, hi, j - 1, n);
        Below(s, 0, hi, n);
      }
    }
  }

  lemma AppendEncoded(m: seq<nat>, m': seq<nat>, r: nat, s: seq<Slab>, hi: nat, t: seq<Slab>)
    requires Shape(s, 0, hi) && Encoded(m, r, s) && Encoded(m', r, t) && |m'| == |m|
    requires forall x | 0 <= x < |m| && x < r + hi :: m'[x] == m[x]
    ensures Encoded(m', r, s + t)
  {
    forall k | 0 <= k < |s| ensures SlabEncoded(m', r, s[k]) {
      assert SlabEncoded(m, r, s[k]) && Good(s[k]);
      Below(s, 0, hi, k);
    }
  }

  lemma LastReplaced(m: seq<nat>, m': seq<nat>, r: nat, s: seq<Slab>, hi: nat, c: Slab)
    requires Shape(s, 0, hi) && Encoded(m, r, s) && SlabEncoded(m', r, c) && |m'| == |m|
    requires forall x | 0 <= x < |m| && x < r + s[|s| - 1].start :: m'[x] == m[x]
    ensures Encoded(m', r, s[..|s| - 1] + [c])
  {
    var k := |s| - 1;
    forall n | 0 <= n < k ensures SlabEncoded(m', r, s[n]) {
      assert SlabEncoded(m, r, s[n]) && Good(s[n]);
      Ordered(s, 0, hi, n, k);
    }
  }

  /** Descriptor words belong to nobody. */
  lemma DescriptorIsUntaken(s: seq<Slab>, hi: nat, k: nat, x: nat)
    requires Shape(s, 0, hi) && k < |s| && (x == s[k].start || x == s[k].end)
    ensures !Taken(s, x)
  {
    assert Good(s[k]);
    if c :| c in s && !c.use.Free? && c.start < x < c.end {
      var n :| 0 <= n < |s| && s[n] == c;
      AtMostOneSlab(s, hi, k, n, x);
    }
  }

  lemma PastTheEndIsUntaken(s: seq<Slab>, hi: nat, x: nat)
    requires Shape(s, 0, hi) && x >= hi
    ensures !Taken(s, x)
  {
    if c :| c in s && !c.use.Free? && c.start < x < c.end {
      var n :| 0 <= n < |s| && s[n] == c;
      Below(s, 0, hi, n);
    }
  }

  /** Memory `m` encodes heap `h`, with the sentinel past the last slab. */
  ghost predicate Tape(m: seq<nat>, h: Heap) {
    && WF(h) && |m| == h.limit / 8
    && (h.root.Some? ==> Encoded(m, h.root.value, h.slabs) && m[h.root.value + h.last] == MAX_VAL)
  }

  /** No word that a caller owns in `h` differs between `m` and `m'`. */
  ghost predicate Kept(m: seq<nat>, m': seq<nat>, h: Heap) {
    |m'| == |m| && forall x | 0 <= x < |m| && Protected(h, x) :: m'[x] == m[x]
  }

  lemma DescriptorUnowned(h: Heap, k: nat, x: nat)
    requires WF(h) && h.root.Some? && k < |h.slabs| && (x == h.slabs[k].start || x == h.slabs[k].end)
    ensures !Protected(h, h.root.value + x)
  {
    Below(h.slabs, 0, h.last, k);
    assert Good(h.slabs[k]);
    DescriptorIsUntaken(h.slabs, h.last, k, x);
  }

  lemma SentinelUnowned(h: Heap)
    requires WF(h) && h.root.Some?
    ensures !Protected(h, h.root.value + h.last)
  {
    PastTheEndIsUntaken(h.slabs, h.last, h.last);
  }

  lemma BeyondBreakUnowned(h: Heap, x: nat)
    requires WF(h) && x >= h.brk
    ensures !Protected(h, x)
  {
    if h.root.Some? {
      PastTheEndIsUntaken(h.slabs, h.last, x - h.root.value);
    }
  }

  lemma MergeGrowthTape(m: seq<nat>, m': seq<nat>, h: Heap, size: nat, a: nat, smallest: nat, newLast: nat)
    requires Tape(m, h) && h.root.Some? && a > 0 && CanSbrk(h, GetSbrkSize(size, a)) && Contiguous(h)
             && EndsFree(h.slabs)
    requires smallest == h.slabs[|h.slabs| - 1].start && newLast == h.last + GrowthWords(size, a)
    requires h.root.value + newLast < |m|
    requires var r := h.root.value;
             m' == m[r + newLast := MAX_VAL][r + smallest := newLast - 1][r + newLast - 1 := smallest]
    ensures Tape(m', Grow(h, size, a))
  {
    var s := h.slabs;
    GrowthIsEnough(size, a);
    GrowWF(h, size, a);
    var t := s[..|s| - 1] + [Slab(smallest, newLast - 1, Free)];
    MergedEndEncoded(m, m', h.root.value, s, h.last, smallest, newLast);
    MakesTape(m', Grow(h, size, a), h.root.value, t, newLast);
  }

  lemma MergedEndEncoded(m: seq<nat>, m': seq<nat>, r: nat, s: seq<Slab>, hi: nat, smallest: nat, newLast: nat)
    requires Shape(s, 0, hi) && Encoded(m, r, s) && s != [] && smallest == s[|s| - 1].start && hi < newLast
             && r + newLast < |m|
    requires smallest < newLast
             && m' == m[r + newLast := MAX_VAL][r + smallest := newLast - 1][r + newLast - 1 := smallest]
    ensures Encoded(m', r, s[..|s| - 1] + [Slab(smallest, newLast - 1, Free)])
    ensures |m'| == |m| && m'[r + newLast] == MAX_VAL
  {
    Below(s, 0, hi, |s| - 1);
    assert Good(s[|s| - 1]);
    LastReplaced(m, m', r, s, hi, Slab(smallest, newLast - 1, Free));
  }

  lemma FirstSlabTape(m: seq<nat>, m': seq<nat>, h: Heap, size: nat, a: nat, n: nat)
    requires WF(h) && |m| == h.limit / 8 && h.root.None? && a > 0 && CanSbrk(h, GetSbrkSize(size, a))
    requires n == GrowthWords(size, a) && n >= 2 && h.brk + n <= |m|
    requires m' == m[h.brk := n - 2][h.brk + n - 2 := 0][h.brk + n - 1 := MAX_VAL]
    ensures Tape(m', FirstSlab(h, size, a)) && Kept(m, m', h)
  {
    GrowthIsEnough(size, a);
    FirstSlabWF(h, size, a);
    MakesTape(m', FirstSlab(h, size, a), h.brk, [Slab(0, n - 2, Use.Free)], n - 1);
  }

  lemma MakesTape(m: seq<nat>, h: Heap, r: nat, s: seq<Slab>, last: nat)
    requires WF(h) && h.root == Some(r) && h.slabs == s && h.last == last && Encoded(m, r, s)
    requires |m| == h.limit / 8 && r + last < |m| && m[r + last] == MAX_VAL
    ensures Tape(m, h)
  {
  }

  lemma MergeGrowthKept(m: seq<nat>, m': seq<nat>, h: Heap, smallest: nat, newLast: nat)
    requires WF(h) && h.root.Some? && EndsFree(h.slabs) && smallest == h.slabs[|h.slabs| - 1].start
    requires h.brk < h.root.value + newLast < |m| && h.root.value + h.last < |m|
    requires smallest < h.last
    requires var r := h.root.value;
             m' == m[r + newLast := MAX_VAL][r + smallest := newLast - 1][r + newLast - 1 := smallest]
    ensures Kept(m, m', h)
  {
    DescriptorUnowned(h, |h.slabs| - 1, smallest);
    BeyondBreakUnowned(h, h.root.value + newLast);
    BeyondBreakUnowned(h, h.root.value + newLast - 1);
  }

  lemma AppendGrowthTape(m: seq<nat>, m': seq<nat>, h: Heap, size: nat, a: nat, newLast: nat)
    requires Tape(m, h) && h.root.Some? && a > 0 && CanSbrk(h, GetSbrkSize(size, a)) && Contiguous(h)
             && !EndsFree(h.slabs)
    requires newLast == h.last + GrowthWords(size, a) && h.root.value + newLast < |m|
    requires var r := h.root.value;
             m' == m[r + newLast := MAX_VAL][r + h.last := newLast - 1][r + newLast - 1 := h.last]
    ensures Tape(m', Grow(h, size, a))
  {
    GrowthIsEnough(size, a);
    GrowWF(h, size, a);
    AppendEncoded(m, m', h.root.value, h.slabs, h.last, [Slab(h.last, newLast - 1, Free)]);
  }

  lemma AppendGrowthKept(m: seq<nat>, m': seq<nat>, h: Heap, newLast: nat)
    requires WF(h) && h.root.Some? && h.brk < h.root.value + newLast < |m|
    requires var r := h.root.value;
             m' == m[r + newLast := MAX_VAL][r + h.last := newLast - 1][r + newLast - 1 := h.last]
    ensures Kept(m, m', h)
  {
    var r := h.root.value;
    SentinelUnowned(h);
    BeyondBreakUnowned(h, r + newLast);
    BeyondBreakUnowned(h, r + newLast - 1);
  }

  lemma SkipGrowthTape(m: seq<nat>, m': seq<nat>, h: Heap, size: nat, a: nat, skip: nat, newLast: nat)
    requires Tape(m, h) && h.root.Some? && a > 0 && CanSbrk(h, GetSbrkSize(size, a)) && !Contiguous(h)
    requires skip == h.brk - h.root.value && newLast == skip + GrowthWords(size, a) - 1
    requires h.root.value + newLast < |m|
    requires var r := h.root.value;
             m' == m[r + h.last := skip + FLAG][r + skip := h.last + FLAG][r + skip + 1 := newLast - 1]
                    [r + newLast - 1 := skip + 1][r + newLast := MAX_VAL]
    ensures Tape(m', Grow(h, size, a))
  {
    var r := h.root.value;
    GrowthIsEnough(size, a);
    var t := [Slab(h.last, skip, Foreign), Slab(skip + 1, newLast - 1, Free)];
    assert Grow(h, size, a).slabs == h.slabs + t;
    AppendEncoded(m, m', r, h.slabs, h.last, t);
    GrowWF(h, size, a);
  }

  lemma SkipGrowthKept(m: seq<nat>, m': seq<nat>, h: Heap, skip: nat, newLast: nat)
    requires WF(h) && h.root.Some? && skip == h.brk - h.root.value && skip + 3 < newLast
    requires h.root.value + newLast < |m| && h.last < skip
    requires var r := h.root.value;
             m' == m[r + h.last := skip + FLAG][r + skip := h.last + FLAG][r + skip + 1 := newLast - 1]
                    [r + newLast - 1 := skip + 1][r + newLast := MAX_VAL]
    ensures Kept(m, m', h)
  {
    var r := h.root.value;
    SentinelUnowned(h);
    BeyondBreakUnowned(h, r + skip);
    BeyondBreakUnowned(h, r + skip + 1);
    BeyondBreakUnowned(h, r + newLast - 1);
    BeyondBreakUnowned(h, r + newLast);
  }

  predicate SameOutside(m: seq<nat>, m': seq<nat>, lo: nat, hi: nat) {
    |m'| == |m| && forall x | 0 <= x < |m| && !(lo <= x <= hi) :: m'[x] == m[x]
  }

  lemma Respliced(m: seq<nat>, m': seq<nat>, h: Heap, i: nat, j: nat, mid: seq<Slab>)
    requires Tape(m, h) && h.root.Some? && i < j <= |h.slabs|
    requires Encoded(m', h.root.value, mid) && Shape(h.slabs[..i] + mid + h.slabs[j..], 0, h.last)
    requires SameOutside(m, m', h.root.value + h.slabs[i].start, h.root.value + h.slabs[j - 1].end)
    ensures Tape(m', h.(slabs := h.slabs[..i] + mid + h.slabs[j..]))
  {
    SpliceEncoded(m, m', h.root.value, h.slabs, h.last, i, j, mid);
    Below(h.slabs, 0, h.last, j - 1);
  }

  lemma EncodedAfter(m: seq<nat>, m': seq<nat>, r: nat, c: Slab, lo: nat, hi: nat, t: seq<Slab>)
    requires SlabEncoded(m, r, c) && c.start <= c.end && r + c.end < lo && SameOutside(m, m', lo, hi)
             && Encoded(m', r, t)
    ensures Encoded(m', r, [c] + t)
  {
    assert SlabEncoded(m', r, c);
  }

  /** A block cut from slab `i`; padding, if any, stays in front as a free slab. */
  lemma CarvePlain(m: seq<nat>, m1: seq<nat>, m2: seq<nat>, h: Heap, i: nat, size: nat, a: nat, first: nat)
    requires Tape(m, h) && h.root.Some? && i < |h.slabs| && a > 0 && size > 0 && Fits(h.slabs[i], size, a)
    requires !PadsPredecessor(h.slabs[i], a) && first == h.slabs[i].start + Padding(h.slabs[i].start, a)
    requires first > h.slabs[i].start ==> SlabEncoded(m1, h.root.value, Slab(h.slabs[i].start, first - 1, Free))
    requires if first > h.slabs[i].start
             then SameOutside(m, m1, h.root.value + h.slabs[i].start, h.root.value + first - 1) else m1 == m
    requires Encoded(m2, h.root.value, Tail(first, h.slabs[i].end, size))
    requires SameOutside(m1, m2, h.root.value + first, h.root.value + h.slabs[i].end)
    ensures Tape(m2, h.(slabs := Place(h.slabs, i, size, a)))
    ensures SameOutside(m, m2, h.root.value + h.slabs[i].start, h.root.value + h.slabs[i].end)
  {
    var r, s, c := h.root.value, h.slabs, h.slabs[i];
    var mid, t := Cut(c, size, a), Tail(first, c.end, size);
    if first > c.start {
      EncodedAfter(m1, m2, r, Slab(c.start, first - 1, Free), r + first, r + c.end, t);
      assert mid == [Slab(c.start, first - 1, Free)] + t;
    } else {
      assert mid == t;
    }
    PlaceShape(s, h.last, i, size, a);
    SameOutsideBoth(m, m1, m2, r + c.start, r + first, r + c.end);
    Respliced(m, m2, h, i, i + 1, mid);
  }

  lemma SameOutsideBoth(m: seq<nat>, m1: seq<nat>, m2: seq<nat>, lo: nat, first: nat, hi: nat)
    requires lo <= first <= hi && SameOutside(m1, m2, first, hi)
    requires if first > lo then SameOutside(m, m1, lo, first - 1) else m1 == m
    ensures SameOutside(m, m2, lo, hi)
  {
  }

  /** A block cut from slab `i` whose padding goes to the slab before. */
  lemma CarvePadded(m: seq<nat>, m1: seq<nat>, m2: seq<nat>, h: Heap, i: nat, size: nat, a: nat, first: nat)
    requires Tape(m, h) && h.root.Some? && 0 < i < |h.slabs| && a > 0 && size > 0 && Fits(h.slabs[i], size, a)
    requires PadsPredecessor(h.slabs[i], a) && first == h.slabs[i].start + Padding(h.slabs[i].start, a)
    requires h.slabs[i - 1].start <= h.slabs[i - 1].end == h.slabs[i].start - 1
    requires SlabEncoded(m1, h.root.value, h.slabs[i - 1].(end := first - 1)) && |m1| == |m|
    requires forall x | 0 <= x < |m| && x != h.root.value + h.slabs[i - 1].start && x != h.root.value + first - 1 ::
             m1[x] == m[x]
    requires Encoded(m2, h.root.value, Tail(first, h.slabs[i].end, size))
    requires SameOutside(m1, m2, h.root.value + first, h.root.value + h.slabs[i].end)
    ensures Tape(m2, h.(slabs := Place(h.slabs, i, size, a)))
  {
    var r, s, c := h.root.value, h.slabs, h.slabs[i];
    var p, t := s[i - 1].(end := first - 1), Tail(first, c.end, size);
    EncodedAfter(m1, m2, r, p, r + first, r + c.end, t);
    PlacePadded(s, h.last, i, size, a, p, t);
    Respliced(m, m2, h, i - 1, i + 1, [p] + t);
  }

  lemma PlacePadded(s: seq<Slab>, hi: nat, i: nat, size: nat, a: nat, p: Slab, t: seq<Slab>)
    requires Shape(s, 0, hi) && 0 < i < |s| && a > 0 && size > 0 && Fits(s[i], size, a) && PadsPredecessor(s[i], a)
    requires p == s[i - 1].(end := s[i].start + Padding(s[i].start, a) - 1) && t == Tail(p.end + 1, s[i].end, size)
    ensures Place(s, i, size, a) == s[..i - 1] + ([p] + t) + s[i + 1..]
    ensures Shape(s[..i - 1] + ([p] + t) + s[i + 1..], 0, hi)
  {
    assert Cut(s[i], size, a) == t;
    PlaceShape(s, hi, i, size, a);
  }

  /** Only words of the free slab and one descriptor in front of it were written. */
  lemma CarvedKept(m: seq<nat>, m': seq<nat>, h: Heap, i: nat, d: nat)
    requires WF(h) && h.root.Some? && i < |h.slabs| && h.slabs[i].use.Free? && |m'| == |m|
    requires d == h.root.value + h.slabs[i].start || (i > 0 && d == h.root.value + h.slabs[i - 1].start)
    requires forall x | 0 <= x < |m| && x != d
             && !(h.root.value + h.slabs[i].start <= x <= h.root.value + h.slabs[i].end) :: m'[x] == m[x]
    ensures Kept(m, m', h)
  {
    var r, c := h.root.value, h.slabs[i];
    Below(h.slabs, 0, h.last, i);
    assert Good(c);
    forall x | 0 <= x < |m| && Protected(h, x) ensures m'[x] == m[x] {
      if r + c.start <= x <= r + c.end {
        FreeSlabIsUntaken(h.slabs, h.last, i, x - r);
      } else if x == d {
        DescriptorUnowned(h, i - 1, x - r);
      }
    }
  }

  lemma CarvedPlain(m: seq<nat>, m1: seq<nat>, m2: seq<nat>, h: Heap, i: nat, size: nat, a: nat, first: nat)
    requires Tape(m, h) && h.root.Some? && i < |h.slabs| && a > 0 && size > 0 && Fits(h.slabs[i], size, a)
    requires !PadsPredecessor(h.slabs[i], a) && first == h.slabs[i].start + Padding(h.slabs[i].start, a)
    requires first > h.slabs[i].start ==> SlabEncoded(m1, h.root.value, Slab(h.slabs[i].start, first - 1, Free))
    requires if first > h.slabs[i].start
             then SameOutside(m, m1, h.root.value + h.slabs[i].start, h.root.value + first - 1) else m1 == m
    requires Encoded(m2, h.root.value, Tail(first, h.slabs[i].end, size))
    requires SameOutside(m1, m2, h.root.value + first, h.root.value + h.slabs[i].end)
    ensures Tape(m2, h.(slabs := Place(h.slabs, i, size, a))) && Kept(m, m2, h)
  {
    CarvePlain(m, m1, m2, h, i, size, a, first);
    CarvedKept(m, m2, h, i, h.root.value + h.slabs[i].start);
  }

  lemma CarvedPadded(m: seq<nat>, m1: seq<nat>, m2: seq<nat>, h: Heap, i: nat, size: nat, a: nat, first: nat)
    requires Tape(m, h) && h.root.Some? && 0 < i < |h.slabs| && a > 0 && size > 0 && Fits(h.slabs[i], size, a)
    requires PadsPredecessor(h.slabs[i], a) && first == h.slabs[i].start + Padding(h.slabs[i].start, a)
    requires SlabEncoded(m1, h.root.value, h.slabs[i - 1].(end := first - 1)) && |m1| == |m|
    requires forall x | 0 <= x < |m| && x != h.root.value + h.slabs[i - 1].start && x != h.root.value + first - 1 ::
             m1[x] == m[x]
    requires Encoded(m2, h.root.value, Tail(first, h.slabs[i].end, size))
    requires SameOutside(m1, m2, h.root.value + first, h.root.value + h.slabs[i].end)
    ensures Tape(m2, h.(slabs := Place(h.slabs, i, size, a))) && Kept(m, m2, h)
  {
    assert Joined(h.slabs[i - 1], h.slabs[i]) && Good(h.slabs[i - 1]);
    CarvePadded(m, m1, m2, h, i, size, a, first);
    CarvedKept(m, m2, h, i, h.root.value + h.slabs[i - 1].start);
  }

  lemma KeptThroughStart(m: seq<nat>, m1: seq<nat>, m2: seq<nat>, h: Heap, size: nat, a: nat)
    requires Kept(m, m1, h) && h.root.None? && Kept(m1, m2, FirstSlab(h, size, a))
    ensures Kept(m, m2, h)
  {
  }

  lemma KeptThroughGrowth(m: seq<nat>, m1: seq<nat>, m2: seq<nat>, h: Heap, size: nat, a: nat)
    requires WF(h) && h.root.Some? && CanSbrk(h, GetSbrkSize(size, a)) && a > 0
    requires Kept(m, m1, h) && Kept(m1, m2, Grow(h, size, a))
    ensures Kept(m, m2, h)
  {
    forall x | 0 <= x < |m| && Protected(h, x) ensures m2[x] == m[x] {
      GrowKeeps(h, size, a, x);
    }
  }

  /** How dandelion_free ends; the two errors are the checks of a DEBUG build. */
  datatype FreeResult = Freed | FreeUnoccupied | Overlap

  lemma MergedTape(m: seq<nat>, m': seq<nat>, h: Heap, k: nat, start: nat, end: nat)
    requires Tape(m, h) && h.root.Some? && k < |h.slabs| && h.slabs[k].use.Live?
    requires start == h.slabs[MergeFrom(h.slabs, k)].start && end == h.slabs[MergeTo(h.slabs, k) - 1].end
    requires start <= end && h.root.value + end < |m|
    requires m' == m[h.root.value + start := end][h.root.value + end := start]
    ensures Tape(m', h.(slabs := Merge(h.slabs, k)))
  {
    MergeShape(h.slabs, h.last, k);
    Respliced(m, m', h, MergeFrom(h.slabs, k), MergeTo(h.slabs, k), [Slab(start, end, Free)]);
  }

  lemma MergedKept(m: seq<nat>, h: Heap, i: nat, j: nat, start: nat, end: nat)
    requires WF(h) && h.root.Some? && i < j <= |h.slabs|
    requires start == h.slabs[i].start && end == h.slabs[j - 1].end
    requires start <= end && h.root.value + end < |m|
    ensures Kept(m, m[h.root.value + start := end][h.root.value + end := start], h)
  {
    DescriptorUnowned(h, i, start);
    DescriptorUnowned(h, j - 1, end);
  }

  /** The slabs on both sides of slab `k`, as its neighbours' descriptors show them. */
  lemma Neighbours(m: seq<nat>, h: Heap, k: nat)
    requires Tape(m, h) && h.root.Some? && k < |h.slabs| && h.slabs[k].use.Live?
    ensures var r, s, i, j := h.root.value, h.slabs, MergeFrom(h.slabs, k), MergeTo(h.slabs, k);
            && r + s[k].end + 1 < |m| && s[i].start <= s[k].start < s[k].end <= s[j - 1].end
            && r + s[j - 1].end < |m|
            && (s[k].start != 0 && !IsOccupied(m[r + s[k].start - 1]) <==> i < k)
            && (i < k ==> m[r + s[k].start - 1] == s[i].start)
            && (!IsOccupied(m[r + s[k].end + 1]) <==> j == k + 2)
            && (j == k + 2 ==> m[r + s[k].end + 1] == s[j - 1].end)
  {
    var r, s := h.root.value, h.slabs;
    assert Good(s[k]);
    Decode(m, r, s, h.last, k);
    if k > 0 {
      assert Good(s[k - 1]);
      Decode(m, r, s, h.last, k - 1);
    }
    if k + 1 < |s| {
      assert Good(s[k + 1]);
      Decode(m, r, s, h.last, k + 1);
    }
  }

  /** Every owned word still holds what its owner last wrote. */
  ghost predicate Intact(m: seq<nat>, written: map<nat, nat>) {
    forall x | x in written :: x < |m| && m[x] == written[x]
  }

  /** A step of the callers' machine that changed memory only where nobody owns it. */
  lemma IntactAfter(mem: seq<nat>, mem': seq<nat>, m: Machine, m': Machine)
    requires Intact(mem, m.written) && AllOwned(m) && Kept(mem, mem', m.heap)
    requires forall x | x in m'.written :: x in m.written && m'.written[x] == m.written[x]
    ensures Intact(mem', m'.written)
  {
  }

  /** A caller's write into its own memory touches no descriptor. */
  lemma OwnedWordOutsideTape(m: seq<nat>, h: Heap, x: nat, w: nat)
    requires Tape(m, h) && Protected(h, x) && x < |m|
    ensures Tape(m[x := w], h)
  {
    if h.root.Some? {
      var r, s := h.root.value, h.slabs;
      SentinelUnowned(h);
      forall k | 0 <= k < |s| ensures SlabEncoded(m[x := w], r, s[k]) {
        assert SlabEncoded(m, r, s[k]);
        DescriptorUnowned(h, k, s[k].start);
        DescriptorUnowned(h, k, s[k].end);
      }
    }
  }

  lemma HaltedStays(m: Machine, ops: seq<Op>)
    requires WF(m.heap) && LegalRun(m, ops) && m.halted
    ensures Run(m, ops) == m
    decreases |ops|
  {
    if ops != [] {
      HaltedStays(Step(m, ops[0]), ops[1..]);
    }
  }

  class Allocator {
    const mem: array<nat>
    const limit: nat
    var root: Option<nat>
    var last: nat
    var brk: nat
    ghost var slabs: seq<Slab>

    ghost function View(): Heap
      reads this
    {
      Heap(root, slabs, last, brk, limit)
    }

    ghost predicate Valid()
      reads this, mem
    {
      Tape(mem[..], View())
    }

    constructor (heapBytes: nat)
      requires heapBytes < FLAG
      ensures Valid() && fresh(mem) && View() == Boot(heapBytes).heap
    {
      mem := new nat[heapBytes / 8];
      limit := heapBytes;
      root, last, brk, slabs := None, 0, 0, [];
    }

    method Store(i: nat, word: nat)
      requires i < mem.Length
      modifies mem
      ensures mem[..] == old(mem[..])[i := word]
    {
      mem[i] := word;
    }

    /** dandelion_sbrk */
    method Sbrk(bytes: nat) returns (base: Option<nat>)
      requires Valid()
      modifies this`brk
      ensures Valid() && View() == SlabHeap.Sbrk(old(View()), bytes)
      ensures base == if CanSbrk(old(View()), bytes) then Some(old(brk)) else None
      ensures base.Some? <==> 8 * old(brk) + bytes <= limit
      ensures base.Some? ==> base.value == old(brk) && 8 * old(brk) + bytes <= 8 * brk < 8 * old(brk) + bytes + 8
      ensures base.None? ==> brk == old(brk)
    {
      if brk * 8 + bytes > limit {
        return None;
      }
      base := Some(brk);
      var rounding := bytes % 8;
      brk := brk + (bytes + (if rounding == 0 then 0 else 8 - rounding)) / 8;
    }

    /** The loop of dandelion_alloc over the descriptors. */
    method FindSmallest(size: nat, a: nat) returns (smallest: nat, room: nat)
      requires Valid() && root.Some? && a > 0
      ensures Scanned(slabs, |slabs|, size, a, smallest, room)
    {
      var r := root.value;
      smallest, room := MAX_VAL, MAX_VAL;
      var current := 0;
      ghost var k := 0;
      SentinelOnlyAtEnd(mem[..], View(), k);
      while mem[r + current] != MAX_VAL
        invariant k <= |slabs| && current == StartOf(slabs, last, k) && r + current < mem.Length
        invariant mem[r + current] == MAX_VAL <==> k == |slabs|
        invariant Scanned(slabs, k, size, a, smallest, room)
        decreases |slabs| - k
      {
        current, smallest, room := ScanOne(current, size, a, smallest, room, k);
        k := k + 1;
        SentinelOnlyAtEnd(mem[..], View(), k);
      }
    }

    /** The body of the loop: one slab. */
    method ScanOne(current: nat, size: nat, a: nat, smallest: nat, room: nat, ghost k: nat)
      returns (next: nat, smallest': nat, room': nat)
      requires Valid() && root.Some? && a > 0 && k < |slabs| && current == slabs[k].start
      requires Scanned(slabs, k, size, a, smallest, room)
      ensures next == StartOf(slabs, last, k + 1) && Scanned(slabs, k + 1, size, a, smallest', room')
    {
      Decode(mem[..], root.value, slabs, last, k);
      ScanStep(slabs, k, size, a, smallest, room);
      smallest', room' := smallest, room;
      var w := mem[root.value + current];
      var end := Unmark(w);
      if !IsOccupied(w) {
        var potential := Room(Slab(current, end, Use.Free), a);
        if size <= potential && potential < room {
          smallest', room' := current, potential;
        }
      }
      next := end + 1;
    }

    method WriteFirst(r: nat, n: nat)
      requires n >= 2 && r + n <= mem.Length
      modifies mem
      ensures mem[..] == old(mem[..])[r := n - 2][r + n - 2 := 0][r + n - 1 := MAX_VAL]
    {
      Store(r, n - 2);
      Store(r + n - 2, 0);
      Store(r + n - 1, MAX_VAL);
    }

    /** The `free_root == NULL` branch of dandelion_alloc. */
    method Start(size: nat, a: nat) returns (ok: bool)
      requires Valid() && root.None? && size > 0 && a > 0
      modifies this, mem
      ensures Valid() && Kept(old(mem[..]), mem[..], old(View()))
      ensures ok == CanSbrk(old(View()), GetSbrkSize(size, a))
      ensures View() == if ok then FirstSlab(old(View()), size, a) else old(View())
    {
      ghost var h := View();
      GrowthIsEnough(size, a);
      var bytes := GetSbrkSize(size, a);
      var base := Sbrk(bytes);
      if base.None? {
        return false;
      }
      var r, n := base.value, bytes / 8;
      WriteFirst(r, n);
      FirstSlabTape(old(mem[..]), mem[..], h, size, a, n);
      root, last, slabs := Some(r), n - 1, [Slab(0, n - 2, Use.Free)];
      ok := true;
    }

    /** The branch of dandelion_alloc that asks for more space; `smallest` starts the free slab
        at the end of the grown heap. */
    method Extend(size: nat, a: nat) returns (ok: bool, smallest: nat)
      requires Valid() && root.Some? && size > 0 && a > 0
      modifies this, mem
      ensures Valid() && Kept(old(mem[..]), mem[..], old(View()))
      ensures ok == CanSbrk(old(View()), GetSbrkSize(size, a))
      ensures View() == if ok then Grow(old(View()), size, a) else old(View())
      ensures ok ==> EndsFree(slabs) && smallest == slabs[|slabs| - 1].start
    {
      GrowthIsEnough(size, a);
      ghost var h := View();
      var bytes := GetSbrkSize(size, a);
      var base := Sbrk(bytes);
      if base.None? {
        return false, 0;
      }
      ok := true;
      if base.value == root.value + last + 1 {
        smallest := ExtendInPlace(bytes / 8, h, size, a);
      } else {
        smallest := SkipForeign(base.value, bytes / 8, h, size, a);
      }
    }

    /** The new words follow the old ones. */
    method ExtendInPlace(n: nat, ghost h: Heap, ghost size: nat, ghost a: nat) returns (smallest: nat)
      requires Grown(h, n, size, a) && Contiguous(h)
      modifies this, mem
      ensures Valid() && Kept(old(mem[..]), mem[..], h) && View() == Grow(h, size, a)
      ensures EndsFree(slabs) && smallest == slabs[|slabs| - 1].start
    {
      Decode(mem[..], root.value, slabs, last, |slabs| - 1);
      if !IsOccupied(mem[root.value + last - 1]) {
        smallest := ExtendLastSlab(n, h, size, a);
      } else {
        smallest := AppendSlab(n, h, size, a);
      }
    }

    /** The heap `dandelion_sbrk` has just moved from `h`, before the descriptors are written. */
    ghost predicate Grown(h: Heap, n: nat, size: nat, a: nat)
      reads this, mem
    {
      && a > 0 && CanSbrk(h, GetSbrkSize(size, a)) && GetSbrkSize(size, a) == 8 * n && n >= 5
      && Tape(mem[..], h) && h.root.Some? && View() == h.(brk := h.brk + n)
    }

    /** The last free slab reaches up to the new sentinel. */
    method WriteEnd(r: nat, smallest: nat, newLast: nat)
      requires smallest < newLast && r + newLast < mem.Length
      modifies mem
      ensures mem[..] == old(mem[..])[r + newLast := MAX_VAL][r + smallest := newLast - 1][r + newLast - 1 := smallest]
    {
      Store(r + newLast, MAX_VAL);
      Store(r + smallest, newLast - 1);
      Store(r + newLast - 1, smallest);
    }

    /** Foreign words become an occupied slab, and a free slab follows up to the new sentinel. */
    method WriteSkip(r: nat, end: nat, skip: nat, newLast: nat)
      requires end < skip && skip + 1 < newLast && r + newLast < mem.Length
      modifies mem
      ensures mem[..] == old(mem[..])[r + end := skip + FLAG][r + skip := end + FLAG][r + skip + 1 := newLast - 1]
                         [r + newLast - 1 := skip + 1][r + newLast := MAX_VAL]
    {
      Store(r + end, skip + FLAG);
      Store(r + skip, end + FLAG);
      Store(r + skip + 1, newLast - 1);
      Store(r + newLast - 1, skip + 1);
      Store(r + newLast, MAX_VAL);
    }

    /** The word in front of the sentinel names the first word of the last slab. */
    method LastSlabStart(ghost h: Heap) returns (smallest: nat)
      requires Tape(mem[..], h) && h.root.Some? && EndsFree(h.slabs) && root == h.root && last == h.last
      ensures smallest == h.slabs[|h.slabs| - 1].start && smallest < h.last
    {
      Decode(mem[..], h.root.value, h.slabs, h.last, |h.slabs| - 1);
      assert Good(h.slabs[|h.slabs| - 1]);
      smallest := mem[root.value + last - 1];
    }

    method ExtendLastSlab(n: nat, ghost h: Heap, ghost size: nat, ghost a: nat) returns (smallest: nat)
      requires Grown(h, n, size, a) && Contiguous(h) && EndsFree(slabs)
      modifies this, mem
      ensures Valid() && Kept(old(mem[..]), mem[..], h) && View() == Grow(h, size, a)
      ensures EndsFree(slabs) && smallest == slabs[|slabs| - 1].start
    {
      ghost var m := mem[..];
      var r, newLast := root.value, last + n;
      smallest := LastSlabStart(h);
      WriteEnd(r, smallest, newLast);
      MergeGrowthTape(m, mem[..], h, size, a, smallest, newLast);
      MergeGrowthKept(m, mem[..], h, smallest, newLast);
      last := newLast;
      slabs := Grow(h, size, a).slabs;
      assert View() == Grow(h, size, a);
    }

    method AppendSlab(n: nat, ghost h: Heap, ghost size: nat, ghost a: nat) returns (smallest: nat)
      requires Grown(h, n, size, a) && Contiguous(h) && !EndsFree(slabs)
      modifies this, mem
      ensures Valid() && Kept(old(mem[..]), mem[..], h) && View() == Grow(h, size, a)
      ensures EndsFree(slabs) && smallest == slabs[|slabs| - 1].start
    {
      ghost var m := mem[..];
      var r, newLast := root.value, last + n;
      smallest := last;
      WriteEnd(r, last, newLast);
      AppendGrowthTape(m, mem[..], h, size, a, newLast);
      AppendGrowthKept(m, mem[..], h, newLast);
      last := newLast;
      slabs := Grow(h, size, a).slabs;
      assert View() == Grow(h, size, a);
    }

    method SkipForeign(base: nat, n: nat, ghost h: Heap, ghost size: nat, ghost a: nat) returns (smallest: nat)
      requires Grown(h, n, size, a) && !Contiguous(h) && base == h.brk
      modifies this, mem
      ensures Valid() && Kept(old(mem[..]), mem[..], h) && View() == Grow(h, size, a)
      ensures EndsFree(slabs) && smallest == slabs[|slabs| - 1].start
    {
      ghost var m := mem[..];
      var r := root.value;
      var skip := base - r;
      var newLast := skip + n - 1;
      WriteSkip(r, last, skip, newLast);
      SkipGrowthTape(m, mem[..], h, size, a, skip, newLast);
      SkipGrowthKept(m, mem[..], h, skip, newLast);
      smallest, last := skip + 1, newLast;
      slabs := Grow(h, size, a).slabs;
      assert View() == Grow(h, size, a);
    }

    /** Padding of one or two words is given to the slab before. */
    method PadPredecessor(start: nat, skip: nat, ghost i: nat)
      requires Valid() && root.Some? && 0 < i < |slabs| && slabs[i].start == start && slabs[i].use.Free?
      requires 0 < skip && start + skip <= slabs[i].end
      modifies mem
      ensures SlabEncoded(mem[..], root.value, slabs[i - 1].(end := start + skip - 1))
      ensures forall x | 0 <= x < mem.Length && x != root.value + slabs[i - 1].start
              && x != root.value + start + skip - 1 ::
                mem[..][x] == old(mem[..])[x]
    {
      var r, first := root.value, start + skip;
      Below(slabs, 0, last, i);
      assert Joined(slabs[i - 1], slabs[i]) && Good(slabs[i - 1]);
      Decode(mem[..], r, slabs, last, i - 1);
      var previous := Unmark(mem[r + start - 1]);
      Store(r + previous, first - 1 + FLAG);
      Store(r + first - 1, previous + FLAG);
    }

    /** Other padding becomes, or stays, a free slab. */
    method PadFree(start: nat, skip: nat)
      requires root.Some? && 0 < skip && root.value + start + skip < mem.Length
      modifies mem
      ensures SlabEncoded(mem[..], root.value, Slab(start, start + skip - 1, Use.Free))
      ensures SameOutside(old(mem[..]), mem[..], root.value + start, root.value + start + skip - 1)
    {
      var r, first := root.value, start + skip;
      Store(r + start, first - 1);
      Store(r + first - 1, start);
    }

    method PadInFront(start: nat, skip: nat)
      requires root.Some? && root.value + start + skip < mem.Length
      modifies mem
      ensures skip > 0 ==> SlabEncoded(mem[..], root.value, Slab(start, start + skip - 1, Use.Free))
      ensures if skip > 0 then SameOutside(old(mem[..]), mem[..], root.value + start, root.value + start + skip - 1)
              else mem[..] == old(mem[..])
    {
      if skip != 0 {
        PadFree(start, skip);
      }
    }

    /** The block itself and, if it is worth a slab, the remainder. */
    method WriteBlock(first: nat, size: nat, end: nat)
      requires root.Some? && first + size + 1 <= end && root.value + end < mem.Length
      modifies mem
      ensures Encoded(mem[..], root.value, Tail(first, end, size))
      ensures SameOutside(old(mem[..]), mem[..], root.value + first, root.value + end)
    {
      var r, last := root.value, first + size + 1;
      if end > last + 2 {
        Store(r + last + 1, end);
        Store(r + end, last + 1);
      } else {
        last := end;
      }
      Store(r + first, last + FLAG);
      Store(r + last, first + FLAG);
    }

    /** The rest of dandelion_alloc, on a slab that is large enough. */
    method Carve(start: nat, size: nat, a: nat, ghost i: nat) returns (at: nat)
      requires Carvable(start, size, a, i)
      modifies mem, this`slabs
      ensures Valid() && Kept(old(mem[..]), mem[..], old(View()))
      ensures View() == old(View()).(slabs := Place(old(slabs), i, size, a)) && at == Payload(old(slabs)[i], a)
    {
      var skip := Padding(start, a);
      if skip != 0 && skip < 3 && start != 0 {
        CarveBehindPadding(start, skip, size, a, i);
      } else {
        CarveHere(start, skip, size, a, i);
      }
      at := start + skip + 1;
    }

    ghost predicate Carvable(start: nat, size: nat, a: nat, i: nat)
      reads this, mem
    {
      && Valid() && root.Some? && size > 0 && a > 0
      && i < |slabs| && slabs[i].start == start && Fits(slabs[i], size, a)
      && (PadsPredecessor(slabs[i], a) ==> i > 0)
    }

    method CarveBehindPadding(start: nat, skip: nat, size: nat, ghost a: nat, ghost i: nat)
      requires Carvable(start, size, a, i) && skip == Padding(start, a) && PadsPredecessor(slabs[i], a)
      modifies mem, this`slabs
      ensures Valid() && Kept(old(mem[..]), mem[..], old(View()))
      ensures View() == old(View()).(slabs := Place(old(slabs), i, size, a))
    {
      ghost var h, m, t := View(), mem[..], Place(slabs, i, size, a);
      var end := EndOf(start, i);
      PadPredecessor(start, skip, i);
      ghost var m1 := mem[..];
      WriteBlock(start + skip, size, end);
      CarvedPadded(m, m1, mem[..], h, i, size, a, start + skip);
      slabs := t;
      assert View() == h.(slabs := t);
    }

    method CarveHere(start: nat, skip: nat, size: nat, ghost a: nat, ghost i: nat)
      requires Carvable(start, size, a, i) && skip == Padding(start, a) && !PadsPredecessor(slabs[i], a)
      modifies mem, this`slabs
      ensures Valid() && Kept(old(mem[..]), mem[..], old(View()))
      ensures View() == old(View()).(slabs := Place(old(slabs), i, size, a))
    {
      ghost var h, m, t := View(), mem[..], Place(slabs, i, size, a);
      var end := EndOf(start, i);
      PadInFront(start, skip);
      ghost var m1 := mem[..];
      WriteBlock(start + skip, size, end);
      CarvedPlain(m, m1, mem[..], h, i, size, a, start + skip);
      slabs := t;
      assert View() == h.(slabs := t);
    }

    /** The end index of the free slab that starts at `start`. */
    method EndOf(start: nat, ghost i: nat) returns (end: nat)
      requires Valid() && root.Some? && i < |slabs| && slabs[i].start == start && slabs[i].use.Free?
      ensures end == slabs[i].end && root.value + end < mem.Length
    {
      Decode(mem[..], root.value, slabs, last, i);
      end := mem[root.value + start];
    }

    /** What dandelion_alloc does once a slab has been chosen.  The size test comes before the
        padding is written: after an exit nothing is said about memory. */
    method TakeSlab(start: nat, size: nat, a: nat, ghost i: nat) returns (r: Outcome)
      requires Valid() && root.Some? && size > 0 && a > 0
      requires i < |slabs| && slabs[i].start == start && slabs[i].use.Free?
      modifies mem, this`slabs
      ensures old(i == 0 ==> slabs[0].start == 0) && r == Take(old(View()), i, size, a).1
      ensures r != Exited ==>
                Valid() && View() == Take(old(View()), i, size, a).0 && Kept(old(mem[..]), mem[..], old(View()))
    {
      var end := EndOf(start, i);
      if end < start + Padding(start, a) + size + 1 {
        return Exited;
      }
      PlaceShape(slabs, last, i, size, a);
      var at := Carve(start, size, a, i);
      r := Block(at);
    }

    /** The scan, growth if nothing was found, and the cut. */
    method AllocFromHeap(size: nat, a: nat) returns (r: Outcome)
      requires Valid() && root.Some? && size > 0 && a > 0
      modifies this, mem
      ensures r == AllocReady(old(View()), size, a).1
      ensures r != Exited ==>
                Valid() && View() == AllocReady(old(View()), size, a).0 && Kept(old(mem[..]), mem[..], old(View()))
    {
      ghost var b := Scan(slabs, |slabs|, size, a);
      ScanChoosesFree(slabs, |slabs|, size, a);
      var smallest, room := FindSmallest(size, a);
      if room != MAX_VAL {
        r := TakeSlab(smallest, size, a, b.0);
      } else {
        GrowingIs(View(), size, a);
        r := AllocByGrowing(size, a, AllocReady(View(), size, a));
      }
    }

    /** Nothing was found: the block comes from the grown end. */
    method AllocByGrowing(size: nat, a: nat, ghost res: (Heap, Outcome)) returns (r: Outcome)
      requires Valid() && root.Some? && size > 0 && a > 0 && ByGrowing(View(), size, a, res)
      modifies this, mem
      ensures r == res.1 && (r != Exited ==> Valid() && View() == res.0 && Kept(old(mem[..]), mem[..], old(View())))
    {
      ghost var h, m := View(), mem[..];
      var ok, smallest := Extend(size, a);
      if !ok {
        return Null;
      }
      ghost var m1 := mem[..];
      r := TakeSlab(smallest, size, a, |slabs| - 1);
      if r != Exited {
        KeptThroughGrowth(m, m1, mem[..], h, size, a);
      }
    }

    /** dandelion_alloc */
    method Alloc(bytes: nat, alignment: nat) returns (r: Outcome)
      requires Valid()
      modifies this, mem
      ensures r == SlabHeap.Alloc(old(View()), bytes, alignment).1
      ensures r != Exited ==>
                && Valid() && View() == SlabHeap.Alloc(old(View()), bytes, alignment).0
                && Kept(old(mem[..]), mem[..], old(View()))
    {
      if IsOccupied(bytes) {
        return Null;
      }
      if bytes == 0 {
        return Null;
      }
      ghost var h, m := View(), mem[..];
      var size, a := Words(bytes), AlignWords(alignment);
      if root.None? {
        var ok := Start(size, a);
        if !ok {
          return Null;
        }
        FirstSlabWF(h, size, a);
        ghost var m1 := mem[..];
        r := AllocFromHeap(size, a);
        if r != Exited {
          KeptThroughStart(m, m1, mem[..], h, size, a);
        }
      } else {
        r := AllocFromHeap(size, a);
      }
    }

    /** The first half of dandelion_free: the checks of a DEBUG build and the words to merge. */
    method FreeExtent(at: nat, ghost k: nat) returns (result: FreeResult, start: nat, end: nat)
      requires Valid() && root.Some? && LiveAt(slabs, k, at)
      ensures result == Freed
      ensures start == slabs[MergeFrom(slabs, k)].start && end == slabs[MergeTo(slabs, k) - 1].end
      ensures start <= end && root.value + end < mem.Length
    {
      ghost var m := mem[..];
      var r := root.value;
      Decode(m, r, slabs, last, k);
      Neighbours(m, View(), k);
      result, start, end := Freed, 0, 0;
      if !IsOccupied(mem[r + at - 1]) {
        result := FreeUnoccupied;
        return;
      }
      end := Unmark(mem[r + at - 1]);
      if !IsOccupied(mem[r + end]) {
        result := FreeUnoccupied;
        return;
      }
      start := Unmark(mem[r + end]);
      if start != at - 1 {
        result := Overlap;
        return;
      }
      if start != 0 && !IsOccupied(mem[r + start - 1]) {
        start := mem[r + start - 1];
      }
      if !IsOccupied(mem[r + end + 1]) {
        end := mem[r + end + 1];
      }
    }

    method WriteFree(r: nat, start: nat, end: nat)
      requires start <= end && r + end < mem.Length
      modifies mem
      ensures mem[..] == old(mem[..])[r + start := end][r + end := start]
    {
      Store(r + start, end);
      Store(r + end, start);
    }

    /** The second half of dandelion_free: one free slab from `start` to `end`. */
    method MergeSlabs(start: nat, end: nat, ghost h: Heap, ghost k: nat)
      requires Tape(mem[..], h) && View() == h && h.root.Some? && k < |h.slabs| && h.slabs[k].use.Live?
      requires start == h.slabs[MergeFrom(h.slabs, k)].start && end == h.slabs[MergeTo(h.slabs, k) - 1].end
      requires start <= end && h.root.value + end < mem.Length
      modifies mem, this`slabs
      ensures View() == h.(slabs := Merge(h.slabs, k)) && Tape(mem[..], h.(slabs := Merge(h.slabs, k)))
      ensures Kept(old(mem[..]), mem[..], h)
    {
      ghost var m := mem[..];
      WriteFree(root.value, start, end);
      MergedTape(m, mem[..], h, k, start, end);
      MergedKept(m, h, MergeFrom(h.slabs, k), MergeTo(h.slabs, k), start, end);
      slabs := Merge(h.slabs, k);
    }

    /** dandelion_free */
    method Free(at: nat) returns (result: FreeResult)
      requires Valid() && root.Some? && exists k: nat :: LiveAt(slabs, k, at)
      modifies mem, this`slabs
      ensures result == Freed
      ensures Valid() && View() == Release(old(View()), at) && Kept(old(mem[..]), mem[..], old(View()))
    {
      ghost var h, k := View(), Locate(slabs, at);
      var start, end;
      result, start, end := FreeExtent(at, k);
      MergeSlabs(start, end, h, k);
    }

    ghost predicate Follows(m: Machine)
      reads this, mem
    {
      Valid() && View() == m.heap && !m.halted && AllOwned(m) && Intact(mem[..], m.written)
    }

    /** One call by a correct caller. */
    method Perform(op: Op, ghost m: Machine) returns (halted: bool)
      requires Follows(m) && Legal(View(), op)
      modifies this, mem
      ensures halted == Step(m, op).halted
      ensures !halted ==> Follows(Step(m, op))
    {
      ghost var m' := Step(m, op);
      ghost var before := mem[..];
      StepKeepsOwned(m, op);
      halted := false;
      match op {
        case Request(bytes, alignment) =>
          var r := Alloc(bytes, alignment);
          halted := r == Exited;
          if !halted {
            IntactAfter(before, mem[..], m, m');
          }
        case Return(at) =>
          var _ := Free(at);
          IntactAfter(before, mem[..], m, m');
        case ForeignSbrk(bytes) =>
          var _ := Sbrk(bytes);
        case Write(word, value) =>
          OwnedWordOutsideTape(before, m.heap, word, value);
          Store(word, value);
      }
    }

    /** Any run of calls: the memory follows the machine, so every word a caller wrote and still
        owns reads back unchanged, whatever else was allocated, grown or released meanwhile. */
    method Execute(ops: seq<Op>, ghost start: Machine) returns (halted: bool)
      requires Follows(start) && LegalRun(start, ops)
      modifies this, mem
      ensures halted == Run(start, ops).halted
      ensures !halted ==> Follows(Run(start, ops))
    {
      ghost var m := start;
      var i := 0;
      halted := false;
      while i < |ops|
        invariant i <= |ops| && !halted && Follows(m)
        invariant LegalRun(m, ops[i..]) && Run(m, ops[i..]) == Run(start, ops)
      {
        assert ops[i..][0] == ops[i] && ops[i..][1..] == ops[i + 1..];
        halted := Perform(ops[i], m);
        m := Step(m, ops[i]);
        i := i + 1;
        if halted {
          HaltedStays(m, ops[i..]);
          return;
        }
      }
    }
  }
}
