/** The allocator of runtime/runtime.c seen as a list of slabs.

    All positions are word indices relative to `free_root`; `root` and `brk` are word
    indices relative to the aligned start of the heap.  Each function follows one part of
    the C code, branch for branch; the class in Allocator.dfy shows that the descriptor
    words in memory encode exactly these lists. */
module SlabHeap {
  import opened Prelude

  const FLAG: nat := 0x8000_0000_0000_0000
  const MAX_VAL: nat := 0xFFFF_FFFF_FFFF_FFFF
  const SIZE_RANGE: nat := 0x1_0000_0000_0000_0000
  const PAGE_SIZE: nat := 4096

  /** `Foreign` marks a stretch that somebody else took from `dandelion_sbrk`. */
  datatype Use = Free | Live(want: nat) | Foreign

  /** Words `start..end`, both ends included; the two end words are the descriptors. */
  datatype Slab = Slab(start: nat, end: nat, use: Use)

  datatype Heap = Heap(root: Option<nat>, slabs: seq<Slab>, last: nat, brk: nat, limit: nat)

  datatype Outcome = Null | Block(at: nat) | Exited

  // ---------------------------------------------------------------- sizes

  function Words(bytes: nat): nat {
    (bytes + 7) / 8
  }

  function AlignWords(alignment: nat): (a: nat)
    ensures a > 0
  {
    if Words(alignment) == 0 then 1 else Words(alignment)
  }

  /** Words to skip so that the payload after a descriptor at `start + skip` is aligned. */
  function Padding(start: nat, a: nat): nat
    requires a > 0
  {
    var m := (start + 1) % a;
    if m == 0 then 0 else a - m
  }

  function GetSbrkSize(size: nat, a: nat): nat {
    ((size * 8 + 4 * 8 + a + PAGE_SIZE - 1) / PAGE_SIZE) * PAGE_SIZE
  }

  function GrowthWords(size: nat, a: nat): nat {
    GetSbrkSize(size, a) / 8
  }

  lemma GrowthIsEnough(size: nat, a: nat)
    ensures GetSbrkSize(size, a) == 8 * GrowthWords(size, a)
    ensures GetSbrkSize(size, a) % 4096 == 0
    ensures 8 * size + 32 + a <= GetSbrkSize(size, a) < 8 * size + 32 + a + 4096
    ensures GrowthWords(size, a) >= size + 4 + Words(a)
    ensures a <= 2 ==> forall start: nat :: Padding(start, AlignWords(8 * a)) <= 1
  {
    WholePages(size * 8 + 4 * 8 + a);
    if a <= 2 {
      forall start: nat ensures Padding(start, AlignWords(8 * a)) <= 1 {
        SmallPadding(start, a);
      }
    }
  }

  lemma WholePages(bytes: nat)
    ensures var pages := ((bytes + PAGE_SIZE - 1) / PAGE_SIZE) * PAGE_SIZE;
            pages % 4096 == 0 && pages % 8 == 0 && bytes <= pages < bytes + 4096 && pages / 8 >= Words(bytes)
  {
    var q := (bytes + PAGE_SIZE - 1) / PAGE_SIZE;
    WordsOfPages(q);
    assert bytes <= 4096 * q < bytes + 4096;
  }

  lemma WordsOfPages(q: nat)
    ensures (q * PAGE_SIZE) % 4096 == 0 && (q * PAGE_SIZE) % 8 == 0 && (q * PAGE_SIZE) / 8 == 512 * q
  {
    assert q * PAGE_SIZE == 8 * (512 * q);
  }

  lemma SmallPadding(start: nat, a: nat)
    requires a <= 2
    ensures Padding(start, AlignWords(8 * a)) <= 1
  {
    assert AlignWords(8 * a) == if a == 2 then 2 else 1;
  }

  lemma MultipleMod(a: nat, q: nat)
    requires a > 0
    ensures (a * q) % a == 0
  {
    var d, r := (a * q) / a, (a * q) % a;
    assert a * q == a * d + r;
    assert a * (q - d) == r;
    assert q - d >= 1 ==> a * (q - d) >= a;
    assert q - d <= -1 ==> a * (q - d) < 0;
  }

  lemma PaddingAligns(start: nat, a: nat)
    requires a > 0
    ensures Padding(start, a) < a
    ensures (start + Padding(start, a) + 1) % a == 0
  {
    var x := start + 1;
    if x % a != 0 {
      assert x == a * (x / a) + x % a;
      assert x + (a - x % a) == a * (x / a + 1);
      MultipleMod(a, x / a + 1);
    }
  }

  // ---------------------------------------------------------------- the heap as it should be

  predicate Good(c: Slab) {
    && c.start <= c.end
    && match c.use
       case Free => c.start == 0 || c.start + 2 <= c.end
       case Live(want) => 1 <= want <= c.end - c.start - 1
       case Foreign => c.start + 2 <= c.end
  }

  predicate Joined(p: Slab, c: Slab) {
    c.start == p.end + 1 && !(p.use.Free? && c.use.Free?)
  }

  /** The slabs tile `lo..hi` without gap or overlap, and no two free ones touch. */
  ghost predicate Shape(s: seq<Slab>, lo: nat, hi: nat) {
    && |s| > 0 && s[0].start == lo && s[|s| - 1].end + 1 == hi
    && (forall k | 0 <= k < |s| :: Good(s[k]))
    && (forall k | 0 < k < |s| :: Joined(s[k - 1], s[k]))
  }

  ghost predicate WF(h: Heap) {
    && h.limit < FLAG
    && 8 * h.brk < h.limit + 8
    && match h.root
       case None => h.slabs == [] && h.last == 0
       case Some(r) => Shape(h.slabs, 0, h.last) && r + h.last < h.brk && 8 * (r + h.last + 1) <= h.limit
  }

  lemma {:induction false} Above(s: seq<Slab>, lo: nat, hi: nat, k: nat)
    requires Shape(s, lo, hi) && k < |s|
    ensures lo <= s[k].start
  {
    if k > 0 {
      Above(s, lo, hi, k - 1);
    }
  }

  lemma {:induction false} Below(s: seq<Slab>, lo: nat, hi: nat, k: nat)
    requires Shape(s, lo, hi) && k < |s|
    ensures s[k].end < hi
    decreases |s| - k
  {
    if k + 1 < |s| {
      Below(s, lo, hi, k + 1);
      assert Joined(s[k], s[k + 1]);
    }
  }

  lemma {:induction false} Ordered(s: seq<Slab>, lo: nat, hi: nat, i: nat, j: nat)
    requires Shape(s, lo, hi) && i < j < |s|
    ensures s[i].end < s[j].start
  {
    if i + 1 < j {
      Ordered(s, lo, hi, i, j - 1);
    }
  }

  lemma Concat(s: seq<Slab>, t: seq<Slab>, lo: nat, m: nat, hi: nat)
    requires Shape(s, lo, m) && Shape(t, m, hi)
    requires !(s[|s| - 1].use.Free? && t[0].use.Free?)
    ensures Shape(s + t, lo, hi)
  {
    var u := s + t;
    forall k | 0 < k < |u| ensures Joined(u[k - 1], u[k]) {
      if k < |s| {
        assert u[k - 1] == s[k - 1] && u[k] == s[k];
      } else if k > |s| {
        assert u[k - 1] == t[k - |s| - 1] && u[k] == t[k - |s|];
      }
    }
  }

  lemma Part(s: seq<Slab>, lo: nat, hi: nat, i: nat, j: nat)
    requires Shape(s, lo, hi) && i < j <= |s|
    ensures Shape(s[i..j], s[i].start, s[j - 1].end + 1)
  {
    var u := s[i..j];
    forall k | 0 < k < |u| ensures Joined(u[k - 1], u[k]) {
      assert u[k - 1] == s[i + k - 1] && u[k] == s[i + k];
    }
  }

  /** Replacing a stretch of slabs by others that tile the same words. */
  lemma Splice(s: seq<Slab>, lo: nat, hi: nat, i: nat, j: nat, mid: seq<Slab>)
    requires Shape(s, lo, hi) && i < j <= |s|
    requires Shape(mid, s[i].start, s[j - 1].end + 1)
    requires i > 0 && s[i - 1].use.Free? ==> !mid[0].use.Free?
    requires j < |s| && s[j].use.Free? ==> !mid[|mid| - 1].use.Free?
    ensures Shape(s[..i] + mid + s[j..], lo, hi)
  {
    if i > 0 {
      Part(s, lo, hi, 0, i);
      assert Joined(s[i - 1], s[i]);
      Concat(s[..i], mid, lo, s[i].start, s[j - 1].end + 1);
    } else {
      assert s[..i] + mid == mid;
    }
    if j < |s| {
      Part(s, lo, hi, j, |s|);
      assert Joined(s[j - 1], s[j]);
      Concat(s[..i] + mid, s[j..], lo, s[j].start, hi);
    } else {
      assert s[..i] + mid + s[j..] == s[..i] + mid;
    }
  }

  // ---------------------------------------------------------------- dandelion_sbrk

  predicate CanSbrk(h: Heap, bytes: nat) {
    8 * h.brk + bytes <= h.limit
  }

  function Sbrk(h: Heap, bytes: nat): Heap {
    if CanSbrk(h, bytes) then h.(brk := h.brk + Words(bytes)) else h
  }

  // ---------------------------------------------------------------- dandelion_alloc

  /** The first slab, taken when `free_root` is still NULL. */
  function FirstSlab(h: Heap, size: nat, a: nat): Heap {
    var w := GrowthWords(size, a);
    GrowthIsEnough(size, a);
    Heap(Some(h.brk), [Slab(0, w - 2, Free)], w - 1, h.brk + w, h.limit)
  }

  /** Words a free slab offers after padding, in unsigned arithmetic. */
  function Room(c: Slab, a: nat): nat
    requires a > 0
  {
    (c.end - (c.start + Padding(c.start, a)) - 1) % SIZE_RANGE
  }

  /** The scan over the first `n` slabs: the slab chosen so far and its room. */
  function Scan(s: seq<Slab>, n: nat, size: nat, a: nat): (nat, nat)
    requires n <= |s| && a > 0
  {
    if n == 0 then (0, MAX_VAL)
    else
      var b := Scan(s, n - 1, size, a);
      var c := s[n - 1];
      if c.use.Free? && size <= Room(c, a) && Room(c, a) < b.1 then (n - 1, Room(c, a)) else b
  }

  predicate Contiguous(h: Heap)
    requires h.root.Some?
  {
    h.brk == h.root.value + h.last + 1
  }

  predicate EndsFree(s: seq<Slab>) {
    |s| > 0 && s[|s| - 1].use.Free?
  }

  /** The heap after asking for more space; the new free slab is the last one. */
  function Grow(h: Heap, size: nat, a: nat): Heap
    requires h.root.Some? && h.root.value <= h.brk
  {
    var w := GrowthWords(size, a);
    GrowthIsEnough(size, a);
    var s := h.slabs;
    if Contiguous(h) then
      var last := h.last + w;
      var s' := if EndsFree(s)
                then s[..|s| - 1] + [Slab(s[|s| - 1].start, last - 1, Free)]
                else s + [Slab(h.last, last - 1, Free)];
      Heap(h.root, s', last, h.brk + w, h.limit)
    else
      var skip := h.brk - h.root.value;
      Heap(h.root, s + [Slab(h.last, skip, Foreign), Slab(skip + 1, skip + w - 2, Free)],
           skip + w - 1, h.brk + w, h.limit)
  }

  /** Does the slab hold `size` words behind an aligned descriptor? */
  predicate Fits(c: Slab, size: nat, a: nat)
    requires a > 0
  {
    c.use.Free? && c.start + Padding(c.start, a) + size + 1 <= c.end
  }

  /** Padding of one or two words is given to the slab in front. */
  predicate PadsPredecessor(c: Slab, a: nat)
    requires a > 0
  {
    0 < Padding(c.start, a) < 3 && c.start != 0
  }

  /** The block and, if at least three words are left behind it, the free remainder. */
  function Tail(first: nat, end: nat, size: nat): (mid: seq<Slab>)
    requires first + size + 1 <= end
    ensures |mid| > 0
  {
    var last := first + size + 1;
    if end > last + 2
    then [Slab(first, last, Live(size)), Slab(last + 1, end, Free)]
    else [Slab(first, end, Live(size))]
  }

  /** What the chosen slab is cut into: padding kept as a free slab, the block, the remainder. */
  function Cut(c: Slab, size: nat, a: nat): (mid: seq<Slab>)
    requires a > 0 && Fits(c, size, a)
    ensures |mid| > 0
  {
    var first := c.start + Padding(c.start, a);
    (if first == c.start || PadsPredecessor(c, a) then [] else [Slab(c.start, first - 1, Free)])
    + Tail(first, c.end, size)
  }

  function Place(s: seq<Slab>, i: nat, size: nat, a: nat): seq<Slab>
    requires i < |s| && a > 0 && Fits(s[i], size, a)
    requires PadsPredecessor(s[i], a) ==> i > 0
  {
    if PadsPredecessor(s[i], a)
    then s[..i - 1] + ([s[i - 1].(end := s[i].start + Padding(s[i].start, a) - 1)] + Cut(s[i], size, a)) + s[i + 1..]
    else s[..i] + Cut(s[i], size, a) + s[i + 1..]
  }

  function Payload(c: Slab, a: nat): nat
    requires a > 0
  {
    c.start + Padding(c.start, a) + 1
  }

  /** The part of `dandelion_alloc` after the slab has been chosen. */
  function Take(h: Heap, i: nat, size: nat, a: nat): (Heap, Outcome)
    requires i < |h.slabs| && a > 0 && h.slabs[i].use.Free?
    requires i == 0 ==> h.slabs[0].start == 0
  {
    if Fits(h.slabs[i], size, a)
    then (h.(slabs := Place(h.slabs, i, size, a)), Block(Payload(h.slabs[i], a)))
    else (h, Exited)
  }

  ghost function AllocReady(h: Heap, size: nat, a: nat): (Heap, Outcome)
    requires WF(h) && h.root.Some? && a > 0
  {
    var b := Scan(h.slabs, |h.slabs|, size, a);
    ScanChoosesFree(h.slabs, |h.slabs|, size, a);
    if b.1 != MAX_VAL then Take(h, b.0, size, a)
    else if !CanSbrk(h, GetSbrkSize(size, a)) then (h, Null)
    else
      var g := Grow(h, size, a);
      Take(g, |g.slabs| - 1, size, a)
  }

  ghost function Alloc(h: Heap, bytes: nat, alignment: nat): (Heap, Outcome)
    requires WF(h)
  {
    var size, a := Words(bytes), AlignWords(alignment);
    if bytes >= FLAG || bytes == 0 then (h, Null)
    else if h.root.Some? then AllocReady(h, size, a)
    else if !CanSbrk(h, GetSbrkSize(size, a)) then (h, Null)
    else
      FirstSlabWF(h, size, a);
      AllocReady(FirstSlab(h, size, a), size, a)
  }

  // ---------------------------------------------------------------- dandelion_free

  /** The stretch of slabs that a release merges into one. */
  function MergeFrom(s: seq<Slab>, k: nat): (i: nat)
    requires k < |s|
    ensures i <= k
  {
    if k > 0 && s[k - 1].use.Free? then k - 1 else k
  }

  function MergeTo(s: seq<Slab>, k: nat): (j: nat)
    requires k < |s|
    ensures k < j <= |s|
  {
    if k + 1 < |s| && s[k + 1].use.Free? then k + 2 else k + 1
  }

  function Merge(s: seq<Slab>, k: nat): seq<Slab>
    requires k < |s|
  {
    var i, j := MergeFrom(s, k), MergeTo(s, k);
    s[..i] + [Slab(s[i].start, s[j - 1].end, Free)] + s[j..]
  }

  predicate LiveAt(s: seq<Slab>, k: nat, at: nat) {
    k < |s| && s[k].use.Live? && s[k].start + 1 == at
  }

  ghost function Locate(s: seq<Slab>, at: nat): (k: nat)
    requires exists k: nat :: LiveAt(s, k, at)
    ensures LiveAt(s, k, at)
  {
    var k: nat :| LiveAt(s, k, at);
    k
  }

  ghost function Release(h: Heap, at: nat): Heap
    requires exists k: nat :: LiveAt(h.slabs, k, at)
  {
    h.(slabs := Merge(h.slabs, Locate(h.slabs, at)))
  }

  // ---------------------------------------------------------------- every operation keeps the heap well formed

  /** `res` is what comes of a request that has to be met by growing. */
  ghost predicate ByGrowing(h: Heap, size: nat, a: nat, res: (Heap, Outcome))
    requires WF(h) && h.root.Some? && a > 0
  {
    if !CanSbrk(h, GetSbrkSize(size, a)) then res == (h, Null)
    else
      var g := Grow(h, size, a);
      EndsFree(g.slabs) && (|g.slabs| == 1 ==> g.slabs[0].start == 0) && res == Take(g, |g.slabs| - 1, size, a)
  }

  lemma GrowingIs(h: Heap, size: nat, a: nat)
    requires WF(h) && h.root.Some? && a > 0 && Scan(h.slabs, |h.slabs|, size, a).1 == MAX_VAL
    ensures ByGrowing(h, size, a, AllocReady(h, size, a))
  {
    if CanSbrk(h, GetSbrkSize(size, a)) {
      GrowWF(h, size, a);
    }
  }

  lemma ScanChoosesFree(s: seq<Slab>, n: nat, size: nat, a: nat)
    requires n <= |s| && a > 0
    ensures var b := Scan(s, n, size, a); b.1 != MAX_VAL ==> b.0 < n && s[b.0].use.Free?
  {
  }

  lemma FirstSlabWF(h: Heap, size: nat, a: nat)
    requires WF(h) && h.root.None? && CanSbrk(h, GetSbrkSize(size, a)) && a > 0
    ensures WF(FirstSlab(h, size, a))
  {
    GrowthIsEnough(size, a);
  }

  lemma GrowWF(h: Heap, size: nat, a: nat)
    requires WF(h) && h.root.Some? && CanSbrk(h, GetSbrkSize(size, a)) && a > 0
    ensures WF(Grow(h, size, a))
    ensures EndsFree(Grow(h, size, a).slabs)
  {
    GrowthIsEnough(size, a);
  }

  lemma CutShape(c: Slab, size: nat, a: nat)
    requires a > 0 && size > 0 && Good(c) && Fits(c, size, a)
    ensures Shape(Cut(c, size, a), if PadsPredecessor(c, a) then c.start + Padding(c.start, a) else c.start, c.end + 1)
  {
  }

  lemma PlaceShape(s: seq<Slab>, hi: nat, i: nat, size: nat, a: nat)
    requires Shape(s, 0, hi) && i < |s| && a > 0 && size > 0 && Fits(s[i], size, a)
    ensures PadsPredecessor(s[i], a) ==> i > 0
    ensures Shape(Place(s, i, size, a), 0, hi)
  {
    assert i > 0 ==> Joined(s[i - 1], s[i]);
    if PadsPredecessor(s[i], a) {
      PaddedShape(s, hi, i, size, a, s[i - 1].(end := s[i].start + Padding(s[i].start, a) - 1));
    } else {
      PlainShape(s, hi, i, size, a);
    }
  }

  lemma PlainShape(s: seq<Slab>, hi: nat, i: nat, size: nat, a: nat)
    requires Shape(s, 0, hi) && i < |s| && a > 0 && size > 0 && Fits(s[i], size, a) && !PadsPredecessor(s[i], a)
    ensures Shape(s[..i] + Cut(s[i], size, a) + s[i + 1..], 0, hi)
  {
    CutShape(s[i], size, a);
    assert i > 0 ==> Joined(s[i - 1], s[i]);
    assert i + 1 < |s| ==> Joined(s[i], s[i + 1]);
    Splice(s, 0, hi, i, i + 1, Cut(s[i], size, a));
  }

  lemma PaddedShape(s: seq<Slab>, hi: nat, i: nat, size: nat, a: nat, p: Slab)
    requires Shape(s, 0, hi) && 0 < i < |s| && a > 0 && size > 0 && Fits(s[i], size, a) && PadsPredecessor(s[i], a)
    requires p == s[i - 1].(end := s[i].start + Padding(s[i].start, a) - 1)
    ensures Shape(s[..i - 1] + ([p] + Cut(s[i], size, a)) + s[i + 1..], 0, hi)
  {
    var mid := Cut(s[i], size, a);
    CutShape(s[i], size, a);
    assert Joined(s[i - 1], s[i]) && Good(s[i - 1]);
    assert i + 1 < |s| ==> Joined(s[i], s[i + 1]);
    assert i > 1 ==> Joined(s[i - 2], s[i - 1]);
    assert Shape([p], p.start, p.end + 1);
    Concat([p], mid, p.start, p.end + 1, s[i].end + 1);
    Splice(s, 0, hi, i - 1, i + 1, [p] + mid);
  }

  lemma MergeShape(s: seq<Slab>, hi: nat, k: nat)
    requires Shape(s, 0, hi) && k < |s| && !s[k].use.Free?
    ensures Shape(Merge(s, k), 0, hi)
  {
    var i, j := MergeFrom(s, k), MergeTo(s, k);
    var m := Slab(s[i].start, s[j - 1].end, Free);
    assert i > 0 ==> Joined(s[i - 1], s[i]);
    assert j < |s| ==> Joined(s[j - 1], s[j]);
    assert i < k ==> Joined(s[i], s[k]);
    assert k + 1 < j ==> Joined(s[k], s[k + 1]);
    Splice(s, 0, hi, i, j, [m]);
  }

  lemma AllocWF(h: Heap, bytes: nat, alignment: nat)
    requires WF(h)
    ensures WF(Alloc(h, bytes, alignment).0)
  {
    var size, a := Words(bytes), AlignWords(alignment);
    if bytes < FLAG && bytes != 0 {
      if h.root.Some? {
        AllocReadyWF(h, size, a);
      } else if CanSbrk(h, GetSbrkSize(size, a)) {
        FirstSlabWF(h, size, a);
        AllocReadyWF(FirstSlab(h, size, a), size, a);
      }
    }
  }

  lemma AllocReadyWF(h: Heap, size: nat, a: nat)
    requires WF(h) && h.root.Some? && a > 0 && size > 0
    ensures WF(AllocReady(h, size, a).0)
  {
    var b := Scan(h.slabs, |h.slabs|, size, a);
    ScanChoosesFree(h.slabs, |h.slabs|, size, a);
    if b.1 != MAX_VAL {
      if Fits(h.slabs[b.0], size, a) {
        PlaceShape(h.slabs, h.last, b.0, size, a);
      }
    } else if CanSbrk(h, GetSbrkSize(size, a)) {
      GrowWF(h, size, a);
      var g := Grow(h, size, a);
      if Fits(g.slabs[|g.slabs| - 1], size, a) {
        PlaceShape(g.slabs, g.last, |g.slabs| - 1, size, a);
      }
    }
  }

  lemma ReleaseWF(h: Heap, at: nat)
    requires WF(h) && exists k: nat :: LiveAt(h.slabs, k, at)
    ensures WF(Release(h, at))
  {
    MergeShape(h.slabs, h.last, Locate(h.slabs, at));
  }
}
