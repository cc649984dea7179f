/** What one call of `dandelion_alloc` or `dandelion_free` does to a well-formed heap. */
module HeapLaws {
  import opened Prelude
  import opened SlabHeap

  // ---------------------------------------------------------------- the scan is leftmost best fit

  /** The unsigned room of a free slab that is shorter than its own padding wraps around. */
  predicate Wraps(c: Slab, a: nat)
    requires a > 0
  {
    c.use.Free? && c.end - c.start < Padding(c.start, a)
  }

  predicate SomeFits(s: seq<Slab>, size: nat, a: nat)
    requires a > 0
  {
    exists k | 0 <= k < |s| :: Fits(s[k], size, a)
  }

  predicate SomeWraps(s: seq<Slab>, a: nat)
    requires a > 0
  {
    exists k | 0 <= k < |s| :: Wraps(s[k], a)
  }

  /** `k` is the leftmost of the free slabs that fit most tightly. */
  predicate BestFit(s: seq<Slab>, k: nat, size: nat, a: nat)
    requires a > 0
  {
    && k < |s| && Fits(s[k], size, a)
    && forall j | 0 <= j < |s| && Fits(s[j], size, a) ::
         && Spare(s[k], a) <= Spare(s[j], a)
         && (j < k ==> Spare(s[k], a) < Spare(s[j], a))
  }

  /** Words behind the padding, in true arithmetic. */
  function Spare(c: Slab, a: nat): int
    requires a > 0
  {
    c.end - c.start - Padding(c.start, a) - 1
  }

  const WORD_RANGE: nat := 0x1000_0000_0000_0000

  lemma RoomCases(c: Slab, size: nat, a: nat)
    requires 0 < a <= WORD_RANGE && 0 < size <= WORD_RANGE && c.start <= c.end < WORD_RANGE && c.use.Free?
    ensures Fits(c, size, a) <==> size <= Spare(c, a)
    ensures Spare(c, a) >= 0 ==> Room(c, a) == Spare(c, a) < WORD_RANGE
    ensures Wraps(c, a) ==> WORD_RANGE <= Room(c, a) < MAX_VAL
    ensures Spare(c, a) < 0 && !Wraps(c, a) ==> Room(c, a) == MAX_VAL
  {
    PaddingAligns(c.start, a);
    var x := Spare(c, a);
    if x < 0 {
      assert (x + SIZE_RANGE) % SIZE_RANGE == x + SIZE_RANGE;
    }
  }

  ghost predicate Small(s: seq<Slab>) {
    forall k | 0 <= k < |s| :: s[k].start <= s[k].end < WORD_RANGE
  }

  lemma {:induction false} ScanIsBestFit(s: seq<Slab>, n: nat, size: nat, a: nat)
    requires n <= |s| && Small(s) && 0 < a <= WORD_RANGE && 0 < size <= WORD_RANGE
    ensures var b := Scan(s, n, size, a);
            && (SomeFits(s[..n], size, a) ==> BestFit(s[..n], b.0, size, a) && b.1 == Spare(s[b.0], a) < WORD_RANGE)
            && (!SomeFits(s[..n], size, a) && SomeWraps(s[..n], a) ==>
                  b.0 < n && Wraps(s[b.0], a) && WORD_RANGE <= b.1 < MAX_VAL)
            && (!SomeFits(s[..n], size, a) && !SomeWraps(s[..n], a) ==> b.1 == MAX_VAL)
  {
    if n > 0 {
      ScanIsBestFit(s, n - 1, size, a);
      var c := s[n - 1];
      if c.use.Free? {
        RoomCases(c, size, a);
      }
      OneSlabMore(s, n, size, a);
    }
  }

  lemma OneSlabMore(s: seq<Slab>, n: nat, size: nat, a: nat)
    requires 0 < n <= |s| && a > 0
    ensures var c, t, u := s[n - 1], s[..n - 1], s[..n];
            && (forall k | 0 <= k < n - 1 :: t[k] == u[k]) && u[n - 1] == c
            && (SomeFits(u, size, a) <==> SomeFits(t, size, a) || Fits(c, size, a))
            && (SomeWraps(u, a) <==> SomeWraps(t, a) || Wraps(c, a))
  {
    var c, t, u := s[n - 1], s[..n - 1], s[..n];
    assert forall k | 0 <= k < n - 1 :: t[k] == u[k];
    assert u[n - 1] == c;
  }

  // ---------------------------------------------------------------- which way a request ends

  lemma WFSmall(h: Heap)
    requires WF(h)
    ensures Small(h.slabs)
  {
    forall k | 0 <= k < |h.slabs| ensures h.slabs[k].start <= h.slabs[k].end < WORD_RANGE {
      Below(h.slabs, 0, h.last, k);
    }
  }

  /** For any alignment: a slab that fits is always used, and best fit; with none, a slab whose
      unsigned room wraps ends the program; otherwise the heap refuses unchanged, or grows, which
      ends the program if the grown end is still too small. */
  lemma RequestOutcome(h: Heap, size: nat, a: nat)
    requires WF(h) && h.root.Some? && 0 < a <= WORD_RANGE && 0 < size <= WORD_RANGE
    ensures var s, r := h.slabs, AllocReady(h, size, a);
            if SomeFits(s, size, a) then
              exists k: nat :: BestFit(s, k, size, a) && (PadsPredecessor(s[k], a) ==> k > 0)
                          && r == (h.(slabs := Place(s, k, size, a)), Block(Payload(s[k], a)))
            else if SomeWraps(s, a) then r == (h, Exited)
            else if !CanSbrk(h, GetSbrkSize(size, a)) then r == (h, Null)
            else
              var g := Grow(h, size, a);
              var k := |g.slabs| - 1;
              && EndsFree(g.slabs)
              && if !Fits(g.slabs[k], size, a) then r == (g, Exited)
                 else (PadsPredecessor(g.slabs[k], a) ==> k > 0)
                      && r == (g.(slabs := Place(g.slabs, k, size, a)), Block(Payload(g.slabs[k], a)))
  {
    var s := h.slabs;
    assert s[..|s|] == s;
    WFSmall(h);
    ScanIsBestFit(s, |s|, size, a);
    ScanChoosesFree(s, |s|, size, a);
    var b := Scan(s, |s|, size, a);
    if SomeFits(s, size, a) {
      PlaceShape(s, h.last, b.0, size, a);
      assert BestFit(s, b.0, size, a);
    } else if !SomeWraps(s, a) && CanSbrk(h, GetSbrkSize(size, a)) {
      GrowWF(h, size, a);
      var g := Grow(h, size, a);
      if Fits(g.slabs[|g.slabs| - 1], size, a) {
        PlaceShape(g.slabs, g.last, |g.slabs| - 1, size, a);
      }
    }
  }

  /** The heap can grow for the request. */
  ghost predicate CanGrow(h: Heap, size: nat, a: nat) {
    WF(h) && h.root.Some? && 0 < size <= WORD_RANGE && a > 0 && CanSbrk(h, GetSbrkSize(size, a))
  }

  /** The free slab at the grown end holds the request with its padding. */
  ghost predicate GrownFits(h: Heap, size: nat, a: nat)
    requires CanGrow(h, size, a)
  {
    var g := Grow(h, size, a).slabs;
    g != [] && Fits(g[|g| - 1], size, a)
  }

  /** On a heap in use the exit is taken, at any alignment, exactly when nothing fits and either some
      slab wraps or growth goes through and does not leave enough room. */
  lemma ReadyExitIff(h: Heap, size: nat, a: nat)
    requires WF(h) && h.root.Some? && 0 < a <= WORD_RANGE && 0 < size <= WORD_RANGE
    ensures AllocReady(h, size, a).1 == Exited <==>
            !SomeFits(h.slabs, size, a) && (SomeWraps(h.slabs, a) || (CanGrow(h, size, a) && !GrownFits(h, size, a)))
  {
    RequestOutcome(h, size, a);
  }

  /** And for the first request, on the slab it starts the heap with. */
  lemma AnyExitIff(h: Heap, bytes: nat, alignment: nat)
    requires WF(h) && AlignWords(alignment) <= WORD_RANGE && Request(bytes)
    ensures var size, a := Words(bytes), AlignWords(alignment);
            Alloc(h, bytes, alignment).1 == Exited <==>
            if h.root.Some? then
              !SomeFits(h.slabs, size, a) && (SomeWraps(h.slabs, a) || (CanGrow(h, size, a) && !GrownFits(h, size, a)))
            else
              CanSbrk(h, GetSbrkSize(size, a)) &&
              var f := FirstSlab(h, size, a);
              !SomeFits(f.slabs, size, a) && (SomeWraps(f.slabs, a) || (CanGrow(f, size, a) && !GrownFits(f, size, a)))
  {
    var size, a := Words(bytes), AlignWords(alignment);
    if h.root.Some? {
      ReadyExitIff(h, size, a);
    } else if CanSbrk(h, GetSbrkSize(size, a)) {
      FirstSlabWF(h, size, a);
      ReadyExitIff(FirstSlab(h, size, a), size, a);
    }
  }

  /** The alignments the runtime itself asks for: up to 16 bytes. */
  predicate Modest(alignment: nat) {
    alignment <= 16
  }

  lemma ModestPadding(start: nat, a: nat)
    requires a == 1 || a == 2
    ensures Padding(start, a) == (if a == 2 && start % 2 == 0 then 1 else 0)
  {
  }

  predicate Request(bytes: nat) {
    0 < bytes < FLAG
  }

  /** Only the one-word free slab in front can make the room wrap at these alignments. */
  lemma ModestWraps(h: Heap, a: nat)
    requires WF(h) && h.root.Some? && (a == 1 || a == 2)
    ensures SomeWraps(h.slabs, a) <==> a == 2 && h.slabs[0] == Slab(0, 0, Free)
  {
    forall k | 0 <= k < |h.slabs| && Wraps(h.slabs[k], a)
      ensures a == 2 && k == 0 && h.slabs[k] == Slab(0, 0, Free)
    {
      ModestPadding(h.slabs[k].start, a);
      assert Good(h.slabs[k]);
      if k > 0 {
        Ordered(h.slabs, 0, h.last, 0, k);
      }
    }
    ModestPadding(0, a);
  }

  /** Growth leaves room for descriptors and padding: in the first slab, in contiguous growth
      with and without merging, and past a foreign block. */
  lemma GrowthFits(h: Heap, size: nat, a: nat)
    requires WF(h) && (a == 1 || a == 2) && size > 0 && CanSbrk(h, GetSbrkSize(size, a))
    ensures h.root.None? ==> Fits(FirstSlab(h, size, a).slabs[0], size, a)
    ensures h.root.Some? ==> var g := Grow(h, size, a).slabs; EndsFree(g) && Fits(g[|g| - 1], size, a)
  {
    GrowthIsEnough(size, a);
    if h.root.Some? {
      var g := Grow(h, size, a).slabs;
      ModestPadding(g[|g| - 1].start, a);
      Below(h.slabs, 0, h.last, |h.slabs| - 1);
    } else {
      ModestPadding(0, a);
    }
  }

  /** Up to 16 bytes of alignment the "should never happen" exit is taken exactly when nothing
      fits and a two-word alignment meets the one-word free slab at the very front. */
  lemma ExitIff(h: Heap, bytes: nat, alignment: nat)
    requires WF(h) && Modest(alignment)
    ensures var size, a := Words(bytes), AlignWords(alignment);
            Alloc(h, bytes, alignment).1 == Exited <==>
            Request(bytes) && h.root.Some? && a == 2 && !SomeFits(h.slabs, size, a) && h.slabs[0] == Slab(0, 0, Free)
  {
    var size, a := Words(bytes), AlignWords(alignment);
    if Request(bytes) {
      if h.root.Some? {
        RequestOutcome(h, size, a);
        ModestWraps(h, a);
        if CanSbrk(h, GetSbrkSize(size, a)) {
          GrowthFits(h, size, a);
        }
      } else if CanSbrk(h, GetSbrkSize(size, a)) {
        FirstAlloc(h, size, a);
      }
    }
  }

  lemma FirstAlloc(h: Heap, size: nat, a: nat)
    requires WF(h) && h.root.None? && (a == 1 || a == 2) && 0 < size <= WORD_RANGE && CanSbrk(h, GetSbrkSize(size, a))
    ensures WF(FirstSlab(h, size, a)) && AllocReady(FirstSlab(h, size, a), size, a).1.Block?
  {
    FirstSlabWF(h, size, a);
    GrowthFits(h, size, a);
    var f := FirstSlab(h, size, a);
    assert SomeFits(f.slabs, size, a);
    RequestOutcome(f, size, a);
  }

  /** A request is refused exactly when it is empty or absurdly large, or nothing fits and
      `dandelion_sbrk` refuses; the heap is then unchanged. */
  lemma NullIff(h: Heap, bytes: nat, alignment: nat)
    requires WF(h) && Modest(alignment)
    ensures var size, a := Words(bytes), AlignWords(alignment);
            Alloc(h, bytes, alignment).1 == Null <==>
            || !Request(bytes)
            || (!CanSbrk(h, GetSbrkSize(size, a)) &&
                (h.root.Some? ==> !SomeFits(h.slabs, size, a) && !(a == 2 && h.slabs[0] == Slab(0, 0, Free))))
    ensures Alloc(h, bytes, alignment).1 == Null ==> Alloc(h, bytes, alignment).0 == h
  {
    var size, a := Words(bytes), AlignWords(alignment);
    if Request(bytes) {
      if h.root.Some? {
        RequestOutcome(h, size, a);
        ModestWraps(h, a);
        if CanSbrk(h, GetSbrkSize(size, a)) {
          GrowthFits(h, size, a);
        }
      } else if CanSbrk(h, GetSbrkSize(size, a)) {
        FirstAlloc(h, size, a);
      }
    }
  }

  /** A page-aligned request ends a fresh program at once. */
  lemma PageAlignmentExits()
    ensures Alloc(Heap(None, [], 0, 0, 65536), 8, 4096).1 == Exited
  {
    var f := Heap(None, [], 0, 0, 65536);
    FirstSlabWF(f, 1, 512);
    var g := FirstSlab(f, 1, 512);
    assert g.slabs == [Slab(0, 510, Free)];
    assert Wraps(g.slabs[0], 512);
    RequestOutcome(g, 1, 512);
  }

  // ---------------------------------------------------------------- sixteen bytes is the limit

  /** A heap of one page, filled by one block, with `skip - 512` words taken by others behind it. */
  function Crowded(skip: nat, limit: nat): Heap {
    Heap(Some(0), [Slab(0, 510, Live(507))], 511, skip, limit)
  }

  lemma CrowdedGrows(skip: nat, limit: nat, size: nat, a: nat)
    requires 512 < skip && 0 < size <= WORD_RANGE && a > 0 && 8 * skip + GetSbrkSize(size, a) <= limit < FLAG
    ensures CanGrow(Crowded(skip, limit), size, a)
    ensures var g := Grow(Crowded(skip, limit), size, a).slabs;
            |g| > 0 && g[|g| - 1] == Slab(skip + 1, skip + GrowthWords(size, a) - 2, Free)
  {
    var h := Crowded(skip, limit);
    assert Good(h.slabs[0]) && Shape(h.slabs, 0, 511);
    GrowthIsEnough(size, a);
  }

  /** A size for which the growth step leaves no more than the alignment in words taken as bytes. */
  function TightSize(a: nat): (size: nat)
    requires 0 < a <= WORD_RANGE
    ensures 0 < size <= WORD_RANGE && GetSbrkSize(size, a) == 4096 * (a / 4096 + 2)
    ensures GrowthWords(size, a) == size + 4 + Words(a)
  {
    512 * (a / 4096 + 2) - 4 - Words(a)
  }

  /** Foreign words that make the padding as long as can be. */
  function TightSkip(a: nat): (skip: nat)
    requires 3 <= a
    ensures 512 < skip < 0x10_0000 && Padding(skip + 1, a) > Words(a)
  {
    if a < 1024 then
      Remainder(a, 512, 1);
      512 * a - 1
    else
      Remainder(a, 0, 515);
      513
  }

  lemma Remainder(a: nat, q: nat, r: nat)
    requires r < a
    ensures (q * a + r) % a == r
  {
    var x := q * a + r;
    var d, m := x / a, x % a;
    assert x == a * d + m;
    assert a * (q - d) == m - r;
    assert q - d >= 1 ==> a * (q - d) >= a;
    assert d - q >= 1 ==> a * (d - q) >= a;
  }

  /** Above 16 bytes every alignment has a heap and a size for which growth does not leave enough room,
      and the request ends the program. */
  lemma LargeAlignmentExits(a: nat) returns (h: Heap, size: nat)
    requires 3 <= a <= WORD_RANGE
    ensures CanGrow(h, size, a) && !GrownFits(h, size, a) && AllocReady(h, size, a).1 == Exited
  {
    size := TightSize(a);
    var skip := TightSkip(a);
    var limit := 8 * skip + GetSbrkSize(size, a);
    h := Crowded(skip, limit);
    CrowdedGrows(skip, limit, size, a);
    ReadyExitIff(h, size, a);
  }

  /** Growth leaves enough room on every heap and for every size exactly up to 16 bytes of alignment. */
  lemma GrowthFitsIff(a: nat)
    requires 0 < a <= WORD_RANGE
    ensures (forall h, size | CanGrow(h, size, a) :: GrownFits(h, size, a)) <==> a <= 2
  {
    if a <= 2 {
      forall h, size | CanGrow(h, size, a) ensures GrownFits(h, size, a) {
        GrowthFits(h, size, a);
      }
    } else {
      var h, size := LargeAlignmentExits(a);
    }
  }

  // ---------------------------------------------------------------- blocks and the words they own

  /** The live blocks: address of the payload and words asked for. */
  ghost function Blocks(s: seq<Slab>): set<(nat, nat)> {
    if s == [] then {} else OwnBlock(s[0]) + Blocks(s[1..])
  }

  function OwnBlock(c: Slab): set<(nat, nat)> {
    if c.use.Live? then {(c.start + 1, c.use.want)} else {}
  }

  /** Word `x` belongs to a caller: it lies inside a live payload or a skipped foreign block. */
  ghost predicate Taken(s: seq<Slab>, x: nat) {
    exists c :: c in s && !c.use.Free? && c.start < x < c.end
  }

  /** Memory the allocator has given away or never owned, by absolute word. */
  ghost predicate Protected(h: Heap, x: nat) {
    match h.root
    case None => x < h.brk
    case Some(r) => x < r || (r + h.last < x < h.brk) || (x >= r && Taken(h.slabs, x - r))
  }

  lemma {:induction false} BlocksUnion(s: seq<Slab>, t: seq<Slab>)
    ensures Blocks(s + t) == Blocks(s) + Blocks(t)
  {
    if s == [] {
      assert s + t == t;
    } else {
      assert (s + t)[1..] == s[1..] + t;
      BlocksUnion(s[1..], t);
    }
  }

  lemma {:induction false} BlocksMembers(s: seq<Slab>, at: nat, w: nat)
    ensures (at, w) in Blocks(s) <==> exists k: nat :: LiveAt(s, k, at) && s[k].use.want == w
  {
    if s != [] {
      var t := s[1..];
      BlocksMembers(t, at, w);
      if k: nat :| LiveAt(t, k, at) && t[k].use.want == w {
        assert LiveAt(s, k + 1, at) && s[k + 1] == t[k];
      }
      if k: nat :| LiveAt(s, k, at) && s[k].use.want == w && k > 0 {
        assert LiveAt(t, k - 1, at) && s[k] == t[k - 1];
      }
      assert (at, w) in OwnBlock(s[0]) <==> LiveAt(s, 0, at) && s[0].use.want == w;
    }
  }

  lemma TakenUnion(s: seq<Slab>, t: seq<Slab>)
    ensures forall x: nat :: Taken(s + t, x) <==> Taken(s, x) || Taken(t, x)
  {
    assert forall c :: c in s + t <==> c in s || c in t;
  }

  lemma Thirds(s: seq<Slab>, i: nat, j: nat, mid: seq<Slab>)
    requires i <= j <= |s|
    ensures Blocks(s) == Blocks(s[..i]) + Blocks(s[i..j]) + Blocks(s[j..])
    ensures Blocks(s[..i] + mid + s[j..]) == Blocks(s[..i]) + Blocks(mid) + Blocks(s[j..])
  {
    assert s == s[..i] + s[i..j] + s[j..];
    BlocksUnion(s[..i], s[i..j]);
    BlocksUnion(s[..i] + s[i..j], s[j..]);
    BlocksUnion(s[..i], mid);
    BlocksUnion(s[..i] + mid, s[j..]);
  }

  lemma BlocksAdded(s: seq<Slab>, i: nat, j: nat, mid: seq<Slab>, b: (nat, nat))
    requires i <= j <= |s| && Blocks(mid) == Blocks(s[i..j]) + {b}
    ensures Blocks(s[..i] + mid + s[j..]) == Blocks(s) + {b}
  {
    Thirds(s, i, j, mid);
  }

  lemma BlocksRemoved(s: seq<Slab>, i: nat, j: nat, mid: seq<Slab>, b: (nat, nat))
    requires i <= j <= |s| && Blocks(s[i..j]) == {b} && Blocks(mid) == {}
    requires b !in Blocks(s[..i]) && b !in Blocks(s[j..])
    ensures Blocks(s[..i] + mid + s[j..]) == Blocks(s) - {b}
  {
    Thirds(s, i, j, mid);
  }

  lemma TakenAfter(s: seq<Slab>, i: nat, j: nat, mid: seq<Slab>, x: nat)
    requires i <= j <= |s| && Taken(s, x)
    ensures Taken(s[i..j], x) || Taken(s[..i] + mid + s[j..], x)
  {
    assert s == s[..i] + s[i..j] + s[j..];
    TakenUnion(s[..i], s[i..j]);
    TakenUnion(s[..i] + s[i..j], s[j..]);
    TakenUnion(s[..i], mid);
    TakenUnion(s[..i] + mid, s[j..]);
  }

  lemma TakenMiddle(s: seq<Slab>, i: nat, j: nat, mid: seq<Slab>, x: nat)
    requires i <= j <= |s| && Taken(mid, x)
    ensures Taken(s[..i] + mid + s[j..], x)
  {
    TakenUnion(s[..i], mid);
    TakenUnion(s[..i] + mid, s[j..]);
  }

  lemma AtMostOneSlab(s: seq<Slab>, hi: nat, i: nat, j: nat, x: nat)
    requires Shape(s, 0, hi) && i < |s| && j < |s|
    requires s[i].start <= x <= s[i].end && s[j].start <= x <= s[j].end
    ensures i == j
  {
    if i < j {
      Ordered(s, 0, hi, i, j);
    } else if j < i {
      Ordered(s, 0, hi, j, i);
    }
  }

  /** Live payloads are pairwise disjoint. */
  lemma PayloadsDisjoint(s: seq<Slab>, hi: nat, i: nat, j: nat, x: nat)
    requires Shape(s, 0, hi) && i < |s| && j < |s| && i != j
    requires s[i].start < x < s[i].end
    ensures !(s[j].start <= x <= s[j].end)
  {
    if s[j].start <= x <= s[j].end {
      AtMostOneSlab(s, hi, i, j, x);
    }
  }

  lemma CutBlock(c: Slab, size: nat, a: nat) returns (k: nat)
    requires a > 0 && Fits(c, size, a)
    ensures var mid := Cut(c, size, a);
            && k < |mid| && mid[k].use == Live(size)
            && mid[k].start + 1 == Payload(c, a) && mid[k].end >= Payload(c, a) + size
            && forall n | 0 <= n < |mid| && n != k :: mid[n].use.Free?
  {
    k := if Padding(c.start, a) == 0 || PadsPredecessor(c, a) then 0 else 1;
  }

  lemma CutBlocks(c: Slab, size: nat, a: nat)
    requires a > 0 && Fits(c, size, a)
    ensures Blocks(Cut(c, size, a)) == {(Payload(c, a), size)}
  {
    var k := CutBlock(c, size, a);
    OnlyLive(Cut(c, size, a), k);
  }

  lemma CutTaken(c: Slab, size: nat, a: nat, x: nat)
    requires a > 0 && Fits(c, size, a) && Payload(c, a) <= x < Payload(c, a) + size
    ensures Taken(Cut(c, size, a), x)
  {
    var k := CutBlock(c, size, a);
    assert Cut(c, size, a)[k] in Cut(c, size, a);
  }

  lemma {:induction false} OnlyLive(s: seq<Slab>, k: nat)
    requires k < |s| && s[k].use.Live?
    requires forall n | 0 <= n < |s| && n != k :: !s[n].use.Live?
    ensures Blocks(s) == {(s[k].start + 1, s[k].use.want)}
  {
    if k > 0 {
      OnlyLive(s[1..], k - 1);
    } else {
      NoLive(s[1..]);
    }
  }

  lemma {:induction false} NoLive(s: seq<Slab>)
    requires forall n | 0 <= n < |s| :: !s[n].use.Live?
    ensures Blocks(s) == {}
  {
    if s != [] {
      NoLive(s[1..]);
    }
  }

  lemma FreeSlabIsUntaken(s: seq<Slab>, hi: nat, i: nat, x: nat)
    requires Shape(s, 0, hi) && i < |s| && s[i].use.Free? && s[i].start <= x <= s[i].end
    ensures !Taken(s, x)
  {
    if Taken(s, x) {
      var c :| c in s && !c.use.Free? && c.start < x < c.end;
      var k :| 0 <= k < |s| && s[k] == c;
      AtMostOneSlab(s, hi, i, k, x);
    }
  }

  /** An allocation adds exactly one block and takes none away. */
  lemma PlaceAddsBlock(s: seq<Slab>, i: nat, size: nat, a: nat)
    requires i < |s| && a > 0 && Fits(s[i], size, a)
    requires PadsPredecessor(s[i], a) ==> i > 0
    ensures Blocks(Place(s, i, size, a)) == Blocks(s) + {(Payload(s[i], a), size)}
  {
    var c, mid, b := s[i], Cut(s[i], size, a), (Payload(s[i], a), size);
    CutBlocks(c, size, a);
    if PadsPredecessor(c, a) {
      PaddedAddsBlock(s, i, s[i - 1].(end := c.start + Padding(c.start, a) - 1), mid, b);
    } else {
      NoLive(s[i..i + 1]);
      BlocksAdded(s, i, i + 1, mid, b);
    }
  }

  lemma PaddedAddsBlock(s: seq<Slab>, i: nat, p: Slab, mid: seq<Slab>, b: (nat, nat))
    requires 0 < i < |s| && s[i].use.Free? && p == s[i - 1].(end := p.end) && Blocks(mid) == {b}
    ensures Blocks(s[..i - 1] + ([p] + mid) + s[i + 1..]) == Blocks(s) + {b}
  {
    PredecessorBlocks(s[i - 1], p, s[i], mid);
    assert s[i - 1..i + 1] == [s[i - 1], s[i]];
    BlocksAdded(s, i - 1, i + 1, [p] + mid, b);
  }

  /** Words that had an owner keep one, and the new block lies on words that had none. */
  lemma PlaceKeepsOwners(s: seq<Slab>, hi: nat, i: nat, size: nat, a: nat, x: nat)
    requires Shape(s, 0, hi) && i < |s| && a > 0 && Fits(s[i], size, a)
    requires PadsPredecessor(s[i], a) ==> i > 0
    ensures Taken(s, x) ==> Taken(Place(s, i, size, a), x)
    ensures Payload(s[i], a) <= x < Payload(s[i], a) + size ==> !Taken(s, x) && Taken(Place(s, i, size, a), x)
  {
    if Payload(s[i], a) <= x < Payload(s[i], a) + size {
      FreeSlabIsUntaken(s, hi, i, x);
      CutTaken(s[i], size, a, x);
    }
    assert i > 0 ==> Joined(s[i - 1], s[i]);
    PlaceOwners(s, i, size, a, x);
  }

  lemma PlaceOwners(s: seq<Slab>, i: nat, size: nat, a: nat, x: nat)
    requires i < |s| && a > 0 && Fits(s[i], size, a)
    requires PadsPredecessor(s[i], a) ==> i > 0 && s[i - 1].end < s[i].start
    ensures Taken(s, x) || Taken(Cut(s[i], size, a), x) ==> Taken(Place(s, i, size, a), x)
  {
    var mid := Cut(s[i], size, a);
    if PadsPredecessor(s[i], a) {
      PaddedOwners(s, i, s[i - 1].(end := s[i].start + Padding(s[i].start, a) - 1), mid, x);
    } else {
      ReplacedOwners(s, i, mid, x);
    }
  }

  lemma ReplacedOwners(s: seq<Slab>, i: nat, mid: seq<Slab>, x: nat)
    requires i < |s| && s[i].use.Free?
    ensures Taken(s, x) || Taken(mid, x) ==> Taken(s[..i] + mid + s[i + 1..], x)
  {
    if Taken(s, x) {
      TakenAfter(s, i, i + 1, mid, x);
      assert s[i..i + 1] == [s[i]];
    } else if Taken(mid, x) {
      TakenMiddle(s, i, i + 1, mid, x);
    }
  }

  lemma PaddedOwners(s: seq<Slab>, i: nat, p: Slab, mid: seq<Slab>, x: nat)
    requires 0 < i < |s| && s[i].use.Free? && s[i - 1].end <= p.end && p == s[i - 1].(end := p.end)
    ensures Taken(s, x) || Taken(mid, x) ==> Taken(s[..i - 1] + ([p] + mid) + s[i + 1..], x)
  {
    PredecessorOwners(s[i - 1], p, s[i], mid, x);
    assert s[i - 1..i + 1] == [s[i - 1], s[i]];
    if Taken([p] + mid, x) {
      TakenMiddle(s, i - 1, i + 1, [p] + mid, x);
    } else if Taken(s, x) {
      TakenAfter(s, i - 1, i + 1, [p] + mid, x);
    }
  }

  lemma PredecessorBlocks(p: Slab, p': Slab, c: Slab, mid: seq<Slab>)
    requires c.use.Free? && p' == p.(end := p'.end)
    ensures Blocks([p'] + mid) == Blocks([p, c]) + Blocks(mid)
  {
    BlocksUnion([p'], mid);
    assert [p, c][1..] == [c];
    NoLive([c]);
  }

  lemma PredecessorOwners(p: Slab, p': Slab, c: Slab, mid: seq<Slab>, x: nat)
    requires c.use.Free? && p.end <= p'.end && p' == p.(end := p'.end)
    ensures Taken([p, c], x) || Taken(mid, x) ==> Taken([p'] + mid, x)
  {
    TakenUnion([p'], mid);
    assert p' in [p'];
  }

  lemma BlockOnce(s: seq<Slab>, hi: nat, k: nat, n: nat)
    requires Shape(s, 0, hi) && k < |s| && n < |s| && k != n
    ensures s[n].start != s[k].start
  {
    assert Good(s[n]) && Good(s[k]);
    if s[n].start == s[k].start {
      AtMostOneSlab(s, hi, n, k, s[n].start);
    }
  }

  lemma BlockNotBefore(s: seq<Slab>, hi: nat, k: nat, i: nat, w: nat)
    requires Shape(s, 0, hi) && i <= k < |s|
    ensures (s[k].start + 1, w) !in Blocks(s[..i])
  {
    var at := s[k].start + 1;
    BlocksMembers(s[..i], at, w);
    if n: nat :| LiveAt(s[..i], n, at) {
      BlockOnce(s, hi, k, n);
    }
  }

  lemma BlockNotAfter(s: seq<Slab>, hi: nat, k: nat, j: nat, w: nat)
    requires Shape(s, 0, hi) && k < j <= |s|
    ensures (s[k].start + 1, w) !in Blocks(s[j..])
  {
    var at := s[k].start + 1;
    BlocksMembers(s[j..], at, w);
    if n: nat :| LiveAt(s[j..], n, at) {
      BlockOnce(s, hi, k, j + n);
    }
  }

  /** A release removes exactly its own block. */
  lemma MergeRemovesBlock(s: seq<Slab>, hi: nat, k: nat)
    requires Shape(s, 0, hi) && k < |s| && s[k].use.Live?
    ensures Blocks(Merge(s, k)) == Blocks(s) - {(s[k].start + 1, s[k].use.want)}
  {
    var i, j, w := MergeFrom(s, k), MergeTo(s, k), s[k].use.want;
    var m := [Slab(s[i].start, s[j - 1].end, Free)];
    OnlyOccupied(s[i..j], k - i);
    BlockNotBefore(s, hi, k, i, w);
    BlockNotAfter(s, hi, k, j, w);
    NoLive(m);
    BlocksRemoved(s, i, j, m, (s[k].start + 1, w));
  }

  /** After a release every word outside the released payload keeps its owner. */
  lemma MergeKeepsOwners(s: seq<Slab>, k: nat, x: nat)
    requires k < |s| && s[k].use.Live? && Taken(s, x) && !(s[k].start < x < s[k].end)
    ensures Taken(Merge(s, k), x)
  {
    var i, j := MergeFrom(s, k), MergeTo(s, k);
    OnlyOccupied(s[i..j], k - i);
    TakenAfter(s, i, j, [Slab(s[i].start, s[j - 1].end, Free)], x);
  }

  lemma OnlyOccupied(s: seq<Slab>, k: nat)
    requires k < |s| && s[k].use.Live?
    requires forall n | 0 <= n < |s| && n != k :: s[n].use.Free?
    ensures Blocks(s) == {(s[k].start + 1, s[k].use.want)}
    ensures forall x: nat :: Taken(s, x) ==> s[k].start < x < s[k].end
  {
    assert forall c :: c in s && !c.use.Free? ==> c == s[k];
    OnlyLive(s, k);
  }

  // ---------------------------------------------------------------- whole calls

  lemma GrowKeeps(h: Heap, size: nat, a: nat, x: nat)
    requires WF(h) && h.root.Some? && CanSbrk(h, GetSbrkSize(size, a)) && a > 0
    ensures Blocks(Grow(h, size, a).slabs) == Blocks(h.slabs)
    ensures Protected(h, x) ==> Protected(Grow(h, size, a), x)
  {
    var g, s, n := Grow(h, size, a), h.slabs, |h.slabs|;
    GrowthIsEnough(size, a);
    if Contiguous(h) && EndsFree(s) {
      var c := g.slabs[n - 1];
      assert s[n - 1..n] == [s[n - 1]] && s[n..] == [];
      NoLive(s[n - 1..n]);
      NoLive([c]);
      assert g.slabs == s[..n - 1] + [c] + s[n..];
      Thirds(s, n - 1, n, [c]);
      if x >= h.root.value && Taken(s, x - h.root.value) {
        TakenAfter(s, n - 1, n, [c], x - h.root.value);
      }
    } else {
      var t := g.slabs[n..];
      assert g.slabs == s + t;
      NoLive(t);
      BlocksUnion(s, t);
      TakenUnion(s, t);
      if !Contiguous(h) {
        assert t[0] in t;
      }
    }
  }

  lemma TakeEffect(h: Heap, i: nat, size: nat, a: nat, x: nat)
    requires WF(h) && h.root.Some? && i < |h.slabs| && a > 0 && size > 0 && Fits(h.slabs[i], size, a)
    ensures i == 0 ==> h.slabs[0].start == 0
    ensures var (h', r) := Take(h, i, size, a); var at := Payload(h.slabs[i], a);
            && r == Block(at) && at % a == 0
            && Blocks(h'.slabs) == Blocks(h.slabs) + {(at, size)}
            && (Protected(h, x) ==> Protected(h', x))
            && (h.root.value + at <= x < h.root.value + at + size ==> !Protected(h, x) && Protected(h', x))
  {
    PaddingAligns(h.slabs[i].start, a);
    PlaceShape(h.slabs, h.last, i, size, a);
    PlaceAddsBlock(h.slabs, i, size, a);
    Below(h.slabs, 0, h.last, i);
    if x >= h.root.value {
      PlaceKeepsOwners(h.slabs, h.last, i, size, a, x - h.root.value);
    }
  }

  /** The effect of a successful request on any heap, at any alignment: an aligned block on
      words nobody owned, one more block on record, and every owned word still owned. */
  lemma AllocReadyEffect(h: Heap, size: nat, a: nat, x: nat)
    requires WF(h) && h.root.Some? && a > 0 && size > 0
    ensures var (h', r) := AllocReady(h, size, a);
            && (Protected(h, x) ==> Protected(h', x))
            && h'.root == h.root
            && (r.Block? ==>
                  && r.at % a == 0
                  && Blocks(h'.slabs) == Blocks(h.slabs) + {(r.at, size)}
                  && (h.root.value + r.at <= x < h.root.value + r.at + size ==> !Protected(h, x) && Protected(h', x)))
            && (!r.Block? ==> Blocks(h'.slabs) == Blocks(h.slabs))
  {
    var b := Scan(h.slabs, |h.slabs|, size, a);
    ScanChoosesFree(h.slabs, |h.slabs|, size, a);
    if b.1 != MAX_VAL {
      if Fits(h.slabs[b.0], size, a) {
        TakeEffect(h, b.0, size, a, x);
      }
    } else if CanSbrk(h, GetSbrkSize(size, a)) {
      GrowWF(h, size, a);
      GrowKeeps(h, size, a, x);
      var g := Grow(h, size, a);
      if Fits(g.slabs[|g.slabs| - 1], size, a) {
        TakeEffect(g, |g.slabs| - 1, size, a, x);
      }
    }
  }

  /** A multiple of the alignment in words is one in bytes. */
  lemma InBytes(at: nat, alignment: nat)
    ensures at % AlignWords(alignment) == 0 && alignment > 0 && alignment % 8 == 0 ==> (8 * at) % alignment == 0
  {
    var a := AlignWords(alignment);
    if at % a == 0 && alignment > 0 && alignment % 8 == 0 {
      var q := at / a;
      assert alignment == 8 * a && at == a * q;
      assert 8 * at == alignment * q;
      MultipleMod(alignment, q);
    }
  }

  /** What a successful request gives its caller, and what it leaves alone. */
  lemma AllocEffect(h: Heap, bytes: nat, alignment: nat, x: nat)
    requires WF(h)
    ensures var (h', r) := Alloc(h, bytes, alignment); var size := Words(bytes);
            && (Protected(h, x) ==> Protected(h', x))
            && (r.Block? ==>
                  && h'.root.Some?
                  && r.at % AlignWords(alignment) == 0 && bytes <= 8 * size < bytes + 8
                  && (alignment > 0 && alignment % 8 == 0 ==> (8 * r.at) % alignment == 0)
                  && Blocks(h'.slabs) == Blocks(h.slabs) + {(r.at, size)}
                  && (h'.root.value + r.at <= x < h'.root.value + r.at + size ==> !Protected(h, x) && Protected(h', x)))
            && (!r.Block? ==> Blocks(h'.slabs) == Blocks(h.slabs))
  {
    var size, a := Words(bytes), AlignWords(alignment);
    if Request(bytes) {
      var r := Alloc(h, bytes, alignment).1;
      if r.Block? {
        InBytes(r.at, alignment);
      }
      if h.root.Some? {
        AllocReadyEffect(h, size, a, x);
      } else if CanSbrk(h, GetSbrkSize(size, a)) {
        FirstSlabWF(h, size, a);
        var f := FirstSlab(h, size, a);
        AllocReadyEffect(f, size, a, x);
        assert Protected(h, x) ==> Protected(f, x);
        NoLive(f.slabs);
      }
    }
  }

  // ---------------------------------------------------------------- how much a block can hold beyond its request

  /** At most two words are left over at the split; padding adds at most one more, and only once. */
  predicate Snug(c: Slab) {
    c.use.Live? ==>
      || c.end - c.start - 1 <= c.use.want + 2
      || (c.end - c.start - 1 == c.use.want + 3 && c.end % 2 == 0)
  }

  ghost predicate AllSnug(s: seq<Slab>) {
    forall c | c in s :: Snug(c)
  }

  lemma PlaceSnug(s: seq<Slab>, hi: nat, i: nat, size: nat, a: nat)
    requires Shape(s, 0, hi) && i < |s| && (a == 1 || a == 2) && Fits(s[i], size, a) && AllSnug(s)
    requires PadsPredecessor(s[i], a) ==> i > 0
    ensures AllSnug(Place(s, i, size, a))
  {
    var c, mid, t := s[i], Cut(s[i], size, a), Place(s, i, size, a);
    ModestPadding(c.start, a);
    assert forall d | d in mid :: Snug(d);
    if PadsPredecessor(c, a) {
      var p := s[i - 1];
      assert Joined(p, c) && Snug(p);
      assert forall d | d in t :: d in s || d in mid || d == p.(end := c.start);
    } else {
      assert forall d | d in t :: d in s || d in mid;
    }
  }

  lemma AllocSnug(h: Heap, bytes: nat, alignment: nat)
    requires WF(h) && AllSnug(h.slabs) && Modest(alignment)
    ensures AllSnug(Alloc(h, bytes, alignment).0.slabs)
  {
    var size, a := Words(bytes), AlignWords(alignment);
    if Request(bytes) {
      if h.root.Some? {
        AllocReadySnug(h, size, a);
      } else if CanSbrk(h, GetSbrkSize(size, a)) {
        FirstSlabWF(h, size, a);
        AllocReadySnug(FirstSlab(h, size, a), size, a);
      }
    }
  }

  lemma AllocReadySnug(h: Heap, size: nat, a: nat)
    requires WF(h) && h.root.Some? && AllSnug(h.slabs) && (a == 1 || a == 2) && size > 0
    ensures AllSnug(AllocReady(h, size, a).0.slabs)
  {
    var b := Scan(h.slabs, |h.slabs|, size, a);
    ScanChoosesFree(h.slabs, |h.slabs|, size, a);
    if b.1 != MAX_VAL {
      if Fits(h.slabs[b.0], size, a) {
        PlaceShape(h.slabs, h.last, b.0, size, a);
        PlaceSnug(h.slabs, h.last, b.0, size, a);
      }
    } else if CanSbrk(h, GetSbrkSize(size, a)) {
      GrowWF(h, size, a);
      var g := Grow(h, size, a);
      GrowSnug(h, size, a);
      if Fits(g.slabs[|g.slabs| - 1], size, a) {
        PlaceShape(g.slabs, g.last, |g.slabs| - 1, size, a);
        PlaceSnug(g.slabs, g.last, |g.slabs| - 1, size, a);
      }
    }
  }

  lemma GrowSnug(h: Heap, size: nat, a: nat)
    requires WF(h) && h.root.Some? && AllSnug(h.slabs) && a > 0
    ensures AllSnug(Grow(h, size, a).slabs)
  {
    var s, g := h.slabs, Grow(h, size, a).slabs;
    assert forall c | c in g :: c in s || !c.use.Live?;
  }

  lemma MergeSnug(s: seq<Slab>, k: nat)
    requires k < |s| && AllSnug(s)
    ensures AllSnug(Merge(s, k))
  {
    var t := Merge(s, k);
    assert forall c | c in t :: c in s || c.use.Free?;
  }

  // ---------------------------------------------------------------- releasing gives the space back

  /** Releasing right after allocating from slab `i` restores the slab list exactly when the
      block did not push its padding into the slab in front. */
  lemma ReleaseUndoesPlace(s: seq<Slab>, hi: nat, i: nat, size: nat, a: nat, k: nat)
    requires Shape(s, 0, hi) && i < |s| && a > 0 && size > 0 && Fits(s[i], size, a)
    requires PadsPredecessor(s[i], a) ==> i > 0
    requires LiveAt(Place(s, i, size, a), k, Payload(s[i], a))
    ensures Merge(Place(s, i, size, a), k) == s <==> !PadsPredecessor(s[i], a)
  {
    var b := BlockIndex(s, hi, i, size, a, k);
    if PadsPredecessor(s[i], a) {
      PaddedIsNotUndone(s, hi, i, size, a, k);
    } else {
      PlainIsUndone(s, hi, i, size, a, b);
    }
  }

  /** The block stands in the list where the cut put it. */
  lemma BlockIndex(s: seq<Slab>, hi: nat, i: nat, size: nat, a: nat, k: nat) returns (b: nat)
    requires Shape(s, 0, hi) && i < |s| && a > 0 && size > 0 && Fits(s[i], size, a)
    requires PadsPredecessor(s[i], a) ==> i > 0
    requires LiveAt(Place(s, i, size, a), k, Payload(s[i], a))
    ensures k == i + b && OneBlockAt(Cut(s[i], size, a), b)
  {
    b := CutBlock(s[i], size, a);
    PlaceShape(s, hi, i, size, a);
    PlaceAt(s, i, size, a, b);
    SameIndex(Place(s, i, size, a), hi, i + b, k);
  }

  predicate OneBlockAt(mid: seq<Slab>, b: nat) {
    b < |mid| && !mid[b].use.Free? && forall n | 0 <= n < |mid| && n != b :: mid[n].use.Free?
  }

  lemma PaddedIsNotUndone(s: seq<Slab>, hi: nat, i: nat, size: nat, a: nat, k: nat)
    requires Shape(s, 0, hi) && 0 < i < |s| && a > 0 && Fits(s[i], size, a) && PadsPredecessor(s[i], a)
    requires i <= k < |Place(s, i, size, a)|
    ensures Merge(Place(s, i, size, a), k) != s
  {
    assert Joined(s[i - 1], s[i]);
    PaddingStays(s, Place(s, i, size, a), i, k);
  }

  lemma PlainIsUndone(s: seq<Slab>, hi: nat, i: nat, size: nat, a: nat, b: nat)
    requires Shape(s, 0, hi) && i < |s| && a > 0 && Fits(s[i], size, a) && !PadsPredecessor(s[i], a)
    requires OneBlockAt(Cut(s[i], size, a), b)
    ensures i + b < |Place(s, i, size, a)| && Merge(Place(s, i, size, a), i + b) == s
  {
    assert i > 0 ==> Joined(s[i - 1], s[i]);
    assert i + 1 < |s| ==> Joined(s[i], s[i + 1]);
    MergeOfCut(s, i, Cut(s[i], size, a), b);
  }

  lemma PaddingStays(s: seq<Slab>, t: seq<Slab>, i: nat, k: nat)
    requires 0 < i <= |s| && i <= k < |t| && t[i - 1].end > s[i - 1].end
    requires k == i ==> !t[i - 1].use.Free?
    ensures Merge(t, k) != s
  {
    assert i <= MergeFrom(t, k);
    assert Merge(t, k)[i - 1] == t[i - 1];
  }

  lemma PlaceAt(s: seq<Slab>, i: nat, size: nat, a: nat, b: nat)
    requires i < |s| && a > 0 && Fits(s[i], size, a) && b < |Cut(s[i], size, a)|
    requires PadsPredecessor(s[i], a) ==> i > 0
    ensures i + b < |Place(s, i, size, a)| && Place(s, i, size, a)[i + b] == Cut(s[i], size, a)[b]
  {
  }

  /** Merging the one occupied piece of a cut gives back what was cut. */
  lemma MergeOfCut(s: seq<Slab>, i: nat, mid: seq<Slab>, b: nat)
    requires i < |s| && s[i].use.Free? && b < |mid| <= b + 2 && b <= 1
    requires mid[0].start == s[i].start && mid[|mid| - 1].end == s[i].end && !mid[b].use.Free?
    requires forall n | 0 <= n < |mid| && n != b :: mid[n].use.Free?
    requires i > 0 ==> !s[i - 1].use.Free?
    requires i + 1 < |s| ==> !s[i + 1].use.Free?
    ensures Merge(s[..i] + mid + s[i + 1..], i + b) == s
  {
    var t := s[..i] + mid + s[i + 1..];
    assert MergeFrom(t, i + b) == i;
    assert MergeTo(t, i + b) == i + |mid|;
    assert t[..i] == s[..i];
    assert t[i + |mid|..] == s[i + 1..];
    assert s == s[..i] + [s[i]] + s[i + 1..];
  }

  lemma SameIndex(s: seq<Slab>, hi: nat, i: nat, k: nat)
    requires Shape(s, 0, hi) && i < |s| && k < |s| && s[i].start == s[k].start
    ensures i == k
  {
    if i != k {
      BlockOnce(s, hi, i, k);
    }
  }

  ghost predicate NoForeign(s: seq<Slab>) {
    forall c | c in s :: !c.use.Foreign?
  }

  /** Releases every block of `order` in turn. */
  ghost predicate CanReleaseAll(h: Heap, order: seq<nat>)
    decreases |order|
  {
    order == [] || ((exists k: nat :: LiveAt(h.slabs, k, order[0])) && CanReleaseAll(Release(h, order[0]), order[1..]))
  }

  ghost function ReleaseAll(h: Heap, order: seq<nat>): Heap
    requires CanReleaseAll(h, order)
    decreases |order|
  {
    if order == [] then h else ReleaseAll(Release(h, order[0]), order[1..])
  }

  ghost predicate IsLive(s: seq<Slab>, at: nat) {
    exists k: nat :: LiveAt(s, k, at)
  }

  /** `order` names exactly the live blocks, each once. */
  ghost predicate Lists(h: Heap, order: seq<nat>) {
    && (forall i, j | 0 <= i < j < |order| :: order[i] != order[j])
    && (forall at: nat :: at in order <==> IsLive(h.slabs, at))
  }

  lemma LiveAfterMerge(s: seq<Slab>, hi: nat, k: nat, at: nat)
    requires Shape(s, 0, hi) && k < |s| && s[k].use.Live?
    ensures IsLive(Merge(s, k), at) <==> IsLive(s, at) && at != s[k].start + 1
  {
    BlockGone(s, hi, k);
    MergeRemovesBlock(s, hi, k);
    if IsLive(Merge(s, k), at) {
      var w := LiveBlock(Merge(s, k), at);
      BlocksMembers(s, at, w);
    }
    if IsLive(s, at) && at != s[k].start + 1 {
      var w := LiveBlock(s, at);
      BlocksMembers(Merge(s, k), at, w);
    }
  }

  lemma LiveBlock(s: seq<Slab>, at: nat) returns (w: nat)
    requires IsLive(s, at)
    ensures (at, w) in Blocks(s)
  {
    var k: nat :| LiveAt(s, k, at);
    w := s[k].use.want;
    BlocksMembers(s, at, w);
  }

  lemma ListsRest(h: Heap, order: seq<nat>)
    requires WF(h) && h.root.Some? && Lists(h, order) && order != []
    ensures IsLive(h.slabs, order[0]) && Lists(Release(h, order[0]), order[1..])
  {
    assert order[0] in order;
    var s, k, rest := h.slabs, Locate(h.slabs, order[0]), order[1..];
    forall at: nat ensures at in rest <==> IsLive(Merge(s, k), at) {
      LiveAfterMerge(s, h.last, k, at);
      assert order == [order[0]] + rest;
      if at in rest {
        var i :| 0 <= i < |rest| && rest[i] == at;
        assert order[i + 1] == at;
      }
    }
  }

  /** The heap as one free slab over everything. */
  ghost function OneSlab(h: Heap): Heap
    requires h.last > 0
  {
    h.(slabs := [Slab(0, h.last - 1, Free)])
  }

  /** Whatever the order, all blocks of a heap that never skipped foreign memory can be released one
      after the other, and that leaves one free slab over everything. */
  lemma {:induction false} ReleasingAllCoalesces(h: Heap, order: seq<nat>)
    requires WF(h) && h.root.Some? && NoForeign(h.slabs) && Lists(h, order)
    ensures h.last > 0 && CanReleaseAll(h, order) && ReleaseAll(h, order) == OneSlab(h)
    decreases |order|
  {
    if order == [] {
      AlreadyOneSlab(h, order);
    } else {
      var h' := ReleaseFirst(h, order);
      ReleasingAllCoalesces(h', order[1..]);
      ReleaseOneMore(h, order);
    }
  }

  lemma AlreadyOneSlab(h: Heap, order: seq<nat>)
    requires WF(h) && h.root.Some? && NoForeign(h.slabs) && Lists(h, order) && order == []
    ensures h.last > 0 && ReleaseAll(h, order) == OneSlab(h)
  {
    NothingLeft(h.slabs, h.last);
  }

  lemma ReleaseFirst(h: Heap, order: seq<nat>) returns (h': Heap)
    requires WF(h) && h.root.Some? && NoForeign(h.slabs) && order != [] && Lists(h, order)
    ensures IsLive(h.slabs, order[0]) && h' == Release(h, order[0])
    ensures WF(h') && h'.root.Some? && NoForeign(h'.slabs) && Lists(h', order[1..])
    ensures h'.last == h.last > 0 && OneSlab(h') == OneSlab(h)
  {
    ListsRest(h, order);
    h' := Release(h, order[0]);
    ReleaseWF(h, order[0]);
    MergeForeign(h.slabs, Locate(h.slabs, order[0]));
    assert Good(h.slabs[0]);
    Below(h.slabs, 0, h.last, 0);
  }

  lemma ReleaseOneMore(h: Heap, order: seq<nat>)
    requires order != [] && IsLive(h.slabs, order[0]) && CanReleaseAll(Release(h, order[0]), order[1..])
    ensures CanReleaseAll(h, order) && ReleaseAll(h, order) == ReleaseAll(Release(h, order[0]), order[1..])
  {
  }

  lemma NothingLeft(s: seq<Slab>, hi: nat)
    requires Shape(s, 0, hi) && NoForeign(s) && forall at: nat :: !IsLive(s, at)
    ensures s == [Slab(0, hi - 1, Free)]
  {
    forall k | 0 <= k < |s| ensures s[k].use.Free? {
      assert s[k] in s;
      var at := s[k].start + 1;
      assert LiveAt(s, k, at) <==> s[k].use.Live?;
      assert !IsLive(s, at);
    }
    assert |s| > 1 ==> Joined(s[0], s[1]);
  }

  lemma BlockAtAddress(s: seq<Slab>, hi: nat, k: nat, b: (nat, nat))
    requires Shape(s, 0, hi) && k < |s| && s[k].use.Live? && b in Blocks(s) && b.0 == s[k].start + 1
    ensures b == (s[k].start + 1, s[k].use.want)
  {
    BlocksMembers(s, b.0, b.1);
    var n: nat :| LiveAt(s, n, b.0) && s[n].use.want == b.1;
    if n != k {
      BlockOnce(s, hi, n, k);
    }
  }

  lemma BlockGone(s: seq<Slab>, hi: nat, k: nat)
    requires Shape(s, 0, hi) && k < |s| && s[k].use.Live?
    ensures forall b | b in Blocks(Merge(s, k)) :: b in Blocks(s) && b.0 != s[k].start + 1
  {
    MergeRemovesBlock(s, hi, k);
    forall b | b in Blocks(s) && b.0 == s[k].start + 1 ensures b == (s[k].start + 1, s[k].use.want) {
      BlockAtAddress(s, hi, k, b);
    }
  }

  lemma MergeForeign(s: seq<Slab>, k: nat)
    requires k < |s| && NoForeign(s)
    ensures NoForeign(Merge(s, k))
  {
    var t := Merge(s, k);
    assert forall c | c in t :: c in s || c.use.Free?;
  }
}
