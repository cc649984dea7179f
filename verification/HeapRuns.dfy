/** Whole runs of the allocator: any sequence of requests, releases, foreign `dandelion_sbrk`
    calls and writes by the callers into memory they own. */
module HeapRuns {
  import opened Prelude
  import opened SlabHeap
  import opened HeapLaws

  datatype Op =
    | Request(bytes: nat, alignment: nat)
    | Return(at: nat)
    | ForeignSbrk(bytes: nat)
    | Write(word: nat, value: nat)

  /** `written` records, for each owned word, the last value its owner wrote there. */
  datatype Machine = Machine(heap: Heap, halted: bool, written: map<nat, nat>)

  /** What a correct caller may do: release only live blocks, write only memory it owns. */
  ghost predicate Legal(h: Heap, op: Op) {
    match op
    case Request(_, alignment) => alignment < FLAG
    case Return(at) => exists k: nat :: LiveAt(h.slabs, k, at)
    case ForeignSbrk(bytes) => bytes < FLAG
    case Write(word, value) => Protected(h, word) && 8 * (word + 1) <= h.limit && value < SIZE_RANGE
  }

  /** The words of the block at `at`, by absolute index. */
  ghost predicate InBlock(h: Heap, at: nat, x: nat)
    requires h.root.Some? && exists k: nat :: LiveAt(h.slabs, k, at)
  {
    var c := h.slabs[Locate(h.slabs, at)];
    h.root.value + c.start < x < h.root.value + c.end
  }

  ghost function Step(m: Machine, op: Op): (m': Machine)
    requires WF(m.heap) && Legal(m.heap, op)
    ensures WF(m'.heap)
  {
    var h := m.heap;
    if m.halted then m
    else
      match op
      case Request(bytes, alignment) =>
        AllocWF(h, bytes, alignment);
        var (h', r) := Alloc(h, bytes, alignment);
        Machine(h', r == Exited, m.written)
      case Return(at) =>
        ReleaseWF(h, at);
        m.(heap := Release(h, at), written := map x | x in m.written && !InBlock(h, at, x) :: m.written[x])
      case ForeignSbrk(bytes) => m.(heap := Sbrk(h, bytes))
      case Write(word, value) => m.(written := m.written[word := value])
  }

  ghost predicate LegalRun(m: Machine, ops: seq<Op>)
    requires WF(m.heap)
    decreases |ops|
  {
    ops == [] || (Legal(m.heap, ops[0]) && LegalRun(Step(m, ops[0]), ops[1..]))
  }

  ghost function Run(m: Machine, ops: seq<Op>): (m': Machine)
    requires WF(m.heap) && LegalRun(m, ops)
    ensures WF(m'.heap)
    decreases |ops|
  {
    if ops == [] then m else Run(Step(m, ops[0]), ops[1..])
  }

  function Boot(limit: nat): Machine {
    Machine(Heap(None, [], 0, 0, limit), false, map[])
  }

  // ---------------------------------------------------------------- owned memory stays owned

  ghost predicate AllOwned(m: Machine) {
    forall x | x in m.written :: Protected(m.heap, x) && 8 * (x + 1) <= m.heap.limit
  }

  lemma StepKeepsOwned(m: Machine, op: Op)
    requires WF(m.heap) && Legal(m.heap, op) && AllOwned(m)
    ensures AllOwned(Step(m, op)) && Step(m, op).heap.limit == m.heap.limit
  {
    if !m.halted {
      match op
      case Request(bytes, alignment) => RequestKeepsOwned(m, bytes, alignment);
      case Return(at) => ReturnKeepsOwned(m, at);
      case ForeignSbrk(bytes) => SbrkKeepsOwned(m, bytes);
      case Write(word, value) => WriteKeepsOwned(m, word, value);
    }
  }

  lemma SbrkKeepsOwned(m: Machine, bytes: nat)
    requires WF(m.heap) && AllOwned(m) && Legal(m.heap, ForeignSbrk(bytes))
    ensures AllOwned(Step(m, ForeignSbrk(bytes))) && Step(m, ForeignSbrk(bytes)).heap.limit == m.heap.limit
  {
  }

  lemma WriteKeepsOwned(m: Machine, word: nat, value: nat)
    requires WF(m.heap) && AllOwned(m) && Legal(m.heap, Write(word, value))
    ensures AllOwned(Step(m, Write(word, value))) && Step(m, Write(word, value)).heap.limit == m.heap.limit
  {
  }

  lemma RequestKeepsOwned(m: Machine, bytes: nat, alignment: nat)
    requires WF(m.heap) && AllOwned(m) && Legal(m.heap, Op.Request(bytes, alignment))
    ensures AllOwned(Step(m, Op.Request(bytes, alignment)))
    ensures Step(m, Op.Request(bytes, alignment)).heap.limit == m.heap.limit
  {
    AllocKeepsLimit(m.heap, bytes, alignment);
    if !m.halted {
      AllocKeepsOwned(m.heap, Alloc(m.heap, bytes, alignment).0, m.written.Keys, bytes, alignment);
    }
  }

  lemma AllocKeepsOwned(h: Heap, h': Heap, owned: set<nat>, bytes: nat, alignment: nat)
    requires WF(h) && h' == Alloc(h, bytes, alignment).0
    requires forall x | x in owned :: Protected(h, x) && 8 * (x + 1) <= h.limit
    ensures forall x | x in owned :: Protected(h', x) && 8 * (x + 1) <= h'.limit
  {
    forall x | x in owned ensures Protected(h', x) {
      AllocEffect(h, bytes, alignment, x);
    }
    AllocKeepsLimit(h, bytes, alignment);
  }

  lemma AllocKeepsLimit(h: Heap, bytes: nat, alignment: nat)
    requires WF(h)
    ensures Alloc(h, bytes, alignment).0.limit == h.limit
  {
  }

  lemma ReturnKeepsOwned(m: Machine, at: nat)
    requires WF(m.heap) && AllOwned(m) && Legal(m.heap, Return(at)) && !m.halted
    ensures AllOwned(Step(m, Return(at))) && Step(m, Return(at)).heap.limit == m.heap.limit
  {
    var m', h := Step(m, Return(at)), m.heap;
    forall x | x in m'.written ensures Protected(m'.heap, x) {
      if x >= h.root.value && Taken(h.slabs, x - h.root.value) {
        MergeKeepsOwners(h.slabs, Locate(h.slabs, at), x - h.root.value);
      }
    }
  }

  /** No step of any run takes away a word its owner has written and not given back. */
  lemma {:induction false} OwnedOverRuns(m: Machine, ops: seq<Op>)
    requires WF(m.heap) && LegalRun(m, ops) && AllOwned(m)
    ensures AllOwned(Run(m, ops)) && Run(m, ops).heap.limit == m.heap.limit
    decreases |ops|
  {
    if ops != [] {
      StepKeepsOwned(m, ops[0]);
      OwnedOverRuns(Step(m, ops[0]), ops[1..]);
    }
  }

  // ---------------------------------------------------------------- blocks are never much larger than asked

  ghost predicate ModestRun(ops: seq<Op>) {
    forall op | op in ops && op.Request? :: Modest(op.alignment)
  }

  lemma StepKeepsSnug(m: Machine, op: Op)
    requires WF(m.heap) && Legal(m.heap, op) && AllSnug(m.heap.slabs) && (op.Request? ==> Modest(op.alignment))
    ensures AllSnug(Step(m, op).heap.slabs)
  {
    if !m.halted {
      match op
      case Request(bytes, alignment) => AllocSnug(m.heap, bytes, alignment);
      case Return(at) => MergeSnug(m.heap.slabs, Locate(m.heap.slabs, at));
      case ForeignSbrk(bytes) =>
      case Write(word, value) =>
    }
  }

  lemma {:induction false} SnugOverRuns(m: Machine, ops: seq<Op>)
    requires WF(m.heap) && LegalRun(m, ops) && ModestRun(ops) && AllSnug(m.heap.slabs)
    ensures AllSnug(Run(m, ops).heap.slabs)
    decreases |ops|
  {
    if ops != [] {
      assert ops[0] in ops;
      StepKeepsSnug(m, ops[0]);
      SnugOverRuns(Step(m, ops[0]), ops[1..]);
    }
  }

  /** After any run from start-up with alignments up to 16 bytes, every live block holds the
      words asked for and at most three more. */
  lemma BlockSizesOverRuns(limit: nat, ops: seq<Op>, c: Slab)
    requires limit < FLAG && LegalRun(Boot(limit), ops) && ModestRun(ops)
    requires c in Run(Boot(limit), ops).heap.slabs && c.use.Live?
    ensures c.use.want <= c.end - c.start - 1 <= c.use.want + 3
  {
    var h := Run(Boot(limit), ops).heap;
    SnugOverRuns(Boot(limit), ops);
    var k :| 0 <= k < |h.slabs| && h.slabs[k] == c;
    assert Good(h.slabs[k]) && Snug(c);
  }

  // ---------------------------------------------------------------- the "should never happen" exit

  /** The block of the first, word-aligned request is still live. */
  ghost predicate Anchored(m: Machine) {
    !m.halted && m.heap.root.Some? && |m.heap.slabs| > 0 && m.heap.slabs[0].use.Live?
  }

  lemma AnchoredStep(m: Machine, op: Op)
    requires WF(m.heap) && Legal(m.heap, op) && Anchored(m)
    requires op != Return(1) && (op.Request? ==> Modest(op.alignment))
    ensures Anchored(Step(m, op))
  {
    var h := m.heap;
    match op
    case Request(bytes, alignment) =>
      ExitIff(h, bytes, alignment);
      if HeapLaws.Request(bytes) {
        FrontStays(h, Words(bytes), AlignWords(alignment));
      }
    case Return(at) =>
      var k := Locate(h.slabs, at);
      assert k != 0;
      assert MergeFrom(h.slabs, k) > 0;
    case ForeignSbrk(bytes) =>
    case Write(word, value) =>
  }

  lemma FrontStays(h: Heap, size: nat, a: nat)
    requires WF(h) && h.root.Some? && h.slabs[0].use.Live? && a > 0 && size > 0
    ensures AllocReady(h, size, a).0.slabs != [] && AllocReady(h, size, a).0.slabs[0].use.Live?
  {
    var b := Scan(h.slabs, |h.slabs|, size, a);
    ScanChoosesFree(h.slabs, |h.slabs|, size, a);
    if b.1 != MAX_VAL {
      FrontStaysInTake(h, b.0, size, a);
    } else if CanSbrk(h, GetSbrkSize(size, a)) {
      FrontStaysInGrow(h, size, a);
    }
  }

  lemma FrontStaysInGrow(h: Heap, size: nat, a: nat)
    requires WF(h) && h.root.Some? && h.slabs[0].use.Live? && a > 0 && CanSbrk(h, GetSbrkSize(size, a))
    ensures var g := Grow(h, size, a); var s := Take(g, |g.slabs| - 1, size, a).0.slabs; s != [] && s[0].use.Live?
  {
    GrowWF(h, size, a);
    var g := Grow(h, size, a);
    assert g.slabs[0] == h.slabs[0];
    FrontStaysInTake(g, |g.slabs| - 1, size, a);
  }

  lemma FrontStaysInTake(h: Heap, i: nat, size: nat, a: nat)
    requires WF(h) && h.root.Some? && h.slabs[0].use.Live? && 0 < i < |h.slabs| && h.slabs[i].use.Free? && a > 0
    ensures var s := Take(h, i, size, a).0.slabs; s != [] && s[0].use.Live?
  {
  }

  /** While the first block stays live the exit is never reached. */
  lemma {:induction false} NoExitOverRuns(m: Machine, ops: seq<Op>)
    requires WF(m.heap) && LegalRun(m, ops) && Anchored(m) && ModestRun(ops) && Return(1) !in ops
    ensures Anchored(Run(m, ops))
    decreases |ops|
  {
    if ops != [] {
      assert ops[0] in ops;
      AnchoredStep(m, ops[0]);
      NoExitOverRuns(Step(m, ops[0]), ops[1..]);
    }
  }

  /** A word-aligned first request that succeeds puts the anchor in place, as `dandelion_init`
      does when there are input sets; no later request can then reach the exit. */
  lemma NoExitAfterInit(limit: nat, bytes: nat, alignment: nat, ops: seq<Op>)
    requires limit < FLAG && alignment <= 8 && Alloc(Boot(limit).heap, bytes, alignment).1.Block?
    requires LegalRun(Boot(limit), [Op.Request(bytes, alignment)] + ops)
    requires ModestRun(ops) && Return(1) !in ops
    ensures !Run(Boot(limit), [Op.Request(bytes, alignment)] + ops).halted
  {
    var op := Op.Request(bytes, alignment);
    assert ([op] + ops)[1..] == ops;
    FirstBlockAnchors(Boot(limit), bytes, alignment);
    NoExitOverRuns(Step(Boot(limit), op), ops);
  }

  lemma FirstBlockAnchors(m: Machine, bytes: nat, alignment: nat)
    requires WF(m.heap) && m.heap.root.None? && !m.halted && alignment <= 8
    requires Alloc(m.heap, bytes, alignment).1.Block?
    ensures Anchored(Step(m, Op.Request(bytes, alignment)))
  {
    var size := Words(bytes);
    var f := FirstSlab(m.heap, size, 1);
    FirstSlabWF(m.heap, size, 1);
    GrowthFits(m.heap, size, 1);
    OneSlabAnchors(f, size);
  }

  lemma OneSlabAnchors(f: Heap, size: nat)
    requires WF(f) && f.root.Some? && 0 < size <= WORD_RANGE && |f.slabs| == 1 && f.slabs[0].use.Free?
    requires Fits(f.slabs[0], size, 1)
    ensures var h := AllocReady(f, size, 1).0; |h.slabs| > 0 && h.slabs[0].use.Live?
  {
    assert SomeFits(f.slabs, size, 1);
    RequestOutcome(f, size, 1);
    assert Padding(f.slabs[0].start, 1) == 0;
  }

  /** Without the anchor it is: a 16-byte aligned first request leaves the one-word free slab in
      front, and from then on a 16-byte aligned request that needs growth ends the program. */
  lemma SixteenByteStartExits(h: Heap, first: nat, second: nat)
    requires WF(h) && h.root.None? && Alloc(h, first, 16).1.Block?
    requires HeapLaws.Request(second) && !SomeFits(Alloc(h, first, 16).0.slabs, Words(second), 2)
    ensures WF(Alloc(h, first, 16).0) && Alloc(Alloc(h, first, 16).0, second, 16).1 == Exited
  {
    var size := Words(first);
    var f := FirstSlab(h, size, 2);
    FirstSlabWF(h, size, 2);
    GrowthFits(h, size, 2);
    OneSlabKeepsFront(f, size);
    AllocWF(h, first, 16);
    ExitIff(Alloc(h, first, 16).0, second, 16);
  }

  /** For instance sixteen bytes first and 64 KB after that, on a heap of a megabyte. */
  lemma SixteenByteStartExitsAt(h: Heap, first: nat, second: nat)
    requires h == Boot(0x10_0000).heap && first == 16 && second == 0x1_0000
    ensures WF(h) && Alloc(h, first, 16).1.Block? && WF(Alloc(h, first, 16).0)
    ensures Alloc(Alloc(h, first, 16).0, second, 16).1 == Exited
  {
    SixteenBytesFirst(h, first);
    NoRoomLeft(Alloc(h, first, 16).0.slabs, second);
    SixteenByteStartExits(h, first, second);
  }

  lemma NoRoomLeft(s: seq<Slab>, bytes: nat)
    requires s == [Slab(0, 0, Free), Slab(1, 4, Live(2)), Slab(5, 510, Free)] && 0x1_0000 <= bytes < FLAG
    ensures HeapLaws.Request(bytes) && !SomeFits(s, Words(bytes), 2)
  {
    assert Words(bytes) >= 0x2000;
  }

  lemma SixteenBytesFirst(h: Heap, first: nat)
    requires h == Boot(0x10_0000).heap && first == 16
    ensures WF(h) && Alloc(h, first, 16).1.Block?
    ensures Alloc(h, first, 16).0.slabs == [Slab(0, 0, Free), Slab(1, 4, Live(2)), Slab(5, 510, Free)]
  {
    var f := FirstSlab(h, 2, 2);
    FirstAlloc(h, 2, 2);
    RequestOutcome(f, 2, 2);
    ModestPadding(0, 2);
    var c := f.slabs[0];
    assert |f.slabs| == 1 && c == Slab(0, 510, Free);
    assert Cut(c, 2, 2) == [Slab(0, 0, Free), Slab(1, 4, Live(2)), Slab(5, 510, Free)];
    assert Place(f.slabs, 0, 2, 2) == f.slabs[..0] + Cut(c, 2, 2) + f.slabs[1..];
  }

  lemma OneSlabKeepsFront(f: Heap, size: nat)
    requires WF(f) && f.root.Some? && 0 < size <= WORD_RANGE && |f.slabs| == 1 && Fits(f.slabs[0], size, 2)
    ensures var h := AllocReady(f, size, 2).0; |h.slabs| > 0 && h.slabs[0] == Slab(0, 0, Free) && h.root.Some?
  {
    assert SomeFits(f.slabs, size, 2);
    RequestOutcome(f, size, 2);
    ModestPadding(0, 2);
  }

  // ---------------------------------------------------------------- a heap without foreign blocks

  ghost predicate Whole(h: Heap) {
    h.root.Some? ==> Contiguous(h) && NoForeign(h.slabs)
  }

  lemma PlaceForeign(s: seq<Slab>, i: nat, size: nat, a: nat)
    requires i < |s| && a > 0 && Fits(s[i], size, a) && NoForeign(s)
    requires PadsPredecessor(s[i], a) ==> i > 0
    ensures NoForeign(Place(s, i, size, a))
  {
    var t, mid := Place(s, i, size, a), Cut(s[i], size, a);
    assert forall c | c in mid :: !c.use.Foreign?;
    if PadsPredecessor(s[i], a) {
      assert s[i - 1] in s;
      assert forall c | c in t :: c in s || c in mid || c.use == s[i - 1].use;
    } else {
      assert forall c | c in t :: c in s || c in mid;
    }
  }

  lemma GrowWhole(h: Heap, size: nat, a: nat)
    requires WF(h) && h.root.Some? && Whole(h) && a > 0
    ensures Whole(Grow(h, size, a))
  {
    GrowthIsEnough(size, a);
    var g := Grow(h, size, a);
    assert forall c | c in g.slabs :: c in h.slabs || c.use.Free?;
  }

  lemma AllocWhole(h: Heap, size: nat, a: nat)
    requires WF(h) && h.root.Some? && Whole(h) && a > 0 && size > 0
    ensures Whole(AllocReady(h, size, a).0)
  {
    var b := Scan(h.slabs, |h.slabs|, size, a);
    ScanChoosesFree(h.slabs, |h.slabs|, size, a);
    if b.1 != MAX_VAL {
      if Fits(h.slabs[b.0], size, a) {
        PlaceForeign(h.slabs, b.0, size, a);
      }
    } else if CanSbrk(h, GetSbrkSize(size, a)) {
      GrowWF(h, size, a);
      GrowWhole(h, size, a);
      var g := Grow(h, size, a);
      if Fits(g.slabs[|g.slabs| - 1], size, a) {
        PlaceForeign(g.slabs, |g.slabs| - 1, size, a);
      }
    }
  }

  lemma {:induction false} WholeOverRuns(m: Machine, ops: seq<Op>)
    requires WF(m.heap) && LegalRun(m, ops) && Whole(m.heap)
    requires forall op | op in ops :: !op.ForeignSbrk?
    ensures Whole(Run(m, ops).heap)
    decreases |ops|
  {
    if ops != [] {
      var h, op := m.heap, ops[0];
      assert op in ops;
      if !m.halted {
        match op
        case Request(bytes, alignment) =>
          var size, a := Words(bytes), AlignWords(alignment);
          if HeapLaws.Request(bytes) && h.root.None? && CanSbrk(h, GetSbrkSize(size, a)) {
            FirstSlabWF(h, size, a);
            GrowthIsEnough(size, a);
            AllocWhole(FirstSlab(h, size, a), size, a);
          } else if HeapLaws.Request(bytes) && h.root.Some? {
            AllocWhole(h, size, a);
          }
        case Return(at) => MergeForeign(h.slabs, Locate(h.slabs, at));
        case ForeignSbrk(bytes) =>
        case Write(word, value) =>
      }
      WholeOverRuns(Step(m, op), ops[1..]);
    }
  }

  /** After any run without foreign blocks, releasing what is live, in any order, leaves one
      free slab that covers the heap. */
  lemma RunThenReleaseAll(limit: nat, ops: seq<Op>, h: Heap, order: seq<nat>)
    requires limit < FLAG && LegalRun(Boot(limit), ops) && forall op | op in ops :: !op.ForeignSbrk?
    requires h == Run(Boot(limit), ops).heap && h.root.Some?
    requires Lists(h, order)
    ensures h.last > 0 && CanReleaseAll(h, order) && ReleaseAll(h, order) == OneSlab(h)
  {
    WholeOverRuns(Boot(limit), ops);
    ReleasingAllCoalesces(h, order);
  }
}
