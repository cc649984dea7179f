/** Memory that callers take with dandelion_sbrk itself: it is theirs from then on, whatever the
    allocator does afterwards. */
module Breaks {
  import opened Prelude
  import opened SlabHeap
  import opened HeapLaws
  import opened HeapRuns
  import opened Allocator

  // ---------------------------------------------------------------- one call

  /** The break moves by the bytes asked for and less than a word more, exactly if they fit below the limit. */
  lemma SbrkExact(h: Heap, bytes: nat)
    ensures var h' := Sbrk(h, bytes);
            && h' == h.(brk := h'.brk)
            && (8 * h.brk + bytes <= h.limit ==> 8 * h.brk + bytes <= 8 * h'.brk < 8 * h.brk + bytes + 8)
            && (8 * h.brk + bytes > h.limit ==> h'.brk == h.brk)
  {
  }

  /** A word inside a foreign slab. */
  ghost predicate Lent(s: seq<Slab>, x: nat) {
    exists c | c in s :: c.use.Foreign? && c.start < x < c.end
  }

  /** Word `x`, by absolute index, was taken with dandelion_sbrk by someone else than the allocator. */
  ghost predicate HandedOut(h: Heap, x: nat) {
    match h.root
    case None => x < h.brk
    case Some(r) => x < r || (r + h.last < x < h.brk) || (x >= r && Lent(h.slabs, x - r))
  }

  lemma HandedOutIsProtected(h: Heap, x: nat)
    requires HandedOut(h, x)
    ensures Protected(h, x)
  {
  }

  /** Every byte handed out lies in a word that was nobody's before and is the caller's after. */
  lemma SbrkHandsOut(h: Heap, bytes: nat, x: nat)
    requires WF(h) && 8 * h.brk + bytes <= h.limit && h.brk <= x && 8 * x < 8 * h.brk + bytes
    ensures !Protected(h, x) && HandedOut(Sbrk(h, bytes), x) && Protected(Sbrk(h, bytes), x)
  {
    BeyondBreakUnowned(h, x);
    SbrkExact(h, bytes);
    HandedOutIsProtected(Sbrk(h, bytes), x);
  }

  // ---------------------------------------------------------------- what becomes of foreign slabs

  /** Foreign slabs of `s` are in `t`, perhaps longer at the end. */
  ghost predicate ForeignKept(s: seq<Slab>, t: seq<Slab>) {
    forall c | c in s && c.use.Foreign? :: exists d | d in t :: d.use.Foreign? && d.start == c.start && c.end <= d.end
  }

  lemma LentStays(s: seq<Slab>, t: seq<Slab>, x: nat)
    requires Lent(s, x) && ForeignKept(s, t)
    ensures Lent(t, x)
  {
  }

  /** Replacing slabs none of which is foreign. */
  lemma SpliceKeepsForeign(s: seq<Slab>, i: nat, j: nat, mid: seq<Slab>)
    requires i <= j <= |s| && forall k | i <= k < j :: !s[k].use.Foreign?
    ensures ForeignKept(s, s[..i] + mid + s[j..])
  {
    var t := s[..i] + mid + s[j..];
    forall c | c in s && c.use.Foreign? ensures c in t {
      var k :| 0 <= k < |s| && s[k] == c;
      assert k < i || k >= j;
      if k < i {
        assert t[k] == c;
      } else {
        assert t[k - j + i + |mid|] == c;
      }
    }
  }

  /** Giving padding to the slab in front, which may be a foreign one. */
  lemma PaddingKeepsForeign(s: seq<Slab>, i: nat, p: Slab, mid: seq<Slab>)
    requires 0 < i < |s| && s[i].use.Free? && s[i - 1].end <= p.end && p == s[i - 1].(end := p.end)
    ensures ForeignKept(s, s[..i - 1] + ([p] + mid) + s[i + 1..])
  {
    var t := s[..i - 1] + ([p] + mid) + s[i + 1..];
    assert t[i - 1] == p;
    forall c | c in s && c.use.Foreign?
      ensures exists d | d in t :: d.use.Foreign? && d.start == c.start && c.end <= d.end
    {
      var k :| 0 <= k < |s| && s[k] == c;
      var d := if k == i - 1 then p else c;
      assert k != i;
      assert d in t by {
        if k < i - 1 {
          assert t[k] == c;
        } else if k > i {
          assert t[k + |mid| - 1] == c;
        }
      }
    }
  }

  lemma PlaceKeepsForeign(s: seq<Slab>, hi: nat, i: nat, size: nat, a: nat)
    requires Shape(s, 0, hi) && i < |s| && a > 0 && size > 0 && Fits(s[i], size, a)
    requires PadsPredecessor(s[i], a) ==> i > 0
    ensures ForeignKept(s, Place(s, i, size, a))
  {
    if PadsPredecessor(s[i], a) {
      assert Joined(s[i - 1], s[i]);
      PaddingKeepsForeign(s, i, s[i - 1].(end := s[i].start + Padding(s[i].start, a) - 1), Cut(s[i], size, a));
    } else {
      SpliceKeepsForeign(s, i, i + 1, Cut(s[i], size, a));
    }
  }

  lemma MergeKeepsForeign(s: seq<Slab>, k: nat)
    requires k < |s| && s[k].use.Live?
    ensures ForeignKept(s, Merge(s, k))
  {
    var i, j := MergeFrom(s, k), MergeTo(s, k);
    SpliceKeepsForeign(s, i, j, [Slab(s[i].start, s[j - 1].end, Free)]);
  }

  // ---------------------------------------------------------------- every step keeps what was handed out

  lemma GrowKeepsHandedOut(h: Heap, size: nat, a: nat, x: nat)
    requires WF(h) && h.root.Some? && CanSbrk(h, GetSbrkSize(size, a)) && a > 0 && HandedOut(h, x)
    ensures HandedOut(Grow(h, size, a), x)
  {
    var g, s, r := Grow(h, size, a), h.slabs, h.root.value;
    GrowthIsEnough(size, a);
    if x >= r && Lent(s, x - r) {
      GrowKeepsForeign(h, size, a);
      LentStays(s, g.slabs, x - r);
    } else if x > r + h.last && !Contiguous(h) {
      assert g.slabs[|s|] in g.slabs;
    }
  }

  lemma GrowKeepsForeign(h: Heap, size: nat, a: nat)
    requires WF(h) && h.root.Some?
    ensures ForeignKept(h.slabs, Grow(h, size, a).slabs)
  {
    var g, s, n := Grow(h, size, a).slabs, h.slabs, |h.slabs|;
    if Contiguous(h) && EndsFree(s) {
      assert s[n..] == [] && s[..n - 1] + [g[n - 1]] + s[n..] == g;
      SpliceKeepsForeign(s, n - 1, n, [g[n - 1]]);
    } else {
      assert s[..n] == s && s[n..] == [] && s[..n] + g[n..] + s[n..] == g;
      SpliceKeepsForeign(s, n, n, g[n..]);
    }
  }

  lemma TakeKeepsHandedOut(h: Heap, i: nat, size: nat, a: nat, x: nat)
    requires WF(h) && h.root.Some? && i < |h.slabs| && h.slabs[i].use.Free? && a > 0 && size > 0 && HandedOut(h, x)
    ensures (i == 0 ==> h.slabs[0].start == 0) && HandedOut(Take(h, i, size, a).0, x)
  {
    if Fits(h.slabs[i], size, a) {
      PlaceShape(h.slabs, h.last, i, size, a);
      PlaceKeepsForeign(h.slabs, h.last, i, size, a);
      if x >= h.root.value && Lent(h.slabs, x - h.root.value) {
        LentStays(h.slabs, Place(h.slabs, i, size, a), x - h.root.value);
      }
    }
  }

  lemma ReadyKeepsHandedOut(h: Heap, size: nat, a: nat, x: nat)
    requires WF(h) && h.root.Some? && a > 0 && size > 0 && HandedOut(h, x)
    ensures HandedOut(AllocReady(h, size, a).0, x)
  {
    var b := Scan(h.slabs, |h.slabs|, size, a);
    ScanChoosesFree(h.slabs, |h.slabs|, size, a);
    if b.1 != MAX_VAL {
      TakeKeepsHandedOut(h, b.0, size, a, x);
    } else if CanSbrk(h, GetSbrkSize(size, a)) {
      GrowWF(h, size, a);
      GrowKeepsHandedOut(h, size, a, x);
      var g := Grow(h, size, a);
      TakeKeepsHandedOut(g, |g.slabs| - 1, size, a, x);
    }
  }

  lemma AllocKeepsHandedOut(h: Heap, bytes: nat, alignment: nat, x: nat)
    requires WF(h) && HandedOut(h, x)
    ensures HandedOut(Alloc(h, bytes, alignment).0, x)
  {
    var size, a := Words(bytes), AlignWords(alignment);
    if HeapLaws.Request(bytes) {
      if h.root.Some? {
        ReadyKeepsHandedOut(h, size, a, x);
      } else if CanSbrk(h, GetSbrkSize(size, a)) {
        FirstSlabWF(h, size, a);
        ReadyKeepsHandedOut(FirstSlab(h, size, a), size, a, x);
      }
    }
  }

  lemma ReleaseKeepsHandedOut(h: Heap, at: nat, x: nat)
    requires HandedOut(h, x) && exists k: nat :: LiveAt(h.slabs, k, at)
    ensures HandedOut(Release(h, at), x)
  {
    var k := Locate(h.slabs, at);
    MergeKeepsForeign(h.slabs, k);
    if h.root.Some? && x >= h.root.value && Lent(h.slabs, x - h.root.value) {
      LentStays(h.slabs, Merge(h.slabs, k), x - h.root.value);
    }
  }

  lemma StepKeepsHandedOut(m: Machine, op: Op, x: nat)
    requires WF(m.heap) && Legal(m.heap, op) && HandedOut(m.heap, x)
    ensures HandedOut(Step(m, op).heap, x)
  {
    if !m.halted {
      match op
      case Request(bytes, alignment) => AllocKeepsHandedOut(m.heap, bytes, alignment, x);
      case Return(at) => ReleaseKeepsHandedOut(m.heap, at, x);
      case ForeignSbrk(bytes) => SbrkExact(m.heap, bytes);
      case Write(word, value) =>
    }
  }

  lemma {:induction false} HandedOutOverRuns(m: Machine, ops: seq<Op>, x: nat)
    requires WF(m.heap) && LegalRun(m, ops) && HandedOut(m.heap, x)
    ensures HandedOut(Run(m, ops).heap, x)
    decreases |ops|
  {
    if ops != [] {
      StepKeepsHandedOut(m, ops[0], x);
      HandedOutOverRuns(Step(m, ops[0]), ops[1..], x);
    }
  }

  /** Bytes taken with dandelion_sbrk are on words nobody had, and stay their taker's over every later run. */
  lemma TakenForGood(m: Machine, bytes: nat, ops: seq<Op>, x: nat)
    requires WF(m.heap) && !m.halted && Legal(m.heap, ForeignSbrk(bytes)) && LegalRun(Step(m, ForeignSbrk(bytes)), ops)
    requires 8 * m.heap.brk + bytes <= m.heap.limit && m.heap.brk <= x && 8 * x < 8 * m.heap.brk + bytes
    ensures !Protected(m.heap, x) && Protected(Run(Step(m, ForeignSbrk(bytes)), ops).heap, x)
  {
    SbrkHandsOut(m.heap, bytes, x);
    HandedOutOverRuns(Step(m, ForeignSbrk(bytes)), ops, x);
    HandedOutIsProtected(Run(Step(m, ForeignSbrk(bytes)), ops).heap, x);
  }

  // ---------------------------------------------------------------- what a caller has written

  /** A word is forgotten only when the block it lies in is given back. */
  lemma WrittenStays(m: Machine, op: Op, x: nat)
    requires WF(m.heap) && Legal(m.heap, op) && x in m.written && !m.halted
    ensures op.Return? && m.heap.root.Some? ==>
              var r := m.heap.root.value;
              x in Step(m, op).written || exists c | c in m.heap.slabs :: c.use.Live? && c.start + 1 == op.at
                                                        && r + c.start < x < r + c.end
    ensures !op.Return? ==> x in Step(m, op).written
    ensures x in Step(m, op).written && !(op.Write? && op.word == x) ==> Step(m, op).written[x] == m.written[x]
    ensures op.Write? ==> op.word in Step(m, op).written && Step(m, op).written[op.word] == op.value
  {
    if op.Return? && m.heap.root.Some? {
      var c := m.heap.slabs[Locate(m.heap.slabs, op.at)];
      assert c in m.heap.slabs && c.use.Live? && c.start + 1 == op.at;
    }
  }
}
