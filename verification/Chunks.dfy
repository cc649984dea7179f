/** File contents as chains of chunks, and the flat byte string they stand for. */
module Chunks {
  import opened Prelude

  type Byte = int

  const CHUNK_SIZE: nat := 4096

  /** `bytes` are the used bytes of the buffer, so `used` is their number. */
  datatype Chunk = Chunk(bytes: seq<Byte>, capacity: nat)

  type Chain = seq<Chunk>

  /** The bytes of the first `n` chunks. */
  function FlatTo(c: Chain, n: nat): seq<Byte>
    requires n <= |c|
  {
    if n == 0 then [] else FlatTo(c, n - 1) + c[n - 1].bytes
  }

  function Flat(c: Chain): seq<Byte> {
    FlatTo(c, |c|)
  }

  /** Where chunk `i` begins in the flat file. */
  function Start(c: Chain, i: nat): nat
    requires i <= |c|
  {
    |FlatTo(c, i)|
  }

  /** allocate_file_chunk rounds up to whole chunks. */
  function RoundUp(n: nat): nat {
    ((n + CHUNK_SIZE - 1) / CHUNK_SIZE) * CHUNK_SIZE
  }

  // ---------------------------------------------------------------- laws of flattening

  lemma {:induction false} FlatSplit(c: Chain, i: nat, j: nat)
    requires i <= j <= |c|
    ensures Start(c, i) <= Start(c, j) && FlatTo(c, j)[..Start(c, i)] == FlatTo(c, i)
  {
    if i < j {
      FlatSplit(c, i, j - 1);
    }
  }

  lemma {:induction false} SamePrefix(c: Chain, d: Chain, n: nat)
    requires n <= |c| && n <= |d| && c[..n] == d[..n]
    ensures FlatTo(c, n) == FlatTo(d, n)
  {
    if n > 0 {
      assert c[..n - 1] == c[..n][..n - 1] && d[..n - 1] == d[..n][..n - 1];
      SamePrefix(c, d, n - 1);
      assert c[n - 1] == c[..n][n - 1] && d[n - 1] == d[..n][n - 1];
    }
  }

  /** Chunk `i` is a stretch of the flat file. */
  lemma ChunkInFlat(c: Chain, i: nat)
    requires i < |c|
    ensures Start(c, i + 1) == Start(c, i) + |c[i].bytes| <= |Flat(c)|
    ensures Flat(c)[Start(c, i)..Start(c, i + 1)] == c[i].bytes
  {
    FlatSplit(c, i + 1, |c|);
    var f := Flat(c);
    assert f[Start(c, i)..Start(c, i + 1)] == f[..Start(c, i + 1)][Start(c, i)..];
  }

  lemma AppendChunk(c: Chain, x: Chunk)
    ensures Flat(c + [x]) == Flat(c) + x.bytes
  {
    SamePrefix(c + [x], c, |c|);
  }

  // ---------------------------------------------------------------- a place in a file

  /** A chunk of the chain and an offset no further than its used mark. */
  ghost predicate Place(c: Chain, i: nat, offset: nat) {
    i < |c| && offset <= |c[i].bytes|
  }

  /** Where a read or an absolute seek lands, `k` bytes from the start of chunk `i`: in the first
      chunk that reaches that far. */
  function Find(c: Chain, i: nat, k: nat): (r: (nat, nat))
    requires i < |c|
    ensures i <= r.0 < |c|
    decreases |c| - i
  {
    if k <= |c[i].bytes| || i + 1 == |c| then (i, k) else Find(c, i + 1, k - |c[i].bytes|)
  }

  lemma {:induction false} FindPlace(c: Chain, i: nat, k: nat)
    requires i < |c|
    ensures var (j, o) := Find(c, i, k); Start(c, j) + o == Start(c, i) + k
    ensures var (j, o) := Find(c, i, k); Start(c, i) + k <= |Flat(c)| ==> Place(c, j, o)
    decreases |c| - i
  {
    ChunkInFlat(c, i);
    if k > |c[i].bytes| && i + 1 < |c| {
      FindPlace(c, i + 1, k - |c[i].bytes|);
    }
  }

  // ---------------------------------------------------------------- reading

  /** Bytes left in chunk `i` behind `offset`. */
  function Readable(c: Chain, i: nat, offset: nat): nat
    requires i < |c| && offset <= |c[i].bytes|
  {
    |c[i].bytes| - offset
  }

  /** The read loop: how many bytes it hands out, and where it stops.  It moves on from a chunk that
      does not hold more than `len` bytes, but never reduces `len`. */
  function ReadLoop(c: Chain, i: nat, offset: nat, len: nat): (r: (nat, nat, nat))
    requires i < |c| && offset <= |c[i].bytes|
    ensures i <= r.1 < |c| && r.2 <= |c[r.1].bytes|
    decreases |c| - i
  {
    var n := Readable(c, i, offset);
    if n > len then (len, i, offset + len)
    else if i + 1 < |c| then
      var r := ReadLoop(c, i + 1, 0, len);
      (n + r.0, r.1, r.2)
    else (n, i, |c[i].bytes|)
  }

  /** Before the first chunk with more than `len` bytes left there is nothing to read. */
  predicate LongChunkFirst(c: Chain, i: nat, offset: nat, len: nat)
    requires i < |c| && offset <= |c[i].bytes|
    decreases |c| - i
  {
    var n := Readable(c, i, offset);
    n > len || (n == 0 && i + 1 < |c| && LongChunkFirst(c, i + 1, 0, len))
  }

  /** Bytes from a place to the end of the file. */
  function Remaining(c: Chain, i: nat, offset: nat): int
    requires i <= |c|
  {
    |Flat(c)| - Start(c, i) - offset
  }

  /** The loop stops as many bytes further as it handed out, inside the file. */
  lemma {:induction false} ReadAdvances(c: Chain, i: nat, offset: nat, len: nat)
    requires Place(c, i, offset)
    ensures var (n, j, o) := ReadLoop(c, i, offset, len);
            Start(c, j) + o == Start(c, i) + offset + n <= |Flat(c)|
    decreases |c| - i
  {
    ChunkInFlat(c, i);
    var n := Readable(c, i, offset);
    if n <= len && i + 1 < |c| {
      ReadAdvances(c, i + 1, 0, len);
    }
  }

  lemma {:induction false} ReadCount(c: Chain, i: nat, offset: nat, len: nat)
    requires Place(c, i, offset) && len > 0
    ensures var n, rest := ReadLoop(c, i, offset, len).0, Remaining(c, i, offset);
            && 0 <= n <= rest
            && (n < rest ==> n >= len)
            && (n == len && len < rest <==> LongChunkFirst(c, i, offset, len))
    decreases |c| - i
  {
    ChunkInFlat(c, i);
    var n := Readable(c, i, offset);
    if n <= len && i + 1 < |c| {
      ReadCount(c, i + 1, 0, len);
    }
  }

  /** What chunk `k` has left for a read that begins in chunk `i` at `offset`. */
  function Left(c: Chain, i: nat, offset: nat, k: nat): int
    requires i <= k < |c|
  {
    |c[k].bytes| - if k == i then offset else 0
  }

  /** `j` is the first chunk, from the place on, with more than `len` bytes left, or the end of the chain
      if there is none. */
  predicate FirstLong(c: Chain, i: nat, offset: nat, len: nat, j: nat) {
    && i <= j <= |c| && (j < |c| ==> Left(c, i, offset, j) > len)
    && forall k | i <= k < j :: Left(c, i, offset, k) <= len
  }

  /** The count of a read: all bytes before the first chunk with more than `len` left and then `len`
      more, or all there are if no chunk has. */
  lemma {:induction false} ReadCountIs(c: Chain, i: nat, offset: nat, len: nat, j: nat)
    requires Place(c, i, offset) && FirstLong(c, i, offset, len, j)
    ensures ReadLoop(c, i, offset, len).0 ==
            if j == i then len
            else if j < |c| then |FlatTo(c, j)| - |FlatTo(c, i)| - offset + len
            else |Flat(c)| - |FlatTo(c, i)| - offset
    decreases |c| - i
  {
    assert |FlatTo(c, i + 1)| == |FlatTo(c, i)| + |c[i].bytes|;
    if j > i {
      assert Left(c, i, offset, i) <= len;
      if i + 1 < |c| {
        var next := i + 1;
        forall k | next <= k < j ensures Left(c, next, 0, k) <= len {
          assert Left(c, i, offset, k) <= len;
        }
        ReadCountIs(c, next, 0, len, j);
      }
    }
  }

  /** A read hands out what a flat file would exactly when it reaches the end of the file, or finds
      all it wants in the first chunk that holds anything. */
  lemma ReadExactIff(c: Chain, i: nat, offset: nat, len: nat)
    requires Place(c, i, offset) && len > 0
    ensures var n, rest := ReadLoop(c, i, offset, len).0, Remaining(c, i, offset);
            n == (if len < rest then len else rest) <==> rest <= len || LongChunkFirst(c, i, offset, len)
  {
    ReadCount(c, i, offset, len);
  }

  /** An input of three bytes and three more written behind it: a request for four hands out all six. */
  lemma ReadTooMuch(c: Chain)
    requires c == [Chunk([1, 2, 3], 3), Chunk([4, 5, 6], CHUNK_SIZE)]
    ensures ReadLoop(c, 0, 0, 4).0 == 6
  {
    assert ReadLoop(c, 1, 0, 4).0 == 3;
  }

  // ---------------------------------------------------------------- writing at the used mark

  /** Buffers hold what is used of them. */
  ghost predicate Sound(c: Chain) {
    forall k | 0 <= k < |c| :: |c[k].bytes| <= c[k].capacity
  }

  function Min(a: nat, b: nat): nat {
    if a < b then a else b
  }

  /** The write loop: fills the current chunk from its used mark; what does not fit goes to a new
      chunk linked right behind it. */
  function Extend(c: Chain, cur: nat, data: seq<Byte>): (r: (Chain, nat))
    requires cur < |c| && |c[cur].bytes| <= c[cur].capacity
    ensures r.1 < |r.0|
  {
    var x := c[cur];
    var k := Min(|data|, x.capacity - |x.bytes|);
    var filled := c[cur := x.(bytes := x.bytes + data[..k])];
    if k == |data| then (filled, cur)
    else (filled[..cur + 1] + [Chunk(data[k..], RoundUp(|data| - k))], cur + 1)
  }

  lemma RoundUpHolds(n: nat)
    ensures n <= RoundUp(n) < n + CHUNK_SIZE && RoundUp(n) % CHUNK_SIZE == 0
  {
  }

  /** What a write makes of the flat file: the bytes go in behind the current chunk, and if they need
      a new chunk everything that followed is gone. */
  lemma ExtendFlat(c: Chain, cur: nat, data: seq<Byte>)
    requires cur < |c| && |c[cur].bytes| <= c[cur].capacity
    ensures var f, s := Flat(c), Start(c, cur + 1);
            s <= |f| && Flat(Extend(c, cur, data).0) ==
              f[..s] + data + (if |data| <= c[cur].capacity - |c[cur].bytes| then f[s..] else [])
  {
    var x, f, s := c[cur], Flat(c), Start(c, cur + 1);
    var k := Min(|data|, x.capacity - |x.bytes|);
    var filled := c[cur := x.(bytes := x.bytes + data[..k])];
    FlatSplit(c, cur + 1, |c|);
    SamePrefix(c, filled, cur);
    assert FlatTo(filled, cur + 1) == f[..s] + data[..k];
    if k == |data| {
      assert data[..k] == data;
      SameSuffix(c, filled, cur + 1, |c|);
    } else {
      var cut := filled[..cur + 1];
      SamePrefix(cut, filled, cur + 1);
      AppendChunk(cut, Chunk(data[k..], RoundUp(|data| - k)));
      assert f[..s] + data[..k] + data[k..] == f[..s] + data + [];
    }
  }

  lemma {:induction false} SameSuffix(c: Chain, d: Chain, i: nat, n: nat)
    requires i <= n <= |c| == |d| && forall k | i <= k < n :: c[k] == d[k]
    ensures Start(c, i) <= Start(c, n)
    ensures FlatTo(d, n) == FlatTo(d, i) + FlatTo(c, n)[Start(c, i)..]
  {
    FlatSplit(c, i, n);
    if i < n {
      SameSuffix(c, d, i, n - 1);
      FlatSplit(c, i, n - 1);
      var a, b := FlatTo(c, n - 1), c[n - 1].bytes;
      assert (a + b)[Start(c, i)..] == a[Start(c, i)..] + b;
    }
  }

  /** Writes append, whatever the bytes, exactly when no bytes follow the current chunk. */
  lemma AppendsIff(c: Chain, cur: nat, n: nat)
    requires cur < |c| && |c[cur].bytes| <= c[cur].capacity && n > 0
    ensures (forall data: seq<Byte> | |data| == n :: Flat(Extend(c, cur, data).0) == Flat(c) + data)
            <==> Start(c, cur + 1) == |Flat(c)|
  {
    var f, s := Flat(c), Start(c, cur + 1);
    FlatSplit(c, cur + 1, |c|);
    if s == |f| {
      forall data: seq<Byte> | |data| == n ensures Flat(Extend(c, cur, data).0) == f + data {
        ExtendFlat(c, cur, data);
        assert f[..s] == f && f[s..] == [];
      }
    } else {
      var data := seq(n, _ => f[s] + 1);
      ExtendFlat(c, cur, data);
      var g := Flat(Extend(c, cur, data).0);
      assert g[s] == data[0] && (f + data)[s] == f[s];
    }
  }

  // ---------------------------------------------------------------- a file written from start to end

  /** One write by a descriptor that has not been moved in between. */
  function WriteOnce(c: Chain, cur: nat, data: seq<Byte>): (Chain, nat)
    requires data != [] && (c != [] ==> cur < |c| && |c[cur].bytes| <= c[cur].capacity)
  {
    RoundUpHolds(|data|);
    if c == [] then Extend([Chunk([], RoundUp(|data|))], 0, data) else Extend(c, cur, data)
  }

  /** All chunks full but the last, whose buffer is as small as whole chunks allow. */
  ghost predicate Packed(c: Chain) {
    && c != []
    && (forall k | 0 <= k < |c| - 1 :: |c[k].bytes| == c[k].capacity && c[k].capacity % CHUNK_SIZE == 0)
    && var x := c[|c| - 1]; x.bytes != [] && x.capacity == RoundUp(|x.bytes|)
  }

  lemma RoundUpSame(a: nat, b: nat)
    requires 0 < a <= b <= RoundUp(a)
    ensures RoundUp(b) == RoundUp(a)
  {
  }

  lemma WriteOncePacks(c: Chain, data: seq<Byte>)
    requires data != [] && (c == [] || Packed(c))
    ensures c != [] ==> |c[|c| - 1].bytes| <= c[|c| - 1].capacity
    ensures var (d, cur) := WriteOnce(c, if c == [] then 0 else |c| - 1, data);
            Packed(d) && cur == |d| - 1 && Flat(d) == Flat(c) + data
  {
    RoundUpHolds(|data|);
    if c == [] {
      var e := [Chunk([], RoundUp(|data|))];
      ExtendFlat(e, 0, data);
      assert FlatTo(e, 1) == FlatTo(e, 0) + e[0].bytes == [];
      assert [] + data == data && data + [] == data;
    } else {
      var x := c[|c| - 1];
      RoundUpHolds(|x.bytes|);
      ExtendFlat(c, |c| - 1, data);
      var k := Min(|data|, x.capacity - |x.bytes|);
      RoundUpSame(|x.bytes|, |x.bytes| + k);
      assert Flat(c)[..|Flat(c)|] == Flat(c) && Flat(c)[|Flat(c)|..] == [];
    }
  }

  function WriteAll(writes: seq<seq<Byte>>): (r: (Chain, nat))
    requires forall k | 0 <= k < |writes| :: writes[k] != []
    ensures writes == [] ==> r == ([], 0)
    ensures writes != [] ==> Packed(r.0) && r.1 == |r.0| - 1
  {
    if writes == [] then ([], 0)
    else
      var n := |writes| - 1;
      var (c, cur) := WriteAll(writes[..n]);
      WriteOncePacks(c, writes[n]);
      WriteOnce(c, cur, writes[n])
  }

  function Joined(writes: seq<seq<Byte>>): seq<Byte> {
    if writes == [] then [] else Joined(writes[..|writes| - 1]) + writes[|writes| - 1]
  }

  function TotalCapacity(c: Chain): nat {
    if c == [] then 0 else TotalCapacity(c[..|c| - 1]) + c[|c| - 1].capacity
  }

  lemma {:induction false} FullCapacity(c: Chain, n: nat)
    requires n <= |c| && forall k | 0 <= k < n :: |c[k].bytes| == c[k].capacity && c[k].capacity % CHUNK_SIZE == 0
    ensures TotalCapacity(c[..n]) == Start(c, n) && Start(c, n) % CHUNK_SIZE == 0
  {
    if n > 0 {
      FullCapacity(c, n - 1);
      assert c[..n][..n - 1] == c[..n - 1];
    }
  }

  lemma PackedCapacity(c: Chain)
    requires Packed(c)
    ensures TotalCapacity(c) == RoundUp(|Flat(c)|)
  {
    var n := |c| - 1;
    FullCapacity(c, n);
    RoundUpBehind(Start(c, n), |c[n].bytes|);
  }

  lemma RoundUpBehind(a: nat, b: nat)
    requires a % CHUNK_SIZE == 0
    ensures RoundUp(a + b) == a + RoundUp(b)
  {
    assert a == CHUNK_SIZE * (a / CHUNK_SIZE);
  }

  /** Any sequence of non-empty writes makes the file their concatenation, with every chunk but the
      last full and no more capacity than the size rounded up. */
  lemma {:induction false} WritesConcatenate(writes: seq<seq<Byte>>)
    requires forall k | 0 <= k < |writes| :: writes[k] != []
    ensures Flat(WriteAll(writes).0) == Joined(writes)
    ensures TotalCapacity(WriteAll(writes).0) == RoundUp(|Joined(writes)|)
  {
    if writes != [] {
      var n := |writes| - 1;
      WritesConcatenate(writes[..n]);
      WriteOncePacks(WriteAll(writes[..n]).0, writes[n]);
      PackedCapacity(WriteAll(writes).0);
    }
  }
}
