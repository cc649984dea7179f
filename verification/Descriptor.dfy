/** Reading, writing and seeking through one open descriptor, file_system/fs_implementation.c. */
module Descriptor {
  import opened Prelude
  import opened Chunks

  const SEEK_SET := 0
  const SEEK_CUR := 1
  const SEEK_END := 2

  /** `NullDereference`: the code follows a NULL chunk pointer. */
  datatype SeekResult = At(position: nat) | Einval | Enomem | NullDereference

  /** A regular file: its chunks in order. */
  class DFile {
    var content: Chain

    constructor ()
      ensures content == []
    {
      content := [];
    }
  }

  /** An entry of `open_files`; `chunk` is the index of `current_chunk` in the chain. */
  class OpenFile {
    const file: DFile
    var chunk: Option<nat>
    var offset: nat

    /** The cursor is on a chunk of the chain, not past its used mark. */
    ghost predicate Valid()
      reads this, file
    {
      match chunk
      case None => offset == 0
      case Some(i) => Place(file.content, i, offset)
    }

    ghost function Position(): nat
      requires Valid()
      reads this, file
    {
      if chunk.None? then 0 else Start(file.content, chunk.value) + offset
    }

    constructor (f: DFile)
      ensures Valid() && file == f && Position() == 0
    {
      file := f;
      chunk, offset := if f.content == [] then None else Some(0), 0;
    }

    // -------------------------------------------------------------- dandelion_lseek

    ghost function Base(whence: int): nat
      requires Valid()
      reads this, file
    {
      if whence == SEEK_CUR then Position() else if whence == SEEK_END then |Flat(file.content)| else 0
    }

    /** The first phase: the place `whence` refers to. */
    method SeekFrom(whence: int) returns (current: Option<nat>, chunkOffset: nat, total: nat)
      requires Valid() && SEEK_SET <= whence <= SEEK_END
      ensures total == Base(whence) && (current.None? <==> file.content == [])
      ensures current.None? ==> total == 0 && chunkOffset == 0
      ensures current.Some? ==> Place(file.content, current.value, chunkOffset) &&
                                Start(file.content, current.value) + chunkOffset == total
      ensures whence == SEEK_SET && current.Some? ==> current.value == 0
    {
      var c := file.content;
      current, chunkOffset, total := if c == [] then None else Some(0), 0, 0;
      if whence == SEEK_CUR {
        if chunk.Some? {
          current := chunk;
        }
        var i := 0;
        while i < |c|
          invariant i <= |c| && total == Start(c, i) && chunkOffset == 0
          invariant c != [] ==> current.Some? && i <= current.value
        {
          if current != Some(i) {
            total := total + |c[i].bytes|;
          } else {
            chunkOffset := offset;
            total := total + chunkOffset;
            break;
          }
          i := i + 1;
        }
      } else if whence == SEEK_END && c != [] {
        var i := 0;
        while true
          invariant i < |c| && total == Start(c, i)
          decreases |c| - i
        {
          total := total + |c[i].bytes|;
          if i + 1 == |c| {
            break;
          }
          i := i + 1;
        }
        current, chunkOffset := Some(i), |c[i].bytes|;
      }
    }

    /** The search for a smaller position, from the start of the file. */
    method SeekBack(position: nat) returns (i: nat, needed: nat)
      requires file.content != [] && position <= |Flat(file.content)|
      ensures (i, needed) == Find(file.content, 0, position)
    {
      var c := file.content;
      i, needed := 0, position;
      while true
        invariant i < |c| && Start(c, i) + needed == position <= |Flat(c)|
        invariant Find(c, i, needed) == Find(c, 0, position)
        decreases |c| - i
      {
        ChunkInFlat(c, i);
        if |c[i].bytes| < needed {
          needed := needed - |c[i].bytes|;
          i := i + 1;
        } else {
          break;
        }
      }
    }

    /** The search forward; `left` is how far the target lies past the end of the file. */
    method SeekForward(from: nat, fromOffset: nat, distance: nat) returns (i: nat, chunkOffset: nat, left: nat)
      requires Place(file.content, from, fromOffset)
      ensures Advanced(file.content, Find(file.content, from, fromOffset + distance), i, chunkOffset, left)
    {
      var c := file.content;
      ghost var found := Find(c, from, fromOffset + distance);
      i, chunkOffset, left := from, fromOffset, distance;
      var toAdvance := |c[i].bytes| - chunkOffset;
      while toAdvance < left && i + 1 < |c|
        invariant Place(c, i, chunkOffset) && toAdvance == |c[i].bytes| - chunkOffset
        invariant Find(c, i, chunkOffset + left) == found
        decreases |c| - i
      {
        left := left - toAdvance;
        i, chunkOffset := i + 1, 0;
        toAdvance := |c[i].bytes|;
      }
      toAdvance := if toAdvance >= left then left else toAdvance;
      chunkOffset := chunkOffset + toAdvance;
      left := left - toAdvance;
    }

    twostate predicate SameFile()
      reads this, file
    {
      file.content == old(file.content)
    }

    twostate predicate SameCursor()
      reads this
    {
      chunk == old(chunk) && offset == old(offset)
    }

    /** The effect of a seek to `target` on a file of `size` bytes. */
    twostate predicate Sought(target: int, memory: bool, r: SeekResult)
      reads this, file
    {
      var size := |old(Flat(file.content))|;
      && Valid()
      && (!r.At? ==> SameFile() && SameCursor())
      && (target < 0 ==> r == Einval)
      && (target > size && !memory ==> r == Enomem)
      && (target >= 0 && (target <= size || memory) ==>
            && r == At(target) && Position() == target
            && |Flat(file.content)| == (if target > size then target else size)
            && old(Flat(file.content)) <= Flat(file.content)
            && (target <= size ==> SameFile()))
    }

    /** dandelion_lseek.  `garbage` is what a fresh buffer happens to hold, `memory` whether the
        allocator has any left. */
    method Lseek(distance: int, whence: int, garbage: nat -> Byte, memory: bool) returns (r: SeekResult)
      requires Valid()
      modifies this, file
      ensures Valid()
      ensures !(SEEK_SET <= whence <= SEEK_END) ==> r == Einval && SameFile() && SameCursor()
      ensures whence == SEEK_END && old(file.content) == [] ==> r == NullDereference && SameFile() && SameCursor()
      ensures SEEK_SET <= whence <= SEEK_END && !(whence == SEEK_END && old(file.content) == []) ==>
                Sought(old(Base(whence)) + distance, memory, r)
      ensures r.At? ==>
                && (whence == 0 ==> r.position == distance)
                && (whence == 1 ==> r.position == old(Position()) + distance)
                && (whence == 2 ==> r.position == |old(Flat(file.content))| + distance)
      ensures r.At? && whence == SEEK_SET && old(file.content) != [] && distance <= |old(Flat(file.content))| ==>
                chunk.Some? && (chunk.value, offset) == Find(file.content, 0, distance)
    {
      if !(SEEK_SET <= whence <= SEEK_END) {
        return Einval;
      }
      if whence == SEEK_END && file.content == [] {
        return NullDereference;
      }
      var current, chunkOffset, total := SeekFrom(whence);
      BaseInFile(whence);
      if distance < 0 {
        if current.None? || total + distance < 0 {
          return Einval;
        }
        MoveBack(total + distance);
        r := At(total + distance);
      } else {
        r := MoveForward(current, chunkOffset, total, distance, garbage, memory);
      }
    }

    method MoveBack(position: nat)
      requires file.content != [] && position <= |Flat(file.content)|
      modifies this
      ensures Valid() && Position() == position
    {
      var i, needed := SeekBack(position);
      FindPlace(file.content, 0, position);
      chunk, offset := Some(i), needed;
    }

    method MoveForward(from: Option<nat>, fromOffset: nat, total: nat, distance: nat, garbage: nat -> Byte,
                       memory: bool)
      returns (r: SeekResult)
      requires Valid() && (from.None? ==> file.content == [] && total == 0 && fromOffset == 0)
      requires from.Some? ==>
                 Place(file.content, from.value, fromOffset) && Start(file.content, from.value) + fromOffset == total
      modifies this, file
      ensures Sought(total + distance, memory, r)
      ensures r.At? && from.Some? && total + distance <= |old(Flat(file.content))| ==>
                chunk.Some? && (chunk.value, offset) == Find(file.content, from.value, fromOffset + distance)
    {
      var current, chunkOffset, left := from, fromOffset, distance;
      if from.Some? {
        var i;
        i, chunkOffset, left := SeekForward(from.value, fromOffset, distance);
        AdvancedPosition(file.content, from.value, fromOffset + distance, i, chunkOffset, left);
        current := Some(i);
      }
      if left == 0 {
        chunk, offset := current, chunkOffset;
        return At(total + distance);
      }
      if !memory {
        return Enomem;
      }
      AppendGap(left, garbage);
      r := At(total + distance);
    }

    /** A new last chunk of `n` unspecified bytes, with the cursor at its end. */
    method AppendGap(n: nat, garbage: nat -> Byte)
      requires n > 0
      modifies this, file
      ensures Valid() && Position() == |Flat(file.content)| == |old(Flat(file.content))| + n
      ensures old(Flat(file.content)) <= Flat(file.content)
    {
      var c := file.content;
      var added := Chunk(seq(n, garbage), RoundUp(n));
      AppendChunk(c, added);
      SamePrefix(c + [added], c, |c|);
      file.content := c + [added];
      chunk, offset := Some(|c|), n;
    }

    lemma BaseInFile(whence: int)
      requires Valid()
      ensures Base(whence) <= |Flat(file.content)|
    {
      if chunk.Some? {
        ChunkInFlat(file.content, chunk.value);
      }
    }

    // -------------------------------------------------------------- dandelion_read

    /** The search for the chunk of a positional read; past the last chunk if there is none. */
    method LocateChunk(at: nat) returns (i: nat, chunkOffset: nat)
      ensures at <= |Flat(file.content)| && file.content != [] ==> (i, chunkOffset) == Find(file.content, 0, at)
      ensures at > |Flat(file.content)| || file.content == [] ==> i == |file.content|
    {
      var c := file.content;
      var left: nat := at;
      i, chunkOffset := 0, 0;
      while left > 0
        invariant chunkOffset == 0 && (i > 0 ==> left > 0) && Searching(c, at, i, left)
        decreases |c| - i
      {
        if i == |c| {
          return;
        }
        SearchStep(c, at, i, left);
        if |c[i].bytes| < left {
          left := left - |c[i].bytes|;
          i := i + 1;
        } else {
          chunkOffset := left;
          break;
        }
      }
    }

    /** dandelion_read on a regular file with USE_OFFSET, as `pread` calls it. */
    method ReadAt(len: nat, at: int) returns (r: ReadResult)
      ensures len == 0 ==> r == Data([])
      ensures len > 0 && at < 0 ==> r == BadOffset
      ensures len > 0 && at == 0 && file.content == [] ==> r == Fault
      ensures len > 0 && at > |Flat(file.content)| ==> r == Data([])
      ensures len > 0 && 0 <= at <= |Flat(file.content)| && file.content != [] ==>
                r == FlatRead(file.content, Find(file.content, 0, at), len)
    {
      if len == 0 {
        return Data([]);
      }
      if at < 0 {
        return BadOffset;
      }
      var i, chunkOffset := LocateChunk(at);
      if i == |file.content| {
        return if at > 0 then Data([]) else Fault;
      }
      FindPlace(file.content, 0, at);
      var data;
      data, i, chunkOffset := ReadFrom(file.content, i, chunkOffset, len);
      r := Data(data);
    }

    /** dandelion_read on a regular file with MOVE_OFFSET, as `read` calls it. */
    method Read(len: nat) returns (r: ReadResult)
      requires Valid()
      modifies this
      ensures Valid() && r.Data?
      ensures len == 0 || file.content == [] ==> r == Data([]) && Position() == old(Position())
      ensures len > 0 && file.content != [] ==>
                r == FlatRead(file.content, old(Cursor()), len) && Position() == old(Position()) + |r.bytes|
    {
      if len == 0 {
        return Data([]);
      }
      var c := file.content;
      if chunk.None? {
        offset := 0;
        if c == [] {
          return Data([]);
        }
        chunk := Some(0);
      }
      ReadAdvances(c, chunk.value, offset, len);
      var data, i, chunkOffset := ReadFrom(c, chunk.value, offset, len);
      chunk, offset := Some(i), chunkOffset;
      r := Data(data);
    }

    /** A positional read is a seek to that position followed by a read, except that the position of
        the descriptor does not move. */
    method ReadAtIsSeekThenRead(other: OpenFile, len: nat, at: nat) returns (r1: ReadResult, r2: ReadResult)
      requires Valid() && other.Valid() && other.file == file && other != this
      requires file.content != [] && at <= |Flat(file.content)|
      modifies other, file
      ensures r1 == r2 && file.content == old(file.content) && Position() == old(Position())
    {
      r1 := ReadAt(len, at);
      var _ := other.Lseek(at, SEEK_SET, _ => 0, false);
      r2 := other.Read(len);
    }

    // -------------------------------------------------------------- dandelion_write

    /** The writing loop from chunk `cur`. */
    method WriteFrom(cur: nat, data: seq<Byte>) returns (i: nat)
      requires Sound(file.content) && cur < |file.content|
      modifies file
      ensures (file.content, i) == Extend(old(file.content), cur, data) && Sound(file.content)
    {
      ghost var whole := Extend(file.content, cur, data);
      i := cur;
      var rest := data;
      while |rest| > 0
        invariant i < |file.content| && Sound(file.content)
        invariant Extend(file.content, i, rest) == whole
        decreases |rest|
      {
        var c := file.content;
        var writable := c[i].capacity - |c[i].bytes|;
        if writable == 0 {
          RoundUpHolds(|rest|);
          c := c[..i + 1] + [Chunk([], RoundUp(|rest|))];
          NewChunkStep(file.content, i, rest, c);
          i := i + 1;
          writable := c[i].capacity;
        }
        var n := Min(|rest|, writable);
        FillStep(c, i, rest, n);
        file.content := c[i := c[i].(bytes := c[i].bytes + rest[..n])];
        rest := rest[n..];
      }
      assert rest == [];
      NothingAdded(file.content, i);
    }

    /** dandelion_write on a regular file without USE_OFFSET and without O_APPEND.  The bytes go to
        the used mark of the current chunk and the cursor to its start. */
    method Write(data: seq<Byte>) returns (written: nat)
      requires Valid() && Sound(file.content)
      modifies this, file
      ensures Valid() && Sound(file.content) && written == |data|
      ensures data == [] ==> Flat(file.content) == old(Flat(file.content))
      ensures data != [] ==>
                chunk.Some? && offset == 0
                && (file.content, chunk.value) == WriteOnce(old(file.content), old(Cursor()).0, data)
    {
      var c := file.content;
      var cur := 0;
      if c == [] {
        if data == [] {
          chunk, offset := None, 0;
          return 0;
        }
        RoundUpHolds(|data|);
        file.content := [Chunk([], RoundUp(|data|))];
      } else {
        cur := if chunk.None? then 0 else chunk.value;
      }
      cur := WriteFrom(cur, data);
      chunk, offset := Some(cur), 0;
      if data == [] {
        NothingWritten(c, cur);
      }
      written := |data|;
    }

    /** After a write the position is the start of the chunk written last, short of the end of what
        was written. */
    method WriteLeavesPositionBehind(data: seq<Byte>)
      requires Valid() && Sound(file.content) && data != []
      requires chunk.Some? ==> chunk.value == |file.content| - 1
      requires chunk.None? ==> |file.content| <= 1
      modifies this, file
      ensures Flat(file.content) == old(Flat(file.content)) + data
      ensures Valid() && Position() < |Flat(file.content)|
    {
      var c := file.content;
      var _ := Write(data);
      LastWrite(c, data);
      ChunkInFlat(file.content, chunk.value);
    }

    /** Writes one after the other through this descriptor into an empty file. */
    method WriteSequence(writes: seq<seq<Byte>>)
      requires Valid() && file.content == [] && chunk == None
      requires forall k | 0 <= k < |writes| :: writes[k] != []
      modifies this, file
      ensures Flat(file.content) == Joined(writes)
      ensures TotalCapacity(file.content) == RoundUp(|Joined(writes)|)
      ensures writes != [] ==> Packed(file.content)
    {
      for n := 0 to |writes|
        invariant Valid() && Sound(file.content)
        invariant (file.content, Cursor().0) == WriteAll(writes[..n])
      {
        assert writes[..n + 1][..n] == writes[..n];
        var _ := Write(writes[n]);
      }
      assert writes[..|writes|] == writes;
      WritesConcatenate(writes);
    }

    // -------------------------------------------------------------- size and export

    /** __dandelion_stat: the size of the file. */
    method StatSize() returns (size: nat)
      ensures size == |Flat(file.content)|
    {
      size := 0;
      for i := 0 to |file.content|
        invariant size == Start(file.content, i)
      {
        size := size + |file.content[i].bytes|;
      }
    }

    /** add_output_from_file: the content in one piece, directly or copied chunk by chunk. */
    method Export() returns (data: seq<Byte>)
      ensures data == Flat(file.content)
    {
      var c := file.content;
      if c == [] {
        return [];
      }
      if |c| == 1 {
        assert FlatTo(c, 1) == FlatTo(c, 0) + c[0].bytes == c[0].bytes;
        return c[0].bytes;
      }
      data := [];
      for i := 0 to |c|
        invariant data == FlatTo(c, i)
      {
        data := data + c[i].bytes;
      }
    }

    ghost function Cursor(): (nat, nat)
      reads this
    {
      if chunk.None? then (0, 0) else (chunk.value, offset)
    }
  }

  /** The place found, cut off at the end of the last chunk. */
  ghost predicate Advanced(c: Chain, found: (nat, nat), i: nat, chunkOffset: nat, left: nat) {
    && Place(c, i, chunkOffset) && found == (i, chunkOffset + left)
    && (left > 0 ==> i + 1 == |c| && chunkOffset == |c[i].bytes|)
  }

  lemma AdvancedPosition(c: Chain, from: nat, k: nat, i: nat, o: nat, left: nat)
    requires from < |c| && Advanced(c, Find(c, from, k), i, o, left)
    ensures Start(c, i) + o + left == Start(c, from) + k && Start(c, i) + o <= |Flat(c)|
    ensures left > 0 ==> Start(c, i) + o == |Flat(c)|
  {
    FindPlace(c, from, k);
    ChunkInFlat(c, i);
  }

  /** The search for position `at` has come to chunk `i` with `left` bytes to go. */
  ghost predicate Searching(c: Chain, at: nat, i: nat, left: nat) {
    && i <= |c| && at == Start(c, i) + left
    && (i < |c| ==> Find(c, 0, at) == Find(c, i, left))
  }

  lemma SearchStep(c: Chain, at: nat, i: nat, left: nat)
    requires Searching(c, at, i, left) && i < |c|
    ensures |c[i].bytes| < left ==> Searching(c, at, i + 1, left - |c[i].bytes|)
    ensures left <= |c[i].bytes| ==> Find(c, 0, at) == (i, left) && at <= |Flat(c)|
  {
    ChunkInFlat(c, i);
  }

  lemma NothingAdded(c: Chain, i: nat)
    requires i < |c|
    ensures c[i := c[i].(bytes := c[i].bytes + [])] == c
  {
    assert c[i].bytes + [] == c[i].bytes;
  }

  /** Linking an empty chunk behind a full one does not change what the write loop will do. */
  lemma NewChunkStep(c: Chain, i: nat, rest: seq<Byte>, c': Chain)
    requires i < |c| && |c[i].bytes| == c[i].capacity && rest != []
    requires c' == c[..i + 1] + [Chunk([], RoundUp(|rest|))]
    ensures |rest| <= RoundUp(|rest|) && Extend(c', i + 1, rest) == Extend(c, i, rest)
  {
    RoundUpHolds(|rest|);
    assert rest[..0] == [] && rest[0..] == rest && rest[..|rest|] == rest;
    NothingAdded(c, i);
    assert c'[i + 1 := Chunk(rest, RoundUp(|rest|))] == c[..i + 1] + [Chunk(rest, RoundUp(|rest|))];
    assert [] + rest == rest;
  }

  /** Neither does filling the current chunk. */
  lemma FillStep(c: Chain, i: nat, rest: seq<Byte>, n: nat)
    requires i < |c| && |c[i].bytes| <= c[i].capacity && n == Min(|rest|, c[i].capacity - |c[i].bytes|)
    ensures Extend(c[i := c[i].(bytes := c[i].bytes + rest[..n])], i, rest[n..]) == Extend(c, i, rest)
  {
    var d := c[i := c[i].(bytes := c[i].bytes + rest[..n])];
    assert rest[n..][..0] == [] && rest[n..][0..] == rest[n..];
    NothingAdded(d, i);
  }

  lemma NothingWritten(c: Chain, cur: nat)
    requires cur < |c| && |c[cur].bytes| <= c[cur].capacity
    ensures Flat(Extend(c, cur, []).0) == Flat(c)
  {
    NothingAdded(c, cur);
  }

  lemma LastWrite(c: Chain, data: seq<Byte>)
    requires data != [] && Sound(c)
    ensures var (d, cur) := WriteOnce(c, if c == [] then 0 else |c| - 1, data);
            cur < |d| && d[cur].bytes != [] && Flat(d) == Flat(c) + data
  {
    RoundUpHolds(|data|);
    if c == [] {
      var e := [Chunk([], RoundUp(|data|))];
      ExtendFlat(e, 0, data);
      assert FlatTo(e, 1) == FlatTo(e, 0) + e[0].bytes == [];
      assert [] + data + [] == data;
    } else {
      ExtendFlat(c, |c| - 1, data);
      assert Flat(c)[..|Flat(c)|] == Flat(c) && Flat(c)[|Flat(c)|..] == [];
    }
  }

  datatype ReadResult = Data(bytes: seq<Byte>) | BadOffset | Fault

  /** What the read loop returns from a place. */
  ghost function FlatRead(c: Chain, place: (nat, nat), len: nat): ReadResult {
    if !Place(c, place.0, place.1) then Fault
    else
      ReadAdvances(c, place.0, place.1, len);
      var p := Start(c, place.0) + place.1;
      Data(Flat(c)[p..p + ReadLoop(c, place.0, place.1, len).0])
  }

  /** The bytes of a read are those of a flat file exactly when the request reaches the end of the
      file or is met by the first chunk that holds anything. */
  lemma ReadMatchesFlatFileIff(c: Chain, place: (nat, nat), len: nat)
    requires Place(c, place.0, place.1) && len > 0
    ensures var p, size := Start(c, place.0) + place.1, |Flat(c)|;
            p <= size && (FlatRead(c, place, len) == Data(Flat(c)[p..Min(p + len, size)]) <==>
                          size - p <= len || LongChunkFirst(c, place.0, place.1, len))
  {
    var p, size := Start(c, place.0) + place.1, |Flat(c)|;
    ReadAdvances(c, place.0, place.1, len);
    ReadExactIff(c, place.0, place.1, len);
    var n := ReadLoop(c, place.0, place.1, len).0;
    assert |Flat(c)[p..p + n]| == n && |Flat(c)[p..Min(p + len, size)]| == Min(p + len, size) - p;
  }

  /** `data` stands at position `p` of the flat file. */
  ghost predicate FlatAt(c: Chain, p: nat, data: seq<Byte>) {
    p + |data| <= |Flat(c)| && data == Flat(c)[p..p + |data|]
  }

  /** What one round of the loop copies: the request, or all that is left in the chunk. */
  function Piece(c: Chain, i: nat, o: nat, len: nat): (piece: seq<Byte>)
    requires i < |c| && o <= |c[i].bytes|
  {
    c[i].bytes[o..o + Min(len, Readable(c, i, o))]
  }

  /** The loop has handed out `data` from `p` on; together with what it still does this is `whole`. */
  ghost predicate Reading(c: Chain, p: nat, whole: (nat, nat, nat), len: nat, data: seq<Byte>, i: nat, o: nat) {
    && Place(c, i, o) && Start(c, i) + o == p + |data| && FlatAt(c, p, data)
    && var r := ReadLoop(c, i, o, len); whole == (|data| + r.0, r.1, r.2)
  }

  lemma ReadPiece(c: Chain, p: nat, whole: (nat, nat, nat), len: nat, data: seq<Byte>, i: nat, o: nat)
    requires Reading(c, p, whole, len, data, i, o)
    ensures var more, n := data + Piece(c, i, o, len), Readable(c, i, o);
            && FlatAt(c, p, more)
            && (n > len ==> whole == (|more|, i, o + len))
            && (n <= len && i + 1 < |c| ==> Reading(c, p, whole, len, more, i + 1, 0))
            && (n <= len && i + 1 == |c| ==> whole == (|more|, i, o + n))
  {
    ChunkInFlat(c, i);
    PieceStays(c, p, whole, len, data, i, o);
  }

  lemma PieceStays(c: Chain, p: nat, whole: (nat, nat, nat), len: nat, data: seq<Byte>, i: nat, o: nat)
    requires Reading(c, p, whole, len, data, i, o)
    ensures FlatAt(c, p, data + Piece(c, i, o, len))
  {
    PieceOfChunk(c, i, o, Min(len, Readable(c, i, o)), p, data);
  }

  lemma ReadStart(c: Chain, i: nat, o: nat, len: nat)
    requires Place(c, i, o)
    ensures Reading(c, Start(c, i) + o, ReadLoop(c, i, o, len), len, [], i, o)
  {
    ChunkInFlat(c, i);
  }

  /** The copying loop of dandelion_read, from a place in the file. */
  method ReadFrom(c: Chain, from: nat, fromOffset: nat, len: nat) returns (data: seq<Byte>, i: nat, chunkOffset: nat)
    requires Place(c, from, fromOffset)
    ensures ReadLoop(c, from, fromOffset, len) == (|data|, i, chunkOffset)
    ensures FlatAt(c, Start(c, from) + fromOffset, data)
  {
    ghost var p, whole := Start(c, from) + fromOffset, ReadLoop(c, from, fromOffset, len);
    ReadStart(c, from, fromOffset, len);
    data, i, chunkOffset := [], from, fromOffset;
    while true
      invariant Reading(c, p, whole, len, data, i, chunkOffset)
      decreases |c| - i
    {
      ReadPiece(c, p, whole, len, data, i, chunkOffset);
      var readable := Readable(c, i, chunkOffset);
      data := data + Piece(c, i, chunkOffset, len);
      if readable > len {
        chunkOffset := chunkOffset + len;
        break;
      } else if i + 1 < |c| {
        i, chunkOffset := i + 1, 0;
      } else {
        chunkOffset := chunkOffset + readable;
        break;
      }
    }
  }

  lemma PieceOfChunk(c: Chain, i: nat, offset: nat, n: nat, p: nat, data: seq<Byte>)
    requires i < |c| && offset + n <= |c[i].bytes| && Start(c, i) + offset == p + |data| <= |Flat(c)|
    requires data == Flat(c)[p..p + |data|]
    ensures p + |data| + n <= |Flat(c)|
    ensures data + c[i].bytes[offset..offset + n] == Flat(c)[p..p + |data| + n]
  {
    ChunkInFlat(c, i);
    PieceOfFlat(Flat(c), Start(c, i), c[i].bytes, offset, n, p, data);
  }

  lemma PieceOfFlat(f: seq<Byte>, s: nat, b: seq<Byte>, offset: nat, n: nat, p: nat, data: seq<Byte>)
    requires s + |b| <= |f| && f[s..s + |b|] == b && offset + n <= |b| && s + offset == p + |data|
    requires data == f[p..p + |data|]
    ensures data + b[offset..offset + n] == f[p..p + |data| + n]
  {
    SliceOfSlice(f, s, s + |b|, offset, offset + n);
    SliceJoin(f, p, p + |data|, p + |data| + n);
  }

  lemma SliceOfSlice(f: seq<Byte>, a: nat, b: nat, i: nat, j: nat)
    requires a <= b <= |f| && i <= j <= b - a
    ensures f[a..b][i..j] == f[a + i..a + j]
  {
    assert forall k | 0 <= k < j - i :: f[a..b][i..j][k] == f[a..b][i + k] == f[a + i + k];
  }

  lemma SliceJoin(f: seq<Byte>, a: nat, b: nat, c: nat)
    requires a <= b <= c <= |f|
    ensures f[a..b] + f[b..c] == f[a..c]
  {
  }
}
