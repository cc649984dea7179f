/** `memcpy` and `memmove` of system/freestanding.c on one memory of bytes. */
module Bytes {

  const WORD := 8
  const INT_RANGE := 0x8000_0000

  /** `m'` is `m` with the old `n` bytes at `src` now also standing at `dest`, and nothing else changed. */
  ghost predicate Moved(m: seq<int>, m': seq<int>, dest: nat, src: nat, n: nat)
    requires dest + n <= |m| && src + n <= |m|
  {
    && |m'| == |m|
    && (forall x | dest <= x < dest + n :: m'[x] == m[x - dest + src])
    && (forall x | 0 <= x < |m| && !(dest <= x < dest + n) :: m'[x] == m[x])
  }

  /** One step of a forward copy: the `w` bytes read next have not been overwritten yet. */
  lemma ForwardStep(m: seq<int>, m1: seq<int>, m2: seq<int>, dest: nat, src: nat, c: nat, w: nat)
    requires dest + c + w <= |m| && src + c + w <= |m| && (dest <= src || src + c + w <= dest)
    requires Moved(m, m1, dest, src, c) && Moved(m1, m2, dest + c, src + c, w)
    ensures Moved(m, m2, dest, src, c + w)
  {
    forall x | dest <= x < dest + (c + w) ensures m2[x] == m[x - dest + src] {
      if dest + c <= x {
        var y := x - dest + src;
        assert m1[y] == m[y];
        assert y == x - (dest + c) + (src + c);
      }
    }
  }

  /** One step of a backward copy of the byte before the `n - c` already moved. */
  lemma BackwardStep(m: seq<int>, m1: seq<int>, m2: seq<int>, dest: nat, src: nat, c: nat, n: nat)
    requires c < n && dest + n <= |m| && src + n <= |m| && src <= dest
    requires Moved(m, m1, dest + c + 1, src + c + 1, n - c - 1) && m2 == m1[dest + c := m1[src + c]]
    ensures Moved(m, m2, dest + c, src + c, n - c)
  {
    forall x | dest + c <= x < dest + n ensures m2[x] == m[x - (dest + c) + (src + c)] {
      var y := x - (dest + c) + (src + c);
      if x == dest + c {
        assert m1[y] == m[y];
      } else {
        assert y == x - (dest + c + 1) + (src + c + 1);
      }
    }
  }

  /** `*to = *from` on whole words: all eight bytes are read before any is written. */
  method CopyWord(mem: array<int>, to: nat, from: nat)
    requires to + WORD <= mem.Length && from + WORD <= mem.Length
    modifies mem
    ensures Moved(old(mem[..]), mem[..], to, from, WORD)
  {
    var word := mem[from..from + WORD];
    forall k | 0 <= k < WORD {
      mem[to + k] := word[k];
    }
  }

  /** memcpy: words first, then the remaining bytes, forward.  Correct for regions that do not
      overlap and for those where the destination comes first. */
  method Memcpy(mem: array<int>, dest: nat, src: nat, n: nat)
    requires dest + n <= mem.Length && src + n <= mem.Length && (dest <= src || src + n <= dest)
    modifies mem
    ensures Moved(old(mem[..]), mem[..], dest, src, n)
  {
    ghost var m := mem[..];
    var copied := 0;
    var words := WORD * (n / WORD);
    while copied < words
      invariant copied <= words && copied % WORD == 0
      invariant Moved(m, mem[..], dest, src, copied)
    {
      ghost var m1 := mem[..];
      CopyWord(mem, dest + copied, src + copied);
      ForwardStep(m, m1, mem[..], dest, src, copied, WORD);
      copied := copied + WORD;
    }
    while copied < n
      invariant copied <= n
      invariant Moved(m, mem[..], dest, src, copied)
    {
      ghost var m1 := mem[..];
      mem[dest + copied] := mem[src + copied];
      ForwardStep(m, m1, mem[..], dest, src, copied, 1);
      copied := copied + 1;
    }
  }

  /** memmove: right for every overlap. */
  method Memmove(mem: array<int>, dest: nat, src: nat, n: nat)
    requires dest + n <= mem.Length && src + n <= mem.Length && n < INT_RANGE
    modifies mem
    ensures Moved(old(mem[..]), mem[..], dest, src, n)
  {
    if src == dest || n == 0 {
      return;
    }
    if dest > src && dest - src < n {
      ghost var m := mem[..];
      var i := n - 1;
      while i >= 0
        invariant -1 <= i < n
        invariant Moved(m, mem[..], dest + i + 1, src + i + 1, n - i - 1)
      {
        ghost var m1 := mem[..];
        mem[dest + i] := mem[src + i];
        BackwardStep(m, m1, mem[..], dest, src, i, n);
        i := i - 1;
      }
      return;
    }
    Memcpy(mem, dest, src, n);
  }
}
