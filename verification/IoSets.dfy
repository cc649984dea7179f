/** Sets of buffers as the runtime keeps them, and the flat table the platform sees,
    runtime/runtime.c. */
module IoSets {

  type Buffer = int

  /** Where set `i` starts in the table of all buffers. */
  function Offset(sets: seq<seq<Buffer>>, i: nat): nat
    requires i <= |sets|
  {
    if i == 0 then 0 else Offset(sets, i - 1) + |sets[i - 1]|
  }

  function Flatten(sets: seq<seq<Buffer>>, i: nat): (all: seq<Buffer>)
    requires i <= |sets|
    ensures |all| == Offset(sets, i)
  {
    if i == 0 then [] else Flatten(sets, i - 1) + sets[i - 1]
  }

  lemma {:induction false} OffsetsRise(sets: seq<seq<Buffer>>, i: nat, j: nat)
    requires i <= j <= |sets|
    ensures Offset(sets, i) <= Offset(sets, j) && Flatten(sets, j)[..Offset(sets, i)] == Flatten(sets, i)
  {
    if i < j {
      OffsetsRise(sets, i, j - 1);
    }
  }

  /** Set `i` is the stretch of the table between its offset and the next. */
  lemma SetInTable(sets: seq<seq<Buffer>>, i: nat)
    requires i < |sets|
    ensures Offset(sets, i) <= Offset(sets, i + 1) <= Offset(sets, |sets|)
    ensures Flatten(sets, |sets|)[Offset(sets, i)..Offset(sets, i + 1)] == sets[i]
  {
    OffsetsRise(sets, i + 1, |sets|);
    var all := Flatten(sets, |sets|);
    assert all[Offset(sets, i)..Offset(sets, i + 1)] == all[..Offset(sets, i + 1)][Offset(sets, i)..];
  }

  /** The table and offsets dandelion_exit hands to the platform, with the sentinel's offset last. */
  ghost predicate LaidOut(sets: seq<seq<Buffer>>, offsets: seq<nat>, table: seq<Buffer>) {
    && |offsets| == |sets| + 1 && table == Flatten(sets, |sets|)
    && forall i | 0 <= i < |offsets| :: offsets[i] == Offset(sets, i)
  }

  /** The inner loop of dandelion_exit: one set goes into the table. */
  method CopySet(table: array<Buffer>, start: nat, buffers: seq<Buffer>)
    requires start + |buffers| <= table.Length
    modifies table
    ensures table[..start + |buffers|] == old(table[..start]) + buffers
  {
    for j := 0 to |buffers|
      invariant table[..start + j] == old(table[..start]) + buffers[..j]
    {
      table[start + j] := buffers[j];
      assert table[..start + j + 1] == table[..start + j] + [buffers[j]];
    }
  }

  /** The counting loop of dandelion_exit. */
  method CountBuffers(sets: seq<seq<Buffer>>) returns (count: nat)
    ensures count == Offset(sets, |sets|)
  {
    count := 0;
    for i := 0 to |sets|
      invariant count == Offset(sets, i)
    {
      count := count + |sets[i]|;
    }
  }

  /** Offsets and table of the first `i` sets are in place. */
  ghost predicate Filled(sets: seq<seq<Buffer>>, i: nat, offsets: seq<nat>, table: seq<Buffer>) {
    && i <= |sets| && |offsets| == i && table == Flatten(sets, i)
    && forall k | 0 <= k < i :: offsets[k] == Offset(sets, k)
  }

  /** The conversion loops of dandelion_exit. */
  method LayOut(sets: seq<seq<Buffer>>) returns (offsets: seq<nat>, table: array<Buffer>)
    ensures LaidOut(sets, offsets, table[..])
  {
    var count := CountBuffers(sets);
    table := new Buffer[count];
    offsets := [];
    var current := 0;
    for i := 0 to |sets|
      invariant current == Offset(sets, i) <= table.Length && table.Length == Offset(sets, |sets|)
      invariant Filled(sets, i, offsets, table[..current])
    {
      OffsetsRise(sets, i + 1, |sets|);
      offsets := offsets + [current];
      CopySet(table, current, sets[i]);
      current := current + |sets[i]|;
    }
    offsets := offsets + [current];
    assert table[..] == table[..current];
  }

  /** Set `i` as the offsets delimit it. */
  predicate Delimited(offsets: seq<nat>, table: seq<Buffer>, i: nat, buffers: seq<Buffer>) {
    i + 1 < |offsets| && offsets[i] <= offsets[i + 1] <= |table| && buffers == table[offsets[i]..offsets[i + 1]]
  }

  /** The inner loop of dandelion_init: the buffers of one set. */
  method ReadSet(table: seq<Buffer>, from: nat, count: nat) returns (buffers: seq<Buffer>)
    requires from + count <= |table|
    ensures buffers == table[from..from + count]
  {
    buffers := [];
    for j := 0 to count
      invariant buffers == table[from..from + j]
    {
      buffers := buffers + [table[from + j]];
    }
  }

  /** The parsing loops of dandelion_init. */
  method Parse(offsets: seq<nat>, table: seq<Buffer>) returns (sets: seq<seq<Buffer>>)
    requires |offsets| > 0 && offsets[|offsets| - 1] <= |table|
    requires forall i | 0 < i < |offsets| :: offsets[i - 1] <= offsets[i]
    ensures |sets| == |offsets| - 1 && forall i | 0 <= i < |sets| :: Delimited(offsets, table, i, sets[i])
  {
    sets := [];
    for i := 0 to |offsets| - 1
      invariant |sets| == i && forall k | 0 <= k < i :: Delimited(offsets, table, k, sets[k])
    {
      Bounded(offsets, i + 1, |table|);
      assert offsets[i + 1 - 1] <= offsets[i + 1];
      var buffers := ReadSet(table, offsets[i], offsets[i + 1] - offsets[i]);
      sets := sets + [buffers];
    }
  }

  lemma {:induction false} Bounded(offsets: seq<nat>, i: nat, n: nat)
    requires i < |offsets| && offsets[|offsets| - 1] <= n && forall k | 0 < k < |offsets| ::
               offsets[k - 1] <= offsets[k]
    ensures offsets[i] <= n
    decreases |offsets| - i
  {
    if i + 1 < |offsets| {
      Bounded(offsets, i + 1, n);
      assert offsets[i + 1 - 1] <= offsets[i + 1];
    }
  }

  /** What dandelion_exit lays out, dandelion_init reads back. */
  method ExitThenInit(sets: seq<seq<Buffer>>) returns (again: seq<seq<Buffer>>)
    ensures again == sets
  {
    var offsets, table := LayOut(sets);
    forall i | 0 < i < |offsets| ensures offsets[i - 1] <= offsets[i] {
      OffsetsRise(sets, i - 1, i);
    }
    again := Parse(offsets, table[..]);
    forall i | 0 <= i < |sets| ensures again[i] == sets[i] {
      SetInTable(sets, i);
      assert Delimited(offsets, table[..], i, again[i]);
    }
  }

  /** An output set that grows. */
  class OutputSet {
    var buffers: array<Buffer>
    var length: nat

    ghost predicate Valid()
      reads this
    {
      length <= buffers.Length
    }

    ghost function Contents(): seq<Buffer>
      requires Valid()
      reads this, buffers
    {
      buffers[..length]
    }

    constructor ()
      ensures Valid() && Contents() == [] && fresh(buffers)
    {
      buffers := new Buffer[0];
      length := 0;
    }

    /** dandelion_add_output: doubles the room when it is full, keeping what is there. */
    method AddOutput(b: Buffer)
      requires Valid()
      modifies this, buffers
      ensures Valid() && Contents() == old(Contents()) + [b]
      ensures old(length) < old(buffers).Length ==> buffers == old(buffers)
      ensures old(length) == old(buffers).Length ==>
                fresh(buffers) && buffers.Length == (if old(length) == 0 then 1 else 2 * old(length))
    {
      if length == buffers.Length {
        var capacity := buffers.Length * 2;
        if capacity == 0 {
          capacity := 1;
        }
        var larger := new Buffer[capacity];
        for i := 0 to length
          invariant buffers == old(buffers) && length == old(length) && buffers[..] == old(buffers[..])
          invariant larger[..i] == buffers[..i]
        {
          larger[i] := buffers[i];
        }
        buffers := larger;
      }
      buffers[length] := b;
      length := length + 1;
    }
  }
}
