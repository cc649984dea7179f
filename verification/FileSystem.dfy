/** Files, directories and open descriptors over whole runs: link and open counts decide when a
    record is given back. */
module FileSystem {
  import opened Prelude
  import opened Names
  import opened Paths
  import opened Tree
  import opened Walk
  import opened Creating
  import opened Frames

  const MAX_FILES: nat := 1024
  const COUNT_RANGE: nat := 0x1_0000

  // ---------------------------------------------------------------- the invariant

  /** How many slots of the descriptor table name `n`. */
  function Uses(slots: seq<Option<nat>>, n: nat): nat {
    if slots == [] then 0 else Bit(slots[0] == Some(n)) + Uses(slots[1..], n)
  }

  /** The count is that of a multiset. */
  lemma {:induction false} UsesMeans(slots: seq<Option<nat>>, n: nat)
    ensures Uses(slots, n) == multiset(slots)[Some(n)]
  {
    if slots != [] {
      UsesMeans(slots[1..], n);
      assert slots == [slots[0]] + slots[1..];
    }
  }

  lemma {:induction false} UsesAfter(slots: seq<Option<nat>>, i: nat, x: Option<nat>, n: nat)
    requires i < |slots|
    ensures Uses(slots[i := x], n) + Bit(slots[i] == Some(n)) == Uses(slots, n) + Bit(x == Some(n))
  {
    var s := slots[i := x];
    if i == 0 {
      assert s[1..] == slots[1..];
    } else {
      assert s[1..] == slots[1..][i - 1 := x];
      UsesAfter(slots[1..], i - 1, x, n);
    }
  }

  lemma {:induction false} UsedSlot(slots: seq<Option<nat>>, i: nat, n: nat)
    requires i < |slots| && slots[i] == Some(n)
    ensures Uses(slots, n) > 0
  {
    if i > 0 {
      UsedSlot(slots[1..], i - 1, n);
    }
  }

  lemma {:induction false} NoUses(slots: seq<Option<nat>>, n: nat)
    requires forall i | 0 <= i < |slots| :: slots[i] != Some(n)
    ensures Uses(slots, n) == 0
  {
    if slots != [] {
      NoUses(slots[1..], n);
    }
  }

  /** The slots of the descriptor table and the directory handles on `n`. */
  function Openers(slots: seq<Option<nat>>, handles: multiset<nat>, n: nat): nat {
    Uses(slots, n) + handles[n]
  }

  /** A record's open count is the number of its openers, and what is not in the store has none. */
  ghost predicate Counted(t: Store, slots: seq<Option<nat>>, handles: multiset<nat>) {
    forall n: nat {:trigger Openers(slots, handles, n)} ::
        Openers(slots, handles, n) == if n in t then t[n].opens else 0
  }

  /** So no slot and no handle names a record that has been given back. */
  lemma NoneDangling(t: Store, slots: seq<Option<nat>>, handles: multiset<nat>, n: nat)
    requires Counted(t, slots, handles)
    ensures forall i | 0 <= i < |slots| && slots[i] == Some(n) :: n in t
    ensures n in handles ==> n in t
  {
    assert Openers(slots, handles, n) == if n in t then t[n].opens else 0;
    forall i | 0 <= i < |slots| && slots[i] == Some(n) ensures n in t {
      UsedSlot(slots, i, n);
    }
  }

  /** A record is there as long as something holds on to it. */
  ghost predicate HeldBut(t: Store, loose: set<nat>) {
    forall n | n in t && n !in loose :: t[n].links + t[n].opens > 0
  }

  /** `log` lists the records given back so far, each once; every number ever used is either still in
      the store or in the log. */
  ghost predicate Logged(t: Store, next: nat, log: seq<nat>) {
    && Distinct(log)
    && (forall n | n in log :: n < next && n !in t)
    && (forall n: nat | n < next :: n in t || n in log)
  }

  /** The books balance; records in `loose` may have nothing that holds on to them. */
  ghost predicate Books(t: Store, next: nat, slots: seq<Option<nat>>, handles: multiset<nat>, log: seq<nat>,
                        loose: set<nat>)
  {
    && Fresh(t, next) && |slots| == MAX_FILES
    && Counted(t, slots, handles) && HeldBut(t, loose) && Logged(t, next, log)
  }

  function SetOpens(t: Store, n: nat, opens: nat): Store
    requires n in t
  {
    t[n := t[n].(opens := opens)]
  }

  lemma OpensFrame(t: Store, n: nat, opens: nat)
    requires n in t
    ensures Grown(t, SetOpens(t, n, opens))
  {
    assert t.Keys - {} == t.Keys;
    assert forall m | m in t :: FramedAt(t, SetOpens(t, n, opens), {}, m);
  }

  lemma DropFrame(t: Store, n: nat)
    requires n in t && t[n].opens > 0
    ensures var t' := SetOpens(t, n, t[n].opens - 1); Framed(t, t', {}) && Framed(t, t' - {n}, {})
  {
    OpensFrame(t, n, t[n].opens - 1);
    RemoveFrame(t, SetOpens(t, n, t[n].opens - 1), {}, n);
  }

  /** Nothing holds on to `n`. */
  predicate Unheld(t: Store, n: nat)
    requires n in t
  {
    t[n].links == 0 && t[n].opens == 0
  }

  lemma FreeBooks(t: Store, next: nat, slots: seq<Option<nat>>, handles: multiset<nat>, log: seq<nat>, n: nat)
    requires Books(t, next, slots, handles, log, {n}) && n in t
    ensures Unheld(t, n) ==> Books(t - {n}, next, slots, handles, log + [n], {})
    ensures !Unheld(t, n) ==> Books(t, next, slots, handles, log, {})
  {
    if Unheld(t, n) {
      assert Openers(slots, handles, n) == 0;
    }
  }

  lemma DropSlotBooks(t: Store, next: nat, slots: seq<Option<nat>>, handles: multiset<nat>, log: seq<nat>, fd: nat,
                      n: nat)
    requires Books(t, next, slots, handles, log, {}) && fd < MAX_FILES && slots[fd] == Some(n)
    ensures n in t && t[n].opens > 0
    ensures Books(SetOpens(t, n, t[n].opens - 1), next, slots[fd := None], handles, log, {n})
  {
    UsedSlot(slots, fd, n);
    assert Openers(slots, handles, n) > 0;
    var t' := SetOpens(t, n, t[n].opens - 1);
    forall m: nat ensures Openers(slots[fd := None], handles, m) == if m in t' then t'[m].opens else 0 {
      UsesAfter(slots, fd, None, m);
      assert Openers(slots, handles, m) == if m in t then t[m].opens else 0;
    }
  }

  lemma DropHandleBooks(t: Store, next: nat, slots: seq<Option<nat>>, handles: multiset<nat>, log: seq<nat>, n: nat)
    requires Books(t, next, slots, handles, log, {}) && n in handles
    ensures n in t && t[n].opens > 0
    ensures Books(SetOpens(t, n, t[n].opens - 1), next, slots, handles - multiset{n}, log, {n})
  {
    assert Openers(slots, handles, n) > 0;
    assert forall m: nat :: Openers(slots, handles - multiset{n}, m) == Openers(slots, handles, m) - Bit(m == n);
  }

  lemma DetachBooks(t: Store, next: nat, slots: seq<Option<nat>>, handles: multiset<nat>, log: seq<nat>, n: nat)
    requires Books(t, next, slots, handles, log, {}) && CanDetach(t, n)
    ensures Books(Detach(t, n), next, slots, handles, log, {n})
  {
  }

  lemma TakeSlotBooks(t: Store, next: nat, slots: seq<Option<nat>>, handles: multiset<nat>, log: seq<nat>, fd: nat,
                      n: nat)
    requires Books(t, next, slots, handles, log, {}) && fd < MAX_FILES && slots[fd] == None && n in t
    ensures Books(SetOpens(t, n, t[n].opens + 1), next, slots[fd := Some(n)], handles, log, {})
  {
    var t' := SetOpens(t, n, t[n].opens + 1);
    forall m: nat ensures Openers(slots[fd := Some(n)], handles, m) == if m in t' then t'[m].opens else 0 {
      UsesAfter(slots, fd, Some(n), m);
      assert Openers(slots, handles, m) == if m in t then t[m].opens else 0;
    }
  }

  lemma TakeHandleBooks(t: Store, next: nat, slots: seq<Option<nat>>, handles: multiset<nat>, log: seq<nat>, n: nat)
    requires Books(t, next, slots, handles, log, {}) && n in t
    ensures Books(SetOpens(t, n, t[n].opens + 1), next, slots, handles + multiset{n}, log, {})
  {
    assert forall m: nat :: Openers(slots, handles + multiset{n}, m) == Openers(slots, handles, m) + Bit(m == n);
  }

  lemma AddBooks(t: Store, next: nat, slots: seq<Option<nat>>, handles: multiset<nat>, log: seq<nat>, d: nat,
                 node: Node)
    requires Books(t, next, slots, handles, log, {}) && CanAdd(t, d, next, node)
    ensures Books(AddChild(t, d, next, node), next + 1, slots, handles, log, {})
  {
  }

  // ---------------------------------------------------------------- opening

  /** The lowest free descriptor, or the number of descriptors if all are taken. */
  function LowestFree(slots: seq<Option<nat>>): (fd: nat)
    ensures fd <= |slots| && (forall i | 0 <= i < fd :: slots[i].Some?) && (fd < |slots| ==> slots[fd].None?)
  {
    if slots == [] || slots[0].None? then 0 else 1 + LowestFree(slots[1..])
  }

  /** Store, table and result when record `n` is to be opened. */
  function Opened(t: Store, slots: seq<Option<nat>>, n: nat, allowed: bool): (Store, seq<Option<nat>>, Result)
    requires n in t
  {
    var fd := LowestFree(slots);
    if fd == |slots| then (t, slots, Error(EMFILE))
    else if !allowed then (t, slots, Error(EACCES))
    else (SetOpens(t, n, t[n].opens + 1), slots[fd := Some(n)], Fd(fd))
  }

  /** The same for a path that was not found: the file made for it is opened. */
  ghost function OpenedNew(t: Store, next: nat, slots: seq<Option<nat>>, path: Path, allowed: bool)
    : (Store, nat, seq<Option<nat>>, Result)
    requires TreeOk(t) && Fresh(t, next) && Anchored(t, ROOT) && path != []
  {
    CreationOk(t, next, path);
    var (u, n, made) := Creation(t, next, path);
    if made != Ok then (u, n, slots, made)
    else
      var (t', slots', r) := Opened(u, slots, n - 1, allowed);
      (t', n, slots', r)
  }

  /** What a call may give back: one record at most, and only the one whose last holder it took away. */
  ghost predicate GivesBack(t: Store, log: seq<nat>, t': Store, log': seq<nat>) {
    || (log' == log && t.Keys <= t'.Keys)
    || exists n | n in t :: t[n].links + t[n].opens == 1 && log' == log + [n] && t'.Keys == t.Keys - {n}
  }

  /** The calls a program can make. */
  datatype Call =
    | CallOpen(path: Path, create: bool, exclusive: bool, allowed: bool)
    | CallClose(fd: nat)
    | CallUnlink(path: Path)
    | CallMkdir(path: Path)
    | CallRmdir(path: Path)
    | CallOpenDir(path: Path)
    | CallCloseDir(handle: nat)

  class FileSystem {
    var nodes: Store
    var next: nat
    var slots: seq<Option<nat>>
    var handles: multiset<nat>
    ghost var log: seq<nat>

    ghost predicate Valid()
      reads this
    {
      TreeOk(nodes) && Books(nodes, next, slots, handles, log, {})
    }

    constructor ()
      ensures Valid() && log == [] && nodes == BareRoot() && next == 1 && forall i | 0 <= i < |slots| :: slots[i].None?
    {
      nodes := BareRoot();
      next, slots, handles, log := 1, seq(MAX_FILES, _ => None), multiset{}, [];
      new;
      assert forall i | 0 <= i < |slots| :: slots[i] == None;
      forall n: nat ensures Openers(slots, handles, n) == 0 {
        NoUses(slots, n);
      }
    }

    /** free_data */
    method FreeData(n: nat)
      requires TreeOk(nodes) && Books(nodes, next, slots, handles, log, {n}) && n in nodes
      modifies this`nodes, this`log
      ensures Valid()
      ensures old(Unheld(nodes, n)) ==> nodes == old(nodes) - {n} && log == old(log) + [n]
      ensures !old(Unheld(nodes, n)) ==> nodes == old(nodes) && log == old(log)
    {
      FreeBooks(nodes, next, slots, handles, log, n);
      if nodes[n].links != 0 || nodes[n].opens != 0 {
        return;
      }
      RemoveOk(nodes, n);
      nodes := nodes - {n};
      log := log + [n];
    }

    /** `n` has lost an opener; that may have been the last thing that held it. */
    twostate predicate Dropped(n: nat)
      reads this
    {
      && n in old(nodes) && old(nodes)[n].opens > 0 && next == old(next)
      && var t := SetOpens(old(nodes), n, old(nodes)[n].opens - 1);
         if Unheld(t, n) then nodes == t - {n} && log == old(log) + [n] else nodes == t && log == old(log)
    }

    /** dandelion_close.  The slot is cleared before the record may go; the code does it right after. */
    method Close(fd: nat) returns (r: Result)
      requires Valid() && fd < MAX_FILES
      modifies this
      ensures Valid() && handles == old(handles)
      ensures old(slots[fd]).None? ==>
                r == Error(EBADF) && nodes == old(nodes) && slots == old(slots) && log == old(log)
      ensures old(slots[fd]).Some? ==> r == Ok && slots == old(slots)[fd := None] && Dropped(old(slots[fd]).value)
      ensures Framed(old(nodes), nodes, {})
    {
      GrownRefl(nodes);
      if slots[fd].None? {
        return Error(EBADF);
      }
      var n := slots[fd].value;
      DropSlotBooks(nodes, next, slots, handles, log, fd, n);
      OpensOk(nodes, n, nodes[n].opens - 1);
      DropFrame(nodes, n);
      nodes := SetOpens(nodes, n, nodes[n].opens - 1);
      slots := slots[fd := None];
      FreeData(n);
      r := Ok;
    }

    /** dandelion_closedir */
    method CloseDir(n: nat) returns (r: Result)
      requires Valid() && n in handles
      modifies this
      ensures Valid() && r == Ok && slots == old(slots) && handles == old(handles) - multiset{n} && Dropped(n)
      ensures Framed(old(nodes), nodes, {})
    {
      DropHandleBooks(nodes, next, slots, handles, log, n);
      OpensOk(nodes, n, nodes[n].opens - 1);
      DropFrame(nodes, n);
      nodes := SetOpens(nodes, n, nodes[n].opens - 1);
      handles := handles - multiset{n};
      FreeData(n);
      r := Ok;
    }

    // -------------------------------------------------------------- unlinking

    /** The loop of dandelion_unlink that takes a record out of its parent's list. */
    static method TakeOut(kids: seq<nat>, n: nat) returns (left: seq<nat>)
      requires n in kids && Distinct(kids)
      ensures left == Without(kids, n)
    {
      if kids[0] == n {
        return kids[1..];
      }
      var i := 0;
      while kids[i + 1] != n
        invariant i < |kids| && n !in kids[..i + 1] && n in kids[i + 1..]
        decreases |kids| - i
      {
        assert kids[i + 1..][1..] == kids[i + 2..];
        i := i + 1;
      }
      assert i + 1 == IndexOf(kids, n);
      left := kids[..i + 1] + kids[i + 2..];
    }

    /** The name of `n` is gone; the record is too unless it is still open. */
    twostate predicate Unlinked(n: nat)
      reads this
    {
      && n in old(nodes) && Linked(old(nodes), n) && old(nodes)[n].links > 0
      && next == old(next) && slots == old(slots) && handles == old(handles)
      && var t := Detach(old(nodes), n);
         if Unheld(t, n) then nodes == t - {n} && log == old(log) + [n] else nodes == t && log == old(log)
    }

    method RemoveName(n: nat)
      requires Valid() && CanDetach(nodes, n)
      modifies this`nodes, this`log
      ensures Valid() && Unlinked(n) && Framed(old(nodes), nodes, {n})
    {
      var p := nodes[n].parent.value;
      assert DirOk(nodes, p);
      DetachOk(nodes, n);
      DetachBooks(nodes, next, slots, handles, log, n);
      ghost var t := Detach(nodes, n);
      DetachFrame(nodes, n);
      RemoveFrame(nodes, t, {n}, n);
      var left := TakeOut(nodes[p].kids, n);
      nodes := nodes[p := nodes[p].(kids := left)];
      nodes := nodes[n := nodes[n].(links := nodes[n].links - 1)];
      assert nodes == t;
      FreeData(n);
    }

    ghost function Found(path: Path): Option<nat>
      requires TreeOk(nodes)
      reads this
    {
      Resolve(nodes, ROOT, Components(path))
    }

    ghost predicate FindsDirectory(path: Path)
      requires TreeOk(nodes)
      reads this
    {
      Found(path).Some? && nodes[Found(path).value].kind == Directory
    }

    /** A directory that can be removed: not the root, and empty. */
    ghost predicate FindsEmptyDirectory(path: Path)
      requires TreeOk(nodes)
      reads this
    {
      FindsDirectory(path) && Found(path).value != ROOT && nodes[Found(path).value].kids == []
    }

    twostate predicate Unchanged()
      reads this
    {
      nodes == old(nodes) && next == old(next) && slots == old(slots) && handles == old(handles) && log == old(log)
    }

    /** dandelion_unlink, on anything but a directory with children. */
    method Unlink(path: Path) returns (r: Result)
      requires Valid() && (Found(path).Some? && Found(path).value != ROOT ==> nodes[Found(path).value].kids == [])
      modifies this
      ensures Valid()
      ensures old(Found(path)).None? ==> r == Error(ENOTDIR) && Unchanged()
      ensures old(Found(path)) == Some(ROOT) ==> r == NullDereference && Unchanged()
      ensures old(Found(path)).Some? && old(Found(path)) != Some(ROOT) ==>
                r == Ok && Unlinked(old(Found(path)).value) && Framed(old(nodes), nodes, {old(Found(path)).value})
    {
      var found := FindFilePath(nodes, path);
      if found.None? {
        return Error(ENOTDIR);
      }
      if nodes[found.value].parent.None? {
        assert NodeOk(nodes, found.value);
        return NullDereference;
      }
      assert NodeOk(nodes, found.value) && NodeOk(nodes, ROOT);
      RemoveName(found.value);
      r := Ok;
    }

    /** dandelion_rmdir */
    method Rmdir(path: Path) returns (r: Result)
      requires Valid()
      modifies this
      ensures Valid() && (r != Ok ==> Unchanged())
      ensures r == Ok <==> old(FindsEmptyDirectory(path))
      ensures r == Ok ==> Unlinked(old(Found(path)).value) && Framed(old(nodes), nodes, {old(Found(path)).value})
    {
      var found := FindFilePath(nodes, path);
      if found.None? {
        return Error(ENOENT);
      }
      if nodes[found.value].kind != Directory {
        return Error(ENOTDIR);
      }
      if nodes[found.value].kids != [] {
        return Error(ENOTEMPTY);
      }
      r := Unlink(path);
    }

    // -------------------------------------------------------------- opening

    /** dandelion_opendir */
    method OpenDir(path: Path) returns (r: Result, handle: nat)
      requires Valid() && (Found(path).Some? ==> nodes[Found(path).value].opens + 1 < COUNT_RANGE)
      modifies this
      ensures Valid() && (r != Ok ==> Unchanged())
      ensures r == Ok <==> old(FindsDirectory(path))
      ensures r == Ok ==>
                && handle == old(Found(path)).value && handles == old(handles) + multiset{handle}
                && nodes == SetOpens(old(nodes), handle, old(nodes)[handle].opens + 1)
                && next == old(next) && slots == old(slots) && log == old(log)
      ensures Grown(old(nodes), nodes)
    {
      GrownRefl(nodes);
      handle := 0;
      var found := FindFilePath(nodes, path);
      if found.None? {
        return Error(ENOENT), 0;
      }
      if nodes[found.value].kind != Directory {
        return Error(ENOTDIR), 0;
      }
      handle := found.value;
      TakeHandle(handle);
      r := Ok;
    }

    method TakeHandle(n: nat)
      requires Valid() && n in nodes
      modifies this`nodes, this`handles
      ensures Valid() && handles == old(handles) + multiset{n} && Grown(old(nodes), nodes)
      ensures nodes == SetOpens(old(nodes), n, old(nodes)[n].opens + 1)
    {
      TakeHandleBooks(nodes, next, slots, handles, log, n);
      OpensOk(nodes, n, nodes[n].opens + 1);
      OpensFrame(nodes, n, nodes[n].opens + 1);
      nodes := SetOpens(nodes, n, nodes[n].opens + 1);
      handles := handles + multiset{n};
    }

    /** The search of dandelion_open for the lowest free descriptor. */
    method FindSlot() returns (fd: nat)
      requires |slots| == MAX_FILES
      ensures fd == LowestFree(slots)
    {
      fd := 0;
      while fd < MAX_FILES
        invariant fd <= MAX_FILES && forall i | 0 <= i < fd :: slots[i].Some?
      {
        if slots[fd].None? {
          break;
        }
        fd := fd + 1;
      }
    }

    /** open_existing_file, without O_TRUNC; `allowed` is what the permission bits say. */
    method OpenExisting(fd: nat, n: nat, allowed: bool) returns (r: Result)
      requires Valid() && fd < MAX_FILES && slots[fd].None? && n in nodes
      modifies this
      ensures Valid() && next == old(next) && handles == old(handles) && log == old(log)
      ensures !allowed ==> r == Error(EACCES) && Unchanged()
      ensures allowed ==>
                r == Fd(fd) && slots == old(slots)[fd := Some(n)]
                  && nodes == SetOpens(old(nodes), n, old(nodes)[n].opens + 1)
      ensures Grown(old(nodes), nodes)
    {
      GrownRefl(nodes);
      if !allowed {
        return Error(EACCES);
      }
      TakeSlotBooks(nodes, next, slots, handles, log, fd, n);
      OpensOk(nodes, n, nodes[n].opens + 1);
      OpensFrame(nodes, n, nodes[n].opens + 1);
      nodes := SetOpens(nodes, n, nodes[n].opens + 1);
      slots := slots[fd := Some(n)];
      r := Fd(fd);
    }

    // -------------------------------------------------------------- creating

    /** The loop of link_file_to_folder that looks for the place of a name. */
    static method FindPlace(t: Store, kids: seq<nat>, name: Name) returns (p: nat)
      requires NUL !in name && forall i | 0 <= i < |kids| :: kids[i] in t && NUL !in t[kids[i]].name
      ensures p == InsertPos(t, kids, name, 0)
    {
      if kids == [] {
        return 0;
      }
      EffectiveName(name);
      assert name[..|name|] == name;
      var other := t[kids[0]].name;
      EffectiveName(other);
      assert other[..|other|] == other;
      var order := NameCmp(name, |name|, other, |other|);
      if order < 0 {
        return 0;
      }
      p := 1;
      while p < |kids|
        invariant 1 <= p <= |kids| && InsertPos(t, kids, name, p) == InsertPos(t, kids, name, 0)
      {
        other := t[kids[p]].name;
        EffectiveName(other);
        assert other[..|other|] == other;
        order := NameCmp(name, |name|, other, |other|);
        if order < 0 {
          break;
        }
        p := p + 1;
      }
    }

    /** A new record, linked into directory `d`: create_file or a new directory, then
        link_file_to_folder. */
    method LinkNew(d: nat, node: Node) returns (n: nat)
      requires Valid() && CanAdd(nodes, d, next, node)
      modifies this`nodes, this`next
      ensures Valid() && n == old(next) && next == old(next) + 1 && nodes == AddChild(old(nodes), d, n, node)
      ensures Anchored(nodes, n)
    {
      AddChildOk(nodes, d, next, node);
      AddBooks(nodes, next, slots, handles, log, d, node);
      forall i | 0 <= i < |nodes[d].kids| ensures NUL !in nodes[nodes[d].kids[i]].name {
        assert NodeOk(nodes, nodes[d].kids[i]);
      }
      n := next;
      var p := FindPlace(nodes, nodes[d].kids, node.name);
      nodes := nodes[d := nodes[d].(kids := nodes[d].kids[..p] + [n] + nodes[d].kids[p..])][n := node];
      next := next + 1;
    }

    /** create_directories for one component. */
    method EnterDirectory(d: nat, c: Path, preventUp: bool) returns (o: Outcome)
      requires Valid() && Anchored(nodes, d) && DirOk(nodes, d)
      modifies this`nodes, this`next
      ensures Valid() && (nodes, next, o) == Enter(old(nodes), old(next), d, c, preventUp)
      ensures o.Reached? ==> Anchored(nodes, o.dir)
    {
      if |c| > NAME_LENGTH {
        return Refused;
      } else if |c| == 1 && c[0] == DOT {
        return Reached(d);
      } else if |c| == 2 && c[0] == DOT && c[1] == DOT {
        if preventUp {
          return Refused;
        }
        if nodes[d].parent.None? {
          return Reached(d);
        }
        ParentAnchored(nodes, d);
        return Reached(nodes[d].parent.value);
      }
      if nodes[d].kind != Directory {
        return NotADirectory;
      }
      var n := EnterByName(d, c);
      o := Reached(n);
    }

    method EnterByName(d: nat, c: Path) returns (n: nat)
      requires Valid() && Anchored(nodes, d) && DirOk(nodes, d) && nodes[d].kind == Directory && !IsDot(c)
               && !IsDotDot(c)
      modifies this`nodes, this`next
      ensures Valid() && Anchored(nodes, n)
      ensures (nodes, next, n) == EnterName(old(nodes), old(next), d, c)
    {
      var found := FindFileInDir(nodes, d, c);
      if found.Some? {
        return found.value;
      }
      n := MakeDirectoryIn(d, c);
    }

    method MakeDirectoryIn(d: nat, c: Path) returns (n: nat)
      requires Valid() && Anchored(nodes, d) && DirOk(nodes, d) && nodes[d].kind == Directory
      requires LookupIn(nodes, nodes[d].kids, Effective(c)).None?
      modifies this`nodes, this`next
      ensures Valid() && Anchored(nodes, n)
      ensures (nodes, next, n) == EnterName(old(nodes), old(next), d, c)
    {
      n := LinkNew(d, NewDirectory(c, d));
    }

    /** create_directories */
    method CreateDirectories(d: nat, path: Path, preventUp: bool) returns (o: Outcome)
      requires Valid() && Anchored(nodes, d)
      modifies this`nodes, this`next
      ensures Valid()
      ensures (nodes, next, o) == if old(nodes)[d].kind != Directory then (old(nodes), old(next), Refused)
                                  else CreateDirs(old(nodes), old(next), d, Components(path), preventUp)
      ensures Grown(old(nodes), nodes)
    {
      GrownRefl(nodes);
      CreateGrows(nodes, next, d, Components(path), preventUp);
      if nodes[d].kind != Directory {
        return Refused;
      }
      ghost var whole := CreateDirs(nodes, next, d, Components(path), preventUp);
      var dir := d;
      var component, rest := GetComponentAdvance(path);
      while component != []
        invariant Valid() && Anchored(nodes, dir)
        invariant CreateDirs(nodes, next, dir, Piece(component) + Components(rest), preventUp) == whole
        invariant component == [] ==> rest == []
        decreases |rest|, |component|
      {
        assert (Piece(component) + Components(rest))[1..] == Components(rest);
        assert DirOk(nodes, dir);
        o := EnterDirectory(dir, component, preventUp);
        if !o.Reached? {
          return;
        }
        dir := o.dir;
        component, rest := GetComponentAdvance(rest);
      }
      o := Reached(dir);
    }

    /** dandelion_mkdir; the mode bits are left out. */
    method Mkdir(path: Path) returns (r: Result)
      requires Valid() && path != []
      modifies this
      ensures Valid() && slots == old(slots) && handles == old(handles) && log == old(log)
      ensures var parent := old(Found(DirectoryPart(path)));
              && (parent.None? ==> r == Error(ENOENT) && Unchanged())
              && (parent.Some? && old(nodes)[parent.value].kind != Directory ==> r == Error(ENOTDIR) && Unchanged())
              && (parent.Some? && old(nodes)[parent.value].kind == Directory ==>
                    && KidsIn(old(nodes), old(nodes)[parent.value].kids)
                    && if FindIn(old(nodes), parent.value, FilePart(path)).Some? then r == Error(EEXIST) && Unchanged()
                       else
                         var (t, n, o) :=
                             CreateDirs(old(nodes), old(next), parent.value, Components(FilePart(path)), false);
                         (nodes, next) == (t, n) && r == if o.Reached? then Ok else Error(ENOMEM))
      ensures r == Ok ==>
                (LeadsToNew(old(nodes), nodes, path) <==> path[|path| - 1] != SLASH && !IsDotDot(FilePart(path)))
      ensures Grown(old(nodes), nodes)
    {
      GrownRefl(nodes);
      var directories := GetDirectories(path);
      var name := GetFile(path);
      var parent := FindFilePath(nodes, directories);
      if parent.None? {
        return Error(ENOENT);
      }
      if nodes[parent.value].kind != Directory {
        return Error(ENOTDIR);
      }
      assert DirOk(nodes, parent.value);
      var existing := FindFileInDir(nodes, parent.value, name);
      if existing.Some? {
        return Error(EEXIST);
      }
      ghost var t, k := nodes, next;
      var made := CreateDirectories(parent.value, name, false);
      r := if made.Reached? then Ok else Error(ENOMEM);
      if made.Reached? {
        MadeDirectoryIsFound(t, k, path, parent.value);
      }
    }

    /** The part of dandelion_open that makes a file that was not found. */
    method CreateFile(path: Path) returns (r: Result, n: nat)
      requires Valid() && path != []
      modifies this`nodes, this`next
      ensures Valid() && (nodes, next, r) == Creation(old(nodes), old(next), path)
      ensures r == Ok ==> n == next - 1 && n in nodes
      ensures Grown(old(nodes), nodes)
    {
      CreationGrows(nodes, next, path);
      n := 0;
      var directories := GetDirectories(path);
      var name := GetFile(path);
      if |name| >= NAME_LENGTH {
        return Error(EINVAL), 0;
      }
      var parent := CreateDirectories(ROOT, directories, false);
      r, n := PutFileAt(parent, name);
    }

    /** create_file and link_file_to_folder for a new, empty file. */
    method PutFileAt(o: Outcome, name: Path) returns (r: Result, n: nat)
      requires Valid() && (o.Reached? ==> Anchored(nodes, o.dir))
      modifies this`nodes, this`next
      ensures Valid() && (nodes, next, r) == PutFile(old(nodes), old(next), o, name)
      ensures r == Ok ==> n == next - 1 && n in nodes
    {
      n := 0;
      if !o.Reached? {
        return Error(ENOTDIR), 0;
      }
      assert DirOk(nodes, o.dir);
      if nodes[o.dir].kind != Directory {
        return Error(ENOTDIR), 0;
      }
      n := LinkNew(o.dir, NewFile(name, o.dir));
      r := Ok;
    }

    /** The second half of dandelion_open. */
    method OpenLowest(n: nat, allowed: bool) returns (r: Result)
      requires Valid() && n in nodes
      modifies this
      ensures Valid() && handles == old(handles) && log == old(log) && next == old(next)
      ensures (nodes, slots, r) == Opened(old(nodes), old(slots), n, allowed)
      ensures Grown(old(nodes), nodes)
    {
      GrownRefl(nodes);
      var fd := FindSlot();
      if fd == MAX_FILES {
        return Error(EMFILE);
      }
      r := OpenExisting(fd, n, allowed);
    }

    method OpenNew(path: Path, allowed: bool) returns (r: Result)
      requires Valid() && path != []
      modifies this
      ensures Valid() && handles == old(handles) && log == old(log)
      ensures (nodes, next, slots, r) == OpenedNew(old(nodes), old(next), old(slots), path, allowed)
      ensures Grown(old(nodes), nodes)
    {
      var n;
      ghost var t := nodes;
      r, n := CreateFile(path);
      if r == Ok {
        ghost var u := nodes;
        r := OpenLowest(n, allowed);
        GrownTrans(t, u, nodes);
      }
    }

    /** dandelion_open without O_TRUNC: a descriptor on the file the path leads to or, if there was none
        and one was asked for, on a new empty file. */
    method Open(path: Path, create: bool, exclusive: bool, allowed: bool) returns (r: Result)
      requires Valid()
      modifies this
      ensures Valid() && handles == old(handles) && log == old(log)
      ensures old(Found(path)).Some? && create && exclusive ==> r == Error(EEXIST) && Unchanged()
      ensures old(Found(path)).Some? && !(create && exclusive) ==>
                next == old(next)
                  && (nodes, slots, r) == Opened(old(nodes), old(slots), old(Found(path)).value, allowed)
      ensures old(Found(path)).None? && !create ==> r == Error(ENOENT) && Unchanged()
      ensures old(Found(path)).None? && create ==>
                path != [] && (nodes, next, slots, r) == OpenedNew(old(nodes), old(next), old(slots), path, allowed)
      ensures Grown(old(nodes), nodes)
    {
      GrownRefl(nodes);
      var found := FindFilePath(nodes, path);
      if exclusive && create && found.Some? {
        return Error(EEXIST);
      }
      if found.None? {
        if !create {
          return Error(ENOENT);
        }
        r := OpenNew(path, allowed);
      } else {
        r := OpenLowest(found.value, allowed);
      }
    }

    // -------------------------------------------------------------- whole runs

    /** What a call takes out of the list it is in. */
    ghost function TakesOut(call: Call): set<nat>
      requires TreeOk(nodes)
      reads this
    {
      match call
      case CallUnlink(path) =>
        if Found(path).Some? && nodes[Found(path).value].kind == Regular then {Found(path).value} else {}
      case CallRmdir(path) => if FindsEmptyDirectory(path) then {Found(path).value} else {}
      case _ => {}
    }

    /** One call, if the program may make it. */
    method Perform(call: Call)
      requires Valid()
      modifies this
      ensures Valid() && GivesBack(old(nodes), old(log), nodes, log)
      ensures Framed(old(nodes), nodes, old(TakesOut(call)))
    {
      GrownRefl(nodes);
      match call {
        case CallOpen(path, create, exclusive, allowed) => TryOpen(path, create, exclusive, allowed);
        case CallClose(fd) => TryClose(fd);
        case CallUnlink(path) => TryUnlink(path);
        case CallMkdir(path) => TryMkdir(path);
        case CallRmdir(path) => TryRmdir(path);
        case CallOpenDir(path) => TryOpenDir(path);
        case CallCloseDir(handle) => TryCloseDir(handle);
      }
    }

    method TryOpen(path: Path, create: bool, exclusive: bool, allowed: bool)
      requires Valid()
      modifies this
      ensures Valid() && log == old(log) && Grown(old(nodes), nodes)
    {
      var _ := Open(path, create, exclusive, allowed);
    }

    method TryClose(fd: nat)
      requires Valid()
      modifies this
      ensures Valid() && GivesBack(old(nodes), old(log), nodes, log) && Framed(old(nodes), nodes, {})
    {
      GrownRefl(nodes);
      if fd < MAX_FILES {
        var _ := Close(fd);
      }
    }

    method TryCloseDir(handle: nat)
      requires Valid()
      modifies this
      ensures Valid() && GivesBack(old(nodes), old(log), nodes, log) && Framed(old(nodes), nodes, {})
    {
      GrownRefl(nodes);
      if handle in handles {
        var _ := CloseDir(handle);
      }
    }

    method TryRmdir(path: Path)
      requires Valid()
      modifies this
      ensures Valid() && GivesBack(old(nodes), old(log), nodes, log)
      ensures Framed(old(nodes), nodes, old(TakesOut(CallRmdir(path))))
    {
      GrownRefl(nodes);
      var _ := Rmdir(path);
    }

    method TryUnlink(path: Path)
      requires Valid()
      modifies this
      ensures Valid() && GivesBack(old(nodes), old(log), nodes, log)
      ensures Framed(old(nodes), nodes, old(TakesOut(CallUnlink(path))))
    {
      GrownRefl(nodes);
      var found := FindFilePath(nodes, path);
      if found.Some? && nodes[found.value].kind == Regular {
        assert DirOk(nodes, found.value);
        var _ := Unlink(path);
      }
    }

    method TryMkdir(path: Path)
      requires Valid()
      modifies this
      ensures Valid() && log == old(log) && Grown(old(nodes), nodes)
    {
      GrownRefl(nodes);
      if path != [] {
        var _ := Mkdir(path);
      }
    }

    method TryOpenDir(path: Path)
      requires Valid()
      modifies this
      ensures Valid() && log == old(log) && Grown(old(nodes), nodes)
    {
      GrownRefl(nodes);
      var found := FindFilePath(nodes, path);
      if found.Some? && nodes[found.value].opens + 1 < COUNT_RANGE {
        var _, _ := OpenDir(path);
      }
    }

    /** Over every run of calls the invariant holds: open counts are exact, nothing open is ever given
        back, nothing without a holder is kept, and each record is given back at most once. */
    method Run(calls: seq<Call>)
      requires Valid()
      modifies this
      ensures Valid() && old(log) <= log
      ensures Distinct(log) && forall n: nat | n < next :: n in nodes <==> n !in log
      ensures forall n | n in nodes ::
                nodes[n].opens == multiset(slots)[Some(n)] + handles[n] && nodes[n].links + nodes[n].opens > 0
      ensures Kept(old(nodes), nodes)
    {
      KeptRefl(nodes);
      for i := 0 to |calls|
        invariant Valid() && old(log) <= log && Kept(old(nodes), nodes)
        invariant forall n | n in old(nodes) :: n in nodes || n in log
      {
        ghost var t, gone := nodes, TakesOut(calls[i]);
        Perform(calls[i]);
        KeptThen(old(nodes), t, nodes, gone);
      }
      forall n | n in nodes ensures nodes[n].opens == multiset(slots)[Some(n)] + handles[n] {
        assert Openers(slots, handles, n) == nodes[n].opens;
        UsesMeans(slots, n);
      }
    }
  }
}
