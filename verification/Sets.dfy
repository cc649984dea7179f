/** Input sets become directories of the tree, and the files below a directory become an output set:
    the pure side of fs_initialize and fs_terminate. */
module Sets {
  import opened Prelude
  import opened Names
  import opened Paths
  import opened Tree
  import opened Walk

  // ---------------------------------------------------------------- paths of records

  /** The names from below `top` down to `n`. */
  function PathFrom(t: Store, top: nat, n: nat): seq<Name>
    requires Under(t, top, n)
    decreases n
  {
    if n == top then [] else PathFrom(t, top, t[n].parent.value) + [t[n].name]
  }

  lemma {:induction false} PathSame(t: Store, t': Store, next: nat, top: nat, n: nat)
    requires Extends(t, t') && Fresh(t, next) && OnlyNew(t, t', next) && Under(t, top, n)
    ensures Under(t', top, n) && PathFrom(t', top, n) == PathFrom(t, top, n)
    decreases n
  {
    UnderSame(t, t', next, top, n);
    if n != top {
      PathSame(t, t', next, top, t[n].parent.value);
    }
  }

  lemma KidUnder(t: Store, top: nat, d: nat, x: nat)
    requires TreeOk(t) && Under(t, top, d) && x in t[d].kids && x != top
    ensures Under(t, top, x) && PathFrom(t, top, x) == PathFrom(t, top, d) + [t[x].name]
  {
    KidAnchored(t, d, x);
  }

  lemma {:induction false} UnderOrder(t: Store, top: nat, n: nat)
    requires Under(t, top, n)
    ensures top <= n && top in t
    decreases n
  {
    if n != top {
      UnderOrder(t, top, t[n].parent.value);
    }
  }

  // ---------------------------------------------------------------- putting items in

  datatype Item = Item(path: seq<Name>, bytes: seq<int>)

  /** A component that is an ordinary name. */
  predicate Plain(c: Path) {
    c != [] && |c| <= NAME_LENGTH && NUL !in c && SLASH !in c && !IsDot(c) && !IsDotDot(c)
  }

  predicate AllPlain(cs: seq<Path>) {
    forall i | 0 <= i < |cs| :: Plain(cs[i])
  }

  function FileNode(name: Name, d: nat, bytes: seq<int>): Node {
    Node(name, Regular, Some(d), [], 1, 0, false, bytes)
  }

  /** No regular file of the set stands on the way `cs`. */
  ghost predicate WayFree(t: Store, top: nat, cs: seq<Name>) {
    forall n {:trigger Under(t, top, n)} | Under(t, top, n) && t[n].kind == Regular :: !(PathFrom(t, top, n) <= cs)
  }

  /** Two directories in the same place never share a name. */
  ghost predicate OneDirectory(t: Store, top: nat) {
    forall x, y {:trigger Under(t, top, x), Under(t, top, y)} |
      Under(t, top, x) && Under(t, top, y) && x != top && y != top && t[x].kind == Directory && t[y].kind == Directory
      && t[x].parent == t[y].parent && t[x].name == t[y].name :: x == y
  }

  /** Everything below `top` is linked once. */
  ghost predicate LinkedOnce(t: Store, top: nat) {
    forall n {:trigger Under(t, top, n)} | Under(t, top, n) && n != top :: t[n].links == 1 && !t[n].pinned
  }

  /** Of children with one name only the first can be a directory. */
  ghost predicate LastIn(t: Store, kids: seq<nat>) {
    && KidsIn(t, kids)
    && forall i, j | 0 <= i < j < |kids| && t[kids[i]].name == t[kids[j]].name :: t[kids[j]].kind == Regular
  }

  /** Files stand behind a directory of the same name. */
  ghost predicate FilesLast(t: Store, top: nat) {
    forall d {:trigger Under(t, top, d)} | Under(t, top, d) :: LastIn(t, t[d].kids)
  }

  ghost predicate Tidy(t: Store, top: nat) {
    LinkedOnce(t, top) && OneDirectory(t, top) && FilesLast(t, top)
  }

  lemma LastInAfter(t: Store, d: nat, n: nat, node: Node)
    requires CanAdd(t, d, n, node) && DirOk(t, d) && LastIn(t, t[d].kids)
    requires node.kind == Regular || LookupIn(t, t[d].kids, node.name).None?
    ensures var t' := AddChild(t, d, n, node); LastIn(t', t'[d].kids)
  {
    var kids, t' := t[d].kids, AddChild(t, d, n, node);
    var p := InsertPos(t, kids, node.name, 0);
    LookupComplete(t, kids, node.name);
    AddChildDir(t, d, n, node);
    if p < |kids| {
      CompareFlip(node.name, t[kids[p]].name);
      NoneLater(t, kids, node.name, p);
    }
    LastInInserted(t, t', kids, p, n);
  }

  lemma LastInInserted(t: Store, t': Store, kids: seq<nat>, p: nat, n: nat)
    requires LastIn(t, kids) && p <= |kids| && n in t'
    requires forall i | 0 <= i < |kids| ::
               kids[i] in t' && t'[kids[i]].name == t[kids[i]].name && t'[kids[i]].kind == t[kids[i]].kind
    requires forall j | p <= j < |kids| :: t[kids[j]].name != t'[n].name
    requires t'[n].kind == Regular || forall j | 0 <= j < |kids| :: t[kids[j]].name != t'[n].name
    ensures LastIn(t', Inserted(kids, p, n))
  {
    var kids' := Inserted(kids, p, n);
    forall i, j | 0 <= i < j < |kids'| && t'[kids'[i]].name == t'[kids'[j]].name ensures t'[kids'[j]].kind == Regular {
      var a, b := if i < p then i else i - 1, if j < p then j else j - 1;
      if i != p && j != p {
        assert kids'[i] == kids[a] && kids'[j] == kids[b] && a < b;
      } else if j == p {
        assert kids'[j] == n && kids'[i] == kids[a];
      }
    }
  }

  lemma LastInSame(t: Store, t': Store, x: nat)
    requires x in t && x in t' && LastIn(t, t[x].kids) && t'[x].kids == t[x].kids
    requires forall m | m in t :: m in t' && t'[m] == t[m].(kids := t'[m].kids)
    ensures LastIn(t', t'[x].kids)
  {
  }

  lemma FilesLastAfter(t: Store, next: nat, top: nat, d: nat, node: Node)
    requires CanAdd(t, d, next, node) && Fresh(t, next) && FilesLast(t, top)
    requires node.kind == Regular || LookupIn(t, t[d].kids, node.name).None?
    ensures FilesLast(AddChild(t, d, next, node), top)
  {
    var t' := AddChild(t, d, next, node);
    forall x {:trigger Under(t', top, x)} | Under(t', top, x) ensures LastIn(t', t'[x].kids) {
      if x != next {
        PathUnmoved(t, t', next, top, x);
        assert DirOk(t, x);
        if x == d {
          LastInAfter(t, d, next, node);
        } else {
          LastInSame(t, t', x);
        }
      }
    }
  }

  lemma TidyLinked(t: Store, top: nat, n: nat)
    requires TreeOk(t) && LinkedOnce(t, top) && Under(t, top, n) && n != top
    ensures t[n].parent.Some? && t[n].parent.value in t && n in t[t[n].parent.value].kids
  {
    assert NodeOk(t, n);
  }

  lemma LinkedOnceAfter(t: Store, t': Store, next: nat, top: nat)
    requires LinkedOnce(t, top) && Fresh(t, next) && OnlyNew(t, t', next)
    requires forall m | m in t :: m in t' && t'[m] == t[m].(kids := t'[m].kids)
    requires forall m | m in t' && m !in t :: t'[m].links == 1 && !t'[m].pinned
    ensures LinkedOnce(t', top)
  {
    forall n {:trigger Under(t', top, n)} | Under(t', top, n) && n != top ensures t'[n].links == 1 && !t'[n].pinned {
      if n in t {
        PathUnmoved(t, t', next, top, n);
      }
    }
  }

  /** A new directory under a name that was not there keeps directory names unique. */
  lemma OneDirectoryAfter(t: Store, next: nat, top: nat, d: nat, node: Node)
    requires CanAdd(t, d, next, node) && Fresh(t, next) && Tidy(t, top) && LookupIn(t, t[d].kids, node.name).None?
    ensures OneDirectory(AddChild(t, d, next, node), top)
  {
    var t' := AddChild(t, d, next, node);
    LookupComplete(t, t[d].kids, node.name);
    forall x, y {:trigger Under(t', top, x), Under(t', top, y)} |
      Under(t', top, x) && Under(t', top, y) && x != top && y != top && t'[x].kind == Directory
        && t'[y].kind == Directory
      && t'[x].parent == t'[y].parent && t'[x].name == t'[y].name
      ensures x == y
    {
      if x != next {
        PathUnmoved(t, t', next, top, x);
        TidyLinked(t, top, x);
      }
      if y != next {
        PathUnmoved(t, t', next, top, y);
        TidyLinked(t, top, y);
      }
    }
  }

  /** A file does not affect directory names. */
  lemma OneDirectoryAfterFile(t: Store, t': Store, next: nat, top: nat)
    requires OneDirectory(t, top) && Fresh(t, next)
    requires forall m | m in t :: m in t' && t'[m] == t[m].(kids := t'[m].kids)
    requires forall m | m in t' :: m in t || (m == next && t'[m].kind == Regular)
    ensures OneDirectory(t', top)
  {
    forall x, y {:trigger Under(t', top, x), Under(t', top, y)} |
      Under(t', top, x) && Under(t', top, y) && x != top && y != top && t'[x].kind == Directory
        && t'[y].kind == Directory
      && t'[x].parent == t'[y].parent && t'[x].name == t'[y].name
      ensures x == y
    {
      PathUnmoved(t, t', next, top, x);
      PathUnmoved(t, t', next, top, y);
    }
  }

  lemma EnterNameTidy(t: Store, next: nat, top: nat, d: nat, c: Path)
    requires TreeOk(t) && Fresh(t, next) && Anchored(t, d) && Tidy(t, top) && DirOk(t, d) && t[d].kind == Directory
    ensures Tidy(EnterName(t, next, d, c).0, top)
  {
    if LookupIn(t, t[d].kids, Effective(c)).None? {
      AddTidy(t, next, top, d, NewDirectory(c, d));
    }
  }

  lemma AddTidy(t: Store, next: nat, top: nat, d: nat, node: Node)
    requires CanAdd(t, d, next, node) && Fresh(t, next) && Tidy(t, top) && !node.pinned
    requires LookupIn(t, t[d].kids, node.name).None?
    ensures Tidy(AddChild(t, d, next, node), top)
  {
    OneDirectoryAfter(t, next, top, d, node);
    LinkedOnceAfter(t, AddChild(t, d, next, node), next, top);
    FilesLastAfter(t, next, top, d, node);
  }

  lemma EnterTidy(t: Store, next: nat, top: nat, d: nat, c: Path)
    requires TreeOk(t) && Fresh(t, next) && Anchored(t, d) && Tidy(t, top) && DirOk(t, d)
    ensures Tidy(Enter(t, next, d, c, true).0, top)
  {
    if t[d].kind == Directory {
      EnterNameTidy(t, next, top, d, c);
    }
  }

  lemma {:induction false} CreateTidy(t: Store, next: nat, top: nat, d: nat, cs: seq<Path>)
    requires TreeOk(t) && Fresh(t, next) && Anchored(t, d) && Tidy(t, top)
    ensures Tidy(CreateDirs(t, next, d, cs, true).0, top)
    decreases |cs|
  {
    if cs != [] {
      assert DirOk(t, d);
      EnterTidy(t, next, top, d, cs[0]);
      EnterOk(t, next, d, cs[0], true);
      var (t', next', o) := Enter(t, next, d, cs[0], true);
      if o.Reached? {
        CreateTidy(t', next', top, o.dir, cs[1..]);
      }
    }
  }

  lemma EnterPlain(t: Store, next: nat, top: nat, d: nat, c: Path, rest: seq<Name>)
    requires TreeOk(t) && Fresh(t, next) && Anchored(t, d) && Under(t, top, d) && t[d].kind == Directory && Plain(c)
    requires WayFree(t, top, PathFrom(t, top, d) + [c] + rest)
    ensures var (t', next', o) := Enter(t, next, d, c, true);
            && o.Reached? && o.dir in t' && t'[o.dir].kind == Directory
            && Under(t', top, o.dir) && PathFrom(t', top, o.dir) == PathFrom(t, top, d) + [c]
  {
    assert DirOk(t, d);
    EffectiveName(c);
    UnderOrder(t, top, d);
    var (t', next', o) := Enter(t, next, d, c, true);
    var found := LookupIn(t, t[d].kids, c);
    if found.Some? {
      var x := found.value;
      KidAnchored(t, d, x);
      KidUnder(t, top, d, x);
      assert PathFrom(t, top, x) <= PathFrom(t, top, d) + [c] + rest;
    } else {
      EnterExtends(t, next, d, c, true);
      EnterChanges(t, next, d, c, true);
      PathSame(t, t', next, top, d);
    }
  }

  lemma WayStaysFree(t: Store, t': Store, next: nat, top: nat, cs: seq<Name>)
    requires Extends(t, t') && Fresh(t, next) && OnlyNew(t, t', next) && WayFree(t, top, cs)
    requires forall n | n in t' && n !in t :: t'[n].kind == Directory
    ensures WayFree(t', top, cs)
  {
    forall n {:trigger Under(t', top, n)} | Under(t', top, n) && t'[n].kind == Regular
      ensures !(PathFrom(t', top, n) <= cs)
    {
      UnderSame(t, t', next, top, n);
      PathSame(t, t', next, top, n);
    }
  }

  lemma EnterOnlyDirectories(t: Store, next: nat, d: nat, c: Path)
    requires TreeOk(t) && Fresh(t, next) && Anchored(t, d)
    ensures var t' := Enter(t, next, d, c, true).0; forall n | n in t' && n !in t :: t'[n].kind == Directory
  {
  }

  /** Directories for a path along which no file stands are always made, and lead where the path says. */
  lemma {:induction false} CreatePlain(t: Store, next: nat, top: nat, d: nat, cs: seq<Path>)
    requires TreeOk(t) && Fresh(t, next) && Anchored(t, d) && Under(t, top, d) && t[d].kind == Directory && AllPlain(cs)
    requires WayFree(t, top, PathFrom(t, top, d) + cs)
    ensures var (t', next', o) := CreateDirs(t, next, d, cs, true);
            && o.Reached? && o.dir in t' && t'[o.dir].kind == Directory && OnlyNew(t, t', next)
            && Under(t', top, o.dir) && PathFrom(t', top, o.dir) == PathFrom(t, top, d) + cs
            && forall n | n in t' && n !in t :: t'[n].kind == Directory
    decreases |cs|
  {
    if cs == [] {
      assert PathFrom(t, top, d) + cs == PathFrom(t, top, d);
    } else {
      var c, rest, p := cs[0], cs[1..], PathFrom(t, top, d);
      assert p + [c] + rest == p + cs;
      EnterPlain(t, next, top, d, c, rest);
      EnterOk(t, next, d, c, true);
      EnterChanges(t, next, d, c, true);
      EnterExtends(t, next, d, c, true);
      EnterOnlyDirectories(t, next, d, c);
      var (t', next', o) := Enter(t, next, d, c, true);
      WayStaysFree(t, t', next, top, p + cs);
      CreatePlain(t', next', top, o.dir, rest);
      CreateExtends(t', next', o.dir, rest, true);
    }
  }

  /** The files of the set are exactly `ids`, one for each item, with its path and bytes. */
  ghost predicate Holds(t: Store, next: nat, top: nat, items: seq<Item>, ids: seq<nat>) {
    && TreeOk(t) && Fresh(t, next) && Anchored(t, top) && t[top].kind == Directory && Tidy(t, top)
    && |ids| == |items| && Distinct(ids)
    && (forall j | 0 <= j < |ids| :: IsItem(t, top, ids[j], items[j]))
    && (forall n {:trigger Under(t, top, n)} | Under(t, top, n) && t[n].kind == Regular :: n in ids)
  }

  ghost predicate IsItem(t: Store, top: nat, n: nat, item: Item) {
    Under(t, top, n) && t[n].kind == Regular && PathFrom(t, top, n) == item.path && t[n].content == item.bytes
  }

  predicate GoodItem(item: Item) {
    item.path != [] && AllPlain(item.path)
  }

  /** No item stands where a later one needs a directory. */
  predicate Compatible(items: seq<Item>, item: Item) {
    forall j | 0 <= j < |items| :: !(items[j].path < item.path)
  }

  lemma WayFreeFor(t: Store, next: nat, top: nat, items: seq<Item>, ids: seq<nat>, item: Item)
    requires Holds(t, next, top, items, ids) && GoodItem(item) && Compatible(items, item)
    ensures WayFree(t, top, item.path[..|item.path| - 1])
  {
    var way := item.path[..|item.path| - 1];
    forall n {:trigger Under(t, top, n)} | Under(t, top, n) && t[n].kind == Regular
      ensures !(PathFrom(t, top, n) <= way)
    {
      var j :| 0 <= j < |ids| && ids[j] == n;
      assert IsItem(t, top, ids[j], items[j]);
      var p := items[j].path;
      assert p <= way ==> p < item.path;
    }
  }

  lemma ItemKept(t: Store, t': Store, next: nat, top: nat, n: nat, item: Item)
    requires Extends(t, t') && Fresh(t, next) && OnlyNew(t, t', next) && IsItem(t, top, n, item)
    ensures IsItem(t', top, n, item)
  {
    PathSame(t, t', next, top, n);
  }

  /** A linked record keeps the paths of all others. */
  lemma {:induction false} PathUnmoved(t: Store, t': Store, next: nat, top: nat, n: nat)
    requires Fresh(t, next) && OnlyNew(t, t', next) && n in t
    requires forall m | m in t :: m in t' && t'[m].parent == t[m].parent && t'[m].name == t[m].name
    ensures Under(t', top, n) <==> Under(t, top, n)
    ensures Under(t, top, n) ==> PathFrom(t', top, n) == PathFrom(t, top, n)
    decreases n
  {
    if t[n].parent.Some? && t[n].parent.value < n && t[n].parent.value in t {
      PathUnmoved(t, t', next, top, t[n].parent.value);
    }
  }

  lemma AddedFile(t: Store, next: nat, top: nat, d: nat, name: Name, bytes: seq<int>)
    requires TreeOk(t) && Fresh(t, next) && Anchored(t, d) && Under(t, top, d) && t[d].kind == Directory && NUL !in name
    ensures DirOk(t, d)
    ensures var t' := AddChild(t, d, next, FileNode(name, d, bytes));
            && TreeOk(t') && Fresh(t', next + 1) && OnlyNew(t, t', next)
            && IsItem(t', top, next, Item(PathFrom(t, top, d) + [name], bytes))
  {
    assert DirOk(t, d);
    var node := FileNode(name, d, bytes);
    AddChildOk(t, d, next, node);
    UnderOrder(t, top, d);
    PathUnmoved(t, AddChild(t, d, next, node), next, top, d);
  }

  lemma HoldsAfterDirectories(t: Store, next: nat, t': Store, next': nat, top: nat, items: seq<Item>, ids: seq<nat>)
    requires Holds(t, next, top, items, ids) && TreeOk(t') && Fresh(t', next') && Extends(t, t') && OnlyNew(t, t', next)
    requires Tidy(t', top)
    requires forall n | n in t' && n !in t :: t'[n].kind == Directory
    ensures Holds(t', next', top, items, ids)
  {
    ExtendsAnchored(t, t', top);
    forall j | 0 <= j < |ids| ensures IsItem(t', top, ids[j], items[j]) {
      assert IsItem(t, top, ids[j], items[j]);
      ItemKept(t, t', next, top, ids[j], items[j]);
    }
    forall n {:trigger Under(t', top, n)} | Under(t', top, n) && t'[n].kind == Regular ensures n in ids {
      UnderSame(t, t', next, top, n);
    }
  }

  lemma HoldsAfterFile(t: Store, next: nat, t': Store, top: nat, items: seq<Item>, ids: seq<nat>, item: Item)
    requires Holds(t, next, top, items, ids) && TreeOk(t') && Fresh(t', next + 1)
    requires forall m | m in t :: m in t' && t'[m] == t[m].(kids := t'[m].kids)
    requires forall m | m in t' :: m in t || m == next
    requires IsItem(t', top, next, item) && Anchored(t', top) && t'[next].links == 1 && !t'[next].pinned
    requires FilesLast(t', top)
    ensures Holds(t', next + 1, top, items + [item], ids + [next])
  {
    var items', ids' := items + [item], ids + [next];
    forall j | 0 <= j < |ids'| ensures IsItem(t', top, ids'[j], items'[j]) {
      if j < |ids| {
        assert IsItem(t, top, ids[j], items[j]);
        PathUnmoved(t, t', next, top, ids[j]);
      }
    }
    forall n {:trigger Under(t', top, n)} | Under(t', top, n) && t'[n].kind == Regular ensures n in ids' {
      if n != next {
        PathUnmoved(t, t', next, top, n);
        assert n in ids;
      } else {
        assert ids'[|ids|] == next;
      }
    }
    OneDirectoryAfterFile(t, t', next, top);
    LinkedOnceAfter(t, t', next, top);
    forall i, j | 0 <= i < j < |ids'| ensures ids'[i] != ids'[j] {
      assert IsItem(t, top, ids[i], items[i]);
    }
  }

  lemma TopStays(t: Store, d: nat, next: nat, node: Node, top: nat)
    requires CanAdd(t, d, next, node) && Anchored(t, top)
    ensures Anchored(AddChild(t, d, next, node), top)
  {
    AddChildNode(t, d, next, node, top);
  }

  lemma ItemDirectories(t: Store, next: nat, top: nat, items: seq<Item>, ids: seq<nat>, item: Item)
    requires Holds(t, next, top, items, ids) && GoodItem(item) && Compatible(items, item)
    ensures var way := item.path[..|item.path| - 1];
            var (t', next', o) := CreateDirs(t, next, top, way, true);
            && o.Reached? && Holds(t', next', top, items, ids) && Anchored(t', o.dir) && t'[o.dir].kind == Directory
            && Under(t', top, o.dir) && PathFrom(t', top, o.dir) == way
  {
    var way := item.path[..|item.path| - 1];
    WayFreeFor(t, next, top, items, ids, item);
    assert PathFrom(t, top, top) + way == way;
    CreatePlain(t, next, top, top, way);
    CreateExtends(t, next, top, way, true);
    var (t', next', o) := CreateDirs(t, next, top, way, true);
    CreateTidy(t, next, top, top, way);
    HoldsAfterDirectories(t, next, t', next', top, items, ids);
  }

  lemma ItemFile(t: Store, next: nat, top: nat, items: seq<Item>, ids: seq<nat>, d: nat, name: Name, item: Item)
    requires Holds(t, next, top, items, ids) && Anchored(t, d) && t[d].kind == Directory && NUL !in name
    requires Under(t, top, d) && item.path == PathFrom(t, top, d) + [name]
    ensures DirOk(t, d)
    ensures Holds(AddChild(t, d, next, FileNode(name, d, item.bytes)), next + 1, top, items + [item], ids + [next])
  {
    AddedFile(t, next, top, d, name, item.bytes);
    var node := FileNode(name, d, item.bytes);
    TopStays(t, d, next, node, top);
    FilesLastAfter(t, next, top, d, node);
    HoldsAfterFile(t, next, AddChild(t, d, next, node), top, items, ids, item);
  }

  // ---------------------------------------------------------------- taking the files out

  /** The regular files at and below `n`, in the order of the lists: add_output_from_file. */
  ghost function FilesUnder(t: Store, bound: nat, n: nat): seq<nat>
    requires TreeOk(t) && Fresh(t, bound) && n in t
    decreases bound - n, |t[n].kids| + 1
  {
    if t[n].kind == Regular then [n] else FilesIn(t, bound, n, 0)
  }

  ghost function FilesIn(t: Store, bound: nat, d: nat, i: nat): seq<nat>
    requires TreeOk(t) && Fresh(t, bound) && d in t && i <= |t[d].kids|
    decreases bound - d, |t[d].kids| - i
  {
    assert DirOk(t, d);
    if i == |t[d].kids| then [] else FilesUnder(t, bound, t[d].kids[i]) + FilesIn(t, bound, d, i + 1)
  }

  lemma {:induction false} FilesSound(t: Store, bound: nat, n: nat, f: nat)
    requires TreeOk(t) && Fresh(t, bound) && n in t && f in FilesUnder(t, bound, n)
    ensures Under(t, n, f) && t[f].kind == Regular
    decreases bound - n, |t[n].kids| + 1
  {
    if t[n].kind != Regular {
      var j := FilesInSound(t, bound, n, 0, f);
      assert DirOk(t, n);
      UnderTrans(t, n, t[n].kids[j], f);
    }
  }

  lemma {:induction false} FilesInSound(t: Store, bound: nat, d: nat, i: nat, f: nat) returns (j: nat)
    requires TreeOk(t) && Fresh(t, bound) && d in t && i <= |t[d].kids| && f in FilesIn(t, bound, d, i)
    ensures i <= j < |t[d].kids| && Under(t, t[d].kids[j], f) && t[f].kind == Regular
    decreases bound - d, |t[d].kids| - i
  {
    assert DirOk(t, d);
    if f in FilesUnder(t, bound, t[d].kids[i]) {
      FilesSound(t, bound, t[d].kids[i], f);
      j := i;
    } else {
      j := FilesInSound(t, bound, d, i + 1, f);
    }
  }

  /** Below a child is below its parent. */
  lemma {:induction false} UnderTrans(t: Store, d: nat, x: nat, f: nat)
    requires TreeOk(t) && d in t && x in t[d].kids && Under(t, x, f)
    ensures Under(t, d, f)
    decreases f
  {
    KidAnchored(t, d, x);
    if f != x {
      UnderTrans(t, d, x, t[f].parent.value);
    }
  }

  /** The child of `d` that leads to `f`. */
  lemma {:induction false} FirstStep(t: Store, d: nat, f: nat) returns (x: nat)
    requires TreeOk(t) && d in t && LinkedOnce(t, d) && Under(t, d, f) && f != d
    ensures x in t && x in t[d].kids && Under(t, x, f)
    decreases f
  {
    var p := t[f].parent.value;
    if p == d {
      x := f;
      TidyLinked(t, d, f);
    } else {
      x := FirstStep(t, d, p);
    }
  }

  lemma {:induction false} LinkedOnceBelow(t: Store, d: nat, x: nat)
    requires TreeOk(t) && LinkedOnce(t, d) && d in t && x in t[d].kids
    ensures LinkedOnce(t, x)
  {
    KidAnchored(t, d, x);
    forall n {:trigger Under(t, x, n)} | Under(t, x, n) && n != x ensures t[n].links == 1 && !t[n].pinned {
      UnderTrans(t, d, x, n);
      UnderOrder(t, x, n);
    }
  }

  lemma {:induction false} FilesComplete(t: Store, bound: nat, n: nat, f: nat)
    requires TreeOk(t) && Fresh(t, bound) && n in t && LinkedOnce(t, n) && Under(t, n, f) && t[f].kind == Regular
    ensures f in FilesUnder(t, bound, n)
    decreases bound - n
  {
    assert DirOk(t, n);
    if f != n {
      var x := FirstStep(t, n, f);
      KidAnchored(t, n, x);
      LinkedOnceBelow(t, n, x);
      FilesComplete(t, bound, x, f);
      var i :| 0 <= i < |t[n].kids| && t[n].kids[i] == x;
      FilesInIncludes(t, bound, n, 0, i, f);
    }
  }

  lemma {:induction false} FilesInIncludes(t: Store, bound: nat, d: nat, i: nat, j: nat, f: nat)
    requires TreeOk(t) && Fresh(t, bound) && d in t && i <= j < |t[d].kids| && DirOk(t, d)
    requires f in FilesUnder(t, bound, t[d].kids[j])
    ensures f in FilesIn(t, bound, d, i)
    decreases j - i
  {
    var here, later := FilesUnder(t, bound, t[d].kids[i]), FilesIn(t, bound, d, i + 1);
    if i < j {
      FilesInIncludes(t, bound, d, i + 1, j, f);
      assert f in later;
    } else {
      assert f in here;
    }
    assert FilesIn(t, bound, d, i) == here + later;
  }

  /** A record lies below at most one of two siblings. */
  lemma {:induction false} SiblingsDisjoint(t: Store, d: nat, x: nat, y: nat, f: nat)
    requires TreeOk(t) && d in t && x in t[d].kids && y in t[d].kids && Under(t, x, f) && Under(t, y, f)
    ensures x == y
    decreases f
  {
    KidAnchored(t, d, x);
    KidAnchored(t, d, y);
    if f == x && f != y {
      UnderOrder(t, y, d);
    } else if f == y && f != x {
      UnderOrder(t, x, d);
    } else if f != x {
      SiblingsDisjoint(t, d, x, y, t[f].parent.value);
    }
  }

  /** The order of paths, component by component; a path comes before all that continue it. */
  predicate PathLeq(p: seq<Name>, q: seq<Name>) {
    p == [] || (q != [] && (Compare(p[0], q[0]) < 0 || (p[0] == q[0] && PathLeq(p[1..], q[1..]))))
  }

  /** The order of the lists: the same, but a path comes behind all that continue it. */
  predicate ListLeq(p: seq<Name>, q: seq<Name>) {
    q == [] || (p != [] && (Compare(p[0], q[0]) < 0 || (p[0] == q[0] && ListLeq(p[1..], q[1..]))))
  }

  /** The two orders differ exactly on paths one of which continues the other. */
  lemma {:induction false} OrdersDiffer(p: seq<Name>, q: seq<Name>)
    requires ListLeq(p, q)
    ensures PathLeq(p, q) <==> !(q < p)
    ensures !(p < q)
  {
    if p != [] && q != [] {
      CompareZero(p[0], q[0]);
      assert q < p <==> p[0] == q[0] && q[1..] < p[1..];
      assert p < q <==> p[0] == q[0] && p[1..] < q[1..];
      if p[0] == q[0] {
        OrdersDiffer(p[1..], q[1..]);
      }
    }
  }

  /** The paths agree before `k`, and there `p` ends or has the name that comes first in a dictionary. */
  ghost predicate PathsPartAt(p: seq<Name>, q: seq<Name>, k: nat) {
    k <= |p| && k <= |q| && p[..k] == q[..k] && (k == |p| || (k < |q| && Precedes(p[k], q[k])))
  }

  /** `p` does not come after `q`, component by component. */
  ghost predicate PathBefore(p: seq<Name>, q: seq<Name>) {
    exists k: nat :: PathsPartAt(p, q, k)
  }

  lemma {:induction false} PathLeqMeans(p: seq<Name>, q: seq<Name>)
    ensures PathLeq(p, q) <==> PathBefore(p, q)
  {
    if p == [] {
      assert PathsPartAt(p, q, 0);
    } else if q != [] {
      ComparisonMeans(p[0], q[0]);
      if p[0] == q[0] {
        PathLeqMeans(p[1..], q[1..]);
        PathsPartLater(p, q);
      } else {
        assert Precedes(p[0], q[0]) ==> PathsPartAt(p, q, 0);
        if k: nat :| PathsPartAt(p, q, k) && k > 0 {
          SameHead(p, q, k);
        }
      }
    }
  }

  lemma PathsPartLater(p: seq<Name>, q: seq<Name>)
    requires p != [] && q != [] && p[0] == q[0] && Compare(p[0], q[0]) == 0
    ensures PathBefore(p, q) <==> PathBefore(p[1..], q[1..])
  {
    if k: nat :| PathsPartAt(p[1..], q[1..], k) {
      assert p[..k + 1] == [p[0]] + p[1..][..k] && q[..k + 1] == [q[0]] + q[1..][..k];
      assert PathsPartAt(p, q, k + 1);
    }
    if k: nat :| PathsPartAt(p, q, k) {
      CompareIsLexicographic(p[0], q[0]);
      assert k > 0 && p[1..][..k - 1] == p[..k][1..] && q[1..][..k - 1] == q[..k][1..];
      assert PathsPartAt(p[1..], q[1..], k - 1);
    }
  }

  /** Files listed once each, in list order relative to `top`. */
  ghost predicate Listed(t: Store, top: nat, fs: seq<nat>) {
    && Distinct(fs)
    && (forall i | 0 <= i < |fs| :: Under(t, top, fs[i]))
    && (forall i, j | 0 <= i < j < |fs| :: ListLeq(PathFrom(t, top, fs[i]), PathFrom(t, top, fs[j])))
  }

  /** The path from a directory goes through the child. */
  lemma {:induction false} PathVia(t: Store, d: nat, x: nat, f: nat)
    requires TreeOk(t) && d in t && x in t && x in t[d].kids && Under(t, x, f)
    ensures Under(t, d, f) && PathFrom(t, d, f) == [t[x].name] + PathFrom(t, x, f)
    decreases f
  {
    KidAnchored(t, d, x);
    UnderTrans(t, d, x, f);
    UnderOrder(t, x, f);
    if f != x {
      PathVia(t, d, x, t[f].parent.value);
      assert [t[x].name] + PathFrom(t, x, t[f].parent.value) + [t[f].name] == [t[x].name] + PathFrom(t, x, f);
    } else {
      assert PathFrom(t, d, d) + [t[x].name] == [t[x].name];
    }
  }

  lemma ListLeqStep(name: Name, p: seq<Name>, q: seq<Name>)
    requires ListLeq(p, q)
    ensures ListLeq([name] + p, [name] + q)
  {
    assert ([name] + p)[1..] == p && ([name] + q)[1..] == q;
  }

  lemma {:induction false} ListedBelow(t: Store, d: nat, x: nat, fs: seq<nat>)
    requires TreeOk(t) && d in t && x in t && x in t[d].kids && Listed(t, x, fs)
    ensures Listed(t, d, fs)
  {
    forall i | 0 <= i < |fs| ensures Under(t, d, fs[i]) {
      PathVia(t, d, x, fs[i]);
    }
    forall i, j | 0 <= i < j < |fs| ensures ListLeq(PathFrom(t, d, fs[i]), PathFrom(t, d, fs[j])) {
      PathVia(t, d, x, fs[i]);
      PathVia(t, d, x, fs[j]);
      ListLeqStep(t[x].name, PathFrom(t, x, fs[i]), PathFrom(t, x, fs[j]));
    }
  }

  /** Files below an earlier child come before files below a later one. */
  lemma SiblingsOrdered(t: Store, d: nat, i: nat, j: nat, f: nat, g: nat)
    requires TreeOk(t) && d in t && Tidy(t, d) && DirOk(t, d) && i < j < |t[d].kids|
    requires Under(t, t[d].kids[i], f) && Under(t, t[d].kids[j], g)
    ensures Under(t, d, f) && Under(t, d, g) && f != g
    ensures ListLeq(PathFrom(t, d, f), PathFrom(t, d, g))
  {
    var x, y := t[d].kids[i], t[d].kids[j];
    PathVia(t, d, x, f);
    PathVia(t, d, y, g);
    if f == g {
      SiblingsDisjoint(t, d, x, y, f);
    }
    CompareZero(t[x].name, t[y].name);
    if t[x].name == t[y].name {
      SameNameLeaf(t, d, i, j, f, g);
      ListLeqStep(t[x].name, PathFrom(t, x, f), PathFrom(t, y, g));
    }
  }

  /** Of two children with one name the later one is a file. */
  lemma SameNameLeaf(t: Store, d: nat, i: nat, j: nat, f: nat, g: nat)
    requires TreeOk(t) && d in t && Tidy(t, d) && DirOk(t, d) && i < j < |t[d].kids|
    requires t[t[d].kids[i]].name == t[t[d].kids[j]].name
    requires Under(t, t[d].kids[i], f) && Under(t, t[d].kids[j], g)
    ensures ListLeq(PathFrom(t, t[d].kids[i], f), PathFrom(t, t[d].kids[j], g))
  {
    var y := t[d].kids[j];
    assert Under(t, d, d) && LastIn(t, t[d].kids);
    LinkedOnceBelow(t, d, y);
    NothingBelowFile(t, y, g);
  }

  lemma NothingBelowFile(t: Store, x: nat, f: nat)
    requires TreeOk(t) && x in t && LinkedOnce(t, x) && Under(t, x, f) && t[x].kind == Regular
    ensures f == x
  {
    assert DirOk(t, x);
    if f != x {
      var y := FirstStep(t, x, f);
    }
  }

  lemma OneDirectoryBelow(t: Store, d: nat, x: nat)
    requires TreeOk(t) && OneDirectory(t, d) && d in t && x in t[d].kids
    ensures OneDirectory(t, x)
  {
    KidAnchored(t, d, x);
    forall a, b {:trigger Under(t, x, a), Under(t, x, b)} |
      Under(t, x, a) && Under(t, x, b) && a != x && b != x && t[a].kind == Directory && t[b].kind == Directory
      && t[a].parent == t[b].parent && t[a].name == t[b].name
      ensures a == b
    {
      UnderTrans(t, d, x, a);
      UnderTrans(t, d, x, b);
      UnderOrder(t, x, a);
      UnderOrder(t, x, b);
    }
  }

  lemma FilesLastBelow(t: Store, d: nat, x: nat)
    requires TreeOk(t) && FilesLast(t, d) && d in t && x in t[d].kids
    ensures FilesLast(t, x)
  {
    forall a {:trigger Under(t, x, a)} | Under(t, x, a) ensures LastIn(t, t[a].kids) {
      UnderTrans(t, d, x, a);
    }
  }

  lemma ListedJoin(t: Store, d: nat, fs: seq<nat>, gs: seq<nat>)
    requires Listed(t, d, fs) && Listed(t, d, gs)
    requires forall i, j | 0 <= i < |fs| && 0 <= j < |gs| ::
               fs[i] != gs[j] && ListLeq(PathFrom(t, d, fs[i]), PathFrom(t, d, gs[j]))
    ensures Listed(t, d, fs + gs)
  {
    var hs := fs + gs;
    forall i, j | 0 <= i < j < |hs| ensures hs[i] != hs[j] {
      if i < |fs| <= j {
        assert fs[i] != gs[j - |fs|];
      }
    }
    forall i | 0 <= i < |hs| ensures Under(t, d, hs[i]) {
    }
    forall i, j | 0 <= i < j < |hs| ensures ListLeq(PathFrom(t, d, hs[i]), PathFrom(t, d, hs[j])) {
      if i < |fs| <= j {
        assert ListLeq(PathFrom(t, d, fs[i]), PathFrom(t, d, gs[j - |fs|]));
      }
    }
  }

  lemma {:induction false} FilesListed(t: Store, bound: nat, n: nat)
    requires TreeOk(t) && Fresh(t, bound) && n in t && Tidy(t, n)
    ensures Listed(t, n, FilesUnder(t, bound, n))
    decreases bound - n, |t[n].kids| + 1
  {
    if t[n].kind != Regular {
      FilesInListed(t, bound, n, 0);
    }
  }

  lemma {:induction false} FilesInListed(t: Store, bound: nat, d: nat, i: nat)
    requires TreeOk(t) && Fresh(t, bound) && d in t && i <= |t[d].kids| && Tidy(t, d)
    ensures Listed(t, d, FilesIn(t, bound, d, i))
    decreases bound - d, |t[d].kids| - i
  {
    assert DirOk(t, d);
    if i < |t[d].kids| {
      var x := t[d].kids[i];
      var fs, gs := FilesUnder(t, bound, x), FilesIn(t, bound, d, i + 1);
      KidAnchored(t, d, x);
      LinkedOnceBelow(t, d, x);
      OneDirectoryBelow(t, d, x);
      FilesLastBelow(t, d, x);
      FilesListed(t, bound, x);
      ListedBelow(t, d, x, fs);
      FilesInListed(t, bound, d, i + 1);
      forall a, b | 0 <= a < |fs| && 0 <= b < |gs|
        ensures fs[a] != gs[b] && ListLeq(PathFrom(t, d, fs[a]), PathFrom(t, d, gs[b]))
      {
        FilesSound(t, bound, x, fs[a]);
        var j := FilesInSound(t, bound, d, i + 1, gs[b]);
        SiblingsOrdered(t, d, i, j, fs[a], gs[b]);
      }
      ListedJoin(t, d, fs, gs);
    }
  }
}
