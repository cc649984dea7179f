/** Files and directories made by dandelion_open and dandelion_mkdir, and what their paths lead to. */
module Creating {
  import opened Prelude
  import opened Names
  import opened Paths
  import opened Tree
  import opened Walk

  datatype Result = Ok | Fd(fd: nat) | Error(code: nat) | NullDereference

  const ENOENT: nat := 2
  const EBADF: nat := 9
  const EACCES: nat := 13
  const EEXIST: nat := 17
  const ENOTDIR: nat := 20
  const EINVAL: nat := 22
  const EMFILE: nat := 24
  const ENOMEM: nat := 12
  const ENOTEMPTY: nat := 39

  // ---------------------------------------------------------------- new files

  function NewFile(name: Path, d: nat): Node {
    Node(Effective(name), Regular, Some(d), [], 1, 0, false, [])
  }

  /** What dandelion_open does to the tree when the path was not found: the directories of the path are
      made, and a new file, the last record made, is linked into the last of them. */
  ghost function Creation(t: Store, next: nat, path: Path): (Store, nat, Result)
    requires TreeOk(t) && Fresh(t, next) && Anchored(t, ROOT) && path != []
  {
    var name := FilePart(path);
    if |name| >= NAME_LENGTH then (t, next, Error(EINVAL))
    else
      var (t', n, o) := CreateDirs(t, next, ROOT, Components(DirectoryPart(path)), false);
      PutFile(t', n, o, name)
  }

  /** A new file where the walk ended, if that is a directory. */
  ghost function PutFile(t: Store, next: nat, o: Outcome, name: Path): (Store, nat, Result)
    requires TreeOk(t) && (o.Reached? ==> Anchored(t, o.dir))
  {
    if !o.Reached? || t[o.dir].kind != Directory then (t, next, Error(ENOTDIR))
    else
      assert DirOk(t, o.dir);
      (AddChild(t, o.dir, next, NewFile(name, o.dir)), next + 1, Ok)
  }

  /** An empty regular file called `name`. */
  predicate IsNewFile(node: Node, name: Path) {
    node.kind == Regular && node.content == [] && node.name == Effective(name)
  }

  lemma PutFileOk(t: Store, next: nat, o: Outcome, name: Path)
    requires TreeOk(t) && Fresh(t, next) && (o.Reached? ==> Anchored(t, o.dir))
    ensures var (t', next', r) := PutFile(t, next, o, name);
            && TreeOk(t') && Extends(t, t') && (r == Ok || r.Error?)
            && (r == Ok ==> next' == next + 1 && next in t' && next !in t && IsNewFile(t'[next], name))
  {
    if o.Reached? && t[o.dir].kind == Directory {
      assert DirOk(t, o.dir);
      AddChildOk(t, o.dir, next, NewFile(name, o.dir));
      AddChildExtends(t, o.dir, next, NewFile(name, o.dir));
    } else {
      ExtendsRefl(t);
    }
  }

  lemma PutAfterWalk(t: Store, next: nat, cs: seq<Path>, name: Path)
    requires TreeOk(t) && Fresh(t, next) && Anchored(t, ROOT)
    ensures var (u, n, o) := CreateDirs(t, next, ROOT, cs, false);
            var (t', next', r) := PutFile(u, n, o, name);
            && TreeOk(t') && Extends(t, t') && Anchored(t', ROOT) && (r == Ok || r.Error?)
            && (r == Ok ==> next < next' && next' - 1 in t' && next' - 1 !in t && IsNewFile(t'[next' - 1], name))
  {
    var u := CreateDirs(t, next, ROOT, cs, false);
    var v := PutFile(u.0, u.1, u.2, name);
    CreateExtends(t, next, ROOT, cs, false);
    PutFileOk(u.0, u.1, u.2, name);
    ExtendsTrans(t, u.0, v.0);
  }

  lemma CreationOk(t: Store, next: nat, path: Path)
    requires TreeOk(t) && Fresh(t, next) && Anchored(t, ROOT) && path != []
    ensures var (t', next', r) := Creation(t, next, path);
            && TreeOk(t') && Extends(t, t') && Anchored(t', ROOT) && (r == Ok || r.Error?)
            && (r == Ok ==>
                  next < next' && next' - 1 in t' && next' - 1 !in t && IsNewFile(t'[next' - 1], FilePart(path)))
  {
    if |FilePart(path)| < NAME_LENGTH {
      PutAfterWalk(t, next, Components(DirectoryPart(path)), FilePart(path));
    } else {
      ExtendsRefl(t);
    }
  }

  // ---------------------------------------------------------------- finding what was made

  lemma PutThenFind(t: Store, next: nat, d: nat, cs: seq<Path>, name: Path)
    requires TreeOk(t) && Fresh(t, next) && Anchored(t, ROOT) && Resolve(t, ROOT, cs) == Some(d)
    requires t[d].kind == Directory && !IsDot(name) && !IsDotDot(name)
    ensures DirOk(t, d)
    ensures var t' := AddChild(t, d, next, NewFile(name, d));
            && TreeOk(t') && Anchored(t', ROOT)
            && (Resolve(t', ROOT, cs + [name]) == Some(next) <==> LookupIn(t, t[d].kids, Effective(name)).None?)
  {
    assert DirOk(t, d);
    var node := NewFile(name, d);
    var t' := AddChild(t, d, next, node);
    AddChildOk(t, d, next, node);
    AddChildExtends(t, d, next, node);
    ResolveKept(t, t', ROOT, cs);
    ResolveOneMore(t', ROOT, cs, name);
    NewNameLookup(t, d, next, node);
  }

  lemma NewNameLookup(t: Store, d: nat, n: nat, node: Node)
    requires CanAdd(t, d, n, node) && DirOk(t, d)
    ensures var t' := AddChild(t, d, n, node);
            && KidsIn(t', t'[d].kids)
            && (LookupIn(t', t'[d].kids, node.name) == Some(n) <==> LookupIn(t, t[d].kids, node.name).None?)
  {
    var t' := AddChild(t, d, n, node);
    if LookupIn(t, t[d].kids, node.name).None? {
      LookupNew(t, t', t[d].kids, InsertPos(t, t[d].kids, node.name, 0), n);
    } else {
      LookupStaysFirst(t, d, n, node);
    }
  }

  /** If the path leads to the new file, the walk ended where its directories lead, and by a name of its own. */
  lemma FoundThenPut(t: Store, next: nat, d: nat, cs: seq<Path>, c: Path, name: Path)
    requires TreeOk(t) && Fresh(t, next) && Anchored(t, ROOT) && Anchored(t, d) && DirOk(t, d) && t[d].kind == Directory
    requires var t' := AddChild(t, d, next, NewFile(name, d));
             TreeOk(t') && Anchored(t', ROOT) && Resolve(t', ROOT, cs + [c]) == Some(next)
    ensures Resolve(t, ROOT, cs) == Some(d) && !IsDot(c) && !IsDotDot(c) && Effective(c) == Effective(name)
    ensures LookupIn(t, t[d].kids, Effective(name)).None?
  {
    var node := NewFile(name, d);
    var t' := AddChild(t, d, next, node);
    ResolveLast(t', ROOT, cs + [c], next);
    assert (cs + [c])[..|cs|] == cs && (cs + [c])[|cs|] == c;
    ResolveBack(t, d, next, node, ROOT, cs);
    NewNameLookup(t, d, next, node);
  }

  lemma FilePartIsClean(path: Path)
    requires path != [] && NUL !in path
    ensures Effective(FilePart(path)) == FilePart(path)
    ensures path[|path| - 1] == SLASH ==> FilePart(path) == [] || SLASH in FilePart(path)
  {
    EffectiveName(FilePart(path));
    if path[|path| - 1] == SLASH {
      SlashedPath(path);
    }
  }

  /** The last component of a path that leads to the new file is the name it was given, so the path does
      not end in a slash. */
  lemma FoundByItsName(t: Store, next: nat, d: nat, path: Path)
    requires TreeOk(t) && Fresh(t, next) && Anchored(t, ROOT) && Anchored(t, d) && DirOk(t, d) && t[d].kind == Directory
    requires path != [] && NUL !in path
    requires var t' := AddChild(t, d, next, NewFile(FilePart(path), d));
             TreeOk(t') && Anchored(t', ROOT) && Resolve(t', ROOT, Components(path)) == Some(next)
    ensures path[|path| - 1] != SLASH
  {
    var t', cs := AddChild(t, d, next, NewFile(FilePart(path), d)), Components(path);
    assert cs != [];
    var k := |cs| - 1;
    assert cs[..k] + [cs[k]] == cs;
    FoundThenPut(t, next, d, cs[..k], cs[k], FilePart(path));
    PiecesAreClean(path, []);
    ComponentsHaveNoNul(path, []);
    assert cs[k] in cs;
    EffectiveName(cs[k]);
    FilePartIsClean(path);
  }

  /** A file just made is what its path leads to afterwards exactly when the path does not end in a slash
      or a dot name, the walk was clean, and the directory the file was put into had no child of that
      name. */
  lemma CreatedFileIsFound(t: Store, next: nat, path: Path, u: Store, n: nat, d: nat)
    requires TreeOk(t) && Fresh(t, next) && Anchored(t, ROOT) && path != [] && NUL !in path
    requires Creation(t, next, path).2 == Ok
    requires CreateDirs(t, next, ROOT, Components(DirectoryPart(path)), false) == (u, n, Reached(d))
    ensures var t', name := Creation(t, next, path).0, FilePart(path);
            && TreeOk(t') && Anchored(t', ROOT) && KidsIn(u, u[d].kids)
            && (Resolve(t', ROOT, Components(path)) == Some(n) <==>
                && path[|path| - 1] != SLASH && !IsDot(name) && !IsDotDot(name)
                && Clean(t, next, ROOT, Components(DirectoryPart(path)), false)
                && LookupIn(u, u[d].kids, name).None?)
  {
    var cs, name := Components(DirectoryPart(path)), FilePart(path);
    CreationOk(t, next, path);
    CreateThenFind(t, next, ROOT, cs, false);
    FilePartIsClean(path);
    assert DirOk(u, d);
    var t' := AddChild(u, d, n, NewFile(name, d));
    if Resolve(t', ROOT, Components(path)) == Some(n) {
      FoundByItsName(u, n, d, path);
      PlainPath(path);
      FoundThenPut(u, n, d, cs, name, name);
    } else if path[|path| - 1] != SLASH && !IsDot(name) && !IsDotDot(name) && Clean(t, next, ROOT, cs, false) {
      PlainPath(path);
      PutThenFind(u, n, d, cs, name);
    }
  }

  // ---------------------------------------------------------------- a path by a detour

  /** The walk along `a/../b` when the root has `b` and not `a`: it makes `a` and ends in `b`. */
  lemma DetourWalk(t: Store, next: nat, a: Name, b: Name, d: nat, cs: seq<Path>)
    requires TreeOk(t) && Fresh(t, next) && KidsIn(t, t[ROOT].kids) && |cs| == 3 && cs[0] == a && cs[2] == b
    requires IsDotDot(cs[1]) && |a| <= NAME_LENGTH && |b| <= NAME_LENGTH && NUL !in a && NUL !in b
    requires !IsDot(a) && !IsDotDot(a) && !IsDot(b) && !IsDotDot(b)
    requires LookupIn(t, t[ROOT].kids, a).None? && LookupIn(t, t[ROOT].kids, b) == Some(d)
    ensures var u := AddChild(t, ROOT, next, NewDirectory(a, ROOT));
            CreateDirs(t, next, ROOT, cs, false) == (u, next + 1, Reached(d)) && Clean(t, next, ROOT, cs, false)
  {
    EffectiveName(a);
    EffectiveName(b);
    assert DirOk(t, ROOT);
    var u, k := AddChild(t, ROOT, next, NewDirectory(a, ROOT)), next + 1;
    assert Enter(t, next, ROOT, a, false) == (u, k, Reached(next));
    OneStep(t, next, ROOT, cs, false);
    AddChildLookupHere(t, ROOT, next, NewDirectory(a, ROOT), b);
    BackAndDown(u, k, next, b, d, cs[1..]);
  }

  /** From a child of the root up and down again into `b`, which is there. */
  lemma BackAndDown(t: Store, next: nat, x: nat, b: Name, d: nat, cs: seq<Path>)
    requires TreeOk(t) && Fresh(t, next) && Anchored(t, x) && t[x].parent == Some(ROOT) && t[x].kind == Directory
    requires |cs| == 2 && IsDotDot(cs[0]) && cs[1] == b && |b| <= NAME_LENGTH && NUL !in b && !IsDot(b) && !IsDotDot(b)
    requires KidsIn(t, t[ROOT].kids) && LookupIn(t, t[ROOT].kids, b) == Some(d)
    ensures CreateDirs(t, next, x, cs, false) == (t, next, Reached(d)) && Clean(t, next, x, cs, false)
  {
    EffectiveName(b);
    var down := cs[1..];
    assert Enter(t, next, x, cs[0], false) == (t, next, Reached(ROOT));
    OneStep(t, next, x, cs, false);
    assert Enter(t, next, ROOT, down[0], false) == (t, next, Reached(d));
    OneStep(t, next, ROOT, down, false);
    assert |down[1..]| == 0;
  }

  /** The parts of `a/../b/f`, one letter each. */
  lemma DetourPath(path: Path)
    requires path == [97, SLASH, DOT, DOT, SLASH, 98, SLASH, 102]
    ensures FilePart(path) == [102] && Components(DirectoryPart(path)) == [[97], [DOT, DOT], [98]]
    ensures Components(path) == [[97], [DOT, DOT], [98], [102]]
  {
    var a, up, b, f: Path := [97], [DOT, DOT], [98], [102];
    assert path == a + [SLASH] + (up + [SLASH] + (b + [SLASH] + f));
    SplitAtSlash(a, up + [SLASH] + (b + [SLASH] + f), []);
    SplitAtSlash(up, b + [SLASH] + f, []);
    SplitAtSlash(b, f, []);
    ComponentsOfWord(a);
    ComponentsOfWord(up);
    ComponentsOfWord(b);
    ComponentsOfWord(f);
    FilePartOfPlainPath(path, LastSlash(path, |path|));
    assert LastSlash(path, |path|) == 6;
    PlainPath(path);
    var cs := Components(DirectoryPart(path));
    assert (cs + [f])[..3] == cs;
  }

  /** A path `a/../b/f` in a tree that has `b/f` and not `a`. */
  ghost predicate Detour(t: Store, path: Path, a: Name, b: Name, f: Name, d: nat) {
    && path != [] && path[|path| - 1] != SLASH && NUL !in path && FilePart(path) == f
    && |a| <= NAME_LENGTH && |b| <= NAME_LENGTH && |f| < NAME_LENGTH && NUL !in a && NUL !in b
    && !IsDot(a) && !IsDotDot(a) && !IsDot(b) && !IsDotDot(b)
    && ROOT in t && KidsIn(t, t[ROOT].kids) && LookupIn(t, t[ROOT].kids, a).None?
       && LookupIn(t, t[ROOT].kids, b) == Some(d)
    && d in t && t[d].kind == Directory && KidsIn(t, t[d].kids) && LookupIn(t, t[d].kids, f).Some?
    && var cs := Components(DirectoryPart(path)); |cs| == 3 && cs[0] == a && IsDotDot(cs[1]) && cs[2] == b
  }

  lemma DetourIsNotFound(t: Store, path: Path, a: Name, b: Name, f: Name, d: nat)
    requires TreeOk(t) && Detour(t, path, a, b, f, d)
    ensures Resolve(t, ROOT, Components(path)).None?
  {
    PlainPath(path);
    EffectiveName(a);
    assert Components(path)[0] == a;
  }

  lemma DetourMakesAFile(t: Store, next: nat, path: Path, a: Name, b: Name, f: Name, d: nat)
    requires TreeOk(t) && Fresh(t, next) && Detour(t, path, a, b, f, d)
    ensures var u := AddChild(t, ROOT, next, NewDirectory(a, ROOT));
            && CreateDirs(t, next, ROOT, Components(DirectoryPart(path)), false) == (u, next + 1, Reached(d))
            && TreeOk(u) && d in u && u[d].kind == Directory && KidsIn(u, u[d].kids) && LookupIn(u, u[d].kids, f).Some?
            && Creation(t, next, path).1 == next + 2 && Creation(t, next, path).2 == Ok
  {
    var cs := Components(DirectoryPart(path));
    DetourWalk(t, next, a, b, d, cs);
    CreateExtends(t, next, ROOT, cs, false);
    assert LookupsKept(t, CreateDirs(t, next, ROOT, cs, false).0, d);
  }

  /** Opening such a path to create it: the path is not found, a second file `f` is made in `b`, and the
      path does not lead to that one afterwards. */
  lemma DetourMissesTheNewFile(t: Store, next: nat, path: Path, a: Name, b: Name, f: Name, d: nat)
    requires TreeOk(t) && Fresh(t, next) && Detour(t, path, a, b, f, d)
    ensures Resolve(t, ROOT, Components(path)).None?
    ensures var (t', next', r) := Creation(t, next, path);
            r == Ok && TreeOk(t') && next' == next + 2 && Resolve(t', ROOT, Components(path)) != Some(next + 1)
  {
    DetourIsNotFound(t, path, a, b, f, d);
    DetourMakesAFile(t, next, path, a, b, f, d);
    CreatedFileIsFound(t, next, path, AddChild(t, ROOT, next, NewDirectory(a, ROOT)), next + 1, d);
  }

  /** A tree with nothing but `b/f`. */
  function SmallTree(b: Name, f: Name): Store {
    var root := BareRoot()[ROOT].(kids := [1]);
    map[ROOT := root, 1 := NewDirectory(b, ROOT).(kids := [2]), 2 := NewFile(f, 1)]
  }

  lemma SmallTreeOk(b: Name, f: Name)
    requires NUL !in b && NUL !in f
    ensures var t := SmallTree(b, f);
            && TreeOk(t) && Fresh(t, 3) && LookupIn(t, t[ROOT].kids, b) == Some(1)
               && LookupIn(t, t[1].kids, f) == Some(2)
            && forall a | a != b :: LookupIn(t, t[ROOT].kids, a).None?
  {
    EffectiveName(b);
    EffectiveName(f);
    var t := SmallTree(b, f);
    assert DirOk(t, ROOT) && DirOk(t, 1) && DirOk(t, 2);
    assert NodeOk(t, ROOT) && NodeOk(t, 1) && NodeOk(t, 2);
    assert t[ROOT].kids[1..] == [];
  }

  /** With one-letter names, in that tree. */
  lemma DetourExample(t: Store, next: nat, path: Path)
    requires path == [97, SLASH, DOT, DOT, SLASH, 98, SLASH, 102] && t == SmallTree([98], [102]) && next == 3
    ensures TreeOk(t) && Fresh(t, next) && Resolve(t, ROOT, Components(path)).None?
    ensures var (t', next', r) := Creation(t, next, path);
            r == Ok && TreeOk(t') && next' == next + 2 && Resolve(t', ROOT, Components(path)) != Some(next + 1)
  {
    DetourPath(path);
    SmallTreeOk([98], [102]);
    DetourMissesTheNewFile(t, next, path, [97], [98], [102], 1);
  }

  // ---------------------------------------------------------------- new directories

  /** The path leads to an empty directory that was not there before. */
  ghost predicate LeadsToNew(t: Store, t': Store, path: Path) {
    && TreeOk(t') && Anchored(t', ROOT)
    && var r := Resolve(t', ROOT, Components(path));
       r.Some? && r.value !in t && t'[r.value].kind == Directory && t'[r.value].kids == []
  }

  lemma TrailingSlash(path: Path)
    requires path != [] && path[|path| - 1] == SLASH
    ensures Components(path) == Components(DirectoryPart(path))
  {
    var d := path[..|path| - 1];
    assert path == d + [SLASH] + [];
    SplitAtSlash(d, [], []);
    assert DirectoryPart(path) == d;
    assert Components(d) + [] == Components(d);
  }

  lemma PlainName(path: Path)
    requires path != [] && path[|path| - 1] != SLASH
    ensures Components(FilePart(path)) == [FilePart(path)]
  {
    FilePartOfPlainPath(path, LastSlash(path, |path|));
    assert FilePart(path) != [] && SLASH !in FilePart(path);
    ComponentsOfWord(FilePart(path));
  }

  lemma NewDirectoryIsFound(t: Store, next: nat, p: nat, dirs: seq<Path>, c: Path, cs: seq<Path>)
    requires TreeOk(t) && Fresh(t, next) && Anchored(t, ROOT) && Resolve(t, ROOT, dirs) == Some(p)
             && t[p].kind == Directory
    requires KidsIn(t, t[p].kids) && FindIn(t, p, c).None? && !IsDotDot(c) && |cs| == 1 && cs[0] == c
    requires CreateDirs(t, next, p, cs, false).2.Reached?
    ensures var t' := CreateDirs(t, next, p, cs, false).0;
            && TreeOk(t') && Anchored(t', ROOT) && Resolve(t', ROOT, dirs + [c]) == Some(next)
            && next in t' && next !in t && t'[next].kind == Directory && t'[next].kids == []
  {
    assert DirOk(t, p) && |cs[1..]| == 0;
    var t' := AddChild(t, p, next, NewDirectory(c, p));
    assert Enter(t, next, p, c, false) == (t', next + 1, Reached(next));
    EnterOk(t, next, p, c, false);
    assert CreateDirs(t', next + 1, next, cs[1..], false) == (t', next + 1, Reached(next));
    EnterExtends(t, next, p, c, false);
    EnterThenFind(t, next, p, c, false);
    ResolveKept(t, t', ROOT, dirs);
    ResolveOneMore(t', ROOT, dirs, c);
  }

  lemma NothingAbove(t: Store, next: nat, p: nat, cs: seq<Path>)
    requires TreeOk(t) && Fresh(t, next) && Anchored(t, p) && t[p].parent.None? && |cs| == 1 && IsDotDot(cs[0])
    ensures CreateDirs(t, next, p, cs, false) == (t, next, Reached(p))
  {
    assert Enter(t, next, p, cs[0], false) == (t, next, Reached(p));
    assert |cs[1..]| == 0;
  }

  /** After dandelion_mkdir has succeeded the path leads to a new, empty directory exactly when it does not
      end in a slash and its last name is not `..`. */
  lemma MadeDirectoryIsFound(t: Store, next: nat, path: Path, p: nat)
    requires TreeOk(t) && Fresh(t, next) && Anchored(t, ROOT) && path != []
    requires Resolve(t, ROOT, Components(DirectoryPart(path))) == Some(p) && t[p].kind == Directory
    requires KidsIn(t, t[p].kids) && FindIn(t, p, FilePart(path)).None?
    requires CreateDirs(t, next, p, Components(FilePart(path)), false).2.Reached?
    ensures LeadsToNew(t, CreateDirs(t, next, p, Components(FilePart(path)), false).0, path) <==>
            path[|path| - 1] != SLASH && !IsDotDot(FilePart(path))
  {
    var dirs, c := Components(DirectoryPart(path)), FilePart(path);
    var cs := Components(c);
    var t' := CreateDirs(t, next, p, cs, false).0;
    if path[|path| - 1] == SLASH {
      TrailingSlash(path);
      CreateExtends(t, next, p, cs, false);
      ResolveKept(t, t', ROOT, dirs);
    } else {
      PlainName(path);
      PlainPath(path);
      if IsDotDot(c) {
        NothingAbove(t, next, p, cs);
      } else {
        NewDirectoryIsFound(t, next, p, dirs, c, cs);
      }
    }
  }
}
