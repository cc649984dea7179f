/** Splitting paths into components, file_system/paths.c. */
module Paths {
  import opened Prelude

  type Path = seq<CChar>

  /** The non-empty pieces between slashes, read one character at a time. */
  function Split(p: Path, piece: Path): seq<Path> {
    if p == [] then Piece(piece)
    else if p[0] == SLASH then Piece(piece) + Split(p[1..], [])
    else Split(p[1..], piece + [p[0]])
  }

  function Piece(piece: Path): seq<Path> {
    if piece == [] then [] else [piece]
  }

  function Components(p: Path): seq<Path> {
    Split(p, [])
  }

  // ---------------------------------------------------------------- laws of splitting

  lemma {:induction false} SplitWord(w: Path, rest: Path, piece: Path)
    requires SLASH !in w
    ensures Split(w + rest, piece) == Split(rest, piece + w)
  {
    if w == [] {
      assert w + rest == rest && piece + w == piece;
    } else {
      assert (w + rest)[1..] == w[1..] + rest;
      SplitWord(w[1..], rest, piece + [w[0]]);
      assert piece + [w[0]] + w[1..] == piece + w;
    }
  }

  lemma {:induction false} SplitAtSlash(a: Path, b: Path, piece: Path)
    ensures Split(a + [SLASH] + b, piece) == Split(a, piece) + Components(b)
  {
    var p := a + [SLASH] + b;
    if a == [] {
      assert p == [SLASH] + b && p[1..] == b;
    } else {
      assert p[1..] == a[1..] + [SLASH] + b;
      SplitAtSlash(a[1..], b, if a[0] == SLASH then [] else piece + [a[0]]);
    }
  }

  lemma ComponentsOfWord(w: Path)
    requires SLASH !in w
    ensures Components(w) == Piece(w)
  {
    SplitWord(w, [], []);
    assert w + [] == w && [] + w == w;
  }

  lemma {:induction false} SkipSlashes(p: Path, n: nat)
    requires n <= |p| && forall k | 0 <= k < n :: p[k] == SLASH
    ensures Components(p) == Components(p[n..])
  {
    if n > 0 {
      SkipSlashes(p[1..], n - 1);
      assert p[1..][n - 1..] == p[n..];
    } else {
      assert p[0..] == p;
    }
  }

  lemma {:induction false} PiecesAreClean(p: Path, piece: Path)
    requires SLASH !in piece
    ensures forall c | c in Split(p, piece) :: c != [] && SLASH !in c
  {
    if p != [] {
      PiecesAreClean(p[1..], if p[0] == SLASH then [] else piece + [p[0]]);
    }
  }

  // ---------------------------------------------------------------- the code

  lemma {:induction false} ComponentsHaveNoNul(p: Path, piece: Path)
    requires NUL !in p && NUL !in piece
    ensures forall c | c in Split(p, piece) :: NUL !in c
  {
    if p != [] {
      if p[0] == SLASH {
        ComponentsHaveNoNul(p[1..], []);
      } else {
        ComponentsHaveNoNul(p[1..], piece + [p[0]]);
      }
    }
  }

  /** get_next_component: where the next component starts and how long it is. */
  method GetNextComponent(path: Path) returns (start: nat, length: nat)
    ensures start + length <= |path|
    ensures forall k | 0 <= k < start :: path[k] == SLASH
    ensures forall k | start <= k < start + length :: path[k] != SLASH
    ensures start + length < |path| ==> path[start + length] == SLASH && length > 0
  {
    start := 0;
    while start < |path| && path[start] == SLASH
      invariant start <= |path| && forall k | 0 <= k < start :: path[k] == SLASH
    {
      start := start + 1;
    }
    length := 0;
    while length < |path| - start && path[start + length] != SLASH
      invariant start + length <= |path| && forall k | start <= k < start + length :: path[k] != SLASH
      invariant length == 0 && start < |path| ==> path[start] != SLASH
    {
      length := length + 1;
    }
  }

  /** get_component_advance: the first component, and the path moved past it. */
  method GetComponentAdvance(path: Path) returns (component: Path, rest: Path)
    ensures Components(path) == Piece(component) + Components(rest)
    ensures component == [] ==> rest == []
    ensures component != [] ==> |rest| < |path|
  {
    var start, length := GetNextComponent(path);
    component, rest := path[start..start + length], path[start + length..];
    SkipSlashes(path, start);
    assert path[start..] == component + rest;
    SplitWord(component, rest, []);
    assert [] + component == component;
    if rest != [] {
      assert rest == [SLASH] + rest[1..];
    }
  }

  /** The loop of find_file_path and create_directories: it visits exactly the components. */
  method WalkComponents(path: Path) returns (visited: seq<Path>)
    ensures visited == Components(path)
  {
    visited := [];
    var component, rest := GetComponentAdvance(path);
    while component != []
      invariant Components(path) == visited + Piece(component) + Components(rest)
      invariant component == [] ==> rest == []
      decreases |rest|, |component|
    {
      visited := visited + [component];
      component, rest := GetComponentAdvance(rest);
    }
  }

  /** get_directories: everything before the last slash. */
  method GetDirectories(path: Path) returns (directories: Path)
    ensures directories == DirectoryPart(path)
  {
    var lastSlash := -1;
    for index := 0 to |path|
      invariant lastSlash == LastSlash(path, index)
    {
      if path[index] == SLASH {
        lastSlash := index;
      }
    }
    lastSlash := if lastSlash > 0 then lastSlash else 0;
    directories := path[..lastSlash];
  }

  /** The last slash among the first `n` characters, or -1. */
  function LastSlash(p: Path, n: nat): (k: int)
    requires n <= |p|
    ensures -1 <= k < n && (k >= 0 ==> p[k] == SLASH) && forall j | k < j < n :: p[j] != SLASH
  {
    if n == 0 then -1 else if p[n - 1] == SLASH then n - 1 else LastSlash(p, n - 1)
  }

  function DirectoryPart(p: Path): Path {
    p[..if LastSlash(p, |p|) > 0 then LastSlash(p, |p|) else 0]
  }

  /** get_file: skips trailing slashes, then goes back to the slash in front. */
  method GetFile(path: Path) returns (file: Path)
    requires path != []
    ensures file == FilePart(path)
  {
    var start := |path| - 1;
    while start > 0 && path[start] == SLASH
      invariant 0 <= start < |path|
      invariant BackOver(path, |path| - 1, true) == BackOver(path, start, true)
    {
      start := start - 1;
    }
    ghost var s := start;
    while start > 0 && path[start] != SLASH
      invariant 0 <= start < |path|
      invariant BackOver(path, s, false) == BackOver(path, start, false)
    {
      start := start - 1;
    }
    start := if path[start] == SLASH then start + 1 else start;
    file := path[start..];
  }

  /** Moves back from `i` while the characters are slashes, or while they are not. */
  function BackOver(p: Path, i: nat, slashes: bool): (j: nat)
    requires i < |p|
    ensures j <= i && forall k | j < k <= i :: (p[k] == SLASH) == slashes
    ensures j == 0 || (p[j] == SLASH) != slashes
  {
    if i > 0 && (p[i] == SLASH) == slashes then BackOver(p, i - 1, slashes) else i
  }

  function FilePart(p: Path): Path
    requires p != []
  {
    var start := BackOver(p, BackOver(p, |p| - 1, true), false);
    p[if p[start] == SLASH then start + 1 else start..]
  }

  lemma {:induction false} BackToLastSlash(p: Path, i: nat)
    requires i < |p|
    ensures var j := BackOver(p, i, false); LastSlash(p, i + 1) == if p[j] == SLASH then j else -1
  {
    if i > 0 && p[i] != SLASH {
      BackToLastSlash(p, i - 1);
    }
  }

  lemma FilePartOfPlainPath(p: Path, j: int)
    requires p != [] && p[|p| - 1] != SLASH && j == LastSlash(p, |p|)
    ensures FilePart(p) == p[j + 1..]
  {
    BackToLastSlash(p, |p| - 1);
    assert BackOver(p, |p| - 1, true) == |p| - 1;
  }

  lemma ComponentsOfJoin(p: Path, directories: Path, file: Path)
    requires file != [] && SLASH !in file && p == directories + [SLASH] + file
    ensures Components(p) == Components(directories) + [file]
  {
    SplitAtSlash(directories, file, []);
    ComponentsOfWord(file);
  }

  lemma PathWithSlash(p: Path, j: nat)
    requires j == LastSlash(p, |p|) && j < |p| - 1
    ensures Components(p) == Components(DirectoryPart(p)) + [p[j + 1..]]
  {
    var d, f := p[..j], p[j + 1..];
    assert p == d + [SLASH] + f;
    ComponentsOfJoin(p, d, f);
    assert DirectoryPart(p) == d;
  }

  lemma PathWithoutSlash(p: Path)
    requires p != [] && LastSlash(p, |p|) == -1
    ensures Components(p) == Components(DirectoryPart(p)) + [p]
  {
    ComponentsOfWord(p);
    assert DirectoryPart(p) == [];
  }

  lemma PlainPath(p: Path)
    requires p != [] && p[|p| - 1] != SLASH
    ensures Components(DirectoryPart(p)) + [FilePart(p)] == Components(p)
  {
    var j := LastSlash(p, |p|);
    FilePartOfPlainPath(p, j);
    if j >= 0 {
      PathWithSlash(p, j);
    } else {
      PathWithoutSlash(p);
      assert p[0..] == p;
    }
  }

  lemma SlashedPath(p: Path)
    requires p != [] && p[|p| - 1] == SLASH
    ensures FilePart(p) == [] || SLASH in FilePart(p)
  {
    var f := FilePart(p);
    assert f != [] ==> f[|f| - 1] == SLASH;
  }

  /** Directories and file together give the components of the path exactly when it does not end
      in a slash. */
  lemma DirectoriesThenFile(p: Path)
    requires p != []
    ensures Components(DirectoryPart(p)) + [FilePart(p)] == Components(p) <==> p[|p| - 1] != SLASH
  {
    if p[|p| - 1] != SLASH {
      PlainPath(p);
    } else {
      SlashedPath(p);
      PiecesAreClean(p, []);
      var all := Components(DirectoryPart(p)) + [FilePart(p)];
      assert all[|all| - 1] == FilePart(p);
    }
  }
}
