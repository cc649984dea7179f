/** Following paths through the tree, with and without creating directories. */
module Walk {
  import opened Prelude
  import opened Names
  import opened Paths
  import opened Tree

  predicate IsDot(c: Path) {
    c == [DOT]
  }

  predicate IsDotDot(c: Path) {
    c == [DOT, DOT]
  }

  // ---------------------------------------------------------------- finding

  /** find_file_in_dir */
  function FindIn(t: Store, d: nat, c: Path): Option<nat>
    requires d in t && forall i | 0 <= i < |t[d].kids| :: t[d].kids[i] in t
  {
    if IsDot(c) then Some(d) else if IsDotDot(c) then t[d].parent else LookupIn(t, t[d].kids, Effective(c))
  }

  lemma KidAnchored(t: Store, d: nat, x: nat)
    requires TreeOk(t) && d in t && x in t[d].kids
    ensures Anchored(t, x) && t[x].parent == Some(d) && d < x
  {
    assert DirOk(t, d);
  }

  lemma ParentAnchored(t: Store, d: nat)
    requires TreeOk(t) && Anchored(t, d) && t[d].parent.Some?
    ensures Anchored(t, t[d].parent.value)
  {
    var p := t[d].parent.value;
    assert NodeOk(t, d) && NodeOk(t, p);
  }

  lemma FoundAnchored(t: Store, d: nat, c: Path)
    requires TreeOk(t) && Anchored(t, d)
    ensures DirOk(t, d) && (FindIn(t, d, c).Some? ==> Anchored(t, FindIn(t, d, c).value))
  {
    assert DirOk(t, d);
    var r := FindIn(t, d, c);
    if IsDotDot(c) && r.Some? {
      ParentAnchored(t, d);
    } else if !IsDot(c) && r.Some? {
      KidAnchored(t, d, r.value);
    }
  }

  /** find_file_path, component by component. */
  ghost function Resolve(t: Store, d: nat, cs: seq<Path>): (r: Option<nat>)
    requires TreeOk(t) && Anchored(t, d)
    ensures r.Some? ==> Anchored(t, r.value)
    decreases |cs|
  {
    FoundAnchored(t, d, if cs == [] then [] else cs[0]);
    if cs == [] then Some(d)
    else if t[d].kind != Directory then None
    else if FindIn(t, d, cs[0]).None? then None
    else Resolve(t, FindIn(t, d, cs[0]).value, cs[1..])
  }

  /** find_file_in_dir */
  method FindFileInDir(t: Store, d: nat, file: Path) returns (r: Option<nat>)
    requires TreeOk(t) && Anchored(t, d) && DirOk(t, d)
    ensures r == FindIn(t, d, file) && (r.Some? ==> Anchored(t, r.value))
  {
    FoundAnchored(t, d, file);
    if |file| == 1 && file[0] == DOT {
      return Some(d);
    }
    if |file| == 2 && file[0] == DOT && file[1] == DOT {
      return t[d].parent;
    }
    forall i | 0 <= i < |t[d].kids| ensures NUL !in t[t[d].kids[i]].name {
      assert NodeOk(t, t[d].kids[i]);
    }
    r := FindChild(t, t[d].kids, file);
  }

  /** find_file_path */
  method FindFilePath(t: Store, path: Path) returns (r: Option<nat>)
    requires TreeOk(t) && Anchored(t, ROOT)
    ensures r == Resolve(t, ROOT, Components(path))
  {
    var current := ROOT;
    var component, rest := GetComponentAdvance(path);
    while component != []
      invariant Anchored(t, current)
      invariant Resolve(t, ROOT, Components(path)) == Resolve(t, current, Piece(component) + Components(rest))
      invariant component == [] ==> rest == []
      decreases |rest|, |component|
    {
      assert (Piece(component) + Components(rest))[1..] == Components(rest);
      if t[current].kind != Directory {
        return None;
      }
      assert DirOk(t, current);
      var found := FindFileInDir(t, current, component);
      if found.None? {
        return None;
      }
      current := found.value;
      component, rest := GetComponentAdvance(rest);
    }
    r := Some(current);
  }

  // ---------------------------------------------------------------- creating directories on the way

  /** `NotADirectory`: the walk would go on inside a regular file, whose content pointer the code
      takes for a list of children. */
  datatype Outcome = Reached(dir: nat) | Refused | NotADirectory

  function NewDirectory(c: Path, d: nat): Node {
    Node(Effective(c), Directory, Some(d), [], 1, 0, false, [])
  }

  ghost predicate Fresh(t: Store, next: nat) {
    forall n | n in t :: n < next
  }

  /** A named component: the child with that name, made if there is none. */
  function EnterName(t: Store, next: nat, d: nat, c: Path): (Store, nat, nat)
    requires d in t && forall i | 0 <= i < |t[d].kids| :: t[d].kids[i] in t
  {
    match LookupIn(t, t[d].kids, Effective(c))
    case Some(x) => (t, next, x)
    case None => (AddChild(t, d, next, NewDirectory(c, d)), next + 1, next)
  }

  /** What one component does: the store, the next free number and where the walk stands. */
  ghost function Enter(t: Store, next: nat, d: nat, c: Path, preventUp: bool): (Store, nat, Outcome)
    requires TreeOk(t) && Fresh(t, next) && Anchored(t, d)
  {
    assert DirOk(t, d);
    if |c| > NAME_LENGTH then (t, next, Refused)
    else if IsDot(c) then (t, next, Reached(d))
    else if IsDotDot(c) then
      if preventUp then (t, next, Refused)
      else (t, next, Reached(if t[d].parent.None? then d else t[d].parent.value))
    else if t[d].kind != Directory then (t, next, NotADirectory)
    else
      var (t', next', x) := EnterName(t, next, d, c);
      (t', next', Reached(x))
  }

  lemma EnterOk(t: Store, next: nat, d: nat, c: Path, preventUp: bool)
    requires TreeOk(t) && Fresh(t, next) && Anchored(t, d)
    ensures var (t', next', o) := Enter(t, next, d, c, preventUp);
            TreeOk(t') && Fresh(t', next') && next <= next' && (o.Reached? ==> Anchored(t', o.dir))
  {
    assert DirOk(t, d);
    FoundAnchored(t, d, c);
    if |c| <= NAME_LENGTH && !IsDot(c) && !IsDotDot(c) && t[d].kind == Directory && FindIn(t, d, c).None? {
      AddChildOk(t, d, next, NewDirectory(c, d));
    }
    if IsDotDot(c) && t[d].parent.Some? {
      ParentAnchored(t, d);
    }
  }

  /** create_directories, component by component. */
  ghost function CreateDirs(t: Store, next: nat, d: nat, cs: seq<Path>, preventUp: bool): (r: (Store, nat, Outcome))
    requires TreeOk(t) && Fresh(t, next) && Anchored(t, d)
    ensures TreeOk(r.0) && Fresh(r.0, r.1) && next <= r.1 && (r.2.Reached? ==> Anchored(r.0, r.2.dir))
    decreases |cs|
  {
    if cs == [] then (t, next, Reached(d))
    else
      EnterOk(t, next, d, cs[0], preventUp);
      var (t', next', o) := Enter(t, next, d, cs[0], preventUp);
      if o.Reached? then CreateDirs(t', next', o.dir, cs[1..], preventUp) else (t', next', o)
  }

  // ---------------------------------------------------------------- what creating leaves alone

  /** `t'` has all records of `t`, named and placed as before, and lookups that succeeded in `t` give
      the same child. */
  ghost predicate Extends(t: Store, t': Store) {
    forall n | n in t ::
      && n in t' && t'[n] == t[n].(kids := t'[n].kids)
      && LookupsKept(t, t', n)
  }

  ghost predicate LookupsKept(t: Store, t': Store, n: nat)
    requires n in t && n in t'
  {
    && KidsIn(t, t[n].kids) && KidsIn(t', t'[n].kids)
    && (forall k | k in t[n].kids :: k in t'[n].kids)
    && forall name | LookupIn(t, t[n].kids, name).Some? ::
         LookupIn(t', t'[n].kids, name) == LookupIn(t, t[n].kids, name)
  }

  lemma ExtendsRefl(t: Store)
    requires TreeOk(t)
    ensures Extends(t, t)
  {
    forall n | n in t ensures LookupsKept(t, t, n) {
      assert DirOk(t, n);
    }
  }

  lemma ExtendsTrans(t: Store, u: Store, v: Store)
    requires Extends(t, u) && Extends(u, v)
    ensures Extends(t, v)
  {
    forall n | n in t ensures n in v && v[n] == t[n].(kids := v[n].kids) && LookupsKept(t, v, n) {
      assert n in u && LookupsKept(t, u, n) && LookupsKept(u, v, n);
    }
  }

  /** Inserting a differently named child changes no lookup. */
  lemma {:induction false} LookupInserted(t: Store, t': Store, kids: seq<nat>, p: nat, n: nat, name: Name)
    requires KidsIn(t, kids) && p <= |kids| && n in t' && t'[n].name != name
    requires forall i | 0 <= i < |kids| :: kids[i] in t' && t'[kids[i]].name == t[kids[i]].name
    ensures KidsIn(t', Inserted(kids, p, n))
    ensures LookupIn(t', Inserted(kids, p, n), name) == LookupIn(t, kids, name)
  {
    var kids' := Inserted(kids, p, n);
    if p == 0 {
      assert kids'[1..] == kids;
      LookupSame(t, t', kids, name);
    } else {
      assert kids'[0] == kids[0] && kids'[1..] == Inserted(kids[1..], p - 1, n);
      if t[kids[0]].name != name {
        LookupInserted(t, t', kids[1..], p - 1, n, name);
      }
    }
  }

  lemma {:induction false} LookupSame(t: Store, t': Store, kids: seq<nat>, name: Name)
    requires KidsIn(t, kids)
    requires forall i | 0 <= i < |kids| :: kids[i] in t' && t'[kids[i]].name == t[kids[i]].name
    ensures LookupIn(t', kids, name) == LookupIn(t, kids, name)
  {
    if kids != [] && t[kids[0]].name != name {
      LookupSame(t, t', kids[1..], name);
    }
  }

  /** A new child goes behind the ones of its name, so the first of them stays the one found. */
  lemma LookupStaysFirst(t: Store, d: nat, n: nat, node: Node)
    requires CanAdd(t, d, n, node) && DirOk(t, d) && LookupIn(t, t[d].kids, node.name).Some?
    ensures var t' := AddChild(t, d, n, node);
            KidsIn(t', t'[d].kids) && LookupIn(t', t'[d].kids, node.name) == LookupIn(t, t[d].kids, node.name)
  {
    var kids, t' := t[d].kids, AddChild(t, d, n, node);
    var p := InsertPos(t, kids, node.name, 0);
    var i := LookupFirst(t, kids, node.name);
    if p < |kids| {
      CompareFlip(node.name, t[kids[p]].name);
      NoneLater(t, kids, node.name, p);
    }
    AddChildDir(t, d, n, node);
    LookupAt(t', Inserted(kids, p, n), node.name, i);
  }

  lemma AddChildExtends(t: Store, d: nat, n: nat, node: Node)
    requires CanAdd(t, d, n, node)
    ensures Extends(t, AddChild(t, d, n, node))
  {
    var t' := AddChild(t, d, n, node);
    forall x | x in t ensures x in t' && t'[x] == t[x].(kids := t'[x].kids) && LookupsKept(t, t', x) {
      assert DirOk(t, x);
      AddChildLookups(t, d, n, node, x);
    }
  }

  lemma AddChildLookups(t: Store, d: nat, n: nat, node: Node, x: nat)
    requires CanAdd(t, d, n, node) && x in t && DirOk(t, x)
    ensures LookupsKept(t, AddChild(t, d, n, node), x)
  {
    var t' := AddChild(t, d, n, node);
    if x == d {
      AddChildDir(t, d, n, node);
      InsertKeepsDistinct(t[d].kids, InsertPos(t, t[d].kids, node.name, 0), n);
      forall name | LookupIn(t, t[d].kids, name).Some?
        ensures LookupIn(t', t'[d].kids, name) == LookupIn(t, t[d].kids, name)
      {
        if name == node.name {
          LookupStaysFirst(t, d, n, node);
        } else {
          AddChildLookupHere(t, d, n, node, name);
        }
      }
    } else {
      AddChildLookupsElsewhere(t, t', x);
    }
  }

  lemma AddChildLookupsElsewhere(t: Store, t': Store, x: nat)
    requires x in t && DirOk(t, x) && x in t' && t'[x].kids == t[x].kids
    requires forall i | 0 <= i < |t[x].kids| :: t[x].kids[i] in t' && t'[t[x].kids[i]].name == t[t[x].kids[i]].name
    ensures LookupsKept(t, t', x)
  {
    forall name | LookupIn(t, t[x].kids, name).Some?
      ensures LookupIn(t', t'[x].kids, name) == LookupIn(t, t[x].kids, name)
    {
      LookupSame(t, t', t[x].kids, name);
    }
  }

  lemma AddChildLookupHere(t: Store, d: nat, n: nat, node: Node, name: Name)
    requires CanAdd(t, d, n, node) && name != node.name
    ensures var t' := AddChild(t, d, n, node);
            KidsIn(t', t'[d].kids) && LookupIn(t', t'[d].kids, name) == LookupIn(t, t[d].kids, name)
  {
    LookupInserted(t, AddChild(t, d, n, node), t[d].kids, InsertPos(t, t[d].kids, node.name, 0), n, name);
  }

  lemma EnterExtends(t: Store, next: nat, d: nat, c: Path, preventUp: bool)
    requires TreeOk(t) && Fresh(t, next) && Anchored(t, d)
    ensures Extends(t, Enter(t, next, d, c, preventUp).0)
  {
    ExtendsRefl(t);
    assert DirOk(t, d);
    if |c| <= NAME_LENGTH && !IsDot(c) && !IsDotDot(c) && t[d].kind == Directory && FindIn(t, d, c).None? {
      AddChildExtends(t, d, next, NewDirectory(c, d));
    }
  }

  lemma {:induction false} CreateExtends(t: Store, next: nat, d: nat, cs: seq<Path>, preventUp: bool)
    requires TreeOk(t) && Fresh(t, next) && Anchored(t, d)
    ensures Extends(t, CreateDirs(t, next, d, cs, preventUp).0)
    decreases |cs|
  {
    ExtendsRefl(t);
    if cs != [] {
      var (t', next', o) := Enter(t, next, d, cs[0], preventUp);
      EnterOk(t, next, d, cs[0], preventUp);
      EnterExtends(t, next, d, cs[0], preventUp);
      if o.Reached? {
        CreateExtends(t', next', o.dir, cs[1..], preventUp);
        ExtendsTrans(t, t', CreateDirs(t', next', o.dir, cs[1..], preventUp).0);
      }
    }
  }

  lemma ExtendsAnchored(t: Store, t': Store, d: nat)
    requires TreeOk(t) && Extends(t, t') && Anchored(t, d)
    ensures Anchored(t', d)
  {
    if d != ROOT {
      var p := t[d].parent.value;
      assert LookupsKept(t, t', p);
    }
  }

  // ---------------------------------------------------------------- creating and then finding

  /** A component that was entered is behind the walk. */
  lemma OneStep(t: Store, next: nat, d: nat, cs: seq<Path>, preventUp: bool)
    requires TreeOk(t) && Fresh(t, next) && Anchored(t, d) && cs != [] && Enter(t, next, d, cs[0], preventUp).2.Reached?
    ensures var (u, k, o) := Enter(t, next, d, cs[0], preventUp);
            && TreeOk(u) && Fresh(u, k) && Anchored(u, o.dir)
            && CreateDirs(t, next, d, cs, preventUp) == CreateDirs(u, k, o.dir, cs[1..], preventUp)
            && (t[d].kind == Directory && (IsDotDot(cs[0]) ==> t[d].parent.Some?) ==>
                  Clean(t, next, d, cs, preventUp) == Clean(u, k, o.dir, cs[1..], preventUp))
  {
    EnterOk(t, next, d, cs[0], preventUp);
  }

  /** The walk only enters directories and never goes up from the root. */
  ghost predicate Clean(t: Store, next: nat, d: nat, cs: seq<Path>, preventUp: bool)
    requires TreeOk(t) && Fresh(t, next) && Anchored(t, d)
    decreases |cs|
  {
    cs == [] ||
    (&& t[d].kind == Directory
     && (IsDotDot(cs[0]) ==> t[d].parent.Some?)
     && var (t', next', o) := Enter(t, next, d, cs[0], preventUp);
        EnterOk(t, next, d, cs[0], preventUp);
        (o.Reached? ==> Clean(t', next', o.dir, cs[1..], preventUp)))
  }

  lemma {:induction false} LookupNew(t: Store, t': Store, kids: seq<nat>, p: nat, n: nat)
    requires KidsIn(t, kids) && p <= |kids| && n in t' && LookupIn(t, kids, t'[n].name).None?
    requires forall i | 0 <= i < |kids| :: kids[i] in t' && t'[kids[i]].name == t[kids[i]].name
    ensures KidsIn(t', Inserted(kids, p, n)) && LookupIn(t', Inserted(kids, p, n), t'[n].name) == Some(n)
  {
    var kids' := Inserted(kids, p, n);
    if p > 0 {
      assert kids'[0] == kids[0] && kids'[1..] == Inserted(kids[1..], p - 1, n);
      LookupNew(t, t', kids[1..], p - 1, n);
    }
  }

  /** The directory a component led to is what looking that component up gives afterwards. */
  lemma EnterThenFind(t: Store, next: nat, d: nat, c: Path, preventUp: bool)
    requires TreeOk(t) && Fresh(t, next) && Anchored(t, d) && t[d].kind == Directory
    requires IsDotDot(c) ==> t[d].parent.Some?
    ensures var (t', next', o) := Enter(t, next, d, c, preventUp);
            o.Reached? ==> d in t' && KidsIn(t', t'[d].kids) && FindIn(t', d, c) == Some(o.dir)
  {
    assert DirOk(t, d);
    if |c| <= NAME_LENGTH && !IsDot(c) && !IsDotDot(c) && FindIn(t, d, c).None? {
      var node := NewDirectory(c, d);
      LookupNew(t, AddChild(t, d, next, node), t[d].kids, InsertPos(t, t[d].kids, node.name, 0), next);
    }
  }

  lemma FindInKept(t: Store, t': Store, d: nat, c: Path)
    requires Extends(t, t') && d in t && KidsIn(t, t[d].kids) && FindIn(t, d, c).Some?
    ensures d in t' && KidsIn(t', t'[d].kids) && FindIn(t', d, c) == FindIn(t, d, c)
  {
    assert LookupsKept(t, t', d);
  }

  /** When create_directories succeeds, find_file_path afterwards finds what it returned exactly if the
      walk was clean. */
  lemma {:induction false} CreateThenFind(t: Store, next: nat, d: nat, cs: seq<Path>, preventUp: bool)
    requires TreeOk(t) && Fresh(t, next) && Anchored(t, d) && CreateDirs(t, next, d, cs, preventUp).2.Reached?
    ensures var (f, _, o) := CreateDirs(t, next, d, cs, preventUp);
            Anchored(f, d) && (Resolve(f, d, cs) == Some(o.dir) <==> Clean(t, next, d, cs, preventUp))
    decreases |cs|
  {
    CreateExtends(t, next, d, cs, preventUp);
    var f := CreateDirs(t, next, d, cs, preventUp).0;
    ExtendsAnchored(t, f, d);
    if cs != [] {
      var (t', next', o) := Enter(t, next, d, cs[0], preventUp);
      EnterOk(t, next, d, cs[0], preventUp);
      CreateThenFind(t', next', o.dir, cs[1..], preventUp);
      if t[d].kind == Directory && (IsDotDot(cs[0]) ==> t[d].parent.Some?) {
        EnterThenFind(t, next, d, cs[0], preventUp);
        CreateExtends(t', next', o.dir, cs[1..], preventUp);
        FindInKept(t', f, d, cs[0]);
      }
    }
  }

  lemma {:induction false} ResolveKept(t: Store, t': Store, d: nat, cs: seq<Path>)
    requires TreeOk(t) && TreeOk(t') && Extends(t, t') && Anchored(t, d) && Resolve(t, d, cs).Some?
    ensures Anchored(t', d) && Resolve(t', d, cs) == Resolve(t, d, cs)
    decreases |cs|
  {
    ExtendsAnchored(t, t', d);
    if cs != [] {
      FoundAnchored(t, d, cs[0]);
      FindInKept(t, t', d, cs[0]);
      ResolveKept(t, t', FindIn(t, d, cs[0]).value, cs[1..]);
    }
  }

  lemma {:induction false} ResolveOneMore(t: Store, d: nat, cs: seq<Path>, c: Path)
    requires TreeOk(t) && Anchored(t, d) && Resolve(t, d, cs).Some? && t[Resolve(t, d, cs).value].kind == Directory
    ensures KidsIn(t, t[Resolve(t, d, cs).value].kids)
    ensures Resolve(t, d, cs + [c]) == FindIn(t, Resolve(t, d, cs).value, c)
    decreases |cs|
  {
    if cs == [] {
      FoundAnchored(t, d, c);
      assert (cs + [c])[1..] == [];
    } else {
      FoundAnchored(t, d, cs[0]);
      assert (cs + [c])[1..] == cs[1..] + [c];
      ResolveOneMore(t, FindIn(t, d, cs[0]).value, cs[1..], c);
    }
  }

  /** A path that leads to a file leads there by its last name, from the file's directory. */
  lemma {:induction false} ResolveLast(t: Store, d: nat, cs: seq<Path>, n: nat)
    requires TreeOk(t) && Anchored(t, d) && cs != [] && Resolve(t, d, cs) == Some(n) && t[n].kind == Regular
    ensures var k := |cs| - 1; var r := Resolve(t, d, cs[..k]);
            && r.Some? && t[n].parent == r && t[r.value].kind == Directory && KidsIn(t, t[r.value].kids)
            && !IsDot(cs[k]) && !IsDotDot(cs[k]) && LookupIn(t, t[r.value].kids, Effective(cs[k])) == Some(n)
    decreases |cs|
  {
    FoundAnchored(t, d, cs[0]);
    var x := FindIn(t, d, cs[0]).value;
    if |cs| == 1 {
      assert cs[1..] == [] && cs[..0] == [];
      LastStep(t, d, cs[0], n);
    } else {
      ResolveLast(t, x, cs[1..], n);
      var k := |cs| - 1;
      assert cs[1..][..k - 1] == cs[..k][1..] && cs[1..][k - 1] == cs[k];
    }
  }

  lemma LastStep(t: Store, d: nat, c: Path, n: nat)
    requires TreeOk(t) && Anchored(t, d) && DirOk(t, d) && t[d].kind == Directory && FindIn(t, d, c) == Some(n)
    requires n in t && t[n].kind == Regular
    ensures t[n].parent == Some(d) && !IsDot(c) && !IsDotDot(c) && LookupIn(t, t[d].kids, Effective(c)) == Some(n)
  {
    assert NodeOk(t, d) && DirOk(t, n);
    if !IsDot(c) && !IsDotDot(c) {
      KidAnchored(t, d, n);
    }
  }

  lemma LookupBack(t: Store, e: nat, n: nat, node: Node, name: Name)
    requires CanAdd(t, e, n, node) && DirOk(t, e)
    ensures var t' := AddChild(t, e, n, node);
            && KidsIn(t', t'[e].kids)
            && LookupIn(t', t'[e].kids, name) in {LookupIn(t, t[e].kids, name), Some(n)}
  {
    if name != node.name {
      AddChildLookupHere(t, e, n, node, name);
    } else if LookupIn(t, t[e].kids, name).Some? {
      LookupStaysFirst(t, e, n, node);
    } else {
      LookupNew(t, AddChild(t, e, n, node), t[e].kids, InsertPos(t, t[e].kids, node.name, 0), n);
    }
  }

  lemma FindInBack(t: Store, e: nat, n: nat, node: Node, d: nat, c: Path)
    requires CanAdd(t, e, n, node) && d in t && DirOk(t, d)
    ensures var t' := AddChild(t, e, n, node);
            KidsIn(t', t'[d].kids) && (FindIn(t', d, c) == FindIn(t, d, c) || FindIn(t', d, c) == Some(n))
  {
    if d == e {
      LookupBack(t, e, n, node, Effective(c));
    } else {
      LookupSame(t, AddChild(t, e, n, node), t[d].kids, Effective(c));
    }
  }

  /** A new file leads nowhere: what else is found with it was found without it. */
  lemma {:induction false} ResolveBack(t: Store, e: nat, n: nat, node: Node, d: nat, cs: seq<Path>)
    requires CanAdd(t, e, n, node) && node.kind == Regular && Anchored(t, d)
    requires TreeOk(AddChild(t, e, n, node)) && Anchored(AddChild(t, e, n, node), d)
    ensures var r := Resolve(AddChild(t, e, n, node), d, cs); r.Some? && r.value != n ==> Resolve(t, d, cs) == r
    decreases |cs|
  {
    var t' := AddChild(t, e, n, node);
    if cs != [] && t[d].kind == Directory {
      FoundAnchored(t, d, cs[0]);
      FoundAnchored(t', d, cs[0]);
      FindInBack(t, e, n, node, d, cs[0]);
      var x := FindIn(t', d, cs[0]);
      if x.Some? && x.value != n {
        ResolveBack(t, e, n, node, x.value, cs[1..]);
      }
    }
  }

  /** Going up from the root is passed over when creating and fails when finding: `../a` is made and not
      found. */
  lemma UpFromRootIsNotFound(t: Store, next: nat, cs: seq<Path>)
    requires TreeOk(t) && Fresh(t, next) && |cs| == 2 && IsDotDot(cs[0]) && cs[1] == [97]
    ensures CreateDirs(t, next, ROOT, cs, false).2.Reached?
    ensures var f := CreateDirs(t, next, ROOT, cs, false).0; Anchored(f, ROOT) && Resolve(f, ROOT, cs).None?
    ensures !Clean(t, next, ROOT, cs, false)
  {
    assert DirOk(t, ROOT) && NodeOk(t, ROOT);
    var rest := cs[1..];
    assert Enter(t, next, ROOT, cs[0], false) == (t, next, Reached(ROOT));
    assert CreateDirs(t, next, ROOT, cs, false) == CreateDirs(t, next, ROOT, rest, false);
    EnterOk(t, next, ROOT, rest[0], false);
    var (u, k, o) := Enter(t, next, ROOT, rest[0], false);
    assert CreateDirs(u, k, o.dir, rest[1..], false) == (u, k, o);
    CreateExtends(t, next, ROOT, cs, false);
  }

  /** A path that can be found needs nothing created. */
  lemma {:induction false} FoundNeedsNoCreation(t: Store, next: nat, d: nat, cs: seq<Path>, preventUp: bool)
    requires TreeOk(t) && Fresh(t, next) && Anchored(t, d) && Resolve(t, d, cs).Some?
    requires forall i | 0 <= i < |cs| :: |cs[i]| <= NAME_LENGTH && (preventUp ==> !IsDotDot(cs[i]))
    ensures CreateDirs(t, next, d, cs, preventUp) == (t, next, Reached(Resolve(t, d, cs).value))
    decreases |cs|
  {
    if cs != [] {
      FoundAnchored(t, d, cs[0]);
      FoundNeedsNoCreation(t, next, FindIn(t, d, cs[0]).value, cs[1..], preventUp);
    }
  }

  lemma {:induction false} ReachedComponents(t: Store, next: nat, d: nat, cs: seq<Path>, preventUp: bool)
    requires TreeOk(t) && Fresh(t, next) && Anchored(t, d) && CreateDirs(t, next, d, cs, preventUp).2.Reached?
    ensures forall i | 0 <= i < |cs| :: |cs[i]| <= NAME_LENGTH && (preventUp ==> !IsDotDot(cs[i]))
    decreases |cs|
  {
    if cs != [] {
      EnterOk(t, next, d, cs[0], preventUp);
      var (t', next', o) := Enter(t, next, d, cs[0], preventUp);
      ReachedComponents(t', next', o.dir, cs[1..], preventUp);
      assert forall i | 0 < i < |cs| :: cs[i] == cs[1..][i - 1];
    }
  }

  /** Calling create_directories again creates nothing and returns the same directory. */
  lemma CreateTwice(t: Store, next: nat, d: nat, cs: seq<Path>, preventUp: bool)
    requires TreeOk(t) && Fresh(t, next) && Anchored(t, d)
    requires CreateDirs(t, next, d, cs, preventUp).2.Reached? && Clean(t, next, d, cs, preventUp)
    ensures var r := CreateDirs(t, next, d, cs, preventUp);
            Anchored(r.0, d) && CreateDirs(r.0, r.1, d, cs, preventUp) == r
  {
    var r := CreateDirs(t, next, d, cs, preventUp);
    CreateThenFind(t, next, d, cs, preventUp);
    ReachedComponents(t, next, d, cs, preventUp);
    FoundNeedsNoCreation(r.0, r.1, d, cs, preventUp);
  }

  // ---------------------------------------------------------------- staying below a directory

  /** `n` lies in the subtree of `top`. */
  predicate Under(t: Store, top: nat, n: nat)
    decreases n
  {
    n in t && (n == top || (t[n].parent.Some? && t[n].parent.value < n && Under(t, top, t[n].parent.value)))
  }

  ghost predicate OnlyNew(t: Store, t': Store, next: nat) {
    forall n | n in t' :: n in t || n >= next
  }

  lemma {:induction false} UnderSame(t: Store, t': Store, next: nat, top: nat, n: nat)
    requires Extends(t, t') && Fresh(t, next) && OnlyNew(t, t', next) && n in t
    ensures Under(t', top, n) <==> Under(t, top, n)
    decreases n
  {
    if t[n].parent.Some? && t[n].parent.value < n && t[n].parent.value in t {
      UnderSame(t, t', next, top, t[n].parent.value);
    }
  }

  /** With `preventUp` the walk stays in the subtree it started in and changes nothing outside. */
  lemma {:induction false} CreateStaysUnder(t: Store, next: nat, top: nat, d: nat, cs: seq<Path>)
    requires TreeOk(t) && Fresh(t, next) && Anchored(t, d) && Under(t, top, d)
    ensures var (t', next', o) := CreateDirs(t, next, d, cs, true);
            && OnlyNew(t, t', next)
            && (o.Reached? ==> Under(t', top, o.dir))
            && (forall n | n in t && !Under(t, top, n) :: n in t' && t'[n] == t[n])
            && (forall n | n in t' && n !in t :: Under(t', top, n))
    decreases |cs|
  {
    if cs != [] {
      var (t1, next1, o) := Enter(t, next, d, cs[0], true);
      EnterOk(t, next, d, cs[0], true);
      EnterChanges(t, next, d, cs[0], true);
      EnterUnder(t, next, top, d, cs[0]);
      if o.Reached? {
        CreateStaysUnder(t1, next1, top, o.dir, cs[1..]);
        CreateExtends(t1, next1, o.dir, cs[1..], true);
        var t2 := CreateDirs(t1, next1, o.dir, cs[1..], true).0;
        forall n | n in t2 && n !in t ensures Under(t2, top, n) {
          if n in t1 {
            UnderSame(t1, t2, next1, top, n);
          }
        }
        forall n | n in t && !Under(t, top, n) ensures n in t2 && t2[n] == t[n] {
          EnterExtends(t, next, d, cs[0], true);
          UnderSame(t, t1, next, top, n);
        }
      }
    }
  }

  /** A component adds at most one record, and changes none but the directory it is added to. */
  lemma EnterChanges(t: Store, next: nat, d: nat, c: Path, preventUp: bool)
    requires TreeOk(t) && Fresh(t, next) && Anchored(t, d)
    ensures var t' := Enter(t, next, d, c, preventUp).0;
            && OnlyNew(t, t', next)
            && (forall n | n in t && n != d :: n in t' && t'[n] == t[n])
            && (forall n | n in t' && n !in t :: n == next)
  {
    assert DirOk(t, d);
    if |c| <= NAME_LENGTH && !IsDot(c) && !IsDotDot(c) && t[d].kind == Directory {
      NameChanges(t, next, d, c);
    }
  }

  lemma NameChanges(t: Store, next: nat, d: nat, c: Path)
    requires Fresh(t, next) && d in t && KidsIn(t, t[d].kids)
    ensures var t' := EnterName(t, next, d, c).0;
            && OnlyNew(t, t', next)
            && (forall n | n in t && n != d :: n in t' && t'[n] == t[n])
            && (forall n | n in t' && n !in t :: n == next)
  {
  }

  lemma EnterUnder(t: Store, next: nat, top: nat, d: nat, c: Path)
    requires TreeOk(t) && Fresh(t, next) && Anchored(t, d) && Under(t, top, d)
    ensures var (t', next', o) := Enter(t, next, d, c, true);
            (o.Reached? ==> Under(t', top, o.dir)) && (next in t' ==> Under(t', top, next))
  {
    assert DirOk(t, d);
    if |c| <= NAME_LENGTH && !IsDot(c) && !IsDotDot(c) && t[d].kind == Directory {
      var found := LookupIn(t, t[d].kids, Effective(c));
      if found.Some? {
        KidAnchored(t, d, found.value);
      } else {
        AddedUnder(t, next, top, d, NewDirectory(c, d));
      }
    }
  }

  lemma AddedUnder(t: Store, next: nat, top: nat, d: nat, node: Node)
    requires CanAdd(t, d, next, node) && Fresh(t, next) && Under(t, top, d) && LookupIn(t, t[d].kids, node.name).None?
    ensures Under(AddChild(t, d, next, node), top, next)
  {
    AddChildExtends(t, d, next, node);
    UnderSame(t, AddChild(t, d, next, node), next, top, d);
  }
}
