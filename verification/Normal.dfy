/** Where paths with `.` and `..` lead: to the record whose own path is the normalised one. */
module Normal {
  import opened Prelude
  import opened Names
  import opened Paths
  import opened Tree
  import opened Walk
  import opened Sets

  /** A path written out by one more component: `.` stays, `..` drops the last name, a name is added. */
  function Stepped(at: seq<Name>, c: Path): seq<Name> {
    if c == [46] then at
    else if c == [46, 46] then (if at == [] then [] else at[..|at| - 1])
    else at + [Effective(c)]
  }

  /** The lexically normalised path, starting from `at`. */
  function Normalised(at: seq<Name>, cs: seq<Path>): seq<Name>
    decreases |cs|
  {
    if cs == [] then at else Normalised(Stepped(at, cs[0]), cs[1..])
  }

  lemma {:induction false} AnchoredUnder(t: Store, n: nat)
    requires TreeOk(t) && Anchored(t, n)
    ensures Under(t, ROOT, n)
    decreases n
  {
    if n != ROOT {
      var p := t[n].parent.value;
      assert DirOk(t, p) && NodeOk(t, p);
      AnchoredUnder(t, p);
    }
  }

  /** The names from the root down to a record of the tree. */
  ghost function PathOf(t: Store, n: nat): seq<Name>
    requires TreeOk(t) && Anchored(t, n)
  {
    AnchoredUnder(t, n);
    PathFrom(t, ROOT, n)
  }

  // ---------------------------------------------------------------- finding

  lemma FoundStep(t: Store, d: nat, c: Path)
    requires TreeOk(t) && Anchored(t, d) && KidsIn(t, t[d].kids) && FindIn(t, d, c).Some?
    ensures var x := FindIn(t, d, c).value; Anchored(t, x) && PathOf(t, x) == Stepped(PathOf(t, d), c)
  {
    FoundAnchored(t, d, c);
    var x := FindIn(t, d, c).value;
    AnchoredUnder(t, d);
    AnchoredUnder(t, x);
    assert NodeOk(t, d);
    if IsDotDot(c) {
      assert PathFrom(t, ROOT, d) == PathFrom(t, ROOT, x) + [t[d].name];
    } else if !IsDot(c) {
      KidAnchored(t, d, x);
      KidUnder(t, ROOT, d, x);
    }
  }

  /** What find_file_path finds has the normalised path. */
  lemma {:induction false} FoundAtNormalisedPath(t: Store, d: nat, cs: seq<Path>)
    requires TreeOk(t) && Anchored(t, d) && Resolve(t, d, cs).Some?
    ensures PathOf(t, Resolve(t, d, cs).value) == Normalised(PathOf(t, d), cs)
    decreases |cs|
  {
    if cs != [] {
      FoundAnchored(t, d, cs[0]);
      FoundStep(t, d, cs[0]);
      FoundAtNormalisedPath(t, FindIn(t, d, cs[0]).value, cs[1..]);
    }
  }

  /** A name into a directory and `..` out of it again lead back. */
  lemma DownAndUp(t: Store, d: nat, cs: seq<Path>, c: Path)
    requires TreeOk(t) && Anchored(t, d) && c != [46] && c != [46, 46]
    requires Resolve(t, d, cs + [c]).Some? && t[Resolve(t, d, cs + [c]).value].kind == Directory
    ensures Resolve(t, d, cs + [c] + [[46, 46]]) == Resolve(t, d, cs)
  {
    ResolvePrefix(t, d, cs, c);
    ResolveOneMore(t, d, cs, c);
    var x := Resolve(t, d, cs).value;
    FoundAnchored(t, x, c);
    KidAnchored(t, x, FindIn(t, x, c).value);
    ResolveOneMore(t, d, cs + [c], [46, 46]);
  }

  /** A path that leads somewhere goes through directories. */
  lemma {:induction false} ResolvePrefix(t: Store, d: nat, cs: seq<Path>, c: Path)
    requires TreeOk(t) && Anchored(t, d) && Resolve(t, d, cs + [c]).Some?
    ensures Resolve(t, d, cs).Some? && t[Resolve(t, d, cs).value].kind == Directory
    decreases |cs|
  {
    if cs != [] {
      FoundAnchored(t, d, cs[0]);
      assert (cs + [c])[1..] == cs[1..] + [c];
      ResolvePrefix(t, FindIn(t, d, cs[0]).value, cs[1..], c);
    }
  }

  // ---------------------------------------------------------------- creating

  lemma EnteredStep(t: Store, next: nat, d: nat, c: Path, preventUp: bool)
    requires TreeOk(t) && Fresh(t, next) && Anchored(t, d) && Enter(t, next, d, c, preventUp).2.Reached?
    ensures var (u, k, o) := Enter(t, next, d, c, preventUp);
            TreeOk(u) && Anchored(u, o.dir) && PathOf(u, o.dir) == Stepped(PathOf(t, d), c)
  {
    EnterOk(t, next, d, c, preventUp);
    EnterExtends(t, next, d, c, preventUp);
    EnterChanges(t, next, d, c, preventUp);
    AnchoredUnder(t, d);
    assert DirOk(t, d) && NodeOk(t, d);
    var (u, k, o) := Enter(t, next, d, c, preventUp);
    PathSame(t, u, next, ROOT, d);
    AnchoredUnder(u, o.dir);
    if IsDotDot(c) {
      EnteredUp(t, d);
    } else if !IsDot(c) {
      EnteredName(t, next, d, c);
    }
  }

  lemma EnteredUp(t: Store, d: nat)
    requires TreeOk(t) && Anchored(t, d)
    ensures var p := if t[d].parent.None? then d else t[d].parent.value;
            Anchored(t, p) && PathOf(t, p) == Stepped(PathOf(t, d), [46, 46])
  {
    assert NodeOk(t, d);
    AnchoredUnder(t, d);
    if d != ROOT {
      ParentAnchored(t, d);
      AnchoredUnder(t, t[d].parent.value);
      assert PathFrom(t, ROOT, d) == PathFrom(t, ROOT, t[d].parent.value) + [t[d].name];
    }
  }

  lemma EnteredName(t: Store, next: nat, d: nat, c: Path)
    requires TreeOk(t) && Fresh(t, next) && Anchored(t, d) && t[d].kind == Directory && DirOk(t, d)
    requires var (u, k, x) := EnterName(t, next, d, c); TreeOk(u) && Anchored(u, x) && Anchored(u, d)
    ensures var (u, k, x) := EnterName(t, next, d, c);
            u[x].parent == Some(d) && PathOf(u, x) == PathOf(u, d) + [Effective(c)]
  {
    var (u, k, x) := EnterName(t, next, d, c);
    AnchoredUnder(u, d);
    AnchoredUnder(u, x);
    if LookupIn(t, t[d].kids, Effective(c)).Some? {
      KidAnchored(t, d, x);
    }
    assert NodeOk(u, x);
  }

  /** Where create_directories ends has the normalised path. */
  lemma {:induction false} CreatedAtNormalisedPath(t: Store, next: nat, d: nat, cs: seq<Path>, preventUp: bool)
    requires TreeOk(t) && Fresh(t, next) && Anchored(t, d) && CreateDirs(t, next, d, cs, preventUp).2.Reached?
    ensures var r := CreateDirs(t, next, d, cs, preventUp);
            PathOf(r.0, r.2.dir) == Normalised(PathOf(t, d), cs)
    decreases |cs|
  {
    if cs != [] {
      EnterOk(t, next, d, cs[0], preventUp);
      EnteredStep(t, next, d, cs[0], preventUp);
      OneStep(t, next, d, cs, preventUp);
      var (u, k, o) := Enter(t, next, d, cs[0], preventUp);
      CreatedAtNormalisedPath(u, k, o.dir, cs[1..], preventUp);
    }
  }

  lemma {:induction false} CreateOneMore(t: Store, next: nat, d: nat, cs: seq<Path>, c: Path, preventUp: bool)
    requires TreeOk(t) && Fresh(t, next) && Anchored(t, d)
    ensures var r := CreateDirs(t, next, d, cs, preventUp);
            CreateDirs(t, next, d, cs + [c], preventUp) ==
            if r.2.Reached? then Enter(r.0, r.1, r.2.dir, c, preventUp) else r
    decreases |cs|
  {
    if cs == [] {
      assert (cs + [c])[0] == c && (cs + [c])[1..] == [];
      EnterOk(t, next, d, c, preventUp);
    } else {
      assert (cs + [c])[0] == cs[0] && (cs + [c])[1..] == cs[1..] + [c];
      EnterOk(t, next, d, cs[0], preventUp);
      var (u, k, o) := Enter(t, next, d, cs[0], preventUp);
      if o.Reached? {
        CreateOneMore(u, k, o.dir, cs[1..], c, preventUp);
      }
    }
  }

  /** A name and `..` make no more than the name does, and end where they began. */
  lemma CreateDownAndUp(t: Store, next: nat, d: nat, cs: seq<Path>, c: Path)
    requires TreeOk(t) && Fresh(t, next) && Anchored(t, d) && c != [46] && c != [46, 46]
    requires CreateDirs(t, next, d, cs + [c], false).2.Reached?
    ensures var back := CreateDirs(t, next, d, cs + [c] + [[46, 46]], false);
            && back.0 == CreateDirs(t, next, d, cs + [c], false).0
            && back.2 == CreateDirs(t, next, d, cs, false).2
  {
    CreateOneMore(t, next, d, cs, c, false);
    CreateOneMore(t, next, d, cs + [c], [46, 46], false);
    var r := CreateDirs(t, next, d, cs, false);
    var (u, k, o) := Enter(r.0, r.1, r.2.dir, c, false);
    EnterOk(r.0, r.1, r.2.dir, c, false);
    assert DirOk(r.0, r.2.dir);
    EnteredName(r.0, r.1, r.2.dir, c);
  }
}
