/** What the calls on the file system leave alone: the records themselves, and the lists of children
    except for what a call links into them or takes out of them. */
module Frames {
  import opened Prelude
  import opened Names
  import opened Paths
  import opened Tree
  import opened Walk
  import opened Creating

  // ---------------------------------------------------------------- parts of a list

  /** The entries of a list that belong to `s`, in the order of the list. */
  function Only(kids: seq<nat>, s: set<nat>): seq<nat> {
    if kids == [] then [] else (if kids[0] in s then [kids[0]] else []) + Only(kids[1..], s)
  }

  lemma {:induction false} OnlySame(kids: seq<nat>, a: set<nat>, b: set<nat>)
    requires forall k | k in kids :: k in a <==> k in b
    ensures Only(kids, a) == Only(kids, b)
  {
    if kids != [] {
      assert kids[0] in kids;
      OnlySame(kids[1..], a, b);
    }
  }

  lemma {:induction false} OnlyMember(kids: seq<nat>, s: set<nat>, x: nat)
    ensures x in Only(kids, s) <==> x in kids && x in s
  {
    if kids != [] {
      OnlyMember(kids[1..], s, x);
    }
  }

  lemma OnlyStep(x: seq<nat>, y: seq<nat>, s: set<nat>)
    requires x != []
    ensures Only(x + y, s) == (if x[0] in s then [x[0]] else []) + Only(x[1..] + y, s)
  {
    assert (x + y)[0] == x[0] && (x + y)[1..] == x[1..] + y;
  }

  lemma {:induction false} OnlyJoined(x: seq<nat>, y: seq<nat>, s: set<nat>)
    ensures Only(x + y, s) == Only(x, s) + Only(y, s)
  {
    if x == [] {
      assert x + y == y;
    } else {
      OnlyJoined(x[1..], y, s);
      OnlyStep(x, y, s);
    }
  }

  lemma {:induction false} OnlyTwice(kids: seq<nat>, a: set<nat>, b: set<nat>)
    ensures Only(Only(kids, a), b) == Only(kids, a * b)
  {
    if kids != [] {
      OnlyTwice(kids[1..], a, b);
      OnlyJoined(if kids[0] in a then [kids[0]] else [], Only(kids[1..], a), b);
    }
  }

  lemma InsertedOnly(kids: seq<nat>, p: nat, n: nat, s: set<nat>)
    requires p <= |kids| && n !in s
    ensures Only(Inserted(kids, p, n), s) == Only(kids, s)
  {
    var before, after := kids[..p], kids[p..];
    assert before + after == kids && before + [n] + after == Inserted(kids, p, n);
    OnlyPassesOver(before, n, after, s);
  }

  lemma OnlyPassesOver(before: seq<nat>, n: nat, after: seq<nat>, s: set<nat>)
    requires n !in s
    ensures Only(before + [n] + after, s) == Only(before + after, s)
  {
    OnlyJoined(before + [n], after, s);
    OnlyJoined(before, [n], s);
    OnlyJoined(before, after, s);
    assert Only([n], s) == [];
    assert Only(before, s) + [] == Only(before, s);
  }

  lemma WithoutOnly(kids: seq<nat>, n: nat, s: set<nat>)
    requires n in kids && Distinct(kids)
    ensures Only(Without(kids, n), s) == Only(kids, s - {n})
  {
    var i := IndexOf(kids, n);
    var before, after := kids[..i], kids[i + 1..];
    assert kids == before + [n] + after;
    OnlyAround(before, n, after, s);
  }

  lemma OnlyAround(before: seq<nat>, n: nat, after: seq<nat>, s: set<nat>)
    requires n !in before && n !in after
    ensures Only(before + after, s) == Only(before + [n] + after, s - {n})
  {
    var r := s - {n};
    OnlyJoined(before, after, s);
    OnlyJoined(before + [n], after, r);
    OnlyJoined(before, [n], r);
    OnlySame(before, s, r);
    OnlySame(after, s, r);
    assert Only([n], r) == [];
    assert Only(before, r) + [] == Only(before, r);
  }

  // ---------------------------------------------------------------- the frame of one call

  /** The same file: a call may change its children, its link count and its open count. */
  predicate SameFile(a: Node, b: Node) {
    a.name == b.name && a.kind == b.kind && a.parent == b.parent && a.content == b.content && a.pinned == b.pinned
  }

  /** A record in both stores is the same file; its list of children has lost what is in `gone` and has
      gained only new records. */
  ghost predicate FramedAt(t: Store, t': Store, gone: set<nat>, n: nat)
    requires n in t && n in t'
  {
    SameFile(t[n], t'[n]) && Only(t'[n].kids, t.Keys) == Only(t[n].kids, t.Keys - gone)
  }

  /** So for all of them; and new records are empty. */
  ghost predicate Framed(t: Store, t': Store, gone: set<nat>) {
    && (forall n {:trigger FramedAt(t, t', gone, n)} | n in t && n in t' :: FramedAt(t, t', gone, n))
    && (forall n | n in t' && n !in t :: t'[n].content == [] && !t'[n].pinned)
  }

  /** Nothing is lost. */
  ghost predicate Grown(t: Store, t': Store) {
    t.Keys <= t'.Keys && Framed(t, t', {})
  }

  lemma GrownRefl(t: Store)
    ensures Grown(t, t)
  {
    assert t.Keys - {} == t.Keys;
  }

  lemma GrownTrans(t: Store, u: Store, v: Store)
    requires Grown(t, u) && Grown(u, v)
    ensures Grown(t, v)
  {
    assert t.Keys - {} == t.Keys && u.Keys - {} == u.Keys && u.Keys * t.Keys == t.Keys;
    forall n | n in t ensures FramedAt(t, v, {}, n) {
      assert FramedAt(t, u, {}, n) && FramedAt(u, v, {}, n);
      OnlyTwice(v[n].kids, u.Keys, t.Keys);
      OnlyTwice(u[n].kids, u.Keys, t.Keys);
    }
    forall n | n in v && n !in t ensures v[n].content == [] && !v[n].pinned {
      assert n in u ==> FramedAt(u, v, {}, n);
    }
  }

  lemma AddChildGrows(t: Store, d: nat, n: nat, node: Node)
    requires CanAdd(t, d, n, node) && node.content == [] && !node.pinned
    ensures Grown(t, AddChild(t, d, n, node))
  {
    var t' := AddChild(t, d, n, node);
    assert t.Keys - {} == t.Keys;
    InsertedOnly(t[d].kids, InsertPos(t, t[d].kids, node.name, 0), n, t.Keys);
    assert FramedAt(t, t', {}, d);
    assert forall m | m in t && m != d :: t'[m] == t[m] && FramedAt(t, t', {}, m);
  }

  lemma EnterGrows(t: Store, next: nat, d: nat, c: Path, preventUp: bool)
    requires TreeOk(t) && Fresh(t, next) && Anchored(t, d)
    ensures Grown(t, Enter(t, next, d, c, preventUp).0)
  {
    assert DirOk(t, d);
    GrownRefl(t);
    if Enter(t, next, d, c, preventUp).0 != t {
      AddChildGrows(t, d, next, NewDirectory(c, d));
    }
  }

  lemma {:induction false} CreateGrows(t: Store, next: nat, d: nat, cs: seq<Path>, preventUp: bool)
    requires TreeOk(t) && Fresh(t, next) && Anchored(t, d)
    ensures Grown(t, CreateDirs(t, next, d, cs, preventUp).0)
    decreases |cs|
  {
    GrownRefl(t);
    if cs != [] {
      EnterOk(t, next, d, cs[0], preventUp);
      EnterGrows(t, next, d, cs[0], preventUp);
      var e := Enter(t, next, d, cs[0], preventUp);
      if e.2.Reached? {
        CreateGrows(e.0, e.1, e.2.dir, cs[1..], preventUp);
        GrownTrans(t, e.0, CreateDirs(e.0, e.1, e.2.dir, cs[1..], preventUp).0);
      }
    }
  }

  lemma PutFileGrows(t: Store, next: nat, o: Outcome, name: Path)
    requires TreeOk(t) && Fresh(t, next) && (o.Reached? ==> Anchored(t, o.dir))
    ensures Grown(t, PutFile(t, next, o, name).0)
  {
    GrownRefl(t);
    if o.Reached? && t[o.dir].kind == Directory {
      assert DirOk(t, o.dir);
      AddChildGrows(t, o.dir, next, NewFile(name, o.dir));
    }
  }

  lemma CreationGrows(t: Store, next: nat, path: Path)
    requires TreeOk(t) && Fresh(t, next) && Anchored(t, ROOT) && path != []
    ensures Grown(t, Creation(t, next, path).0)
  {
    GrownRefl(t);
    if |FilePart(path)| < NAME_LENGTH {
      var u := CreateDirs(t, next, ROOT, Components(DirectoryPart(path)), false);
      CreateGrows(t, next, ROOT, Components(DirectoryPart(path)), false);
      PutFileGrows(u.0, u.1, u.2, FilePart(path));
      GrownTrans(t, u.0, PutFile(u.0, u.1, u.2, FilePart(path)).0);
    }
  }

  lemma DetachFrame(t: Store, n: nat)
    requires TreeOk(t) && CanDetach(t, n)
    ensures Framed(t, Detach(t, n), {n}) && Detach(t, n).Keys == t.Keys
  {
    var t', p := Detach(t, n), t[n].parent.value;
    assert DirOk(t, p);
    WithoutOnly(t[p].kids, n, t.Keys);
    forall m | m in t ensures FramedAt(t, t', {n}, m) {
      assert DirOk(t, m);
      if m != p {
        OnlySame(t[m].kids, t.Keys, t.Keys - {n});
      }
    }
  }

  /** Giving a record back touches no other. */
  lemma RemoveFrame(t: Store, t': Store, gone: set<nat>, n: nat)
    requires Framed(t, t', gone)
    ensures Framed(t, t' - {n}, gone)
  {
    forall m | m in t && m in t' - {n} ensures FramedAt(t, t' - {n}, gone, m) {
      assert FramedAt(t, t', gone, m);
    }
  }

  // ---------------------------------------------------------------- over whole runs

  function Members(kids: seq<nat>): set<nat> {
    set k | k in kids
  }

  /** A record in both stores is the same file; of the children it had, those it still has are in the
      same order. */
  ghost predicate KeptAt(t: Store, t': Store, n: nat)
    requires n in t && n in t'
  {
    SameFile(t[n], t'[n]) && Only(t'[n].kids, t.Keys) == Only(t[n].kids, Members(t'[n].kids))
  }

  ghost predicate Kept(t: Store, t': Store) {
    forall n {:trigger KeptAt(t, t', n)} | n in t && n in t' :: KeptAt(t, t', n)
  }

  lemma KeptRefl(t: Store)
    requires TreeOk(t)
    ensures Kept(t, t)
  {
    forall n | n in t ensures KeptAt(t, t, n) {
      assert DirOk(t, n);
      OnlySame(t[n].kids, t.Keys, Members(t[n].kids));
    }
  }

  lemma KeptList(had: seq<nat>, mid: seq<nat>, now: seq<nat>, first: set<nat>, s: set<nat>, gone: set<nat>)
    requires Only(mid, first) == Only(had, Members(mid)) && Only(now, s) == Only(mid, s - gone)
    requires (forall k | k in now && k in first :: k in s) && (forall k | k in had :: k in first)
    ensures Only(now, first) == Only(had, Members(now))
  {
    OnlySame(now, first, s * first);
    OnlyTwice(now, s, first);
    OnlyTwice(mid, s - gone, first);
    OnlyTwice(mid, first, s - gone);
    assert first * (s - gone) == (s - gone) * first;
    OnlyTwice(had, Members(mid), s - gone);
    forall k | k in had ensures k in Members(mid) * (s - gone) <==> k in Members(now) {
      OnlyMember(now, s, k);
      OnlyMember(mid, s - gone, k);
    }
    OnlySame(had, Members(mid) * (s - gone), Members(now));
  }

  lemma KeptThen(t: Store, u: Store, v: Store, gone: set<nat>)
    requires TreeOk(t) && TreeOk(v) && Kept(t, u) && Framed(u, v, gone) && forall n | n in t && n in v :: n in u
    ensures Kept(t, v)
  {
    forall n | n in t && n in v ensures KeptAt(t, v, n) {
      assert KeptAt(t, u, n) && FramedAt(u, v, gone, n);
      assert DirOk(t, n) && DirOk(v, n);
      assert forall k | k in v[n].kids && k in t.Keys :: k in u.Keys;
      KeptList(t[n].kids, u[n].kids, v[n].kids, t.Keys, u.Keys, gone);
    }
  }
}
