/** The set loops of fs_initialize: what every list of input and output sets makes of the tree. */
module Loading {
  import opened Prelude
  import opened Names
  import opened Paths
  import opened Tree
  import opened Walk
  import opened Sets

  // ---------------------------------------------------------------- identifiers

  /** Directory names, each followed by a slash. */
  function Prefix(cs: seq<Name>): Path {
    if cs == [] then [] else Prefix(cs[..|cs| - 1]) + cs[|cs| - 1] + [SLASH]
  }

  /** A path as one string. */
  function Ident(cs: seq<Name>): Path
    requires cs != []
  {
    Prefix(cs[..|cs| - 1]) + cs[|cs| - 1]
  }

  lemma {:induction false} ComponentsOfPrefixed(cs: seq<Name>, w: Name)
    requires AllPlain(cs) && Plain(w)
    ensures Components(Prefix(cs) + w) == cs + [w]
  {
    if cs == [] {
      assert Prefix(cs) + w == w;
      ComponentsOfWord(w);
    } else {
      var k := |cs| - 1;
      var d := Prefix(cs[..k]) + cs[k];
      assert Prefix(cs) + w == d + [SLASH] + w;
      assert forall i | 0 <= i < k :: cs[..k][i] == cs[i];
      ComponentsOfPrefixed(cs[..k], cs[k]);
      ComponentsOfJoin(Prefix(cs) + w, d, w);
      assert cs[..k] + [cs[k]] == cs;
    }
  }

  /** Parsing an identifier gives its components back: directories first, then the file. */
  lemma IdentParts(cs: seq<Name>)
    requires cs != [] && AllPlain(cs)
    ensures var p, k := Ident(cs), |cs| - 1;
            p != [] && Components(DirectoryPart(p)) == cs[..k] && FilePart(p) == cs[k] && Components(p) == cs
  {
    var p, k := Ident(cs), |cs| - 1;
    assert AllPlain(cs[..k]) && Plain(cs[k]);
    ComponentsOfPrefixed(cs[..k], cs[k]);
    assert cs[..k] + [cs[k]] == cs;
    assert p[|p| - 1] == cs[k][|cs[k]| - 1];
    Paths.PlainPath(p);
    var a := Components(DirectoryPart(p));
    assert (a + [FilePart(p)])[|a|] == FilePart(p) && |a| == k;
    assert (a + [FilePart(p)])[..k] == a;
  }

  datatype Buffer = Buffer(ident: Path, bytes: seq<int>)

  function BufferOf(item: Item): Buffer
    requires item.path != []
  {
    Buffer(Ident(item.path), item.bytes)
  }

  function BuffersOf(items: seq<Item>): (bs: seq<Buffer>)
    requires forall i | 0 <= i < |items| :: items[i].path != []
    ensures |bs| == |items| && forall i | 0 <= i < |bs| :: bs[i] == BufferOf(items[i])
  {
    seq(|items|, i requires 0 <= i < |items| => BufferOf(items[i]))
  }

  // ---------------------------------------------------------------- what loading does

  /** An input set as the platform hands it over. */
  datatype InputSet = InputSet(ident: Path, buffers: seq<Buffer>)

  /** From `t` to `t'` records were only added. */
  ghost predicate Grows(t: Store, next: nat, t': Store, next': nat) {
    TreeOk(t') && Fresh(t', next') && next <= next' && Extends(t, t') && OnlyNew(t, t', next)
  }

  lemma GrowsRefl(t: Store, next: nat)
    requires TreeOk(t) && Fresh(t, next)
    ensures Grows(t, next, t, next)
  {
    ExtendsRefl(t);
  }

  lemma GrowsTrans(t: Store, next: nat, u: Store, k: nat, v: Store, m: nat)
    requires Grows(t, next, u, k) && Grows(u, k, v, m)
    ensures Grows(t, next, v, m)
  {
    ExtendsTrans(t, u, v);
  }

  lemma CreateGrows(t: Store, next: nat, d: nat, cs: seq<Path>)
    requires TreeOk(t) && Fresh(t, next) && Anchored(t, d)
    ensures var r := CreateDirs(t, next, d, cs, true); Grows(t, next, r.0, r.1)
  {
    CreateExtends(t, next, d, cs, true);
    CreateOnlyNew(t, next, d, cs);
  }

  lemma {:induction false} CreateOnlyNew(t: Store, next: nat, d: nat, cs: seq<Path>)
    requires TreeOk(t) && Fresh(t, next) && Anchored(t, d)
    ensures OnlyNew(t, CreateDirs(t, next, d, cs, true).0, next)
    decreases |cs|
  {
    if cs != [] {
      EnterOk(t, next, d, cs[0], true);
      EnterChanges(t, next, d, cs[0], true);
      var (t', next', o) := Enter(t, next, d, cs[0], true);
      if o.Reached? {
        CreateOnlyNew(t', next', o.dir, cs[1..]);
      }
    }
  }

  /** The store after a file has been linked where the walk ended, if that is a directory. */
  ghost function AddFile(t: Store, next: nat, o: Outcome, name: Path, bytes: seq<int>): (Store, nat, bool)
    requires TreeOk(t) && (o.Reached? ==> Anchored(t, o.dir))
  {
    if o.Reached? && |name| <= NAME_LENGTH && t[o.dir].kind == Directory then
      assert DirOk(t, o.dir);
      (AddChild(t, o.dir, next, FileNode(Effective(name), o.dir, bytes)), next + 1, true)
    else (t, next, false)
  }

  lemma AddFileGrows(t: Store, next: nat, o: Outcome, name: Path, bytes: seq<int>)
    requires TreeOk(t) && Fresh(t, next) && (o.Reached? ==> Anchored(t, o.dir))
    ensures var r := AddFile(t, next, o, name, bytes); Grows(t, next, r.0, r.1)
  {
    if AddFile(t, next, o, name, bytes).2 {
      LinkGrows(t, next, o.dir, FileNode(Effective(name), o.dir, bytes));
    } else {
      GrowsRefl(t, next);
    }
  }

  lemma LinkGrows(t: Store, next: nat, d: nat, node: Node)
    requires TreeOk(t) && Fresh(t, next) && Anchored(t, d) && t[d].kind == Directory && NewNode(node, d)
    ensures DirOk(t, d) && CanAdd(t, d, next, node) && Grows(t, next, AddChild(t, d, next, node), next + 1)
  {
    assert DirOk(t, d);
    AddChildOk(t, d, next, node);
    AddChildExtends(t, d, next, node);
  }

  /** One item of the set in directory `d`: the directories of its identifier, then its file.  Items
      without an identifier are skipped. */
  ghost function PutBuffer(t: Store, next: nat, d: nat, b: Buffer): (Store, nat, bool)
    requires TreeOk(t) && Fresh(t, next) && Anchored(t, d)
  {
    if b.ident == [] then (t, next, true)
    else if t[d].kind != Directory then (t, next, false)
    else
      var r := CreateDirs(t, next, d, Components(DirectoryPart(b.ident)), true);
      AddFile(r.0, r.1, r.2, FilePart(b.ident), b.bytes)
  }

  lemma PutBufferGrows(t: Store, next: nat, d: nat, b: Buffer)
    requires TreeOk(t) && Fresh(t, next) && Anchored(t, d)
    ensures var r := PutBuffer(t, next, d, b); Grows(t, next, r.0, r.1) && Anchored(r.0, d)
  {
    GrowsRefl(t, next);
    if b.ident != [] && t[d].kind == Directory {
      var cs := Components(DirectoryPart(b.ident));
      var u := CreateDirs(t, next, d, cs, true);
      var v := AddFile(u.0, u.1, u.2, FilePart(b.ident), b.bytes);
      CreateGrows(t, next, d, cs);
      AddFileGrows(u.0, u.1, u.2, FilePart(b.ident), b.bytes);
      GrowsTrans(t, next, u.0, u.1, v.0, v.1);
    }
    ExtendsAnchored(t, PutBuffer(t, next, d, b).0, d);
  }

  /** All items of a set, up to the first that fails. */
  ghost function PutBuffers(t: Store, next: nat, d: nat, bs: seq<Buffer>): (r: (Store, nat, bool))
    requires TreeOk(t) && Fresh(t, next) && Anchored(t, d)
    ensures Grows(t, next, r.0, r.1) && Anchored(r.0, d)
    decreases |bs|
  {
    GrowsRefl(t, next);
    if bs == [] then (t, next, true)
    else
      PutBufferGrows(t, next, d, bs[0]);
      var (u, k, ok) := PutBuffer(t, next, d, bs[0]);
      if !ok then (u, k, false)
      else
        var r := PutBuffers(u, k, d, bs[1..]);
        GrowsTrans(t, next, u, k, r.0, r.1);
        r
  }

  /** The directory of a set, made from the root. */
  ghost function MakeSet(t: Store, next: nat, ident: Path): (r: (Store, nat, Outcome))
    requires TreeOk(t) && Fresh(t, next)
    ensures Grows(t, next, r.0, r.1) && (r.2.Reached? ==> Anchored(r.0, r.2.dir))
  {
    CreateGrows(t, next, ROOT, Components(ident));
    CreateDirs(t, next, ROOT, Components(ident), true)
  }

  /** An input set: its directory, then its items.  Sets without an identifier are skipped. */
  ghost function PutSet(t: Store, next: nat, s: InputSet): (r: (Store, nat, bool))
    requires TreeOk(t) && Fresh(t, next)
    ensures Grows(t, next, r.0, r.1)
  {
    GrowsRefl(t, next);
    if s.ident == [] then (t, next, true)
    else
      var (u, k, o) := MakeSet(t, next, s.ident);
      if !o.Reached? then (u, k, false)
      else
        var r := PutBuffers(u, k, o.dir, s.buffers);
        GrowsTrans(t, next, u, k, r.0, r.1);
        r
  }

  ghost function PutSets(t: Store, next: nat, ss: seq<InputSet>): (r: (Store, nat, bool))
    requires TreeOk(t) && Fresh(t, next)
    ensures Grows(t, next, r.0, r.1)
    decreases |ss|
  {
    GrowsRefl(t, next);
    if ss == [] then (t, next, true)
    else
      var (u, k, ok) := PutSet(t, next, ss[0]);
      if !ok then (u, k, false)
      else
        var r := PutSets(u, k, ss[1..]);
        GrowsTrans(t, next, u, k, r.0, r.1);
        r
  }

  /** The directories of the output sets. */
  ghost function MakeSets(t: Store, next: nat, idents: seq<Path>): (r: (Store, nat, bool))
    requires TreeOk(t) && Fresh(t, next)
    ensures Grows(t, next, r.0, r.1)
    decreases |idents|
  {
    GrowsRefl(t, next);
    if idents == [] then (t, next, true)
    else
      var (u, k, o) := if idents[0] == [] then (t, next, Reached(ROOT)) else MakeSet(t, next, idents[0]);
      if !o.Reached? then (u, k, false)
      else
        var r := MakeSets(u, k, idents[1..]);
        GrowsTrans(t, next, u, k, r.0, r.1);
        r
  }

  /** All sets of fs_initialize. */
  ghost function Loaded(t: Store, next: nat, inputs: seq<InputSet>, outputs: seq<Path>): (r: (Store, nat, bool))
    requires TreeOk(t) && Fresh(t, next)
    ensures Grows(t, next, r.0, r.1)
  {
    var (u, k, ok) := PutSets(t, next, inputs);
    if !ok then (u, k, false)
    else
      var r := MakeSets(u, k, outputs);
      GrowsTrans(t, next, u, k, r.0, r.1);
      r
  }

  // ---------------------------------------------------------------- a set's own items

  function ItemOf(b: Buffer): Item {
    Item(Components(b.ident), b.bytes)
  }

  function ItemsOf(bs: seq<Buffer>): (items: seq<Item>)
    ensures |items| == |bs| && forall i | 0 <= i < |bs| :: items[i] == ItemOf(bs[i])
  {
    seq(|bs|, i requires 0 <= i < |bs| => ItemOf(bs[i]))
  }

  /** An identifier of ordinary names with single slashes between them. */
  predicate GoodBuffer(b: Buffer) {
    var cs := Components(b.ident);
    cs != [] && AllPlain(cs) && b.ident == Ident(cs)
  }

  /** And no item stands where a later one needs a directory. */
  predicate GoodBuffers(bs: seq<Buffer>) {
    && (forall i | 0 <= i < |bs| :: GoodBuffer(bs[i]))
    && (forall i, j | 0 <= i < j < |bs| :: !(Components(bs[i].ident) < Components(bs[j].ident)))
  }

  lemma PutGoodBuffer(t: Store, next: nat, d: nat, b: Buffer, cs: seq<Name>)
    requires TreeOk(t) && Fresh(t, next) && Anchored(t, d) && t[d].kind == Directory
    requires GoodBuffer(b) && cs == Components(b.ident)
    ensures var r := CreateDirs(t, next, d, cs[..|cs| - 1], true);
            PutBuffer(t, next, d, b) == AddFile(r.0, r.1, r.2, cs[|cs| - 1], b.bytes)
  {
    IdentParts(cs);
  }

  lemma FileOfItem(t: Store, next: nat, top: nat, items: seq<Item>, ids: seq<nat>, o: Outcome, name: Name, item: Item)
    requires Holds(t, next, top, items, ids) && o.Reached? && Anchored(t, o.dir) && t[o.dir].kind == Directory
    requires Under(t, top, o.dir) && Plain(name) && item.path == PathFrom(t, top, o.dir) + [name]
    ensures var r := AddFile(t, next, o, name, item.bytes); r.2 && Holds(r.0, r.1, top, items + [item], ids + [next])
  {
    EffectiveName(name);
    ItemFile(t, next, top, items, ids, o.dir, name, item);
  }

  /** Loading a good item adds its file under its path and nothing else to the set. */
  lemma PutBufferHolds(t: Store, next: nat, top: nat, items: seq<Item>, ids: seq<nat>, b: Buffer) returns (n: nat)
    requires Holds(t, next, top, items, ids) && GoodBuffer(b) && Compatible(items, ItemOf(b))
    ensures var r := PutBuffer(t, next, top, b); r.2 && Holds(r.0, r.1, top, items + [ItemOf(b)], ids + [n])
  {
    var cs := Components(b.ident);
    var k := |cs| - 1;
    PutGoodBuffer(t, next, top, b, cs);
    ItemDirectories(t, next, top, items, ids, ItemOf(b));
    var r := CreateDirs(t, next, top, cs[..k], true);
    LastName(cs);
    FileOfItem(r.0, r.1, top, items, ids, r.2, cs[k], ItemOf(b));
    n := r.1;
  }

  lemma LastName(cs: seq<Name>)
    requires cs != [] && AllPlain(cs)
    ensures cs[..|cs| - 1] + [cs[|cs| - 1]] == cs && Plain(cs[|cs| - 1])
  {
  }

  lemma {:induction false} PutBuffersHold(t: Store, next: nat, top: nat, items: seq<Item>, ids: seq<nat>,
                                          bs: seq<Buffer>)
    returns (ids': seq<nat>)
    requires Holds(t, next, top, items, ids) && GoodBuffers(bs)
    requires forall i | 0 <= i < |bs| :: Compatible(items, ItemOf(bs[i]))
    ensures var r := PutBuffers(t, next, top, bs); r.2 && Holds(r.0, r.1, top, items + ItemsOf(bs), ids')
    decreases |bs|
  {
    if bs == [] {
      ids' := ids;
      assert items + ItemsOf(bs) == items;
    } else {
      RestGood(items, bs);
      var n := PutBufferHolds(t, next, top, items, ids, bs[0]);
      var u := PutBuffer(t, next, top, bs[0]);
      ids' := PutBuffersHold(u.0, u.1, top, items + [ItemOf(bs[0])], ids + [n], bs[1..]);
      ItemsSplit(items, bs);
    }
  }

  lemma ItemsSplit(items: seq<Item>, bs: seq<Buffer>)
    requires bs != []
    ensures items + [ItemOf(bs[0])] + ItemsOf(bs[1..]) == items + ItemsOf(bs)
  {
  }

  lemma RestGood(items: seq<Item>, bs: seq<Buffer>)
    requires GoodBuffers(bs) && bs != [] && forall i | 0 <= i < |bs| :: Compatible(items, ItemOf(bs[i]))
    ensures GoodBuffer(bs[0]) && GoodBuffers(bs[1..]) && Compatible(items, ItemOf(bs[0]))
    ensures forall i | 0 <= i < |bs[1..]| :: Compatible(items + [ItemOf(bs[0])], ItemOf(bs[1..][i]))
  {
    forall i | 0 <= i < |bs[1..]|
      ensures GoodBuffer(bs[1..][i]) && Compatible(items + [ItemOf(bs[0])], ItemOf(bs[1..][i]))
    {
      assert GoodBuffer(bs[i + 1]) && Compatible(items, ItemOf(bs[i + 1]));
      assert !(Components(bs[0].ident) < Components(bs[i + 1].ident));
    }
  }

  // ---------------------------------------------------------------- what other sets leave alone

  /** Only records below `x` were changed, the root's list aside, and only below `x` were any added. */
  ghost predicate Confined(t: Store, t': Store, x: nat) {
    && (forall n | n in t && n != ROOT && !Under(t, x, n) :: n in t' && t'[n] == t[n])
    && (forall n | n in t' && n !in t :: Under(t', x, n))
  }

  lemma ConfinedTrans(t: Store, next: nat, u: Store, k: nat, v: Store, m: nat, x: nat)
    requires Grows(t, next, u, k) && Grows(u, k, v, m) && Fresh(t, next) && Confined(t, u, x) && Confined(u, v, x)
    ensures Confined(t, v, x)
  {
    forall n | n in t && n != ROOT && !Under(t, x, n) ensures n in v && v[n] == t[n] {
      UnderSame(t, u, next, x, n);
    }
    forall n | n in v && n !in t ensures Under(v, x, n) {
      if n in u {
        UnderSame(u, v, k, x, n);
      }
    }
  }

  lemma CreateConfined(t: Store, next: nat, x: nat, d: nat, cs: seq<Path>)
    requires TreeOk(t) && Fresh(t, next) && Anchored(t, d) && Under(t, x, d)
    ensures var r := CreateDirs(t, next, d, cs, true);
            Confined(t, r.0, x) && (r.2.Reached? ==> Under(r.0, x, r.2.dir)) && (x != ROOT ==> r.0[ROOT] == t[ROOT])
  {
    CreateStaysUnder(t, next, x, d, cs);
    if x != ROOT {
      assert !Under(t, x, ROOT);
    }
  }

  lemma AddFileConfined(t: Store, next: nat, x: nat, o: Outcome, name: Path, bytes: seq<int>)
    requires TreeOk(t) && Fresh(t, next) && (o.Reached? ==> Anchored(t, o.dir) && Under(t, x, o.dir)) && x != ROOT
    ensures var r := AddFile(t, next, o, name, bytes); Confined(t, r.0, x) && r.0[ROOT] == t[ROOT]
  {
    if AddFile(t, next, o, name, bytes).2 {
      LinkConfined(t, next, x, o.dir, FileNode(Effective(name), o.dir, bytes));
    }
  }

  lemma LinkConfined(t: Store, next: nat, x: nat, d: nat, node: Node)
    requires TreeOk(t) && Fresh(t, next) && Anchored(t, d) && t[d].kind == Directory && NewNode(node, d)
    requires Under(t, x, d) && x != ROOT
    ensures DirOk(t, d)
    ensures var t' := AddChild(t, d, next, node); Confined(t, t', x) && t'[ROOT] == t[ROOT]
  {
    LinkGrows(t, next, d, node);
    UnderSame(t, AddChild(t, d, next, node), next, x, d);
    assert !Under(t, x, ROOT);
  }

  lemma PutBufferConfined(t: Store, next: nat, x: nat, d: nat, b: Buffer)
    requires TreeOk(t) && Fresh(t, next) && Anchored(t, d) && Under(t, x, d) && x != ROOT
    ensures var r := PutBuffer(t, next, d, b); Confined(t, r.0, x) && Under(r.0, x, d) && r.0[ROOT] == t[ROOT]
  {
    PutBufferGrows(t, next, d, b);
    UnderSame(t, PutBuffer(t, next, d, b).0, next, x, d);
    if b.ident != [] && t[d].kind == Directory {
      var cs := Components(DirectoryPart(b.ident));
      var u := CreateDirs(t, next, d, cs, true);
      var v := AddFile(u.0, u.1, u.2, FilePart(b.ident), b.bytes);
      CreateGrows(t, next, d, cs);
      CreateConfined(t, next, x, d, cs);
      AddFileGrows(u.0, u.1, u.2, FilePart(b.ident), b.bytes);
      AddFileConfined(u.0, u.1, x, u.2, FilePart(b.ident), b.bytes);
      ConfinedTrans(t, next, u.0, u.1, v.0, v.1, x);
    }
  }

  lemma {:induction false} PutBuffersConfined(t: Store, next: nat, x: nat, d: nat, bs: seq<Buffer>)
    requires TreeOk(t) && Fresh(t, next) && Anchored(t, d) && Under(t, x, d) && x != ROOT
    ensures var r := PutBuffers(t, next, d, bs); Confined(t, r.0, x) && r.0[ROOT] == t[ROOT]
    decreases |bs|
  {
    if bs != [] {
      PutBufferGrows(t, next, d, bs[0]);
      PutBufferConfined(t, next, x, d, bs[0]);
      var (u, k, ok) := PutBuffer(t, next, d, bs[0]);
      if ok {
        PutBuffersConfined(u, k, x, d, bs[1..]);
        var v := PutBuffers(u, k, d, bs[1..]);
        ConfinedTrans(t, next, u, k, v.0, v.1, x);
      }
    }
  }

  /** The first component that is not a dot. */
  function Head(cs: seq<Path>): (h: Option<Path>)
    ensures h.Some? ==> !IsDot(h.value) && h.value in cs
  {
    if cs == [] then None else if IsDot(cs[0]) then Head(cs[1..]) else Some(cs[0])
  }

  /** The root has the same children as before, and perhaps `x`; all names but that of `x` look up as before. */
  ghost predicate RootPlus(t: Store, t': Store, x: nat) {
    && ROOT in t && ROOT in t' && KidsIn(t, t[ROOT].kids) && KidsIn(t', t'[ROOT].kids) && x in t'[ROOT].kids && x in t'
    && (forall y | y in t'[ROOT].kids :: y in t[ROOT].kids || y == x)
    && (forall name | name != t'[x].name ::
          LookupIn(t', t'[ROOT].kids, name) == LookupIn(t, t[ROOT].kids, name))
  }

  lemma EnterFromRoot(t: Store, next: nat, h: Path)
    requires TreeOk(t) && Fresh(t, next) && !IsDot(h) && Enter(t, next, ROOT, h, true).2.Reached?
    ensures var (t', _, o) := Enter(t, next, ROOT, h, true);
            && o.dir in t' && t'[o.dir].name == Effective(h) && o.dir != ROOT && RootPlus(t, t', o.dir)
               && Confined(t, t', o.dir)
  {
    assert DirOk(t, ROOT);
    var found := LookupIn(t, t[ROOT].kids, Effective(h));
    if found.None? {
      NewInRoot(t, next, NewDirectory(h, ROOT));
    } else {
      KidAnchored(t, ROOT, found.value);
    }
  }

  lemma NewInRoot(t: Store, next: nat, node: Node)
    requires TreeOk(t) && Fresh(t, next) && NewNode(node, ROOT)
    ensures DirOk(t, ROOT)
    ensures var t' := AddChild(t, ROOT, next, node); next != ROOT && RootPlus(t, t', next) && Confined(t, t', next)
  {
    LinkGrows(t, next, ROOT, node);
    var t' := AddChild(t, ROOT, next, node);
    InsertKeepsDistinct(t[ROOT].kids, InsertPos(t, t[ROOT].kids, node.name, 0), next);
    assert DirOk(t', ROOT);
    forall name | name != node.name ensures LookupIn(t', t'[ROOT].kids, name) == LookupIn(t, t[ROOT].kids, name) {
      AddChildLookupHere(t, ROOT, next, node, name);
    }
  }

  lemma RootPlusLater(t: Store, u: Store, v: Store, x: nat)
    requires RootPlus(t, u, x) && Extends(u, v) && v[ROOT] == u[ROOT]
    ensures RootPlus(t, v, x) && v[x].name == u[x].name
  {
    forall name | name != v[x].name ensures LookupIn(v, v[ROOT].kids, name) == LookupIn(t, t[ROOT].kids, name) {
      LookupSame(u, v, u[ROOT].kids, name);
    }
  }

  /** A set directory with a name of its own lies below a child of the root with that name. */
  lemma {:induction false} MakeConfined(t: Store, next: nat, cs: seq<Path>) returns (x: nat)
    requires TreeOk(t) && Fresh(t, next) && Head(cs).Some? && CreateDirs(t, next, ROOT, cs, true).2.Reached?
    ensures var (t', _, o) := CreateDirs(t, next, ROOT, cs, true);
            && x in t' && x != ROOT && t'[x].name == Effective(Head(cs).value) && Under(t', x, o.dir)
            && RootPlus(t, t', x) && Confined(t, t', x)
    decreases |cs|
  {
    if IsDot(cs[0]) {
      x := MakeConfined(t, next, cs[1..]);
    } else {
      EnterFromRoot(t, next, cs[0]);
      EnterOk(t, next, ROOT, cs[0], true);
      EnterExtends(t, next, ROOT, cs[0], true);
      EnterChanges(t, next, ROOT, cs[0], true);
      var (u, k, e) := Enter(t, next, ROOT, cs[0], true);
      x := e.dir;
      CreateConfined(u, k, x, x, cs[1..]);
      CreateGrows(u, k, x, cs[1..]);
      var (v, m, o) := CreateDirs(u, k, x, cs[1..], true);
      ConfinedTrans(t, next, u, k, v, m, x);
      RootPlusLater(t, u, v, x);
    }
  }

  /** A set that goes to a child of the root with another name than `c`. */
  predicate Apart(ident: Path, c: Name) {
    ident == [] || (Head(Components(ident)).Some? && Effective(Head(Components(ident)).value) != c)
  }

  lemma PutSetConfined(t: Store, next: nat, s: InputSet) returns (x: nat)
    requires TreeOk(t) && Fresh(t, next) && s.ident != [] && Head(Components(s.ident)).Some? && PutSet(t, next, s).2
    ensures var t' := PutSet(t, next, s).0;
            && x in t' && x != ROOT && t'[x].name == Effective(Head(Components(s.ident)).value)
            && RootPlus(t, t', x) && Confined(t, t', x)
  {
    x := MakeConfined(t, next, Components(s.ident));
    var (u, k, o) := MakeSet(t, next, s.ident);
    PutBuffersConfined(u, k, x, o.dir, s.buffers);
    var v := PutBuffers(u, k, o.dir, s.buffers);
    ConfinedTrans(t, next, u, k, v.0, v.1, x);
    RootPlusLater(t, u, v.0, x);
  }

  // ---------------------------------------------------------------- one set among many

  ghost predicate Untouched(t: Store, t': Store, top: nat) {
    && (forall n {:trigger Under(t, top, n)} | Under(t, top, n) :: n in t' && t'[n] == t[n])
    && (forall n {:trigger Under(t', top, n)} | Under(t', top, n) :: n in t)
  }

  /** What is confined below one child of the root does not touch another. */
  lemma SiblingUntouched(t: Store, next: nat, t': Store, next': nat, x: nat, top: nat)
    requires TreeOk(t) && Fresh(t, next) && Grows(t, next, t', next') && Confined(t, t', x)
    requires x in t'[ROOT].kids && top in t'[ROOT].kids && x != top && top in t && top != ROOT
    ensures Untouched(t, t', top)
  {
    forall n {:trigger Under(t, top, n)} | Under(t, top, n) ensures n in t' && t'[n] == t[n] {
      UnderSame(t, t', next, top, n);
      UnderSame(t, t', next, x, n);
      UnderOrder(t, top, n);
      if Under(t, x, n) {
        SiblingsDisjoint(t', ROOT, x, top, n);
      }
    }
    forall n {:trigger Under(t', top, n)} | Under(t', top, n) ensures n in t {
      if n !in t {
        SiblingsDisjoint(t', ROOT, x, top, n);
      }
    }
  }

  lemma TidyUntouched(t: Store, next: nat, t': Store, next': nat, top: nat)
    requires TreeOk(t) && Fresh(t, next) && Grows(t, next, t', next') && Untouched(t, t', top) && Tidy(t, top)
    ensures Tidy(t', top)
  {
    forall n {:trigger Under(t', top, n)} | Under(t', top, n) ensures Under(t, top, n) && t'[n] == t[n] {
      UnderSame(t, t', next, top, n);
    }
    forall d {:trigger Under(t', top, d)} | Under(t', top, d) ensures LastIn(t', t'[d].kids) {
      assert Under(t, top, d) && DirOk(t, d);
      LastInSame(t, t', d);
    }
  }

  lemma HoldsUntouched(t: Store, next: nat, t': Store, next': nat, top: nat, items: seq<Item>, ids: seq<nat>)
    requires Holds(t, next, top, items, ids) && Grows(t, next, t', next') && Untouched(t, t', top)
    ensures Holds(t', next', top, items, ids)
  {
    TidyUntouched(t, next, t', next', top);
    ExtendsAnchored(t, t', top);
    forall j | 0 <= j < |ids| ensures IsItem(t', top, ids[j], items[j]) {
      assert IsItem(t, top, ids[j], items[j]);
      ItemKept(t, t', next, top, ids[j], items[j]);
    }
    forall n {:trigger Under(t', top, n)} | Under(t', top, n) && t'[n].kind == Regular ensures n in ids {
      UnderSame(t, t', next, top, n);
    }
  }

  /** Directory `d` is what the root's child `c` looks up to, and it holds the items. */
  ghost predicate SetHolds(t: Store, next: nat, c: Name, d: nat, items: seq<Item>, ids: seq<nat>) {
    Holds(t, next, d, items, ids) && d != ROOT && KidsIn(t, t[ROOT].kids) && LookupIn(t, t[ROOT].kids, c) == Some(d)
  }

  /** A set of its own name, loaded where nothing has that name, holds exactly its items. */
  lemma OwnSet(t: Store, next: nat, s: InputSet) returns (d: nat, ids: seq<nat>)
    requires TreeOk(t) && Fresh(t, next) && Plain(s.ident) && GoodBuffers(s.buffers)
    requires KidsIn(t, t[ROOT].kids) && LookupIn(t, t[ROOT].kids, s.ident).None?
    ensures var r := PutSet(t, next, s); r.2 && SetHolds(r.0, r.1, s.ident, d, ItemsOf(s.buffers), ids)
  {
    d := next;
    OwnDirectory(t, next, s.ident);
    var (u, k, o) := MakeSet(t, next, s.ident);
    assert forall i | 0 <= i < |s.buffers| :: Compatible([], ItemOf(s.buffers[i]));
    ids := PutBuffersHold(u, k, d, [], [], s.buffers);
    var v := PutBuffers(u, k, d, s.buffers);
    assert [] + ItemsOf(s.buffers) == ItemsOf(s.buffers);
    assert LookupsKept(u, v.0, ROOT);
  }

  lemma OwnDirectory(t: Store, next: nat, c: Name)
    requires TreeOk(t) && Fresh(t, next) && Plain(c) && KidsIn(t, t[ROOT].kids) && LookupIn(t, t[ROOT].kids, c).None?
    ensures var (u, k, o) := MakeSet(t, next, c); o == Reached(next) && SetHolds(u, k, c, next, [], [])
  {
    ComponentsOfWord(c);
    EffectiveName(c);
    assert Components(c) == [c] && [c][1..] == [];
    assert DirOk(t, ROOT);
    var node := NewDirectory(c, ROOT);
    var u := AddChild(t, ROOT, next, node);
    assert CreateDirs(t, next, ROOT, [c], true) == (u, next + 1, Reached(next));
    AddChildOk(t, ROOT, next, node);
    LookupNew(t, u, t[ROOT].kids, InsertPos(t, t[ROOT].kids, c, 0), next);
    EmptySet(u, next);
  }

  /** The directory made last: nothing has been put into it yet. */
  lemma EmptySet(t: Store, d: nat)
    requires TreeOk(t) && Fresh(t, d + 1) && Anchored(t, d) && t[d].kind == Directory && t[d].kids == []
    ensures Holds(t, d + 1, d, [], [])
  {
    forall n {:trigger Under(t, d, n)} | Under(t, d, n) ensures n == d {
      UnderOrder(t, d, n);
    }
  }

  /** Loading a set apart from `c` does not change what the root has under `c`. */
  lemma ApartLookup(t: Store, next: nat, s: InputSet, c: Name)
    requires TreeOk(t) && Fresh(t, next) && Apart(s.ident, c) && PutSet(t, next, s).2 && KidsIn(t, t[ROOT].kids)
    ensures var u := PutSet(t, next, s).0;
            KidsIn(u, u[ROOT].kids) && LookupIn(u, u[ROOT].kids, c) == LookupIn(t, t[ROOT].kids, c)
  {
    if s.ident != [] {
      var x := PutSetConfined(t, next, s);
    }
  }

  lemma ApartHolds(t: Store, next: nat, s: InputSet, c: Name, d: nat, items: seq<Item>, ids: seq<nat>)
    requires SetHolds(t, next, c, d, items, ids) && Apart(s.ident, c) && PutSet(t, next, s).2
    ensures var r := PutSet(t, next, s); SetHolds(r.0, r.1, c, d, items, ids)
  {
    ApartLookup(t, next, s, c);
    if s.ident != [] {
      var x := PutSetConfined(t, next, s);
      var u := PutSet(t, next, s);
      SiblingUntouched(t, next, u.0, u.1, x, d);
      HoldsUntouched(t, next, u.0, u.1, d, items, ids);
    }
  }

  lemma PutSetsStep(t: Store, next: nat, ss: seq<InputSet>)
    requires TreeOk(t) && Fresh(t, next) && ss != [] && PutSets(t, next, ss).2
    ensures var u := PutSet(t, next, ss[0]); u.2 && PutSets(t, next, ss) == PutSets(u.0, u.1, ss[1..])
  {
  }

  lemma {:induction false} ApartSetsHold(t: Store, next: nat, ss: seq<InputSet>, c: Name, d: nat, items: seq<Item>,
                                         ids: seq<nat>)
    requires SetHolds(t, next, c, d, items, ids) && PutSets(t, next, ss).2
    requires forall j | 0 <= j < |ss| :: Apart(ss[j].ident, c)
    ensures var r := PutSets(t, next, ss); SetHolds(r.0, r.1, c, d, items, ids)
    decreases |ss|
  {
    if ss != [] {
      var u, rest := ApartStep(t, next, ss, c, d, items, ids);
      ApartSetsHold(u.0, u.1, rest, c, d, items, ids);
    }
  }

  lemma ApartStep(t: Store, next: nat, ss: seq<InputSet>, c: Name, d: nat, items: seq<Item>, ids: seq<nat>)
    returns (u: (Store, nat, bool), rest: seq<InputSet>)
    requires SetHolds(t, next, c, d, items, ids) && ss != [] && PutSets(t, next, ss).2
    requires forall j | 0 <= j < |ss| :: Apart(ss[j].ident, c)
    ensures SetHolds(u.0, u.1, c, d, items, ids) && |rest| < |ss| && forall j | 0 <= j < |rest| ::
              Apart(rest[j].ident, c)
    ensures PutSets(t, next, ss) == PutSets(u.0, u.1, rest)
  {
    PutSetsStep(t, next, ss);
    u, rest := PutSet(t, next, ss[0]), ss[1..];
    ApartHolds(t, next, ss[0], c, d, items, ids);
  }

  /** Set `k` has a name of its own: one plain component that no other set goes to. */
  ghost predicate OnItsOwn(ss: seq<InputSet>, k: nat) {
    && k < |ss| && Plain(ss[k].ident) && GoodBuffers(ss[k].buffers)
    && forall j | 0 <= j < |ss| && j != k :: Apart(ss[j].ident, ss[k].ident)
  }

  /** After the whole loop such a set holds exactly its own items, whatever the other sets are. */
  lemma {:induction false} OwnSetAmongMany(t: Store, next: nat, ss: seq<InputSet>, k: nat)
    returns (d: nat, ids: seq<nat>)
    requires TreeOk(t) && Fresh(t, next) && OnItsOwn(ss, k) && PutSets(t, next, ss).2
    requires KidsIn(t, t[ROOT].kids) && LookupIn(t, t[ROOT].kids, ss[k].ident).None?
    ensures var r := PutSets(t, next, ss); SetHolds(r.0, r.1, ss[k].ident, d, ItemsOf(ss[k].buffers), ids)
    decreases |ss|
  {
    PutSetsStep(t, next, ss);
    var u := PutSet(t, next, ss[0]);
    if k == 0 {
      d, ids := OwnSet(t, next, ss[0]);
      RestApart(ss);
      ApartSetsHold(u.0, u.1, ss[1..], ss[0].ident, d, ItemsOf(ss[0].buffers), ids);
    } else {
      ApartLookup(t, next, ss[0], ss[k].ident);
      RestOnItsOwn(ss, k);
      d, ids := OwnSetAmongMany(u.0, u.1, ss[1..], k - 1);
    }
  }

  lemma RestApart(ss: seq<InputSet>)
    requires OnItsOwn(ss, 0)
    ensures forall j | 0 <= j < |ss[1..]| :: Apart(ss[1..][j].ident, ss[0].ident)
  {
  }

  lemma RestOnItsOwn(ss: seq<InputSet>, k: nat)
    requires OnItsOwn(ss, k) && k > 0
    ensures OnItsOwn(ss[1..], k - 1) && ss[1..][k - 1] == ss[k]
  {
    var rest := ss[1..];
    forall j | 0 <= j < |rest| && j != k - 1 ensures Apart(rest[j].ident, ss[k].ident) {
      assert rest[j] == ss[j + 1];
    }
  }

  // ---------------------------------------------------------------- the directories of the output sets

  lemma {:induction false} CreateOnlyDirectories(t: Store, next: nat, d: nat, cs: seq<Path>)
    requires TreeOk(t) && Fresh(t, next) && Anchored(t, d)
    ensures var t' := CreateDirs(t, next, d, cs, true).0; forall n | n in t' && n !in t :: t'[n].kind == Directory
    decreases |cs|
  {
    if cs != [] {
      EnterOk(t, next, d, cs[0], true);
      EnterOnlyDirectories(t, next, d, cs[0]);
      var (u, k, o) := Enter(t, next, d, cs[0], true);
      if o.Reached? {
        CreateOnlyDirectories(u, k, o.dir, cs[1..]);
        CreateExtends(u, k, o.dir, cs[1..], true);
      }
    }
  }

  lemma MakeSetHolds(t: Store, next: nat, ident: Path, c: Name, d: nat, items: seq<Item>, ids: seq<nat>)
    requires SetHolds(t, next, c, d, items, ids)
    ensures var r := MakeSet(t, next, ident); SetHolds(r.0, r.1, c, d, items, ids)
  {
    var cs := Components(ident);
    var r := MakeSet(t, next, ident);
    CreateTidy(t, next, d, ROOT, cs);
    CreateOnlyDirectories(t, next, ROOT, cs);
    HoldsAfterDirectories(t, next, r.0, r.1, d, items, ids);
    assert LookupsKept(t, r.0, ROOT);
  }

  /** Making directories for output sets, of whatever names, leaves every set as it is. */
  lemma {:induction false} MakeSetsHold(t: Store, next: nat, idents: seq<Path>, c: Name, d: nat, items: seq<Item>,
                                        ids: seq<nat>)
    requires SetHolds(t, next, c, d, items, ids)
    ensures var r := MakeSets(t, next, idents); SetHolds(r.0, r.1, c, d, items, ids)
    decreases |idents|
  {
    if idents != [] {
      MakeSetHolds(t, next, idents[0], c, d, items, ids);
      var u := if idents[0] == [] then (t, next, Reached(ROOT)) else MakeSet(t, next, idents[0]);
      if u.2.Reached? {
        MakeSetsHold(u.0, u.1, idents[1..], c, d, items, ids);
      }
    }
  }

  /** After fs_initialize a set of its own name is found under it and holds its items. */
  lemma LoadedHolds(t: Store, next: nat, inputs: seq<InputSet>, outputs: seq<Path>, k: nat)
    returns (d: nat, ids: seq<nat>)
    requires TreeOk(t) && Fresh(t, next) && OnItsOwn(inputs, k) && Loaded(t, next, inputs, outputs).2
    requires KidsIn(t, t[ROOT].kids) && LookupIn(t, t[ROOT].kids, inputs[k].ident).None?
    ensures var r := Loaded(t, next, inputs, outputs);
            SetHolds(r.0, r.1, inputs[k].ident, d, ItemsOf(inputs[k].buffers), ids)
  {
    d, ids := OwnSetAmongMany(t, next, inputs, k);
    var u := PutSets(t, next, inputs);
    MakeSetsHold(u.0, u.1, outputs, inputs[k].ident, d, ItemsOf(inputs[k].buffers), ids);
  }

  // ---------------------------------------------------------------- which identifiers are found again

  /** No child of the root has a slash in its name. */
  ghost predicate RootClean(t: Store) {
    ROOT in t && KidsIn(t, t[ROOT].kids) && forall y | y in t[ROOT].kids :: y in t && SLASH !in t[y].name
  }

  lemma HeadIsClean(ident: Path)
    requires Head(Components(ident)).Some?
    ensures SLASH !in Effective(Head(Components(ident)).value)
  {
    PiecesAreClean(ident, []);
  }

  lemma PutSetKeepsClean(t: Store, next: nat, s: InputSet)
    requires TreeOk(t) && Fresh(t, next) && RootClean(t) && PutSet(t, next, s).2
    requires s.ident == [] || Head(Components(s.ident)).Some?
    ensures RootClean(PutSet(t, next, s).0)
  {
    if s.ident != [] {
      var x := PutSetConfined(t, next, s);
      HeadIsClean(s.ident);
    }
  }

  lemma {:induction false} OnlyDots(t: Store, next: nat, cs: seq<Path>)
    requires TreeOk(t) && Fresh(t, next) && Head(cs).None?
    ensures CreateDirs(t, next, ROOT, cs, true) == (t, next, Reached(ROOT))
    decreases |cs|
  {
    if cs != [] {
      OnlyDots(t, next, cs[1..]);
    }
  }

  lemma MakeSetKeepsClean(t: Store, next: nat, ident: Path)
    requires TreeOk(t) && Fresh(t, next) && RootClean(t) && MakeSet(t, next, ident).2.Reached?
    ensures RootClean(MakeSet(t, next, ident).0)
  {
    var cs := Components(ident);
    if Head(cs).None? {
      OnlyDots(t, next, cs);
    } else {
      var x := MakeConfined(t, next, cs);
      HeadIsClean(ident);
    }
  }

  lemma {:induction false} PutSetsKeepClean(t: Store, next: nat, ss: seq<InputSet>)
    requires TreeOk(t) && Fresh(t, next) && RootClean(t) && PutSets(t, next, ss).2
    requires forall j | 0 <= j < |ss| :: ss[j].ident == [] || Head(Components(ss[j].ident)).Some?
    ensures RootClean(PutSets(t, next, ss).0)
    decreases |ss|
  {
    if ss != [] {
      PutSetsStep(t, next, ss);
      var u := PutSet(t, next, ss[0]);
      PutSetKeepsClean(t, next, ss[0]);
      PutSetsKeepClean(u.0, u.1, ss[1..]);
    }
  }

  lemma {:induction false} MakeSetsKeepClean(t: Store, next: nat, idents: seq<Path>)
    requires TreeOk(t) && Fresh(t, next) && RootClean(t) && MakeSets(t, next, idents).2
    ensures RootClean(MakeSets(t, next, idents).0)
    decreases |idents|
  {
    if idents != [] {
      var u := if idents[0] == [] then (t, next, Reached(ROOT)) else MakeSet(t, next, idents[0]);
      if idents[0] != [] {
        MakeSetKeepsClean(t, next, idents[0]);
      }
      MakeSetsKeepClean(u.0, u.1, idents[1..]);
    }
  }

  lemma LoadedKeepsClean(t: Store, next: nat, inputs: seq<InputSet>, outputs: seq<Path>)
    requires TreeOk(t) && Fresh(t, next) && RootClean(t) && Loaded(t, next, inputs, outputs).2
    requires forall j | 0 <= j < |inputs| :: inputs[j].ident == [] || Head(Components(inputs[j].ident)).Some?
    ensures RootClean(Loaded(t, next, inputs, outputs).0)
  {
    PutSetsKeepClean(t, next, inputs);
    var u := PutSets(t, next, inputs);
    MakeSetsKeepClean(u.0, u.1, outputs);
  }

  /** In any later tree the lookup of fs_terminate finds the directory made for a set exactly when its
      identifier holds no slash; one with a slash is found nowhere. */
  lemma SetFoundIff(t: Store, next: nat, ident: Path, t': Store)
    requires TreeOk(t) && Fresh(t, next) && ident != [] && NUL !in ident && MakeSet(t, next, ident).2.Reached?
    requires TreeOk(t') && Extends(MakeSet(t, next, ident).0, t') && RootClean(t')
    ensures FindIn(t', ROOT, ident) == Some(MakeSet(t, next, ident).2.dir) <==> SLASH !in ident
    ensures SLASH in ident ==> FindIn(t', ROOT, ident).None?
  {
    EffectiveName(ident);
    if SLASH in ident {
      LookupComplete(t', t'[ROOT].kids, ident);
    } else {
      ComponentsOfWord(ident);
      assert Components(ident) == [ident] && [ident][1..] == [];
      assert DirOk(t, ROOT);
      var (u, k, o) := Enter(t, next, ROOT, ident, true);
      EnterOk(t, next, ROOT, ident, true);
      EnterThenFind(t, next, ROOT, ident, true);
      assert CreateDirs(u, k, o.dir, [], true) == (u, k, o);
      FindInKept(u, t', ROOT, ident);
    }
  }
}
