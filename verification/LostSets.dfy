/** Two sets that do not come back as one would expect. */
module LostSets {
  import opened Prelude
  import opened Names
  import opened Paths
  import opened Tree
  import opened Walk
  import opened Sets
  import opened Loading
  import opened RoundTrip

  // ---------------------------------------------------------------- a path that continues another

  lemma TwoNames(a: CChar, b: CChar)
    requires a != SLASH && b != SLASH
    ensures Components([a, SLASH, b]) == [[a], [b]] && Components([a]) == [[a]]
  {
    assert [a, SLASH, b] == [a] + [SLASH] + [b];
    SplitAtSlash([a], [b], []);
    ComponentsOfWord([a]);
    ComponentsOfWord([b]);
  }

  /** The items `a/b` and `a`, in this order: both load, and they come out in this order, which is not
      that of their paths. */
  lemma PrefixBehindItsContinuation(t: Store, next: nat, inputs: seq<InputSet>, outputs: seq<Path>, k: nat)
    requires TreeOk(t) && Fresh(t, next) && Loaded(t, next, inputs, outputs).2 && k < |inputs| && Plain(inputs[k].ident)
    requires forall j | 0 <= j < |inputs| && j != k :: Apart(inputs[j].ident, inputs[k].ident)
    requires inputs[k].ident != STDIO && KidsIn(t, t[ROOT].kids) && LookupIn(t, t[ROOT].kids, inputs[k].ident).None?
    requires inputs[k].buffers == [Buffer([97, SLASH, 98], [1]), Buffer([97], [2])]
    ensures var r := Loaded(t, next, inputs, outputs);
            var out := Exported(r.0, r.1, inputs[k].ident);
            out == inputs[k].buffers && !InPathOrder(out)
  {
    PrefixItems(inputs[k].buffers);
    SetRoundTrip(t, next, inputs, outputs, k);
    var r := Loaded(t, next, inputs, outputs);
    ListOrderDecides(Exported(r.0, r.1, inputs[k].ident), inputs[k].buffers);
  }

  lemma PrefixItems(bs: seq<Buffer>)
    requires bs == [Buffer([97, SLASH, 98], [1]), Buffer([97], [2])]
    ensures GoodBuffers(bs) && !NoneContinued(bs) && !ListLeq(Components(bs[1].ident), Components(bs[0].ident))
  {
    TwoNames(97, 98);
    var ab, a: seq<Name> := [[97], [98]], [[97]];
    assert Prefix(ab[..1]) == [97, SLASH] && Prefix(a[..0]) == [];
    assert GoodBuffer(bs[0]) && GoodBuffer(bs[1]);
    assert ab[..1] == a && ab[1..] == [[98]] && a[1..] == [];
    assert Components(bs[1].ident) < Components(bs[0].ident);
  }

  lemma ListOrderDecides(out: seq<Buffer>, bs: seq<Buffer>)
    requires |bs| == 2 && multiset(out) == multiset(bs) && InListOrder(out)
    requires !ListLeq(Components(bs[1].ident), Components(bs[0].ident))
    ensures out == bs
  {
    assert |multiset(out)| == |out| && |multiset(bs)| == |bs|;
    assert bs == [bs[0], bs[1]] && out == [out[0], out[1]];
    assert out[0] in multiset(bs) && out[1] in multiset(bs);
    assert bs[0] in multiset(out) && bs[1] in multiset(out);
  }

  // ---------------------------------------------------------------- a slash in the name of a set

  lemma BareRootIsEmpty()
    ensures Holds(BareRoot(), 1, ROOT, [], []) && RootClean(BareRoot())
  {
    var t := BareRoot();
    assert DirOk(t, ROOT) && NodeOk(t, ROOT);
    EmptySet(t, ROOT);
  }

  lemma TwoWords(v: Name, w: Name)
    requires Plain(v) && Plain(w)
    ensures Components(v + [SLASH] + w) == [v, w]
  {
    SplitAtSlash(v, w, []);
    ComponentsOfWord(v);
    ComponentsOfWord(w);
  }

  lemma OneFileInDirectory(t: Store, next: nat, d: nat, bs: seq<Buffer>, f: Name, item: Item)
    requires Holds(t, next, ROOT, [], []) && Anchored(t, d) && t[d].kind == Directory && Under(t, ROOT, d) && Plain(f)
    requires |bs| == 1 && bs[0] == Buffer(f, item.bytes) && item.path == PathFrom(t, ROOT, d) + [f]
    ensures var r := PutBuffers(t, next, d, bs); r.2 && Holds(r.0, r.1, ROOT, [item], [next])
  {
    OneBuffer(t, next, d, bs);
    OneName(bs[0], f);
    var cs := Components(f);
    PutGoodBuffer(t, next, d, bs[0], cs);
    NoDirectories(t, next, d, cs[..|cs| - 1]);
    FileOfItem(t, next, ROOT, [], [], Reached(d), f, item);
    assert [] + [item] == [item] && [] + [next] == [next];
  }

  lemma OneName(b: Buffer, f: Name)
    requires Plain(f) && b.ident == f
    ensures GoodBuffer(b) && |Components(f)| == 1 && Components(f)[0] == f
  {
    ComponentsOfWord(f);
  }

  lemma NoDirectories(t: Store, next: nat, d: nat, cs: seq<Path>)
    requires TreeOk(t) && Fresh(t, next) && Anchored(t, d) && |cs| == 0
    ensures CreateDirs(t, next, d, cs, true) == (t, next, Reached(d))
  {
  }

  lemma OneBuffer(t: Store, next: nat, d: nat, bs: seq<Buffer>)
    requires TreeOk(t) && Fresh(t, next) && Anchored(t, d) && |bs| == 1
    ensures PutBuffers(t, next, d, bs) == PutBuffer(t, next, d, bs[0])
  {
    PutBufferGrows(t, next, d, bs[0]);
    assert |bs[1..]| == 0;
  }

  lemma TwoDirectories(t: Store, next: nat, items: seq<Item>, ids: seq<nat>, v: Name, w: Name, item: Item)
    requires Holds(t, next, ROOT, items, ids) && GoodItem(item) && Compatible(items, item)
    requires |item.path| == 3 && item.path[..2] == [v, w]
    ensures var (u, k, o) := MakeSet(t, next, v + [SLASH] + w);
            && o.Reached? && Holds(u, k, ROOT, items, ids) && Anchored(u, o.dir) && u[o.dir].kind == Directory
            && Under(u, ROOT, o.dir) && PathFrom(u, ROOT, o.dir) == [v, w]
  {
    assert v == item.path[0] && w == item.path[1];
    TwoWords(v, w);
    ItemDirectories(t, next, ROOT, items, ids, item);
  }

  /** A set `v/w` with one item, named `f`. */
  predicate OneItemSet(s: InputSet, v: Name, w: Name, f: Name, item: Item) {
    && Plain(v) && Plain(w) && Plain(f) && s.ident == v + [SLASH] + w && item.path == [v, w, f]
    && |s.buffers| == 1 && s.buffers[0] == Buffer(f, item.bytes)
  }

  lemma OneGoodItem(s: InputSet, v: Name, w: Name, f: Name, item: Item)
    requires OneItemSet(s, v, w, f, item)
    ensures GoodItem(item) && Compatible([], item) && Compatible([item], item) && |item.path| == 3
            && item.path[..2] == [v, w]
  {
  }

  /** In an empty tree its directories are made and the file is put there. */
  lemma SlashedSetIsLoaded(t: Store, v: Name, w: Name, f: Name, item: Item, s: InputSet) returns (n: nat)
    requires Holds(t, 1, ROOT, [], []) && OneItemSet(s, v, w, f, item)
    ensures var r := PutSet(t, 1, s); r.2 && Holds(r.0, r.1, ROOT, [item], [n])
  {
    OneGoodItem(s, v, w, f, item);
    TwoDirectories(t, 1, [], [], v, w, item);
    var (u, k, o) := MakeSet(t, 1, s.ident);
    assert item.path == PathFrom(u, ROOT, o.dir) + [f];
    OneFileInDirectory(u, k, o.dir, s.buffers, f, item);
    n := k;
  }

  lemma MakesOneSet(t: Store, next: nat, outputs: seq<Path>)
    requires TreeOk(t) && Fresh(t, next) && |outputs| == 1 && outputs[0] != []
             && MakeSet(t, next, outputs[0]).2.Reached?
    ensures var u := MakeSet(t, next, outputs[0]); MakeSets(t, next, outputs) == (u.0, u.1, true)
  {
    assert |outputs[1..]| == 0;
  }

  lemma PutsOneSet(t: Store, next: nat, inputs: seq<InputSet>)
    requires TreeOk(t) && Fresh(t, next) && |inputs| == 1 && PutSet(t, next, inputs[0]).2
    ensures PutSets(t, next, inputs) == PutSet(t, next, inputs[0])
  {
    assert |inputs[1..]| == 0;
  }

  lemma SlashedSetIsKept(t: Store, v: Name, w: Name, f: Name, item: Item, inputs: seq<InputSet>, outputs: seq<Path>)
    returns (n: nat)
    requires Holds(t, 1, ROOT, [], []) && |inputs| == |outputs| == 1 && outputs[0] == inputs[0].ident
    requires OneItemSet(inputs[0], v, w, f, item)
    ensures var r := Loaded(t, 1, inputs, outputs); r.2 && Holds(r.0, r.1, ROOT, [item], [n])
  {
    OneGoodItem(inputs[0], v, w, f, item);
    n := SlashedSetIsLoaded(t, v, w, f, item, inputs[0]);
    var u := PutSet(t, 1, inputs[0]);
    PutsOneSet(t, 1, inputs);
    TwoDirectories(u.0, u.1, [item], [n], v, w, item);
    MakesOneSet(u.0, u.1, outputs);
  }

  lemma SlashedSetHasFile(t: Store, v: Name, w: Name, f: Name, item: Item, inputs: seq<InputSet>, outputs: seq<Path>)
    requires Holds(t, 1, ROOT, [], []) && |inputs| == |outputs| == 1 && outputs[0] == inputs[0].ident
    requires OneItemSet(inputs[0], v, w, f, item)
    ensures var r := Loaded(t, 1, inputs, outputs);
            r.2 && exists n | n in r.0 :: r.0[n].kind == Regular && r.0[n].content == item.bytes
  {
    var n := SlashedSetIsKept(t, v, w, f, item, inputs, outputs);
    assert IsItem(Loaded(t, 1, inputs, outputs).0, ROOT, [n][0], [item][0]);
  }

  lemma SlashedSetExportsNothing(t: Store, inputs: seq<InputSet>, outputs: seq<Path>, ident: Path)
    requires TreeOk(t) && Fresh(t, 1) && RootClean(t) && Loaded(t, 1, inputs, outputs).2 && |inputs| == 1
    requires SLASH in ident && NUL !in ident && Head(Components(ident)).Some? && inputs[0].ident == ident
    ensures var r := Loaded(t, 1, inputs, outputs); Exported(r.0, r.1, ident) == []
  {
    SlashedSetsAreLost(t, 1, inputs, outputs, ident);
  }

  /** The item of a set `v/w` is loaded into the tree, and nothing of the set is exported. */
  lemma SlashedSetIsLost(t: Store, v: Name, w: Name, f: Name, item: Item, inputs: seq<InputSet>, outputs: seq<Path>)
    requires Holds(t, 1, ROOT, [], []) && RootClean(t) && |inputs| == |outputs| == 1 && outputs[0] == inputs[0].ident
    requires OneItemSet(inputs[0], v, w, f, item)
    ensures var r := Loaded(t, 1, inputs, outputs);
            && r.2 && Exported(r.0, r.1, outputs[0]) == []
            && exists n | n in r.0 :: r.0[n].kind == Regular && r.0[n].content == item.bytes
  {
    SlashedSetHasFile(t, v, w, f, item, inputs, outputs);
    SlashedIdent(inputs[0], v, w, f, item);
    SlashedSetExportsNothing(t, inputs, outputs, outputs[0]);
  }

  lemma SlashedIdent(s: InputSet, v: Name, w: Name, f: Name, item: Item)
    requires OneItemSet(s, v, w, f, item)
    ensures SLASH in s.ident && NUL !in s.ident && Head(Components(s.ident)).Some?
  {
    TwoWords(v, w);
    assert s.ident[|v|] == SLASH;
    var cs := Components(s.ident);
    assert cs[0] == v;
  }

  /** As it happens to a set named `in/x`. */
  lemma SetInSlashXIsLost(inputs: seq<InputSet>, outputs: seq<Path>)
    requires inputs == [InputSet([105, 110, SLASH, 120], [Buffer([102], [7])])] && outputs == [inputs[0].ident]
    ensures TreeOk(BareRoot()) && Fresh(BareRoot(), 1)
    ensures var r := Loaded(BareRoot(), 1, inputs, outputs);
            && r.2 && Exported(r.0, r.1, outputs[0]) == []
            && exists n | n in r.0 :: r.0[n].kind == Regular && r.0[n].content == [7]
  {
    var v, w, f: Name := [105, 110], [120], [102];
    BareRootIsEmpty();
    SlashedSetIsLost(BareRoot(), v, w, f, Item([v, w, f], [7]), inputs, outputs);
  }
}
