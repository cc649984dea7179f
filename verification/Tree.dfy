/** The directory tree of file_system/file_system.c: a store of file records.

    A record is named by a number that is never used again; the sibling list of a directory
    (`child` and the `next` pointers behind it) is the sequence `kids`. */
module Tree {
  import opened Prelude
  import opened Names

  const ROOT: nat := 0
  const NAME_LENGTH: nat := 64

  datatype Kind = Regular | Directory

  /** `pinned` marks the static folders, which start with a link count of one. */
  datatype Node = Node(name: Name, kind: Kind, parent: Option<nat>, kids: seq<nat>,
                       links: nat, opens: nat, pinned: bool, content: seq<int>)

  type Store = map<nat, Node>

  // ---------------------------------------------------------------- well-formed trees

  ghost predicate KidsIn(t: Store, kids: seq<nat>) {
    forall i | 0 <= i < |kids| :: kids[i] in t
  }

  ghost predicate Sorted(t: Store, kids: seq<nat>)
    requires KidsIn(t, kids)
  {
    forall i, j | 0 <= i < j < |kids| :: Compare(t[kids[i]].name, t[kids[j]].name) <= 0
  }

  predicate Distinct(kids: seq<nat>) {
    forall i, j | 0 <= i < j < |kids| :: kids[i] != kids[j]
  }

  /** The list of directory `d`: its own children, once each, in name order. */
  ghost predicate DirOk(t: Store, d: nat)
    requires d in t
  {
    var kids := t[d].kids;
    && KidsIn(t, kids) && Sorted(t, kids) && Distinct(kids)
    && (forall i | 0 <= i < |kids| :: t[kids[i]].parent == Some(d) && d < kids[i])
    && (t[d].kind == Regular ==> kids == [])
  }

  /** `n` is in the list of its parent. */
  predicate Linked(t: Store, n: nat)
    requires n in t
  {
    t[n].parent.Some? && t[n].parent.value in t && n in t[t[n].parent.value].kids
  }

  predicate Anchored(t: Store, n: nat) {
    n in t && (n == ROOT || Linked(t, n))
  }

  function Bit(b: bool): nat {
    if b then 1 else 0
  }

  predicate NodeOk(t: Store, n: nat)
    requires n in t
  {
    && t[n].links == Bit(t[n].pinned) + Bit(Linked(t, n))
    && (!Anchored(t, n) ==> t[n].kids == [])
    && (n == ROOT <==> t[n].parent == None)
    && NUL !in t[n].name
  }

  ghost predicate TreeOk(t: Store) {
    && ROOT in t && t[ROOT].kind == Directory && t[ROOT].pinned
    && forall n {:trigger DirOk(t, n)} {:trigger NodeOk(t, n)} | n in t :: DirOk(t, n) && NodeOk(t, n)
  }

  /** The tree before anything is linked. */
  function BareRoot(): Store {
    map[ROOT := Node([SLASH], Directory, None, [], 1, 0, true, [])]
  }

  // ---------------------------------------------------------------- looking up a name

  /** The first child with a name. */
  function LookupIn(t: Store, kids: seq<nat>, name: Name): (r: Option<nat>)
    requires forall i | 0 <= i < |kids| :: kids[i] in t
    ensures r.Some? ==> r.value in kids && t[r.value].name == name
  {
    if kids == [] then None
    else if t[kids[0]].name == name then Some(kids[0])
    else LookupIn(t, kids[1..], name)
  }

  lemma {:induction false} LookupComplete(t: Store, kids: seq<nat>, name: Name)
    requires KidsIn(t, kids)
    ensures LookupIn(t, kids, name).None? <==> forall i | 0 <= i < |kids| :: t[kids[i]].name != name
  {
    if kids != [] {
      LookupComplete(t, kids[1..], name);
      assert forall i | 0 < i < |kids| :: kids[i] == kids[1..][i - 1];
    }
  }

  lemma {:induction false} LookupAt(t: Store, kids: seq<nat>, name: Name, i: nat)
    requires KidsIn(t, kids) && i < |kids| && t[kids[i]].name == name
    requires forall j | 0 <= j < i :: t[kids[j]].name != name
    ensures LookupIn(t, kids, name) == Some(kids[i])
  {
    if i > 0 {
      LookupAt(t, kids[1..], name, i - 1);
    }
  }

  lemma {:induction false} LookupFirst(t: Store, kids: seq<nat>, name: Name) returns (i: nat)
    requires KidsIn(t, kids) && LookupIn(t, kids, name).Some?
    ensures i < |kids| && LookupIn(t, kids, name) == Some(kids[i]) && t[kids[i]].name == name
    ensures forall j | 0 <= j < i :: t[kids[j]].name != name
  {
    i := 0;
    if t[kids[0]].name != name {
      var k := LookupFirst(t, kids[1..], name);
      i := k + 1;
      assert forall j | 0 < j < |kids| :: kids[j] == kids[1..][j - 1];
    }
  }

  /** The loop of find_file_in_dir, which stops as soon as the sorted names have passed the one
      wanted: it finds what a search through the whole list would. */
  method FindChild(t: Store, kids: seq<nat>, file: seq<CChar>) returns (r: Option<nat>)
    requires KidsIn(t, kids) && Sorted(t, kids)
    requires forall i | 0 <= i < |kids| :: NUL !in t[kids[i]].name
    ensures r == LookupIn(t, kids, Effective(file))
  {
    ghost var name := Effective(file);
    var i := 0;
    while i < |kids|
      invariant i <= |kids| && forall j | 0 <= j < i :: t[kids[j]].name != name
    {
      var current := t[kids[i]].name;
      var order := NameCmp(current, |current|, file, |file|);
      assert current[..|current|] == current && file[..|file|] == file;
      EffectiveName(current);
      CompareZero(current, name);
      if order == 0 {
        LookupAt(t, kids, name, i);
        return Some(kids[i]);
      } else if order > 0 {
        NoneLater(t, kids, name, i);
        LookupComplete(t, kids, name);
        return None;
      }
      i := i + 1;
    }
    LookupComplete(t, kids, name);
    r := None;
  }

  lemma NoneLater(t: Store, kids: seq<nat>, name: Name, i: nat)
    requires KidsIn(t, kids) && Sorted(t, kids) && i < |kids| && Compare(t[kids[i]].name, name) > 0
    ensures forall j | i <= j < |kids| :: t[kids[j]].name != name
  {
    forall j | i <= j < |kids| ensures t[kids[j]].name != name {
      CompareZero(t[kids[j]].name, name);
      CompareFlip(t[kids[i]].name, name);
      if i < j {
        CompareTransitive(name, t[kids[i]].name, t[kids[j]].name);
      }
      CompareFlip(t[kids[j]].name, name);
    }
  }

  /** The children of a directory stand in the order of a dictionary. */
  lemma ChildrenAscend(t: Store, d: nat, i: nat, j: nat)
    requires TreeOk(t) && d in t && i < j < |t[d].kids|
    ensures KidsIn(t, t[d].kids) && !Precedes(t[t[d].kids[j]].name, t[t[d].kids[i]].name)
  {
    assert DirOk(t, d);
    ComparisonMeans(t[t[d].kids[i]].name, t[t[d].kids[j]].name);
  }

  // ---------------------------------------------------------------- adding and removing children

  /** Before the first child with a greater name. */
  function InsertPos(t: Store, kids: seq<nat>, name: Name, i: nat): (p: nat)
    requires i <= |kids| && forall k | 0 <= k < |kids| :: kids[k] in t
    ensures i <= p <= |kids|
    ensures forall j | i <= j < p :: Compare(name, t[kids[j]].name) >= 0
    ensures p < |kids| ==> Compare(name, t[kids[p]].name) < 0
    decreases |kids| - i
  {
    if i == |kids| || Compare(name, t[kids[i]].name) < 0 then i else InsertPos(t, kids, name, i + 1)
  }

  function Inserted(kids: seq<nat>, p: nat, n: nat): seq<nat>
    requires p <= |kids|
  {
    kids[..p] + [n] + kids[p..]
  }

  /** The store after a new record has been linked into directory `d`. */
  function AddChild(t: Store, d: nat, n: nat, node: Node): Store
    requires d in t && forall k | 0 <= k < |t[d].kids| :: t[d].kids[k] in t
  {
    t[d := t[d].(kids := Inserted(t[d].kids, InsertPos(t, t[d].kids, node.name, 0), n))][n := node]
  }

  /** A record as it stands right after it has been linked. */
  predicate NewNode(node: Node, d: nat) {
    node.parent == Some(d) && node.kids == [] && node.links == Bit(node.pinned) + 1 && node.opens == 0
    && NUL !in node.name
  }

  lemma InsertedSorted(t: Store, kids: seq<nat>, name: Name, p: nat)
    requires KidsIn(t, kids) && Sorted(t, kids) && p == InsertPos(t, kids, name, 0)
    ensures forall j | 0 <= j < p :: Compare(t[kids[j]].name, name) <= 0
    ensures forall j | p <= j < |kids| :: Compare(name, t[kids[j]].name) <= 0
  {
    forall j | 0 <= j < p ensures Compare(t[kids[j]].name, name) <= 0 {
      CompareFlip(t[kids[j]].name, name);
    }
    forall j | p <= j < |kids| ensures Compare(name, t[kids[j]].name) <= 0 {
      if j > p {
        CompareTransitive(name, t[kids[p]].name, t[kids[j]].name);
      }
    }
  }

  ghost predicate InOrder(names: seq<Name>) {
    forall i, j | 0 <= i < j < |names| :: Compare(names[i], names[j]) <= 0
  }

  lemma InsertInOrder(names: seq<Name>, p: nat, x: Name)
    requires InOrder(names) && p <= |names|
    requires forall j | 0 <= j < p :: Compare(names[j], x) <= 0
    requires forall j | p <= j < |names| :: Compare(x, names[j]) <= 0
    ensures InOrder(names[..p] + [x] + names[p..])
  {
    var after := names[..p] + [x] + names[p..];
    assert forall i | 0 <= i < p :: after[i] == names[i];
    assert after[p] == x;
    assert forall i | p < i < |after| :: after[i] == names[i - 1];
  }

  ghost function NamesOf(t: Store, kids: seq<nat>): seq<Name>
    requires KidsIn(t, kids)
  {
    seq(|kids|, i requires 0 <= i < |kids| => t[kids[i]].name)
  }

  lemma InsertKeepsSorted(t: Store, t': Store, kids: seq<nat>, n: nat, p: nat)
    requires KidsIn(t, kids) && Sorted(t, kids) && n in t' && p == InsertPos(t, kids, t'[n].name, 0)
    requires forall k | 0 <= k < |kids| :: kids[k] in t' && t'[kids[k]].name == t[kids[k]].name
    ensures KidsIn(t', Inserted(kids, p, n)) && Sorted(t', Inserted(kids, p, n))
  {
    var names, x, kids' := NamesOf(t, kids), t'[n].name, Inserted(kids, p, n);
    InsertedSorted(t, kids, x, p);
    assert InOrder(names);
    InsertInOrder(names, p, x);
    var after := names[..p] + [x] + names[p..];
    NamesInserted(t, t', kids, n, p);
    assert forall i | 0 <= i < |kids'| :: kids'[i] in t' && t'[kids'[i]].name == after[i];
  }

  lemma NamesInserted(t: Store, t': Store, kids: seq<nat>, n: nat, p: nat)
    requires KidsIn(t, kids) && n in t' && p <= |kids|
    requires forall k | 0 <= k < |kids| :: kids[k] in t' && t'[kids[k]].name == t[kids[k]].name
    ensures KidsIn(t', Inserted(kids, p, n))
    ensures var names := NamesOf(t, kids);
            NamesOf(t', Inserted(kids, p, n)) == names[..p] + [t'[n].name] + names[p..]
  {
    var kids' := Inserted(kids, p, n);
    forall i | 0 <= i < |kids'| ensures kids'[i] == if i < p then kids[i] else if i == p then n else kids[i - 1] {
    }
  }

  lemma InsertKeepsDistinct(kids: seq<nat>, p: nat, n: nat)
    requires p <= |kids| && Distinct(kids) && n !in kids
    ensures Distinct(Inserted(kids, p, n))
    ensures forall y :: y in Inserted(kids, p, n) <==> y in kids || y == n
  {
    var kids' := Inserted(kids, p, n);
    forall i, j | 0 <= i < j < |kids'| ensures kids'[i] != kids'[j] {
      if i != p && j != p {
        var i', j' := if i < p then i else i - 1, if j < p then j else j - 1;
        assert kids'[i] == kids[i'] && kids'[j] == kids[j'];
      }
    }
  }

  ghost predicate CanAdd(t: Store, d: nat, n: nat, node: Node) {
    TreeOk(t) && Anchored(t, d) && DirOk(t, d) && t[d].kind == Directory && n !in t && d < n && NewNode(node, d)
  }

  lemma AddChildDir(t: Store, d: nat, n: nat, node: Node)
    requires CanAdd(t, d, n, node)
    ensures DirOk(AddChild(t, d, n, node), d)
  {
    var kids, t' := t[d].kids, AddChild(t, d, n, node);
    var p := InsertPos(t, kids, node.name, 0);
    InsertKeepsSorted(t, t', kids, n, p);
    InsertKeepsDistinct(kids, p, n);
    forall i | 0 <= i < |t'[d].kids| ensures t'[t'[d].kids[i]].parent == Some(d) && d < t'[d].kids[i] {
      assert t'[d].kids[i] in t'[d].kids;
    }
  }

  lemma AddChildOther(t: Store, d: nat, n: nat, node: Node, x: nat)
    requires CanAdd(t, d, n, node) && x in t && x != d
    ensures DirOk(AddChild(t, d, n, node), x)
  {
    assert DirOk(t, x);
    var t', kids := AddChild(t, d, n, node), t[x].kids;
    assert t'[x] == t[x];
    forall i | 0 <= i < |kids|
      ensures kids[i] in t' && t'[kids[i]].name == t[kids[i]].name && t'[kids[i]].parent == Some(x)
    {
      assert kids[i] in t;
    }
  }

  /** Linking a new record leaves every other record where it was. */
  lemma AddChildNode(t: Store, d: nat, n: nat, node: Node, x: nat)
    requires CanAdd(t, d, n, node) && x in t
    ensures NodeOk(AddChild(t, d, n, node), x) && (Linked(AddChild(t, d, n, node), x) <==> Linked(t, x))
  {
    assert NodeOk(t, x);
    var p := InsertPos(t, t[d].kids, node.name, 0);
    InsertKeepsDistinct(t[d].kids, p, n);
  }

  lemma AddChildOk(t: Store, d: nat, n: nat, node: Node)
    requires CanAdd(t, d, n, node)
    ensures TreeOk(AddChild(t, d, n, node)) && Anchored(AddChild(t, d, n, node), n)
  {
    var t' := AddChild(t, d, n, node);
    InsertKeepsDistinct(t[d].kids, InsertPos(t, t[d].kids, node.name, 0), n);
    forall x | x in t' ensures DirOk(t', x) && NodeOk(t', x) {
      if x == d {
        AddChildDir(t, d, n, node);
        AddChildNode(t, d, n, node, x);
      } else if x != n {
        AddChildOther(t, d, n, node, x);
        AddChildNode(t, d, n, node, x);
      }
    }
  }

  /** Where `n` stands in a list. */
  function IndexOf(kids: seq<nat>, n: nat): (i: nat)
    requires n in kids
    ensures i < |kids| && kids[i] == n
  {
    if kids[0] == n then 0 else 1 + IndexOf(kids[1..], n)
  }

  function Without(kids: seq<nat>, n: nat): seq<nat>
    requires n in kids
  {
    kids[..IndexOf(kids, n)] + kids[IndexOf(kids, n) + 1..]
  }

  /** The store after `n` has been taken out of its parent's list. */
  function Detach(t: Store, n: nat): Store
    requires n in t && Linked(t, n) && t[n].links > 0
  {
    var p := t[n].parent.value;
    var t1 := t[p := t[p].(kids := Without(t[p].kids, n))];
    t1[n := t1[n].(links := t1[n].links - 1)]
  }

  lemma WithoutLaws(kids: seq<nat>, n: nat)
    requires n in kids && Distinct(kids)
    ensures Distinct(Without(kids, n))
    ensures forall y :: y in Without(kids, n) <==> y in kids && y != n
  {
    var i, kids' := IndexOf(kids, n), Without(kids, n);
    forall a, b | 0 <= a < b < |kids'| ensures kids'[a] != kids'[b] {
      assert kids'[a] == kids[if a < i then a else a + 1] && kids'[b] == kids[if b < i then b else b + 1];
    }
    forall y | y in kids && y != n ensures y in kids' {
      var k :| 0 <= k < |kids| && kids[k] == y;
      assert kids'[if k < i then k else k - 1] == y;
    }
    forall y | y in kids' ensures y in kids && y != n {
      var a :| 0 <= a < |kids'| && kids'[a] == y;
      assert y == kids[if a < i then a else a + 1];
    }
  }

  lemma WithoutSorted(t: Store, kids: seq<nat>, n: nat)
    requires n in kids && KidsIn(t, kids) && Sorted(t, kids)
    ensures KidsIn(t, Without(kids, n)) && Sorted(t, Without(kids, n))
  {
    var i, kids' := IndexOf(kids, n), Without(kids, n);
    forall a, b | 0 <= a < b < |kids'| ensures Compare(t[kids'[a]].name, t[kids'[b]].name) <= 0 {
      assert kids'[a] == kids[if a < i then a else a + 1] && kids'[b] == kids[if b < i then b else b + 1];
    }
  }

  ghost predicate CanDetach(t: Store, n: nat) {
    TreeOk(t) && n in t && Linked(t, n) && t[n].links > 0 && t[n].kids == []
  }

  /** A directory whose list and children's names have not changed. */
  lemma DirSame(t: Store, t': Store, x: nat)
    requires x in t && x in t' && DirOk(t, x) && t'[x].kids == t[x].kids && t'[x].kind == t[x].kind
    requires forall i | 0 <= i < |t[x].kids| :: var k := t[x].kids[i];
               k in t' && t'[k].name == t[k].name && t'[k].parent == t[k].parent
    ensures DirOk(t', x)
  {
  }

  lemma DetachParent(t: Store, n: nat, p: nat)
    requires CanDetach(t, n) && p == t[n].parent.value && DirOk(t, p)
    ensures DirOk(Detach(t, n), p)
  {
    var t', kids := Detach(t, n), Without(t[p].kids, n);
    WithoutLaws(t[p].kids, n);
    WithoutSorted(t, t[p].kids, n);
    assert t[p].kids != [] && p != n && t'[p].kids == kids;
    forall i | 0 <= i < |kids| ensures kids[i] in t && t[kids[i]].parent == Some(p) && p < kids[i] {
      assert kids[i] in kids && kids[i] in t[p].kids;
    }
  }

  lemma DetachDir(t: Store, n: nat, x: nat)
    requires CanDetach(t, n) && x in t
    ensures DirOk(Detach(t, n), x)
  {
    var p := t[n].parent.value;
    assert DirOk(t, p) && DirOk(t, x);
    if x == p {
      DetachParent(t, n, p);
    } else {
      DirSame(t, Detach(t, n), x);
    }
  }

  lemma DetachNode(t: Store, n: nat, x: nat)
    requires CanDetach(t, n) && x in t
    ensures NodeOk(Detach(t, n), x)
    ensures Linked(Detach(t, n), x) <==> Linked(t, x) && x != n
  {
    var p := t[n].parent.value;
    assert DirOk(t, p) && NodeOk(t, x) && NodeOk(t, n);
    WithoutLaws(t[p].kids, n);
  }

  /** Unlinking keeps every other record where it was. */
  lemma DetachOk(t: Store, n: nat)
    requires CanDetach(t, n)
    ensures TreeOk(Detach(t, n)) && !Linked(Detach(t, n), n)
  {
    var t' := Detach(t, n);
    forall x | x in t' ensures DirOk(t', x) && NodeOk(t', x) {
      DetachDir(t, n, x);
      DetachNode(t, n, x);
    }
    DetachNode(t, n, n);
  }

  /** A record without links can be given back. */
  lemma RemoveOk(t: Store, n: nat)
    requires TreeOk(t) && n in t && t[n].links == 0
    ensures n != ROOT && t[n].kids == [] && TreeOk(t - {n})
  {
    var t' := t - {n};
    assert NodeOk(t, n) && NodeOk(t, ROOT);
    forall x | x in t' ensures DirOk(t', x) && NodeOk(t', x) {
      assert DirOk(t, x) && NodeOk(t, x);
      NotAKid(t, n, x);
    }
  }

  lemma NotAKid(t: Store, n: nat, x: nat)
    requires TreeOk(t) && n in t && x in t && !Linked(t, n)
    ensures n !in t[x].kids
  {
    assert DirOk(t, x);
  }

  /** Changing a record's open count does not touch the tree. */
  lemma OpensOk(t: Store, n: nat, opens: nat)
    requires TreeOk(t) && n in t
    ensures TreeOk(t[n := t[n].(opens := opens)])
  {
    var t' := t[n := t[n].(opens := opens)];
    forall x | x in t' ensures DirOk(t', x) && NodeOk(t', x) {
      assert DirOk(t, x) && NodeOk(t, x);
      DirSame(t, t', x);
      OpensNode(t, n, opens, x);
    }
  }

  lemma OpensNode(t: Store, n: nat, opens: nat, x: nat)
    requires TreeOk(t) && n in t && x in t && NodeOk(t, x)
    ensures NodeOk(t[n := t[n].(opens := opens)], x)
  {
  }
}
