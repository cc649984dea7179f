/** From input sets to the directory tree and back to output sets, file_system/file_system.c. */
module RoundTrip {
  import opened Prelude
  import opened Names
  import opened Paths
  import opened Tree
  import opened Walk
  import opened Creating
  import opened FileSystem
  import opened Sets
  import opened Loading
  import opened Outputs

  const DEV: Name := [100, 101, 118]
  const STDIO: Name := [115, 116, 100, 105, 111]
  const STDERR: Name := [115, 116, 100, 101, 114, 114]
  const STDOUT: Name := [115, 116, 100, 111, 117, 116]
  const STDIN: Name := [115, 116, 100, 105, 110]
  const ARGV: Name := [97, 114, 103, 118]
  const ENVIRON: Name := [101, 110, 118, 105, 114, 111, 110]

  // ---------------------------------------------------------------- in: fs_initialize

  method LinkFile(fs: FileSystem, o: Outcome, name: Path, bytes: seq<int>) returns (ok: bool)
    requires fs.Valid() && (o.Reached? ==> Anchored(fs.nodes, o.dir))
    modifies fs`nodes, fs`next
    ensures fs.Valid() && (fs.nodes, fs.next, ok) == AddFile(old(fs.nodes), old(fs.next), o, name, bytes)
  {
    if !o.Reached? || |name| > NAME_LENGTH || fs.nodes[o.dir].kind != Directory {
      return false;
    }
    LinkFileIn(fs, o.dir, name, bytes);
    ok := true;
  }

  method LinkFileIn(fs: FileSystem, d: nat, name: Path, bytes: seq<int>)
    requires fs.Valid() && Anchored(fs.nodes, d) && fs.nodes[d].kind == Directory
    modifies fs`nodes, fs`next
    ensures fs.Valid() && fs.next == old(fs.next) + 1 && DirOk(old(fs.nodes), d)
    ensures fs.nodes == AddChild(old(fs.nodes), d, old(fs.next), FileNode(Effective(name), d, bytes))
  {
    assert DirOk(fs.nodes, d);
    var _ := fs.LinkNew(d, FileNode(Effective(name), d, bytes));
  }

  /** One item of the loop: its directories below the set's, then its file. */
  method LoadBuffer(fs: FileSystem, d: nat, b: Buffer) returns (ok: bool)
    requires fs.Valid() && Anchored(fs.nodes, d)
    modifies fs`nodes, fs`next
    ensures fs.Valid() && (fs.nodes, fs.next, ok) == PutBuffer(old(fs.nodes), old(fs.next), d, b)
  {
    if b.ident == [] {
      return true;
    }
    var directories := GetDirectories(b.ident);
    var name := GetFile(b.ident);
    var isDirectory := fs.nodes[d].kind == Directory;
    var o := fs.CreateDirectories(d, directories, true);
    if !isDirectory {
      return false;
    }
    ok := LinkFile(fs, o, name, b.bytes);
  }

  method LoadBuffers(fs: FileSystem, d: nat, bs: seq<Buffer>) returns (ok: bool)
    requires fs.Valid() && Anchored(fs.nodes, d)
    modifies fs`nodes, fs`next
    ensures fs.Valid() && (fs.nodes, fs.next, ok) == PutBuffers(old(fs.nodes), old(fs.next), d, bs)
  {
    ghost var whole := PutBuffers(fs.nodes, fs.next, d, bs);
    assert bs[0..] == bs;
    for i := 0 to |bs|
      invariant fs.Valid() && Anchored(fs.nodes, d) && PutBuffers(fs.nodes, fs.next, d, bs[i..]) == whole
    {
      PutBufferGrows(fs.nodes, fs.next, d, bs[i]);
      Drop(bs, i);
      ok := LoadBuffer(fs, d, bs[i]);
      if !ok {
        return;
      }
    }
    ok := true;
  }

  lemma Drop<T>(s: seq<T>, i: nat)
    requires i < |s|
    ensures s[i..][0] == s[i] && s[i..][1..] == s[i + 1..]
  {
  }

  method MakeSetDirectory(fs: FileSystem, ident: Path) returns (o: Outcome)
    requires fs.Valid()
    modifies fs`nodes, fs`next
    ensures fs.Valid() && (fs.nodes, fs.next, o) == MakeSet(old(fs.nodes), old(fs.next), ident)
    ensures o.Reached? ==> Anchored(fs.nodes, o.dir)
  {
    o := fs.CreateDirectories(ROOT, ident, true);
  }

  method LoadSet(fs: FileSystem, s: InputSet) returns (ok: bool)
    requires fs.Valid()
    modifies fs`nodes, fs`next
    ensures fs.Valid() && (fs.nodes, fs.next, ok) == PutSet(old(fs.nodes), old(fs.next), s)
  {
    if s.ident == [] {
      return true;
    }
    var o := MakeSetDirectory(fs, s.ident);
    if !o.Reached? {
      return false;
    }
    ok := LoadBuffers(fs, o.dir, s.buffers);
  }

  method LoadSets(fs: FileSystem, ss: seq<InputSet>) returns (ok: bool)
    requires fs.Valid()
    modifies fs`nodes, fs`next
    ensures fs.Valid() && (fs.nodes, fs.next, ok) == PutSets(old(fs.nodes), old(fs.next), ss)
  {
    ghost var whole := PutSets(fs.nodes, fs.next, ss);
    assert ss[0..] == ss;
    for i := 0 to |ss|
      invariant fs.Valid() && PutSets(fs.nodes, fs.next, ss[i..]) == whole
    {
      Drop(ss, i);
      ok := LoadSet(fs, ss[i]);
      if !ok {
        return;
      }
    }
    ok := true;
  }

  method MakeSetDirectories(fs: FileSystem, idents: seq<Path>) returns (ok: bool)
    requires fs.Valid()
    modifies fs`nodes, fs`next
    ensures fs.Valid() && (fs.nodes, fs.next, ok) == MakeSets(old(fs.nodes), old(fs.next), idents)
  {
    ghost var whole := MakeSets(fs.nodes, fs.next, idents);
    assert idents[0..] == idents;
    for i := 0 to |idents|
      invariant fs.Valid() && MakeSets(fs.nodes, fs.next, idents[i..]) == whole
    {
      Drop(idents, i);
      if idents[i] != [] {
        var o := MakeSetDirectory(fs, idents[i]);
        if !o.Reached? {
          return false;
        }
      }
    }
    ok := true;
  }

  /** The set loops of fs_initialize. */
  method Initialize(fs: FileSystem, inputs: seq<InputSet>, outputs: seq<Path>) returns (ok: bool)
    requires fs.Valid()
    modifies fs`nodes, fs`next
    ensures fs.Valid() && (fs.nodes, fs.next, ok) == Loaded(old(fs.nodes), old(fs.next), inputs, outputs)
  {
    ok := LoadSets(fs, inputs);
    if ok {
      ok := MakeSetDirectories(fs, outputs);
    }
  }

  // ---------------------------------------------------------------- out: add_output_from_file and fs_terminate

  ghost predicate Below(t: Store, top: nat, fs: seq<nat>) {
    forall i | 0 <= i < |fs| :: Under(t, top, fs[i]) && fs[i] != top
  }

  /** The buffer exported for file `f`. */
  ghost function OutputOf(t: Store, top: nat, f: nat): Buffer
    requires Under(t, top, f) && f != top
  {
    Buffer(Ident(PathFrom(t, top, f)), t[f].content)
  }

  ghost function OutputsOf(t: Store, top: nat, fs: seq<nat>): (bs: seq<Buffer>)
    requires Below(t, top, fs)
    ensures |bs| == |fs| && forall i | 0 <= i < |fs| :: bs[i] == OutputOf(t, top, fs[i])
  {
    seq(|fs|, i requires 0 <= i < |fs| => OutputOf(t, top, fs[i]))
  }

  lemma OutputsJoin(t: Store, top: nat, fs: seq<nat>, gs: seq<nat>)
    requires Below(t, top, fs) && Below(t, top, gs)
    ensures Below(t, top, fs + gs) && OutputsOf(t, top, fs + gs) == OutputsOf(t, top, fs) + OutputsOf(t, top, gs)
  {
    var hs := fs + gs;
    assert forall i | 0 <= i < |hs| :: hs[i] == if i < |fs| then fs[i] else gs[i - |fs|];
  }

  /** Deeper below a child of something below `top`. */
  lemma {:induction false} UnderAcross(t: Store, top: nat, x: nat, f: nat)
    requires Under(t, top, x) && x != top && Under(t, x, f)
    ensures Under(t, top, f) && f != top
    decreases f
  {
    UnderOrder(t, top, x);
    UnderOrder(t, x, f);
    if f != x {
      UnderAcross(t, top, x, t[f].parent.value);
    }
  }

  lemma FilesBelow(t: Store, bound: nat, top: nat, n: nat)
    requires TreeOk(t) && Fresh(t, bound) && Under(t, top, n) && n != top
    ensures Below(t, top, FilesUnder(t, bound, n))
  {
    var fs := FilesUnder(t, bound, n);
    forall i | 0 <= i < |fs| ensures Under(t, top, fs[i]) && fs[i] != top {
      FilesSound(t, bound, n, fs[i]);
      UnderAcross(t, top, n, fs[i]);
    }
  }

  lemma FilesInBelow(t: Store, bound: nat, top: nat, d: nat, i: nat)
    requires TreeOk(t) && Fresh(t, bound) && Under(t, top, d) && i <= |t[d].kids|
    ensures Below(t, top, FilesIn(t, bound, d, i))
  {
    UnderOrder(t, top, d);
    var fs := FilesIn(t, bound, d, i);
    forall k | 0 <= k < |fs| ensures Under(t, top, fs[k]) && fs[k] != top {
      var j := FilesInSound(t, bound, d, i, fs[k]);
      var x := t[d].kids[j];
      KidAnchored(t, d, x);
      KidUnder(t, top, d, x);
      UnderAcross(t, top, x, fs[k]);
    }
  }

  /** Children of the stdio set that are not output. */
  predicate Special(name: Name) {
    name == ENVIRON || name == ARGV || name == STDIN
  }

  predicate IsStdio(ident: Path) {
    Effective(ident) == STDIO
  }

  /** The files below the children of `d` from the `i`-th on, without the special ones if asked for. */
  ghost function KeptFiles(t: Store, bound: nat, d: nat, i: nat, stdio: bool): seq<nat>
    requires TreeOk(t) && Fresh(t, bound) && d in t && i <= |t[d].kids|
    decreases |t[d].kids| - i
  {
    assert DirOk(t, d);
    if i == |t[d].kids| then []
    else
      (if stdio && Special(t[t[d].kids[i]].name) then [] else FilesUnder(t, bound, t[d].kids[i]))
      + KeptFiles(t, bound, d, i + 1, stdio)
  }

  lemma {:induction false} KeptAll(t: Store, bound: nat, d: nat, i: nat)
    requires TreeOk(t) && Fresh(t, bound) && d in t && i <= |t[d].kids|
    ensures KeptFiles(t, bound, d, i, false) == FilesIn(t, bound, d, i)
    decreases |t[d].kids| - i
  {
    if i < |t[d].kids| {
      KeptAll(t, bound, d, i + 1);
    }
  }

  lemma {:induction false} KeptBelow(t: Store, bound: nat, top: nat, d: nat, i: nat, stdio: bool)
    requires TreeOk(t) && Fresh(t, bound) && Under(t, top, d) && d in t && i <= |t[d].kids|
    ensures Below(t, top, KeptFiles(t, bound, d, i, stdio))
    decreases |t[d].kids| - i
  {
    assert DirOk(t, d);
    UnderOrder(t, top, d);
    if i < |t[d].kids| {
      var x := t[d].kids[i];
      KidAnchored(t, d, x);
      KidUnder(t, top, d, x);
      FilesBelow(t, bound, top, x);
      KeptBelow(t, bound, top, d, i + 1, stdio);
    }
  }

  /** add_output_from_file: the files at and below `n`, named from `previous` on. */
  method AddOutput(t: Store, ghost bound: nat, ghost top: nat, n: nat, previous: Path) returns (out: seq<Buffer>)
    requires TreeOk(t) && Fresh(t, bound) && Under(t, top, n) && n != top
    requires previous == Prefix(PathFrom(t, top, t[n].parent.value))
    ensures Below(t, top, FilesUnder(t, bound, n)) && out == OutputsOf(t, top, FilesUnder(t, bound, n))
    decreases bound - n, 2
  {
    FilesBelow(t, bound, top, n);
    PathSplit(t, top, n);
    if t[n].kind == Regular {
      return [Buffer(previous + t[n].name, t[n].content)];
    }
    KeptAll(t, bound, n, 0);
    out := AddOutputs(t, bound, top, n, previous + t[n].name + [SLASH], false);
  }

  lemma PathSplit(t: Store, top: nat, n: nat)
    requires Under(t, top, n) && n != top
    ensures var p, k := PathFrom(t, top, n), |PathFrom(t, top, n)| - 1;
            k >= 0 && p[..k] == PathFrom(t, top, t[n].parent.value) && p[k] == t[n].name
  {
  }

  /** The loop over the children of a directory: that of add_output_from_file, and that of fs_terminate,
      which passes over some children of the stdio set. */
  method AddOutputs(t: Store, ghost bound: nat, ghost top: nat, d: nat, path: Path, stdio: bool)
    returns (out: seq<Buffer>)
    requires TreeOk(t) && Fresh(t, bound) && Under(t, top, d) && path == Prefix(PathFrom(t, top, d))
    ensures Below(t, top, KeptFiles(t, bound, d, 0, stdio))
            && out == OutputsOf(t, top, KeptFiles(t, bound, d, 0, stdio))
    decreases bound - d, 1
  {
    KeptBelow(t, bound, top, d, 0, stdio);
    UnderOrder(t, top, d);
    assert DirOk(t, d);
    ghost var whole := OutputsOf(t, top, KeptFiles(t, bound, d, 0, stdio));
    out := [];
    assert [] + whole == whole;
    for i := 0 to |t[d].kids|
      invariant ToCome(t, bound, top, d, i, stdio, out, whole)
    {
      var more := AddChildOutput(t, bound, top, d, i, path, stdio);
      OneMoreChild(t, bound, top, d, i, stdio, out, whole, more);
      out := out + more;
    }
    assert out + [] == out;
  }

  method AddChildOutput(t: Store, ghost bound: nat, ghost top: nat, d: nat, i: nat, path: Path, stdio: bool)
    returns (more: seq<Buffer>)
    requires TreeOk(t) && Fresh(t, bound) && Under(t, top, d) && path == Prefix(PathFrom(t, top, d)) && DirOk(t, d)
    requires i < |t[d].kids|
    ensures Gives(t, bound, top, t[d].kids[i], stdio, more)
    decreases bound - d, 0
  {
    var x := t[d].kids[i];
    UnderOrder(t, top, d);
    KidAnchored(t, d, x);
    KidUnder(t, top, d, x);
    if stdio && Special(t[x].name) {
      return [];
    }
    more := AddOutput(t, bound, top, x, path);
  }

  /** With what the children from `i` on will give, `out` becomes `whole`. */
  ghost predicate ToCome(t: Store, bound: nat, top: nat, d: nat, i: nat, stdio: bool, out: seq<Buffer>,
                         whole: seq<Buffer>)
    requires TreeOk(t) && Fresh(t, bound) && d in t && i <= |t[d].kids|
  {
    var fs := KeptFiles(t, bound, d, i, stdio);
    Below(t, top, fs) && out + OutputsOf(t, top, fs) == whole
  }

  /** The buffers child `x` gives. */
  ghost predicate Gives(t: Store, bound: nat, top: nat, x: nat, stdio: bool, more: seq<Buffer>)
    requires TreeOk(t) && Fresh(t, bound) && x in t
  {
    if stdio && Special(t[x].name) then more == []
    else Below(t, top, FilesUnder(t, bound, x)) && more == OutputsOf(t, top, FilesUnder(t, bound, x))
  }

  lemma OutputsFollow(t: Store, top: nat, here: seq<nat>, later: seq<nat>, out: seq<Buffer>, whole: seq<Buffer>)
    requires Below(t, top, here) && Below(t, top, later) && Below(t, top, here + later)
    requires out + OutputsOf(t, top, here + later) == whole
    ensures out + OutputsOf(t, top, here) + OutputsOf(t, top, later) == whole
  {
    OutputsJoin(t, top, here, later);
    var a, b := OutputsOf(t, top, here), OutputsOf(t, top, later);
    assert out + (a + b) == out + a + b;
  }

  lemma KeptStep(t: Store, bound: nat, d: nat, i: nat, stdio: bool)
    requires TreeOk(t) && Fresh(t, bound) && d in t && i < |t[d].kids| && DirOk(t, d)
    ensures var x := t[d].kids[i];
            KeptFiles(t, bound, d, i, stdio) ==
            (if stdio && Special(t[x].name) then [] else FilesUnder(t, bound, x))
            + KeptFiles(t, bound, d, i + 1, stdio)
  {
  }

  lemma OneMoreChild(t: Store, bound: nat, top: nat, d: nat, i: nat, stdio: bool, out: seq<Buffer>, whole: seq<Buffer>,
                     more: seq<Buffer>)
    requires TreeOk(t) && Fresh(t, bound) && Under(t, top, d) && d in t && i < |t[d].kids| && DirOk(t, d)
    requires ToCome(t, bound, top, d, i, stdio, out, whole) && Gives(t, bound, top, t[d].kids[i], stdio, more)
    ensures ToCome(t, bound, top, d, i + 1, stdio, out + more, whole)
  {
    var x, later := t[d].kids[i], KeptFiles(t, bound, d, i + 1, stdio);
    var here := if stdio && Special(t[x].name) then [] else FilesUnder(t, bound, x);
    KeptBelow(t, bound, top, d, i + 1, stdio);
    KeptStep(t, bound, d, i, stdio);
    OutputsFollow(t, top, here, later, out, whole);
    assert more == OutputsOf(t, top, here);
  }

  /** What fs_terminate exports for an output set: nothing if the root has no child of that name. */
  ghost function Exported(t: Store, bound: nat, ident: Path): seq<Buffer>
    requires TreeOk(t) && Fresh(t, bound)
  {
    assert DirOk(t, ROOT);
    FoundAnchored(t, ROOT, ident);
    match FindIn(t, ROOT, ident)
    case None => []
    case Some(d) =>
      KeptBelow(t, bound, d, d, 0, IsStdio(ident));
      OutputsOf(t, d, KeptFiles(t, bound, d, 0, IsStdio(ident)))
  }

  method ExportSet(t: Store, ghost bound: nat, ident: Path) returns (out: seq<Buffer>)
    requires TreeOk(t) && Fresh(t, bound)
    ensures IsExport(t, bound, ident, out)
  {
    assert DirOk(t, ROOT);
    var found := FindFileInDir(t, ROOT, ident);
    if found.None? {
      ExportedIsRight(t, bound, ident);
      return [];
    }
    var order := NameCmp(ident, |ident|, STDIO, |STDIO|);
    StdioTest(ident);
    out := AddOutputs(t, bound, found.value, found.value, [], order == 0);
    ExportedIsRight(t, bound, ident);
  }

  lemma StdioTest(ident: Path)
    ensures Compare(Effective(ident[..|ident|]), Effective(STDIO[..|STDIO|])) == 0 <==> IsStdio(ident)
  {
    assert ident[..|ident|] == ident && STDIO[..|STDIO|] == STDIO;
    EffectiveName(STDIO);
    CompareZero(Effective(ident), STDIO);
  }

  // ---------------------------------------------------------------- what an export holds

  /** `f` is a file that fs_terminate has to output for directory `d`: any file in it or, for the stdio
      folder, any whose path does not begin with environ, argv or stdin. */
  ghost predicate IsOutput(t: Store, d: nat, stdio: bool, f: nat) {
    && Inside(t, d, f) && f != d && t[f].kind == Regular && Under(t, d, f) && PathFrom(t, d, f) != []
    && (stdio ==> PathFrom(t, d, f)[0] != [101, 110, 118, 105, 114, 111, 110]
                  && PathFrom(t, d, f)[0] != [97, 114, 103, 118] && PathFrom(t, d, f)[0] != [115, 116, 100, 105, 110])
  }

  /** `out` has one buffer for each of the files `fs`, which are exactly those to be output. */
  ghost predicate OutputFor(t: Store, d: nat, stdio: bool, fs: seq<nat>, out: seq<Buffer>) {
    && Distinct(fs) && (forall f :: f in fs <==> IsOutput(t, d, stdio, f))
    && |out| == |fs|
    && forall i | 0 <= i < |fs| ::
         IsOutput(t, d, stdio, fs[i]) && out[i] == Buffer(Ident(PathFrom(t, d, fs[i])), t[fs[i]].content)
  }

  ghost predicate HoldsOutputs(t: Store, d: nat, stdio: bool, out: seq<Buffer>) {
    exists fs: seq<nat> :: OutputFor(t, d, stdio, fs, out)
  }

  /** `f` is inside a child from the `i`-th on that is not passed over. */
  ghost predicate KeptFrom(t: Store, d: nat, i: nat, stdio: bool, f: nat)
    requires d in t && DirOk(t, d)
  {
    exists j | i <= j < |t[d].kids| :: Inside(t, t[d].kids[j], f) && !(stdio && Special(t[t[d].kids[j]].name))
  }

  lemma {:induction false} KeptGives(t: Store, bound: nat, d: nat, i: nat, stdio: bool, f: nat)
    requires TreeOk(t) && Fresh(t, bound) && d in t && DirOk(t, d) && i <= |t[d].kids|
    ensures f in KeptFiles(t, bound, d, i, stdio) <==> KeptFrom(t, d, i, stdio, f) && t[f].kind == Regular
    decreases |t[d].kids| - i
  {
    if i < |t[d].kids| {
      var x := t[d].kids[i];
      WalkGives(t, bound, x, f);
      KeptGives(t, bound, d, i + 1, stdio, f);
      assert KeptFrom(t, d, i, stdio, f) <==>
             (Inside(t, x, f) && !(stdio && Special(t[x].name))) || KeptFrom(t, d, i + 1, stdio, f);
    }
  }

  lemma {:induction false} KeptOnce(t: Store, bound: nat, d: nat, i: nat, stdio: bool)
    requires TreeOk(t) && Fresh(t, bound) && d in t && DirOk(t, d) && i <= |t[d].kids|
    ensures Distinct(KeptFiles(t, bound, d, i, stdio))
    decreases |t[d].kids| - i
  {
    if i < |t[d].kids| {
      var x := t[d].kids[i];
      var here, later := FilesUnder(t, bound, x), KeptFiles(t, bound, d, i + 1, stdio);
      WalkGivesOnce(t, bound, x);
      KeptOnce(t, bound, d, i + 1, stdio);
      forall f | f in here ensures f !in later {
        ApartFromLater(t, bound, d, i, f);
        KeptGives(t, bound, d, i + 1, stdio, f);
      }
      DistinctJoin(here, later);
      assert [] + later == later;
    }
  }

  /** The children passed over are those whose name begins the path. */
  lemma KeptMeans(t: Store, d: nat, stdio: bool, f: nat)
    requires TreeOk(t) && d in t && DirOk(t, d) && f in t && t[f].kind == Regular
    ensures KeptFrom(t, d, 0, stdio, f) <==> IsOutput(t, d, stdio, f)
  {
    if KeptFrom(t, d, 0, stdio, f) {
      var j :| 0 <= j < |t[d].kids| && Inside(t, t[d].kids[j], f) && !(stdio && Special(t[t[d].kids[j]].name));
      InsideVia(t, d, t[d].kids[j], f);
      FirstName(t, d, t[d].kids[j], f);
    }
    if IsOutput(t, d, stdio, f) {
      var j := InsideFirst(t, d, f);
      FirstName(t, d, t[d].kids[j], f);
    }
  }

  lemma KeptOutputs(t: Store, bound: nat, d: nat, stdio: bool)
    requires TreeOk(t) && Fresh(t, bound) && d in t
    ensures var fs := KeptFiles(t, bound, d, 0, stdio);
            Below(t, d, fs) && HoldsOutputs(t, d, stdio, OutputsOf(t, d, fs))
  {
    var fs := KeptFiles(t, bound, d, 0, stdio);
    assert DirOk(t, d);
    KeptBelow(t, bound, d, d, 0, stdio);
    KeptOnce(t, bound, d, 0, stdio);
    forall f ensures f in fs <==> IsOutput(t, d, stdio, f) {
      KeptGives(t, bound, d, 0, stdio, f);
      if f in t && t[f].kind == Regular {
        KeptMeans(t, d, stdio, f);
      }
    }
    assert OutputFor(t, d, stdio, fs, OutputsOf(t, d, fs));
  }

  /** A directory found under the identifier is exported whole, but for three children of the stdio
      folder; anything else is exported as nothing. */
  ghost predicate ExportedRight(t: Store, ident: Path, out: seq<Buffer>)
    requires TreeOk(t)
  {
    assert DirOk(t, ROOT);
    match FindIn(t, ROOT, ident)
    case None => out == []
    case Some(d) => HoldsOutputs(t, d, Effective(ident) == [115, 116, 100, 105, 111], out)
  }

  lemma ExportedIsRight(t: Store, bound: nat, ident: Path)
    requires TreeOk(t) && Fresh(t, bound)
    ensures ExportedRight(t, ident, Exported(t, bound, ident))
  {
    assert DirOk(t, ROOT);
    FoundAnchored(t, ROOT, ident);
    var found := FindIn(t, ROOT, ident);
    if found.Some? {
      KeptOutputs(t, bound, found.value, IsStdio(ident));
    }
  }

  ghost predicate IsExport(t: Store, bound: nat, ident: Path, out: seq<Buffer>)
    requires TreeOk(t) && Fresh(t, bound)
  {
    out == Exported(t, bound, ident) && ExportedRight(t, ident, out)
  }

  /** One export for each of the first `n` output sets. */
  ghost predicate IsExports(t: Store, bound: nat, outputs: seq<Path>, n: nat, exported: seq<seq<Buffer>>)
    requires TreeOk(t) && Fresh(t, bound)
  {
    |exported| == n <= |outputs| && forall j | 0 <= j < n :: IsExport(t, bound, outputs[j], exported[j])
  }

  lemma OneMoreExport(t: Store, bound: nat, outputs: seq<Path>, n: nat, exported: seq<seq<Buffer>>, out: seq<Buffer>)
    requires TreeOk(t) && Fresh(t, bound) && n < |outputs| && IsExports(t, bound, outputs, n, exported)
    requires IsExport(t, bound, outputs[n], out)
    ensures IsExports(t, bound, outputs, n + 1, exported + [out])
  {
    var all := exported + [out];
    forall j | 0 <= j < n + 1 ensures IsExport(t, bound, outputs[j], all[j]) {
      assert j < n ==> all[j] == exported[j];
    }
  }

  /** fs_terminate */
  method Terminate(t: Store, ghost bound: nat, outputs: seq<Path>) returns (exported: seq<seq<Buffer>>)
    requires TreeOk(t) && Fresh(t, bound)
    ensures IsExports(t, bound, outputs, |outputs|, exported)
  {
    exported := [];
    for j := 0 to |outputs|
      invariant IsExports(t, bound, outputs, j, exported)
    {
      var out := ExportSet(t, bound, outputs[j]);
      OneMoreExport(t, bound, outputs, j, exported, out);
      exported := exported + [out];
    }
  }

  // ---------------------------------------------------------------- there and back

  lemma {:induction false} SamePlace(a: seq<nat>, b: seq<nat>)
    requires Distinct(a) && Distinct(b) && forall x :: x in a <==> x in b
    ensures multiset(a) == multiset(b)
  {
    forall x ensures multiset(a)[x] == multiset(b)[x] {
      OnceIn(a, x);
      OnceIn(b, x);
    }
  }

  lemma {:induction false} OnceIn(a: seq<nat>, x: nat)
    requires Distinct(a)
    ensures multiset(a)[x] == Bit(x in a)
  {
    if a != [] {
      OnceIn(a[1..], x);
      assert a == [a[0]] + a[1..];
      assert forall i | 0 < i < |a| :: a[i] == a[1..][i - 1];
    }
  }

  lemma BelowParts(t: Store, top: nat, fs: seq<nat>, gs: seq<nat>)
    requires Below(t, top, fs + gs)
    ensures Below(t, top, fs) && Below(t, top, gs)
  {
    var hs := fs + gs;
    assert forall i | 0 <= i < |fs| :: fs[i] == hs[i];
    assert forall i | 0 <= i < |gs| :: gs[i] == hs[|fs| + i];
  }

  lemma PullParts(t: Store, top: nat, a: seq<nat>, x: seq<nat>, b: seq<nat>)
    requires Below(t, top, a) && Below(t, top, x) && Below(t, top, b)
    ensures Below(t, top, a + b) && Below(t, top, a + (x + b))
    ensures multiset(OutputsOf(t, top, a + (x + b))) ==
            multiset(OutputsOf(t, top, x)) + multiset(OutputsOf(t, top, a + b))
  {
    OutputsJoin(t, top, a, b);
    OutputsJoin(t, top, x, b);
    OutputsJoin(t, top, a, x + b);
  }

  lemma PullOut(t: Store, top: nat, gs: seq<nat>, k: nat) returns (rest: seq<nat>)
    requires Below(t, top, gs) && k < |gs|
    ensures |rest| < |gs| && Below(t, top, rest) && multiset(gs) == multiset{gs[k]} + multiset(rest)
    ensures multiset(OutputsOf(t, top, gs)) == multiset{OutputOf(t, top, gs[k])} + multiset(OutputsOf(t, top, rest))
  {
    var a, x, b := gs[..k], gs[k..k + 1], gs[k + 1..];
    rest := a + b;
    Parts(gs, k);
    BelowParts(t, top, a, x + b);
    BelowParts(t, top, x, b);
    PullParts(t, top, a, x, b);
    assert OutputsOf(t, top, x) == [OutputOf(t, top, gs[k])];
  }

  lemma Parts(gs: seq<nat>, k: nat)
    requires k < |gs|
    ensures gs == gs[..k] + (gs[k..k + 1] + gs[k + 1..])
    ensures multiset(gs) == multiset{gs[k]} + multiset(gs[..k] + gs[k + 1..])
  {
    assert gs == gs[..k] + [gs[k]] + gs[k + 1..];
    assert gs[k..k + 1] == [gs[k]];
  }

  lemma Cancel(x: nat, a: multiset<nat>, b: multiset<nat>)
    requires multiset{x} + a == multiset{x} + b
    ensures a == b
  {
    assert a == (multiset{x} + a) - multiset{x};
    assert b == (multiset{x} + b) - multiset{x};
  }

  /** Files in another order give the same buffers in another order. */
  lemma {:induction false} OutputsPermute(t: Store, top: nat, fs: seq<nat>, gs: seq<nat>)
    requires Below(t, top, fs) && Below(t, top, gs) && multiset(fs) == multiset(gs)
    ensures multiset(OutputsOf(t, top, fs)) == multiset(OutputsOf(t, top, gs))
    decreases |fs|
  {
    if fs == [] {
      assert |multiset(gs)| == |gs|;
    } else {
      var k := Whereabouts(fs, gs);
      var a := PullOut(t, top, fs, 0);
      var b := PullOut(t, top, gs, k);
      Cancel(fs[0], multiset(a), multiset(b));
      OutputsPermute(t, top, a, b);
    }
  }

  lemma Whereabouts(fs: seq<nat>, gs: seq<nat>) returns (k: nat)
    requires fs != [] && multiset(fs) == multiset(gs)
    ensures k < |gs| && gs[k] == fs[0]
  {
    assert fs[0] in multiset(fs) && fs[0] in gs;
    k :| 0 <= k < |gs| && gs[k] == fs[0];
  }

  lemma OutputsOfItems(t: Store, top: nat, items: seq<Item>, ids: seq<nat>)
    requires |ids| == |items| && forall j | 0 <= j < |ids| :: IsItem(t, top, ids[j], items[j]) && items[j].path != []
    ensures Below(t, top, ids) && OutputsOf(t, top, ids) == BuffersOf(items)
  {
    forall j | 0 <= j < |ids|
      ensures Under(t, top, ids[j]) && ids[j] != top && OutputOf(t, top, ids[j]) == BufferOf(items[j])
    {
      assert IsItem(t, top, ids[j], items[j]);
    }
  }

  /** The files found by the walk are the files of the items. */
  lemma FilesAreItems(t: Store, next: nat, top: nat, items: seq<Item>, ids: seq<nat>)
    requires Holds(t, next, top, items, ids)
    ensures multiset(FilesIn(t, next, top, 0)) == multiset(ids)
    ensures Listed(t, top, FilesIn(t, next, top, 0))
  {
    var fs := FilesIn(t, next, top, 0);
    FilesInListed(t, next, top, 0);
    forall x ensures x in fs <==> x in ids {
      if x in fs {
        FilesSound(t, next, top, x);
      }
      if x in ids {
        var j :| 0 <= j < |ids| && ids[j] == x;
        assert IsItem(t, top, ids[j], items[j]);
        FilesComplete(t, next, top, x);
      }
    }
    SamePlace(fs, ids);
  }

  /** A set whose files are those of its items is exported as exactly those items. */
  lemma ExportIsInput(t: Store, next: nat, top: nat, items: seq<Item>, ids: seq<nat>)
    requires Holds(t, next, top, items, ids) && forall j | 0 <= j < |items| :: items[j].path != []
    ensures var fs := FilesIn(t, next, top, 0);
            Below(t, top, fs) && multiset(OutputsOf(t, top, fs)) == multiset(BuffersOf(items)) && Listed(t, top, fs)
  {
    var fs := FilesIn(t, next, top, 0);
    FilesAreItems(t, next, top, items, ids);
    FilesInBelow(t, next, top, top, 0);
    forall j | 0 <= j < |ids| ensures IsItem(t, top, ids[j], items[j]) {
    }
    OutputsOfItems(t, top, items, ids);
    OutputsPermute(t, top, fs, ids);
  }

  ghost predicate InPathOrder(out: seq<Buffer>) {
    forall i, j | 0 <= i < j < |out| :: PathBefore(Components(out[i].ident), Components(out[j].ident))
  }

  ghost predicate InListOrder(out: seq<Buffer>) {
    forall i, j | 0 <= i < j < |out| :: ListLeq(Components(out[i].ident), Components(out[j].ident))
  }

  /** No path continues another. */
  ghost predicate NoneContinued(bs: seq<Buffer>) {
    forall i, j | 0 <= i < |bs| && 0 <= j < |bs| :: !(Components(bs[i].ident) < Components(bs[j].ident))
  }

  /** What comes out in list order is in path order exactly if no path continues another. */
  lemma PathOrderIff(out: seq<Buffer>)
    requires InListOrder(out)
    ensures InPathOrder(out) <==> NoneContinued(out)
  {
    forall i, j | 0 <= i < j < |out|
      ensures PathBefore(Components(out[i].ident), Components(out[j].ident)) <==>
              !(Components(out[j].ident) < Components(out[i].ident))
      ensures !(Components(out[i].ident) < Components(out[j].ident))
    {
      OrdersDiffer(Components(out[i].ident), Components(out[j].ident));
      PathLeqMeans(Components(out[i].ident), Components(out[j].ident));
    }
  }

  lemma SameContinued(out: seq<Buffer>, bs: seq<Buffer>)
    requires multiset(out) == multiset(bs)
    ensures NoneContinued(out) <==> NoneContinued(bs)
  {
    if NoneContinued(bs) {
      ContinuedIn(out, bs);
    } else if NoneContinued(out) {
      ContinuedIn(bs, out);
    }
  }

  lemma ContinuedIn(a: seq<Buffer>, b: seq<Buffer>)
    requires multiset(a) == multiset(b) && NoneContinued(b)
    ensures NoneContinued(a)
  {
    forall i, j | 0 <= i < |a| && 0 <= j < |a| ensures !(Components(a[i].ident) < Components(a[j].ident)) {
      assert a[i] in multiset(a) && a[j] in multiset(a);
      assert a[i] in b && a[j] in b;
      var k :| 0 <= k < |b| && b[k] == a[i];
      var l :| 0 <= l < |b| && b[l] == a[j];
    }
  }

  lemma OutputComponents(t: Store, next: nat, top: nat, items: seq<Item>, ids: seq<nat>, fs: seq<nat>, i: nat)
    requires Holds(t, next, top, items, ids) && Below(t, top, fs) && i < |fs| && fs[i] in ids
    requires forall j | 0 <= j < |items| :: GoodItem(items[j])
    ensures Components(OutputsOf(t, top, fs)[i].ident) == PathFrom(t, top, fs[i])
  {
    var j :| 0 <= j < |ids| && ids[j] == fs[i];
    assert IsItem(t, top, ids[j], items[j]) && GoodItem(items[j]);
    IdentParts(items[j].path);
  }

  lemma OutputsInOrder(t: Store, next: nat, top: nat, items: seq<Item>, ids: seq<nat>, fs: seq<nat>)
    requires Holds(t, next, top, items, ids) && Below(t, top, fs) && Listed(t, top, fs)
    requires multiset(fs) == multiset(ids) && forall j | 0 <= j < |items| :: GoodItem(items[j])
    ensures InListOrder(OutputsOf(t, top, fs))
  {
    var out := OutputsOf(t, top, fs);
    forall i, j | 0 <= i < j < |out| ensures ListLeq(Components(out[i].ident), Components(out[j].ident)) {
      assert fs[i] in multiset(fs) && fs[j] in multiset(fs);
      assert fs[i] in ids && fs[j] in ids;
      OutputComponents(t, next, top, items, ids, fs, i);
      OutputComponents(t, next, top, items, ids, fs, j);
    }
  }

  lemma ItemsAreBuffers(bs: seq<Buffer>)
    requires forall i | 0 <= i < |bs| :: GoodBuffer(bs[i])
    ensures forall j | 0 <= j < |ItemsOf(bs)| :: GoodItem(ItemsOf(bs)[j])
    ensures forall j | 0 <= j < |ItemsOf(bs)| :: ItemsOf(bs)[j].path != []
    ensures BuffersOf(ItemsOf(bs)) == bs
  {
    forall i | 0 <= i < |bs| ensures GoodItem(ItemsOf(bs)[i]) && BufferOf(ItemsOf(bs)[i]) == bs[i] {
      assert GoodBuffer(bs[i]);
    }
  }

  /** A set found under its name with its items in it is exported as those items, in list order. */
  lemma ExportedItems(t: Store, next: nat, c: Name, d: nat, bs: seq<Buffer>, ids: seq<nat>)
    requires Plain(c) && c != STDIO && GoodBuffers(bs) && SetHolds(t, next, c, d, ItemsOf(bs), ids)
    ensures multiset(Exported(t, next, c)) == multiset(bs) && InListOrder(Exported(t, next, c))
  {
    EffectiveName(c);
    ItemsAreBuffers(bs);
    KeptAll(t, next, d, 0);
    var fs := FilesIn(t, next, d, 0);
    FilesAreItems(t, next, d, ItemsOf(bs), ids);
    ExportIsInput(t, next, d, ItemsOf(bs), ids);
    OutputsInOrder(t, next, d, ItemsOf(bs), ids, fs);
    assert FindIn(t, ROOT, c) == Some(d);
    assert Exported(t, next, c) == OutputsOf(t, d, fs);
  }

  /** For every list of input and output sets that loads: a set whose identifier is one plain name that
      no other set goes to and the root did not have is exported as exactly its own items; and in
      component-wise path order exactly if no item's path continues another's. */
  lemma SetRoundTrip(t: Store, next: nat, inputs: seq<InputSet>, outputs: seq<Path>, k: nat)
    requires TreeOk(t) && Fresh(t, next) && Loaded(t, next, inputs, outputs).2
    requires OnItsOwn(inputs, k) && inputs[k].ident != STDIO
    requires KidsIn(t, t[ROOT].kids) && LookupIn(t, t[ROOT].kids, inputs[k].ident).None?
    ensures var r := Loaded(t, next, inputs, outputs);
            var out := Exported(r.0, r.1, inputs[k].ident);
            && multiset(out) == multiset(inputs[k].buffers) && InListOrder(out)
            && (InPathOrder(out) <==> NoneContinued(inputs[k].buffers))
  {
    var d, ids := LoadedHolds(t, next, inputs, outputs, k);
    var r := Loaded(t, next, inputs, outputs);
    ExportedItems(r.0, r.1, inputs[k].ident, d, inputs[k].buffers, ids);
    var out := Exported(r.0, r.1, inputs[k].ident);
    PathOrderIff(out);
    SameContinued(out, inputs[k].buffers);
  }

  /** A set whose identifier holds a slash is never exported. */
  lemma SlashedSetsAreLost(t: Store, next: nat, inputs: seq<InputSet>, outputs: seq<Path>, ident: Path)
    requires TreeOk(t) && Fresh(t, next) && RootClean(t) && Loaded(t, next, inputs, outputs).2
    requires forall j | 0 <= j < |inputs| :: inputs[j].ident == [] || Head(Components(inputs[j].ident)).Some?
    requires SLASH in ident && NUL !in ident
    ensures var r := Loaded(t, next, inputs, outputs); Exported(r.0, r.1, ident) == []
  {
    LoadedKeepsClean(t, next, inputs, outputs);
    EffectiveName(ident);
    var t' := Loaded(t, next, inputs, outputs).0;
    LookupComplete(t', t'[ROOT].kids, ident);
  }

  // ---------------------------------------------------------------- the whole way

  /** The root as fs_initialize sets it up: it has the static folders and nothing else. */
  ghost predicate StaticRoot(t: Store) {
    ROOT in t && KidsIn(t, t[ROOT].kids) && forall y | y in t[ROOT].kids :: y in t && t[y].name in {DEV, STDIO}
  }

  function StaticFolder(name: Name): Node {
    Node(name, Directory, Some(ROOT), [], 2, 0, true, [])
  }

  lemma StaticRootNames(t: Store, c: Name)
    requires StaticRoot(t)
    ensures RootClean(t) && (c != DEV && c != STDIO ==> LookupIn(t, t[ROOT].kids, c).None?)
  {
  }

  lemma StaticRootAfter(t: Store, d: nat, n: nat, node: Node)
    requires StaticRoot(t) && CanAdd(t, d, n, node) && (d == ROOT ==> node.name in {DEV, STDIO})
    ensures StaticRoot(AddChild(t, d, n, node))
  {
    if d == ROOT {
      InsertKeepsDistinct(t[d].kids, InsertPos(t, t[d].kids, node.name, 0), n);
    }
  }

  method LinkStatic(fs: FileSystem, d: nat, node: Node) returns (n: nat)
    requires fs.Valid() && StaticRoot(fs.nodes) && CanAdd(fs.nodes, d, fs.next, node)
    requires d == ROOT ==> node.name in {DEV, STDIO}
    modifies fs`nodes, fs`next
    ensures fs.Valid() && StaticRoot(fs.nodes) && n in fs.nodes && fs.nodes[n] == node && Anchored(fs.nodes, n)
    ensures n !in old(fs.nodes) && d in old(fs.nodes) && DirOk(old(fs.nodes), d)
    ensures fs.nodes == AddChild(old(fs.nodes), d, n, node)
    ensures forall m | m in old(fs.nodes) && Anchored(old(fs.nodes), m) :: Anchored(fs.nodes, m)
  {
    assert DirOk(fs.nodes, d);
    StaticRootAfter(fs.nodes, d, fs.next, node);
    forall m | Anchored(fs.nodes, m) ensures Anchored(AddChild(fs.nodes, d, fs.next, node), m) {
      TopStays(fs.nodes, d, fs.next, node, m);
    }
    n := fs.LinkNew(d, node);
  }

  /** Descriptor `fd` is on a file called `name` in directory `d`. */
  ghost predicate StandardFile(t: Store, slots: seq<Option<nat>>, d: nat, name: Name, fd: nat) {
    && fd < |slots| && slots[fd].Some? && d in t
    && var f := slots[fd].value;
       f in t && f in t[d].kids && t[f].name == name && t[f].kind == Regular
  }

  ghost predicate EmptyAt(t: Store, slots: seq<Option<nat>>, fd: nat) {
    fd < |slots| && slots[fd].Some? && slots[fd].value in t && t[slots[fd].value].content == []
  }

  ghost predicate StandardFolder(t: Store, d: nat) {
    && d in t && ROOT in t && KidsIn(t, t[ROOT].kids)
    && LookupIn(t, t[ROOT].kids, [115, 116, 100, 105, 111]) == Some(d)
  }

  /** The folder stdio, with stdout open at descriptor 1 and stderr at 2. */
  ghost predicate StandardIn(t: Store, slots: seq<Option<nat>>, d: nat) {
    && StandardFolder(t, d)
    && StandardFile(t, slots, d, [115, 116, 100, 111, 117, 116], 1)
    && StandardFile(t, slots, d, [115, 116, 100, 101, 114, 114], 2)
  }

  /** Only the list of `d` has grown. */
  ghost predicate GrownAt(t: Store, t': Store, d: nat) {
    forall m | m in t ::
      && m in t' && t'[m] == t[m].(kids := t'[m].kids) && (m != d ==> t'[m] == t[m])
      && forall k | k in t[m].kids :: k in t'[m].kids
  }

  lemma OpenedChild(t: Store, d: nat, n: nat, node: Node, opens: nat)
    requires CanAdd(t, d, n, node) && d in t && DirOk(t, d)
    ensures var t' := SetOpens(AddChild(t, d, n, node), n, opens); GrownAt(t, t', d) && n in t'[d].kids
  {
    InsertKeepsDistinct(t[d].kids, InsertPos(t, t[d].kids, node.name, 0), n);
  }

  lemma OpenedStandard(t: Store, d: nat, n: nat, name: Name, slots: seq<Option<nat>>, fd: nat)
    requires d in t && DirOk(t, d) && CanAdd(t, d, n, FileNode(name, d, [])) && fd < |slots|
    ensures var t' := SetOpens(AddChild(t, d, n, FileNode(name, d, [])), n, 1);
            var slots' := slots[fd := Some(n)];
            GrownAt(t, t', d) && StandardFile(t', slots', d, name, fd) && EmptyAt(t', slots', fd)
  {
    OpenedChild(t, d, n, FileNode(name, d, []), 1);
  }

  /** Opening a record moves none. */
  lemma OpeningMoves(t: Store, n: nat, d: nat)
    requires n in t && StaticRoot(t) && Anchored(t, d)
    ensures var t' := SetOpens(t, n, t[n].opens + 1);
            StaticRoot(t') && Anchored(t', d) && t'[d].kind == t[d].kind
  {
  }

  lemma StandardFileStays(t: Store, t': Store, slots: seq<Option<nat>>, slots': seq<Option<nat>>, d: nat, name: Name,
                          fd: nat)
    requires StandardFile(t, slots, d, name, fd) && |slots'| == |slots| && slots'[fd] == slots[fd]
    requires forall m | m in t ::
               m in t' && t'[m] == t[m].(kids := t'[m].kids) && forall k | k in t[m].kids :: k in t'[m].kids
    ensures StandardFile(t', slots', d, name, fd) && (EmptyAt(t, slots, fd) ==> EmptyAt(t', slots', fd))
  {
  }

  /** Loading sets leaves the standard files in place. */
  lemma StandardStays(t: Store, t': Store, slots: seq<Option<nat>>, d: nat)
    requires StandardIn(t, slots, d) && Extends(t, t')
    ensures StandardIn(t', slots, d)
  {
    assert LookupsKept(t, t', ROOT);
    forall m | m in t ensures forall k | k in t[m].kids :: k in t'[m].kids {
      assert LookupsKept(t, t', m);
    }
    StandardFileStays(t, t', slots, slots, d, [115, 116, 100, 111, 117, 116], 1);
    StandardFileStays(t, t', slots, slots, d, [115, 116, 100, 101, 114, 114], 2);
  }

  /** A child of the stdio folder that is not passed over comes out under its name with its bytes. */
  lemma StandardComesOut(t: Store, slots: seq<Option<nat>>, d: nat, name: Name, fd: nat, out: seq<Buffer>)
    requires TreeOk(t) && StandardFile(t, slots, d, name, fd) && HoldsOutputs(t, d, true, out) && !Special(name)
    ensures Buffer(name, t[slots[fd].value].content) in out
  {
    var f := slots[fd].value;
    KidAnchored(t, d, f);
    assert PathFrom(t, d, f) == [name];
    assert IsOutput(t, d, true, f);
    var fs :| OutputFor(t, d, true, fs, out);
    var i :| 0 <= i < |fs| && fs[i] == f;
    assert Ident([name]) == name;
    assert out[i] == Buffer(name, t[f].content);
  }

  /** An export of stdio: every file but those of the three, with stdout and stderr among them. */
  ghost predicate StandardExported(t: Store, slots: seq<Option<nat>>, d: nat, out: seq<Buffer>)
    requires StandardIn(t, slots, d)
  {
    && HoldsOutputs(t, d, true, out)
    && Buffer([115, 116, 100, 111, 117, 116], t[slots[1].value].content) in out
    && Buffer([115, 116, 100, 101, 114, 114], t[slots[2].value].content) in out
  }

  lemma StandardOut(t: Store, slots: seq<Option<nat>>, d: nat, ident: Path, out: seq<Buffer>)
    requires TreeOk(t) && StandardIn(t, slots, d) && Effective(ident) == [115, 116, 100, 105, 111]
    requires ExportedRight(t, ident, out)
    ensures StandardExported(t, slots, d, out)
  {
    assert !IsDot(ident) && !IsDotDot(ident);
    StandardComesOut(t, slots, d, [115, 116, 100, 111, 117, 116], 1, out);
    StandardComesOut(t, slots, d, [115, 116, 100, 101, 114, 114], 2, out);
  }

  /** stderr and stdout: a new file in the stdio folder, opened at its fixed descriptor. */
  method OpenStandard(fs: FileSystem, stdio: nat, name: Name, fd: nat)
    requires fs.Valid() && StaticRoot(fs.nodes) && Anchored(fs.nodes, stdio) && stdio != ROOT && fd < MAX_FILES
    requires fs.nodes[stdio].kind == Directory && NUL !in name && fs.slots[fd].None?
    modifies fs
    ensures fs.Valid() && StaticRoot(fs.nodes) && Anchored(fs.nodes, stdio) && fs.nodes[stdio].kind == Directory
    ensures forall i | 0 <= i < MAX_FILES && i != fd :: fs.slots[i] == old(fs.slots)[i]
    ensures GrownAt(old(fs.nodes), fs.nodes, stdio) && StandardFile(fs.nodes, fs.slots, stdio, name, fd)
    ensures EmptyAt(fs.nodes, fs.slots, fd)
  {
    assert DirOk(fs.nodes, stdio);
    ghost var t, slots := fs.nodes, fs.slots;
    var n := LinkStatic(fs, stdio, FileNode(name, stdio, []));
    ghost var u := fs.nodes;
    var _ := fs.OpenExisting(fd, n, true);
    OpenedStandard(t, stdio, n, name, slots, fd);
    OpeningMoves(u, n, stdio);
  }

  lemma FolderStays(t: Store, t': Store, d: nat)
    requires StandardFolder(t, d) && GrownAt(t, t', d) && d != ROOT
    ensures StandardFolder(t', d)
  {
    LookupSame(t, t', t[ROOT].kids, STDIO);
  }

  /** In a root that does not have it, the new folder is the one found. */
  lemma NewFolder(t: Store, n: nat)
    requires CanAdd(t, ROOT, n, StaticFolder(STDIO)) && DirOk(t, ROOT)
    requires forall y | y in t[ROOT].kids :: y in t && t[y].name == DEV
    ensures StandardFolder(AddChild(t, ROOT, n, StaticFolder(STDIO)), n)
  {
    LookupComplete(t, t[ROOT].kids, STDIO);
    NewNameLookup(t, ROOT, n, StaticFolder(STDIO));
  }

  method LinkFolders(fs: FileSystem) returns (stdio: nat)
    requires fs.Valid() && fs.nodes == BareRoot() && fs.next == 1
    modifies fs`nodes, fs`next
    ensures fs.Valid() && StaticRoot(fs.nodes) && StandardFolder(fs.nodes, stdio) && stdio != ROOT
    ensures Anchored(fs.nodes, stdio) && fs.nodes[stdio].kind == Directory
  {
    assert DirOk(fs.nodes, ROOT);
    var _ := LinkStatic(fs, ROOT, StaticFolder(DEV));
    stdio := LinkStdio(fs);
  }

  method LinkStdio(fs: FileSystem) returns (stdio: nat)
    requires fs.Valid() && StaticRoot(fs.nodes) && forall y | y in fs.nodes[ROOT].kids :: y in fs.nodes
    requires forall y | y in fs.nodes[ROOT].kids :: fs.nodes[y].name == DEV
    modifies fs`nodes, fs`next
    ensures fs.Valid() && StaticRoot(fs.nodes) && StandardFolder(fs.nodes, stdio) && stdio != ROOT
    ensures Anchored(fs.nodes, stdio) && fs.nodes[stdio].kind == Directory
  {
    assert DirOk(fs.nodes, ROOT);
    NewFolder(fs.nodes, fs.next);
    stdio := LinkStatic(fs, ROOT, StaticFolder(STDIO));
  }

  /** The first part of fs_initialize: static folders, stderr and stdout. */
  method StartUp(fs: FileSystem)
    requires fs.Valid() && fs.nodes == BareRoot() && fs.next == 1 && forall i | 0 <= i < MAX_FILES :: fs.slots[i].None?
    modifies fs
    ensures fs.Valid() && StaticRoot(fs.nodes) && exists d :: StandardIn(fs.nodes, fs.slots, d)
    ensures EmptyAt(fs.nodes, fs.slots, 1) && EmptyAt(fs.nodes, fs.slots, 2)
  {
    var stdio := LinkFolders(fs);
    ghost var t := fs.nodes;
    OpenStandard(fs, stdio, STDERR, 2);
    ghost var u, slots := fs.nodes, fs.slots;
    OpenStandard(fs, stdio, STDOUT, 1);
    FolderStays(t, u, stdio);
    FolderStays(u, fs.nodes, stdio);
    StandardFileStays(u, fs.nodes, slots, fs.slots, stdio, STDERR, 2);
    assert StandardIn(fs.nodes, fs.slots, stdio);
  }

  /** What a set must give: its own items, in path order exactly if no path continues another. */
  ghost predicate ComesBack(s: InputSet, out: seq<Buffer>) {
    multiset(out) == multiset(s.buffers) && (InPathOrder(out) <==> NoneContinued(s.buffers))
  }

  /** The sets with a name of their own come back. */
  ghost predicate OwnSetsComeBack(inputs: seq<InputSet>, outputs: seq<Path>, exported: seq<seq<Buffer>>)
    requires |exported| == |outputs|
  {
    forall k, j | 0 <= k < |inputs| && 0 <= j < |outputs| && outputs[j] == inputs[k].ident
      && OnItsOwn(inputs, k) && inputs[k].ident != [100, 101, 118] && inputs[k].ident != [115, 116, 100, 105, 111] ::
        ComesBack(inputs[k], exported[j])
  }

  lemma AllComeBack(t: Store, next: nat, inputs: seq<InputSet>, outputs: seq<Path>, exported: seq<seq<Buffer>>)
    requires TreeOk(t) && Fresh(t, next) && StaticRoot(t) && Loaded(t, next, inputs, outputs).2
    requires var r := Loaded(t, next, inputs, outputs); IsExports(r.0, r.1, outputs, |outputs|, exported)
    ensures OwnSetsComeBack(inputs, outputs, exported)
  {
    forall k, j | 0 <= k < |inputs| && 0 <= j < |outputs| && outputs[j] == inputs[k].ident
        && OnItsOwn(inputs, k) && inputs[k].ident != DEV && inputs[k].ident != STDIO
      ensures ComesBack(inputs[k], exported[j])
    {
      StaticRootNames(t, inputs[k].ident);
      SetRoundTrip(t, next, inputs, outputs, k);
    }
  }

  /** stdio, each time it is asked for, is exported whole but for the three. */
  ghost predicate StdioComesOut(t: Store, slots: seq<Option<nat>>, d: nat, outputs: seq<Path>,
                                exported: seq<seq<Buffer>>)
    requires |exported| == |outputs|
  {
    && StandardIn(t, slots, d)
    && forall j | 0 <= j < |outputs| && outputs[j] == [115, 116, 100, 105, 111] ::
         StandardExported(t, slots, d, exported[j])
  }

  lemma AllStandardOut(t: Store, bound: nat, slots: seq<Option<nat>>, d: nat, outputs: seq<Path>,
                       exported: seq<seq<Buffer>>)
    requires TreeOk(t) && Fresh(t, bound) && StandardIn(t, slots, d)
    requires IsExports(t, bound, outputs, |outputs|, exported)
    ensures StdioComesOut(t, slots, d, outputs, exported)
  {
    forall j | 0 <= j < |outputs| && outputs[j] == [115, 116, 100, 105, 111]
      ensures StandardExported(t, slots, d, exported[j])
    {
      EffectiveName(outputs[j]);
      StandardOut(t, slots, d, outputs[j], exported[j]);
    }
  }

  /** From start-up to termination: every set with a name of its own comes back as it was, and stdio
      comes out with stdout and stderr, whatever the other input and output sets are. */
  method LoadAndExport(fs: FileSystem, inputs: seq<InputSet>, outputs: seq<Path>)
    returns (ok: bool, exported: seq<seq<Buffer>>)
    requires fs.Valid() && fs.nodes == BareRoot() && fs.next == 1 && forall i | 0 <= i < MAX_FILES :: fs.slots[i].None?
    modifies fs
    ensures fs.Valid() && (ok ==> |exported| == |outputs|)
    ensures ok ==> OwnSetsComeBack(inputs, outputs, exported)
    ensures ok ==> exists d :: StdioComesOut(fs.nodes, fs.slots, d, outputs, exported)
  {
    StartUp(fs);
    ghost var t, next := fs.nodes, fs.next;
    ghost var d :| StandardIn(fs.nodes, fs.slots, d);
    exported := [];
    ok := Initialize(fs, inputs, outputs);
    if ok {
      exported := Terminate(fs.nodes, fs.next, outputs);
      AllComeBack(t, next, inputs, outputs, exported);
      StandardStays(t, fs.nodes, fs.slots, d);
      AllStandardOut(fs.nodes, fs.next, fs.slots, d, outputs, exported);
    }
  }
}
