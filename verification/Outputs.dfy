/** Which files lie in a directory, and that the walk of add_output_from_file meets each of them once. */
module Outputs {
  import opened Prelude
  import opened Names
  import opened Paths
  import opened Tree
  import opened Walk
  import opened Sets

  /** `f` can be reached from `d` through the lists of children. */
  predicate Inside(t: Store, d: nat, f: nat)
    decreases f
  {
    f in t && (f == d || (Linked(t, f) && t[f].parent.value < f && Inside(t, d, t[f].parent.value)))
  }

  lemma {:induction false} InsideIsUnder(t: Store, d: nat, f: nat)
    requires Inside(t, d, f)
    ensures Under(t, d, f)
    decreases f
  {
    if f != d {
      InsideIsUnder(t, d, t[f].parent.value);
    }
  }

  /** Inside a child is inside its directory. */
  lemma {:induction false} InsideVia(t: Store, d: nat, x: nat, f: nat)
    requires TreeOk(t) && d in t && x in t[d].kids && Inside(t, x, f)
    ensures Inside(t, d, f) && f != d
    decreases f
  {
    KidAnchored(t, d, x);
    InsideIsUnder(t, x, f);
    UnderOrder(t, x, f);
    if f != x {
      InsideVia(t, d, x, t[f].parent.value);
    }
  }

  /** The child through which `f` is reached. */
  lemma {:induction false} InsideFirst(t: Store, d: nat, f: nat) returns (j: nat)
    requires TreeOk(t) && Inside(t, d, f) && f != d
    ensures d in t && j < |t[d].kids| && Inside(t, t[d].kids[j], f)
    decreases f
  {
    var p := t[f].parent.value;
    if p == d {
      j :| 0 <= j < |t[d].kids| && t[d].kids[j] == f;
    } else {
      j := InsideFirst(t, d, p);
    }
  }

  /** The walk gives exactly the files inside. */
  lemma {:induction false} WalkGives(t: Store, bound: nat, n: nat, f: nat)
    requires TreeOk(t) && Fresh(t, bound) && n in t
    ensures f in FilesUnder(t, bound, n) <==> Inside(t, n, f) && t[f].kind == Regular
    decreases bound - n, |t[n].kids| + 1
  {
    assert DirOk(t, n);
    if t[n].kind == Regular {
      if Inside(t, n, f) && f != n {
        var j := InsideFirst(t, n, f);
      }
    } else {
      WalkInGives(t, bound, n, 0, f);
      if Inside(t, n, f) && f != n {
        var j := InsideFirst(t, n, f);
        assert InsideFrom(t, n, 0, f);
      }
      if InsideFrom(t, n, 0, f) {
        var j :| 0 <= j < |t[n].kids| && Inside(t, t[n].kids[j], f);
        InsideVia(t, n, t[n].kids[j], f);
      }
    }
  }

  ghost predicate InsideFrom(t: Store, d: nat, i: nat, f: nat)
    requires d in t
  {
    exists j | i <= j < |t[d].kids| :: Inside(t, t[d].kids[j], f)
  }

  lemma {:induction false} WalkInGives(t: Store, bound: nat, d: nat, i: nat, f: nat)
    requires TreeOk(t) && Fresh(t, bound) && d in t && i <= |t[d].kids|
    ensures f in FilesIn(t, bound, d, i) <==> InsideFrom(t, d, i, f) && t[f].kind == Regular
    decreases bound - d, |t[d].kids| - i
  {
    assert DirOk(t, d);
    if i < |t[d].kids| {
      var x := t[d].kids[i];
      WalkGives(t, bound, x, f);
      WalkInGives(t, bound, d, i + 1, f);
      assert InsideFrom(t, d, i, f) <==> Inside(t, x, f) || InsideFrom(t, d, i + 1, f);
    }
  }

  /** Nothing is inside two children. */
  lemma InsideOne(t: Store, d: nat, i: nat, j: nat, f: nat)
    requires TreeOk(t) && d in t && i < |t[d].kids| && j < |t[d].kids|
    requires Inside(t, t[d].kids[i], f) && Inside(t, t[d].kids[j], f)
    ensures i == j
  {
    assert DirOk(t, d);
    InsideIsUnder(t, t[d].kids[i], f);
    InsideIsUnder(t, t[d].kids[j], f);
    SiblingsDisjoint(t, d, t[d].kids[i], t[d].kids[j], f);
  }

  lemma DistinctJoin(a: seq<nat>, b: seq<nat>)
    requires Distinct(a) && Distinct(b) && forall x | x in a :: x !in b
    ensures Distinct(a + b)
  {
    var c := a + b;
    forall i, j | 0 <= i < j < |c| ensures c[i] != c[j] {
      assert i < |a| ==> c[i] in a;
      assert j >= |a| ==> c[j] in b;
    }
  }

  /** And gives each once. */
  lemma {:induction false} WalkGivesOnce(t: Store, bound: nat, n: nat)
    requires TreeOk(t) && Fresh(t, bound) && n in t
    ensures Distinct(FilesUnder(t, bound, n))
    decreases bound - n, |t[n].kids| + 1
  {
    if t[n].kind != Regular {
      WalkInGivesOnce(t, bound, n, 0);
    }
  }

  lemma {:induction false} WalkInGivesOnce(t: Store, bound: nat, d: nat, i: nat)
    requires TreeOk(t) && Fresh(t, bound) && d in t && i <= |t[d].kids|
    ensures Distinct(FilesIn(t, bound, d, i))
    decreases bound - d, |t[d].kids| - i
  {
    assert DirOk(t, d);
    if i < |t[d].kids| {
      var x := t[d].kids[i];
      WalkGivesOnce(t, bound, x);
      WalkInGivesOnce(t, bound, d, i + 1);
      forall f | f in FilesUnder(t, bound, x) ensures f !in FilesIn(t, bound, d, i + 1) {
        ApartFromLater(t, bound, d, i, f);
      }
      DistinctJoin(FilesUnder(t, bound, x), FilesIn(t, bound, d, i + 1));
    }
  }

  lemma ApartFromLater(t: Store, bound: nat, d: nat, i: nat, f: nat)
    requires TreeOk(t) && Fresh(t, bound) && d in t && i < |t[d].kids| && DirOk(t, d)
    requires f in FilesUnder(t, bound, t[d].kids[i])
    ensures !InsideFrom(t, d, i + 1, f) && f !in FilesIn(t, bound, d, i + 1)
  {
    WalkGives(t, bound, t[d].kids[i], f);
    WalkInGives(t, bound, d, i + 1, f);
    forall j | i < j < |t[d].kids| ensures !Inside(t, t[d].kids[j], f) {
      if Inside(t, t[d].kids[j], f) {
        InsideOne(t, d, i, j, f);
      }
    }
  }

  /** The first name on the way to what is inside a child is the child's. */
  lemma FirstName(t: Store, d: nat, x: nat, f: nat)
    requires TreeOk(t) && d in t && x in t && x in t[d].kids && Inside(t, x, f)
    ensures Under(t, d, f) && |PathFrom(t, d, f)| > 0 && PathFrom(t, d, f)[0] == t[x].name
  {
    InsideIsUnder(t, x, f);
    PathVia(t, d, x, f);
  }
}
