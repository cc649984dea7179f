/** Names in fixed-size or length-delimited buffers, file_system/paths.h. */
module Names {
  import opened Prelude

  type Name = seq<CChar>

  /** What a buffer says: everything before the first NUL. */
  function Effective(buffer: seq<CChar>): (name: Name)
    ensures |name| <= |buffer| && name == buffer[..|name|] && NUL !in name
    ensures |name| < |buffer| ==> buffer[|name|] == NUL
  {
    if buffer == [] || buffer[0] == NUL then [] else [buffer[0]] + Effective(buffer[1..])
  }

  lemma {:induction false} EffectiveName(name: Name)
    requires NUL !in name
    ensures Effective(name) == name
  {
    if name != [] {
      EffectiveName(name[1..]);
    }
  }

  /** Lexicographic order: negative, zero or positive. */
  function Compare(a: Name, b: Name): int {
    if a == [] && b == [] then 0
    else if a == [] then -1
    else if b == [] then 1
    else if a[0] == b[0] then Compare(a[1..], b[1..])
    else if a[0] < b[0] then -1 else 1
  }

  lemma {:induction false} CompareZero(a: Name, b: Name)
    ensures Compare(a, b) == 0 <==> a == b
  {
    if a != [] && b != [] {
      CompareZero(a[1..], b[1..]);
      if a[0] == b[0] && a[1..] == b[1..] {
        assert a == [a[0]] + a[1..] && b == [b[0]] + b[1..];
      }
    }
  }

  lemma {:induction false} CompareFlip(a: Name, b: Name)
    ensures Compare(a, b) == -Compare(b, a)
  {
    if a != [] && b != [] && a[0] == b[0] {
      CompareFlip(a[1..], b[1..]);
    }
  }

  lemma {:induction false} CompareTransitive(a: Name, b: Name, c: Name)
    requires Compare(a, b) <= 0 && Compare(b, c) <= 0
    ensures Compare(a, c) <= 0
    ensures Compare(a, b) < 0 || Compare(b, c) < 0 ==> Compare(a, c) < 0
  {
    if a != [] && b != [] && c != [] && a[0] == b[0] == c[0] {
      CompareTransitive(a[1..], b[1..], c[1..]);
    }
  }

  /** The names agree before `k`, and there `a` ends or has the smaller character. */
  predicate PartAt(a: Name, b: Name, k: nat) {
    k <= |a| && k < |b| && a[..k] == b[..k] && (k == |a| || a[k] < b[k])
  }

  /** `a` comes before `b` in a dictionary. */
  ghost predicate Precedes(a: Name, b: Name) {
    exists k: nat :: PartAt(a, b, k)
  }

  /** Compare is the order of a dictionary. */
  lemma {:induction false} CompareIsLexicographic(a: Name, b: Name)
    ensures Compare(a, b) < 0 <==> Precedes(a, b)
  {
    if b == [] {
    } else if a == [] {
      assert PartAt(a, b, 0);
    } else if a[0] == b[0] {
      CompareIsLexicographic(a[1..], b[1..]);
      if k: nat :| PartAt(a[1..], b[1..], k) {
        assert a[..k + 1] == [a[0]] + a[1..][..k] && b[..k + 1] == [b[0]] + b[1..][..k];
        assert PartAt(a, b, k + 1);
      }
      if k: nat :| PartAt(a, b, k) {
        assert k > 0 && a[1..][..k - 1] == a[..k][1..] && b[1..][..k - 1] == b[..k][1..];
        assert PartAt(a[1..], b[1..], k - 1);
      }
    } else {
      assert a[0] < b[0] ==> PartAt(a, b, 0);
      if k: nat :| PartAt(a, b, k) && k > 0 {
        SameHead(a, b, k);
      }
    }
  }

  lemma SameHead<T>(a: seq<T>, b: seq<T>, k: nat)
    requires 0 < k <= |a| && k <= |b| && a[..k] == b[..k]
    ensures a[0] == b[0]
  {
    assert a[..k][0] == b[..k][0];
  }

  lemma ComparisonMeans(a: Name, b: Name)
    ensures Compare(a, b) < 0 <==> Precedes(a, b)
    ensures Compare(a, b) == 0 <==> a == b
    ensures Compare(a, b) > 0 <==> Precedes(b, a)
  {
    CompareIsLexicographic(a, b);
    CompareIsLexicographic(b, a);
    CompareFlip(a, b);
    CompareZero(a, b);
  }

  /** Stripping a common character that is not NUL changes neither side's part in the order. */
  lemma CompareStep(a: seq<CChar>, b: seq<CChar>, i: nat)
    requires i < |a| && i < |b| && a[i] == b[i] != NUL
    ensures Compare(Effective(a[i..]), Effective(b[i..])) == Compare(Effective(a[i + 1..]), Effective(b[i + 1..]))
  {
    var x, y := Effective(a[i..]), Effective(b[i..]);
    assert a[i..][1..] == a[i + 1..] && b[i..][1..] == b[i + 1..];
    assert x == [a[i]] + Effective(a[i + 1..]) && y == [b[i]] + Effective(b[i + 1..]);
    assert x[1..] == Effective(a[i + 1..]) && y[1..] == Effective(b[i + 1..]);
  }

  /** namelen */
  method NameLen(name: seq<CChar>, max: nat) returns (length: nat)
    requires max <= |name|
    ensures length == |Effective(name[..max])|
  {
    length := 0;
    while length < max && name[length] != NUL
      invariant length <= max
      invariant |Effective(name[..max])| == length + |Effective(name[length..max])|
    {
      assert name[length..max][1..] == name[length + 1..max];
      length := length + 1;
    }
  }

  /** namecmp orders two buffers as a dictionary orders the names in them. */
  method NameCmp(name1: seq<CChar>, length1: nat, name2: seq<CChar>, length2: nat) returns (r: int)
    requires length1 <= |name1| && length2 <= |name2|
    ensures r == Compare(Effective(name1[..length1]), Effective(name2[..length2]))
    ensures r < 0 <==> Precedes(Effective(name1[..length1]), Effective(name2[..length2]))
    ensures r == 0 <==> Effective(name1[..length1]) == Effective(name2[..length2])
    ensures r > 0 <==> Precedes(Effective(name2[..length2]), Effective(name1[..length1]))
  {
    ComparisonMeans(Effective(name1[..length1]), Effective(name2[..length2]));
    ghost var a, b := name1[..length1], name2[..length2];
    var max := if length1 < length2 then length1 else length2;
    var index := 0;
    assert a[0..] == a && b[0..] == b;
    while index < max
      invariant index <= max
      invariant Compare(Effective(a), Effective(b)) == Compare(Effective(a[index..]), Effective(b[index..]))
    {
      if name1[index] == name2[index] && name1[index] != NUL {
        CompareStep(a, b, index);
        index := index + 1;
        continue;
      }
      if name1[index] == NUL && name2[index] == NUL {
        return 0;
      } else if name1[index] == NUL {
        return -1;
      } else if name2[index] == NUL {
        return 1;
      } else {
        return if name1[index] < name2[index] then -1 else 1;
      }
    }
    if length1 < length2 && name2[index] != NUL {
      return -1;
    } else if length2 < length1 && name1[index] != NUL {
      return 1;
    } else {
      return 0;
    }
  }
}
