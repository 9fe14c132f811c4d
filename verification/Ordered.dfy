/** Byte-lexicographic order on names and the key order of an ordered map. */
module Ordered {
  import opened Base
  import Sums

  predicate Less(a: seq<byte>, b: seq<byte>) {
    |b| > 0 && (|a| == 0 || a[0] < b[0] || (a[0] == b[0] && Less(a[1..], b[1..])))
  }

  predicate AtMost(a: seq<byte>, b: seq<byte>) {
    a == b || Less(a, b)
  }

  lemma {:induction false} LessIrreflexive(a: seq<byte>)
    ensures !Less(a, a)
  {
    if |a| > 0 { LessIrreflexive(a[1..]); }
  }

  lemma {:induction false} LessTransitive(a: seq<byte>, b: seq<byte>, c: seq<byte>)
    requires Less(a, b) && Less(b, c)
    ensures Less(a, c)
  {
    if |a| > 0 && a[0] == b[0] && b[0] == c[0] {
      LessTransitive(a[1..], b[1..], c[1..]);
    }
  }

  lemma {:induction false} LessTotal(a: seq<byte>, b: seq<byte>)
    ensures a == b || Less(a, b) || Less(b, a)
  {
    if |a| > 0 && |b| > 0 && a[0] == b[0] {
      LessTotal(a[1..], b[1..]);
      assert a == [a[0]] + a[1..] && b == [b[0]] + b[1..];
    }
  }

  lemma LessAsymmetric(a: seq<byte>, b: seq<byte>)
    requires Less(a, b)
    ensures !Less(b, a) && a != b
  {
    if Less(b, a) { LessTransitive(a, b, a); }
    LessIrreflexive(a);
  }

  /** Strictly ascending, so free of duplicates. */
  predicate Ascending(s: seq<Text>) {
    forall i, j :: 0 <= i < j < |s| ==> Less(s[i], s[j])
  }

  /** A name above the last of an ascending sequence is above them all. */
  lemma AscendingExtend(s: seq<Text>, k: Text)
    requires Ascending(s) && (s == [] || Less(s[|s| - 1], k))
    ensures Ascending(s + [k])
  {
    forall i | 0 <= i < |s| ensures Less(s[i], k) {
      if i < |s| - 1 { LessTransitive(s[i], s[|s| - 1], k); }
    }
  }

  lemma AscendingDistinct(keys: seq<Text>)
    requires Ascending(keys)
    ensures Sums.Distinct(keys)
  {
    forall i, j | 0 <= i < j < |keys| ensures keys[i] != keys[j] { LessIrreflexive(keys[i]); }
  }

  predicate IsLeast(k: Text, s: set<Text>) {
    k in s && forall j :: j in s ==> AtMost(k, j)
  }

  lemma {:induction false} LeastExists(s: set<Text>)
    requires s != {}
    ensures exists k: Text :: IsLeast(k, s)
    decreases |s|
  {
    var x :| x in s;
    if s == {x} {
      assert IsLeast(x, s);
    } else {
      var rest := s - {x};
      assert rest < s;
      LeastExists(rest);
      var m: Text :| IsLeast(m, rest);
      LessTotal(x, m);
      if Less(x, m) {
        forall j | j in s ensures AtMost(x, j) {
          if j != x && j != m {
            assert j in rest;
            LessTransitive(x, m, j);
          }
        }
        assert IsLeast(x, s);
      } else {
        assert IsLeast(m, s);
      }
    }
  }

  lemma LeastUnique(a: Text, b: Text, s: set<Text>)
    requires IsLeast(a, s) && IsLeast(b, s)
    ensures a == b
  {
    if a != b { LessAsymmetric(a, b); }
  }

  function Least(s: set<Text>): (k: Text)
    requires s != {}
    ensures IsLeast(k, s)
  {
    LeastExists(s);
    assert forall a: Text, b: Text | IsLeast(a, s) && IsLeast(b, s) :: a == b by {
      forall a: Text, b: Text | IsLeast(a, s) && IsLeast(b, s) ensures a == b { LeastUnique(a, b, s); }
    }
    var k: Text :| k in s && IsLeast(k, s);
    k
  }

  /** The key order in which an ordered map holding exactly `s` iterates. */
  function Sorted(s: set<Text>): (r: seq<Text>)
    ensures forall k :: k in r <==> k in s
    decreases |s|
  {
    if s == {} then [] else
    var k := Least(s);
    var r := [k] + Sorted(s - {k});
    assert forall j :: j in r <==> j == k || j in s - {k};
    r
  }

  lemma {:induction false} SortedAscends(s: set<Text>)
    ensures Ascending(Sorted(s)) && |Sorted(s)| == |s|
    decreases |s|
  {
    hide Less, Utf8;
    if s != {} {
      var k := Least(s);
      var rest := Sorted(s - {k});
      var r := [k] + rest;
      SortedAscends(s - {k});
      forall i, j | 0 <= i < j < |r| ensures Less(r[i], r[j]) {
        assert r[j] == rest[j - 1] && rest[j - 1] in rest;
        if i > 0 { assert r[i] == rest[i - 1]; }
      }
      assert Sorted(s) == r;
    }
  }

  lemma Inhabited(s: seq<Text>)
    requires s != []
    ensures exists k: Text :: k in s
  {
    assert s[0] in s;
  }

  /** An ascending sequence is determined by its elements. */
  lemma {:induction false} AscendingUnique(a: seq<Text>, b: seq<Text>)
    requires Ascending(a) && Ascending(b)
    requires forall k :: k in a <==> k in b
    ensures a == b
  {
    if a == [] && b == [] {
    } else if a == [] || b == [] {
      Inhabited(a + b);
      assert false;
    } else {
      assert a[0] in b && b[0] in a;
      var i :| 0 <= i < |b| && b[i] == a[0];
      var j :| 0 <= j < |a| && a[j] == b[0];
      if i > 0 {
        if j > 0 { LessAsymmetric(a[0], b[0]); }
        LessIrreflexive(a[0]);
        assert false;
      }
      forall k ensures k in a[1..] <==> k in b[1..] {
        if k in a[1..] {
          var p :| 0 < p < |a| && a[p] == k;
          LessIrreflexive(k);
          assert k in b;
        }
        if k in b[1..] {
          var p :| 0 < p < |b| && b[p] == k;
          LessIrreflexive(k);
          assert k in a;
        }
      }
      AscendingUnique(a[1..], b[1..]);
      assert a == [a[0]] + a[1..] && b == [b[0]] + b[1..];
    }
  }

  lemma SortedIs(s: set<Text>, r: seq<Text>)
    requires Ascending(r) && forall k :: k in r <==> k in s
    ensures Sorted(s) == r
  {
    SortedAscends(s);
    AscendingUnique(Sorted(s), r);
  }
}
