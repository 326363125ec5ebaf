/**
 Python's `sorted` on names: code points compared from the left.

 For paths, whose pieces are compared one by one, the separator comes before every other character;
 -1 stands for no separator.
 */
module NameOrder {
  import opened Prelude

  // A name as UTF-8, whose bytes order as the code points do.
  type Name = Bytes

  function Rank(c: Byte, separator: int): int {
    if c == separator then -1 else c
  }

  predicate Less(a: Name, b: Name, separator: int) {
    b != [] &&
    (a == [] || Rank(a[0], separator) < Rank(b[0], separator) ||
     (a[0] == b[0] && Less(a[1..], b[1..], separator)))
  }

  /**
   The names are the same up to `k`, and there the first one ends or has the smaller byte, the separator
   being the smallest.
   */
  predicate Decides(a: Name, b: Name, separator: int, k: nat) {
    && k <= |a| && k < |b| && a[..k] == b[..k]
    && (k < |a| ==> a[k] != b[k] && b[k] != separator && (a[k] == separator || a[k] < b[k]))
  }

  lemma {:induction false} LessIff(a: Name, b: Name, separator: int)
    ensures Less(a, b, separator) <==> exists k: nat :: Decides(a, b, separator, k)
    decreases |a|
  {
    if a == [] {
      assert b != [] ==> Decides(a, b, separator, 0);
    } else if b != [] && a[0] == b[0] {
      LessIff(a[1..], b[1..], separator);
      if k: nat :| Decides(a[1..], b[1..], separator, k) {
        assert a[..k + 1] == [a[0]] + a[1..][..k] && b[..k + 1] == [b[0]] + b[1..][..k];
        assert Decides(a, b, separator, k + 1);
      }
      if k: nat :| Decides(a, b, separator, k) {
        assert k > 0 && a[1..][..k - 1] == a[..k][1..] && b[1..][..k - 1] == b[..k][1..];
        assert Decides(a[1..], b[1..], separator, k - 1);
      }
    } else if b != [] {
      assert Less(a, b, separator) ==> Decides(a, b, separator, 0);
      if k: nat :| Decides(a, b, separator, k) {
        assert k > 0 ==> a[..k][0] == b[..k][0];
      }
    }
  }

  lemma {:induction false} Trichotomy(a: Name, b: Name, separator: int)
    requires a != b
    ensures Less(a, b, separator) != Less(b, a, separator)
    decreases |a|
  {
    if a != [] && b != [] && a[0] == b[0] {
      assert a == [a[0]] + a[1..] && b == [b[0]] + b[1..];
      Trichotomy(a[1..], b[1..], separator);
    }
  }

  lemma {:induction false} Irreflexive(a: Name, separator: int)
    ensures !Less(a, a, separator)
    decreases |a|
  {
    if a != [] { Irreflexive(a[1..], separator); }
  }

  lemma {:induction false} Transitive(a: Name, b: Name, c: Name, separator: int)
    requires Less(a, b, separator) && Less(b, c, separator)
    ensures Less(a, c, separator)
    decreases |a|
  {
    if a != [] && a[0] == b[0] && b[0] == c[0] && Less(a[1..], b[1..], separator) && Less(b[1..], c[1..], separator) {
      Transitive(a[1..], b[1..], c[1..], separator);
    }
  }

  ghost predicate Ascending(s: seq<Name>, separator: int) {
    forall i, j :: 0 <= i < j < |s| ==> Less(s[i], s[j], separator)
  }

  function Insert(x: Name, s: seq<Name>, separator: int): (r: seq<Name>)
    ensures |r| == |s| + 1
    ensures forall y :: y in r <==> y == x || y in s
  {
    if s == [] || !Less(s[0], x, separator) then [x] + s
    else [s[0]] + Insert(x, s[1..], separator)
  }

  function Sort(s: seq<Name>, separator: int): (r: seq<Name>)
    ensures |r| == |s|
    ensures forall y :: y in r <==> y in s
  {
    if s == [] then [] else Insert(s[0], Sort(s[1..], separator), separator)
  }

  lemma {:induction false} InsertAscends(x: Name, s: seq<Name>, separator: int)
    requires Ascending(s, separator) && x !in s
    ensures Ascending(Insert(x, s, separator), separator)
    decreases |s|
  {
    if s != [] {
      if Less(s[0], x, separator) {
        InsertAscends(x, s[1..], separator);
        var r := Insert(x, s[1..], separator);
        forall j | 0 <= j < |r| ensures Less(s[0], r[j], separator) {
          assert r[j] in r;
          if r[j] != x {
            var k :| 0 <= k < |s[1..]| && s[1..][k] == r[j];
            assert s[k + 1] == r[j];
          }
        }
      } else {
        Trichotomy(x, s[0], separator);
        forall j | 0 <= j < |s| ensures Less(x, s[j], separator) {
          if j > 0 { Transitive(x, s[0], s[j], separator); }
        }
      }
    }
  }

  /** `sorted` on distinct names. */
  lemma {:induction false} SortAscends(s: seq<Name>, separator: int)
    requires Distinct(s)
    ensures Ascending(Sort(s, separator), separator)
    decreases |s|
  {
    if s != [] {
      assert s[0] !in s[1..];
      SortAscends(s[1..], separator);
      InsertAscends(s[0], Sort(s[1..], separator), separator);
    }
  }

  lemma AscendingDistinct(s: seq<Name>, separator: int)
    requires Ascending(s, separator)
    ensures Distinct(s)
  {
    forall i, j | 0 <= i < j < |s| ensures s[i] != s[j] { Irreflexive(s[i], separator); }
  }

  lemma FirstIsFirst(s: seq<Name>, t: seq<Name>, separator: int)
    requires Ascending(s, separator) && Ascending(t, separator)
    requires s != [] && t != [] && s[0] in t && t[0] in s
    ensures s[0] == t[0]
  {
    if s[0] != t[0] {
      Trichotomy(s[0], t[0], separator);
    }
  }

  /** Ascending sequences with the same elements are equal. */
  lemma {:induction false} AscendingUnique(s: seq<Name>, t: seq<Name>, separator: int)
    requires Ascending(s, separator) && Ascending(t, separator)
    requires forall y :: y in s <==> y in t
    ensures s == t
    decreases |s|
  {
    assert t == [] || t[0] in t;
    if s != [] {
      assert s[0] in t;
      FirstIsFirst(s, t, separator);
      AscendingDistinct(s, separator);
      AscendingDistinct(t, separator);
      forall y | y in s[1..] ensures y in t[1..] { assert y in s && y != s[0]; }
      forall y | y in t[1..] ensures y in s[1..] { assert y in t && y != t[0]; }
      AscendingUnique(s[1..], t[1..], separator);
      assert s == [s[0]] + s[1..] && t == [t[0]] + t[1..];
    }
  }

  /** So the order in which the names were found does not matter. */
  lemma SortUnique(s: seq<Name>, t: seq<Name>, separator: int)
    requires Distinct(s) && Distinct(t)
    requires forall y :: y in s <==> y in t
    ensures Sort(s, separator) == Sort(t, separator)
  {
    SortAscends(s, separator);
    SortAscends(t, separator);
    AscendingUnique(Sort(s, separator), Sort(t, separator), separator);
  }

  predicate IsLeast(s: set<Name>, n: Name) {
    n in s && forall m :: m in s ==> m == n || Less(n, m, -1)
  }

  lemma {:induction false} LeastExists(s: set<Name>)
    requires s != {}
    ensures exists n :: IsLeast(s, n)
    decreases |s|
  {
    var n :| n in s;
    var rest := s - {n};
    assert s == rest + {n};
    if rest == {} {
      assert IsLeast(s, n);
    } else {
      LeastExists(rest);
      var l :| IsLeast(rest, l);
      LeastOfMore(rest, l, n);
    }
  }

  lemma LeastOfMore(s: set<Name>, l: Name, n: Name)
    requires IsLeast(s, l) && n !in s
    ensures IsLeast(s + {n}, if Less(n, l, -1) then n else l)
  {
    Trichotomy(n, l, -1);
    if Less(n, l, -1) {
      forall m | m in s ensures Less(n, m, -1) {
        if m != l { Transitive(n, l, m, -1); }
      }
    }
  }

  lemma LeastUnique(s: set<Name>, n: Name, m: Name)
    requires IsLeast(s, n) && IsLeast(s, m)
    ensures n == m
  {
    if n != m { Trichotomy(n, m, -1); }
  }

  function Least(s: set<Name>): (n: Name)
    requires s != {}
    ensures IsLeast(s, n)
  {
    LeastExists(s);
    assert forall n, m | n in s && m in s && IsLeast(s, n) && IsLeast(s, m) :: n == m by {
      forall n, m | IsLeast(s, n) && IsLeast(s, m) ensures n == m { LeastUnique(s, n, m); }
    }
    var n :| n in s && IsLeast(s, n);
    n
  }

  /** `sorted` on a set of plain names. */
  function SortedSet(s: set<Name>): (r: seq<Name>)
    ensures |r| == |s| && forall n :: n in r <==> n in s
    ensures Ascending(r, -1)
    decreases |s|
  {
    if s == {} then []
    else
      var n := Least(s);
      var rest := SortedSet(s - {n});
      assert forall i :: 0 <= i < |rest| ==> rest[i] in rest;
      [n] + rest
  }
}
