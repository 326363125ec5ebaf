/** Unknown-field rejection of the TypeScript workspace constructors (typescript/src/fields.ts). */
module Fields {
  // The two-row programme is specified by single-character edits: `Edit(x, y)` says one insertion,
  // deletion or substitution turns `x` into `y`, and an edit path chains such steps. The distance
  // is the length of a shortest path; the recurrence `Levenshtein` is only a stepping stone.

  import opened Prelude

  // A JavaScript string is a sequence of UTF-16 code units.
  type CodeUnit = c: int | 0 <= c < 0x10000
  type Text = seq<CodeUnit>

  // --- Edit paths -------------------------------------------------------------------------

  /** Deleting `c` between `u` and `v` turns `x` into `y`. */
  ghost predicate Deletes(x: Text, y: Text, u: Text, c: CodeUnit, v: Text) {
    x == u + [c] + v && y == u + v
  }

  ghost predicate Substitutes(x: Text, y: Text, u: Text, c: CodeUnit, e: CodeUnit, v: Text) {
    x == u + [c] + v && y == u + [e] + v
  }

  ghost predicate Deletion(x: Text, y: Text) {
    exists u, c, v :: Deletes(x, y, u, c, v)
  }

  ghost predicate Substitution(x: Text, y: Text) {
    exists u, c, e, v :: Substitutes(x, y, u, c, e, v)
  }

  /** One insertion, deletion or substitution turns `x` into `y`. */
  ghost predicate Edit(x: Text, y: Text) {
    Deletion(x, y) || Deletion(y, x) || Substitution(x, y)
  }

  ghost predicate IsPath(p: seq<Text>, a: Text, b: Text) {
    && p != [] && p[0] == a && p[|p|-1] == b
    && forall i :: 0 <= i < |p| - 1 ==> Edit(p[i], p[i+1])
  }

  /** `n` edits lead from `a` to `b`, and no fewer do. */
  ghost predicate IsDistance(a: Text, b: Text, n: nat) {
    && (exists p :: IsPath(p, a, b) && |p| == n + 1)
    && (forall p :: IsPath(p, a, b) ==> n + 1 <= |p|)
  }

  // --- The recurrence ---------------------------------------------------------------------

  function Min(x: int, y: int): int { if x <= y then x else y }

  function Init(s: Text): Text requires s != [] { s[..|s|-1] }

  function Last(s: Text): CodeUnit requires s != [] { s[|s|-1] }

  ghost function Levenshtein(a: Text, b: Text): nat
    decreases |a| + |b|
  {
    if a == [] then |b|
    else if b == [] then |a|
    else Min(Min(Levenshtein(Init(a), b) + 1, Levenshtein(a, Init(b)) + 1),
             Levenshtein(Init(a), Init(b)) + if Last(a) == Last(b) then 0 else 1)
  }

  /** Appending a common suffix cannot raise the excess of one prefix over another. */
  lemma {:induction false} SuffixKeepsExcess(u: Text, w: Text, v: Text, b: Text)
    requires forall c :: Levenshtein(u, c) <= Levenshtein(w, c) + 1
    requires |u| <= |w| + 1
    ensures Levenshtein(u + v, b) <= Levenshtein(w + v, b) + 1
    decreases |v| + |b|
  {
    if v == [] {
      assert u + v == u && w + v == w;
    } else if b != [] {
      assert Init(u + v) == u + Init(v) && Init(w + v) == w + Init(v);
      SuffixKeepsExcess(u, w, Init(v), b);
      SuffixKeepsExcess(u, w, v, Init(b));
      SuffixKeepsExcess(u, w, Init(v), Init(b));
    }
  }

  lemma {:induction false} DropLastWithinOne(u: Text, c: CodeUnit, b: Text)
    ensures Levenshtein(u, b) <= Levenshtein(u + [c], b) + 1
    ensures Levenshtein(u + [c], b) <= Levenshtein(u, b) + 1
    decreases |b|
  {
    assert Init(u + [c]) == u;
    if b != [] {
      DropLastWithinOne(u, c, Init(b));
      ShorterTargetWithinOne(u, b);
    }
  }

  lemma {:induction false} ShorterTargetWithinOne(u: Text, b: Text)
    requires b != []
    ensures Levenshtein(u, b) <= Levenshtein(u, Init(b)) + 1
  {
  }

  lemma {:induction false} ReplaceLastWithinOne(u: Text, c: CodeUnit, e: CodeUnit, b: Text)
    ensures Levenshtein(u + [c], b) <= Levenshtein(u + [e], b) + 1
    decreases |b|
  {
    assert Init(u + [c]) == u && Init(u + [e]) == u;
    if b != [] {
      ReplaceLastWithinOne(u, c, e, Init(b));
      DropLastWithinOne(u, c, b);
    }
  }

  /** One edit of the source moves the recurrence by at most one. */
  lemma {:induction false} EditWithinOne(x: Text, y: Text, b: Text)
    requires Edit(x, y)
    ensures Levenshtein(x, b) <= Levenshtein(y, b) + 1
  {
    if Deletion(x, y) {
      var u, c, v :| Deletes(x, y, u, c, v);
      forall t { DropLastWithinOne(u, c, t); }
      SuffixKeepsExcess(u + [c], u, v, b);
    } else if Deletion(y, x) {
      var u, c, v :| Deletes(y, x, u, c, v);
      forall t { DropLastWithinOne(u, c, t); }
      SuffixKeepsExcess(u, u + [c], v, b);
    } else {
      var u, c, e, v :| Substitutes(x, y, u, c, e, v);
      forall t { ReplaceLastWithinOne(u, c, e, t); }
      SuffixKeepsExcess(u + [c], u + [e], v, b);
    }
  }

  lemma {:induction false} SelfDistance(a: Text)
    ensures Levenshtein(a, a) == 0
    decreases |a|
  {
    if a != [] { SelfDistance(Init(a)); }
  }

  /** No edit path is shorter than the recurrence says. */
  lemma {:induction false} PathLowerBound(p: seq<Text>, a: Text, b: Text)
    requires IsPath(p, a, b)
    ensures Levenshtein(a, b) + 1 <= |p|
    decreases |p|
  {
    if |p| == 1 {
      SelfDistance(a);
    } else {
      PathLowerBound(p[1..], p[1], b);
      assert Edit(p[0], p[0+1]);
      EditWithinOne(a, p[1], b);
    }
  }

  ghost function AppendEach(p: seq<Text>, c: CodeUnit): (r: seq<Text>)
  {
    seq(|p|, i requires 0 <= i < |p| => p[i] + [c])
  }

  lemma EditUnderSuffix(x: Text, y: Text, t: Text)
    requires Edit(x, y)
    ensures Edit(x + t, y + t)
  {
    if Deletion(x, y) {
      var u, c, v :| Deletes(x, y, u, c, v);
      DeletesUnderSuffix(x, y, u, c, v, t);
    } else if Deletion(y, x) {
      var u, c, v :| Deletes(y, x, u, c, v);
      DeletesUnderSuffix(y, x, u, c, v, t);
    } else {
      var u, c, e, v :| Substitutes(x, y, u, c, e, v);
      assert x + t == u + [c] + (v + t);
      assert y + t == u + [e] + (v + t);
      assert Substitutes(x + t, y + t, u, c, e, v + t);
    }
  }

  lemma DeletesUnderSuffix(x: Text, y: Text, u: Text, c: CodeUnit, v: Text, t: Text)
    requires Deletes(x, y, u, c, v)
    ensures Deletes(x + t, y + t, u, c, v + t)
  {
    assert x + t == u + [c] + (v + t);
    assert y + t == u + (v + t);
  }

  lemma PathUnderSuffix(p: seq<Text>, a: Text, b: Text, c: CodeUnit)
    requires IsPath(p, a, b)
    ensures IsPath(AppendEach(p, c), a + [c], b + [c])
  {
    forall i | 0 <= i < |p| - 1 ensures Edit(p[i] + [c], p[i+1] + [c]) {
      EditUnderSuffix(p[i], p[i+1], [c]);
    }
  }

  lemma DropLastIsEdit(a: Text)
    requires a != []
    ensures Edit(a, Init(a)) && Edit(Init(a), a)
  {
    assert Deletes(a, Init(a), Init(a), Last(a), []);
  }

  /** A path of exactly the recurrence's length exists. */
  lemma {:induction false} ShortestPath(a: Text, b: Text) returns (p: seq<Text>)
    ensures IsPath(p, a, b) && |p| == Levenshtein(a, b) + 1
    decreases |a| + |b|
  {
    if a == [] && b == [] {
      p := [a];
    } else if b == [] || (a != [] && Levenshtein(a, b) == Levenshtein(Init(a), b) + 1) {
      var q := ShortestPath(Init(a), b);
      DropLastIsEdit(a);
      p := [a] + q;
    } else if a == [] || Levenshtein(a, b) == Levenshtein(a, Init(b)) + 1 {
      var q := ShortestPath(a, Init(b));
      DropLastIsEdit(b);
      p := q + [b];
    } else {
      var q := ShortestPath(Init(a), Init(b));
      p := MatchLast(a, b, q);
    }
  }

  lemma {:induction false} MatchLast(a: Text, b: Text, q: seq<Text>) returns (p: seq<Text>)
    requires a != [] && b != [] && IsPath(q, Init(a), Init(b))
    ensures IsPath(p, a, b) && |p| == |q| + if Last(a) == Last(b) then 0 else 1
  {
    PathUnderSuffix(q, Init(a), Init(b), Last(b));
    p := AppendEach(q, Last(b));
    assert b == Init(b) + [Last(b)];
    if Last(a) == Last(b) {
      assert a == Init(a) + [Last(b)];
    } else {
      assert Substitutes(a, Init(a) + [Last(b)], Init(a), Last(a), Last(b), []);
      p := [a] + p;
    }
  }

  lemma LevenshteinIsDistance(a: Text, b: Text)
    ensures IsDistance(a, b, Levenshtein(a, b))
  {
    var p := ShortestPath(a, b);
    forall q | IsPath(q, a, b) { PathLowerBound(q, a, b); }
  }

  lemma DistanceUnique(a: Text, b: Text, m: nat, n: nat)
    requires IsDistance(a, b, m) && IsDistance(a, b, n)
    ensures m == n
  {
  }

  // --- Metric laws, from edit paths alone -------------------------------------------------

  lemma DistanceZero(a: Text, b: Text, n: nat)
    requires IsDistance(a, b, n)
    ensures n == 0 <==> a == b
  {
    assert IsPath([a], a, a);
  }

  ghost function Reverse(p: seq<Text>): seq<Text> {
    seq(|p|, i requires 0 <= i < |p| => p[|p|-1-i])
  }

  lemma ReversedPath(p: seq<Text>, a: Text, b: Text)
    requires IsPath(p, a, b)
    ensures IsPath(Reverse(p), b, a)
  {
    var r := Reverse(p);
    forall i | 0 <= i < |r| - 1 ensures Edit(r[i], r[i+1]) {
      assert Edit(p[|p|-2-i], p[|p|-2-i+1]);
      EditSymmetric(p[|p|-2-i], p[|p|-1-i]);
    }
  }

  lemma EditSymmetric(x: Text, y: Text)
    requires Edit(x, y)
    ensures Edit(y, x)
  {
    if Substitution(x, y) {
      var u, c, e, v :| Substitutes(x, y, u, c, e, v);
      assert Substitutes(y, x, u, e, c, v);
    }
  }

  lemma DistanceSymmetric(a: Text, b: Text, n: nat)
    requires IsDistance(a, b, n)
    ensures IsDistance(b, a, n)
  {
    var p :| IsPath(p, a, b) && |p| == n + 1;
    ReversedPath(p, a, b);
    forall q | IsPath(q, b, a) ensures n + 1 <= |q| {
      ReversedPath(q, b, a);
    }
  }

  lemma TriangleInequality(a: Text, b: Text, c: Text, m: nat, n: nat, k: nat)
    requires IsDistance(a, b, m) && IsDistance(b, c, n) && IsDistance(a, c, k)
    ensures k <= m + n
  {
    var p :| IsPath(p, a, b) && |p| == m + 1;
    var q :| IsPath(q, b, c) && |q| == n + 1;
    var r := p + q[1..];
    forall i | 0 <= i < |r| - 1 ensures Edit(r[i], r[i+1]) {
      if i < |p| - 1 {
        assert Edit(p[i], p[i+1]);
      } else {
        var j := i - (|p| - 1);
        assert r[i] == q[j] && r[i+1] == q[j+1];
        assert Edit(q[j], q[j+1]);
      }
    }
    assert IsPath(r, a, c);
  }

  // --- The two-row loop -------------------------------------------------------------------

  /** `row` starts the row of distances from `a` to the prefixes of `b`. */
  ghost predicate Row(row: seq<nat>, a: Text, b: Text) {
    |row| <= |b| + 1 && forall j :: 0 <= j < |row| ==> row[j] == Levenshtein(a, b[..j])
  }

  function Cell(up: nat, left: nat, diagonal: nat, same: bool): nat {
    Min(Min(up + 1, left + 1), diagonal + if same then 0 else 1)
  }

  lemma CellExtendsRow(a: Text, b: Text, prev: seq<nat>, cur: seq<nat>)
    requires a != [] && Row(prev, Init(a), b) && |prev| == |b| + 1
    requires Row(cur, a, b) && 1 <= |cur| <= |b|
    ensures var j := |cur|;
            Row(cur + [Cell(prev[j], cur[j-1], prev[j-1], Last(a) == b[j-1])], a, b)
  {
    var j := |cur|;
    assert Init(b[..j]) == b[..j-1];
  }

  method EditDistance(a: Text, b: Text) returns (d: nat)
    ensures IsDistance(a, b, d)
  {
    var prev: seq<nat> := seq(|b| + 1, j => j);
    var i := 1;
    while i <= |a|
      invariant 1 <= i <= |a| + 1
      invariant |prev| == |b| + 1 && Row(prev, a[..i-1], b)
    {
      var cur: seq<nat> := [i];
      assert Init(a[..i]) == a[..i-1];
      var j := 1;
      while j <= |b|
        invariant 1 <= j <= |b| + 1
        invariant |cur| == j && Row(cur, a[..i], b)
      {
        CellExtendsRow(a[..i], b, prev, cur);
        cur := cur + [Cell(prev[j], cur[j-1], prev[j-1], a[i-1] == b[j-1])];
        j := j + 1;
      }
      prev := cur;
      i := i + 1;
    }
    assert a[..|a|] == a && b[..|b|] == b;
    d := prev[|b|];
    LevenshteinIsDistance(a, b);
  }

  // --- Rejecting unknown fields -----------------------------------------------------------

  datatype Verdict = Accepted | Unknown(key: Text, suggestion: Option<Text>)

  ghost predicate Within(a: Text, b: Text, n: nat) {
    exists d: nat :: d <= n && IsDistance(a, b, d)
  }

  /** The first of `known`, in order, at the least distance from `key`, when that is at most 2. */
  ghost predicate IsClosest(key: Text, known: seq<Text>, suggestion: Option<Text>) {
    match suggestion
    case None => forall k :: k in known ==> !Within(key, k, 2)
    case Some(name) =>
      exists i: nat, d: nat ::
        && i < |known| && known[i] == name && d <= 2 && IsDistance(key, known[i], d)
        && (forall j :: 0 <= j < |known| ==> !(exists e: nat :: e < d && IsDistance(key, known[j], e)))
        && (forall j :: 0 <= j < i ==> !IsDistance(key, known[j], d))
  }

  method Closest(key: Text, known: seq<Text>) returns (suggestion: Option<Text>)
    ensures IsClosest(key, known, suggestion)
  {
    var best := 3;
    ghost var at := 0;
    suggestion := None;
    for i := 0 to |known|
      invariant 0 <= best <= 3 && (best == 3 <==> suggestion == None)
      invariant suggestion.Some? ==> 0 <= at < i && known[at] == suggestion.value && IsDistance(key, known[at], best)
      invariant suggestion.Some? ==> forall j :: 0 <= j < at ==> !IsDistance(key, known[j], best)
      invariant forall j :: 0 <= j < i ==> !exists e: nat :: e < best && IsDistance(key, known[j], e)
    {
      var d := EditDistance(key, known[i]);
      forall e: nat | IsDistance(key, known[i], e) ensures e == d {
        DistanceUnique(key, known[i], d, e);
      }
      if d < best {
        best, suggestion, at := d, Some(known[i]), i;
      }
    }
    if suggestion == None {
      forall k | k in known ensures !Within(key, k, 2) {
        var j :| 0 <= j < |known| && known[j] == k;
      }
    }
  }

  /** Accepts exactly the specs whose keys are all known; otherwise reports the first unknown key. */
  method RejectUnknownFields(keys: seq<Text>, known: seq<Text>) returns (v: Verdict)
    ensures v == Accepted <==> forall k :: k in keys ==> k in known
    ensures v.Unknown? ==> exists i: nat :: i < |keys| && keys[i] == v.key && v.key !in known
                                            && forall j :: 0 <= j < i ==> keys[j] in known
    ensures v.Unknown? ==> IsClosest(v.key, known, v.suggestion)
  {
    for i := 0 to |keys|
      invariant forall j :: 0 <= j < i ==> keys[j] in known
    {
      if keys[i] !in known {
        var suggestion := Closest(keys[i], known);
        return Unknown(keys[i], suggestion);
      }
    }
    v := Accepted;
  }
}
