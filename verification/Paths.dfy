/** Archive paths (`safe_path` of release_manifest.py) and the directory tree that they name. */
module Paths {
  import opened Prelude

  /** `s[i..j]` is one of the pieces that splitting `s` at every slash gives. */
  predicate Component(s: Bytes, i: nat, j: nat) {
    && i <= j <= |s|
    && (i == 0 || s[i-1] == SLASH)
    && (j == |s| || s[j] == SLASH)
    && SLASH !in s[i..j]
  }

  predicate SafePath(s: Bytes) {
    && 0 < |s| <= 512
    && s[0] != SLASH
    && BACKSLASH !in s
    && (forall c :: c in s ==> 32 <= c < 127)
    && (forall i, j :: 0 <= i <= j <= |s| && Component(s, i, j) ==> s[i..j] !in [[], [DOT], [DOT, DOT]])
  }

  /** `d` is a proper ancestor of `s`, below the root. */
  predicate Above(d: Bytes, s: Bytes) {
    |d| < |s| && s[|d|] == SLASH && s[..|d|] == d
  }

  /** The ancestors of `s` shorter than `k`. */
  function Ancestors(s: Bytes, k: nat): (r: set<Bytes>)
    requires k <= |s|
    ensures forall d :: d in r <==> |d| < k && Above(d, s)
  {
    if k == 0 then {}
    else if s[k-1] == SLASH then Ancestors(s, k - 1) + {s[..k-1]}
    else Ancestors(s, k - 1)
  }

  function Parents(s: Bytes): (r: set<Bytes>)
    ensures forall d :: d in r <==> Above(d, s)
  {
    Ancestors(s, |s|)
  }

  lemma ParentIsSafe(s: Bytes, d: Bytes)
    requires SafePath(s) && Above(d, s)
    ensures SafePath(d)
  {
    assert |d| > 0;
    forall c | c in d ensures c in s { }
    forall i, j | 0 <= i <= j <= |d| && Component(d, i, j)
      ensures d[i..j] !in [[], [DOT], [DOT, DOT]]
    {
      assert d[i..j] == s[i..j];
      assert Component(s, i, j);
    }
  }

  lemma AboveTransitive(c: Bytes, d: Bytes, s: Bytes)
    requires Above(c, d) && Above(d, s)
    ensures Above(c, s)
  {
    assert s[..|c|] == d[..|c|];
  }

  /** A directory tree below one root: its entries by their path from there. */
  datatype Node = Directory | File(content: Bytes)
  type Tree = map<Bytes, Node>

  /** Nothing lies outside the root, and every entry lies in a directory. */
  ghost predicate WellFormed(t: Tree) {
    && (forall p :: p in t ==> SafePath(p))
    && (forall p, d :: p in t && Above(d, p) ==> d in t && t[d] == Directory)
  }

  /** `mkdir(parents=True, exist_ok=True)`: refused when a name on the way is a file. */
  function MakeDirectories(t: Tree, names: set<Bytes>): (r: Option<Tree>)
    ensures r.Some? <==> forall d :: d in names && d in t ==> t[d] == Directory
    ensures r.Some? ==> r.value.Keys == t.Keys + names
    ensures r.Some? ==> forall d :: d in r.value ==> r.value[d] == if d in t then t[d] else Directory
  {
    if forall d :: d in names && d in t ==> t[d] == Directory
    then Some(map d | d in t.Keys + names :: if d in t then t[d] else Directory)
    else None
  }

  lemma DirectoriesKeepWellFormed(t: Tree, name: Bytes)
    requires WellFormed(t) && SafePath(name)
    ensures MakeDirectories(t, Parents(name)).Some? ==> WellFormed(MakeDirectories(t, Parents(name)).value)
    ensures MakeDirectories(t, Parents(name) + {name}).Some? ==>
              WellFormed(MakeDirectories(t, Parents(name) + {name}).value)
  {
    forall d | Above(d, name) ensures SafePath(d) && forall c :: Above(c, d) ==> Above(c, name) {
      ParentIsSafe(name, d);
      forall c | Above(c, d) ensures Above(c, name) { AboveTransitive(c, d, name); }
    }
  }
}
