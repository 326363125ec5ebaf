/** Dependency graphs, their cycles, and the rounds in which a graph without cycles can be emitted. */
module Digraph {
  import opened Prelude
  import opened NameOrder

  /** From a node to the nodes that it depends on. */
  type Graph = map<Name, set<Name>>

  /** Every node of `c` depends on the next one, and the last on the first. */
  ghost predicate IsCycle(g: Graph, c: seq<Name>) {
    && c != []
    && (forall i :: 0 <= i < |c| ==> c[i] in g)
    && (forall i :: 0 <= i < |c| - 1 ==> c[i+1] in g[c[i]])
    && c[0] in g[c[|c|-1]]
  }

  ghost predicate HasCycle(g: Graph) {
    exists c :: IsCycle(g, c)
  }

  /** A chain of dependencies without a repetition. */
  ghost predicate IsChain(g: Graph, p: seq<Name>, within: set<Name>) {
    && p != [] && Distinct(p)
    && (forall i :: 0 <= i < |p| ==> p[i] in within && p[i] in g)
    && (forall i :: 0 <= i < |p| - 1 ==> p[i+1] in g[p[i]])
  }

  lemma ChainFits(p: seq<Name>, s: set<Name>)
    requires Distinct(p) && forall i :: 0 <= i < |p| ==> p[i] in s
    ensures |p| <= |s|
    decreases |p|
  {
    if p != [] {
      var last := p[|p|-1];
      var rest := p[..|p|-1];
      forall i | 0 <= i < |rest| ensures rest[i] in s - {last} { assert rest[i] == p[i]; }
      ChainFits(rest, s - {last});
    }
  }

  /** Where every node still depends on another one of `s`, following dependencies closes a cycle. */
  lemma {:induction false} StuckHasCycle(g: Graph, s: set<Name>, p: seq<Name>)
    requires s <= g.Keys && IsChain(g, p, s)
    requires forall n :: n in s ==> g[n] * s != {}
    ensures HasCycle(g)
    decreases |s| - |p|
  {
    ChainFits(p, s);
    var last := p[|p|-1];
    var next :| next in g[last] * s;
    if next in p {
      var j :| 0 <= j < |p| && p[j] == next;
      var c := p[j..];
      assert IsCycle(g, c);
    } else {
      var q := p + [next];
      assert IsChain(g, q, s);
      ChainFits(q, s);
      StuckHasCycle(g, s, q);
    }
  }

  lemma StuckIsCyclic(g: Graph, s: set<Name>)
    requires s != {} && s <= g.Keys && forall n :: n in s ==> g[n] * s != {}
    ensures HasCycle(g)
  {
    var n :| n in s;
    assert IsChain(g, [n], s);
    StuckHasCycle(g, s, [n]);
  }

  /** A cycle never gets out of `s` one by one: no node of it is the first without dependencies in `s`. */
  lemma CycleStays(g: Graph, c: seq<Name>, s: set<Name>, ready: set<Name>)
    requires IsCycle(g, c) && (forall i :: 0 <= i < |c| ==> c[i] in s)
    requires forall n :: n in ready ==> n in g && g[n] * s == {}
    ensures forall i :: 0 <= i < |c| ==> c[i] in s - ready
  {
    forall i | 0 <= i < |c| ensures c[i] !in ready {
      var next := if i + 1 < |c| then c[i+1] else c[0];
      assert next in g[c[i]] * s;
    }
  }
}
