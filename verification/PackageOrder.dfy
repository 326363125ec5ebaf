/** The order in which packages are published: the rounds that emit it and the check that admits it. */
module PackageOrder {
  // The rounds are those of `source_inventory` (release_inventory.py) and `cargo_inventory` (release_prepare.py),
  // the check is `package_order` (release_manifest.py).

  import opened Prelude
  import opened NameOrder
  import opened Digraph

  datatype Package = Package(name: Name, dependencies: seq<Name>)

  function NamesOf(packages: seq<Package>): (r: seq<Name>)
    ensures |r| == |packages| && forall i :: 0 <= i < |r| ==> r[i] == packages[i].name
  {
    seq(|packages|, i requires 0 <= i < |packages| => packages[i].name)
  }

  // --- The rounds, described without them ---------------------------------------------------------

  /** The length of the longest chain of dependencies under each package. */
  ghost predicate IsLevel(g: Graph, level: map<Name, nat>) {
    level.Keys == g.Keys && forall n :: n in g ==> LevelAt(g, level, n)
  }

  ghost predicate LevelAt(g: Graph, level: map<Name, nat>, n: Name)
    requires n in g && n in level
  {
    && (forall d :: d in g[n] ==> d in level && level[d] < level[n])
    && (level[n] > 0 ==> exists d :: d in g[n] && d in level && level[d] == level[n] - 1)
  }

  predicate Before(level: map<Name, nat>, a: Name, b: Name) {
    a in level && b in level && (level[a] < level[b] || (level[a] == level[b] && Less(a, b, -1)))
  }

  ghost predicate ByLevel(level: map<Name, nat>, names: seq<Name>) {
    forall i, j :: 0 <= i < j < |names| ==> Before(level, names[i], names[j])
  }

  /** Every package of the graph once, by level and then by name, each with its dependencies sorted. */
  ghost predicate IsEmission(g: Graph, level: map<Name, nat>, packages: seq<Package>) {
    && IsLevel(g, level)
    && ByLevel(level, NamesOf(packages))
    && (forall n :: n in NamesOf(packages) <==> n in g)
    && (forall i :: 0 <= i < |packages| && packages[i].name in g ==>
                      packages[i].dependencies == SortedSet(g[packages[i].name]))
  }

  lemma {:induction false} LevelAtMost(g: Graph, a: map<Name, nat>, b: map<Name, nat>, n: Name)
    requires IsLevel(g, a) && IsLevel(g, b) && n in g
    ensures a[n] <= b[n]
    decreases a[n]
  {
    assert LevelAt(g, a, n) && LevelAt(g, b, n);
    if a[n] > 0 {
      var d :| d in g[n] && d in a && a[d] == a[n] - 1;
      LevelAtMost(g, a, b, d);
    }
  }

  lemma LevelUnique(g: Graph, a: map<Name, nat>, b: map<Name, nat>)
    requires IsLevel(g, a) && IsLevel(g, b)
    ensures a == b
  {
    forall n | n in g ensures a[n] == b[n] {
      LevelAtMost(g, a, b, n);
      LevelAtMost(g, b, a, n);
    }
  }

  lemma BeforeAsymmetric(level: map<Name, nat>, a: Name, b: Name)
    ensures !(Before(level, a, b) && Before(level, b, a))
  {
    if a == b { Irreflexive(a, -1); } else { Trichotomy(a, b, -1); }
  }

  lemma FirstComesFirst(level: map<Name, nat>, s: seq<Name>, x: Name)
    requires ByLevel(level, s) && x in s
    ensures s[0] == x || Before(level, s[0], x)
  {
    var i :| 0 <= i < |s| && s[i] == x;
    assert i == 0 || Before(level, s[0], s[i]);
  }

  lemma FirstOfOrder(level: map<Name, nat>, s: seq<Name>, t: seq<Name>)
    requires ByLevel(level, s) && ByLevel(level, t) && s != [] && t != [] && s[0] in t && t[0] in s
    ensures s[0] == t[0]
  {
    FirstComesFirst(level, s, t[0]);
    FirstComesFirst(level, t, s[0]);
    BeforeAsymmetric(level, s[0], t[0]);
  }

  lemma OrderDistinct(level: map<Name, nat>, s: seq<Name>)
    requires ByLevel(level, s)
    ensures Distinct(s)
  {
    forall i, j | 0 <= i < j < |s| ensures s[i] != s[j] { Irreflexive(s[i], -1); }
  }

  lemma {:induction false} OrderUnique(level: map<Name, nat>, s: seq<Name>, t: seq<Name>)
    requires ByLevel(level, s) && ByLevel(level, t) && forall n :: n in s <==> n in t
    ensures s == t
    decreases |s|
  {
    assert t == [] || t[0] in t;
    if s != [] {
      assert s[0] in t;
      FirstOfOrder(level, s, t);
      OrderDistinct(level, s);
      OrderDistinct(level, t);
      forall n | n in s[1..] ensures n in t[1..] { assert n in s && n != s[0]; }
      forall n | n in t[1..] ensures n in s[1..] { assert n in t && n != t[0]; }
      OrderUnique(level, s[1..], t[1..]);
      assert s == [s[0]] + s[1..] && t == [t[0]] + t[1..];
    }
  }

  /** The order depends on the graph alone, and not on how its packages were found. */
  lemma EmissionUnique(g: Graph, l: map<Name, nat>, s: seq<Package>, m: map<Name, nat>, t: seq<Package>)
    requires IsEmission(g, l, s) && IsEmission(g, m, t)
    ensures s == t
  {
    LevelUnique(g, l, m);
    OrderUnique(l, NamesOf(s), NamesOf(t));
    forall i | 0 <= i < |s| ensures s[i] == t[i] {
      assert NamesOf(s)[i] == NamesOf(t)[i] && NamesOf(s)[i] in NamesOf(s);
    }
  }

  // --- The rounds -----------------------------------------------------------------------------------

  /** Dependencies are themselves publishable packages of the workspace: what is checked before the loop. */
  ghost predicate Closed(g: Graph) {
    forall n :: n in g ==> g[n] <= g.Keys
  }

  /** After `round` rounds. */
  ghost predicate Rounds(g: Graph, emitted: set<Name>, level: map<Name, nat>, round: nat) {
    && emitted <= g.Keys && level.Keys == emitted
    && (forall n :: n in emitted ==> level[n] < round && LevelAt(g, level, n))
    && (forall n :: n in g && n !in emitted ==> Waits(g, level, round, n))
  }

  /** A package that is not out yet waits for one that is not either, or that came out last. */
  ghost predicate Waits(g: Graph, level: map<Name, nat>, round: nat, n: Name)
    requires n in g
  {
    round > 0 ==> exists d :: d in g[n] && (d !in level || level[d] == round - 1)
  }

  function Ready(g: Graph, emitted: set<Name>): set<Name> {
    set n | n in g && n !in emitted && g[n] <= emitted
  }

  /** One round. */
  ghost function Raised(level: map<Name, nat>, ready: set<Name>, round: nat): map<Name, nat> {
    map n | n in level.Keys + ready :: if n in level then level[n] else round
  }

  lemma RaisedAt(g: Graph, emitted: set<Name>, level: map<Name, nat>, round: nat, n: Name)
    requires Rounds(g, emitted, level, round) && n in emitted + Ready(g, emitted)
    ensures LevelAt(g, Raised(level, Ready(g, emitted), round), n)
  {
    var more := Raised(level, Ready(g, emitted), round);
    if n in emitted {
      assert LevelAt(g, level, n);
      if level[n] > 0 {
        var d :| d in g[n] && d in level && level[d] == level[n] - 1;
        assert more[d] == more[n] - 1;
      }
    } else {
      assert Waits(g, level, round, n);
      if round > 0 {
        var d :| d in g[n] && (d !in level || level[d] == round - 1);
        assert d in g[n] && d in more && more[d] == more[n] - 1;
      }
    }
  }

  lemma NextRound(g: Graph, emitted: set<Name>, level: map<Name, nat>, round: nat)
    requires Rounds(g, emitted, level, round)
    ensures Rounds(g, emitted + Ready(g, emitted), Raised(level, Ready(g, emitted), round), round + 1)
  {
    var ready := Ready(g, emitted);
    var more := Raised(level, ready, round);
    forall n | n in emitted + ready ensures more[n] < round + 1 && LevelAt(g, more, n) {
      RaisedAt(g, emitted, level, round, n);
    }
    forall n | n in g && n !in emitted + ready ensures Waits(g, more, round + 1, n) {
      var d :| d in g[n] && d !in emitted;
      assert d !in more || more[d] == round;
    }
  }

  /** The names that a round adds come after all before them. */
  lemma NextNames(level: map<Name, nat>, names: seq<Name>, ready: set<Name>, round: nat)
    requires ByLevel(level, names) && (forall n :: n in names ==> n in level)
    requires (forall n :: n in level ==> level[n] < round) && ready !! level.Keys
    ensures ByLevel(Raised(level, ready, round), names + SortedSet(ready))
  {
    var more, sorted := Raised(level, ready, round), SortedSet(ready);
    var all := names + sorted;
    forall i, j | 0 <= i < j < |all| ensures Before(more, all[i], all[j]) {
      if j < |names| {
        assert Before(level, names[i], names[j]);
      } else {
        assert all[j] in sorted;
        if i < |names| { assert names[i] in names; } else { assert all[i] in sorted; }
      }
    }
  }

  lemma AllStuck(g: Graph, emitted: set<Name>)
    requires Closed(g) && emitted <= g.Keys && emitted != g.Keys && Ready(g, emitted) == {}
    ensures HasCycle(g)
  {
    var left := g.Keys - emitted;
    forall n | n in left ensures g[n] * left != {} {
      assert n !in Ready(g, emitted);
      var d :| d in g[n] && d !in emitted;
      assert d in g[n] * left;
    }
    StuckIsCyclic(g, left);
  }

  lemma ReadyAvoidsCycles(g: Graph, emitted: set<Name>, c: seq<Name>)
    requires IsCycle(g, c) && forall i :: 0 <= i < |c| ==> c[i] !in emitted
    ensures forall i :: 0 <= i < |c| ==> c[i] !in emitted + Ready(g, emitted)
  {
    forall i | 0 <= i < |c| ensures c[i] !in Ready(g, emitted) {
      var next := if i + 1 < |c| then c[i+1] else c[0];
      assert next in g[c[i]] && next !in emitted;
    }
  }

  function Packages(g: Graph, names: seq<Name>): (r: seq<Package>)
    ensures |r| == |names|
    ensures forall i :: 0 <= i < |r| ==>
              r[i].name == names[i] && (names[i] in g ==> r[i].dependencies == SortedSet(g[names[i]]))
  {
    seq(|names|, i requires 0 <= i < |names| => Package(names[i], if names[i] in g then SortedSet(g[names[i]]) else []))
  }

  ghost predicate CyclesStay(g: Graph, emitted: set<Name>) {
    forall c :: IsCycle(g, c) ==> forall i :: 0 <= i < |c| ==> c[i] !in emitted
  }

  lemma CyclesStayNext(g: Graph, emitted: set<Name>)
    requires CyclesStay(g, emitted)
    ensures CyclesStay(g, emitted + Ready(g, emitted))
  {
    forall c | IsCycle(g, c) ensures forall i :: 0 <= i < |c| ==> c[i] !in emitted + Ready(g, emitted) {
      ReadyAvoidsCycles(g, emitted, c);
    }
  }

  lemma CycleInside(g: Graph, emitted: set<Name>)
    requires HasCycle(g) && CyclesStay(g, emitted)
    ensures emitted != g.Keys
  {
    var c :| IsCycle(g, c);
    assert c[0] in g;
  }

  /** The names that are out after some rounds. */
  ghost predicate Emitted(g: Graph, names: seq<Name>, emitted: set<Name>, level: map<Name, nat>, round: nat) {
    && Rounds(g, emitted, level, round)
    && ByLevel(level, names)
    && (forall n :: n in names <==> n in emitted)
    && CyclesStay(g, emitted)
  }

  lemma EmittedNext(g: Graph, names: seq<Name>, emitted: set<Name>, level: map<Name, nat>, round: nat, ready: set<Name>)
    requires Emitted(g, names, emitted, level, round) && ready == Ready(g, emitted)
    ensures Emitted(g, names + SortedSet(ready), emitted + ready, Raised(level, ready, round), round + 1)
  {
    NextRound(g, emitted, level, round);
    NextNames(level, names, ready, round);
    CyclesStayNext(g, emitted);
    SameNames(names, SortedSet(ready), emitted, ready);
  }

  lemma SameNames(a: seq<Name>, b: seq<Name>, s: set<Name>, t: set<Name>)
    requires (forall n :: n in a <==> n in s) && (forall n :: n in b <==> n in t)
    ensures forall n :: n in a + b <==> n in s + t
  {
  }

  lemma PackagesAppend(g: Graph, a: seq<Name>, b: seq<Name>)
    ensures Packages(g, a) + Packages(g, b) == Packages(g, a + b)
  {
  }

  /** The inner loop. */
  method EmitRound(g: Graph, packages: seq<Package>, emitted: set<Name>, ready: seq<Name>)
    returns (packages': seq<Package>, emitted': set<Name>)
    requires forall n :: n in ready ==> n in g
    ensures packages' == packages + Packages(g, ready)
    ensures emitted' == emitted + set n | n in ready
  {
    packages', emitted' := packages, emitted;
    for k := 0 to |ready|
      invariant packages' == packages + Packages(g, ready[..k])
      invariant emitted' == emitted + set n | n in ready[..k]
    {
      assert ready[..k+1] == ready[..k] + [ready[k]];
      packages' := packages' + [Package(ready[k], SortedSet(g[ready[k]]))];
      emitted' := emitted' + {ready[k]};
    }
    assert ready[..|ready|] == ready;
  }

  /** One turn of the loop; `None` when no package is ready. */
  method Round(g: Graph, packages: seq<Package>, emitted: set<Name>) returns (next: Option<(seq<Package>, set<Name>)>)
    ensures next.None? <==> Ready(g, emitted) == {}
    ensures next.Some? ==>
              next.value == (packages + Packages(g, SortedSet(Ready(g, emitted))), emitted + Ready(g, emitted))
  {
    var ready := SortedSet(Ready(g, emitted));
    if ready == [] { return None; }
    var packages', emitted' := EmitRound(g, packages, emitted, ready);
    assert ready[0] in Ready(g, emitted);
    assert (set n | n in ready) == Ready(g, emitted);
    return Some((packages', emitted'));
  }

  /** The loop: `None` for "cyclic". */
  method Emit(g: Graph) returns (packages: Option<seq<Package>>, ghost level: map<Name, nat>)
    requires Closed(g)
    ensures packages.None? <==> HasCycle(g)
    ensures packages.Some? ==> IsEmission(g, level, packages.value)
  {
    var result: seq<Package> := [];
    var emitted: set<Name> := {};
    level := map[];
    ghost var round: nat, names: seq<Name> := 0, [];
    while |emitted| < |g|
      invariant Emitted(g, names, emitted, level, round)
      invariant result == Packages(g, names)
      decreases g.Keys - emitted
    {
      var next := Round(g, result, emitted);
      if next.None? {
        AllStuck(g, emitted);
        return None, level;
      }
      ghost var ready := Ready(g, emitted);
      EmittedNext(g, names, emitted, level, round, ready);
      PackagesAppend(g, names, SortedSet(ready));
      level, round, names := Raised(level, ready, round), round + 1, names + SortedSet(ready);
      result, emitted := next.value.0, next.value.1;
    }
    AllOut(g, emitted);
    if HasCycle(g) { CycleInside(g, emitted); }
    EmittedAll(g, names, level, round);
    return Some(result), level;
  }

  lemma EmittedAll(g: Graph, names: seq<Name>, level: map<Name, nat>, round: nat)
    requires Emitted(g, names, g.Keys, level, round)
    ensures IsEmission(g, level, Packages(g, names))
  {
    assert NamesOf(Packages(g, names)) == names;
  }

  lemma AllOut(g: Graph, emitted: set<Name>)
    requires emitted <= g.Keys && |emitted| >= |g|
    ensures emitted == g.Keys
  {
    if emitted != g.Keys {
      var n :| n in g && n !in emitted;
      Smaller(emitted, g.Keys - {n});
    }
  }

  lemma Smaller(s: set<Name>, t: set<Name>)
    requires s <= t
    ensures |s| <= |t|
  {
    if s != {} {
      var n :| n in s;
      Smaller(s - {n}, t - {n});
    }
  }

  // --- The check --------------------------------------------------------------------------------------

  /** Every dependency is listed once, and comes before. */
  ghost predicate DependencyOrdered(packages: seq<Package>) {
    && Distinct(NamesOf(packages))
    && forall i :: 0 <= i < |packages| ==> OrderedAt(packages, i)
  }

  ghost predicate OrderedAt(packages: seq<Package>, i: nat)
    requires i < |packages|
  {
    && Distinct(packages[i].dependencies)
    && forall d :: d in packages[i].dependencies ==> d in NamesOf(packages[..i])
  }

  ghost predicate Admitted(packages: seq<Package>) {
    |packages| <= MAX_FILES && DependencyOrdered(packages)
  }

  method AdmitDependencies(dependencies: seq<Name>, names: set<Name>, emitted: set<Name>) returns (ok: bool)
    ensures ok <==> Distinct(dependencies) && forall d :: d in dependencies ==> d in names && d in emitted
  {
    SetSize(dependencies);
    var once := set d | d in dependencies;
    ok := |dependencies| == |once| && once <= names && once <= emitted;
    assert forall d :: d in dependencies <==> d in once;
  }

  /** `package_order`. */
  method AdmitOrder(packages: seq<Package>) returns (ok: bool)
    ensures ok <==> Admitted(packages)
  {
    var names := set p | p in packages :: p.name;
    SetOfNames(packages);
    if |packages| > MAX_FILES || |names| != |packages| { return false; }
    var emitted: set<Name> := {};
    for i := 0 to |packages|
      invariant emitted == set n | n in NamesOf(packages[..i])
      invariant forall k :: 0 <= k < i ==> OrderedAt(packages, k)
    {
      NamesBefore(packages, i, names);
      ok := AdmitDependencies(packages[i].dependencies, names, emitted);
      assert ok <==> OrderedAt(packages, i);
      if !ok { return; }
      assert NamesOf(packages[..i+1]) == NamesOf(packages[..i]) + [packages[i].name];
      emitted := emitted + {packages[i].name};
    }
    return true;
  }

  lemma NamesBefore(packages: seq<Package>, i: nat, names: set<Name>)
    requires i < |packages| && names == set p | p in packages :: p.name
    ensures forall d :: d in NamesOf(packages[..i]) ==> d in names
  {
    forall d | d in NamesOf(packages[..i]) ensures d in names {
      var j :| 0 <= j < i && NamesOf(packages[..i])[j] == d;
      assert packages[j] in packages;
    }
  }

  lemma {:induction false} SetSize(s: seq<Name>)
    ensures |set n | n in s| <= |s|
    ensures |set n | n in s| == |s| <==> Distinct(s)
    decreases |s|
  {
    if s != [] {
      var rest, last := s[..|s|-1], s[|s|-1];
      SetSize(rest);
      assert s == rest + [last];
      assert (set n | n in s) == (set n | n in rest) + {last};
      if last in rest {
        var i :| 0 <= i < |rest| && rest[i] == last;
        assert s[i] == s[|s|-1];
      }
    }
  }

  lemma SetOfNames(packages: seq<Package>)
    ensures var names := set p | p in packages :: p.name; |names| == |packages| <==> Distinct(NamesOf(packages))
  {
    var names := set p | p in packages :: p.name;
    assert names == set n | n in NamesOf(packages) by {
      forall n | n in names ensures n in NamesOf(packages) {
        var p :| p in packages && p.name == n;
        var i :| 0 <= i < |packages| && packages[i] == p;
        assert NamesOf(packages)[i] == n;
      }
      forall n | n in NamesOf(packages) ensures n in names {
        var i :| 0 <= i < |packages| && NamesOf(packages)[i] == n;
        assert packages[i] in packages;
      }
    }
    SetSize(NamesOf(packages));
  }

  /**
   What the rounds give, with the package of the SDK after it, passes the check exactly when the bound leaves
   room for that.
   */
  lemma EmissionIsAdmitted(g: Graph, level: map<Name, nat>, packages: seq<Package>, sdk: Name)
    requires IsEmission(g, level, packages) && sdk !in g
    ensures Admitted(packages + [Package(sdk, [])]) <==> |g| < MAX_FILES
    ensures Admitted(packages) <==> |g| <= MAX_FILES
  {
    EmissionSize(g, level, packages);
    EmissionIsOrdered(g, level, packages, sdk);
    OrderedBefore(packages, Package(sdk, []));
  }

  lemma EmissionSize(g: Graph, level: map<Name, nat>, packages: seq<Package>)
    requires IsEmission(g, level, packages)
    ensures |packages| == |g|
  {
    var names := NamesOf(packages);
    OrderDistinct(level, names);
    SetSize(names);
    assert (set n | n in names) == g.Keys;
  }

  lemma OrderedBefore(packages: seq<Package>, last: Package)
    requires DependencyOrdered(packages + [last])
    ensures DependencyOrdered(packages)
  {
    var all := packages + [last];
    assert NamesOf(all) == NamesOf(packages) + [last.name];
    forall i, j | 0 <= i < j < |packages| ensures NamesOf(packages)[i] != NamesOf(packages)[j] {
      assert NamesOf(all)[i] != NamesOf(all)[j];
    }
    forall i | 0 <= i < |packages| ensures OrderedAt(packages, i) {
      assert OrderedAt(all, i) && all[..i] == packages[..i];
    }
  }

  lemma EmissionIsOrdered(g: Graph, level: map<Name, nat>, packages: seq<Package>, sdk: Name)
    requires IsEmission(g, level, packages) && sdk !in g
    ensures DependencyOrdered(packages + [Package(sdk, [])])
  {
    var all, names := packages + [Package(sdk, [])], NamesOf(packages);
    OrderDistinct(level, names);
    assert NamesOf(all) == names + [sdk];
    forall i | 0 <= i < |packages|
      ensures OrderedAt(all, i)
    {
      var n := packages[i].name;
      assert names[i] in names;
      AscendingDistinct(SortedSet(g[n]), -1);
      forall d | d in all[i].dependencies ensures d in NamesOf(all[..i]) {
        DependencyBefore(g, level, packages, i, d);
        assert all[..i] == packages[..i];
      }
    }
  }

  lemma DependencyBefore(g: Graph, level: map<Name, nat>, packages: seq<Package>, i: nat, d: Name)
    requires IsEmission(g, level, packages) && i < |packages| && d in packages[i].dependencies
    ensures d in NamesOf(packages[..i])
  {
    var names := NamesOf(packages);
    assert names[i] in names;
    assert LevelAt(g, level, names[i]);
    assert d in names;
    var j :| 0 <= j < |names| && names[j] == d;
    assert j <= i || Before(level, names[i], names[j]);
    assert NamesOf(packages[..i])[j] == d;
  }
}
