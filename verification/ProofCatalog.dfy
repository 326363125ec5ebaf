/** The depth-first admission of proof modules, `load_catalog` of `tlaps_catalog.py`. */
module ProofCatalog {
  import opened Prelude

  /** What the source readers make of a module: its imports and its theorems, or `None` for an error. */
  datatype Spec = Spec(imports: Option<seq<string>>, theorems: Option<set<string>>)
  type Specs = map<string, Spec>

  const STANDARD: set<string> := {"Integers", "Naturals", "FiniteSets", "Sequences", "TLAPS"}

  /** The frozen theorem names of each registered unit. */
  type Registered = map<string, set<string>>

  // --- What is to be admitted -------------------------------------------------------------------

  predicate Imports(specs: Specs, m: string, d: string) {
    m !in STANDARD && m in specs && specs[m].imports.Some? && d in specs[m].imports.value
  }

  /** A chain of imports from a root. */
  ghost predicate IsPath(roots: seq<string>, specs: Specs, p: seq<string>) {
    p != [] && p[0] in roots && forall i :: 0 <= i < |p| - 1 ==> Imports(specs, p[i], p[i+1])
  }

  /** A module that is fine by itself. */
  predicate Fine(specs: Specs, registered: Registered, m: string) {
    if m in STANDARD then m !in specs
    else
      && m in specs && specs[m].imports.Some? && specs[m].theorems.Some?
      && (specs[m].theorems.value != {} ==> m in registered && registered[m] == specs[m].theorems.value)
  }

  /** Every module that a root reaches is fine, and no chain of imports comes back to a module. */
  ghost predicate Sound(roots: seq<string>, specs: Specs, registered: Registered) {
    forall p :: IsPath(roots, specs, p) ==> Fine(specs, registered, p[|p|-1]) && Distinct(p)
  }

  ghost predicate Reached(roots: seq<string>, specs: Specs, m: string) {
    exists p :: IsPath(roots, specs, p) && p[|p|-1] == m
  }

  predicate Bears(specs: Specs, m: string) {
    m in specs && specs[m].theorems.Some? && specs[m].theorems.value != {}
  }

  /** The units are exactly the reached modules with theorems, and there are some. */
  ghost predicate Complete(roots: seq<string>, specs: Specs, registered: Registered) {
    && registered.Keys != {}
    && forall m :: m in registered <==> m !in STANDARD && Reached(roots, specs, m) && Bears(specs, m)
  }

  // --- What is listed -----------------------------------------------------------------------------

  /** Without repetition, fine, and each import before its importer. */
  ghost predicate Ordered(specs: Specs, registered: Registered, sources: seq<string>) {
    && Distinct(sources)
    && (forall i :: 0 <= i < |sources| ==> sources[i] !in STANDARD && Fine(specs, registered, sources[i]))
    && (forall i, d :: 0 <= i < |sources| && Imports(specs, sources[i], d) ==> Admitted(specs, sources[..i], d))
  }

  predicate Admitted(specs: Specs, sources: seq<string>, m: string) {
    if m in STANDARD then m !in specs else m in sources
  }

  function Units(specs: Specs, sources: seq<string>): seq<string> {
    if sources == [] then []
    else
      var last := sources[|sources|-1];
      Units(specs, sources[..|sources|-1]) + if Bears(specs, last) then [last] else []
  }

  lemma {:induction false} UnitsAre(specs: Specs, sources: seq<string>, m: string)
    ensures m in Units(specs, sources) <==> m in sources && Bears(specs, m)
    decreases |sources|
  {
    if sources != [] {
      UnitsAre(specs, sources[..|sources|-1], m);
      assert m in sources <==> m in sources[..|sources|-1] || m == sources[|sources|-1];
    }
  }

  /** The units stand in the order of the modules. */
  lemma {:induction false} UnitsKeepOrder(specs: Specs, sources: seq<string>, i: nat, j: nat) returns (a: nat, b: nat)
    requires i < j < |Units(specs, sources)|
    ensures a < b < |sources| && sources[a] == Units(specs, sources)[i] && sources[b] == Units(specs, sources)[j]
    decreases |sources|
  {
    var before, last := sources[..|sources|-1], sources[|sources|-1];
    var units := Units(specs, before);
    if j < |units| {
      a, b := UnitsKeepOrder(specs, before, i, j);
    } else {
      UnitsAre(specs, before, units[i]);
      a :| 0 <= a < |before| && before[a] == units[i];
      b := |sources| - 1;
    }
  }

  lemma OrderedNext(specs: Specs, registered: Registered, sources: seq<string>, m: string)
    requires Ordered(specs, registered, sources) && m !in sources && m !in STANDARD && Fine(specs, registered, m)
    requires forall d :: Imports(specs, m, d) ==> Admitted(specs, sources, d)
    ensures Ordered(specs, registered, sources + [m])
  {
    var more := sources + [m];
    forall i, d | 0 <= i < |more| && Imports(specs, more[i], d) ensures Admitted(specs, more[..i], d) {
      assert more[..i] == sources[..i];
    }
  }

  /** Everything before the last module of `p` stands after it in the list. */
  ghost predicate Descends(sources: seq<string>, p: seq<string>)
    requires p != []
  {
    exists k :: 0 <= k < |sources| && DescendsTo(sources, p, k)
  }

  predicate DescendsTo(sources: seq<string>, p: seq<string>, k: nat)
    requires p != [] && k < |sources|
  {
    sources[k] == p[|p|-1] && forall i :: 0 <= i < |p| - 1 ==> p[i] in sources[k+1..]
  }

  /** Along a chain of imports the position in the list goes down. */
  lemma {:induction false} PathDescends(roots: seq<string>, specs: Specs, registered: Registered, sources: seq<string>,
                                        p: seq<string>)
    requires IsPath(roots, specs, p) && Ordered(specs, registered, sources)
    requires forall r :: r in roots ==> Admitted(specs, sources, r)
    ensures Admitted(specs, sources, p[|p|-1]) && Distinct(p)
    ensures p[|p|-1] !in STANDARD ==> Descends(sources, p)
    ensures p[|p|-1] in STANDARD ==> forall i :: 0 <= i < |p| - 1 ==> p[i] !in STANDARD
    decreases |p|
  {
    var last := p[|p|-1];
    if |p| == 1 {
      if last !in STANDARD {
        var k :| 0 <= k < |sources| && sources[k] == last;
        assert DescendsTo(sources, p, k);
      }
    } else {
      var before := p[..|p|-1];
      PathDescends(roots, specs, registered, sources, before);
      assert p == before + [last] && Imports(specs, before[|before|-1], last);
      var k: nat :| k < |sources| && DescendsTo(sources, before, k);
      assert Admitted(specs, sources[..k], last);
      if last !in STANDARD { ImportedBefore(sources, before, k, last); }
    }
  }

  lemma ImportedBefore(sources: seq<string>, before: seq<string>, k: nat, last: string)
    requires k < |sources| && Distinct(sources) && before != [] && DescendsTo(sources, before, k)
    requires last in sources[..k]
    ensures Descends(sources, before + [last]) && last !in before
  {
    var j :| 0 <= j < k && sources[..k][j] == last;
    forall i | 0 <= i < |before| ensures before[i] in sources[j+1..] {
      if i < |before| - 1 {
        var x :| 0 <= x < |sources[k+1..]| && sources[k+1..][x] == before[i];
        assert sources[j+1..][k - j + x] == before[i];
      } else {
        assert sources[j+1..][k - j - 1] == before[i];
      }
    }
    assert DescendsTo(sources, before + [last], j);
  }

  // --- The search -------------------------------------------------------------------------------------

  /** Some chain of imports shows that the catalog is not to be admitted. */
  ghost predicate Unsound(roots: seq<string>, specs: Specs, registered: Registered) {
    exists p :: IsPath(roots, specs, p) && !(Fine(specs, registered, p[|p|-1]) && Distinct(p))
  }

  /** The variables that the nested function `visit` shares with `load_catalog`. */
  class Loader {
    const roots: seq<string>
    const specs: Specs
    const registered: Registered
    var visiting: set<string>
    var visited: set<string>
    var sources: seq<string>
    var units: seq<string>

    constructor (roots: seq<string>, specs: Specs, registered: Registered)
      ensures this.roots == roots && this.specs == specs && this.registered == registered
      ensures Valid() && visiting == {} && sources == []
    {
      this.roots, this.specs, this.registered := roots, specs, registered;
      visiting, visited, sources, units := {}, {}, [], [];
    }

    ghost predicate Valid()
      reads this
    {
      && visiting !! visited
      && (forall m :: m in visited <==> m in sources)
      && Ordered(specs, registered, sources)
      && units == Units(specs, sources)
      && (forall m :: m in sources ==> Reached(roots, specs, m))
    }

    /** `path` is the chain of modules being visited. */
    ghost predicate On(path: seq<string>)
      reads this
    {
      && (forall m :: m in visiting <==> m in path)
      && (path == [] || IsPath(roots, specs, path))
    }

    ghost predicate Next(path: seq<string>, name: string)
      reads this
    {
      if path == [] then name in roots else Imports(specs, path[|path|-1], name)
    }

    lemma PathNext(path: seq<string>, name: string)
      requires On(path) && Next(path, name)
      ensures IsPath(roots, specs, path + [name]) && (path + [name])[|path|] == name
    {
    }

    lemma BackToPath(path: seq<string>, name: string)
      requires On(path) && Next(path, name) && name in path
      ensures Unsound(roots, specs, registered)
    {
      var p := path + [name];
      PathNext(path, name);
      var i :| 0 <= i < |path| && path[i] == name;
      assert p[i] == p[|path|];
      assert !Distinct(p);
    }

    lemma NotFine(path: seq<string>, name: string)
      requires On(path) && Next(path, name) && !Fine(specs, registered, name)
      ensures Unsound(roots, specs, registered)
    {
      PathNext(path, name);
    }

    /** `visit`. */
    method Visit(name: string, ghost path: seq<string>) returns (ok: bool)
      requires Valid() && On(path) && Next(path, name)
      modifies this`visiting, this`visited, this`sources, this`units
      ensures ok ==> Valid() && visiting == old(visiting) && old(sources) <= sources && Admitted(specs, sources, name)
      ensures !ok ==> Unsound(roots, specs, registered)
      decreases specs.Keys - visiting, 1
    {
      if name in STANDARD {
        if name in specs { NotFine(path, name); }
        return name !in specs;
      }
      if name in visiting {
        BackToPath(path, name);
        return false;
      }
      if name in visited { return true; }
      if name !in specs || specs[name].imports.None? {
        NotFine(path, name);
        return false;
      }
      PathNext(path, name);
      visiting := visiting + {name};
      ok := VisitImports(name, specs[name].imports.value, path + [name]);
      if !ok { return; }
      visiting := visiting - {name};
      ok := Finish(name, path);
    }

    /** The loop over a module's imports. */
    method VisitImports(name: string, imports: seq<string>, ghost path: seq<string>) returns (ok: bool)
      requires Valid() && On(path) && path != [] && path[|path|-1] == name && name in specs && name !in STANDARD
      requires specs[name].imports == Some(imports)
      modifies this`visiting, this`visited, this`sources, this`units
      ensures ok ==> Valid() && visiting == old(visiting) && old(sources) <= sources
      ensures ok ==> forall d :: d in imports ==> Admitted(specs, sources, d)
      ensures !ok ==> Unsound(roots, specs, registered)
      decreases specs.Keys - visiting, 2
    {
      for i := 0 to |imports|
        invariant Valid() && visiting == old(visiting) && old(sources) <= sources
        invariant forall j :: 0 <= j < i ==> Admitted(specs, sources, imports[j])
      {
        ghost var before := sources;
        assert imports[i] in imports;
        ok := Visit(imports[i], path);
        if !ok { return; }
        forall j | 0 <= j < i ensures Admitted(specs, sources, imports[j]) {
          assert Admitted(specs, before, imports[j]);
        }
      }
      return true;
    }

    /** What `visit` does after the imports. */
    method Finish(name: string, ghost path: seq<string>) returns (ok: bool)
      requires Valid() && On(path) && Next(path, name)
      requires name !in STANDARD && name !in visited && name !in visiting && name in specs && specs[name].imports.Some?
      requires forall d :: d in specs[name].imports.value ==> Admitted(specs, sources, d)
      modifies this`visited, this`sources, this`units
      ensures ok ==> Valid() && old(sources) <= sources && Admitted(specs, sources, name)
      ensures !ok ==> Unsound(roots, specs, registered)
    {
      var theorems := specs[name].theorems;
      if theorems.None? || (theorems.value != {} && (name !in registered || registered[name] != theorems.value)) {
        NotFine(path, name);
        return false;
      }
      PathNext(path, name);
      OrderedNext(specs, registered, sources, name);
      assert (sources + [name])[..|sources|] == sources;
      visited := visited + {name};
      sources := sources + [name];
      if theorems.value != {} { units := units + [name]; } else { assert units + [] == units; }
      return true;
    }
  }

  // --- The whole function -------------------------------------------------------------------------------

  lemma {:induction false} PathStaysAdmitted(roots: seq<string>, specs: Specs, registered: Registered,
                                             sources: seq<string>, p: seq<string>)
    requires IsPath(roots, specs, p) && Ordered(specs, registered, sources)
    requires forall r :: r in roots ==> Admitted(specs, sources, r)
    ensures Fine(specs, registered, p[|p|-1]) && Distinct(p) && (p[|p|-1] !in STANDARD ==> p[|p|-1] in sources)
  {
    PathDescends(roots, specs, registered, sources, p);
    var last := p[|p|-1];
    if last !in STANDARD {
      var k :| 0 <= k < |sources| && sources[k] == last;
    }
  }

  /** A list that admits the roots shows that the catalog is sound, and has exactly the reached modules. */
  lemma AdmittedIsSound(roots: seq<string>, specs: Specs, registered: Registered, sources: seq<string>)
    requires Ordered(specs, registered, sources) && forall r :: r in roots ==> Admitted(specs, sources, r)
    requires forall m :: m in sources ==> Reached(roots, specs, m)
    ensures Sound(roots, specs, registered)
    ensures forall m :: m in sources <==> m !in STANDARD && Reached(roots, specs, m)
  {
    forall p | IsPath(roots, specs, p) ensures Fine(specs, registered, p[|p|-1]) && Distinct(p) {
      PathStaysAdmitted(roots, specs, registered, sources, p);
    }
    forall m | m !in STANDARD && Reached(roots, specs, m) ensures m in sources {
      var p :| IsPath(roots, specs, p) && p[|p|-1] == m;
      PathStaysAdmitted(roots, specs, registered, sources, p);
    }
    forall m | m in sources ensures m !in STANDARD { }
  }

  /** The modules of an accepted catalog. */
  datatype Catalog = Catalog(sources: seq<string>, units: seq<string>)

  /** Everything reached, once, each import before its importer; and the units among it, in the same order. */
  ghost predicate IsCatalog(roots: seq<string>, specs: Specs, registered: Registered, c: Catalog) {
    && Ordered(specs, registered, c.sources)
    && (forall m :: m in c.sources <==> m !in STANDARD && Reached(roots, specs, m))
    && c.units == Units(specs, c.sources)
    && (forall m :: m in c.units <==> m in registered)
  }

  /** The loop over the roots. */
  method VisitRoots(loader: Loader) returns (ok: bool)
    requires loader.Valid() && loader.visiting == {}
    modifies loader
    ensures ok ==> loader.Valid() && forall r :: r in loader.roots ==> Admitted(loader.specs, loader.sources, r)
    ensures !ok ==> Unsound(loader.roots, loader.specs, loader.registered)
  {
    for i := 0 to |loader.roots|
      invariant loader.Valid() && loader.visiting == {}
      invariant forall j :: 0 <= j < i ==> Admitted(loader.specs, loader.sources, loader.roots[j])
    {
      ghost var before := loader.sources;
      ok := loader.Visit(loader.roots[i], []);
      if !ok { return; }
      forall j | 0 <= j < i ensures Admitted(loader.specs, loader.sources, loader.roots[j]) {
        assert Admitted(loader.specs, before, loader.roots[j]);
      }
    }
    return true;
  }

  /** `load_catalog` after the schema of the catalog has been checked. */
  method LoadCatalog(roots: seq<string>, specs: Specs, registered: Registered) returns (catalog: Option<Catalog>)
    ensures catalog.Some? <==> Sound(roots, specs, registered) && Complete(roots, specs, registered)
    ensures catalog.Some? ==> IsCatalog(roots, specs, registered, catalog.value)
  {
    var loader := new Loader(roots, specs, registered);
    var ok := VisitRoots(loader);
    if !ok { return None; }
    var sources, units := loader.sources, loader.units;
    AdmittedIsSound(roots, specs, registered, sources);
    forall m ensures m in units <==> m !in STANDARD && Reached(roots, specs, m) && Bears(specs, m) {
      UnitsAre(specs, sources, m);
    }
    if (set m | m in units) != registered.Keys || units == [] {
      Incomplete(roots, specs, registered, units);
      return None;
    }
    assert units[0] in units;
    return Some(Catalog(sources, units));
  }

  lemma Incomplete(roots: seq<string>, specs: Specs, registered: Registered, units: seq<string>)
    requires forall m :: m in units <==> m !in STANDARD && Reached(roots, specs, m) && Bears(specs, m)
    requires (set m | m in units) != registered.Keys || units == []
    ensures !Complete(roots, specs, registered)
  {
    if Complete(roots, specs, registered) { CompleteUnits(roots, specs, registered, units); }
  }

  lemma CompleteUnits(roots: seq<string>, specs: Specs, registered: Registered, units: seq<string>)
    requires forall m :: m in units <==> m !in STANDARD && Reached(roots, specs, m) && Bears(specs, m)
    requires Complete(roots, specs, registered)
    ensures (set m | m in units) == registered.Keys && units != []
  {
    var m :| m in registered;
    assert m in units;
  }

  /** An import cycle that a root reaches is never accepted. */
  lemma CycleIsUnsound(roots: seq<string>, specs: Specs, registered: Registered, p: seq<string>, i: nat)
    requires IsPath(roots, specs, p) && i < |p| - 1 && p[i] == p[|p|-1]
    ensures !Sound(roots, specs, registered)
  {
  }
}
