/**
 Resumable publication of a package set (scripts/release_publish.py): what a result file may say, and
 the checks that precede the first credential-bearing request.
 */
module ReleasePublish {
  import opened Prelude

  datatype Registry = Crates | Npm | OtherRegistry

  datatype Package = Package(registry: Registry, name: string, version: string, size: nat, sha: string,
                             dependencies: seq<string>)

  datatype Record = Record(registry: Registry, name: string, version: string, size: nat, sha: string)

  datatype Status = Partial | PublicationComplete

  datatype ResultFile = ResultFile(binding: string, status: Status, packages: seq<Record>)

  function RecordOf(p: Package): Record {
    Record(p.registry, p.name, p.version, p.size, p.sha)
  }

  ghost predicate UniqueNames(packages: seq<Package>) {
    forall i, j :: 0 <= i < j < |packages| ==> packages[i].name != packages[j].name
  }

  // --- Preparation ------------------------------------------------------------------------

  /** What the bundle holds for one package: its payload's size and digest, and its metadata. */
  datatype Local = Local(size: nat, sha: string, metadataMatches: bool, identityMatches: bool, actual: set<string>)

  datatype Refusal = DuplicateName | UnsupportedRegistry | ChangedPayload | ChangedMetadata | WrongIdentity
                   | BadOrder | WrongDependencies | OwnedMissing

  predicate Owned(name: string) {
    || "gripsack-" <= name || "gripfetch-" <= name || "@gripsack/" <= name
    || name == "gripsack" || name == "griplint"
  }

  ghost predicate Names(packages: seq<Package>, name: string) {
    exists i :: 0 <= i < |packages| && packages[i].name == name
  }

  /** Package `i` names its payload, and lists exactly the bundled packages it depends on, all earlier ones. */
  ghost predicate Admissible(packages: seq<Package>, locals: seq<Local>, i: nat)
    requires |locals| == |packages| && i < |packages|
  {
    var p, l := packages[i], locals[i];
    && !p.registry.OtherRegistry? && l.size == p.size && l.sha == p.sha && l.metadataMatches && l.identityMatches
    && Distinct(p.dependencies)
    && (forall d :: d in p.dependencies ==> Names(packages[..i], d))
    && (forall d :: d in p.dependencies <==> d in l.actual && Names(packages, d))
    && (forall d :: d in l.actual && !Names(packages, d) ==> !Owned(d))
  }

  /** Accepts exactly the bundles whose payloads are as declared and whose order respects dependencies. */
  method PreparePackages(packages: seq<Package>, locals: seq<Local>) returns (refusal: Option<Refusal>)
    requires |locals| == |packages|
    ensures refusal.None?
            <==> UniqueNames(packages) && forall i :: 0 <= i < |packages| ==> Admissible(packages, locals, i)
  {
    var names := set p | p in packages :: p.name;
    NamesAre(packages, names);
    var unique := CheckUnique(packages);
    if !unique {
      return Some(DuplicateName);
    }
    var seen := {};
    for i := 0 to |packages|
      invariant forall d :: d in seen <==> Names(packages[..i], d)
      invariant forall j :: 0 <= j < i ==> Admissible(packages, locals, j)
    {
      var p, l := packages[i], locals[i];
      refusal := CheckPackage(p, l, names, seen);
      assert refusal.None? <==> Admissible(packages, locals, i);
      if refusal.Some? {
        return;
      }
      assert forall d :: Names(packages[..i+1], d) <==> Names(packages[..i], d) || d == p.name by {
        NamesNext(packages, i);
      }
      seen := seen + {p.name};
    }
    refusal := None;
  }

  method CheckUnique(packages: seq<Package>) returns (unique: bool)
    ensures unique <==> UniqueNames(packages)
  {
    var seen := {};
    for i := 0 to |packages|
      invariant forall d :: d in seen <==> Names(packages[..i], d)
      invariant UniqueNames(packages[..i])
    {
      if packages[i].name in seen {
        var j :| 0 <= j < i && packages[..i][j].name == packages[i].name;
        assert packages[j].name == packages[i].name;
        return false;
      }
      NamesNext(packages, i);
      assert forall j :: 0 <= j < i ==> packages[..i][j].name != packages[i].name;
      assert packages[..i+1] == packages[..i] + [packages[i]];
      seen := seen + {packages[i].name};
    }
    assert packages[..|packages|] == packages;
    unique := true;
  }

  lemma NamesAre(packages: seq<Package>, names: set<string>)
    requires names == set p | p in packages :: p.name
    ensures forall d :: d in names <==> Names(packages, d)
  {
    forall d | Names(packages, d) ensures d in names {
      var i :| 0 <= i < |packages| && packages[i].name == d;
      assert packages[i] in packages;
    }
  }

  lemma NamesNext(packages: seq<Package>, i: nat)
    requires i < |packages|
    ensures forall d :: Names(packages[..i+1], d) <==> Names(packages[..i], d) || d == packages[i].name
  {
    forall d | Names(packages[..i], d) || d == packages[i].name ensures Names(packages[..i+1], d) {
      if Names(packages[..i], d) {
        var j :| 0 <= j < i && packages[..i][j].name == d;
        assert packages[..i+1][j].name == d;
      } else {
        assert packages[..i+1][i].name == d;
      }
    }
    forall d | Names(packages[..i+1], d) ensures Names(packages[..i], d) || d == packages[i].name {
      var j :| 0 <= j < i + 1 && packages[..i+1][j].name == d;
      if j < i { assert packages[..i][j].name == d; }
    }
  }

  method CheckPackage(p: Package, l: Local, names: set<string>, seen: set<string>) returns (refusal: Option<Refusal>)
    ensures refusal.None? <==>
      && !p.registry.OtherRegistry? && l.size == p.size && l.sha == p.sha && l.metadataMatches && l.identityMatches
      && Distinct(p.dependencies) && (forall d :: d in p.dependencies ==> d in seen)
      && (forall d :: d in p.dependencies <==> d in l.actual && d in names)
      && (forall d :: d in l.actual && d !in names ==> !Owned(d))
  {
    if p.registry.OtherRegistry? {
      return Some(UnsupportedRegistry);
    }
    if l.size != p.size || l.sha != p.sha {
      return Some(ChangedPayload);
    }
    if !l.metadataMatches {
      return Some(ChangedMetadata);
    }
    if !l.identityMatches {
      return Some(WrongIdentity);
    }
    var dependencies := set d | d in p.dependencies;
    if !Distinct(p.dependencies) || !(dependencies <= seen) {
      return Some(BadOrder);
    }
    if dependencies != l.actual * names {
      assert !(forall d :: d in dependencies <==> d in l.actual * names);
      return Some(WrongDependencies);
    }
    assert forall d :: d in p.dependencies <==> d in dependencies;
    if exists d :: d in l.actual - names && Owned(d) {
      return Some(OwnedMissing);
    }
    refusal := None;
  }

  // --- Result files -----------------------------------------------------------------------

  /** The records of `packages` whose names are in `done`, in manifest order. */
  function Compose(packages: seq<Package>, done: set<string>): (r: seq<Record>) {
    if packages == [] then []
    else (if packages[0].name in done then [RecordOf(packages[0])] else []) + Compose(packages[1..], done)
  }

  /** `records` are those at strictly increasing places of the manifest. */
  ghost predicate Sublist(records: seq<Record>, packages: seq<Package>) {
    exists places: seq<nat> :: IsPlacement(places, records, packages)
  }

  ghost predicate IsPlacement(places: seq<nat>, records: seq<Record>, packages: seq<Package>) {
    && |places| == |records|
    && (forall i :: 0 <= i < |places| ==> places[i] < |packages| && records[i] == RecordOf(packages[places[i]]))
    && (forall i, j :: 0 <= i < j < |places| ==> places[i] < places[j])
  }

  /** What composes from the completed names is an ordered sublist of the manifest. */
  lemma {:induction false} ComposeIsSublist(packages: seq<Package>, done: set<string>)
    ensures Sublist(Compose(packages, done), packages)
    decreases |packages|
  {
    if packages == [] {
      assert IsPlacement([], Compose(packages, done), packages);
    } else {
      ComposeIsSublist(packages[1..], done);
      var rest: seq<nat> :| IsPlacement(rest, Compose(packages[1..], done), packages[1..]);
      ShiftPlacement(rest, Compose(packages[1..], done), packages, packages[0].name in done);
    }
  }

  lemma ShiftPlacement(rest: seq<nat>, records: seq<Record>, packages: seq<Package>, first: bool)
    requires packages != [] && IsPlacement(rest, records, packages[1..])
    ensures Sublist((if first then [RecordOf(packages[0])] else []) + records, packages)
  {
    var shifted: seq<nat> := seq(|rest|, i requires 0 <= i < |rest| => rest[i] + 1);
    forall i | 0 <= i < |shifted| ensures shifted[i] < |packages| && records[i] == RecordOf(packages[shifted[i]]) {
      assert packages[1..][rest[i]] == packages[shifted[i]];
    }
    assert IsPlacement(shifted, records, packages);
    if first {
      PlaceFirst(shifted, records, packages);
    } else {
      assert [] + records == records;
    }
  }

  lemma PlaceFirst(places: seq<nat>, records: seq<Record>, packages: seq<Package>)
    requires packages != [] && IsPlacement(places, records, packages)
    requires forall i :: 0 <= i < |places| ==> 0 < places[i]
    ensures IsPlacement([0] + places, [RecordOf(packages[0])] + records, packages)
  {
    var all, listed := [0] + places, [RecordOf(packages[0])] + records;
    forall i | 0 <= i < |all| ensures all[i] < |packages| && listed[i] == RecordOf(packages[all[i]]) {
      if i > 0 { assert all[i] == places[i-1] && listed[i] == records[i-1]; }
    }
    forall i, j | 0 <= i < j < |all| ensures all[i] < all[j] {
      assert all[j] == places[j-1];
      if i > 0 { assert all[i] == places[i-1]; }
    }
  }

  /** A manifest package is listed exactly when its name is completed. */
  lemma {:induction false} ComposeMember(packages: seq<Package>, done: set<string>, i: nat)
    requires UniqueNames(packages) && i < |packages|
    ensures RecordOf(packages[i]) in Compose(packages, done) <==> packages[i].name in done
    decreases |packages|
  {
    if i == 0 {
      forall r | r in Compose(packages[1..], done) ensures r.name != packages[0].name {
        ComposeNamed(packages[1..], done, r);
      }
    } else {
      ComposeMember(packages[1..], done, i - 1);
    }
  }

  lemma {:induction false} ComposeNamed(packages: seq<Package>, done: set<string>, r: Record)
    requires r in Compose(packages, done)
    ensures exists k :: 0 <= k < |packages| && r == RecordOf(packages[k]) && packages[k].name in done
    decreases |packages|
  {
    if packages[0].name in done && r == RecordOf(packages[0]) {
    } else {
      ComposeNamed(packages[1..], done, r);
      var k :| 0 <= k < |packages[1..]| && r == RecordOf(packages[1..][k]) && packages[1..][k].name in done;
      assert r == RecordOf(packages[k+1]);
    }
  }

  /** All packages are listed exactly when as many are as there are packages. */
  lemma {:induction false} ComposeComplete(packages: seq<Package>, done: set<string>)
    requires UniqueNames(packages)
    ensures |Compose(packages, done)| <= |packages|
    ensures |Compose(packages, done)| == |packages| <==> forall i :: 0 <= i < |packages| ==> packages[i].name in done
    decreases |packages|
  {
    if packages != [] {
      ComposeComplete(packages[1..], done);
      assert forall i :: 1 <= i < |packages| ==> packages[i] == packages[1..][i-1];
    }
  }
}
