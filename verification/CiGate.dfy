/** The persistence partitions of `check_ci_gate.py`: 96 reports that together cover every fault cut once. */
module CiGate {
  const SHARDS: nat := 8
  const SCENARIOS: seq<string> :=
    ["apply-deploy", "apply-prune", "rollback-deploy", "rollback-prune", "apply-deploy-copy", "apply-prune-copy"]
  const FAULTS: seq<string> := ["error", "kill"]

  datatype Report = Report(system: string, scenario: string, fault: string, shard: int, source: string, shards: int,
                           machine: string,
                           inventory: seq<(string, string)>, cuts: seq<int>, drift: seq<bool>, seconds: real)

  type Key = (string, string, string, int)

  function KeyOf(r: Report): Key {
    (r.system, r.scenario, r.fault, r.shard)
  }

  /** `list(range(start, stop, step))`. */
  function Range(start: int, stop: int, step: nat): (r: seq<int>)
    requires step > 0
    decreases stop - start
  {
    if start >= stop then [] else [start] + Range(start + step, stop, step)
  }

  /** `admit_persistence_partition`. */
  predicate PartitionAdmitted(r: Report, source: string) {
    && source != ""
    && r.system == "Linux" && r.scenario in SCENARIOS && r.fault in FAULTS && 0 <= r.shard < SHARDS
    && r.source == source && r.shards == SHARDS && r.machine == "x86_64"
    && |r.inventory| >= SHARDS && (forall i :: 0 <= i < |r.inventory| ==> r.inventory[i].0 != ""
                                                                          && r.inventory[i].1 != "")
    && r.cuts == Range(r.shard + 1, |r.inventory| + 1, SHARDS)
    && r.drift == [false, true]
    && r.seconds > 0.0
  }

  predicate Expected(k: Key) {
    k.0 == "Linux" && k.1 in SCENARIOS && k.2 in FAULTS && 0 <= k.3 < SHARDS
  }

  ghost predicate EachAdmitted(reports: seq<Report>, source: string, n: nat)
    requires n <= |reports|
  {
    forall i {:trigger PartitionAdmitted(reports[i], source)} :: 0 <= i < n ==> PartitionAdmitted(reports[i], source)
  }

  ghost predicate KeysDiffer(reports: seq<Report>, n: nat)
    requires n <= |reports|
  {
    forall i, j :: 0 <= i < j < n ==> KeyOf(reports[i]) != KeyOf(reports[j])
  }

  /** Every report is one of the partitions, each partition is there once, and a scenario has one inventory. */
  ghost predicate Admitted(reports: seq<Report>, source: string) {
    && source != ""
    && EachAdmitted(reports, source, |reports|)
    && KeysDiffer(reports, |reports|)
    && (forall i, j :: 0 <= i < j < |reports| && reports[i].scenario == reports[j].scenario ==>
                         reports[i].inventory == reports[j].inventory)
    && (forall k :: Expected(k) ==> exists i :: 0 <= i < |reports| && KeyOf(reports[i]) == k)
  }

  /** `product` of the constants. */
  function ExpectedKeys(): (keys: set<Key>)
    ensures forall k :: k in keys <==> Expected(k)
  {
    set c, f, s | c in SCENARIOS && f in FAULTS && s in Shards() :: ("Linux", c, f, s)
  }

  function Shards(): (s: set<int>)
    ensures forall i :: i in s <==> 0 <= i < SHARDS
  {
    {0, 1, 2, 3, 4, 5, 6, 7}
  }

  type Inventories = map<string, seq<(string, string)>>

  ghost predicate SeenTo(reports: seq<Report>, n: nat, seen: set<Key>)
    requires n <= |reports|
  {
    && (forall i :: 0 <= i < n ==> KeyOf(reports[i]) in seen)
    && (forall k :: k in seen ==> exists i :: 0 <= i < n && KeyOf(reports[i]) == k)
  }

  ghost predicate InventoriesTo(reports: seq<Report>, n: nat, inventories: Inventories)
    requires n <= |reports|
  {
    && (forall i :: 0 <= i < n ==> reports[i].scenario in inventories
                                   && inventories[reports[i].scenario] == reports[i].inventory)
    && (forall c :: c in inventories ==> exists i :: 0 <= i < n && reports[i].scenario == c)
  }

  /** The loop's variables after `n` reports. */
  ghost predicate AdmittedTo(reports: seq<Report>, source: string, n: nat, seen: set<Key>, inventories: Inventories)
    requires n <= |reports|
  {
    && EachAdmitted(reports, source, n)
    && KeysDiffer(reports, n)
    && SeenTo(reports, n, seen)
    && InventoriesTo(reports, n, inventories)
  }

  lemma SeenNext(reports: seq<Report>, n: nat, seen: set<Key>)
    requires n < |reports| && SeenTo(reports, n, seen)
    ensures SeenTo(reports, n + 1, seen + {KeyOf(reports[n])})
  {
    forall k | k in seen + {KeyOf(reports[n])} ensures exists i :: 0 <= i < n + 1 && KeyOf(reports[i]) == k {
      if k in seen {
        var i :| 0 <= i < n && KeyOf(reports[i]) == k;
      } else {
        assert KeyOf(reports[n]) == k;
      }
    }
  }

  lemma InventoriesNext(reports: seq<Report>, n: nat, inventories: Inventories)
    requires n < |reports| && InventoriesTo(reports, n, inventories)
    requires reports[n].scenario in inventories ==> inventories[reports[n].scenario] == reports[n].inventory
    ensures InventoriesTo(reports, n + 1, inventories[reports[n].scenario := reports[n].inventory])
  {
    var r := reports[n];
    var more := inventories[r.scenario := r.inventory];
    forall c | c in more ensures exists i :: 0 <= i < n + 1 && reports[i].scenario == c {
      if c == r.scenario {
        assert reports[n].scenario == c;
      } else {
        var i :| 0 <= i < n && reports[i].scenario == c;
      }
    }
  }

  lemma KeysNext(reports: seq<Report>, n: nat, seen: set<Key>)
    requires n < |reports| && KeysDiffer(reports, n) && SeenTo(reports, n, seen) && KeyOf(reports[n]) !in seen
    ensures KeysDiffer(reports, n + 1)
  {
  }

  lemma EachNext(reports: seq<Report>, source: string, n: nat)
    requires n < |reports| && EachAdmitted(reports, source, n) && PartitionAdmitted(reports[n], source)
    ensures EachAdmitted(reports, source, n + 1)
  {
  }

  lemma AdmittedNext(reports: seq<Report>, source: string, n: nat, seen: set<Key>, inventories: Inventories)
    requires n < |reports| && AdmittedTo(reports, source, n, seen, inventories)
    requires PartitionAdmitted(reports[n], source) && KeyOf(reports[n]) !in seen
    requires reports[n].scenario in inventories ==> inventories[reports[n].scenario] == reports[n].inventory
    ensures AdmittedTo(reports, source, n + 1, seen + {KeyOf(reports[n])},
                       inventories[reports[n].scenario := reports[n].inventory])
  {
    EachNext(reports, source, n);
    KeysNext(reports, n, seen);
    SeenNext(reports, n, seen);
    InventoriesNext(reports, n, inventories);
  }

  lemma RefusedHere(reports: seq<Report>, source: string, n: nat, seen: set<Key>, inventories: Inventories)
    requires n < |reports| && SeenTo(reports, n, seen) && InventoriesTo(reports, n, inventories)
    requires KeyOf(reports[n]) in seen || (reports[n].scenario in inventories
                                           && inventories[reports[n].scenario] != reports[n].inventory)
    ensures !Admitted(reports, source)
  {
    if KeyOf(reports[n]) in seen {
      var i :| 0 <= i < n && KeyOf(reports[i]) == KeyOf(reports[n]);
      assert !KeysDiffer(reports, |reports|);
    } else {
      var i :| 0 <= i < n && reports[i].scenario == reports[n].scenario;
    }
  }

  lemma RefusedPartition(reports: seq<Report>, source: string, n: nat)
    requires n < |reports| && !PartitionAdmitted(reports[n], source)
    ensures !Admitted(reports, source)
  {
    assert !EachAdmitted(reports, source, |reports|);
  }

  /** `admit_persistence`. */
  method Admit(reports: seq<Report>, source: string) returns (ok: bool)
    ensures ok <==> Admitted(reports, source)
  {
    if source == "" { return false; }
    var seen: set<Key> := {};
    var inventories: Inventories := map[];
    for n := 0 to |reports|
      invariant AdmittedTo(reports, source, n, seen, inventories)
    {
      var r := reports[n];
      if !PartitionAdmitted(r, source) {
        RefusedPartition(reports, source, n);
        return false;
      }
      var differs := r.scenario in inventories && inventories[r.scenario] != r.inventory;
      if KeyOf(r) in seen || differs {
        RefusedHere(reports, source, n, seen, inventories);
        return false;
      }
      AdmittedNext(reports, source, n, seen, inventories);
      seen := seen + {KeyOf(r)};
      inventories := inventories[r.scenario := r.inventory];
    }
    ok := seen == ExpectedKeys();
    SeenAll(reports, source, seen, inventories);
  }

  lemma SeenAll(reports: seq<Report>, source: string, seen: set<Key>, inventories: Inventories)
    requires source != "" && AdmittedTo(reports, source, |reports|, seen, inventories)
    ensures seen == ExpectedKeys() <==> Admitted(reports, source)
  {
    if seen == ExpectedKeys() {
      forall k | Expected(k) ensures exists i :: 0 <= i < |reports| && KeyOf(reports[i]) == k { assert k in seen; }
    }
    if Admitted(reports, source) { AllSeen(reports, source, seen); }
  }

  lemma AllSeen(reports: seq<Report>, source: string, seen: set<Key>)
    requires Admitted(reports, source) && SeenTo(reports, |reports|, seen)
    ensures seen == ExpectedKeys()
  {
    forall k | k in seen ensures Expected(k) {
      var i :| 0 <= i < |reports| && KeyOf(reports[i]) == k;
      assert PartitionAdmitted(reports[i], source);
    }
    forall k | k in ExpectedKeys() ensures k in seen {
      assert Expected(k);
      var i :| 0 <= i < |reports| && KeyOf(reports[i]) == k;
    }
  }

  // --- Coverage ---------------------------------------------------------------------------------------

  /** A shard's list, by arithmetic. */
  lemma {:induction false} RangeHas(start: int, stop: int, cut: int)
    ensures cut in Range(start, stop, SHARDS) <==> start <= cut < stop && (cut - start) % SHARDS == 0
    decreases stop - start
  {
    if start < stop {
      RangeHas(start + SHARDS, stop, cut);
      assert cut in Range(start, stop, SHARDS) <==> cut == start || cut in Range(start + SHARDS, stop, SHARDS);
    }
  }

  /** Every cut from 1 to the inventory's length is in the list of one shard, and of no other. */
  lemma CutsPartition(length: nat, cut: int, shard: int)
    requires 0 <= shard < SHARDS
    ensures cut in Range(shard + 1, length + 1, SHARDS) <==> 1 <= cut <= length && (cut - 1) % SHARDS == shard
  {
    RangeHas(shard + 1, length + 1, cut);
  }

  ghost predicate CoversAt(reports: seq<Report>, scenario: string, fault: string, cut: int, i: nat)
    requires i < |reports|
  {
    reports[i].scenario == scenario && reports[i].fault == fault && cut in reports[i].cuts
  }

  ghost predicate Covered(reports: seq<Report>, scenario: string, fault: string, cut: int) {
    exists i :: 0 <= i < |reports| && CoversAt(reports, scenario, fault, cut, i)
  }

  /** The cuts of a scenario's inventory of `length` entries, each made once, and no others. */
  ghost predicate CoveredOnce(reports: seq<Report>, scenario: string, fault: string, length: nat) {
    && (forall cut :: Covered(reports, scenario, fault, cut) <==> 1 <= cut <= length)
    && (forall cut, i, j :: 0 <= i < |reports| && 0 <= j < |reports| && CoversAt(reports, scenario, fault, cut, i)
                            && CoversAt(reports, scenario, fault, cut, j)
          ==> i == j)
  }

  ghost predicate OneInventory(reports: seq<Report>, scenario: string, length: nat) {
    forall i :: 0 <= i < |reports| && reports[i].scenario == scenario ==> |reports[i].inventory| == length
  }

  /**
   An accepted set of reports: for each scenario and fault, every cut of the scenario's one inventory was
   made by exactly one report, and no report made any other cut.
   */
  lemma EveryCutOnce(reports: seq<Report>, source: string, scenario: string, fault: string) returns (length: nat)
    requires Admitted(reports, source) && scenario in SCENARIOS && fault in FAULTS
    ensures length >= SHARDS && OneInventory(reports, scenario, length) && CoveredOnce(reports, scenario, fault, length)
  {
    length := LengthOf(reports, source, scenario, fault);
    forall cut ensures Covered(reports, scenario, fault, cut) <==> 1 <= cut <= length {
      if 1 <= cut <= length { var i := Coverer(reports, source, scenario, fault, length, cut); }
      if Covered(reports, scenario, fault, cut) { OnlyCuts(reports, source, scenario, fault, length, cut); }
    }
    forall cut, i, j | 0 <= i < |reports| && 0 <= j < |reports| && CoversAt(reports, scenario, fault, cut, i)
                       && CoversAt(reports, scenario, fault, cut, j)
      ensures i == j
    {
      OneCoverer(reports, source, scenario, fault, length, cut, i, j);
    }
  }

  lemma LengthOf(reports: seq<Report>, source: string, scenario: string, fault: string) returns (length: nat)
    requires Admitted(reports, source) && scenario in SCENARIOS && fault in FAULTS
    ensures length >= SHARDS && OneInventory(reports, scenario, length)
  {
    var k: Key := ("Linux", scenario, fault, 0);
    assert Expected(k);
    var first :| 0 <= first < |reports| && KeyOf(reports[first]) == k;
    assert PartitionAdmitted(reports[first], source);
    length := |reports[first].inventory|;
    forall i | 0 <= i < |reports| && reports[i].scenario == scenario ensures |reports[i].inventory| == length {
      SameInventory(reports, source, first, i);
    }
  }

  lemma SameInventory(reports: seq<Report>, source: string, i: nat, j: nat)
    requires Admitted(reports, source) && i < |reports| && j < |reports| && reports[i].scenario == reports[j].scenario
    ensures reports[i].inventory == reports[j].inventory
  {
    if i < j {
      assert reports[i].scenario == reports[j].scenario;
    } else if j < i {
      assert reports[j].scenario == reports[i].scenario;
    }
  }

  lemma Coverer(reports: seq<Report>, source: string, scenario: string, fault: string, length: nat, cut: int)
    returns (i: nat)
    requires Admitted(reports, source) && scenario in SCENARIOS && fault in FAULTS && 1 <= cut <= length
    requires OneInventory(reports, scenario, length)
    ensures i < |reports| && CoversAt(reports, scenario, fault, cut, i)
  {
    var shard := (cut - 1) % SHARDS;
    var k: Key := ("Linux", scenario, fault, shard);
    assert Expected(k);
    i :| 0 <= i < |reports| && KeyOf(reports[i]) == k;
    assert PartitionAdmitted(reports[i], source);
    CutsPartition(length, cut, shard);
  }

  lemma OnlyCuts(reports: seq<Report>, source: string, scenario: string, fault: string, length: nat, cut: int)
    requires Admitted(reports, source) && OneInventory(reports, scenario, length)
    requires Covered(reports, scenario, fault, cut)
    ensures 1 <= cut <= length
  {
    var i :| 0 <= i < |reports| && CoversAt(reports, scenario, fault, cut, i);
    assert PartitionAdmitted(reports[i], source);
    CutsPartition(length, cut, reports[i].shard);
  }

  lemma OneCoverer(reports: seq<Report>, source: string, scenario: string, fault: string, length: nat, cut: int, i: nat,
                   j: nat)
    requires Admitted(reports, source) && OneInventory(reports, scenario, length) && i < |reports| && j < |reports|
    requires CoversAt(reports, scenario, fault, cut, i) && CoversAt(reports, scenario, fault, cut, j)
    ensures i == j
  {
    assert PartitionAdmitted(reports[i], source) && PartitionAdmitted(reports[j], source);
    CutsPartition(length, cut, reports[i].shard);
    CutsPartition(length, cut, reports[j].shard);
    assert KeyOf(reports[i]) == KeyOf(reports[j]);
  }
}
