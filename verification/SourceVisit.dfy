/** `source_proof` without a list of files (release_evidence.py): the proof must show the whole tree. */
module SourceVisit {
  import opened Prelude
  import opened GitObjects
  import opened SourceProof
  import opened SourceRetention

  /** Every entry below `id` is retained and is a directory or a regular file, at most 32 levels down. */
  ghost predicate Orderly(decoded: Trees, id: Id, depth: nat)
    decreases MAX_DEPTH + 1 - depth
  {
    depth <= MAX_DEPTH && id in decoded && forall n :: n in decoded[id] ==> OrderlyEntry(decoded, decoded[id][n], depth)
  }

  ghost predicate OrderlyEntry(decoded: Trees, entry: (Bytes, Id), depth: nat)
    requires depth <= MAX_DEPTH
    decreases MAX_DEPTH + 1 - depth, 0
  {
    if entry.0 == DIRECTORY then Orderly(decoded, entry.1, depth + 1) else RegularMode(entry.0)
  }

  predicate Under(prefix: Path, p: Path) {
    |p| > |prefix| && p[..|prefix|] == prefix
  }

  /** `p` is a file of the tree `id`, whose own path is `prefix`. */
  predicate FileBelow(decoded: Trees, id: Id, prefix: Path, p: Path) {
    Under(prefix, p) && BlobAt(decoded, id, p[|prefix|..]).Some?
  }

  // --- The order in which a tree is visited -----------------------------------------------------------

  /** The names of each tree in the order of its encoding, which is the order of its dictionary. */
  type Orders = map<Id, seq<Bytes>>

  function NamesFrom(rest: Bytes): seq<Bytes>
    decreases |rest|
  {
    match ParseEntry(rest)
    case None => []
    case Some((e, more)) => [e.name] + NamesFrom(more)
  }

  function OrdersOf(trees: map<Id, Bytes>): Orders {
    map d | d in trees :: NamesFrom(trees[d])
  }

  ghost predicate Ordered(decoded: Trees, orders: Orders) {
    forall d :: d in decoded ==>
      d in orders && Distinct(orders[d]) && forall n :: n in orders[d] <==> n in decoded[d]
  }

  /** `names` are what the reader adds to `so`. */
  ghost predicate Adds(names: seq<Bytes>, so: Entries, all: Entries) {
    && Distinct(names)
    && (forall n :: n in all <==> n in so || n in names)
    && (forall n :: n in names ==> n !in so)
  }

  lemma AddsNext(name: Bytes, value: (Bytes, Id), names: seq<Bytes>, so: Entries, all: Entries)
    requires name !in so && Adds(names, so[name := value], all)
    ensures Adds([name] + names, so, all)
  {
  }

  lemma {:induction false} NamesAreKeys(rest: Bytes, so: Entries)
    requires ParseFrom(rest, so).Some?
    ensures Adds(NamesFrom(rest), so, ParseFrom(rest, so).value)
    decreases |rest|
  {
    if rest == [] {
      assert ParseEntry([]).None?;
    } else {
      var (e, more) := ParseEntry(rest).value;
      var next := so[e.name := (e.mode, Hex(e.raw))];
      NamesAreKeys(more, next);
      AddsNext(e.name, (e.mode, Hex(e.raw)), NamesFrom(more), so, ParseFrom(more, next).value);
    }
  }

  lemma OrdersAreOrdered(decoded: Trees, trees: map<Id, Bytes>)
    requires Reads(decoded, trees)
    ensures Ordered(decoded, OrdersOf(trees))
  {
    forall d | d in decoded
      ensures d in trees && Distinct(NamesFrom(trees[d])) && forall n :: n in NamesFrom(trees[d]) <==> n in decoded[d]
    {
      assert ParseTree(trees[d]) == Some(decoded[d]);
      NamesAreKeys(trees[d], map[]);
    }
  }

  datatype Event = Enter(directory: Path) | List(file: Path)

  /** What happens below `id`, directory by directory and name by name. */
  ghost function Events(decoded: Trees, orders: Orders, id: Id, prefix: Path, depth: nat): seq<Event>
    decreases MAX_DEPTH + 1 - depth, 1
  {
    if depth > MAX_DEPTH || id !in decoded || id !in orders then []
    else [Enter(prefix)] + EntryEvents(decoded, orders, id, orders[id], prefix, depth)
  }

  ghost function EntryEvents(decoded: Trees, orders: Orders, id: Id, names: seq<Bytes>, prefix: Path, depth: nat)
    : seq<Event>
    requires depth <= MAX_DEPTH && id in decoded
    decreases MAX_DEPTH + 1 - depth, 0, |names| + 1
  {
    if names == [] then []
    else
      EntryEvents(decoded, orders, id, names[..|names|-1], prefix, depth)
      + EventsOf(decoded, orders, id, names[|names|-1], prefix, depth)
  }

  ghost function EventsOf(decoded: Trees, orders: Orders, id: Id, name: Bytes, prefix: Path, depth: nat): seq<Event>
    requires depth <= MAX_DEPTH && id in decoded
    decreases MAX_DEPTH + 1 - depth, 0, 0
  {
    if name !in decoded[id] then []
    else if decoded[id][name].0 == DIRECTORY
    then Events(decoded, orders, decoded[id][name].1, prefix + [name], depth + 1)
    else [List(prefix + [name])]
  }

  ghost function Listing(events: seq<Event>): seq<Path> {
    if events == [] then []
    else
      var last := events[|events|-1];
      Listing(events[..|events|-1]) + if last.List? then [last.file] else []
  }

  /** Some directory is entered when more than 4096 files are listed, `before` of them earlier. */
  ghost predicate Crowded(events: seq<Event>, before: nat) {
    exists k :: 0 <= k < |events| && CrowdedAt(events, before, k)
  }

  ghost predicate CrowdedAt(events: seq<Event>, before: nat, k: nat)
    requires k < |events|
  {
    events[k].Enter? && before + |Listing(events[..k])| > MAX_FILES
  }

  lemma {:induction false} ListingAppend(a: seq<Event>, b: seq<Event>)
    ensures Listing(a + b) == Listing(a) + Listing(b)
    decreases |b|
  {
    if b == [] {
      assert a + b == a;
    } else {
      assert (a + b)[..|a + b| - 1] == a + b[..|b|-1];
      ListingAppend(a, b[..|b|-1]);
    }
  }

  lemma CrowdedAppend(a: seq<Event>, b: seq<Event>, before: nat)
    ensures Crowded(a + b, before) <==> Crowded(a, before) || Crowded(b, before + |Listing(a)|)
  {
    if Crowded(a + b, before) {
      CrowdedSplits(a, b, before);
    }
    if Crowded(a, before) {
      var k :| 0 <= k < |a| && CrowdedAt(a, before, k);
      assert (a + b)[..k] == a[..k];
      assert CrowdedAt(a + b, before, k);
    }
    if Crowded(b, before + |Listing(a)|) {
      var k :| 0 <= k < |b| && CrowdedAt(b, before + |Listing(a)|, k);
      CrowdedLater(a, b, before, k);
    }
  }

  lemma CrowdedSplits(a: seq<Event>, b: seq<Event>, before: nat)
    requires Crowded(a + b, before)
    ensures Crowded(a, before) || Crowded(b, before + |Listing(a)|)
  {
    var k :| 0 <= k < |a + b| && CrowdedAt(a + b, before, k);
    if k < |a| {
      assert (a + b)[..k] == a[..k];
      assert CrowdedAt(a, before, k);
    } else {
      CrowdedLater(a, b, before, k - |a|);
    }
  }

  lemma CrowdedLater(a: seq<Event>, b: seq<Event>, before: nat, k: nat)
    requires k < |b|
    ensures CrowdedAt(a + b, before, |a| + k) <==> CrowdedAt(b, before + |Listing(a)|, k)
  {
    assert (a + b)[..|a| + k] == a + b[..k];
    ListingAppend(a, b[..k]);
  }

  /** The events from the entry of the directory on, up to its first `i` names. */
  ghost function Begun(decoded: Trees, orders: Orders, id: Id, prefix: Path, depth: nat, i: nat): seq<Event>
    requires depth <= MAX_DEPTH && id in decoded && id in orders && i <= |orders[id]|
  {
    [Enter(prefix)] + EntryEvents(decoded, orders, id, orders[id][..i], prefix, depth)
  }

  lemma BegunNext(decoded: Trees, orders: Orders, id: Id, prefix: Path, depth: nat, i: nat)
    requires depth <= MAX_DEPTH && id in decoded && id in orders && i < |orders[id]|
    ensures Begun(decoded, orders, id, prefix, depth, i + 1)
            == Begun(decoded, orders, id, prefix, depth, i)
              + EventsOf(decoded, orders, id, orders[id][i], prefix, depth)
  {
    var names := orders[id][..i+1];
    assert names[..|names|-1] == orders[id][..i];
  }

  lemma BegunAll(decoded: Trees, orders: Orders, id: Id, prefix: Path, depth: nat)
    requires depth <= MAX_DEPTH && id in decoded && id in orders
    ensures Begun(decoded, orders, id, prefix, depth, |orders[id]|) == Events(decoded, orders, id, prefix, depth)
  {
    assert orders[id][..|orders[id]|] == orders[id];
  }

  /** What is crowded so far stays so. */
  lemma {:induction false} BegunCrowded(decoded: Trees, orders: Orders, id: Id, prefix: Path, depth: nat, i: nat,
                                        before: nat)
    requires depth <= MAX_DEPTH && id in decoded && id in orders && i <= |orders[id]|
    requires Crowded(Begun(decoded, orders, id, prefix, depth, i), before)
    ensures Crowded(Events(decoded, orders, id, prefix, depth), before)
    decreases |orders[id]| - i
  {
    if i == |orders[id]| {
      BegunAll(decoded, orders, id, prefix, depth);
    } else {
      BegunNext(decoded, orders, id, prefix, depth, i);
      CrowdedAppend(Begun(decoded, orders, id, prefix, depth, i),
                    EventsOf(decoded, orders, id, orders[id][i], prefix, depth), before);
      BegunCrowded(decoded, orders, id, prefix, depth, i + 1, before);
    }
  }

  /** `found` is what was listed by these events, and they did not crowd. */
  ghost predicate Listed(events: seq<Event>, before: seq<Path>, found: seq<Path>) {
    found == before + Listing(events) && !Crowded(events, |before|)
  }

  lemma ListedNext(a: seq<Event>, b: seq<Event>, before: seq<Path>, between: seq<Path>, found: seq<Path>)
    requires Listed(a, before, between) && Listed(b, between, found)
    ensures Listed(a + b, before, found)
  {
    ListingAppend(a, b);
    CrowdedAppend(a, b, |before|);
  }

  lemma CrowdedNext(a: seq<Event>, b: seq<Event>, before: seq<Path>, between: seq<Path>)
    requires Listed(a, before, between) && Crowded(b, |between|)
    ensures Crowded(a + b, |before|)
  {
    CrowdedAppend(a, b, |before|);
  }

  lemma EntersFirst(decoded: Trees, orders: Orders, id: Id, prefix: Path, depth: nat, before: seq<Path>)
    requires depth <= MAX_DEPTH && id in decoded && id in orders
    ensures |before| > MAX_FILES ==> Crowded(Events(decoded, orders, id, prefix, depth), |before|)
    ensures |before| <= MAX_FILES ==> Listed(Begun(decoded, orders, id, prefix, depth, 0), before, before)
  {
    var events := Events(decoded, orders, id, prefix, depth);
    assert events[..0] == [] && before + [] == before;
    if |before| > MAX_FILES { assert CrowdedAt(events, |before|, 0); }
    var entered := Begun(decoded, orders, id, prefix, depth, 0);
    assert entered == [Enter(prefix)] && entered[..0] == [];
    forall k: nat | k < |entered| ensures !CrowdedAt(entered, |before|, k) || |before| > MAX_FILES { }
  }

  // --- The visit ----------------------------------------------------------------------------------------

  /** The nested function `visit`; `found` is the list that it appends to. */
  method Visit(decoded: Trees, orders: Orders, id: Id, prefix: Path, depth: nat, before: seq<Path>)
    returns (ok: bool, found: seq<Path>)
    requires Ordered(decoded, orders)
    requires depth <= MAX_DEPTH + 1 && Distinct(before) && forall p :: p in before ==> !Under(prefix, p)
    ensures before <= found && Distinct(found)
    ensures forall p :: p in found ==> p in before || FileBelow(decoded, id, prefix, p)
    ensures ok ==> Orderly(decoded, id, depth) && forall p :: FileBelow(decoded, id, prefix, p) ==> p in found
    ensures !ok ==> !Orderly(decoded, id, depth) || |found| > MAX_FILES
    ensures ok ==> Listed(Events(decoded, orders, id, prefix, depth), before, found)
    ensures !ok ==>
              !Orderly(decoded, id, depth) || Crowded(Events(decoded, orders, id, prefix, depth), |before|)
    decreases MAX_DEPTH + 1 - depth, 1
  {
    found := before;
    if depth > MAX_DEPTH || id !in decoded { return false, found; }
    EntersFirst(decoded, orders, id, prefix, depth, before);
    if |found| > MAX_FILES { return false, found; }
    var names := orders[id];
    for i := 0 to |names|
      invariant before <= found && Distinct(found)
      invariant forall p :: p in found ==> p in before
                                           || (FileBelow(decoded, id, prefix, p) && p[|prefix|] in names[..i])
      invariant forall j :: 0 <= j < i ==> OrderlyEntry(decoded, decoded[id][names[j]], depth)
      invariant forall p :: FileBelow(decoded, id, prefix, p) && p[|prefix|] in names[..i] ==> p in found
      invariant Listed(Begun(decoded, orders, id, prefix, depth, i), before, found)
    {
      var name := names[i];
      assert name in names && names[..i+1] == names[..i] + [name];
      ghost var was := found;
      ok, found := VisitEntry(decoded, orders, id, name, prefix, depth, found);
      BegunNext(decoded, orders, id, prefix, depth, i);
      if !ok {
        StopsAt(decoded, orders, id, prefix, depth, i, before, was);
        return;
      }
      ListedNext(Begun(decoded, orders, id, prefix, depth, i), EventsOf(decoded, orders, id, name, prefix, depth),
                 before, was, found);
    }
    BegunAll(decoded, orders, id, prefix, depth);
    assert names[..|names|] == names;
    return true, found;
  }

  lemma StopsAt(decoded: Trees, orders: Orders, id: Id, prefix: Path, depth: nat, i: nat, before: seq<Path>,
                was: seq<Path>)
    requires depth <= MAX_DEPTH && id in decoded && id in orders && i < |orders[id]|
    requires Listed(Begun(decoded, orders, id, prefix, depth, i), before, was)
    ensures Crowded(EventsOf(decoded, orders, id, orders[id][i], prefix, depth), |was|) ==>
              Crowded(Events(decoded, orders, id, prefix, depth), |before|)
  {
    var next := EventsOf(decoded, orders, id, orders[id][i], prefix, depth);
    if Crowded(next, |was|) {
      BegunNext(decoded, orders, id, prefix, depth, i);
      CrowdedNext(Begun(decoded, orders, id, prefix, depth, i), next, before, was);
      BegunCrowded(decoded, orders, id, prefix, depth, i + 1, |before|);
    }
  }

  /** One turn of its loop. */
  method VisitEntry(decoded: Trees, orders: Orders, id: Id, name: Bytes, prefix: Path, depth: nat, before: seq<Path>)
    returns (ok: bool, found: seq<Path>)
    requires Ordered(decoded, orders) && depth <= MAX_DEPTH && id in decoded && name in decoded[id]
    requires Distinct(before) && forall p :: p in before && Under(prefix, p) ==> p[|prefix|] != name
    ensures before <= found && Distinct(found)
    ensures forall p :: p in found ==> p in before || (FileBelow(decoded, id, prefix, p) && p[|prefix|] == name)
    ensures ok ==> OrderlyEntry(decoded, decoded[id][name], depth)
    ensures ok ==> forall p :: FileBelow(decoded, id, prefix, p) && p[|prefix|] == name ==> p in found
    ensures !ok ==> !OrderlyEntry(decoded, decoded[id][name], depth) || |found| > MAX_FILES
    ensures ok ==> Listed(EventsOf(decoded, orders, id, name, prefix, depth), before, found)
    ensures !ok ==>
              || !OrderlyEntry(decoded, decoded[id][name], depth)
              || Crowded(EventsOf(decoded, orders, id, name, prefix, depth), |before|)
    decreases MAX_DEPTH + 1 - depth, 0
  {
    var relative := prefix + [name];
    var (mode, child) := decoded[id][name];
    assert relative[..|prefix|] == prefix;
    if mode == DIRECTORY {
      forall p | p in before ensures !Under(relative, p) { NotUnder(prefix, name, p); }
      ok, found := Visit(decoded, orders, child, relative, depth + 1, before);
      ChildFiles(decoded, id, prefix, name);
    } else {
      if !RegularMode(mode) { return false, before; }
      OneListed(relative, before);
      OwnFile(decoded, id, prefix, name);
      assert Under(prefix, relative) && relative !in before;
      return true, before + [relative];
    }
  }

  lemma OneListed(file: Path, before: seq<Path>)
    ensures Listed([List(file)], before, before + [file])
  {
    var events := [List(file)];
    assert events[..0] == [] && Listing([]) + [file] == [file];
  }

  lemma NotUnder(prefix: Path, name: Bytes, p: Path)
    ensures Under(prefix + [name], p) ==> Under(prefix, p) && p[|prefix|] == name
  {
    if |p| > |prefix| + 1 {
      assert p[..|prefix| + 1] == p[..|prefix|] + [p[|prefix|]];
    }
  }

  lemma ChildFiles(decoded: Trees, id: Id, prefix: Path, name: Bytes)
    requires id in decoded && name in decoded[id] && decoded[id][name].0 == DIRECTORY
    ensures forall p ::
              FileBelow(decoded, decoded[id][name].1, prefix + [name], p)
              <==> FileBelow(decoded, id, prefix, p) && p[|prefix|] == name
  {
  }

  lemma OwnFile(decoded: Trees, id: Id, prefix: Path, name: Bytes)
    requires id in decoded && name in decoded[id] && RegularMode(decoded[id][name].0)
    ensures forall p :: FileBelow(decoded, id, prefix, p) && p[|prefix|] == name <==> p == prefix + [name]
  {
  }

  // --- The whole check --------------------------------------------------------------------------------

  /** An accepted proof of a whole tree: it lists every file of the tree, and nothing else is in the tree. */
  ghost predicate AcceptsWhole(hash: Bytes -> Id, proof: Proof, commit: Id, files: seq<Path>, tree: Id,
                               decoded: Trees) {
    && Accepts(hash, proof, commit, files, tree, decoded)
    && Orderly(decoded, tree, 0)
    && forall p :: p in files <==> BlobAt(decoded, tree, p).Some?
  }

  /** No directory of the tree is entered when more than 4096 files are listed before it. */
  ghost predicate Uncrowded(proof: Proof, tree: Id, decoded: Trees) {
    !Crowded(Events(decoded, OrdersOf(proof.trees), tree, [], 0), 0)
  }

  /** The proof shows the whole tree, and its order does not crowd. */
  ghost predicate AcceptsInOrder(hash: Bytes -> Id, proof: Proof, commit: Id, files: seq<Path>, tree: Id,
                                 decoded: Trees)
  {
    AcceptsWhole(hash, proof, commit, files, tree, decoded) && Uncrowded(proof, tree, decoded)
  }

  /** No list of files is accepted, and only one of more than 4096 would be accepted in another order. */
  ghost predicate Refused(hash: Bytes -> Id, proof: Proof, commit: Id) {
    forall files, tree, decoded {:trigger AcceptsWhole(hash, proof, commit, files, tree, decoded)} ::
      AcceptsWhole(hash, proof, commit, files, tree, decoded) ==>
        |files| > MAX_FILES && !Uncrowded(proof, tree, decoded)
  }

  /** `source_proof` for the whole tree accepts exactly what shows the whole tree and does not crowd. */
  method CheckWhole(hash: Bytes -> Id, proof: Proof, commit: Id) returns (r: Option<(Id, seq<Path>)>)
    ensures r.Some? ==> exists decoded :: AcceptsInOrder(hash, proof, commit, r.value.1, r.value.0, decoded)
    ensures r.None? ==> Refused(hash, proof, commit)
  {
    var start := Open(hash, proof, commit);
    if start.None? {
      return None;
    }
    var (tree, decoded) := start.value;
    var files := VisitWhole(hash, proof, commit, tree, decoded);
    if files.None? { return None; }
    var ok := CheckFiles(hash, proof, decoded, tree, files.value);
    if !ok {
      DifferentForAll(hash, proof, commit, files.value, tree, decoded);
      return None;
    }
    assert AcceptsInOrder(hash, proof, commit, files.value, tree, decoded);
    return Some((tree, files.value));
  }

  /** The list of all files, in the order of the visit. */
  method VisitWhole(hash: Bytes -> Id, proof: Proof, commit: Id, tree: Id, decoded: Trees)
    returns (files: Option<seq<Path>>)
    requires Opens(hash, proof, commit, tree, decoded)
    ensures files.Some? ==> Orderly(decoded, tree, 0) && Uncrowded(proof, tree, decoded)
    ensures files.Some? ==> forall p :: p in files.value <==> BlobAt(decoded, tree, p).Some?
    ensures files.None? ==> Refused(hash, proof, commit)
  {
    OrdersAreOrdered(decoded, proof.trees);
    var ok, found := Visit(decoded, OrdersOf(proof.trees), tree, [], 0, []);
    forall p ensures FileBelow(decoded, tree, [], p) <==> BlobAt(decoded, tree, p).Some? { RootFile(decoded, tree, p); }
    if !ok {
      StoppedForAll(hash, proof, commit, found, tree, decoded);
      return None;
    }
    return Some(found);
  }

  lemma RootFile(decoded: Trees, tree: Id, p: Path)
    ensures FileBelow(decoded, tree, [], p) <==> BlobAt(decoded, tree, p).Some?
  {
    assert p[0..] == p && p[..0] == [];
  }

  lemma {:induction false} FewerFiles(found: seq<Path>, files: seq<Path>)
    requires Distinct(found) && forall p :: p in found ==> p in files
    ensures |found| <= |files|
    decreases |found|
  {
    if found != [] {
      var last := found[|found| - 1];
      assert last in found && last in files;
      var i :| 0 <= i < |files| && files[i] == last;
      var rest := files[..i] + files[i+1..];
      forall p | p in found[..|found|-1] ensures p in rest {
        assert p in found && p in files;
        var j :| 0 <= j < |files| && files[j] == p;
        assert j < i ==> rest[j] == p;
        assert j > i ==> rest[j-1] == p;
      }
      FewerFiles(found[..|found|-1], rest);
    }
  }

  lemma StoppedForAll(hash: Bytes -> Id, proof: Proof, commit: Id, found: seq<Path>, tree: Id, decoded: Trees)
    requires Opens(hash, proof, commit, tree, decoded) && Distinct(found)
    requires forall p :: p in found ==> BlobAt(decoded, tree, p).Some?
    requires !Orderly(decoded, tree, 0) || |found| > MAX_FILES
    requires !Orderly(decoded, tree, 0) || !Uncrowded(proof, tree, decoded)
    ensures Refused(hash, proof, commit)
  {
    forall files, t, d | AcceptsWhole(hash, proof, commit, files, t, d)
      ensures |files| > MAX_FILES && !Uncrowded(proof, t, d)
    {
      ReadsUnique(d, decoded, proof.trees);
      FewerFiles(found, files);
    }
  }

  lemma DifferentForAll(hash: Bytes -> Id, proof: Proof, commit: Id, found: seq<Path>, tree: Id, decoded: Trees)
    requires Opens(hash, proof, commit, tree, decoded)
    requires forall p :: p in found <==> BlobAt(decoded, tree, p).Some?
    requires !((forall p :: p in proof.files <==> p in found) && AllGood(hash, proof, decoded, tree, found))
    ensures forall files, t, d :: !AcceptsWhole(hash, proof, commit, files, t, d)
  {
    forall files, t, d ensures !AcceptsWhole(hash, proof, commit, files, t, d) {
      if AcceptsWhole(hash, proof, commit, files, t, d) { ReadsUnique(d, decoded, proof.trees); }
    }
  }

  // --- What the builder gives it ------------------------------------------------------------------------

  /** A repository's tree of directories, none without a file, and regular files, at most 32 levels down. */
  ghost predicate Clean(all: Trees, id: Id, depth: nat)
    decreases MAX_DEPTH + 1 - depth
  {
    && depth <= MAX_DEPTH && id in all
    && (exists q :: BlobAt(all, id, q).Some?)
    && forall n :: n in all[id] ==> CleanEntry(all, all[id][n], depth)
  }

  ghost predicate CleanEntry(all: Trees, entry: (Bytes, Id), depth: nat)
    requires depth <= MAX_DEPTH
    decreases MAX_DEPTH + 1 - depth, 0
  {
    if entry.0 == DIRECTORY then Clean(all, entry.1, depth + 1) else RegularMode(entry.0)
  }

  lemma {:induction false} CleanIsOrderly(all: Trees, decoded: Trees, id: Id, depth: nat)
    requires Within(decoded, all) && Clean(all, id, depth)
    requires forall q :: BlobAt(all, id, q).Some? ==> BlobAt(decoded, id, q).Some?
    ensures Orderly(decoded, id, depth)
    decreases MAX_DEPTH + 1 - depth
  {
    var q :| BlobAt(all, id, q).Some?;
    assert id in decoded;
    forall n | n in decoded[id] ensures OrderlyEntry(decoded, decoded[id][n], depth) {
      var entry := all[id][n];
      assert CleanEntry(all, entry, depth);
      if entry.0 == DIRECTORY {
        forall q | BlobAt(all, entry.1, q).Some? ensures BlobAt(decoded, entry.1, q).Some? {
          assert ([n] + q)[1..] == q;
          assert BlobAt(all, id, [n] + q).Some?;
        }
        CleanIsOrderly(all, decoded, entry.1, depth + 1);
      }
    }
  }

  /** A proof of all files of a clean tree, built from a Git repository, is accepted as a proof of the whole tree. */
  lemma RetainedWholeIsAccepted(hash: Bytes -> Id, objects: Objects, head: Id, files: seq<Path>, tree: Id, proof: Proof,
                                decoded: Trees)
    requires GitStore(hash, objects) && Retained(objects, head, files, tree, proof, decoded)
    requires Clean(TreesOf(objects), tree, 0)
    requires forall p :: p in files <==> BlobAt(TreesOf(objects), tree, p).Some?
    ensures AcceptsWhole(hash, proof, head, files, tree, decoded)
  {
    var all := TreesOf(objects);
    RetainedIsAccepted(hash, objects, head, files, tree, proof, decoded);
    forall p ensures p in files <==> BlobAt(decoded, tree, p).Some? {
      if p in files { assert Kept(objects, decoded, tree, p, proof.files[p]); }
      if BlobAt(decoded, tree, p).Some? { BlobAtGrows(decoded, all, tree, p); }
    }
    CleanIsOrderly(all, decoded, tree, 0);
  }

  /**
   The depth counts: the builder follows paths of any depth, but a proof of a tree with a directory more
   than 32 levels down is never accepted.
   */
  lemma {:induction false} OrderlyIsShallow(decoded: Trees, id: Id, path: Path, n: nat)
    requires Orderly(decoded, id, 0) && n <= |path| && NodeAt(decoded, id, path, n).Some?
    ensures n <= MAX_DEPTH && Orderly(decoded, NodeAt(decoded, id, path, n).value, n)
    decreases n
  {
    if n > 0 {
      OrderlyIsShallow(decoded, id, path, n - 1);
      var node := NodeAt(decoded, id, path, n - 1).value;
      assert OrderlyEntry(decoded, decoded[node][path[n-1]], n - 1);
    }
  }
}
