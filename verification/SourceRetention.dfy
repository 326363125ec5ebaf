/** `retain_source` (release_verify.py): building the proof of `SourceProof` from a repository's objects. */
module SourceRetention {
  import opened Prelude
  import opened GitObjects
  import opened SourceProof

  type Objects = map<Id, (Kind, Bytes)>

  /** `retain`: an object of the kind asked for, within the byte bound, and not empty. */
  predicate Retrievable(objects: Objects, kind: Kind, id: Id) {
    id in objects && objects[id].0 == kind && 0 < |objects[id].1| <= MAX_JSON_BYTES
  }

  /** All trees that can be retained and read. */
  function TreesOf(objects: Objects): Trees {
    map d | d in objects && Retrievable(objects, TreeKind, d) && ParseTree(objects[d].1).Some? ::
      ParseTree(objects[d].1).value
  }

  predicate IsTreeOf(objects: Objects, all: Trees, d: Id) {
    && (d in all <==> Retrievable(objects, TreeKind, d) && ParseTree(objects[d].1).Some?)
    && (d in all ==> Some(all[d]) == ParseTree(objects[d].1))
  }

  // --- The walk, tree by tree ----------------------------------------------------------------------

  /** The tree that the first `i` names of `path` lead to. */
  function NodeAt(trees: Trees, id: Id, path: Path, i: nat): Option<Id>
    requires i <= |path|
  {
    if i == 0 then Some(id)
    else
      match NodeAt(trees, id, path, i - 1)
      case None => None
      case Some(node) =>
        if node in trees && path[i-1] in trees[node] && trees[node][path[i-1]].0 == DIRECTORY
        then Some(trees[node][path[i-1]].1)
        else None
  }

  lemma {:induction false} BlobFromNode(trees: Trees, id: Id, path: Path, i: nat)
    requires i < |path|
    ensures match NodeAt(trees, id, path, i)
            case None => BlobAt(trees, id, path).None?
            case Some(node) => BlobAt(trees, id, path) == BlobAt(trees, node, path[i..])
    decreases i
  {
    if i == 0 {
      assert path[0..] == path;
    } else {
      BlobFromNode(trees, id, path, i - 1);
      assert path[i-1..][0] == path[i-1] && path[i-1..][1..] == path[i..];
    }
  }

  /** The trees that the first `n` names of a path are looked up in are all among `some`. */
  ghost predicate Covers(some: Trees, all: Trees, id: Id, path: Path, n: nat)
    requires n <= |path|
  {
    forall j :: 0 <= j < n ==> NodeAt(all, id, path, j).Some? && NodeAt(all, id, path, j).value in some
  }

  lemma {:induction false} CoveredFrom(some: Trees, all: Trees, id: Id, path: Path, i: nat)
    requires Within(some, all) && i < |path| && Covers(some, all, id, path, |path|)
    ensures var node := NodeAt(all, id, path, i).value; BlobAt(some, node, path[i..]) == BlobAt(all, node, path[i..])
    decreases |path| - i
  {
    if i + 1 < |path| {
      CoveredFrom(some, all, id, path, i + 1);
      assert path[i..][0] == path[i] && path[i..][1..] == path[i+1..];
      assert NodeAt(all, id, path, i + 1).Some?;
    }
  }

  lemma CoveredBlob(some: Trees, all: Trees, id: Id, path: Path)
    requires path != [] && Within(some, all) && Covers(some, all, id, path, |path|)
    ensures BlobAt(some, id, path) == BlobAt(all, id, path)
  {
    CoveredFrom(some, all, id, path, 0);
    assert path[0..] == path;
  }

  // --- Building ------------------------------------------------------------------------------------

  /** One retained tree and what it says. */
  predicate Cached(objects: Objects, trees: map<Id, Bytes>, decoded: Trees, d: Id) {
    && (d in trees <==> d in decoded)
    && (d in trees ==>
          && Retrievable(objects, TreeKind, d)
          && objects[d].1 == trees[d]
          && ParseTree(trees[d]) == Some(decoded[d]))
  }

  ghost predicate Loaded(objects: Objects, all: Trees, trees: map<Id, Bytes>, decoded: Trees) {
    && (forall d {:trigger IsTreeOf(objects, all, d)} :: IsTreeOf(objects, all, d))
    && (forall d {:trigger Cached(objects, trees, decoded, d)} :: Cached(objects, trees, decoded, d))
    && Within(decoded, all)
  }

  lemma LoadedNext(objects: Objects, all: Trees, trees: map<Id, Bytes>, decoded: Trees, id: Id, entries: Entries)
    requires Loaded(objects, all, trees, decoded)
    requires Retrievable(objects, TreeKind, id) && ParseTree(objects[id].1) == Some(entries)
    requires id !in decoded
    ensures Loaded(objects, all, trees[id := objects[id].1], decoded[id := entries])
    ensures Within(decoded, decoded[id := entries]) && id in all && all[id] == entries
  {
    var trees', decoded' := trees[id := objects[id].1], decoded[id := entries];
    assert IsTreeOf(objects, all, id);
    forall d ensures Cached(objects, trees', decoded', d) {
      assert Cached(objects, trees, decoded, d);
    }
  }

  function EntryAt(trees: Trees, id: Id, name: Bytes): Option<(Bytes, Id)> {
    if id in trees && name in trees[id] then Some(trees[id][name]) else None
  }

  /** `load_tree(id)[name]`. */
  method LoadEntry(objects: Objects, ghost all: Trees, trees: map<Id, Bytes>, decoded: Trees, id: Id, name: Bytes)
    returns (entry: Option<(Bytes, Id)>, trees': map<Id, Bytes>, decoded': Trees)
    requires Loaded(objects, all, trees, decoded)
    ensures Loaded(objects, all, trees', decoded') && Within(decoded, decoded')
    ensures entry == EntryAt(all, id, name)
    ensures entry.Some? ==> id in decoded'
  {
    if id in decoded { return EntryAt(decoded, id, name), trees, decoded; }
    assert IsTreeOf(objects, all, id);
    if !Retrievable(objects, TreeKind, id) { return None, trees, decoded; }
    var entries := TreeEntries(objects[id].1);
    if entries.None? { return None, trees, decoded; }
    LoadedNext(objects, all, trees, decoded, id, entries.value);
    trees', decoded' := trees[id := objects[id].1], decoded[id := entries.value];
    entry := EntryAt(decoded', id, name);
  }

  method WalkRetaining(objects: Objects, ghost all: Trees, trees: map<Id, Bytes>, decoded: Trees, tree: Id, path: Path)
    returns (blob: Option<Id>, trees': map<Id, Bytes>, decoded': Trees)
    requires Loaded(objects, all, trees, decoded) && path != []
    ensures Loaded(objects, all, trees', decoded') && Within(decoded, decoded')
    ensures blob == BlobAt(all, tree, path)
    ensures blob.Some? ==> BlobAt(decoded', tree, path) == blob
  {
    trees', decoded' := trees, decoded;
    var current := tree;
    for i := 0 to |path| - 1
      invariant Loaded(objects, all, trees', decoded') && Within(decoded, decoded')
      invariant NodeAt(all, tree, path, i) == Some(current) && Covers(decoded', all, tree, path, i)
    {
      BlobFromNode(all, tree, path, i + 1);
      var entry;
      entry, trees', decoded' := LoadEntry(objects, all, trees', decoded', current, path[i]);
      if entry.None? || entry.value.0 != DIRECTORY { return None, trees', decoded'; }
      current := entry.value.1;
    }
    var last := |path| - 1;
    BlobFromNode(all, tree, path, last);
    assert path[last..] == [path[last]];
    var entry;
    entry, trees', decoded' := LoadEntry(objects, all, trees', decoded', current, path[last]);
    if entry.None? || !RegularMode(entry.value.0) { return None, trees', decoded'; }
    CoveredBlob(decoded', all, tree, path);
    return Some(entry.value.1), trees', decoded';
  }

  /** A file that can be retained. */
  predicate Keepable(objects: Objects, all: Trees, tree: Id, path: Path) {
    SafeNames(path) && var blob := BlobAt(all, tree, path); blob.Some? && Retrievable(objects, BlobKind, blob.value)
  }

  ghost predicate Retainable(objects: Objects, head: Id, files: seq<Path>) {
    && Retrievable(objects, CommitKind, head)
    && LooseTreeOf(objects[head].1).Some?
    && forall p :: p in files ==> Keepable(objects, TreesOf(objects), LooseTreeOf(objects[head].1).value, p)
  }

  predicate Kept(objects: Objects, decoded: Trees, tree: Id, path: Path, bytes: Bytes) {
    SafeNames(path) && var blob := BlobAt(decoded, tree, path);
      blob.Some? && Retrievable(objects, BlobKind, blob.value) && objects[blob.value].1 == bytes
  }

  /** A finished proof against the repository that it was made from. */
  ghost predicate Retained(objects: Objects, head: Id, files: seq<Path>, tree: Id, proof: Proof, decoded: Trees) {
    && Retrievable(objects, CommitKind, head) && proof.commit == objects[head].1
    && LooseTreeOf(proof.commit) == Some(tree)
    && Loaded(objects, TreesOf(objects), proof.trees, decoded)
    && (forall p :: p in proof.files <==> p in files)
    && (forall p :: p in proof.files ==> Kept(objects, decoded, tree, p, proof.files[p]))
  }

  lemma KeptGrows(objects: Objects, some: Trees, more: Trees, tree: Id, path: Path, bytes: Bytes)
    requires Kept(objects, some, tree, path, bytes) && Within(some, more)
    ensures Kept(objects, more, tree, path, bytes)
  {
    BlobAtGrows(some, more, tree, path);
  }

  method RetainFile(objects: Objects, ghost all: Trees, trees: map<Id, Bytes>, decoded: Trees, tree: Id, path: Path)
    returns (bytes: Option<Bytes>, trees': map<Id, Bytes>, decoded': Trees)
    requires Loaded(objects, all, trees, decoded)
    ensures Loaded(objects, all, trees', decoded') && Within(decoded, decoded')
    ensures bytes.Some? <==> Keepable(objects, all, tree, path)
    ensures bytes.Some? ==> Kept(objects, decoded', tree, path, bytes.value)
  {
    if !SafeNames(path) { return None, trees, decoded; }
    var blob;
    blob, trees', decoded' := WalkRetaining(objects, all, trees, decoded, tree, path);
    if blob.None? || !Retrievable(objects, BlobKind, blob.value) { return None, trees', decoded'; }
    return Some(objects[blob.value].1), trees', decoded';
  }

  ghost predicate AllKept(objects: Objects, decoded: Trees, tree: Id, kept: map<Path, Bytes>) {
    forall p :: p in kept ==> Kept(objects, decoded, tree, p, kept[p])
  }

  lemma AllKeptNext(objects: Objects, some: Trees, more: Trees, tree: Id, kept: map<Path, Bytes>, path: Path,
                    bytes: Bytes)
    requires AllKept(objects, some, tree, kept) && Within(some, more) && Kept(objects, more, tree, path, bytes)
    ensures AllKept(objects, more, tree, kept[path := bytes])
  {
    forall p | p in kept ensures Kept(objects, more, tree, p, kept[p]) {
      KeptGrows(objects, some, more, tree, p, kept[p]);
    }
  }

  /** The loop over the files. */
  method RetainFiles(objects: Objects, ghost all: Trees, tree: Id, files: seq<Path>)
    returns (kept: Option<map<Path, Bytes>>, trees: map<Id, Bytes>, ghost decoded: Trees)
    requires Loaded(objects, all, map[], map[])
    ensures kept.Some? <==> forall p :: p in files ==> Keepable(objects, all, tree, p)
    ensures kept.Some? ==> Loaded(objects, all, trees, decoded) && AllKept(objects, decoded, tree, kept.value)
    ensures kept.Some? ==> forall p :: p in kept.value <==> p in files
  {
    var read: Trees, found: map<Path, Bytes> := map[], map[];
    trees, decoded := map[], map[];
    for i := 0 to |files|
      invariant decoded == read && Loaded(objects, all, trees, read)
      invariant AllKept(objects, read, tree, found)
      invariant forall p :: p in found <==> p in files[..i]
      invariant forall p :: p in files[..i] ==> Keepable(objects, all, tree, p)
    {
      assert files[..i+1] == files[..i] + [files[i]] && files[i] in files;
      var bytes, next;
      bytes, trees, next := RetainFile(objects, all, trees, read, tree, files[i]);
      if bytes.None? { return None, trees, next; }
      AllKeptNext(objects, read, next, tree, found, files[i], bytes.value);
      read, decoded := next, next;
      found := found[files[i] := bytes.value];
    }
    assert files[..|files|] == files;
    return Some(found), trees, decoded;
  }

  lemma NothingLoaded(objects: Objects)
    ensures Loaded(objects, TreesOf(objects), map[], map[])
  {
  }

  method RetainSource(objects: Objects, head: Id, files: seq<Path>) returns (proof: Option<Proof>)
    ensures proof.Some? <==> Retainable(objects, head, files)
    ensures proof.Some? ==> exists tree, decoded :: Retained(objects, head, files, tree, proof.value, decoded)
  {
    if !Retrievable(objects, CommitKind, head) { return None; }
    var commit := objects[head].1;
    var tree := LooseTreeOf(commit);
    if tree.None? { return None; }
    NothingLoaded(objects);
    var kept, trees;
    ghost var decoded;
    kept, trees, decoded := RetainFiles(objects, TreesOf(objects), tree.value, files);
    if kept.None? { return None; }
    assert Retained(objects, head, files, tree.value, Proof(commit, trees, kept.value), decoded);
    return Some(Proof(commit, trees, kept.value));
  }

  // --- What the checker makes of it ------------------------------------------------------------------

  /** Git's own guarantees: an object's name is its digest, and a commit begins with its tree. */
  ghost predicate GitStore(hash: Bytes -> Id, objects: Objects) {
    forall id {:trigger GitObject(hash, objects, id)} :: GitObject(hash, objects, id)
  }

  predicate GitObject(hash: Bytes -> Id, objects: Objects, id: Id) {
    id in objects ==>
      && ObjectDigest(hash, objects[id].0, objects[id].1) == id
      && (objects[id].0 == CommitKind ==> TreeOf(objects[id].1).Some?)
  }

  lemma RetainedOpens(hash: Bytes -> Id, objects: Objects, head: Id, files: seq<Path>, tree: Id, proof: Proof,
                      decoded: Trees)
    requires GitStore(hash, objects) && Retained(objects, head, files, tree, proof, decoded)
    ensures Opens(hash, proof, head, tree, decoded)
  {
    assert GitObject(hash, objects, head);
    forall d | d in proof.trees ensures GoodTree(hash, d, proof.trees[d]) {
      assert Cached(objects, proof.trees, decoded, d) && GitObject(hash, objects, d);
    }
    forall d ensures d in proof.trees <==> d in decoded { assert Cached(objects, proof.trees, decoded, d); }
    forall d | d in decoded ensures ParseTree(proof.trees[d]) == Some(decoded[d]) {
      assert Cached(objects, proof.trees, decoded, d);
    }
  }

  /** Every proof that is built from a Git repository is accepted for its commit and its files. */
  lemma RetainedIsAccepted(hash: Bytes -> Id, objects: Objects, head: Id, files: seq<Path>, tree: Id, proof: Proof,
                           decoded: Trees)
    requires GitStore(hash, objects) && Retained(objects, head, files, tree, proof, decoded)
    ensures Accepts(hash, proof, head, files, tree, decoded)
  {
    RetainedOpens(hash, objects, head, files, tree, proof, decoded);
    forall p | p in files ensures GoodFile(hash, proof, decoded, tree, p) {
      assert Kept(objects, decoded, tree, p, proof.files[p]);
      assert GitObject(hash, objects, BlobAt(decoded, tree, p).value);
    }
  }

  /** A proof whose bytes are the repository's. */
  ghost predicate FromStore(hash: Bytes -> Id, objects: Objects, head: Id, proof: Proof) {
    && head in objects && objects[head] == (CommitKind, proof.commit)
    && (forall d :: d in proof.trees ==> d in objects && objects[d] == (TreeKind, proof.trees[d]))
    && (forall p :: p in proof.files ==> Stored(hash, objects, proof.files[p]))
  }

  predicate Stored(hash: Bytes -> Id, objects: Objects, bytes: Bytes) {
    var id := ObjectDigest(hash, BlobKind, bytes);
    id in objects && objects[id] == (BlobKind, bytes)
  }

  ghost predicate Provable(hash: Bytes -> Id, objects: Objects, head: Id, files: seq<Path>, proof: Proof, tree: Id,
                           decoded: Trees) {
    && FromStore(hash, objects, head, proof)
    && Accepts(hash, proof, head, files, tree, decoded)
    && forall p :: p in proof.files ==> proof.files[p] != []
  }

  lemma TreeIsRead(objects: Objects, id: Id, raw: Bytes, entries: Entries)
    requires id in objects && objects[id] == (TreeKind, raw) && |raw| <= MAX_JSON_BYTES
    requires ParseTree(raw) == Some(entries) && entries != map[]
    ensures id in TreesOf(objects) && TreesOf(objects)[id] == entries
  {
    assert raw != [] by { assert ParseTree([]) == Some(map[]); }
  }

  lemma {:induction false} BlobInStore(objects: Objects, proof: Proof, decoded: Trees, id: Id, path: Path)
    requires forall d :: d in proof.trees ==>
               d in objects && objects[d] == (TreeKind, proof.trees[d]) && |proof.trees[d]| <= MAX_JSON_BYTES
    requires Reads(decoded, proof.trees) && BlobAt(decoded, id, path).Some?
    ensures BlobAt(TreesOf(objects), id, path) == BlobAt(decoded, id, path)
    decreases |path|
  {
    TreeIsRead(objects, id, proof.trees[id], decoded[id]);
    if |path| > 1 { BlobInStore(objects, proof, decoded, decoded[id][path[0]].1, path[1..]); }
  }

  lemma ProvableIsRetainable(hash: Bytes -> Id, objects: Objects, head: Id, files: seq<Path>, proof: Proof, tree: Id,
                             decoded: Trees)
    requires Provable(hash, objects, head, files, proof, tree, decoded)
    ensures Retainable(objects, head, files)
  {
    assert proof.commit != [] by { assert FirstLine([]) == []; }
    forall p | p in files ensures Keepable(objects, TreesOf(objects), tree, p) {
      assert GoodFile(hash, proof, decoded, tree, p) && Stored(hash, objects, proof.files[p]);
      forall d | d in proof.trees ensures |proof.trees[d]| <= MAX_JSON_BYTES {
        assert GoodTree(hash, d, proof.trees[d]);
      }
      BlobInStore(objects, proof, decoded, tree, p);
    }
  }

  function BytesAt(objects: Objects, all: Trees, tree: Id, path: Path): Bytes {
    if Keepable(objects, all, tree, path) then objects[BlobAt(all, tree, path).value].1 else []
  }

  /** The proof with every tree that the repository has. */
  function WholeProof(objects: Objects, head: Id, files: seq<Path>, tree: Id): Proof
    requires head in objects
  {
    var all := TreesOf(objects);
    Proof(objects[head].1,
          map d | d in objects && d in all :: objects[d].1,
          map p | p in files :: BytesAt(objects, all, tree, p))
  }

  lemma RetainableIsProvable(hash: Bytes -> Id, objects: Objects, head: Id, files: seq<Path>)
    requires GitStore(hash, objects) && Retainable(objects, head, files)
    ensures exists proof, tree, decoded :: Provable(hash, objects, head, files, proof, tree, decoded)
  {
    var tree, all := LooseTreeOf(objects[head].1).value, TreesOf(objects);
    var proof := WholeProof(objects, head, files, tree);
    forall d ensures Cached(objects, proof.trees, all, d) { }
    forall p | p in proof.files ensures Kept(objects, all, tree, p, proof.files[p]) {
      assert Keepable(objects, all, tree, p);
    }
    assert Retained(objects, head, files, tree, proof, all);
    RetainedIsAccepted(hash, objects, head, files, tree, proof, all);
    forall p | p in proof.files ensures Stored(hash, objects, proof.files[p]) && proof.files[p] != [] {
      assert Keepable(objects, all, tree, p) && GitObject(hash, objects, BlobAt(all, tree, p).value);
    }
    assert Provable(hash, objects, head, files, proof, tree, all);
  }

  /**
   Exactly when a proof can be built: when the checker would accept one made of the repository's bytes,
   and none of the files is empty. The builder refuses an empty object, the checker does not.
   */
  lemma RetainableIffProvable(hash: Bytes -> Id, objects: Objects, head: Id, files: seq<Path>)
    requires GitStore(hash, objects)
    ensures Retainable(objects, head, files)
            <==> exists proof, tree, decoded :: Provable(hash, objects, head, files, proof, tree, decoded)
  {
    if Retainable(objects, head, files) { RetainableIsProvable(hash, objects, head, files); }
    if proof, tree, decoded :| Provable(hash, objects, head, files, proof, tree, decoded) {
      ProvableIsRetainable(hash, objects, head, files, proof, tree, decoded);
    }
  }
}
