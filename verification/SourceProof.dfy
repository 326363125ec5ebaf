/** Proofs that files are part of a Git commit, as `source_proof` (release_evidence.py) checks them. */
module SourceProof {
  // `retain_source` (release_verify.py) builds them. A path is the list of its names.

  import opened Prelude
  import opened TextEncoding
  import opened GitObjects
  import P = Paths

  const MAX_JSON_BYTES := 0x40_0000
  const MAX_DEPTH := 32

  type Path = seq<Bytes>

  // "40000", "100644" and "100755"
  const DIRECTORY: Bytes := [52, 48, 48, 48, 48]
  const PLAIN: Bytes := [49, 48, 48, 54, 52, 52]
  const EXECUTABLE: Bytes := [49, 48, 48, 55, 53, 53]

  predicate RegularMode(mode: Bytes) {
    mode == PLAIN || mode == EXECUTABLE
  }

  lemma ConstantsSpelled()
    ensures Utf8Of("40000") == DIRECTORY && Utf8Of("100644") == PLAIN && Utf8Of("100755") == EXECUTABLE
    ensures Utf8Of("tree ") == TREE_PREFIX
  {
    AsciiOf("40000", DIRECTORY);
    AsciiOf("100644", PLAIN);
    AsciiOf("100755", EXECUTABLE);
    AsciiOf("tree ", TREE_PREFIX);
  }

  /** `safe_path`, name by name. */
  predicate SafeName(name: Bytes) {
    && name != [] && Nameable(name)
    && forall c :: c in name ==> 32 <= c < 127 && c != BACKSLASH
  }

  function Length(path: Path): nat {
    if path == [] then 0 else |path[0]| + 1 + Length(path[1..])
  }

  predicate SafeNames(path: Path) {
    path != [] && Length(path) - 1 <= 512 && forall i :: 0 <= i < |path| ==> SafeName(path[i])
  }

  // --- The same on the path as one text ---------------------------------------------------------

  function Joined(path: Path): Bytes {
    if path == [] then [] else if |path| == 1 then path[0] else path[0] + [SLASH] + Joined(path[1..])
  }

  predicate Unslashed(path: Path) {
    forall i :: 0 <= i < |path| ==> SLASH !in path[i]
  }

  lemma {:induction false} JoinedLength(path: Path)
    requires path != []
    ensures |Joined(path)| == Length(path) - 1
    decreases |path|
  {
    if |path| > 1 {
      JoinedLength(path[1..]);
    } else {
      assert path[1..] == [];
    }
  }

  /** A piece between slashes is one of the names. */
  lemma {:induction false} ComponentIsName(path: Path, i: nat, j: nat) returns (k: nat)
    requires path != [] && Unslashed(path) && i <= j && P.Component(Joined(path), i, j)
    ensures k < |path| && Joined(path)[i..j] == path[k]
    decreases |path|
  {
    var s, first := Joined(path), |path[0]|;
    assert forall x :: 0 <= x < first ==> s[x] == path[0][x] && path[0][x] in path[0];
    if i <= first {
      assert i == 0 && (|path| == 1 || s[first] == SLASH);
      return 0;
    }
    var rest := Joined(path[1..]);
    ComponentLater(path[0] + [SLASH], rest, i, j);
    k := ComponentIsName(path[1..], i - first - 1, j - first - 1);
    k := k + 1;
  }

  lemma ComponentLater(a: Bytes, rest: Bytes, i: nat, j: nat)
    requires a != [] && |a| <= i <= j && P.Component(a + rest, i, j)
    ensures P.Component(rest, i - |a|, j - |a|) && (a + rest)[i..j] == rest[i - |a|..j - |a|]
  {
    var s := a + rest;
    assert s[i..j] == rest[i - |a|..j - |a|];
    assert i > |a| ==> rest[i - |a| - 1] == s[i-1];
  }

  /** Every name is a piece between slashes. */
  lemma {:induction false} NameIsComponent(path: Path, k: nat) returns (i: nat, j: nat)
    requires k < |path| && Unslashed(path)
    ensures i <= j && P.Component(Joined(path), i, j) && Joined(path)[i..j] == path[k]
    decreases |path|
  {
    var s, first := Joined(path), |path[0]|;
    if k == 0 {
      assert s[0..first] == path[0];
      return 0, first;
    }
    i, j := NameIsComponent(path[1..], k - 1);
    var rest := Joined(path[1..]);
    assert rest == s[first + 1..];
    assert rest[i..j] == s[i + first + 1..j + first + 1];
    i, j := i + first + 1, j + first + 1;
  }

  lemma {:induction false} JoinedHas(path: Path, c: Byte)
    requires path != [] && c != SLASH
    ensures c in Joined(path) <==> exists k :: 0 <= k < |path| && c in path[k]
    decreases |path|
  {
    if |path| > 1 {
      var rest := path[1..];
      JoinedHas(rest, c);
      assert forall k :: 1 <= k < |path| ==> path[k] == rest[k-1];
      if c in path[0] || c in Joined(rest) { assert c in Joined(path); }
    }
  }

  /** The two ways to say that a path is safe agree: on its names, and on its text. */
  lemma SafeNamesIsSafePath(path: Path)
    requires path != [] && Unslashed(path)
    ensures SafeNames(path) <==> P.SafePath(Joined(path))
  {
    JoinedLength(path);
    if SafeNames(path) { SafeNamesAreSafe(path); }
    if P.SafePath(Joined(path)) { SafePathHasSafeNames(path); }
  }

  lemma SafeNamesAreSafe(path: Path)
    requires path != [] && Unslashed(path) && SafeNames(path) && |Joined(path)| == Length(path) - 1
    ensures P.SafePath(Joined(path))
  {
    var s := Joined(path);
    assert path[0] != [] && s[0] == path[0][0] && s[0] in path[0];
    forall c | c in s ensures 32 <= c < 127 && c != BACKSLASH {
      if c != SLASH {
        JoinedHas(path, c);
        var k :| 0 <= k < |path| && c in path[k];
        assert SafeName(path[k]);
      }
    }
    forall i: nat, j: nat | i <= j <= |s| && P.Component(s, i, j) ensures s[i..j] !in [[], [DOT], [DOT, DOT]] {
      var k := ComponentIsName(path, i, j);
      assert SafeName(path[k]);
    }
  }

  lemma SafePathHasSafeNames(path: Path)
    requires path != [] && Unslashed(path) && P.SafePath(Joined(path)) && |Joined(path)| == Length(path) - 1
    ensures SafeNames(path)
  {
    var s := Joined(path);
    forall k | 0 <= k < |path| ensures SafeName(path[k]) {
      var i, j := NameIsComponent(path, k);
      assert s[i..j] !in [[], [DOT], [DOT, DOT]];
      forall c | c in path[k] ensures 32 <= c < 127 && c != BACKSLASH { JoinedHas(path, c); }
    }
  }

  /** The references of a proof, resolved to the bytes that they name. */
  datatype Proof = Proof(commit: Bytes, trees: map<Id, Bytes>, files: map<Path, Bytes>)

  // --- Commits ---------------------------------------------------------------------------------

  function FirstLine(s: Bytes): (r: Bytes)
    ensures |r| <= |s| && r == s[..|r|] && NEWLINE !in r
    ensures |r| < |s| ==> s[|r|] == NEWLINE
  {
    if s == [] || s[0] == NEWLINE then [] else [s[0]] + FirstLine(s[1..])
  }

  // "tree "
  const TREE_PREFIX: Bytes := [116, 114, 101, 101, 32]

  predicate IsHex40(s: Bytes) {
    |s| == 40 && forall c :: c in s ==> IsHexDigit(c)
  }

  /** The tree that a commit names, as the checker reads it. */
  function TreeOf(commit: Bytes): Option<Id> {
    var line := FirstLine(commit);
    if Utf8(line) && TREE_PREFIX <= line && IsHex40(line[5..]) then Some(line[5..]) else None
  }

  /** The same as the builder reads it, without looking at what is left. */
  function LooseTreeOf(commit: Bytes): Option<Id> {
    var line := FirstLine(commit);
    if !Utf8(line) then None
    else if TREE_PREFIX <= line then Some(line[5..])
    else Some(line)
  }

  // --- What a path names in a set of trees -------------------------------------------------------

  type Trees = map<Id, Entries>

  /** The blob of the regular file at `path`. */
  function BlobAt(trees: Trees, id: Id, path: Path): Option<Id>
    decreases |path|
  {
    if path == [] || id !in trees || path[0] !in trees[id] then None
    else
      var (mode, child) := trees[id][path[0]];
      if |path| == 1 then if RegularMode(mode) then Some(child) else None
      else if mode == DIRECTORY then BlobAt(trees, child, path[1..])
      else None
  }

  /**
   `ids` are the objects on the way: the tree `id`, then what each name of the path stands for in the tree
   before it, all trees but the last one, which is a regular file.
   */
  ghost predicate Leads(trees: Trees, id: Id, path: Path, ids: seq<Id>) {
    && |ids| == |path| + 1 && path != [] && ids[0] == id
    && forall i :: 0 <= i < |path| ==>
         && ids[i] in trees && path[i] in trees[ids[i]] && trees[ids[i]][path[i]].1 == ids[i + 1]
         && var mode := trees[ids[i]][path[i]].0; if i < |path| - 1 then mode == DIRECTORY else RegularMode(mode)
  }

  lemma {:induction false} BlobAtLeads(trees: Trees, id: Id, path: Path) returns (ids: seq<Id>)
    requires BlobAt(trees, id, path).Some?
    ensures Leads(trees, id, path, ids) && ids[|path|] == BlobAt(trees, id, path).value
    decreases |path|
  {
    var child := trees[id][path[0]].1;
    ids := [id, child];
    if |path| > 1 {
      var rest := BlobAtLeads(trees, child, path[1..]);
      ids := [id] + rest;
      forall i | 0 < i < |path| ensures ids[i] == rest[i - 1] && ids[i + 1] == rest[i] && path[i] == path[1..][i - 1] {
      }
    }
  }

  lemma {:induction false} LeadsIsBlobAt(trees: Trees, id: Id, path: Path, ids: seq<Id>)
    requires Leads(trees, id, path, ids)
    ensures BlobAt(trees, id, path) == Some(ids[|path|])
    decreases |path|
  {
    if |path| > 1 {
      forall i | 0 <= i < |path| - 1 ensures ids[1..][i] == ids[i + 1] && path[1..][i] == path[i + 1] { }
      LeadsIsBlobAt(trees, ids[1], path[1..], ids[1..]);
    }
  }

  /** A path names a blob exactly if trees lead to it. */
  lemma BlobAtIff(trees: Trees, id: Id, path: Path, blob: Id)
    ensures BlobAt(trees, id, path) == Some(blob)
            <==> exists ids :: Leads(trees, id, path, ids) && ids[|path|] == blob
  {
    if BlobAt(trees, id, path) == Some(blob) { var ids := BlobAtLeads(trees, id, path); }
    forall ids | Leads(trees, id, path, ids) ensures BlobAt(trees, id, path) == Some(ids[|path|]) {
      LeadsIsBlobAt(trees, id, path, ids);
    }
  }

  ghost predicate Within<K, V>(some: map<K, V>, more: map<K, V>) {
    forall k :: k in some ==> k in more && more[k] == some[k]
  }

  lemma {:induction false} BlobAtGrows(some: Trees, more: Trees, id: Id, path: Path)
    requires Within(some, more) && BlobAt(some, id, path).Some?
    ensures BlobAt(more, id, path) == BlobAt(some, id, path)
    decreases |path|
  {
    if |path| > 1 { BlobAtGrows(some, more, some[id][path[0]].1, path[1..]); }
  }

  /** `decoded` is what the retained bytes say. */
  ghost predicate Reads(decoded: Trees, trees: map<Id, Bytes>) {
    decoded.Keys == trees.Keys && forall d :: d in decoded ==> ParseTree(trees[d]) == Some(decoded[d])
  }

  lemma ReadsUnique(a: Trees, b: Trees, trees: map<Id, Bytes>)
    requires Reads(a, trees) && Reads(b, trees)
    ensures a == b
  {
    forall d | d in a ensures a[d] == b[d] { assert Some(a[d]) == ParseTree(trees[d]) == Some(b[d]); }
  }

  // --- Checking ----------------------------------------------------------------------------------

  predicate GoodTree(hash: Bytes -> Id, id: Id, raw: Bytes) {
    |raw| <= MAX_JSON_BYTES && ObjectDigest(hash, TreeKind, raw) == id
  }

  ghost predicate GoodTrees(hash: Bytes -> Id, trees: map<Id, Bytes>) {
    forall d :: d in trees ==> GoodTree(hash, d, trees[d])
  }

  predicate GoodFile(hash: Bytes -> Id, proof: Proof, decoded: Trees, tree: Id, path: Path) {
    && SafeNames(path)
    && path in proof.files
    && |proof.files[path]| <= MAX_JSON_BYTES
    && BlobAt(decoded, tree, path) == Some(ObjectDigest(hash, BlobKind, proof.files[path]))
  }

  ghost predicate AllGood(hash: Bytes -> Id, proof: Proof, decoded: Trees, tree: Id, files: seq<Path>) {
    forall p :: p in files ==> GoodFile(hash, proof, decoded, tree, p)
  }

  /** A proof before its files are looked at: the commit, its tree and the retained trees. */
  ghost predicate Opens(hash: Bytes -> Id, proof: Proof, commit: Id, tree: Id, decoded: Trees) {
    && |proof.commit| <= MAX_JSON_BYTES
    && ObjectDigest(hash, CommitKind, proof.commit) == commit
    && TreeOf(proof.commit) == Some(tree)
    && GoodTrees(hash, proof.trees)
    && Reads(decoded, proof.trees)
  }

  /** What the checker accepts: the files `files`, as part of the tree `tree` of the commit. */
  ghost predicate Accepts(hash: Bytes -> Id, proof: Proof, commit: Id, files: seq<Path>, tree: Id, decoded: Trees) {
    && Opens(hash, proof, commit, tree, decoded)
    && (forall p :: p in proof.files <==> p in files)
    && AllGood(hash, proof, decoded, tree, files)
  }

  /** The loop over the retained trees, in any order. */
  method DecodeTrees(hash: Bytes -> Id, trees: map<Id, Bytes>) returns (decoded: Option<Trees>)
    ensures decoded.Some? ==> GoodTrees(hash, trees) && Reads(decoded.value, trees)
    ensures decoded.None? ==> exists d :: d in trees && !(GoodTree(hash, d, trees[d]) && ParseTree(trees[d]).Some?)
  {
    var found: Trees := map[];
    var left := trees.Keys;
    while left != {}
      invariant left <= trees.Keys && found.Keys == trees.Keys - left
      invariant forall d :: d in found ==> GoodTree(hash, d, trees[d]) && ParseTree(trees[d]) == Some(found[d])
      decreases left
    {
      var d :| d in left;
      if !GoodTree(hash, d, trees[d]) { return None; }
      var entries := TreeEntries(trees[d]);
      if entries.None? { return None; }
      found := found[d := entries.value];
      left := left - {d};
    }
    return Some(found);
  }

  /** The walk down to one file's blob. */
  method Walk(decoded: Trees, tree: Id, path: Path) returns (blob: Option<Id>)
    requires path != []
    ensures blob == BlobAt(decoded, tree, path)
  {
    var current := tree;
    for i := 0 to |path| - 1
      invariant BlobAt(decoded, tree, path) == BlobAt(decoded, current, path[i..])
    {
      assert path[i..][0] == path[i] && path[i..][1..] == path[i+1..];
      if current !in decoded || path[i] !in decoded[current] { return None; }
      var (mode, child) := decoded[current][path[i]];
      if mode != DIRECTORY { return None; }
      current := child;
    }
    var name := path[|path| - 1];
    if current !in decoded || name !in decoded[current] { return None; }
    var (mode, child) := decoded[current][name];
    return if RegularMode(mode) then Some(child) else None;
  }

  /** The check of every listed file. */
  method CheckFiles(hash: Bytes -> Id, proof: Proof, decoded: Trees, tree: Id, files: seq<Path>) returns (ok: bool)
    ensures ok <==> (forall p :: p in proof.files <==> p in files) && AllGood(hash, proof, decoded, tree, files)
  {
    if proof.files.Keys != set p | p in files { return false; }
    for i := 0 to |files|
      invariant forall j :: 0 <= j < i ==> GoodFile(hash, proof, decoded, tree, files[j])
    {
      var path := files[i];
      assert path in files;
      if !SafeNames(path) { return false; }
      var blob := Walk(decoded, tree, path);
      var bytes := proof.files[path];
      if blob.None? || |bytes| > MAX_JSON_BYTES || ObjectDigest(hash, BlobKind, bytes) != blob.value { return false; }
    }
    return true;
  }

  /** The part before the files. */
  method Open(hash: Bytes -> Id, proof: Proof, commit: Id) returns (start: Option<(Id, Trees)>)
    ensures start.Some? ==> Opens(hash, proof, commit, start.value.0, start.value.1)
    ensures start.None? ==> forall tree, decoded :: !Opens(hash, proof, commit, tree, decoded)
  {
    if |proof.commit| > MAX_JSON_BYTES || ObjectDigest(hash, CommitKind, proof.commit) != commit { return None; }
    var tree := TreeOf(proof.commit);
    if tree.None? { return None; }
    var decoded := DecodeTrees(hash, proof.trees);
    if decoded.None? {
      ClosedForAll(hash, proof, commit);
      return None;
    }
    return Some((tree.value, decoded.value));
  }

  lemma ClosedForAll(hash: Bytes -> Id, proof: Proof, commit: Id)
    requires exists d :: d in proof.trees && !(GoodTree(hash, d, proof.trees[d]) && ParseTree(proof.trees[d]).Some?)
    ensures forall tree, decoded :: !Opens(hash, proof, commit, tree, decoded)
  {
    var d :| d in proof.trees && !(GoodTree(hash, d, proof.trees[d]) && ParseTree(proof.trees[d]).Some?);
    forall tree, decoded: Trees ensures !Opens(hash, proof, commit, tree, decoded) { }
  }

  /** `source_proof` for a given list of files. */
  method CheckGiven(hash: Bytes -> Id, proof: Proof, commit: Id, files: seq<Path>) returns (tree: Option<Id>)
    ensures tree.Some? ==> exists decoded :: Accepts(hash, proof, commit, files, tree.value, decoded)
    ensures tree.None? ==> forall t, decoded :: !Accepts(hash, proof, commit, files, t, decoded)
  {
    var start := Open(hash, proof, commit);
    if start.None? { return None; }
    var ok := CheckFiles(hash, proof, start.value.1, start.value.0, files);
    if !ok {
      RefusedForAll(hash, proof, commit, files, start.value.0, start.value.1);
      return None;
    }
    assert Accepts(hash, proof, commit, files, start.value.0, start.value.1);
    return Some(start.value.0);
  }

  lemma RefusedForAll(hash: Bytes -> Id, proof: Proof, commit: Id, files: seq<Path>, tree: Id, decoded: Trees)
    requires Opens(hash, proof, commit, tree, decoded) && !Accepts(hash, proof, commit, files, tree, decoded)
    ensures forall t, d :: !Accepts(hash, proof, commit, files, t, d)
  {
    forall t, d ensures !Accepts(hash, proof, commit, files, t, d) {
      if Accepts(hash, proof, commit, files, t, d) { ReadsUnique(d, decoded, proof.trees); }
    }
  }

  // --- Binding -------------------------------------------------------------------------------------

  lemma SameTrees(hash: Bytes -> Id, a: map<Id, Bytes>, b: map<Id, Bytes>, s: Trees, t: Trees, id: Id)
    requires Injective(hash) && GoodTrees(hash, a) && GoodTrees(hash, b) && Reads(s, a) && Reads(t, b)
    requires id in s && id in t
    ensures s[id] == t[id]
  {
    SameDigestSameData(hash, TreeKind, a[id], b[id]);
    assert Some(s[id]) == ParseTree(a[id]) == Some(t[id]);
  }

  lemma {:induction false} SameBlob(s: Trees, t: Trees, id: Id, path: Path)
    requires forall d :: d in s && d in t ==> s[d] == t[d]
    requires BlobAt(s, id, path).Some? && BlobAt(t, id, path).Some?
    ensures BlobAt(s, id, path) == BlobAt(t, id, path)
    decreases |path|
  {
    if |path| > 1 { SameBlob(s, t, s[id][path[0]].1, path[1..]); }
  }

  /**
   With no two inputs of the same digest, a commit fixes its files: whatever two proofs for it are
   accepted, they name the same tree and hold the same bytes under every path that they share.
   */
  lemma ProofsAgree(hash: Bytes -> Id, commit: Id, a: Proof, these: seq<Path>, tree: Id, s: Trees,
                    b: Proof, those: seq<Path>, tree': Id, t: Trees, path: Path)
    requires Injective(hash)
    requires Accepts(hash, a, commit, these, tree, s) && Accepts(hash, b, commit, those, tree', t)
    ensures tree == tree'
    ensures path in these && path in those ==> a.files[path] == b.files[path]
  {
    SameDigestSameData(hash, CommitKind, a.commit, b.commit);
    if path in these && path in those {
      assert GoodFile(hash, a, s, tree, path) && GoodFile(hash, b, t, tree, path);
      forall d | d in s && d in t ensures s[d] == t[d] { SameTrees(hash, a.trees, b.trees, s, t, d); }
      SameBlob(s, t, tree, path);
      SameDigestSameData(hash, BlobKind, a.files[path], b.files[path]);
    }
  }
}
