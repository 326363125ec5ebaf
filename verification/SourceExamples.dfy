/**
 Where the builder and the checker of source proofs differ.

 The repositories here have one file, `n` names down. Their objects are numbered: 0 is the blob, 1 to `n` are
 the trees above it and 255 is the commit. An object's name is its number in hexadecimal, and the hash
 function is the one that gives these names.
 */
module SourceExamples {
  import opened Prelude
  import opened TextEncoding
  import opened GitObjects
  import opened SourceProof
  import opened SourceRetention
  import opened SourceVisit

  // --- The repositories -----------------------------------------------------------------------

  // "a"
  const NAME: Bytes := [97]

  function RawId(k: nat): (r: Bytes)
    requires k < 256
    ensures |r| == 20
  {
    [k] + seq(19, _ => 0)
  }

  function IdOf(k: nat): Id
    requires k < 256
  {
    Hex(RawId(k))
  }

  lemma IdOfInjective(j: nat, k: nat)
    requires j < 256 && k < 256 && IdOf(j) == IdOf(k)
    ensures j == k
  {
    assert IdOf(j)[0] == HexDigit(j / 16) && IdOf(j)[1] == HexDigit(j % 16);
    assert IdOf(k)[0] == HexDigit(k / 16) && IdOf(k)[1] == HexDigit(k % 16);
  }

  /** The one entry of the tree `k`: the file in the lowest one, else the tree below. */
  function EntryOf(k: nat): Entry
    requires 0 < k < 256
  {
    Entry(if k == 1 then PLAIN else DIRECTORY, NAME, RawId(k - 1))
  }

  /** The file's blob is object 0, the trees above it are 1 to `n`, and the commit of tree `n` is object 255. */
  function ObjectOf(n: nat, file: Bytes, k: nat): (Kind, Bytes)
    requires n < 255 && k < 256
  {
    if k == 0 then (BlobKind, file)
    else if k == 255 then (CommitKind, TREE_PREFIX + IdOf(n))
    else (TreeKind, EncodedTree([EntryOf(k)]))
  }

  predicate Numbered(n: nat, k: nat) {
    k <= n || k == 255
  }

  ghost predicate Repository(objects: Objects, n: nat, file: Bytes)
    requires n < 255
  {
    && (forall k: nat {:trigger Holds(objects, n, file, k)} :: Holds(objects, n, file, k))
    && (forall id {:trigger Belongs(objects, n, id)} :: Belongs(objects, n, id))
  }

  predicate Holds(objects: Objects, n: nat, file: Bytes, k: nat)
    requires n < 255
  {
    k < 256 && Numbered(n, k) ==> IdOf(k) in objects && objects[IdOf(k)] == ObjectOf(n, file, k)
  }

  predicate Belongs(objects: Objects, n: nat, id: Id) {
    id in objects ==> exists k: nat :: k < 256 && Numbered(n, k) && id == IdOf(k)
  }

  lemma RepositoryExists(n: nat, file: Bytes) returns (objects: Objects)
    requires n < 255
    ensures Repository(objects, n, file)
  {
    objects := map[];
    for k := 0 to 256
      invariant forall j: nat | j < k && Numbered(n, j) :: IdOf(j) in objects
                                                           && objects[IdOf(j)] == ObjectOf(n, file, j)
      invariant forall id :: id in objects ==> exists j: nat :: j < k && Numbered(n, j) && id == IdOf(j)
    {
      if Numbered(n, k) {
        forall j: nat | j < k && IdOf(j) == IdOf(k) ensures false { IdOfInjective(j, k); }
        objects := objects[IdOf(k) := ObjectOf(n, file, k)];
      }
    }
    forall id ensures Belongs(objects, n, id) { }
  }

  lemma RepositoryHas(objects: Objects, n: nat, file: Bytes, k: nat)
    requires n < 255 && Repository(objects, n, file) && k < 256 && Numbered(n, k)
    ensures IdOf(k) in objects && objects[IdOf(k)] == ObjectOf(n, file, k)
  {
    assert Holds(objects, n, file, k);
  }

  // --- Reading their objects --------------------------------------------------------------------

  lemma {:induction false} FirstLineIsAll(s: Bytes)
    requires NEWLINE !in s
    ensures FirstLine(s) == s
    decreases |s|
  {
    if s != [] {
      FirstLineIsAll(s[1..]);
    }
  }

  lemma CommitNamesTree(n: nat)
    requires n < 255
    ensures TreeOf(TREE_PREFIX + IdOf(n)) == LooseTreeOf(TREE_PREFIX + IdOf(n)) == Some(IdOf(n))
  {
    var line := TREE_PREFIX + IdOf(n);
    SpellsIffHex(IdOf(n), RawId(n));
    FirstLineIsAll(line);
    AsciiIsUtf8(line);
    assert line[5..] == IdOf(n);
  }

  /** What the tree `k` says. */
  function EntriesOf(k: nat): Entries
    requires 0 < k < 256
  {
    map[NAME := (EntryOf(k).mode, IdOf(k - 1))]
  }

  lemma TreeParses(k: nat)
    requires 0 < k < 256
    ensures ParseTree(EncodedTree([EntryOf(k)])) == Some(EntriesOf(k))
    ensures 0 < |EncodedTree([EntryOf(k)])| <= MAX_JSON_BYTES
  {
    var e := EntryOf(k);
    AsciiIsUtf8(e.mode + [SPACE] + e.name);
    assert Encodable(e);
    assert [e][1..] == [] && EncodedTree([e]) == Encoded(e) + [];
    ParseEncoded(e, []);
    assert ParseFrom([], EntriesOf(k)) == Some(EntriesOf(k));
    assert map[][e.name := (e.mode, Hex(e.raw))] == EntriesOf(k);
  }

  /** The file's path in the tree `k`. */
  function PathOf(k: nat): (r: Path)
    ensures |r| == k
  {
    seq(k, _ => NAME)
  }

  lemma {:induction false} PathIsSafe(k: nat)
    requires 0 < k <= 256
    ensures Length(PathOf(k)) == 2 * k && SafeNames(PathOf(k))
    decreases k
  {
    assert PathOf(k)[1..] == PathOf(k - 1);
    if k > 1 {
      PathIsSafe(k - 1);
    } else {
      assert PathOf(0) == [];
    }
  }

  predicate HasTree(trees: Trees, k: nat)
    requires 0 < k < 256
  {
    IdOf(k) in trees && trees[IdOf(k)] == EntriesOf(k)
  }

  lemma FileStep(trees: Trees, k: nat)
    requires 0 < k < 256 && HasTree(trees, k)
    ensures BlobAt(trees, IdOf(k), PathOf(k)) == if k == 1 then Some(IdOf(0))
              else BlobAt(trees, IdOf(k - 1), PathOf(k - 1))
  {
    assert PathOf(k)[0] == NAME && PathOf(k)[1..] == PathOf(k - 1);
    assert trees[IdOf(k)][NAME] == (EntryOf(k).mode, IdOf(k - 1));
  }

  lemma {:induction false} FileIsFound(trees: Trees, k: nat)
    requires 0 < k < 256 && forall j: nat | 0 < j <= k :: HasTree(trees, j)
    ensures BlobAt(trees, IdOf(k), PathOf(k)) == Some(IdOf(0))
    decreases k
  {
    FileStep(trees, k);
    if k > 1 {
      FileIsFound(trees, k - 1);
    }
  }

  lemma RepositoryTree(objects: Objects, n: nat, file: Bytes, k: nat)
    requires n < 255 && Repository(objects, n, file) && 0 < k <= n
    ensures HasTree(TreesOf(objects), k)
  {
    RepositoryHas(objects, n, file, k);
    TreeParses(k);
    assert NAME in EntriesOf(k);
    TreeIsRead(objects, IdOf(k), EncodedTree([EntryOf(k)]), EntriesOf(k));
  }

  // --- Their names --------------------------------------------------------------------------------

  lemma FramesDiffer(a: (Kind, Bytes), b: (Kind, Bytes))
    requires Framed(a.0, a.1) == Framed(b.0, b.1)
    ensures a == b
  {
    assert Framed(a.0, a.1)[0] == a.0.Text()[0] && Framed(b.0, b.1)[0] == b.0.Text()[0];
    FramedInjective(a.0, a.1, b.1);
  }

  lemma ObjectsDiffer(n: nat, file: Bytes, j: nat, k: nat)
    requires n < 255 && j < 256 && k < 256 && ObjectOf(n, file, j) == ObjectOf(n, file, k)
    ensures j == k
  {
    if 0 < j < 255 {
      assert ObjectOf(n, file, k).0 == TreeKind;
      TreesDiffer(j, k);
    }
  }

  lemma TreesDiffer(j: nat, k: nat)
    requires 0 < j < 256 && 0 < k < 256 && EncodedTree([EntryOf(j)]) == EncodedTree([EntryOf(k)])
    ensures j == k
  {
    TreeParses(j);
    TreeParses(k);
    assert EntriesOf(j)[NAME] == EntriesOf(k)[NAME];
    IdOfInjective(j - 1, k - 1);
  }

  /** `hash` names every object of the repository as it is named there. */
  ghost predicate Names(hash: Bytes -> Id, n: nat, file: Bytes)
    requires n < 255
  {
    forall k: nat | k < 256 :: Named(hash, n, file, k)
  }

  predicate Named(hash: Bytes -> Id, n: nat, file: Bytes, k: nat)
    requires n < 255 && k < 256
  {
    ObjectDigest(hash, ObjectOf(n, file, k).0, ObjectOf(n, file, k).1) == IdOf(k)
  }

  predicate FrameOf(n: nat, file: Bytes, x: Bytes, k: nat)
    requires n < 255 && k < 256
  {
    Framed(ObjectOf(n, file, k).0, ObjectOf(n, file, k).1) == x
  }

  ghost function NameOf(n: nat, file: Bytes, x: Bytes): Id
    requires n < 255
  {
    if exists k: nat :: k < 256 && FrameOf(n, file, x, k)
    then var k: nat :| k < 256 && FrameOf(n, file, x, k); IdOf(k)
    else []
  }

  lemma NamingHash(n: nat, file: Bytes) returns (hash: Bytes -> Id)
    requires n < 255
    ensures Names(hash, n, file)
  {
    hash := x => NameOf(n, file, x);
    forall k: nat | k < 256 ensures Named(hash, n, file, k) {
      var x := Framed(ObjectOf(n, file, k).0, ObjectOf(n, file, k).1);
      assert FrameOf(n, file, x, k);
      forall j: nat | j < 256 && FrameOf(n, file, x, j) ensures j == k {
        FramesDiffer(ObjectOf(n, file, j), ObjectOf(n, file, k));
        ObjectsDiffer(n, file, j, k);
      }
    }
  }

  lemma RepositoryIsGit(hash: Bytes -> Id, objects: Objects, n: nat, file: Bytes)
    requires n < 255 && Repository(objects, n, file) && Names(hash, n, file)
    ensures GitStore(hash, objects)
  {
    forall id ensures GitObject(hash, objects, id) {
      if id in objects {
        assert Belongs(objects, n, id);
        var k: nat :| k < 256 && Numbered(n, k) && id == IdOf(k);
        RepositoryHas(objects, n, file, k);
        assert Named(hash, n, file, k);
        if k == 255 { CommitNamesTree(n); }
      }
    }
  }

  // --- A file more than 32 directories down ---------------------------------------------------------

  lemma FileIsShallow(decoded: Trees, tree: Id, p: Path)
    requires Orderly(decoded, tree, 0) && BlobAt(decoded, tree, p).Some?
    ensures |p| <= MAX_DEPTH + 1
  {
    BlobFromNode(decoded, tree, p, |p| - 1);
    OrderlyIsShallow(decoded, tree, p, |p| - 1);
  }

  /** A proof accepted for the whole tree has no file more than 32 directories down. */
  lemma WholeIsShallow(hash: Bytes -> Id, proof: Proof, commit: Id, files: seq<Path>, tree: Id, decoded: Trees, p: Path)
    requires AcceptsWhole(hash, proof, commit, files, tree, decoded) && p in files
    ensures |p| <= MAX_DEPTH + 1
  {
    FileIsShallow(decoded, tree, p);
  }

  /**
   The builder retains a file 33 directories down, and its proof is accepted for that file; but no proof
   that lists the file is accepted as one of a whole tree.
   */
  lemma DeepFileIsRetained() returns (hash: Bytes -> Id, objects: Objects, head: Id, file: Path)
    ensures GitStore(hash, objects) && Retainable(objects, head, [file]) && |file| == 34
    ensures exists proof, tree, decoded :: Provable(hash, objects, head, [file], proof, tree, decoded)
    ensures forall proof, commit, files, tree, decoded ::
              AcceptsWhole(hash, proof, commit, files, tree, decoded) ==> file !in files
  {
    hash := NamingHash(34, [1]);
    objects := RepositoryExists(34, [1]);
    head, file := IdOf(255), PathOf(34);
    RepositoryIsGit(hash, objects, 34, [1]);
    FileIsRetainable(objects, 34, [1]);
    RetainableIsProvable(hash, objects, head, [file]);
    forall proof, commit, files, tree, decoded | AcceptsWhole(hash, proof, commit, files, tree, decoded)
      ensures file !in files
    {
      if file in files { WholeIsShallow(hash, proof, commit, files, tree, decoded, file); }
    }
  }

  lemma CommitIsRetrievable(objects: Objects, n: nat, file: Bytes)
    requires n < 255 && Repository(objects, n, file)
    ensures Retrievable(objects, CommitKind, IdOf(255)) && objects[IdOf(255)].1 == TREE_PREFIX + IdOf(n)
    ensures TreeOf(objects[IdOf(255)].1) == LooseTreeOf(objects[IdOf(255)].1) == Some(IdOf(n))
  {
    RepositoryHas(objects, n, file, 255);
    CommitNamesTree(n);
  }

  lemma FileIsThere(objects: Objects, n: nat, file: Bytes)
    requires 0 < n < 255 && Repository(objects, n, file)
    ensures BlobAt(TreesOf(objects), IdOf(n), PathOf(n)) == Some(IdOf(0))
    ensures IdOf(0) in objects && objects[IdOf(0)] == (BlobKind, file)
  {
    forall k: nat | 0 < k <= n ensures HasTree(TreesOf(objects), k) { RepositoryTree(objects, n, file, k); }
    FileIsFound(TreesOf(objects), n);
    RepositoryHas(objects, n, file, 0);
  }

  /** The builder retains the file exactly when it is not empty. */
  lemma FileIsRetainable(objects: Objects, n: nat, file: Bytes)
    requires 0 < n < 255 && Repository(objects, n, file) && |file| <= MAX_JSON_BYTES
    ensures Retainable(objects, IdOf(255), [PathOf(n)]) <==> file != []
  {
    CommitIsRetrievable(objects, n, file);
    FileIsThere(objects, n, file);
    PathIsSafe(n);
    OneIsKeepable(objects, TreesOf(objects), IdOf(n), PathOf(n), IdOf(0), file);
    OneIsRetainable(objects, IdOf(255), IdOf(n), PathOf(n));
  }

  lemma OneIsKeepable(objects: Objects, all: Trees, tree: Id, path: Path, id: Id, file: Bytes)
    requires SafeNames(path) && BlobAt(all, tree, path) == Some(id)
    requires id in objects && objects[id] == (BlobKind, file) && |file| <= MAX_JSON_BYTES
    ensures Keepable(objects, all, tree, path) <==> file != []
  {
  }

  lemma OneIsRetainable(objects: Objects, head: Id, tree: Id, path: Path)
    requires Retrievable(objects, CommitKind, head) && LooseTreeOf(objects[head].1) == Some(tree)
    ensures Retainable(objects, head, [path]) <==> Keepable(objects, TreesOf(objects), tree, path)
  {
    assert path in [path];
  }

  // --- An empty file ------------------------------------------------------------------------------------

  /** The proof of the file, with the one tree above it. */
  function ProofOf(file: Bytes): Proof {
    Proof(TREE_PREFIX + IdOf(1), map[IdOf(1) := EncodedTree([EntryOf(1)])], map[PathOf(1) := file])
  }

  lemma ProofIsAccepted(hash: Bytes -> Id, file: Bytes)
    requires Names(hash, 1, file) && |file| <= MAX_JSON_BYTES
    ensures Accepts(hash, ProofOf(file), IdOf(255), [PathOf(1)], IdOf(1), map[IdOf(1) := EntriesOf(1)])
  {
    ProofOpens(hash, file);
    FileIsGood(hash, file);
    OneIsAccepted(hash, ProofOf(file), IdOf(255), PathOf(1), IdOf(1), map[IdOf(1) := EntriesOf(1)]);
  }

  lemma ProofOpens(hash: Bytes -> Id, file: Bytes)
    requires Names(hash, 1, file)
    ensures Opens(hash, ProofOf(file), IdOf(255), IdOf(1), map[IdOf(1) := EntriesOf(1)])
  {
    CommitIsGood(hash, file);
    TreeIsGood(hash, file);
    OneOpens(hash, ProofOf(file), IdOf(255), IdOf(1), EntriesOf(1));
  }

  lemma CommitIsGood(hash: Bytes -> Id, file: Bytes)
    requires Names(hash, 1, file)
    ensures var commit := ProofOf(file).commit;
            |commit| <= MAX_JSON_BYTES && ObjectDigest(hash, CommitKind, commit) == IdOf(255)
            && TreeOf(commit) == Some(IdOf(1))
  {
    CommitNamesTree(1);
    assert Named(hash, 1, file, 255);
  }

  lemma TreeIsGood(hash: Bytes -> Id, file: Bytes)
    requires Names(hash, 1, file)
    ensures var raw := ProofOf(file).trees[IdOf(1)];
            GoodTree(hash, IdOf(1), raw) && ParseTree(raw) == Some(EntriesOf(1))
  {
    TreeParses(1);
    assert Named(hash, 1, file, 1);
  }

  lemma OneOpens(hash: Bytes -> Id, proof: Proof, commit: Id, tree: Id, entries: Entries)
    requires |proof.commit| <= MAX_JSON_BYTES && ObjectDigest(hash, CommitKind, proof.commit) == commit
    requires TreeOf(proof.commit) == Some(tree) && proof.trees.Keys == {tree}
    requires GoodTree(hash, tree, proof.trees[tree]) && ParseTree(proof.trees[tree]) == Some(entries)
    ensures Opens(hash, proof, commit, tree, map[tree := entries])
  {
  }

  lemma FileIsGood(hash: Bytes -> Id, file: Bytes)
    requires Names(hash, 1, file) && |file| <= MAX_JSON_BYTES
    ensures GoodFile(hash, ProofOf(file), map[IdOf(1) := EntriesOf(1)], IdOf(1), PathOf(1))
  {
    PathIsSafe(1);
    FileStep(map[IdOf(1) := EntriesOf(1)], 1);
    assert Named(hash, 1, file, 0);
  }

  lemma OneIsAccepted(hash: Bytes -> Id, proof: Proof, commit: Id, path: Path, tree: Id, decoded: Trees)
    requires Opens(hash, proof, commit, tree, decoded) && GoodFile(hash, proof, decoded, tree, path)
    requires forall p :: p in proof.files <==> p == path
    ensures Accepts(hash, proof, commit, [path], tree, decoded)
  {
  }

  lemma ProofIsFromStore(hash: Bytes -> Id, objects: Objects, file: Bytes)
    requires Repository(objects, 1, file) && Names(hash, 1, file)
    ensures FromStore(hash, objects, IdOf(255), ProofOf(file))
  {
    assert Named(hash, 1, file, 0);
    FileIsStored(hash, objects, file);
    ProofIsRepositorys(objects, file);
    OneIsFromStore(hash, objects, IdOf(255), ProofOf(file), IdOf(1), PathOf(1));
  }

  lemma FileIsStored(hash: Bytes -> Id, objects: Objects, file: Bytes)
    requires Repository(objects, 1, file) && Named(hash, 1, file, 0)
    ensures Stored(hash, objects, file)
  {
    RepositoryHas(objects, 1, file, 0);
  }

  lemma ProofIsRepositorys(objects: Objects, file: Bytes)
    requires Repository(objects, 1, file)
    ensures IdOf(255) in objects && objects[IdOf(255)] == (CommitKind, ProofOf(file).commit)
    ensures IdOf(1) in objects && objects[IdOf(1)] == (TreeKind, ProofOf(file).trees[IdOf(1)])
  {
    RepositoryHas(objects, 1, file, 1);
    RepositoryHas(objects, 1, file, 255);
  }

  lemma OneIsFromStore(hash: Bytes -> Id, objects: Objects, head: Id, proof: Proof, tree: Id, path: Path)
    requires head in objects && objects[head] == (CommitKind, proof.commit)
    requires proof.trees.Keys == {tree} && tree in objects && objects[tree] == (TreeKind, proof.trees[tree])
    requires proof.files.Keys == {path} && Stored(hash, objects, proof.files[path])
    ensures FromStore(hash, objects, head, proof)
  {
  }

  /** A repository with one empty file: the builder refuses it, and a proof of it from the same objects is accepted. */
  lemma EmptyFileIsRefused() returns (hash: Bytes -> Id, objects: Objects, head: Id, proof: Proof)
    ensures GitStore(hash, objects) && !Retainable(objects, head, [PathOf(1)])
    ensures proof.files == map[PathOf(1) := []] && FromStore(hash, objects, head, proof)
    ensures exists tree, decoded :: Accepts(hash, proof, head, [PathOf(1)], tree, decoded)
  {
    hash := NamingHash(1, []);
    objects := RepositoryExists(1, []);
    head, proof := IdOf(255), ProofOf([]);
    RepositoryIsGit(hash, objects, 1, []);
    FileIsRetainable(objects, 1, []);
    ProofIsAccepted(hash, []);
    ProofIsFromStore(hash, objects, []);
  }
}
