/** `deterministic_archive` (release_prepare.py), from a directory listing to the bytes of the archive. */
module ArchiveWriter {
  import opened Prelude
  import opened NameOrder
  import opened Paths
  import opened ArchiveFormat
  import opened ArchiveRoundTrip

  /** What the listing of a directory tree can show; `Other` is a device, socket or pipe. */
  datatype Item = Folder | Regular(content: Bytes) | Symlink | Other
  type Items = map<Bytes, Item>

  /** `rglob` gives every entry once, in any order. */
  ghost predicate Lists(listing: seq<Bytes>, root: Items) {
    Distinct(listing) && forall n :: n in listing <==> n in root
  }

  function SortedPaths(listing: seq<Bytes>): (r: seq<Bytes>)
    ensures |r| == |listing| && forall n :: n in r <==> n in listing
  {
    Sort(listing, SLASH)
  }

  /** The regular files among `names`, in that order. */
  function FilesOf(root: Items, names: seq<Bytes>): seq<Entry> {
    if names == [] then []
    else
      var n := names[|names|-1];
      FilesOf(root, names[..|names|-1]) + if n in root && root[n].Regular? then [Entry(n, root[n].content)] else []
  }

  /** Nothing that the writer refuses: links and special files, and files that USTAR cannot carry. */
  predicate Archivable(root: Items, names: seq<Bytes>) {
    forall i :: 0 <= i < |names| && names[i] in root ==> ItemArchivable(names[i], root[names[i]])
  }

  predicate ItemArchivable(name: Bytes, item: Item) {
    item.Folder? || (item.Regular? && Writable(Entry(name, item.content)))
  }

  lemma {:induction false} BodyAppend(files: seq<Entry>, e: Entry)
    requires Storable(files) && Writable(e)
    ensures Storable(files + [e]) && Body(files + [e]) == Body(files) + Packed(e)
    decreases |files|
  {
    var both := files + [e];
    if files == [] {
      assert both == [e] && both[1..] == [];
    } else {
      assert both[0] == files[0] && both[1..] == files[1..] + [e];
      BodyAppend(files[1..], e);
      Associative(Packed(files[0]), Body(files[1..]), Packed(e));
    }
  }

  /** One more listed name. */
  lemma NameStep(root: Items, names: seq<Bytes>, i: nat)
    requires i < |names| && names[i] in root && Archivable(root, names[..i])
    ensures Archivable(root, names[..i+1]) <==> ItemArchivable(names[i], root[names[i]])
    ensures var item := root[names[i]];
      FilesOf(root, names[..i+1])
      == FilesOf(root, names[..i]) + if item.Regular? then [Entry(names[i], item.content)] else []
  {
    var next := names[..i+1];
    assert next[..i] == names[..i] && next[i] == names[i];
    forall j | 0 <= j < i && next[j] in root ensures ItemArchivable(next[j], root[next[j]]) {
      assert names[..i][j] == next[j];
    }
  }

  lemma ArchivablePrefix(root: Items, names: seq<Bytes>, i: nat)
    requires i <= |names| && Archivable(root, names)
    ensures Archivable(root, names[..i])
  {
    forall j | 0 <= j < i && names[j] in root ensures ItemArchivable(names[..i][j], root[names[j]]) {
      assert names[..i][j] == names[j];
    }
  }

  /** One listed entry. */
  method AddItem(name: Bytes, item: Item, body: Bytes, ghost files: seq<Entry>)
    returns (ok: bool, body': Bytes, ghost files': seq<Entry>)
    requires Storable(files) && body == Body(files)
    ensures ok <==> ItemArchivable(name, item)
    ensures ok ==> files' == files + if item.Regular? then [Entry(name, item.content)] else []
    ensures ok ==> Storable(files') && body' == Body(files')
  {
    body', files' := body, files;
    if item.Symlink? { return false, body, files; }
    if item.Folder? {
      assert files + [] == files;
      return true, body, files;
    }
    if item.Other? || !Writable(Entry(name, item.content)) { return false, body, files; }
    BodyAppend(files, Entry(name, item.content));
    return true, body + Packed(Entry(name, item.content)), files + [Entry(name, item.content)];
  }

  method DeterministicArchive(root: Items, listing: seq<Bytes>) returns (archive: Option<Bytes>)
    requires Lists(listing, root)
    ensures archive.Some? <==> Archivable(root, SortedPaths(listing))
    ensures archive.Some? ==>
              Storable(FilesOf(root, SortedPaths(listing)))
              && archive.value == Archive(FilesOf(root, SortedPaths(listing)))
  {
    var names := SortedPaths(listing);
    var body: Bytes := [];
    ghost var files: seq<Entry> := [];
    for i := 0 to |names|
      invariant Archivable(root, names[..i])
      invariant files == FilesOf(root, names[..i]) && Storable(files) && body == Body(files)
    {
      assert names[i] in listing;
      NameStep(root, names, i);
      var ok;
      ok, body, files := AddItem(names[i], root[names[i]], body, files);
      if !ok {
        ArchivablePrefixContra(root, names, i + 1);
        return None;
      }
    }
    assert names[..|names|] == names;
    return Some(body + Closing(|body|));
  }

  lemma ArchivablePrefixContra(root: Items, names: seq<Bytes>, i: nat)
    requires i <= |names| && !Archivable(root, names[..i])
    ensures !Archivable(root, names)
  {
    if Archivable(root, names) { ArchivablePrefix(root, names, i); }
  }

  /** The archive does not depend on the order in which the directory was listed. */
  lemma ListingOrderIrrelevant(listing: seq<Bytes>, again: seq<Bytes>, root: Items)
    requires Lists(listing, root) && Lists(again, root)
    ensures SortedPaths(listing) == SortedPaths(again)
  {
    SortUnique(listing, again, SLASH);
  }

  // --- Writing and reading back ------------------------------------------------------------

  /** A real directory tree: every entry lies in a directory. */
  ghost predicate RealTree(root: Items) {
    forall n, d :: n in root && Above(d, n) ==> d in root && root[d] == Folder
  }

  lemma {:induction false} FilesMember(root: Items, names: seq<Bytes>, e: Entry)
    ensures e in FilesOf(root, names) <==> e.name in names && e.name in root && root[e.name] == Regular(e.content)
    decreases |names|
  {
    if names != [] {
      var k := |names| - 1;
      FilesMember(root, names[..k], e);
      assert e.name in names <==> e.name in names[..k] || e.name == names[k];
    }
  }

  lemma {:induction false} FilesApart(root: Items, names: seq<Bytes>)
    requires RealTree(root) && Distinct(names)
    ensures AllApart(FilesOf(root, names))
    decreases |names|
  {
    if names != [] {
      var k := |names| - 1;
      var n := names[k];
      FilesApart(root, names[..k]);
      var before, all := FilesOf(root, names[..k]), FilesOf(root, names);
      if n in root && root[n].Regular? {
        forall i | 0 <= i < |before| ensures Apart(before[i].name, n) {
          FilesMember(root, names[..k], before[i]);
          assert before[i].name in names[..k] && n !in names[..k];
        }
      }
    }
  }

  /** The reader's bounds, on the tree itself. */
  ghost predicate WithinBounds(root: Items, names: seq<Bytes>, maximum: nat) {
    && |FilesOf(root, names)| <= MAX_FILES
    && Total(FilesOf(root, names)) <= maximum
    && forall n :: n in root && root[n].Regular? ==> Fits(Entry(n, root[n].content))
  }

  /**
   Any directory tree of files and folders within the bounds: what is written for it is accepted,
   and extraction gives exactly its files again, with the folders that hold them.
   */
  lemma TreeRoundTrip(root: Items, listing: seq<Bytes>, maximum: nat)
    requires Lists(listing, root) && RealTree(root)
    requires forall n :: n in root ==> root[n].Folder? || root[n].Regular?
    requires WithinBounds(root, SortedPaths(listing), maximum)
    ensures var files := FilesOf(root, SortedPaths(listing));
      && Storable(files)
      && Archivable(root, SortedPaths(listing))
      && (forall e :: e in files <==> e.name in root && root[e.name] == Regular(e.content))
      && var r := Extracted(Archive(files), false, maximum); r.Some? && Holds(r.value, files)
  {
    var names := SortedPaths(listing);
    var files := FilesOf(root, names);
    SortAscends(listing, SLASH);
    AscendingDistinct(names, SLASH);
    FilesApart(root, names);
    forall e ensures e in files <==> e.name in root && root[e.name] == Regular(e.content) {
      FilesMember(root, names, e);
      assert e.name in names <==> e.name in root;
    }
    forall i | 0 <= i < |files| ensures Fits(files[i]) {
      FilesMember(root, names, files[i]);
    }
    forall i | 0 <= i < |names| && names[i] in root ensures ItemArchivable(names[i], root[names[i]]) {
      if root[names[i]].Regular? { FitsIsWritable(Entry(names[i], root[names[i]].content)); }
    }
    WrittenIsReadBack(files, maximum);
  }
}
