/**
 The archive that `deterministic_archive` (release_prepare.py) writes and the rules by which
 `extract_archive` (release_manifest.py) reads one, on the bytes below the gzip layer.
 */
module ArchiveFormat {
  import opened Prelude
  import opened Ustar
  import opened Paths

  const MAX_FILE_BYTES := 0x4000_0000
  const MAX_BUNDLE_BYTES := 0x8000_0000
  const RECORD := 10240

  predicate Zeros(s: Bytes) {
    forall i :: 0 <= i < |s| ==> s[i] == NUL
  }

  datatype Entry = Entry(name: Bytes, content: Bytes)

  function Padding(size: nat): (r: nat)
    ensures r < BLOCK && (size + r) % BLOCK == 0
  {
    var last := size % BLOCK;
    assert size == BLOCK * (size / BLOCK) + last;
    if last == 0 then 0
    else
      assert size + (BLOCK - last) == BLOCK * (size / BLOCK + 1);
      BLOCK - last
  }

  // --- Writing ----------------------------------------------------------------------------

  /** What `tarfile` can put into one USTAR header. */
  predicate Writable(e: Entry) {
    Encodable(e.name) && |e.content| < Pow8(11)
  }

  function Packed(e: Entry): Bytes
    requires Writable(e)
  {
    var (prefix, tail) := Fields(e.name).value;
    Header(prefix, tail, |e.content|) + e.content + Repeat(NUL, Padding(|e.content|))
  }

  predicate Storable(files: seq<Entry>) {
    forall i :: 0 <= i < |files| ==> Writable(files[i])
  }

  function Body(files: seq<Entry>): Bytes
    requires Storable(files)
  {
    if files == [] then [] else Packed(files[0]) + Body(files[1..])
  }

  /** Two blocks of zeros, and zeros up to a whole record. */
  function Closing(n: nat): (r: Bytes)
    ensures Zeros(r) && 1024 <= |r| < 1024 + RECORD && (n + |r|) % RECORD == 0
  {
    Repeat(NUL, 1024 + (RECORD - (n + 1024) % RECORD) % RECORD)
  }

  function Archive(files: seq<Entry>): Bytes
    requires Storable(files)
  {
    var body := Body(files);
    body + Closing(|body|)
  }

  // --- Reading ----------------------------------------------------------------------------

  /** The reader's variables between two members. */
  datatype Progress = Progress(seen: set<Bytes>, total: nat, tree: Tree)

  const START := Progress({}, 0, map[])

  /** What one turn of the reader's loop does: it stops, ends, or consumes `used` bytes. */
  datatype Turn = Refuse | Finish | More(used: nat, p: Progress)

  function PathOf(m: Member): Bytes {
    if m.IsDirectory() then TrimSlashes(m.name) else m.name
  }

  /** The checks on a header alone. */
  predicate Admitted(m: Member, p: Progress, maximum: nat) {
    && m.kind in {REGULAR, NUL, DIRECTORY}
    && SafePath(PathOf(m))
    && PathOf(m) !in p.seen
    && |p.seen| < MAX_FILES
    && 0 <= m.size <= MAX_FILE_BYTES
    && if m.IsDirectory() then m.size == 0 else p.total + m.size <= maximum
  }

  function Enter(t: Tree, m: Member): Option<Tree> {
    var name := PathOf(m);
    if m.IsDirectory() then MakeDirectories(t, Parents(name) + {name})
    else
      match MakeDirectories(t, Parents(name))
      case None => None
      case Some(made) => if name in made then None else Some(made)
  }

  function Next(rest: Bytes, p: Progress, maximum: nat): (r: Turn)
    ensures r.More? ==> BLOCK <= r.used <= |rest|
  {
    if |rest| < BLOCK then Refuse
    else if Zeros(rest[..BLOCK]) then
      if |rest| >= 2 * BLOCK && Zeros(rest) then Finish else Refuse
    else
      match Decode(rest[..BLOCK])
      case None => Refuse
      case Some(m) =>
        if !Admitted(m, p, maximum) then Refuse
        else NextOf(rest, m, p)
  }

  function NextOf(rest: Bytes, m: Member, p: Progress): (r: Turn)
    requires |rest| >= BLOCK && 0 <= m.size
    ensures r.More? ==> BLOCK <= r.used <= |rest|
  {
    var name := PathOf(m);
    match Enter(p.tree, m)
    case None => Refuse
    case Some(tree) =>
      if m.IsDirectory() then More(BLOCK, Progress(p.seen + {name}, p.total, tree))
      else
        var used := BLOCK + m.size + Padding(m.size);
        if |rest| < used then Refuse
        else More(used, Progress(p.seen + {name}, p.total + m.size, tree[name := File(rest[BLOCK..BLOCK + m.size])]))
  }

  /** The tree that the loop leaves, if it accepts everything up to the end of the stream. */
  function Members(rest: Bytes, p: Progress, maximum: nat): Option<Tree>
    decreases |rest|
  {
    match Next(rest, p, maximum)
    case Refuse => None
    case Finish => Some(p.tree)
    case More(used, q) => Members(rest[used..], q, maximum)
  }

  /** How many bytes precede the closing zeros. */
  function End(rest: Bytes, p: Progress, maximum: nat): nat
    decreases |rest|
  {
    match Next(rest, p, maximum)
    case Refuse => 0
    case Finish => 0
    case More(used, q) => used + End(rest[used..], q, maximum)
  }

  function Limit(maximum: nat): nat {
    maximum + MAX_FILES * 1024 + 10240
  }

  /** The whole of `extract_archive` on a stream; a damaged compressed layer fails at its end at the latest. */
  function Extracted(content: Bytes, damaged: bool, maximum: nat): Option<Tree> {
    if damaged || |content| > Limit(maximum) then None else Members(content, START, maximum)
  }

  // --- What is accepted --------------------------------------------------------------------

  lemma FileKeepsWellFormed(t: Tree, name: Bytes, content: Bytes)
    requires WellFormed(t) && SafePath(name) && name !in t
    requires forall d :: Above(d, name) ==> d in t && t[d] == Directory
    ensures WellFormed(t[name := File(content)])
  {
    var u := t[name := File(content)];
    forall p, d | p in u && Above(d, p) ensures d in u && u[d] == Directory {
      assert p in t || p == name;
    }
  }

  lemma NextOfKeepsWellFormed(rest: Bytes, m: Member, p: Progress)
    requires |rest| >= BLOCK && 0 <= m.size && SafePath(PathOf(m))
    requires WellFormed(p.tree) && NextOf(rest, m, p).More?
    ensures WellFormed(NextOf(rest, m, p).p.tree)
  {
    var name := PathOf(m);
    DirectoriesKeepWellFormed(p.tree, name);
    if !m.IsDirectory() {
      FileKeepsWellFormed(Enter(p.tree, m).value, name, rest[BLOCK..BLOCK + m.size]);
    }
  }

  lemma NextIsNextOf(rest: Bytes, p: Progress, maximum: nat) returns (m: Member)
    requires Next(rest, p, maximum).More?
    ensures |rest| >= BLOCK && Admitted(m, p, maximum) && Next(rest, p, maximum) == NextOf(rest, m, p)
  {
    m := Decode(rest[..BLOCK]).value;
  }

  /** Every accepted archive leaves safe paths only, each inside directories. */
  lemma {:induction false} AcceptedIsWellFormed(rest: Bytes, p: Progress, maximum: nat)
    requires WellFormed(p.tree) && Members(rest, p, maximum).Some?
    ensures WellFormed(Members(rest, p, maximum).value)
    decreases |rest|
  {
    match Next(rest, p, maximum)
    case Refuse =>
    case Finish =>
    case More(used, q) =>
      var m := NextIsNextOf(rest, p, maximum);
      NextOfKeepsWellFormed(rest, m, p);
      AcceptedIsWellFormed(rest[used..], q, maximum);
  }

  lemma NextBound(rest: Bytes, p: Progress, maximum: nat)
    requires |p.seen| <= MAX_FILES && p.total <= maximum
    requires Next(rest, p, maximum).More?
    ensures var t := Next(rest, p, maximum); |t.p.seen| == |p.seen| + 1 <= MAX_FILES && p.total <= t.p.total <= maximum
    ensures var t := Next(rest, p, maximum); t.used <= 1023 + t.p.total - p.total
  {
    var m := NextIsNextOf(rest, p, maximum);
    NextOfBound(rest, m, p);
  }

  lemma NextOfBound(rest: Bytes, m: Member, p: Progress)
    requires |rest| >= BLOCK && 0 <= m.size && NextOf(rest, m, p).More? && (m.IsDirectory() ==> m.size == 0)
    ensures var t := NextOf(rest, m, p);
      t.p.seen == p.seen + {PathOf(m)} && t.p.total == p.total + m.size && t.used <= 1023 + m.size
  {
  }

  lemma {:induction false} EndBound(rest: Bytes, p: Progress, maximum: nat)
    requires |p.seen| <= MAX_FILES && p.total <= maximum
    ensures End(rest, p, maximum) <= (MAX_FILES - |p.seen|) * 1023 + maximum - p.total
    ensures End(rest, p, maximum) <= |rest|
    decreases |rest|
  {
    match Next(rest, p, maximum)
    case Refuse =>
    case Finish =>
    case More(used, q) =>
      NextBound(rest, p, maximum);
      EndBound(rest[used..], q, maximum);
  }

  /**
   The expansion limit refuses no archive that the member rules accept: two zero blocks and
   filling to a whole record, as every tar writer pads, always fit.
   */
  lemma LimitAdmitsConforming(content: Bytes, maximum: nat)
    requires Members(content, START, maximum).Some?
    requires |content| <= End(content, START, maximum) + 1024 + RECORD
    ensures Extracted(content, false, maximum) == Members(content, START, maximum)
  {
    EndBound(content, START, maximum);
  }
}
