/** Extraction undoes archiving: every admissible set of files comes back exactly, and no other is accepted. */
module ArchiveRoundTrip {
  import opened Prelude
  import opened TextEncoding
  import opened Ustar
  import opened Paths
  import opened ArchiveFormat

  function Total(files: seq<Entry>): nat {
    if files == [] then 0 else Total(files[..|files|-1]) + |files[|files|-1].content|
  }

  lemma TotalAppend(files: seq<Entry>, e: Entry)
    ensures Total(files + [e]) == Total(files) + |e.content|
  {
    assert (files + [e])[..|files|] == files;
  }

  lemma {:induction false} TotalPrefix(files: seq<Entry>, rest: seq<Entry>)
    ensures Total(files) <= Total(files + rest)
    decreases |rest|
  {
    if rest == [] {
      assert files + rest == files;
    } else {
      TotalPrefix(files, rest[..|rest|-1]);
      assert (files + rest)[..|files + rest|-1] == files + rest[..|rest|-1];
    }
  }

  /** A file that the reader admits by itself. */
  predicate Fits(e: Entry) {
    SafePath(e.name) && Encodable(e.name) && |e.content| <= MAX_FILE_BYTES
  }

  /** Two files of one tree: neither is the other, nor a directory on the way to it. */
  predicate Apart(a: Bytes, b: Bytes) {
    a != b && !Above(a, b) && !Above(b, a)
  }

  ghost predicate AllApart(files: seq<Entry>) {
    forall i, j :: 0 <= i < j < |files| ==> Apart(files[i].name, files[j].name)
  }

  /** Files of one directory tree, within the reader's bounds. */
  ghost predicate Conforming(files: seq<Entry>, maximum: nat) {
    && |files| <= MAX_FILES
    && Total(files) <= maximum
    && (forall i :: 0 <= i < |files| ==> Fits(files[i]))
    && AllApart(files)
  }

  lemma ConformingPrefix(files: seq<Entry>, rest: seq<Entry>, maximum: nat)
    requires Conforming(files + rest, maximum)
    ensures Conforming(files, maximum)
  {
    TotalPrefix(files, rest);
    forall i | 0 <= i < |files| ensures Fits(files[i]) { assert files[i] == (files + rest)[i]; }
    forall i, j | 0 <= i < j < |files| ensures Apart(files[i].name, files[j].name) {
      assert files[i] == (files + rest)[i] && files[j] == (files + rest)[j];
    }
  }

  lemma FitsIsWritable(e: Entry)
    requires Fits(e)
    ensures Writable(e)
  {
    Eleven(11);
  }

  lemma Eleven(n: nat)
    requires n == 11
    ensures Pow8(n) == 0x2_0000_0000
  {
    Eight(6);
    assert Pow8(8) == 64 * Pow8(6);
    assert Pow8(10) == 64 * Pow8(8);
  }

  /** `t` holds exactly `files` and the directories on the way to them. */
  ghost predicate Holds(t: Tree, files: seq<Entry>) {
    && (forall i :: 0 <= i < |files| ==> files[i].name in t && t[files[i].name] == File(files[i].content))
    && (forall i, d :: 0 <= i < |files| && Above(d, files[i].name) ==> d in t && t[d] == Directory)
    && (forall d :: d in t ==> Listed(files, d))
  }

  ghost predicate Listed(files: seq<Entry>, d: Bytes) {
    exists i :: 0 <= i < |files| && (files[i].name == d || Above(d, files[i].name))
  }

  lemma HoldsAt(t: Tree, u: Tree, files: seq<Entry>, d: Bytes)
    requires Holds(t, files) && Holds(u, files) && d in t
    ensures d in u && u[d] == t[d]
  {
    assert Listed(files, d);
    var i :| 0 <= i < |files| && (files[i].name == d || Above(d, files[i].name));
  }

  /** So the files determine the tree. */
  lemma HoldsUnique(t: Tree, u: Tree, files: seq<Entry>)
    requires Holds(t, files) && Holds(u, files)
    ensures t == u
  {
    forall d | d in t ensures d in u && u[d] == t[d] { HoldsAt(t, u, files, d); }
    forall d | d in u ensures d in t { HoldsAt(u, t, files, d); }
  }

  /** A further file apart from all others finds only directories on its way, and nothing in its place. */
  lemma RoomFor(t: Tree, files: seq<Entry>, e: Entry)
    requires Holds(t, files)
    requires forall i :: 0 <= i < |files| ==> Apart(files[i].name, e.name)
    ensures e.name !in t
    ensures forall d :: Above(d, e.name) && d in t ==> t[d] == Directory
  {
    assert !Listed(files, e.name);
    forall d | Above(d, e.name) && d in t ensures t[d] == Directory {
      assert Listed(files, d);
      var i :| 0 <= i < |files| && (files[i].name == d || Above(d, files[i].name));
      assert Apart(files[i].name, e.name);
    }
  }

  /** And the other way round. */
  lemma RoomApart(t: Tree, files: seq<Entry>, e: Entry, i: nat)
    requires i < |files| && Holds(t, files)
    requires e.name !in t
    requires forall d :: Above(d, e.name) && d in t ==> t[d] == Directory
    ensures Apart(files[i].name, e.name)
  {
    assert files[i].name in t && t[files[i].name].File?;
  }

  function WithFile(t: Tree, e: Entry): Tree {
    match MakeDirectories(t, Parents(e.name))
    case None => t
    case Some(made) => made[e.name := File(e.content)]
  }

  lemma KeepsFiles(t: Tree, files: seq<Entry>, e: Entry, i: nat)
    requires Holds(t, files) && i < |files| && Apart(files[i].name, e.name)
    requires forall d :: Above(d, e.name) && d in t ==> t[d] == Directory
    ensures var u := WithFile(t, e); files[i].name in u && u[files[i].name] == File(files[i].content)
    ensures forall d :: Above(d, files[i].name) ==> d in WithFile(t, e) && WithFile(t, e)[d] == Directory
  {
    WithFileIs(t, e, files[i].name);
    forall d | Above(d, files[i].name) ensures d in WithFile(t, e) && WithFile(t, e)[d] == Directory {
      WithFileIs(t, e, d);
    }
  }

  lemma WithFileIs(t: Tree, e: Entry, d: Bytes)
    requires d in t && d != e.name && forall c :: Above(c, e.name) && c in t ==> t[c] == Directory
    ensures d in WithFile(t, e) && WithFile(t, e)[d] == t[d]
  {
  }

  lemma AddsFile(t: Tree, files: seq<Entry>, e: Entry)
    requires Holds(t, files)
    requires forall d :: Above(d, e.name) && d in t ==> t[d] == Directory
    ensures var u := WithFile(t, e); e.name in u && u[e.name] == File(e.content)
    ensures forall d :: Above(d, e.name) ==> d in WithFile(t, e) && WithFile(t, e)[d] == Directory
    ensures forall d :: d in WithFile(t, e) ==> d in t || d == e.name || Above(d, e.name)
  {
  }

  lemma ListedAppend(files: seq<Entry>, e: Entry, d: Bytes)
    requires Listed(files, d) || d == e.name || Above(d, e.name)
    ensures Listed(files + [e], d)
  {
    var both := files + [e];
    if Listed(files, d) {
      var i :| 0 <= i < |files| && (files[i].name == d || Above(d, files[i].name));
      assert both[i] == files[i];
    } else {
      assert both[|files|] == e;
    }
  }

  lemma HoldsAppend(t: Tree, files: seq<Entry>, e: Entry)
    requires Holds(t, files)
    requires forall i :: 0 <= i < |files| ==> Apart(files[i].name, e.name)
    ensures Holds(WithFile(t, e), files + [e])
  {
    RoomFor(t, files, e);
    AddsFile(t, files, e);
    var u, both := WithFile(t, e), files + [e];
    forall i | 0 <= i < |both|
      ensures both[i].name in u && u[both[i].name] == File(both[i].content)
      ensures forall d :: Above(d, both[i].name) ==> d in u && u[d] == Directory
    {
      if i < |files| { KeepsFiles(t, files, e, i); }
    }
    forall d | d in u ensures Listed(both, d) { ListedAppend(files, e, d); }
  }

  // --- One member -------------------------------------------------------------------------

  lemma PackedSlices(e: Entry, more: Bytes)
    requires Writable(e)
    ensures var n := |e.content|; |Packed(e)| == BLOCK + n + Padding(n)
    ensures var (prefix, tail) := Fields(e.name).value; (Packed(e) + more)[..BLOCK] == Header(prefix, tail, |e.content|)
    ensures (Packed(e) + more)[BLOCK..BLOCK + |e.content|] == e.content
    ensures (Packed(e) + more)[|Packed(e)|..] == more
  {
    var (prefix, tail) := Fields(e.name).value;
    ThreeParts(Header(prefix, tail, |e.content|), e.content, Repeat(NUL, Padding(|e.content|)), more);
  }

  lemma ThreeParts(a: Bytes, b: Bytes, c: Bytes, more: Bytes)
    ensures var s := a + b + c + more;
            s[..|a|] == a && s[|a|..|a| + |b|] == b && s[|a| + |b| + |c|..] == more
  {
  }

  /** A name that a listing of a directory gives, relative to that directory. */
  predicate Plain(e: Entry) {
    Writable(e) && e.name != [] && e.name[0] != SLASH && NUL !in e.name
  }

  ghost predicate AllPlain(files: seq<Entry>)
    ensures AllPlain(files) ==> Storable(files)
  {
    files == [] || (Plain(files[0]) && AllPlain(files[1..]))
  }

  lemma FitsIsPlain(e: Entry)
    requires Fits(e)
    ensures Plain(e)
  {
    FitsIsWritable(e);
  }

  lemma HeaderReads(e: Entry)
    requires Plain(e) && Utf8(e.name)
    ensures var (prefix, tail) := Fields(e.name).value; var h := Header(prefix, tail, |e.content|);
      Decode(h) == Some(Member(e.name, |e.content|, REGULAR)) && !Zeros(h)
  {
    var (prefix, tail) := Fields(e.name).value;
    HeaderRoundTrip(e.name, |e.content|);
    NameRoundTrip(prefix, tail, |e.content|, REGULAR);
  }

  /** A name that is no text cannot be read, and is not safe. */
  lemma NoText(e: Entry)
    requires Plain(e) && !Utf8(e.name)
    ensures var (prefix, tail) := Fields(e.name).value; var h := Header(prefix, tail, |e.content|);
            Decode(h) == None && !Zeros(h)
    ensures !SafePath(e.name)
  {
    var (prefix, tail) := Fields(e.name).value;
    NameRoundTrip(prefix, tail, |e.content|, REGULAR);
    if Utf8(prefix) && Utf8(tail) { JoinedIsText(prefix, tail); }
    if SafePath(e.name) { AsciiIsUtf8(e.name); }
  }

  lemma JoinedIsText(prefix: Bytes, tail: Bytes)
    requires Utf8(prefix) && Utf8(tail)
    ensures Utf8(prefix + [SLASH] + tail)
  {
    assert [SLASH][1..] == [] && Utf8([SLASH]);
    Utf8Append(prefix, [SLASH]);
    Utf8Append(prefix + [SLASH], tail);
  }

  /** The reader's turn at a packed file, without the bytes. */
  function TurnOf(e: Entry, p: Progress, maximum: nat): Turn {
    var m := Member(e.name, |e.content|, REGULAR);
    if !Admitted(m, p, maximum) then Refuse
    else
      match Enter(p.tree, m)
      case None => Refuse
      case Some(made) =>
        var used := BLOCK + |e.content| + Padding(|e.content|);
        More(used, Progress(p.seen + {e.name}, p.total + |e.content|, made[e.name := File(e.content)]))
  }

  lemma HeaderDecides(e: Entry, rest: Bytes, p: Progress, maximum: nat)
    requires |rest| >= BLOCK && !Zeros(rest[..BLOCK])
    requires var m := Member(e.name, |e.content|, REGULAR);
             if SafePath(e.name) then Decode(rest[..BLOCK]) == Some(m) else Decode(rest[..BLOCK]) in [None, Some(m)]
    ensures var m := Member(e.name, |e.content|, REGULAR);
            Next(rest, p, maximum) == if Admitted(m, p, maximum) then NextOf(rest, m, p) else Refuse
  {
  }

  lemma HeaderTurn(e: Entry, more: Bytes, p: Progress, maximum: nat)
    requires Plain(e)
    ensures var m := Member(e.name, |e.content|, REGULAR); var rest := Packed(e) + more;
      |rest| >= BLOCK && Next(rest, p, maximum) == if Admitted(m, p, maximum) then NextOf(rest, m, p) else Refuse
  {
    PackedSlices(e, more);
    if Utf8(e.name) {
      HeaderReads(e);
    } else {
      NoText(e);
    }
    HeaderDecides(e, Packed(e) + more, p, maximum);
  }

  lemma ContentTurn(e: Entry, rest: Bytes, p: Progress, maximum: nat)
    requires |rest| >= BLOCK + |e.content| + Padding(|e.content|)
    requires rest[BLOCK..BLOCK + |e.content|] == e.content
    ensures var m := Member(e.name, |e.content|, REGULAR);
      TurnOf(e, p, maximum) == if Admitted(m, p, maximum) then NextOf(rest, m, p) else Refuse
  {
  }

  lemma MemberTurn(e: Entry, more: Bytes, p: Progress, maximum: nat)
    requires Plain(e)
    ensures Next(Packed(e) + more, p, maximum) == TurnOf(e, p, maximum)
  {
    HeaderTurn(e, more, p, maximum);
    PackedSlices(e, more);
    ContentTurn(e, Packed(e) + more, p, maximum);
  }

  lemma ReadsOn(e: Entry, more: Bytes, p: Progress, maximum: nat)
    requires Plain(e)
    ensures !TurnOf(e, p, maximum).Finish?
    ensures TurnOf(e, p, maximum).Refuse? ==> Members(Packed(e) + more, p, maximum) == None
    ensures var t := TurnOf(e, p, maximum);
            t.More? ==> Members(Packed(e) + more, p, maximum) == Members(more, t.p, maximum)
    ensures var t := TurnOf(e, p, maximum);
            t.More? ==> End(Packed(e) + more, p, maximum) == |Packed(e)| + End(more, t.p, maximum)
  {
    MemberTurn(e, more, p, maximum);
    PackedSlices(e, more);
  }

  // --- The whole archive ------------------------------------------------------------------

  lemma AllWritable(files: seq<Entry>, maximum: nat)
    requires Conforming(files, maximum)
    ensures Storable(files)
  {
    forall i | 0 <= i < |files| ensures Writable(files[i]) { FitsIsWritable(files[i]); }
  }

  function Names(files: seq<Entry>): set<Bytes> {
    if files == [] then {} else Names(files[..|files|-1]) + {files[|files|-1].name}
  }

  lemma NamesAppend(files: seq<Entry>, e: Entry)
    ensures Names(files + [e]) == Names(files) + {e.name}
  {
    assert (files + [e])[..|files|] == files;
  }

  lemma {:induction false} NamesOf(files: seq<Entry>, e: Entry)
    requires forall i :: 0 <= i < |files| ==> files[i].name != e.name
    ensures e.name !in Names(files)
    decreases |files|
  {
    if files != [] { NamesOf(files[..|files|-1], e); }
  }

  /** The reader's variables after `files`. */
  ghost predicate After(files: seq<Entry>, p: Progress) {
    Holds(p.tree, files) && p.total == Total(files) && p.seen == Names(files) && |p.seen| == |files|
  }

  lemma AdmitsNext(files: seq<Entry>, e: Entry, p: Progress, maximum: nat)
    requires After(files, p) && |files| < MAX_FILES && Total(files) + |e.content| <= maximum && Fits(e)
    requires forall i :: 0 <= i < |files| ==> Apart(files[i].name, e.name)
    ensures var t := TurnOf(e, p, maximum);
            t.More? && t.p == Progress(p.seen + {e.name}, p.total + |e.content|, WithFile(p.tree, e))
    ensures e.name !in p.seen
  {
    RoomFor(p.tree, files, e);
    IsAdmitted(files, e, p, maximum);
    EntersRoom(e, p.tree);
  }

  lemma IsAdmitted(files: seq<Entry>, e: Entry, p: Progress, maximum: nat)
    requires After(files, p) && |files| < MAX_FILES && Total(files) + |e.content| <= maximum && Fits(e)
    requires forall i :: 0 <= i < |files| ==> Apart(files[i].name, e.name)
    ensures Admitted(Member(e.name, |e.content|, REGULAR), p, maximum) && e.name !in p.seen
  {
    NamesOf(files, e);
  }

  lemma EntersRoom(e: Entry, t: Tree)
    requires e.name !in t && forall d :: Above(d, e.name) && d in t ==> t[d] == Directory
    ensures Enter(t, Member(e.name, |e.content|, REGULAR)) == MakeDirectories(t, Parents(e.name))
    ensures MakeDirectories(t, Parents(e.name)).Some?
  {
  }

  lemma AfterNext(files: seq<Entry>, e: Entry, p: Progress)
    requires After(files, p) && e.name !in p.seen
    requires forall i :: 0 <= i < |files| ==> Apart(files[i].name, e.name)
    ensures After(files + [e], Progress(p.seen + {e.name}, p.total + |e.content|, WithFile(p.tree, e)))
  {
    HoldsAppend(p.tree, files, e);
    TotalAppend(files, e);
    NamesAppend(files, e);
  }

  lemma ReadsOne(files: seq<Entry>, e: Entry, p: Progress, maximum: nat)
    requires Conforming(files + [e], maximum) && After(files, p)
    ensures Plain(e)
    ensures var t := TurnOf(e, p, maximum); t.More? && After(files + [e], t.p)
  {
    var both := files + [e];
    assert both[|files|] == e;
    forall i | 0 <= i < |files| ensures Apart(files[i].name, e.name) { assert both[i] == files[i]; }
    FitsIsPlain(e);
    TotalAppend(files, e);
    AdmitsNext(files, e, p, maximum);
    AfterNext(files, e, p);
  }

  lemma ReadsEnd(end: Bytes, p: Progress, maximum: nat)
    requires Zeros(end) && |end| >= 1024
    ensures Members(end, p, maximum) == Some(p.tree)
    ensures End(end, p, maximum) == 0
  {
  }

  lemma BodySplit(files: seq<Entry>, zeros: Bytes)
    requires Storable(files) && files != []
    ensures Storable(files[1..])
    ensures Body(files) + zeros == Packed(files[0]) + (Body(files[1..]) + zeros)
  {
    Associative(Packed(files[0]), Body(files[1..]), zeros);
  }

  lemma Associative(a: Bytes, b: Bytes, c: Bytes)
    ensures a + b + c == a + (b + c)
  {
  }

  lemma ReadsFirst(files: seq<Entry>, rest: seq<Entry>, end: Bytes, p: Progress, maximum: nat) returns (q: Progress)
    requires Conforming(files + rest, maximum) && After(files, p) && Storable(rest) && rest != []
    ensures Storable(rest[1..]) && After(files + [rest[0]], q)
    ensures Members(Body(rest) + end, p, maximum) == Members(Body(rest[1..]) + end, q, maximum)
    ensures End(Body(rest) + end, p, maximum) == |Packed(rest[0])| + End(Body(rest[1..]) + end, q, maximum)
  {
    Shift(files, rest);
    ConformingPrefix(files + [rest[0]], rest[1..], maximum);
    BodySplit(rest, end);
    ReadsOne(files, rest[0], p, maximum);
    ReadsOn(rest[0], Body(rest[1..]) + end, p, maximum);
    q := TurnOf(rest[0], p, maximum).p;
  }

  lemma {:induction false} ReadsBody(files: seq<Entry>, rest: seq<Entry>, end: Bytes, p: Progress, maximum: nat)
    requires Conforming(files + rest, maximum) && After(files, p)
    requires Storable(rest) && Zeros(end) && |end| >= 1024
    ensures var r := Members(Body(rest) + end, p, maximum); r.Some? && Holds(r.value, files + rest)
    ensures End(Body(rest) + end, p, maximum) == |Body(rest)|
    decreases |rest|
  {
    if rest == [] {
      assert files + rest == files;
      assert Body(rest) + end == end;
      ReadsEnd(end, p, maximum);
    } else {
      var q := ReadsFirst(files, rest, end, p, maximum);
      Shift(files, rest);
      ReadsBody(files + [rest[0]], rest[1..], end, q, maximum);
    }
  }

  /** What `deterministic_archive` writes, `extract_archive` reads back: exactly these files and their directories. */
  lemma WrittenIsReadBack(files: seq<Entry>, maximum: nat)
    requires Conforming(files, maximum)
    ensures Storable(files)
    ensures var r := Extracted(Archive(files), false, maximum); r.Some? && Holds(r.value, files)
  {
    AllWritable(files, maximum);
    assert [] + files == files;
    ReadsBody([], files, Closing(|Body(files)|), START, maximum);
    LimitAdmitsConforming(Archive(files), maximum);
  }

  // --- And only then ----------------------------------------------------------------------

  lemma AcceptedStep(files: seq<Entry>, e: Entry, p: Progress, maximum: nat)
    requires Conforming(files, maximum) && After(files, p) && Plain(e)
    requires TurnOf(e, p, maximum).More?
    ensures Conforming(files + [e], maximum)
  {
    TotalAppend(files, e);
    var both := files + [e];
    forall i, j | 0 <= i < j < |both| ensures Apart(both[i].name, both[j].name) {
      if j == |files| { RoomApart(p.tree, files, e, i); }
    }
  }

  lemma AcceptedOn(files: seq<Entry>, e: Entry, more: Bytes, p: Progress, maximum: nat) returns (q: Progress)
    requires Conforming(files, maximum) && After(files, p) && Plain(e)
    requires Members(Packed(e) + more, p, maximum).Some?
    ensures Conforming(files + [e], maximum) && After(files + [e], q) && Members(more, q, maximum).Some?
  {
    ReadsOn(e, more, p, maximum);
    AcceptedStep(files, e, p, maximum);
    ReadsOne(files, e, p, maximum);
    q := TurnOf(e, p, maximum).p;
  }

  lemma Shift(files: seq<Entry>, rest: seq<Entry>)
    requires rest != []
    ensures files + [rest[0]] + rest[1..] == files + rest
  {
  }

  lemma {:induction false} AcceptedBody(files: seq<Entry>, rest: seq<Entry>, end: Bytes, p: Progress, maximum: nat)
    requires Conforming(files, maximum) && After(files, p)
    requires AllPlain(rest)
    requires Members(Body(rest) + end, p, maximum).Some?
    ensures Conforming(files + rest, maximum)
    decreases |rest|
  {
    if rest == [] {
      assert files + rest == files;
    } else {
      BodySplit(rest, end);
      var q := AcceptedOn(files, rest[0], Body(rest[1..]) + end, p, maximum);
      AcceptedBody(files + [rest[0]], rest[1..], end, q, maximum);
      Shift(files, rest);
    }
  }

  lemma NothingRead()
    ensures Conforming([], 0) && After([], START)
  {
  }

  lemma AcceptedConforms(files: seq<Entry>, end: Bytes, maximum: nat)
    requires AllPlain(files) && Members(Body(files) + end, START, maximum).Some?
    ensures Conforming(files, maximum)
  {
    NothingRead();
    AcceptedBody([], files, end, START, maximum);
    assert [] + files == files;
  }

  /** The reader accepts a written archive exactly when its files keep the reader's bounds and path rules. */
  lemma AcceptedIffConforming(files: seq<Entry>, maximum: nat)
    requires AllPlain(files)
    ensures Extracted(Archive(files), false, maximum).Some? <==> Conforming(files, maximum)
  {
    if Conforming(files, maximum) {
      WrittenIsReadBack(files, maximum);
    } else if Extracted(Archive(files), false, maximum).Some? {
      AcceptedConforms(files, Closing(|Body(files)|), maximum);
    }
  }
}
