/** Which streams `extract_archive` (release_manifest.py) accepts, whoever wrote them, and what it extracts. */
module ArchiveStreams {
  import opened Prelude
  import opened Ustar
  import opened Paths
  import opened ArchiveFormat

  /** One member as it stands in a stream; its padding may be anything. */
  datatype Piece = Piece(header: Bytes, member: Member, content: Bytes, padding: Bytes)
  {
    function Path(): Bytes {
      PathOf(member)
    }

    predicate IsFile() {
      !member.IsDirectory()
    }
  }

  /** The header says what follows it. */
  predicate Readable(e: Piece) {
    && |e.header| == BLOCK && !Zeros(e.header) && Decode(e.header) == Some(e.member)
    && |e.content| == e.member.size && |e.padding| == Padding(|e.content|)
  }

  function Spelled(pieces: seq<Piece>): Bytes {
    if pieces == [] then [] else pieces[0].header + pieces[0].content + pieces[0].padding + Spelled(pieces[1..])
  }

  /** Members, and at least two blocks of zeros up to the end. */
  ghost predicate Layout(stream: Bytes, pieces: seq<Piece>, end: Bytes) {
    && stream == Spelled(pieces) + end && Zeros(end) && |end| >= 2 * BLOCK
    && forall i :: 0 <= i < |pieces| ==> Readable(pieces[i])
  }

  function Sizes(pieces: seq<Piece>): int {
    if pieces == [] then 0 else Sizes(pieces[..|pieces|-1]) + pieces[|pieces|-1].member.size
  }

  /** Regular files and directories of safe paths within the bounds. */
  predicate Proper(m: Member) {
    && m.kind in {REGULAR, NUL, DIRECTORY} && SafePath(PathOf(m))
    && 0 <= m.size <= MAX_FILE_BYTES && (m.IsDirectory() ==> m.size == 0)
  }

  /** Different paths, and neither is a file above the other. */
  predicate Compatible(a: Piece, b: Piece) {
    && a.Path() != b.Path()
    && (a.IsFile() ==> !Above(a.Path(), b.Path())) && (b.IsFile() ==> !Above(b.Path(), a.Path()))
  }

  ghost predicate Acceptable(pieces: seq<Piece>, maximum: nat) {
    && |pieces| <= MAX_FILES && Sizes(pieces) <= maximum
    && (forall i :: 0 <= i < |pieces| ==> Proper(pieces[i].member))
    && (forall i, j :: 0 <= i < j < |pieces| ==> Compatible(pieces[i], pieces[j]))
  }

  /** `d` is a member's path, or above one. */
  ghost predicate Needed(pieces: seq<Piece>, d: Bytes) {
    exists i :: 0 <= i < |pieces| && NeededFor(pieces[i], d)
  }

  predicate NeededFor(e: Piece, d: Bytes) {
    e.Path() == d || Above(d, e.Path())
  }

  /** The tree of exactly these members and the directories that hold them. */
  ghost predicate Contents(t: Tree, pieces: seq<Piece>) {
    && (forall d :: d in t <==> Needed(pieces, d))
    && (forall i :: 0 <= i < |pieces| && pieces[i].IsFile() ==>
                      pieces[i].Path() in t && t[pieces[i].Path()] == File(pieces[i].content))
    && (forall d :: d in t && t[d].File? ==> exists i :: 0 <= i < |pieces| && pieces[i].IsFile()
                                                         && pieces[i].Path() == d)
  }

  lemma ContentsUnique(t: Tree, u: Tree, pieces: seq<Piece>)
    requires Contents(t, pieces) && Contents(u, pieces)
    ensures t == u
  {
    forall d | d in t ensures d in u && t[d] == u[d] {
      assert Needed(pieces, d);
      if t[d].File? || u[d].File? {
        var i :| 0 <= i < |pieces| && pieces[i].IsFile() && pieces[i].Path() == d;
      }
    }
    forall d | d in u ensures d in t { assert Needed(pieces, d); }
  }

  // --- One member -------------------------------------------------------------------------------

  lemma NeededAppend(pieces: seq<Piece>, e: Piece, d: Bytes)
    ensures Needed(pieces + [e], d) <==> Needed(pieces, d) || NeededFor(e, d)
  {
    var all := pieces + [e];
    if Needed(pieces, d) {
      var i :| 0 <= i < |pieces| && NeededFor(pieces[i], d);
      assert NeededFor(all[i], d);
    }
    assert all[|pieces|] == e;
  }

  /** Whether the tree has room for a member. */
  lemma EnterIff(t: Tree, pieces: seq<Piece>, e: Piece)
    requires Contents(t, pieces) && forall i :: 0 <= i < |pieces| ==> pieces[i].Path() != e.Path()
    ensures Enter(t, e.member).Some? <==> forall i :: 0 <= i < |pieces| ==> Compatible(pieces[i], e)
  {
    var name := e.Path();
    if Enter(t, e.member).Some? {
      forall i | 0 <= i < |pieces| ensures Compatible(pieces[i], e) {
        var p := pieces[i].Path();
        if pieces[i].IsFile() { assert p in t && t[p].File?; }
        if Above(name, p) { assert NeededFor(pieces[i], name) && name in t; }
      }
    } else if e.IsFile() && MakeDirectories(t, Parents(name)).Some? {
      assert name in t;
      var i :| 0 <= i < |pieces| && NeededFor(pieces[i], name);
      assert !Compatible(pieces[i], e);
    } else {
      var d :| d in Parents(name) + {name} && d in t && t[d].File?;
      var i :| 0 <= i < |pieces| && pieces[i].IsFile() && pieces[i].Path() == d;
      assert !Compatible(pieces[i], e);
    }
  }

  /** The tree after one member. */
  function With(t: Tree, e: Piece): Option<Tree> {
    match Enter(t, e.member)
    case None => None
    case Some(made) => Some(if e.IsFile() then made[e.Path() := File(e.content)] else made)
  }

  lemma WithIs(t: Tree, e: Piece, d: Bytes)
    requires With(t, e).Some?
    ensures var u := With(t, e).value;
      && (d in u <==> d in t || NeededFor(e, d))
      && (d in u ==> u[d] == if e.IsFile() && d == e.Path() then File(e.content) else if d in t then t[d]
                       else Directory)
  {
  }

  lemma WithContents(t: Tree, pieces: seq<Piece>, e: Piece)
    requires Contents(t, pieces) && With(t, e).Some?
    requires forall i :: 0 <= i < |pieces| ==> pieces[i].Path() != e.Path()
    ensures Contents(With(t, e).value, pieces + [e])
  {
    var u, all := With(t, e).value, pieces + [e];
    forall d ensures d in u <==> Needed(all, d) {
      NeededAppend(pieces, e, d);
      WithIs(t, e, d);
    }
    forall i | 0 <= i < |all| && all[i].IsFile() ensures all[i].Path() in u
    && u[all[i].Path()] == File(all[i].content) {
      WithIs(t, e, all[i].Path());
      if i < |pieces| { assert all[i] == pieces[i]; }
    }
    forall d | d in u && u[d].File? ensures exists i :: 0 <= i < |all| && all[i].IsFile() && all[i].Path() == d {
      WithIs(t, e, d);
      if d == e.Path() && e.IsFile() {
        assert all[|pieces|].IsFile();
      } else {
        var i :| 0 <= i < |pieces| && pieces[i].IsFile() && pieces[i].Path() == d;
        assert all[i] == pieces[i];
      }
    }
  }

  function PathsOf(pieces: seq<Piece>): (r: set<Bytes>)
    ensures forall d :: d in r <==> exists i :: 0 <= i < |pieces| && pieces[i].Path() == d
  {
    set i | 0 <= i < |pieces| :: pieces[i].Path()
  }

  lemma PathsAppend(pieces: seq<Piece>, e: Piece)
    ensures PathsOf(pieces + [e]) == PathsOf(pieces) + {e.Path()}
  {
    var all := pieces + [e];
    forall d | d in PathsOf(pieces) ensures d in PathsOf(all) {
      var i :| 0 <= i < |pieces| && pieces[i].Path() == d;
      assert all[i].Path() == d;
    }
    assert all[|pieces|] == e;
  }

  lemma {:induction false} PathsCount(pieces: seq<Piece>)
    requires forall i, j :: 0 <= i < j < |pieces| ==> pieces[i].Path() != pieces[j].Path()
    ensures |PathsOf(pieces)| == |pieces|
    decreases |pieces|
  {
    if pieces == [] {
      assert PathsOf(pieces) == {};
    } else {
      var before, last := pieces[..|pieces|-1], pieces[|pieces|-1];
      assert pieces == before + [last];
      PathsCount(before);
      PathsAppend(before, last);
      assert last.Path() !in PathsOf(before);
    }
  }

  /** The reader's variables after these members. */
  ghost predicate After(pieces: seq<Piece>, p: Progress) {
    p.seen == PathsOf(pieces) && p.total == Sizes(pieces) && Contents(p.tree, pieces)
  }

  /** One turn of the reader's loop without the bytes. */
  function Taken(e: Piece, p: Progress, maximum: nat): Option<Progress> {
    if !Admitted(e.member, p, maximum) then None
    else
      match With(p.tree, e)
      case None => None
      case Some(tree) => Some(Progress(p.seen + {e.Path()}, p.total + e.member.size, tree))
  }

  lemma AcceptableIff(pieces: seq<Piece>, e: Piece, maximum: nat)
    requires Acceptable(pieces, maximum)
    ensures Acceptable(pieces + [e], maximum)
            <==> && |pieces| < MAX_FILES && Proper(e.member) && Sizes(pieces) + e.member.size <= maximum
                 && forall i :: 0 <= i < |pieces| ==> Compatible(pieces[i], e)
  {
    var all := pieces + [e];
    assert all[..|pieces|] == pieces && all[|pieces|] == e;
    if Acceptable(all, maximum) {
      assert Proper(all[|pieces|].member);
      forall i | 0 <= i < |pieces| ensures Compatible(pieces[i], e) {
        assert Compatible(all[i], all[|pieces|]);
      }
    }
  }

  lemma AdmittedIff(pieces: seq<Piece>, e: Piece, p: Progress, maximum: nat)
    requires After(pieces, p) && Acceptable(pieces, maximum)
    ensures Admitted(e.member, p, maximum)
            <==> && |pieces| < MAX_FILES && Proper(e.member) && Sizes(pieces) + e.member.size <= maximum
                 && forall i :: 0 <= i < |pieces| ==> pieces[i].Path() != e.Path()
  {
    PathsCount(pieces);
  }

  /** A member is taken exactly if it goes with the members before it. */
  lemma TakenIff(pieces: seq<Piece>, e: Piece, p: Progress, maximum: nat)
    requires After(pieces, p) && Acceptable(pieces, maximum)
    ensures Taken(e, p, maximum).Some? <==> Acceptable(pieces + [e], maximum)
    ensures Taken(e, p, maximum).Some? ==> After(pieces + [e], Taken(e, p, maximum).value)
  {
    AdmittedIff(pieces, e, p, maximum);
    AcceptableIff(pieces, e, maximum);
    if Admitted(e.member, p, maximum) {
      EnterIff(p.tree, pieces, e);
      if With(p.tree, e).Some? { TakenAfter(pieces, e, p, Taken(e, p, maximum).value); }
    }
  }

  lemma TakenAfter(pieces: seq<Piece>, e: Piece, p: Progress, q: Progress)
    requires After(pieces, p) && With(p.tree, e).Some? && p.total + e.member.size >= 0
    requires forall i :: 0 <= i < |pieces| ==> pieces[i].Path() != e.Path()
    requires q == Progress(p.seen + {e.Path()}, p.total + e.member.size, With(p.tree, e).value)
    ensures After(pieces + [e], q)
  {
    WithContents(p.tree, pieces, e);
    PathsAppend(pieces, e);
    assert (pieces + [e])[..|pieces|] == pieces;
  }

  // --- The bytes ----------------------------------------------------------------------------------

  function BytesOf(e: Piece): Bytes {
    e.header + e.content + e.padding
  }

  lemma PieceSlices(e: Piece, more: Bytes)
    requires |e.header| == BLOCK
    ensures var rest, used := BytesOf(e) + more, BLOCK + |e.content| + |e.padding|;
      && |rest| >= used == |BytesOf(e)| && rest[..BLOCK] == e.header && rest[BLOCK..BLOCK + |e.content|] == e.content
      && rest[used..] == more
  {
  }

  lemma FileTakes(rest: Bytes, e: Piece, p: Progress)
    requires |e.header| == BLOCK && |e.content| == e.member.size && |e.padding| == Padding(|e.content|)
    requires e.IsFile() && |rest| >= BLOCK + |e.content| + |e.padding|
    requires rest[BLOCK..BLOCK + |e.content|] == e.content
    ensures NextOf(rest, e.member, p) == Consumed(e, p)
  {
  }

  lemma DirectoryTakes(rest: Bytes, e: Piece, p: Progress)
    requires !e.IsFile() && e.member.size == |e.content| == |e.padding| == 0 && |rest| >= BLOCK == |e.header|
    ensures NextOf(rest, e.member, p) == Consumed(e, p)
  {
  }

  lemma NextOfTakes(rest: Bytes, e: Piece, p: Progress)
    requires |e.header| == BLOCK && |e.content| == e.member.size && |e.padding| == Padding(|e.content|)
    requires |rest| >= BLOCK + |e.content| + |e.padding| && rest[BLOCK..BLOCK + |e.content|] == e.content
    requires !e.IsFile() ==> e.member.size == 0
    ensures NextOf(rest, e.member, p) == Consumed(e, p)
  {
    if e.IsFile() {
      FileTakes(rest, e, p);
    } else {
      DirectoryTakes(rest, e, p);
    }
  }

  function Consumed(e: Piece, p: Progress): Turn {
    match With(p.tree, e)
    case None => Refuse
    case Some(tree) => More(|BytesOf(e)|, Progress(p.seen + {e.Path()}, p.total + |e.content|, tree))
  }

  lemma NextIsNextOf(rest: Bytes, e: Piece, p: Progress, maximum: nat)
    requires |rest| >= BLOCK && rest[..BLOCK] == e.header && Readable(e)
    ensures Next(rest, p, maximum) == if Admitted(e.member, p, maximum) then NextOf(rest, e.member, p) else Refuse
  {
    assert Zeros(rest[..BLOCK]) == Zeros(e.header);
  }

  /** What the reader does with a member at the beginning of what is left. */
  lemma NextTakes(e: Piece, more: Bytes, p: Progress, maximum: nat)
    requires Readable(e)
    ensures var rest := BytesOf(e) + more;
      && rest[|BytesOf(e)|..] == more && |BytesOf(e)| > 0
      && Next(rest, p, maximum)
         == match Taken(e, p, maximum) case None => Refuse case Some(q) => More(|BytesOf(e)|, q)
  {
    var rest := BytesOf(e) + more;
    PieceSlices(e, more);
    NextIsNextOf(rest, e, p, maximum);
    if Admitted(e.member, p, maximum) { NextOfTakes(rest, e, p); }
  }

  /** What the reader accepts at the beginning of what is left is a member. */
  lemma NextIsPiece(rest: Bytes, p: Progress, maximum: nat) returns (e: Piece)
    requires Next(rest, p, maximum).More?
    ensures Readable(e) && |BytesOf(e)| <= |rest| && rest == BytesOf(e) + rest[|BytesOf(e)|..]
  {
    var m := MemberOf(rest, p, maximum);
    NextOfFits(rest, m, p);
    e := PieceOf(rest, m);
  }

  lemma MemberOf(rest: Bytes, p: Progress, maximum: nat) returns (m: Member)
    requires Next(rest, p, maximum).More?
    ensures |rest| >= BLOCK && Decode(rest[..BLOCK]) == Some(m) && !Zeros(rest[..BLOCK])
    ensures Admitted(m, p, maximum) && NextOf(rest, m, p).More?
  {
    m := Decode(rest[..BLOCK]).value;
  }

  lemma NextOfFits(rest: Bytes, m: Member, p: Progress)
    requires |rest| >= BLOCK && 0 <= m.size && NextOf(rest, m, p).More? && (m.IsDirectory() ==> m.size == 0)
    ensures |rest| >= BLOCK + m.size + Padding(m.size)
  {
  }

  lemma PieceOf(rest: Bytes, m: Member) returns (e: Piece)
    requires 0 <= m.size && |rest| >= BLOCK + m.size + Padding(m.size)
    requires Decode(rest[..BLOCK]) == Some(m) && !Zeros(rest[..BLOCK])
    ensures Readable(e) && |BytesOf(e)| <= |rest| && rest == BytesOf(e) + rest[|BytesOf(e)|..]
  {
    var n := BLOCK + m.size;
    var k := n + Padding(m.size);
    Cuts(rest, BLOCK, n, k);
    e := Piece(rest[..BLOCK], m, rest[BLOCK..n], rest[n..k]);
  }

  lemma Cuts(s: Bytes, i: nat, j: nat, k: nat)
    requires i <= j <= k <= |s|
    ensures s == s[..i] + s[i..j] + s[j..k] + s[k..]
  {
    assert s[..j] == s[..i] + s[i..j];
    assert s[..k] == s[..j] + s[j..k];
  }

  lemma LayoutCons(e: Piece, others: seq<Piece>, more: Bytes, end: Bytes)
    requires Readable(e) && Layout(more, others, end)
    ensures Layout(BytesOf(e) + more, [e] + others, end)
  {
    assert ([e] + others)[1..] == others;
    assert BytesOf(e) + more == BytesOf(e) + Spelled(others) + end;
  }

  lemma LayoutFirst(rest: Bytes, pieces: seq<Piece>, end: Bytes)
    requires Layout(rest, pieces, end) && pieces != []
    ensures var more := Spelled(pieces[1..]) + end;
            Readable(pieces[0]) && rest == BytesOf(pieces[0]) + more && Layout(more, pieces[1..], end)
  {
  }

  lemma EndStops(end: Bytes, p: Progress, maximum: nat)
    requires Zeros(end) && |end| >= 2 * BLOCK
    ensures Next(end, p, maximum) == Finish && Members(end, p, maximum) == Some(p.tree)
  {
  }

  lemma FinishIsEnd(rest: Bytes, p: Progress, maximum: nat)
    requires Next(rest, p, maximum).Finish?
    ensures Layout(rest, [], rest) && Members(rest, p, maximum) == Some(p.tree)
  {
  }

  lemma MembersTake(e: Piece, more: Bytes, p: Progress, maximum: nat)
    requires Readable(e)
    ensures Members(BytesOf(e) + more, p, maximum)
            == match Taken(e, p, maximum) case None => None case Some(q) => Members(more, q, maximum)
  {
    NextTakes(e, more, p, maximum);
  }

  /** Between two members: what was read, what is left, and the tree that comes of it. */
  ghost predicate Reading(before: seq<Piece>, rest: Bytes, p: Progress, maximum: nat, t: Option<Tree>) {
    After(before, p) && Acceptable(before, maximum) && Members(rest, p, maximum) == t
  }

  ghost predicate Explained(before: seq<Piece>, rest: Bytes, pieces: seq<Piece>, end: Bytes, maximum: nat, t: Tree) {
    Layout(rest, pieces, end) && Acceptable(before + pieces, maximum) && Contents(t, before + pieces)
  }

  lemma ReadFirst(before: seq<Piece>, rest: Bytes, p: Progress, maximum: nat, t: Tree)
    returns (e: Piece, more: Bytes, q: Progress)
    requires Reading(before, rest, p, maximum, Some(t)) && !Next(rest, p, maximum).Finish?
    ensures Readable(e) && rest == BytesOf(e) + more && |more| < |rest|
    ensures Reading(before + [e], more, q, maximum, Some(t))
  {
    e := NextIsPiece(rest, p, maximum);
    more := rest[|BytesOf(e)|..];
    MembersTake(e, more, p, maximum);
    TakenIff(before, e, p, maximum);
    q := Taken(e, p, maximum).value;
  }

  lemma Associative(before: seq<Piece>, e: Piece, others: seq<Piece>)
    ensures before + [e] + others == before + ([e] + others)
  {
  }

  lemma ExplainedFirst(before: seq<Piece>, e: Piece, more: Bytes, others: seq<Piece>, end: Bytes, maximum: nat, t: Tree)
    requires Readable(e) && Explained(before + [e], more, others, end, maximum, t)
    ensures Explained(before, BytesOf(e) + more, [e] + others, end, maximum, t)
  {
    LayoutCons(e, others, more, end);
    Associative(before, e, others);
  }

  lemma ReadLast(before: seq<Piece>, rest: Bytes, p: Progress, maximum: nat, t: Tree)
    requires Reading(before, rest, p, maximum, Some(t)) && Next(rest, p, maximum).Finish?
    ensures Explained(before, rest, [], rest, maximum, t)
  {
    FinishIsEnd(rest, p, maximum);
    assert before + [] == before;
  }

  /** What the reader accepts are some members and the end. */
  lemma {:induction false} ReadIsExplained(before: seq<Piece>, rest: Bytes, p: Progress, maximum: nat, t: Tree)
    returns (pieces: seq<Piece>, end: Bytes)
    requires Reading(before, rest, p, maximum, Some(t))
    ensures Explained(before, rest, pieces, end, maximum, t)
    decreases |rest|
  {
    if Next(rest, p, maximum).Finish? {
      ReadLast(before, rest, p, maximum, t);
      return [], rest;
    }
    var e, more, q := ReadFirst(before, rest, p, maximum, t);
    var others;
    others, end := ReadIsExplained(before + [e], more, q, maximum, t);
    ExplainedFirst(before, e, more, others, end, maximum, t);
    pieces := [e] + others;
  }

  lemma TakesFirst(before: seq<Piece>, rest: Bytes, pieces: seq<Piece>, end: Bytes, p: Progress, maximum: nat,
                   t: Option<Tree>) returns (q: Progress)
    requires pieces != [] && Reading(before, rest, p, maximum, t)
    requires Layout(rest, pieces, end) && Acceptable(before + pieces, maximum)
    ensures var more, first := Spelled(pieces[1..]) + end, before + [pieces[0]];
      && Reading(first, more, q, maximum, t) && Layout(more, pieces[1..], end)
      && first + pieces[1..] == before + pieces
  {
    var e, others := pieces[0], pieces[1..];
    LayoutFirst(rest, pieces, end);
    Associative(before, e, others);
    assert pieces == [e] + others;
    AcceptablePrefix(before + [e], others, maximum);
    MembersTake(e, Spelled(others) + end, p, maximum);
    TakenIff(before, e, p, maximum);
    q := Taken(e, p, maximum).value;
  }

  lemma TakesLast(before: seq<Piece>, rest: Bytes, end: Bytes, p: Progress, maximum: nat, t: Option<Tree>)
    requires Reading(before, rest, p, maximum, t) && Layout(rest, [], end)
    ensures t.Some? && Contents(t.value, before)
  {
    assert rest == end;
    EndStops(end, p, maximum);
  }

  /** And acceptable members with the end are accepted. */
  lemma {:induction false} LayoutIsRead(before: seq<Piece>, rest: Bytes, pieces: seq<Piece>, end: Bytes, p: Progress,
                                        maximum: nat, t: Option<Tree>)
    requires Reading(before, rest, p, maximum, t) && Layout(rest, pieces, end) && Acceptable(before + pieces, maximum)
    ensures t.Some? && Contents(t.value, before + pieces)
    decreases |pieces|
  {
    if pieces == [] {
      assert before + [] == before;
      TakesLast(before, rest, end, p, maximum, t);
    } else {
      var q := TakesFirst(before, rest, pieces, end, p, maximum, t);
      LayoutIsRead(before + [pieces[0]], Spelled(pieces[1..]) + end, pieces[1..], end, q, maximum, t);
    }
  }

  lemma {:induction false} AcceptablePrefix(pieces: seq<Piece>, rest: seq<Piece>, maximum: nat)
    requires Acceptable(pieces + rest, maximum)
    ensures Acceptable(pieces, maximum)
    decreases |rest|
  {
    if rest == [] {
      assert pieces + rest == pieces;
    } else {
      var all, before := pieces + rest, rest[..|rest|-1];
      assert all[..|all|-1] == pieces + before;
      AcceptableShorter(all, maximum);
      AcceptablePrefix(pieces, before, maximum);
    }
  }

  lemma AcceptableShorter(pieces: seq<Piece>, maximum: nat)
    requires Acceptable(pieces, maximum) && pieces != []
    ensures Acceptable(pieces[..|pieces|-1], maximum)
  {
    assert Proper(pieces[|pieces|-1].member);
  }

  /**
   A stream is accepted exactly if it is a layout of acceptable members, and what is extracted are exactly these
   members and the directories that hold them.
   */
  lemma AcceptedStreamIff(stream: Bytes, maximum: nat, t: Tree)
    ensures Members(stream, START, maximum) == Some(t)
            <==> exists pieces, end ::
                   Layout(stream, pieces, end) && Acceptable(pieces, maximum) && Contents(t, pieces)
  {
    NothingTaken(maximum);
    if Members(stream, START, maximum) == Some(t) {
      var pieces, end := ReadIsExplained([], stream, START, maximum, t);
      assert [] + pieces == pieces;
    }
    forall pieces, end | Layout(stream, pieces, end) && Acceptable(pieces, maximum) && Contents(t, pieces)
      ensures Members(stream, START, maximum) == Some(t)
    {
      assert [] + pieces == pieces;
      LayoutIsRead([], stream, pieces, end, START, maximum, Members(stream, START, maximum));
      ContentsUnique(t, Members(stream, START, maximum).value, pieces);
    }
  }

  lemma NothingTaken(maximum: nat)
    ensures After([], START) && Acceptable([], maximum)
  {
    assert PathsOf([]) == {};
  }
}
