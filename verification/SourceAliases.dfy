/** `source_aliases` (release_prepare.py): the worklist that resolves tracked links without leaving the source. */
module SourceAliases {
  import opened Prelude
  import opened PathResolution

  type Path = seq<Name>

  /** What `git ls-tree` says of a tracked path. */
  datatype Mode = RegularMode | LinkMode | OtherMode
  type Tracked = map<Path, Mode>

  function Pieces(path: Path): seq<Piece> {
    seq(|path|, i requires 0 <= i < |path| => Named(path[i]))
  }

  /** Some tracked path lies below `d`. */
  predicate InDirectories(tracked: Tracked, d: Path) {
    exists p :: p in tracked && |d| < |p| && p[..|d|] == d
  }

  predicate IsLink(fs: Nodes, top: nat, p: Path) {
    var c := At(fs, top, p);
    c.Some? && c.value in fs && fs[c.value].Link?
  }

  predicate IsDir(fs: Nodes, top: nat, p: Path) {
    var c := At(fs, top, p);
    c.Some? && IsFolder(fs, c.value)
  }

  /** `regular`: a regular file, with no link on the way. */
  predicate IsRegular(fs: Nodes, top: nat, p: Path) {
    var c := At(fs, top, p);
    c.Some? && c.value in fs && fs[c.value].Plain?
  }

  // --- The worklist against the resolution it stands for --------------------------------------

  /** Each followed link under the path at which the worklist met it. */
  ghost predicate Labelled(fs: Nodes, top: nat, crossed: seq<(nat, Name)>, labels: seq<Path>) {
    && |labels| == |crossed|
    && forall i :: 0 <= i < |labels| ==> Labels(fs, top, labels[i], crossed[i])
  }

  ghost predicate Labels(fs: Nodes, top: nat, path: Path, entry: (nat, Name)) {
    path != [] && At(fs, top, path[..|path|-1]) == Some(entry.0) && path[|path|-1] == entry.1 && IsFolder(fs, entry.0)
  }

  /** The worklist stands where the resolution of `alias` stands after `k` steps. */
  ghost predicate Tracks(fs: Nodes, top: nat, alias: Path, k: nat, resolved: Path, pending: seq<Piece>,
                         crossed: seq<(nat, Name)>,
                         labels: seq<Path>)
  {
    var dir := At(fs, top, resolved);
    && dir.Some? && IsFolder(fs, dir.value)
    && Run(fs, top, Walking(top, Pieces(alias), []), k) == Walking(dir.value, pending, crossed)
    && Distinct(crossed)
    && Labelled(fs, top, crossed, labels)
  }

  ghost predicate Lost(fs: Nodes, top: nat, alias: Path) {
    forall file: nat :: !Reaches(fs, top, Pieces(alias), file)
  }

  lemma StuckIsLost(fs: Nodes, top: nat, alias: Path, k: nat)
    requires var w := Run(fs, top, Walking(top, Pieces(alias), []), k); w.Walking? && Hopeless(fs, top, w)
    ensures Lost(fs, top, alias)
  {
    forall file: nat ensures !Reaches(fs, top, Pieces(alias), file) {
      NeverEnds(fs, top, Pieces(alias), k, file);
    }
  }

  lemma StepUp(fs: Nodes, top: nat, alias: Path, k: nat, resolved: Path, pending: seq<Piece>, crossed: seq<(nat, Name)>,
               labels: seq<Path>)
    requires Tree(fs, top) && Tracks(fs, top, alias, k, resolved, pending, crossed, labels)
    requires pending != [] && pending[0] == Up
    ensures resolved == [] ==> Lost(fs, top, alias)
    ensures resolved != [] ==> Tracks(fs, top, alias, k + 1, resolved[..|resolved|-1], pending[1..], crossed, labels)
  {
    if resolved == [] {
      StuckIsLost(fs, top, alias, k);
    } else {
      AtIsChild(fs, top, resolved);
    }
  }

  lemma StepFolder(fs: Nodes, top: nat, alias: Path, k: nat, resolved: Path, pending: seq<Piece>,
                   crossed: seq<(nat, Name)>,
                   labels: seq<Path>, n: Name)
    requires Tracks(fs, top, alias, k, resolved, pending, crossed, labels)
    requires pending != [] && pending[0] == Named(n) && IsDir(fs, top, resolved + [n])
    ensures Tracks(fs, top, alias, k + 1, resolved + [n], pending[1..], crossed, labels)
  {
    AtAppend(fs, top, resolved, n);
  }

  lemma StepNowhere(fs: Nodes, top: nat, alias: Path, k: nat, resolved: Path, pending: seq<Piece>,
                    crossed: seq<(nat, Name)>,
                    labels: seq<Path>, n: Name)
    requires Tree(fs, top) && Tracks(fs, top, alias, k, resolved, pending, crossed, labels)
    requires pending != [] && pending[0] == Named(n)
    requires !IsDir(fs, top, resolved + [n]) && !IsLink(fs, top, resolved + [n])
    requires IsRegular(fs, top, resolved + [n]) ==> Parts(pending[1..]) != []
    ensures Lost(fs, top, alias)
  {
    AtAppend(fs, top, resolved, n);
    StuckIsLost(fs, top, alias, k);
  }

  lemma StepLink(fs: Nodes, top: nat, alias: Path, k: nat, resolved: Path, pending: seq<Piece>,
                 crossed: seq<(nat, Name)>,
                 labels: seq<Path>, n: Name)
    requires Tree(fs, top) && Tracks(fs, top, alias, k, resolved, pending, crossed, labels)
    requires pending != [] && pending[0] == Named(n) && IsLink(fs, top, resolved + [n])
    ensures var link := fs[At(fs, top, resolved + [n]).value]; var entry := (At(fs, top, resolved).value, n);
      && (link.absolute || resolved + [n] in labels ==> Lost(fs, top, alias))
      && (!link.absolute && resolved + [n] !in labels
          ==> Tracks(fs, top, alias, k + 1, resolved, link.target + pending[1..], crossed + [entry],
                     labels + [resolved + [n]]))
  {
    AtAppend(fs, top, resolved, n);
    var entry := (At(fs, top, resolved).value, n);
    var link := fs[At(fs, top, resolved + [n]).value];
    if link.absolute {
      StuckIsLost(fs, top, alias, k);
    } else if resolved + [n] in labels {
      var i :| 0 <= i < |labels| && labels[i] == resolved + [n];
      assert (resolved + [n])[..|resolved|] == resolved && Labels(fs, top, labels[i], crossed[i]);
      assert (crossed + [entry])[i] == (crossed + [entry])[|crossed|];
      StuckIsLost(fs, top, alias, k);
    } else {
      FirstCrossing(fs, top, crossed, labels, resolved, n);
    }
  }

  lemma FirstCrossing(fs: Nodes, top: nat, crossed: seq<(nat, Name)>, labels: seq<Path>, resolved: Path, n: Name)
    requires Tree(fs, top) && Labelled(fs, top, crossed, labels) && Distinct(crossed)
    requires At(fs, top, resolved).Some? && IsFolder(fs, At(fs, top, resolved).value) && resolved + [n] !in labels
    ensures var entry := (At(fs, top, resolved).value, n);
            Distinct(crossed + [entry]) && Labelled(fs, top, crossed + [entry], labels + [resolved + [n]])
  {
    var entry := (At(fs, top, resolved).value, n);
    forall i | 0 <= i < |crossed| ensures crossed[i] != entry {
      if crossed[i] == entry {
        var met := labels[i];
        assert Labels(fs, top, met, crossed[i]);
        assert met == met[..|met|-1] + [met[|met|-1]];
        AtFolderInjective(fs, top, met[..|met|-1], resolved);
      }
    }
    assert (resolved + [n])[..|resolved|] == resolved;
    assert Labels(fs, top, resolved + [n], entry);
    var more, named := crossed + [entry], labels + [resolved + [n]];
    forall i | 0 <= i < |named| ensures Labels(fs, top, named[i], more[i]) {
      if i < |labels| { assert Labels(fs, top, labels[i], crossed[i]); }
    }
  }

  // --- Staying in what is tracked --------------------------------------------------------------

  /** What lies at `path` is tracked as what it is: a link, a regular file, or a directory of tracked paths. */
  ghost predicate Taken(fs: Nodes, top: nat, tracked: Tracked, path: Path) {
    && (IsLink(fs, top, path) ==> path in tracked && tracked[path] == LinkMode)
    && (IsDir(fs, top, path) ==> InDirectories(tracked, path) && (path in tracked ==> tracked[path] != LinkMode))
    && (IsRegular(fs, top, path) ==> path in tracked && tracked[path] == RegularMode)
  }

  /** The name that the next step takes, if it takes one, is tracked as what lies there. */
  ghost predicate Stays(fs: Nodes, top: nat, tracked: Tracked, w: Walk) {
    w.Walking? && w.pending != [] && w.pending[0].Named? ==>
      forall p: Path :: At(fs, top, p) == Some(w.dir) ==> Taken(fs, top, tracked, p + [w.pending[0].name])
  }

  /** The first `k` steps of the resolution of `alias` stay in what is tracked. */
  ghost predicate StaysTo(fs: Nodes, top: nat, tracked: Tracked, alias: Path, k: nat) {
    forall j: nat :: j < k ==> Stays(fs, top, tracked, Run(fs, top, Walking(top, Pieces(alias), []), j))
  }

  /** The resolution comes to the last name, that of `file`, following no link twice, and takes only what is tracked. */
  ghost predicate Accessible(fs: Nodes, top: nat, tracked: Tracked, alias: Path, file: nat) {
    exists n: nat :: ReachedAt(fs, top, tracked, alias, file, n)
  }

  ghost predicate ReachedAt(fs: Nodes, top: nat, tracked: Tracked, alias: Path, file: nat, n: nat) {
    LastName(fs, Run(fs, top, Walking(top, Pieces(alias), []), n), file) && StaysTo(fs, top, tracked, alias, n + 1)
  }

  ghost predicate Inaccessible(fs: Nodes, top: nat, tracked: Tracked, alias: Path) {
    forall file: nat :: !Accessible(fs, top, tracked, alias, file)
  }

  lemma LostIsInaccessible(fs: Nodes, top: nat, tracked: Tracked, alias: Path)
    requires Lost(fs, top, alias)
    ensures Inaccessible(fs, top, tracked, alias)
  {
    forall file: nat ensures !Accessible(fs, top, tracked, alias, file) {
      assert !Reaches(fs, top, Pieces(alias), file);
    }
  }

  /** A resolution that is under way, and leaves what is tracked with its next step, is not accepted. */
  lemma StrayIsInaccessible(fs: Nodes, top: nat, tracked: Tracked, alias: Path, k: nat)
    requires var w := Run(fs, top, Walking(top, Pieces(alias), []), k); w.Walking? && !Stays(fs, top, tracked, w)
    ensures Inaccessible(fs, top, tracked, alias)
  {
    forall file: nat, n: nat ensures !ReachedAt(fs, top, tracked, alias, file, n) {
      if n < k && ReachedAt(fs, top, tracked, alias, file, n) {
        AfterLast(fs, top, Walking(top, Pieces(alias), []), n, k, file);
      }
    }
  }

  /** A name under a directory's own path is all that `Stays` asks for. */
  lemma StaysAtName(fs: Nodes, top: nat, tracked: Tracked, resolved: Path, n: Name, w: Walk)
    requires Tree(fs, top) && At(fs, top, resolved).Some? && IsFolder(fs, At(fs, top, resolved).value)
    requires w.Walking? && w.dir == At(fs, top, resolved).value && w.pending != [] && w.pending[0] == Named(n)
    ensures Stays(fs, top, tracked, w) <==> Taken(fs, top, tracked, resolved + [n])
  {
    forall p: Path | At(fs, top, p) == Some(w.dir) ensures p == resolved {
      AtFolderInjective(fs, top, p, resolved);
    }
  }

  lemma {:induction false} SkipHere(fs: Nodes, top: nat, tracked: Tracked, alias: Path, k: nat, resolved: Path,
                                    pending: seq<Piece>, crossed: seq<(nat, Name)>, labels: seq<Path>)
    returns (j: nat, next: seq<Piece>)
    requires Tracks(fs, top, alias, k, resolved, pending, crossed, labels) && StaysTo(fs, top, tracked, alias, k)
    ensures Tracks(fs, top, alias, j, resolved, next, crossed, labels) && StaysTo(fs, top, tracked, alias, j)
    ensures Parts(next) == Parts(pending) && (next == [] || next[0] != Here)
    decreases |pending|
  {
    if pending == [] || pending[0] != Here {
      return k, pending;
    }
    j, next := SkipHere(fs, top, tracked, alias, k + 1, resolved, pending[1..], crossed, labels);
  }

  lemma PartsOfPieces(path: Path)
    ensures Parts(Pieces(path)) == Pieces(path)
  {
    PartsWithoutHere(Pieces(path));
  }

  lemma {:induction false} PartsWithoutHere(pieces: seq<Piece>)
    requires Here !in pieces
    ensures Parts(pieces) == pieces
    decreases |pieces|
  {
    if pieces != [] { PartsWithoutHere(pieces[1..]); }
  }

  lemma {:induction false} PartsAppend(a: seq<Piece>, b: seq<Piece>)
    ensures Parts(a + b) == Parts(a) + Parts(b)
    decreases |a|
  {
    if a == [] {
      assert a + b == b;
    } else {
      assert (a + b)[1..] == a[1..] + b;
      PartsAppend(a[1..], b);
    }
  }

  // --- The worklist -----------------------------------------------------------------------------

  /** The resolution has some state that the worklist's variables stand for, and has stayed in what is tracked. */
  ghost predicate Follows(fs: Nodes, top: nat, tracked: Tracked, alias: Path, resolved: Path, pending: seq<Piece>,
                          seen: set<Path>)
  {
    exists k: nat, whole, crossed, labels ::
      FollowsAt(fs, top, tracked, alias, resolved, pending, seen, k, whole, crossed, labels)
  }

  ghost predicate FollowsAt(fs: Nodes, top: nat, tracked: Tracked, alias: Path, resolved: Path, pending: seq<Piece>,
                            seen: set<Path>, k: nat, whole: seq<Piece>, crossed: seq<(nat, Name)>, labels: seq<Path>)
  {
    && Tracks(fs, top, alias, k, resolved, whole, crossed, labels)
    && StaysTo(fs, top, tracked, alias, k)
    && Parts(whole) == pending
    && (forall p :: p in seen <==> p in labels)
  }

  /** With nothing but pieces that count in front. */
  lemma Unfold(fs: Nodes, top: nat, tracked: Tracked, alias: Path, resolved: Path, pending: seq<Piece>, seen: set<Path>)
    returns (k: nat, whole: seq<Piece>, crossed: seq<(nat, Name)>, labels: seq<Path>)
    requires Follows(fs, top, tracked, alias, resolved, pending, seen)
    ensures FollowsAt(fs, top, tracked, alias, resolved, pending, seen, k, whole, crossed, labels)
    ensures pending == [] ==> whole == []
    ensures pending != [] ==> whole != [] && whole[0] == pending[0] && Parts(whole[1..]) == pending[1..]
  {
    var j, w, c, l :| FollowsAt(fs, top, tracked, alias, resolved, pending, seen, j, w, c, l);
    crossed, labels := c, l;
    k, whole := SkipHere(fs, top, tracked, alias, j, resolved, w, c, l);
  }

  lemma FollowsStart(fs: Nodes, top: nat, tracked: Tracked, alias: Path)
    requires Tree(fs, top)
    ensures Follows(fs, top, tracked, alias, [], Pieces(alias), {})
  {
    PartsOfPieces(alias);
    assert FollowsAt(fs, top, tracked, alias, [], Pieces(alias), {}, 0, Pieces(alias), [], []);
  }

  /** One step on, by a step that stays in what is tracked. */
  lemma FollowsNext(fs: Nodes, top: nat, tracked: Tracked, alias: Path, k: nat, resolved: Path, whole: seq<Piece>,
                    crossed: seq<(nat, Name)>, labels: seq<Path>, seen: set<Path>)
    requires Tracks(fs, top, alias, k + 1, resolved, whole, crossed, labels) && StaysTo(fs, top, tracked, alias, k)
    requires Stays(fs, top, tracked, Run(fs, top, Walking(top, Pieces(alias), []), k))
    requires forall p :: p in seen <==> p in labels
    ensures Follows(fs, top, tracked, alias, resolved, Parts(whole), seen)
  {
    assert FollowsAt(fs, top, tracked, alias, resolved, Parts(whole), seen, k + 1, whole, crossed, labels);
  }

  lemma FollowsUp(fs: Nodes, top: nat, tracked: Tracked, alias: Path, resolved: Path, pending: seq<Piece>,
                  seen: set<Path>)
    requires Tree(fs, top) && Follows(fs, top, tracked, alias, resolved, pending, seen)
    requires pending != [] && pending[0] == Up
    ensures resolved == [] ==> Inaccessible(fs, top, tracked, alias)
    ensures resolved != [] ==> Follows(fs, top, tracked, alias, resolved[..|resolved|-1], pending[1..], seen)
  {
    var k, whole, crossed, labels := Unfold(fs, top, tracked, alias, resolved, pending, seen);
    StepUp(fs, top, alias, k, resolved, whole, crossed, labels);
    if resolved == [] {
      LostIsInaccessible(fs, top, tracked, alias);
    } else {
      FollowsNext(fs, top, tracked, alias, k, resolved[..|resolved|-1], whole[1..], crossed, labels, seen);
    }
  }

  /** A name that is not tracked as what lies there. */
  lemma FollowsStray(fs: Nodes, top: nat, tracked: Tracked, alias: Path, resolved: Path, pending: seq<Piece>,
                     seen: set<Path>, n: Name)
    requires Tree(fs, top) && Follows(fs, top, tracked, alias, resolved, pending, seen)
    requires pending != [] && pending[0] == Named(n) && !Taken(fs, top, tracked, resolved + [n])
    ensures Inaccessible(fs, top, tracked, alias)
  {
    var k, whole, crossed, labels := Unfold(fs, top, tracked, alias, resolved, pending, seen);
    StaysAtName(fs, top, tracked, resolved, n, Run(fs, top, Walking(top, Pieces(alias), []), k));
    StrayIsInaccessible(fs, top, tracked, alias, k);
  }

  lemma FollowsLink(fs: Nodes, top: nat, tracked: Tracked, alias: Path, resolved: Path, pending: seq<Piece>,
                    seen: set<Path>, n: Name)
    requires Tree(fs, top) && Follows(fs, top, tracked, alias, resolved, pending, seen)
    requires pending != [] && pending[0] == Named(n) && IsLink(fs, top, resolved + [n])
    requires Taken(fs, top, tracked, resolved + [n])
    ensures var link := fs[At(fs, top, resolved + [n]).value];
      && (link.absolute || resolved + [n] in seen ==> Inaccessible(fs, top, tracked, alias))
      && (!link.absolute && resolved + [n] !in seen
          ==> Follows(fs, top, tracked, alias, resolved, Parts(link.target) + pending[1..], seen + {resolved + [n]}))
  {
    var k, whole, crossed, labels := Unfold(fs, top, tracked, alias, resolved, pending, seen);
    StepLink(fs, top, alias, k, resolved, whole, crossed, labels, n);
    StaysAtName(fs, top, tracked, resolved, n, Run(fs, top, Walking(top, Pieces(alias), []), k));
    var link := fs[At(fs, top, resolved + [n]).value];
    if link.absolute || resolved + [n] in seen {
      LostIsInaccessible(fs, top, tracked, alias);
    } else {
      PartsAppend(link.target, whole[1..]);
      FollowsNext(fs, top, tracked, alias, k, resolved, link.target + whole[1..],
                  crossed + [(At(fs, top, resolved).value, n)], labels + [resolved + [n]], seen + {resolved + [n]});
    }
  }

  lemma FollowsFolder(fs: Nodes, top: nat, tracked: Tracked, alias: Path, resolved: Path, pending: seq<Piece>,
                      seen: set<Path>, n: Name)
    requires Tree(fs, top) && Follows(fs, top, tracked, alias, resolved, pending, seen)
    requires pending != [] && pending[0] == Named(n) && IsDir(fs, top, resolved + [n])
    requires Taken(fs, top, tracked, resolved + [n])
    ensures Follows(fs, top, tracked, alias, resolved + [n], pending[1..], seen)
  {
    var k, whole, crossed, labels := Unfold(fs, top, tracked, alias, resolved, pending, seen);
    StepFolder(fs, top, alias, k, resolved, whole, crossed, labels, n);
    StaysAtName(fs, top, tracked, resolved, n, Run(fs, top, Walking(top, Pieces(alias), []), k));
    FollowsNext(fs, top, tracked, alias, k, resolved + [n], whole[1..], crossed, labels, seen);
  }

  lemma FollowsNowhere(fs: Nodes, top: nat, tracked: Tracked, alias: Path, resolved: Path, pending: seq<Piece>,
                       seen: set<Path>, n: Name)
    requires Tree(fs, top) && Follows(fs, top, tracked, alias, resolved, pending, seen)
    requires pending != [] && pending[0] == Named(n)
    requires !IsDir(fs, top, resolved + [n]) && !IsLink(fs, top, resolved + [n])
    requires IsRegular(fs, top, resolved + [n]) ==> pending[1..] != []
    ensures Inaccessible(fs, top, tracked, alias)
  {
    var k, whole, crossed, labels := Unfold(fs, top, tracked, alias, resolved, pending, seen);
    StepNowhere(fs, top, alias, k, resolved, whole, crossed, labels, n);
    LostIsInaccessible(fs, top, tracked, alias);
  }

  lemma FollowsEnd(fs: Nodes, top: nat, tracked: Tracked, alias: Path, resolved: Path, seen: set<Path>)
    requires Follows(fs, top, tracked, alias, resolved, [], seen)
    ensures Inaccessible(fs, top, tracked, alias) && IsDir(fs, top, resolved)
  {
    var k, whole, crossed, labels := Unfold(fs, top, tracked, alias, resolved, [], seen);
    StuckIsLost(fs, top, alias, k);
    LostIsInaccessible(fs, top, tracked, alias);
  }

  /** The last name: it is accepted exactly if it is a tracked regular file, unless it is a tracked link. */
  lemma FollowsLast(fs: Nodes, top: nat, tracked: Tracked, alias: Path, resolved: Path, pending: seq<Piece>,
                    seen: set<Path>, n: Name)
    requires Tree(fs, top) && Follows(fs, top, tracked, alias, resolved, pending, seen) && pending == [Named(n)]
    requires resolved + [n] in tracked ==> tracked[resolved + [n]] != LinkMode
    ensures var target := resolved + [n];
      if IsRegular(fs, top, target) && target in tracked && tracked[target] == RegularMode
      then Accessible(fs, top, tracked, alias, At(fs, top, target).value)
      else Inaccessible(fs, top, tracked, alias)
  {
    var target := resolved + [n];
    if !Taken(fs, top, tracked, target) {
      FollowsStray(fs, top, tracked, alias, resolved, pending, seen, n);
    } else if IsDir(fs, top, target) {
      FollowsFolder(fs, top, tracked, alias, resolved, pending, seen, n);
      FollowsEnd(fs, top, tracked, alias, target, seen);
    } else if IsRegular(fs, top, target) {
      FollowsFile(fs, top, tracked, alias, resolved, pending, seen, n);
    } else {
      FollowsNowhere(fs, top, tracked, alias, resolved, pending, seen, n);
    }
  }

  lemma FollowsFile(fs: Nodes, top: nat, tracked: Tracked, alias: Path, resolved: Path, pending: seq<Piece>,
                    seen: set<Path>, n: Name)
    requires Tree(fs, top) && Follows(fs, top, tracked, alias, resolved, pending, seen) && pending == [Named(n)]
    requires IsRegular(fs, top, resolved + [n]) && Taken(fs, top, tracked, resolved + [n])
    ensures Accessible(fs, top, tracked, alias, At(fs, top, resolved + [n]).value)
  {
    AtAppend(fs, top, resolved, n);
    var k, whole, crossed, labels := Unfold(fs, top, tracked, alias, resolved, pending, seen);
    StaysAtName(fs, top, tracked, resolved, n, Run(fs, top, Walking(top, Pieces(alias), []), k));
    assert ReachedAt(fs, top, tracked, alias, At(fs, top, resolved + [n]).value, k);
  }

  /** `target` is a tracked regular file, and the one that the resolution of `alias` comes to. */
  ghost predicate Target(fs: Nodes, top: nat, tracked: Tracked, alias: Path, target: Path) {
    && target in tracked && tracked[target] == RegularMode && IsRegular(fs, top, target)
    && Accessible(fs, top, tracked, alias, At(fs, top, target).value)
  }

  /** What the loop keeps: it follows the resolution, or has just taken its last name. */
  ghost predicate Kept(fs: Nodes, top: nat, tracked: Tracked, alias: Path, resolved: Path, pending: seq<Piece>,
                       seen: set<Path>)
  {
    || Follows(fs, top, tracked, alias, resolved, pending, seen)
    || (pending == [] && Decided(fs, top, tracked, alias, resolved))
  }

  ghost predicate Decided(fs: Nodes, top: nat, tracked: Tracked, alias: Path, resolved: Path) {
    if IsRegular(fs, top, resolved) && resolved in tracked && tracked[resolved] == RegularMode
    then Target(fs, top, tracked, alias, resolved)
    else Inaccessible(fs, top, tracked, alias)
  }

  /** A name that is not a tracked link, taken as it is. */
  lemma TakeName(fs: Nodes, top: nat, tracked: Tracked, alias: Path, resolved: Path, pending: seq<Piece>,
                 seen: set<Path>, n: Name)
    requires Tree(fs, top) && Follows(fs, top, tracked, alias, resolved, pending, seen)
    requires pending != [] && pending[0] == Named(n)
    requires resolved + [n] in tracked ==> tracked[resolved + [n]] != LinkMode
    ensures var ok := pending[1..] == [] || (InDirectories(tracked, resolved + [n]) && IsDir(fs, top, resolved + [n]));
      if ok then Kept(fs, top, tracked, alias, resolved + [n], pending[1..], seen)
      else Inaccessible(fs, top, tracked, alias)
  {
    var relative := resolved + [n];
    if pending[1..] == [] {
      assert pending == [Named(n)];
      FollowsLast(fs, top, tracked, alias, resolved, pending, seen, n);
    } else if !Taken(fs, top, tracked, relative) {
      FollowsStray(fs, top, tracked, alias, resolved, pending, seen, n);
    } else if IsDir(fs, top, relative) {
      FollowsFolder(fs, top, tracked, alias, resolved, pending, seen, n);
    } else {
      FollowsNowhere(fs, top, tracked, alias, resolved, pending, seen, n);
    }
  }

  /** A tracked link on the way: refused if it is none, absolute, or taken before, and followed otherwise. */
  lemma TakeLink(fs: Nodes, top: nat, tracked: Tracked, alias: Path, resolved: Path, pending: seq<Piece>,
                 seen: set<Path>, n: Name)
    requires Tree(fs, top) && Follows(fs, top, tracked, alias, resolved, pending, seen)
    requires pending != [] && pending[0] == Named(n)
    requires resolved + [n] in tracked && tracked[resolved + [n]] == LinkMode
    ensures var relative := resolved + [n];
      if relative in seen || !IsLink(fs, top, relative) || fs[At(fs, top, relative).value].absolute
      then Inaccessible(fs, top, tracked, alias)
      else Follows(fs, top, tracked, alias, resolved, Parts(fs[At(fs, top, relative).value].target) + pending[1..],
                   seen + {relative})
  {
    var relative := resolved + [n];
    if IsLink(fs, top, relative) {
      FollowsLink(fs, top, tracked, alias, resolved, pending, seen, n);
    } else if IsDir(fs, top, relative) || IsRegular(fs, top, relative) {
      FollowsStray(fs, top, tracked, alias, resolved, pending, seen, n);
    } else {
      FollowsNowhere(fs, top, tracked, alias, resolved, pending, seen, n);
    }
  }

  /** One alias; `None` for any of the source's refusals. */
  method Resolve(fs: Nodes, top: nat, tracked: Tracked, alias: Path) returns (target: Option<Path>)
    requires Tree(fs, top)
    ensures target.Some? ==> Target(fs, top, tracked, alias, target.value)
    ensures target.None? <==> Inaccessible(fs, top, tracked, alias)
  {
    var pending := Pieces(alias);
    var resolved: Path := [];
    var seen: set<Path> := {};
    FollowsStart(fs, top, tracked, alias);
    while pending != []
      invariant seen <= tracked.Keys
      invariant Kept(fs, top, tracked, alias, resolved, pending, seen)
      decreases tracked.Keys - seen, |pending|
    {
      var part, rest := pending[0], pending[1..];
      match part
      case Up =>
        FollowsUp(fs, top, tracked, alias, resolved, pending, seen);
        if resolved == [] { return None; }
        resolved, pending := resolved[..|resolved|-1], rest;
      case Named(name) =>
        var relative := resolved + [name];
        if relative in tracked && tracked[relative] == LinkMode {
          TakeLink(fs, top, tracked, alias, resolved, pending, seen, name);
          if relative in seen || !IsLink(fs, top, relative) { return None; }
          var link := fs[At(fs, top, relative).value];
          if link.absolute { return None; }
          seen := seen + {relative};
          pending := Parts(link.target) + rest;
        } else {
          TakeName(fs, top, tracked, alias, resolved, pending, seen, name);
          if rest != [] && (!InDirectories(tracked, relative) || IsLink(fs, top, relative)
                            || !IsDir(fs, top, relative)) {
            return None;
          }
          resolved, pending := relative, rest;
        }
      case Here => assert false by { KeptHasNoHere(fs, top, tracked, alias, resolved, pending, seen); }
    }
    if Follows(fs, top, tracked, alias, resolved, [], seen) {
      FollowsEnd(fs, top, tracked, alias, resolved, seen);
    }
    if resolved !in tracked || tracked[resolved] != RegularMode || !IsRegular(fs, top, resolved) { return None; }
    return Some(resolved);
  }

  lemma KeptHasNoHere(fs: Nodes, top: nat, tracked: Tracked, alias: Path, resolved: Path, pending: seq<Piece>,
                      seen: set<Path>)
    requires Kept(fs, top, tracked, alias, resolved, pending, seen)
    ensures Here !in pending
  {
    if Follows(fs, top, tracked, alias, resolved, pending, seen) {
      var k, whole, crossed, labels := Unfold(fs, top, tracked, alias, resolved, pending, seen);
    }
  }

  // --- All aliases ------------------------------------------------------------------------------

  /** A result of the whole function: every tracked link, and no other path, with the file it stands for. */
  ghost predicate Resolved(fs: Nodes, top: nat, tracked: Tracked, aliases: map<Path, Path>) {
    && (forall a :: a in aliases <==> a in tracked && tracked[a] == LinkMode)
    && (forall a :: a in aliases ==> Target(fs, top, tracked, a, aliases[a]))
  }

  /** `listing` are the tracked paths in the order of `git ls-tree`. */
  method Aliases(fs: Nodes, top: nat, tracked: Tracked, listing: seq<Path>) returns (aliases: Option<map<Path, Path>>)
    requires Tree(fs, top) && forall p :: p in tracked <==> p in listing
    ensures aliases.Some? ==> Resolved(fs, top, tracked, aliases.value)
    ensures aliases.None? <==> exists a :: a in tracked && tracked[a] == LinkMode && Inaccessible(fs, top, tracked, a)
  {
    var found: map<Path, Path> := map[];
    for i := 0 to |listing|
      invariant forall a :: a in found <==> a in listing[..i] && a in tracked && tracked[a] == LinkMode
      invariant forall a :: a in found ==> Target(fs, top, tracked, a, found[a])
    {
      var alias := listing[i];
      assert listing[..i+1] == listing[..i] + [alias];
      if tracked[alias] == LinkMode {
        var target := Resolve(fs, top, tracked, alias);
        if target.None? { return None; }
        found := found[alias := target.value];
      }
    }
    assert listing[..|listing|] == listing;
    return Some(found);
  }

  // --- Against the operating system --------------------------------------------------------------

  /**
   The target is the file that the operating system finds exactly if every link that it meets as the last
   piece of the way ends without a slash or `.`.
   */
  lemma TargetIsResolution(fs: Nodes, top: nat, tracked: Tracked, alias: Path, target: Path)
    requires Target(fs, top, tracked, alias, target)
    ensures var file := At(fs, top, target).value;
            ResolvesOnce(fs, top, Pieces(alias), file)
            <==> exists n: nat :: ReachedAt(fs, top, tracked, alias, file, n) && TidyTo(fs, top, Pieces(alias), n)
  {
    var file := At(fs, top, target).value;
    forall n: nat | ReachedAt(fs, top, tracked, alias, file, n)
      ensures ResolvesOnce(fs, top, Pieces(alias), file) <==> TidyTo(fs, top, Pieces(alias), n)
    {
      ReachesResolvesIff(fs, top, Pieces(alias), file, n);
    }
    var n: nat :| ReachedAt(fs, top, tracked, alias, file, n);
  }

  /** What is lost is no file below `top` that the operating system finds without following a link twice. */
  lemma LostIsUnresolved(fs: Nodes, top: nat, alias: Path)
    requires Lost(fs, top, alias)
    ensures forall file :: !ResolvesOnce(fs, top, Pieces(alias), file)
  {
    forall file: nat ensures !ResolvesOnce(fs, top, Pieces(alias), file) {
      if ResolvesOnce(fs, top, Pieces(alias), file) {
        var n: nat :| EndsAt(Run(fs, top, Walking(top, Pieces(alias), []), n), file);
        ResolvesIsReaches(fs, top, Pieces(alias), file, n);
      }
    }
  }

  /** An alias whose resolution follows a link twice is refused, whether it goes round or not. */
  lemma RepeatedIsInaccessible(fs: Nodes, top: nat, tracked: Tracked, alias: Path, n: nat)
    requires var w := Run(fs, top, Walking(top, Pieces(alias), []), n); !w.Gone? && !Distinct(Crossed(w))
    ensures Inaccessible(fs, top, tracked, alias)
  {
    forall file: nat ensures !Reaches(fs, top, Pieces(alias), file) {
      RepeatedNeverReaches(fs, top, Pieces(alias), n, file);
    }
    LostIsInaccessible(fs, top, tracked, alias);
  }

  /**
   An alias that the operating system resolves to a regular file below `top` is accepted exactly if that
   follows no link twice and takes only what is tracked.
   */
  lemma FoundIsAccepted(fs: Nodes, top: nat, tracked: Tracked, alias: Path, file: nat, crossed: seq<(nat, Name)>,
                        n: nat)
    requires IsFile(fs, file) && Run(fs, top, Walking(top, Pieces(alias), []), n) == Arrived(file, crossed)
    ensures !Inaccessible(fs, top, tracked, alias) <==> Distinct(crossed) && StaysTo(fs, top, tracked, alias, n)
    ensures Distinct(crossed) && StaysTo(fs, top, tracked, alias, n) ==> Accessible(fs, top, tracked, alias, file)
  {
    var m := ArrivesBy(fs, top, Pieces(alias), file, crossed, n);
    if other: nat, k: nat :| ReachedAt(fs, top, tracked, alias, other, k) {
      LastNameOnTheWay(fs, top, Pieces(alias), file, crossed, m, other, k);
      StaysAfter(fs, top, tracked, alias, m + 1, n);
      assert ReachedAt(fs, top, tracked, alias, file, m);
      assert Accessible(fs, top, tracked, alias, file);
    } else if Distinct(crossed) && StaysTo(fs, top, tracked, alias, n) {
      assert ReachedAt(fs, top, tracked, alias, file, m);
    } else {
      forall other: nat ensures !Accessible(fs, top, tracked, alias, other) { }
    }
  }

  lemma StaysAfter(fs: Nodes, top: nat, tracked: Tracked, alias: Path, m: nat, n: nat)
    requires StaysTo(fs, top, tracked, alias, m) && Run(fs, top, Walking(top, Pieces(alias), []), m).Arrived?
    ensures StaysTo(fs, top, tracked, alias, n)
  {
    var start := Walking(top, Pieces(alias), []);
    forall j: nat | m <= j ensures Stays(fs, top, tracked, Run(fs, top, start, j)) {
      RunOn(fs, top, start, m, j - m);
      Ended(fs, top, Run(fs, top, start, m), j - m);
    }
  }

  // --- Where the two differ ----------------------------------------------------------------------

  const TWICE: Nodes := map[
    0 := Folder(map["a" := 1, "d" := 2, "e" := 3], 9),
    1 := Link(false, [Named("d"), Up, Named("d"), Named("f")]),
    2 := Link(false, [Named("e")]),
    3 := Folder(map["f" := 4], 0),
    4 := Plain]

  lemma TwiceIsTree()
    ensures Tree(TWICE, 0)
  {
    forall d | IsFolder(TWICE, d) ensures d == 0 || d == 3 { }
  }

  lemma TwiceBefore()
    ensures Run(TWICE, 0, Walking(0, Pieces(["a"]), []), 4)
              == Walking(0, [Named("d"), Named("f")], [(0, "a"), (0, "d")])
  {
    var start := Walking(0, Pieces(["a"]), []);
    assert Pieces(["a"]) == [Named("a")];
    assert Run(TWICE, 0, start, 1) == Walking(0, [Named("d"), Up, Named("d"), Named("f")], [(0, "a")]);
    assert Run(TWICE, 0, start, 2) == Walking(0, [Named("e"), Up, Named("d"), Named("f")], [(0, "a"), (0, "d")]);
    assert Run(TWICE, 0, start, 3) == Walking(3, [Up, Named("d"), Named("f")], [(0, "a"), (0, "d")]);
  }

  lemma TwiceAfter(start: Walk)
    requires Run(TWICE, 0, start, 4) == Walking(0, [Named("d"), Named("f")], [(0, "a"), (0, "d")])
    ensures Run(TWICE, 0, start, 7) == Arrived(4, [(0, "a"), (0, "d"), (0, "d")])
  {
    assert Run(TWICE, 0, start, 5) == Walking(0, [Named("e"), Named("f")], [(0, "a"), (0, "d"), (0, "d")]);
    assert Run(TWICE, 0, start, 6) == Walking(3, [Named("f")], [(0, "a"), (0, "d"), (0, "d")]);
  }

  /**
   `a -> d/../d/f` with `d -> e` has no cycle: the operating system finds the file `e/f`. It follows
   `d` twice, so the worklist refuses it as one, whatever is tracked.
   */
  lemma RepeatedLinkIsRefused(tracked: Tracked)
    ensures Tree(TWICE, 0)
    ensures exists n: nat, crossed :: Run(TWICE, 0, Walking(0, Pieces(["a"]), []), n) == Arrived(4, crossed)
    ensures Inaccessible(TWICE, 0, tracked, ["a"])
  {
    TwiceIsTree();
    TwiceBefore();
    TwiceAfter(Walking(0, Pieces(["a"]), []));
    var crossed := [(0, "a"), (0, "d"), (0, "d")];
    assert crossed[1] == crossed[2];
    RepeatedIsInaccessible(TWICE, 0, tracked, ["a"], 7);
  }

  const SLASHED: Nodes := map[
    0 := Folder(map["a" := 1, "f" := 2], 9),
    1 := Link(false, [Named("f"), Here]),
    2 := Plain]

  const SLASHED_TRACKED: Tracked := map[["a"] := LinkMode, ["f"] := RegularMode]

  /**
   `a -> f/` with a regular file `f`: the operating system refuses the slash after a file, while the
   worklist, whose pieces know no trailing slash, takes `f` for the file that `a` stands for.
   */
  lemma TrailingSlashIsTaken()
    ensures Tree(SLASHED, 0) && Accessible(SLASHED, 0, SLASHED_TRACKED, ["a"], 2)
    ensures forall file :: !ResolvesOnce(SLASHED, 0, Pieces(["a"]), file)
  {
    SlashedSteps();
    SlashedStays();
    assert ReachedAt(SLASHED, 0, SLASHED_TRACKED, ["a"], 2, 1);
    forall file: nat ensures !ResolvesOnce(SLASHED, 0, Pieces(["a"]), file) {
      GoneForGood(SLASHED, 0, Pieces(["a"]), 2, file);
    }
  }

  lemma SlashedStays()
    ensures Tree(SLASHED, 0) && StaysTo(SLASHED, 0, SLASHED_TRACKED, ["a"], 2)
  {
    SlashedSteps();
    SlashedTaken();
    var start := Walking(0, Pieces(["a"]), []);
    StaysAtName(SLASHED, 0, SLASHED_TRACKED, [], "a", start);
    StaysAtName(SLASHED, 0, SLASHED_TRACKED, [], "f", Run(SLASHED, 0, start, 1));
    assert Run(SLASHED, 0, start, 0) == start;
  }

  lemma SlashedTaken()
    ensures Tree(SLASHED, 0)
    ensures Taken(SLASHED, 0, SLASHED_TRACKED, [] + ["a"]) && Taken(SLASHED, 0, SLASHED_TRACKED, [] + ["f"])
  {
    AtAppend(SLASHED, 0, [], "a");
    AtAppend(SLASHED, 0, [], "f");
    assert [] + ["a"] == ["a"] && [] + ["f"] == ["f"];
  }

  lemma SlashedSteps()
    ensures LastName(SLASHED, Run(SLASHED, 0, Walking(0, Pieces(["a"]), []), 1), 2)
    ensures Run(SLASHED, 0, Walking(0, Pieces(["a"]), []), 2) == Gone
  {
    assert Pieces(["a"]) == [Named("a")];
    assert Run(SLASHED, 0, Walking(0, Pieces(["a"]), []), 1) == Walking(0, [Named("f"), Here], [(0, "a")]);
  }
}
